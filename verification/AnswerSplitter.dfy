/** The streaming narration/answer splitter and its consumer (src/agents/runner.py). */
module AnswerSplitter {

  /** A model-node chunk as feed() sees it: its id, its text, and whether it carries tool calls. */
  datatype Chunk = Chunk(id: string, text: string, calls: bool)

  // ----- the simple machine: one open segment, no table -----

  /** text is the open segment's text; for narration it is no longer needed and left empty. */
  datatype Stage = Idle | Open(key: string, narration: bool, text: string)

  /** count counts the segments started, retracted lists the announced narrations in order, and
      yielded is everything streamed to the consumer. */
  datatype Machine = Machine(stage: Stage, count: nat, retracted: seq<string>, yielded: string)

  const START := Machine(Idle, 0, [], "")

  function Digits(n: nat): string {
    if n < 10 then [("0123456789")[n]] else Digits(n / 10) + [("0123456789")[n % 10]]
  }

  function SegmentKey(n: nat): string { "seg-" + Digits(n) }

  function Retract(retracted: seq<string>, text: string): seq<string> {
    if text == "" then retracted else retracted + [text]
  }

  /** The key of the segment that chunk c starts, if it starts one. */
  predicate Starts(m: Machine, c: Chunk) {
    match m.stage
    case Idle => true
    case Open(key, narration, _) => (c.id != "" && c.id != key) || (narration && c.text != "")
  }

  function StartKey(m: Machine, c: Chunk): string {
    match m.stage
    case Idle => if c.id != "" then c.id else "seg-0"
    case Open(key, _, _) => if c.id != "" && c.id != key then c.id else SegmentKey(m.count)
  }

  function Opened(m: Machine, key: string): Machine {
    Machine(Open(key, false, ""), m.count + 1,
            if m.stage.Open? && !m.stage.narration then Retract(m.retracted, m.stage.text) else m.retracted,
            m.yielded)
  }

  function Extended(m: Machine, c: Chunk): Machine
    requires m.stage.Open?
  {
    var Open(key, narration, text) := m.stage;
    if narration then m
    else if c.calls then m.(stage := Open(key, true, ""), retracted := Retract(m.retracted, text))
    else m.(stage := Open(key, false, text + c.text), yielded := m.yielded + c.text)
  }

  function Feed(m: Machine, c: Chunk): Machine {
    Extended(if Starts(m, c) then Opened(m, StartKey(m, c)) else m, c)
  }

  function FeedAll(m: Machine, chunks: seq<Chunk>): Machine
    decreases |chunks|
  {
    if chunks == [] then m else FeedAll(Feed(m, chunks[0]), chunks[1..])
  }

  function Answer(m: Machine): string {
    if m.stage.Open? && !m.stage.narration then m.stage.text else ""
  }

  // ----- what the consumer rebuilds -----

  function Joined(parts: seq<string>): string {
    if parts == [] then "" else parts[0] + Joined(parts[1..])
  }

  predicate OccursAt(s: string, part: string, at: nat) {
    at + |part| <= |s| && s[at..at + |part|] == part
  }

  /** Index of the first occurrence of part at or after from, or -1 (str.find). */
  function Find(s: string, part: string, from: nat): (idx: int)
    ensures idx >= 0 ==> from <= idx && OccursAt(s, part, idx)
    ensures forall j: nat :: from <= j && (idx < 0 || j < idx) ==> !OccursAt(s, part, j)
    decreases |s| - from
  {
    if from + |part| > |s| then -1
    else if OccursAt(s, part, from) then from
    else Find(s, part, from + 1)
  }

  /** What is left of s, and where the search goes on, when one narration is taken out. */
  function TakenOut(s: string, from: nat, text: string): (string, nat) {
    var at, anywhere := Find(s, text, from), Find(s, text, 0);
    if text == "" then (s, from)
    else if at >= 0 then (s[..at] + s[at + |text|..], at)
    else if anywhere >= 0 then (s[..anywhere] + s[anywhere + |text|..], anywhere)
    else (s, from)
  }

  /** strip_narration_segments after its first narrations were handled. */
  function Stripped(s: string, from: nat, narrations: seq<string>): string
    decreases |narrations|
  {
    if narrations == [] then s
    else
      var (left, next) := TakenOut(s, from, narrations[0]);
      Stripped(left, next, narrations[1..])
  }

  method StripNarrationSegments(answer: string, narrations: seq<string>) returns (result: string)
    ensures result == Stripped(answer, 0, narrations)
  {
    result := answer;
    var searchFrom := 0;
    for i := 0 to |narrations|
      invariant searchFrom >= 0 && Stripped(answer, 0, narrations) == Stripped(result, searchFrom, narrations[i..])
    {
      assert narrations[i..][0] == narrations[i] && narrations[i..][1..] == narrations[i + 1..];
      var text := narrations[i];
      if text == "" { continue; }
      var idx := Find(result, text, searchFrom);
      if idx < 0 {
        idx := Find(result, text, 0);
        if idx < 0 { continue; }
        searchFrom := 0;
      }
      result := result[..idx] + result[idx + |text|..];
      searchFrom := idx;
    }
  }

  // ----- conservation -----

  /** What was streamed is what was retracted, in order, followed by the provisional answer. */
  predicate Balanced(m: Machine) { m.yielded == Joined(m.retracted) + Answer(m) }

  lemma {:induction false} JoinedLast(parts: seq<string>, last: string)
    ensures Joined(parts + [last]) == Joined(parts) + last
  {
    if parts == [] {
      assert [] + [last] == [last] && Joined([last]) == last + Joined([]);
    } else {
      assert (parts + [last])[1..] == parts[1..] + [last];
      JoinedLast(parts[1..], last);
    }
  }

  lemma RetractJoins(retracted: seq<string>, text: string)
    ensures Joined(Retract(retracted, text)) == Joined(retracted) + text
  {
    if text != "" { JoinedLast(retracted, text); }
  }

  lemma FeedBalanced(m: Machine, c: Chunk)
    requires Balanced(m)
    ensures Balanced(Feed(m, c))
  {
    if m.stage.Open? { RetractJoins(m.retracted, m.stage.text); }
    var started := if Starts(m, c) then Opened(m, StartKey(m, c)) else m;
    assert Balanced(started);
    RetractJoins(started.retracted, started.stage.text);
    if !started.stage.narration && !c.calls {
      assert Joined(started.retracted) + (started.stage.text + c.text)
          == (Joined(started.retracted) + started.stage.text) + c.text;
    }
  }

  lemma {:induction false} FeedAllBalanced(m: Machine, chunks: seq<Chunk>)
    requires Balanced(m)
    ensures Balanced(FeedAll(m, chunks))
    decreases |chunks|
  {
    if chunks != [] {
      FeedBalanced(m, chunks[0]);
      FeedAllBalanced(Feed(m, chunks[0]), chunks[1..]);
    }
  }

  /** Removing the parts of a joined prefix one after another leaves exactly what follows it. */
  lemma {:induction false} StripsJoinedPrefix(parts: seq<string>, rest: string)
    ensures Stripped(Joined(parts) + rest, 0, parts) == rest
  {
    if parts == [] {
      assert Joined(parts) + rest == rest;
    } else {
      var s, text := Joined(parts) + rest, parts[0];
      assert s == text + (Joined(parts[1..]) + rest);
      assert s[0..|text|] == text && s[..0] + s[|text|..] == Joined(parts[1..]) + rest;
      StripsJoinedPrefix(parts[1..], rest);
      if text == "" { assert s == Joined(parts[1..]) + rest; }
    }
  }

  lemma Regroup(a: string, b: string, c: string)
    ensures a + b + c == a + (b + c)
  {}

  lemma StrippingBalanced(m: Machine, notice: string)
    requires Balanced(m)
    ensures Stripped(m.yielded + notice, 0, m.retracted) == Answer(m) + notice
  {
    hide Joined, Answer;
    Regroup(Joined(m.retracted), Answer(m), notice);
    StripsJoinedPrefix(m.retracted, Answer(m) + notice);
  }

  /** For every stream: stripping the announced narrations from the streamed text gives exactly what
      finish() returns, and so does stripping them when more text (such as the step-budget notice) follows. */
  lemma StrippingRecoversTheAnswer(chunks: seq<Chunk>, notice: string)
    ensures Stripped(FeedAll(START, chunks).yielded + notice, 0, FeedAll(START, chunks).retracted)
            == Answer(FeedAll(START, chunks)) + notice
  {
    FeedAllBalanced(START, chunks);
    StrippingBalanced(FeedAll(START, chunks), notice);
  }

  // ----- the splitter as written -----

  datatype Segment = Segment(text: string, streamed: string, narration: bool, announced: bool)

  /** _AnswerSplitter; retracted collects what the on_narration callback was given. */
  class Splitter {
    var order: seq<string>
    var segments: map<string, Segment>
    var current: string
    var retracted: seq<string>
    ghost var yielded: string

    predicate Settled(seg: Segment) { seg.narration && (seg.announced || seg.streamed == "") }

    predicate OpenSegment(seg: Segment) {
      if seg.narration then seg.announced || seg.streamed == ""
      else !seg.announced && seg.streamed == seg.text
    }

    ghost predicate Valid() reads this {
      && (order == [] <==> current == "")
      && (order != [] ==> order[|order| - 1] == current)
      && (forall k <- order :: k in segments && k != "")
      && (forall k <- segments :: k in order)
      && (forall k <- segments :: k != current ==> Settled(segments[k]))
      && (current != "" ==> OpenSegment(segments[current]))
    }

    ghost function Abs(): Machine
      requires Valid()
      reads this
    {
      Machine(if current == "" then Idle
              else var seg := segments[current]; Open(current, seg.narration, if seg.narration then "" else seg.text),
              |order|, retracted, yielded)
    }

    constructor ()
      ensures Valid() && Abs() == START
    {
      order, segments, current, retracted, yielded := [], map[], "", [], "";
    }

    method Announce(key: string)
      requires key in segments
      modifies this`segments, this`retracted
      ensures var seg := old(segments)[key];
              if seg.narration && !seg.announced && seg.streamed != ""
              then segments == old(segments)[key := seg.(announced := true)]
                   && retracted == old(retracted) + [seg.streamed]
              else segments == old(segments) && retracted == old(retracted)
    {
      var seg := segments[key];
      if seg.narration && !seg.announced && seg.streamed != "" {
        segments := segments[key := seg.(announced := true)];
        retracted := retracted + [seg.streamed];
      }
    }

    method StartSegment(key: string)
      requires Valid() && key != ""
      modifies this`order, this`segments, this`current, this`retracted
      ensures Valid() && Abs() == Opened(old(Abs()), key)
    {
      if current != "" {
        segments := segments[current := segments[current].(narration := true)];
        Announce(current);
      }
      current := key;
      order := order + [key];
      segments := segments[key := Segment("", "", false, false)];
    }

    /** The tail of feed(): the chunk joins the current segment. */
    method Extend(c: Chunk) returns (delta: string)
      requires Valid() && current != ""
      modifies this`segments, this`retracted, this`yielded
      ensures Valid() && Abs() == Extended(old(Abs()), c)
      ensures yielded == old(yielded) + delta
    {
      var seg := segments[current];
      segments := segments[current := seg.(text := seg.text + c.text)];
      if c.calls && !seg.narration {
        segments := segments[current := segments[current].(narration := true)];
        Announce(current);
      }
      if segments[current].narration {
        delta := "";
      } else {
        segments := segments[current := segments[current].(streamed := seg.streamed + c.text)];
        delta := c.text;
      }
      yielded := yielded + delta;
    }

    /** Ingest one chunk; the result is the text to stream now. */
    method FeedChunk(c: Chunk) returns (delta: string)
      requires Valid()
      modifies this
      ensures Valid() && Abs() == Feed(old(Abs()), c)
      ensures yielded == old(yielded) + delta
    {
      if c.id != "" && c.id != current {
        StartSegment(c.id);
      } else if current in segments && segments[current].narration && c.text != "" {
        StartSegment(SegmentKey(|order|));
      } else if current == "" {
        StartSegment("seg-0");
      }
      delta := Extend(c);
    }

    /** The answer text; announcing what is left to announce never finds anything. */
    method Finish() returns (answer: string)
      requires Valid()
      modifies this`segments, this`retracted
      ensures Valid() && Abs() == old(Abs()) && answer == Answer(Abs())
    {
      for i := |order| downto 0
        invariant Valid() && Abs() == old(Abs())
        invariant i < |order| ==> segments[current].narration
      {
        var key := order[i];
        assert key in order;
        if !segments[key].narration { return segments[key].text; }
        Announce(key);
      }
      return "";
    }
  }

  /** A consumer of the whole stream (as in the query route): it joins the deltas, collects the
      narration events, and ends up with the splitter's own answer. */
  method ConsumeStream(chunks: seq<Chunk>) returns (answer: string, shown: string)
    ensures answer == shown == Answer(FeedAll(START, chunks))
  {
    var splitter := new Splitter();
    var deltas := "";
    for i := 0 to |chunks|
      invariant fresh(splitter) && splitter.Valid()
      invariant deltas == splitter.yielded
      invariant FeedAll(splitter.Abs(), chunks[i..]) == FeedAll(START, chunks)
    {
      assert chunks[i..][0] == chunks[i] && chunks[i..][1..] == chunks[i + 1..];
      var delta := splitter.FeedChunk(chunks[i]);
      deltas := deltas + delta;
    }
    assert chunks[|chunks|..] == [];
    answer := splitter.Finish();
    shown := StripNarrationSegments(deltas, splitter.retracted);
    StrippingRecoversTheAnswer(chunks, "");
    assert deltas + "" == deltas && answer + "" == answer;
  }
}
