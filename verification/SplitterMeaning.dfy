/** What the splitter's answer means: the text of the last model message, and exactly when it is. */
module SplitterMeaning {
  import opened AnswerSplitter

  type Message = seq<Chunk>

  function Text(m: Message): string { if m == [] then "" else m[0].text + Text(m[1..]) }

  predicate Calls(m: Message) { exists i | 0 <= i < |m| :: m[i].calls }

  predicate HasId(m: Message, id: string) { m != [] && forall i | 0 <= i < |m| :: m[i].id == id }

  /** No text follows a tool call within the message. */
  predicate ToolsLast(m: Message) {
    forall i, j | 0 <= i < j < |m| :: m[i].calls ==> m[j].text == ""
  }

  function Stream(messages: seq<Message>): seq<Chunk> {
    if messages == [] then [] else messages[0] + Stream(messages[1..])
  }

  /** Stages that feed() can leave behind: keys are never empty and narration keeps no text. */
  predicate Sound(m: Machine) {
    m.stage.Open? ==> m.stage.key != "" && (m.stage.narration ==> m.stage.text == "")
  }

  lemma {:induction false} EveryStreamIsSound(m: Machine, chunks: seq<Chunk>)
    requires Sound(m)
    ensures Sound(FeedAll(m, chunks))
    decreases |chunks|
  {
    if chunks != [] {
      assert StartKey(m, chunks[0]) != "" by { assert SegmentKey(m.count)[0] == 's'; }
      EveryStreamIsSound(Feed(m, chunks[0]), chunks[1..]);
    }
  }

  lemma {:induction false} FeedAllInTwo(m: Machine, a: seq<Chunk>, b: seq<Chunk>)
    ensures FeedAll(m, a + b) == FeedAll(FeedAll(m, a), b)
    decreases |a|
  {
    if a == [] {
      assert a + b == b;
    } else {
      assert (a + b)[1..] == a[1..] + b;
      FeedAllInTwo(Feed(m, a[0]), a[1..], b);
    }
  }

  // ----- one message -----

  /** The chunk ids keep the message inside segment key. */
  predicate Inside(id: string, key: string) { id == "" || id == key }

  /** Chunks without text leave a narration segment as it is. */
  lemma {:induction false} NarrationStays(s: Machine, m: Message, id: string)
    requires s.stage.Open? && s.stage.narration && Inside(id, s.stage.key)
    requires forall i | 0 <= i < |m| :: m[i].id == id && m[i].text == ""
    ensures FeedAll(s, m) == s
    decreases |m|
  {
    if m != [] { NarrationStays(s, m[1..], id); }
  }

  /** A message that runs on inside an open segment adds its text, or turns it into narration. */
  lemma {:induction false} MessageRuns(s: Machine, m: Message, id: string)
    requires s.stage.Open? && !s.stage.narration && Inside(id, s.stage.key)
    requires (forall i | 0 <= i < |m| :: m[i].id == id) && ToolsLast(m)
    ensures FeedAll(s, m).stage
            == if Calls(m) then Open(s.stage.key, true, "") else Open(s.stage.key, false, s.stage.text + Text(m))
    decreases |m|
  {
    if m == [] {
    } else if m[0].calls {
      NarrationStays(Feed(s, m[0]), m[1..], id);
    } else {
      assert Calls(m) <==> Calls(m[1..]) by {
        if Calls(m) { var i :| 0 <= i < |m| && m[i].calls; assert m[1..][i - 1].calls; }
      }
      MessageRuns(Feed(s, m[0]), m[1..], id);
      assert s.stage.text + m[0].text + Text(m[1..]) == s.stage.text + Text(m);
    }
  }

  lemma CallsLater(m: Message)
    requires m != [] && !m[0].calls
    ensures Calls(m) <==> Calls(m[1..])
  {
    if Calls(m) { var i :| 0 <= i < |m| && m[i].calls; assert m[1..][i - 1].calls; }
  }

  /** The first chunk of the message opens a segment that the other chunks stay in. */
  lemma MessageStarts(s: Machine, m: Message, id: string)
    requires HasId(m, id) && ToolsLast(m) && Starts(s, m[0]) && Inside(id, StartKey(s, m[0]))
    ensures FeedAll(s, m).stage
            == if Calls(m) then Open(StartKey(s, m[0]), true, "") else Open(StartKey(s, m[0]), false, Text(m))
  {
    var begun := Opened(s, StartKey(s, m[0]));
    assert Feed(s, m[0]) == Extended(begun, m[0]);
    if m[0].calls {
      NarrationStays(Feed(s, m[0]), m[1..], id);
    } else {
      CallsLater(m);
      MessageRuns(Feed(s, m[0]), m[1..], id);
      assert "" + m[0].text == m[0].text;
    }
  }

  /** The splitter can tell that a message with this id is not part of the segment before it. */
  predicate Noticed(s: Machine, id: string) {
    match s.stage
    case Idle => true
    case Open(key, narration, _) => if id == "" then narration else id != key
  }

  /** A noticed message contributes its whole text, or nothing if it called tools. */
  lemma {:induction false} MessageOutcome(s: Machine, m: Message, id: string)
    requires Sound(s) && HasId(m, id) && ToolsLast(m) && Noticed(s, id)
    ensures var later := FeedAll(s, m);
            && later.stage.Open?
            && Answer(later) == (if Calls(m) then "" else Text(m))
            && (Calls(m) ==> later.stage.narration)
            && (id != "" ==> later.stage.key == id)
    decreases |m|
  {
    if Starts(s, m[0]) {
      MessageStarts(s, m, id);
    } else if m[0].calls {
      NarrationStays(s, m, id);
    } else if |m| > 1 {
      CallsLater(m);
      MessageOutcome(s, m[1..], id);
    }
  }

  // ----- the whole stream -----

  /** The messages of one agent loop: either all carry ids and neighbours differ, or none does and
      every message but the last called tools (which is why the loop went on). */
  ghost predicate Conversation(messages: seq<Message>, ids: seq<string>) {
    && |messages| == |ids|
    && (forall i | 0 <= i < |messages| :: HasId(messages[i], ids[i]) && ToolsLast(messages[i]))
    && (forall i | 0 < i < |messages| ::
          if ids[i] == "" then ids[i - 1] == "" && Calls(messages[i - 1]) else ids[i] != ids[i - 1] && ids[i - 1] != "")
  }

  lemma {:induction false} StreamOutcome(s: Machine, messages: seq<Message>, ids: seq<string>)
    requires messages != [] && Conversation(messages, ids) && Sound(s) && Noticed(s, ids[0])
    ensures Answer(FeedAll(s, Stream(messages)))
            == if Calls(messages[|messages| - 1]) then "" else Text(messages[|messages| - 1])
    decreases |messages|
  {
    MessageOutcome(s, messages[0], ids[0]);
    EveryStreamIsSound(s, messages[0]);
    var rest := messages[1..];
    FeedAllInTwo(s, messages[0], Stream(rest));
    if rest != [] {
      assert Calls(messages[0]) || ids[1] != "";
      StreamOutcome(FeedAll(s, messages[0]), rest, ids[1..]);
    }
  }

  /** finish() is the whole text of the last model message, or empty if that message called tools. */
  lemma AnswerIsTheLastMessage(messages: seq<Message>, ids: seq<string>)
    requires messages != [] && Conversation(messages, ids)
    ensures Answer(FeedAll(START, Stream(messages)))
            == if Calls(messages[|messages| - 1]) then "" else Text(messages[|messages| - 1])
  {
    StreamOutcome(START, messages, ids);
  }

  // ----- exactly when the last message survives -----

  /** Before the final chunk there is no text. */
  predicate TextInFinalChunkOnly(m: Message) { forall i | 0 <= i < |m| - 1 :: m[i].text == "" }

  /** After any stream s, a tool-free message is the answer, whole, exactly in these cases. */
  predicate Survives(s: Machine, m: Message, id: string) {
    match s.stage
    case Idle => true
    case Open(key, narration, text) =>
      if !Inside(id, key) then true
      else if !narration then text == ""
      else id == "" || id == SegmentKey(s.count) || TextInFinalChunkOnly(m)
  }

  lemma LongerText(a: string, b: string)
    ensures a + b == b <==> a == ""
  {
    assert |a + b| == |a| + |b|;
    if a == "" { assert a + b == b; }
  }

  /** An id reused after a tool call: the first chunk with text goes to a fresh segment of its own,
      and the next chunk, back under the old id, turns that segment into narration. */
  lemma {:induction false} ReusedIdOutcome(s: Machine, m: Message, id: string)
    requires Sound(s) && HasId(m, id) && !Calls(m) && s.stage.Open? && s.stage.narration
    requires id == s.stage.key && id != SegmentKey(s.count)
    ensures Answer(FeedAll(s, m)) == Text(m) <==> TextInFinalChunkOnly(m)
    decreases |m|
  {
    if m[0].text == "" {
      assert Feed(s, m[0]) == s;
      if |m| > 1 {
        CallsLater(m);
        ReusedIdOutcome(s, m[1..], id);
        assert TextInFinalChunkOnly(m) <==> TextInFinalChunkOnly(m[1..]) by {
          if TextInFinalChunkOnly(m) {
            forall i | 0 <= i < |m[1..]| - 1 ensures m[1..][i].text == "" { assert m[1..][i] == m[i + 1]; }
          } else {
            var i :| 0 <= i < |m| - 1 && m[i].text != "";
            assert m[1..][i - 1].text != "";
          }
        }
      }
    } else {
      var next := Feed(s, m[0]);
      assert next.stage == Open(SegmentKey(s.count), false, m[0].text);
      if |m| > 1 {
        var rest := m[1..];
        CallsLater(m);
        MessageStarts(next, rest, id);
        LongerText(m[0].text, Text(rest));
      }
    }
  }

  /** For every earlier stream and every tool-free message under one id, with or without text. */
  lemma LastMessageSurvivesExactly(s: Machine, m: Message, id: string)
    requires Sound(s) && HasId(m, id) && !Calls(m)
    ensures Answer(FeedAll(s, m)) == Text(m) <==> Survives(s, m, id)
  {
    if Noticed(s, id) {
      MessageOutcome(s, m, id);
    } else if !s.stage.narration {
      MessageRuns(s, m, id);
      LongerText(s.stage.text, Text(m));
    } else if id == SegmentKey(s.count) {
      SameKeyOutcome(s, m, id);
    } else {
      ReusedIdOutcome(s, m, id);
    }
  }

  /** The reused id happens to be the key of the fresh segment. */
  lemma {:induction false} SameKeyOutcome(s: Machine, m: Message, id: string)
    requires Sound(s) && HasId(m, id) && !Calls(m) && s.stage.Open? && s.stage.narration
    requires id == s.stage.key == SegmentKey(s.count)
    ensures Answer(FeedAll(s, m)) == Text(m)
    decreases |m|
  {
    if m[0].text != "" {
      MessageStarts(s, m, id);
    } else if |m| > 1 {
      assert Feed(s, m[0]) == s;
      CallsLater(m);
      SameKeyOutcome(s, m[1..], id);
    }
  }

  lemma FeedThree(m: Machine, a: Chunk, b: Chunk, c: Chunk)
    ensures FeedAll(m, [a, b, c]) == Feed(Feed(Feed(m, a), b), c)
  {
    assert [a, b, c][1..] == [b, c] && [b, c][1..] == [c] && [c][1..] == [];
    assert FeedAll(m, [a, b, c]) == FeedAll(Feed(m, a), [b, c]) == FeedAll(Feed(Feed(m, a), b), [c]);
  }

  lemma StreamOfThree(a: Chunk, b: Chunk, c: Chunk)
    ensures Stream([[a], [b, c]]) == [a, b, c] && Text([b, c]) == b.text + c.text
  {
    assert [[a], [b, c]][1..] == [[b, c]] && [[b, c]][1..] == [];
    assert Stream([[b, c]]) == [b, c] + [] && Stream([[a], [b, c]]) == [a] + Stream([[b, c]]);
    assert [b, c][1..] == [c] && [c][1..] == [] && c.text + "" == c.text;
    assert Text([c]) == c.text + Text([]) && Text([b, c]) == b.text + Text([c]);
  }

  /** A provider that reuses one id across calls loses the start of a final answer that it streams in two
      chunks: the answer is the second chunk alone, unless the id happens to be that of the fresh segment. */
  lemma ReusedIdDropsTheStart(id: string, said: string, start: string, rest: string)
    requires id != "" && start != ""
    ensures var first, last := [Chunk(id, said, true)], [Chunk(id, start, false), Chunk(id, rest, false)];
            && Text(last) == start + rest
            && Answer(FeedAll(START, Stream([first, last]))) == (if id == SegmentKey(1) then start + rest else rest)
  {
    var a, b, c := Chunk(id, said, true), Chunk(id, start, false), Chunk(id, rest, false);
    StreamOfThree(a, b, c);
    FeedThree(START, a, b, c);
    assert Feed(START, a).stage == Open(id, true, "") && Feed(START, a).count == 1;
    assert Feed(Feed(START, a), b).stage == Open(SegmentKey(1), false, start);
    assert "" + rest == rest;
  }

  /** For example an answer of "3.3 V." where the model said "It is 3.3 V." */
  lemma ReusedIdLosesText()
    ensures var first := [Chunk("run", "Let me look.", true)];
            var last := [Chunk("run", "It is ", false), Chunk("run", "3.3 V.", false)];
            && Text(last) == "It is 3.3 V."
            && Answer(FeedAll(START, Stream([first, last]))) == "3.3 V."
  {
    assert SegmentKey(1)[0] == 's' && "run"[0] == 'r';
    assert "It is " + "3.3 V." == "It is 3.3 V.";
    ReusedIdDropsTheStart("run", "Let me look.", "It is ", "3.3 V.");
  }

  // ----- keys and removals -----

  /** The number a decimal text stands for. */
  function Value(s: string): int {
    if s == "" then 0 else 10 * Value(s[..|s| - 1]) + (s[|s| - 1] as int - '0' as int)
  }

  /** A fresh key ends in the number of segments started so far, in decimal digits. */
  lemma {:induction false} FreshKeyIsNumbered(n: nat)
    ensures "seg-" <= SegmentKey(n) && SegmentKey(n)[4..] == Digits(n)
    ensures Value(Digits(n)) == n && Digits(n) != "" && forall c <- Digits(n) :: '0' <= c <= '9'
  {
    var digits := Digits(n);
    assert forall d | 0 <= d < 10 :: ("0123456789")[d] as int == '0' as int + d;
    if n < 10 {
      assert digits[..|digits| - 1] == "";
    } else {
      FreshKeyIsNumbered(n / 10);
      assert digits[..|digits| - 1] == Digits(n / 10);
    }
  }

  lemma FreshKeysDiffer(m: nat, n: nat)
    requires SegmentKey(m) == SegmentKey(n)
    ensures m == n
  {
    FreshKeyIsNumbered(m);
    FreshKeyIsNumbered(n);
  }

  /** The first place at or after from, for a position, or nowhere for -1. */
  predicate FirstAt(s: string, part: string, from: nat, at: int) {
    if at < 0 then forall j: nat :: from <= j <= |s| ==> !OccursAt(s, part, j)
    else from <= at && OccursAt(s, part, at) && forall j: nat :: from <= j < at ==> !OccursAt(s, part, j)
  }

  /** What the consumer removes for one narration: its first occurrence behind the removal before it; if there is
      none, its first occurrence anywhere; and nothing if it does not occur. The search goes on from there. */
  lemma TakesOutFirst(s: string, from: nat, text: string, at: int, anywhere: int)
    requires text != "" && FirstAt(s, text, from, at) && FirstAt(s, text, 0, anywhere)
    ensures TakenOut(s, from, text)
            == if at >= 0 then (s[..at] + s[at + |text|..], at)
               else if anywhere >= 0 then (s[..anywhere] + s[anywhere + |text|..], anywhere)
               else (s, from)
  {
    FindIsFirst(s, text, from, at);
    FindIsFirst(s, text, 0, anywhere);
  }

  lemma FindIsFirst(s: string, part: string, from: nat, at: int)
    requires FirstAt(s, part, from, at)
    ensures if at >= 0 then Find(s, part, from) == at else Find(s, part, from) < 0
  {
    var found := Find(s, part, from);
    assert at >= 0 ==> OccursAt(s, part, at);
    assert found >= 0 ==> OccursAt(s, part, found) && found <= |s|;
  }
}
