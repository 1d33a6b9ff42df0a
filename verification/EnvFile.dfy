/** The .env file as text: reading it into lines, saving settings into it, and any run of saves. */
module EnvFile {
  import opened Wrappers
  import opened EnvText
  import opened EnvRoundTrip
  import opened EnvLines
  import opened EnvOverride

  // ----- text and lines -----

  function SplitLines(t: string): seq<string>
    decreases |t|
  {
    if t == "" then []
    else
      var i := IndexOf(t, '\n');
      if i == |t| then [t] else [t[..i + 1]] + SplitLines(t[i + 1..])
  }

  /** readlines of a file opened in text mode: every newline style reads as LF. */
  function ReadLines(t: string): seq<string> { SplitLines(NormaliseNewlines(t)) }

  function Concat(texts: seq<string>): string { if texts == [] then "" else texts[0] + Concat(texts[1..]) }

  function ParseAll(texts: seq<string>): (lines: seq<Line>)
    ensures |lines| == |texts| && forall i | 0 <= i < |texts| :: lines[i] == Parse(texts[i])
  {
    seq(|texts|, i requires 0 <= i < |texts| => Parse(texts[i]))
  }

  function Texts(lines: seq<Line>): (texts: seq<string>)
    ensures |texts| == |lines| && forall i | 0 <= i < |lines| :: texts[i] == lines[i].text
  {
    seq(|lines|, i requires 0 <= i < |lines| => lines[i].text)
  }

  function Lines(t: string): seq<Line> { ParseAll(ReadLines(t)) }

  function SavedLines(t: string, s: Dict): seq<Line>
  {
    SaveLines(Lines(t), s.keys, Entries(s))
  }

  /** The text that a save writes over text t. */
  function SaveText(t: string, s: Dict): string
  {
    Concat(Texts(SavedLines(t, s)))
  }

  // ----- save_settings_to_env -----

  /** The nested loop: it joins lines to an open value until its quote closes. */
  method SkipContinuation(v: string, lines: seq<Line>, start: nat) returns (i: nat)
    requires start <= |lines|
    ensures i == start + Extent(v, lines[start..])
  {
    var value := v;
    i := start;
    while i < |lines| && !QuoteClosed(value)
      invariant start <= i <= |lines|
      invariant i + Extent(value, lines[i..]) == start + Extent(v, lines[start..])
    {
      assert lines[i..][0] == lines[i] && lines[i..][1..] == lines[i + 1..];
      value := value + "\n" + TrimNewlines(lines[i].text);
      i := i + 1;
    }
  }

  lemma Shift(out: seq<Line>, line: Line, rest: seq<Line>)
    ensures out + ([line] + rest) == out + [line] + rest
  {}

  /** The rest of the loop's work after copying, replacing or dropping line i. */
  ghost predicate LoopAt(lines: seq<Line>, i: nat, next: nat, out: seq<Line>, done: set<string>, e: Entered)
    requires i <= |lines| && next <= |lines|
  {
    && Rewrite(lines[i..], e) == out + Rewrite(lines[next..], e)
    && Updated(lines[i..], e) == done + Updated(lines[next..], e)
  }

  lemma LoopCopies(lines: seq<Line>, i: nat, e: Entered)
    requires i < |lines|
    ensures Kept(lines[i], e) ==> LoopAt(lines, i, i + 1, [lines[i]], {}, e)
    ensures lines[i].Neither? ==> LoopAt(lines, i, i + 1, [], {}, e)
  {
    assert lines[i..][0] == lines[i] && lines[i..][1..] == lines[i + 1..];
  }

  lemma LoopReplaces(lines: seq<Line>, i: nat, next: nat, entry: Line, key: string, e: Entered)
    requires i < |lines| && lines[i].Assign? && lines[i].key == key && key in e && e[key] == entry
    requires next == i + 1 + Extent(lines[i].value, lines[i + 1..])
    ensures LoopAt(lines, i, next, [entry], {key}, e)
  {
    assert lines[i..][0] == lines[i] && lines[i..][1..] == lines[i + 1..];
    assert lines[i + 1..][next - (i + 1)..] == lines[next..];
  }

  lemma Advance(lines: seq<Line>, newLines: seq<Line>, updated: set<string>, i: nat, next: nat, out: seq<Line>,
                done: set<string>, e: Entered)
    requires i <= |lines| && next <= |lines| && LoopAt(lines, 0, i, newLines, updated, e)
    requires LoopAt(lines, i, next, out, done, e)
    ensures LoopAt(lines, 0, next, newLines + out, updated + done, e)
  {}

  lemma LoopStarts(lines: seq<Line>, e: Entered)
    ensures LoopAt(lines, 0, 0, [], {}, e)
  {}

  lemma LoopEnds(lines: seq<Line>, newLines: seq<Line>, updated: set<string>, e: Entered)
    requires LoopAt(lines, 0, |lines|, newLines, updated, e)
    ensures newLines == Rewrite(lines, e) && updated == Updated(lines, e)
  {
    assert lines[0..] == lines && newLines + [] == newLines;
  }

  /** The rewriting loop; entries are the lines to write for the settings. */
  method RewriteLines(lines: seq<Line>, entries: Entered) returns (newLines: seq<Line>, updated: set<string>)
    ensures newLines == Rewrite(lines, entries) && updated == Updated(lines, entries)
  {
    newLines, updated := [], {};
    var i := 0;
    LoopStarts(lines, entries);
    while i < |lines|
      invariant i <= |lines| && LoopAt(lines, 0, i, newLines, updated, entries)
      decreases |lines| - i
    {
      var line := lines[i];
      if line.Note? || (line.Assign? && line.key !in entries) {
        LoopCopies(lines, i, entries);
        Advance(lines, newLines, updated, i, i + 1, [line], {}, entries);
        newLines := newLines + [line];
        i := i + 1;
      } else if line.Assign? {
        var entry := entries[line.key];
        var next := SkipContinuation(line.value, lines, i + 1);
        LoopReplaces(lines, i, next, entry, line.key, entries);
        Advance(lines, newLines, updated, i, next, [entry], {line.key}, entries);
        newLines := newLines + [entry];
        updated := updated + {line.key};
        i := next;
      } else {
        LoopCopies(lines, i, entries);
        Advance(lines, newLines, updated, i, i + 1, [], {}, entries);
        i := i + 1;
      }
    }
    LoopEnds(lines, newLines, updated, entries);
  }

  /** The loop that appends the keys not seen. */
  method AppendMissing(newLines: seq<Line>, keys: seq<string>, entries: Entered, updated: set<string>)
    returns (all: seq<Line>)
    requires forall k <- keys :: k in entries
    ensures all == newLines + Missing(keys, entries, updated)
  {
    all := newLines;
    for i := 0 to |keys|
      invariant newLines + Missing(keys, entries, updated) == all + Missing(keys[i..], entries, updated)
    {
      assert keys[i..][0] == keys[i] && keys[i..][1..] == keys[i + 1..];
      if keys[i] !in updated {
        Shift(all, entries[keys[i]], Missing(keys[i + 1..], entries, updated));
        all := all + [entries[keys[i]]];
      }
    }
    assert keys[|keys|..] == [] && all + [] == all;
  }

  class EnvStore {
    var disk: Option<string>

    function Contents(): string reads this { if disk.Some? then disk.value else "" }

    /** save_settings_to_env with nothing running beside it. */
    method Save(s: Dict)
      modifies this
      ensures disk == Some(SaveText(old(Contents()), s))
    {
      var lines := Lines(Contents());
      var newLines, updated := RewriteLines(lines, Entries(s));
      newLines := AppendMissing(newLines, s.keys, Entries(s), updated);
      disk := Some(Concat(Texts(newLines)));
    }
  }

  // ----- lines survive being written and read -----

  /** A physical line: some text without carriage returns and with a newline at most at its end. */
  predicate Physical(l: string) { l != "" && '\r' !in l && '\n' !in l[..|l| - 1] }

  predicate Whole(l: string) { Physical(l) && l[|l| - 1] == '\n' }

  predicate AllButLastWhole(ls: seq<string>) {
    (forall l <- ls :: Physical(l)) && forall i | 0 <= i < |ls| - 1 :: Whole(ls[i])
  }

  lemma FirstNewline(l: string, rest: string)
    requires Whole(l)
    ensures IndexOf(l + rest, '\n') == |l| - 1
  {
    var t := l + rest;
    var i := IndexOf(t, '\n');
    assert t[|l| - 1] == '\n';
    assert forall j | 0 <= j < i :: t[j] == t[..i][j];
    assert forall j | 0 <= j < |l| - 1 :: t[j] == l[..|l| - 1][j];
  }

  lemma {:induction false} JoinThenSplit(ls: seq<string>)
    requires AllButLastWhole(ls)
    ensures SplitLines(Concat(ls)) == ls
  {
    if ls == [] {
    } else {
      hide Physical, SplitLines;
      assert ls[0] in ls;
      JoinThenSplit(ls[1..]);
      if |ls| > 1 || Whole(ls[0]) {
        SplitWholeFirst(ls[0], Concat(ls[1..]));
      } else {
        assert ls[1..] == [] && ls[0] + "" == ls[0];
        SplitBare(ls[0]);
      }
    }
  }

  lemma SplitWholeFirst(l: string, rest: string)
    requires Whole(l)
    ensures SplitLines(l + rest) == [l] + SplitLines(rest)
  {
    FirstNewline(l, rest);
    assert (l + rest)[..|l|] == l && (l + rest)[|l|..] == rest;
  }

  lemma SplitBare(l: string)
    requires Physical(l) && !Whole(l)
    ensures SplitLines(l) == [l]
  {
    assert l == l[..|l| - 1] + [l[|l| - 1]];
    assert IndexOf(l, '\n') == |l|;
  }

  lemma {:induction false} SplitIsWhole(t: string)
    requires '\r' !in t
    ensures AllButLastWhole(SplitLines(t))
    decreases |t|
  {
    if t != "" {
      var i := IndexOf(t, '\n');
      if i == |t| {
        assert t == t[..|t| - 1] + [t[|t| - 1]];
        assert SplitLines(t) == [t];
      } else {
        assert t[..i + 1][..i] == t[..i];
        SplitIsWhole(t[i + 1..]);
        ConsWhole(t[..i + 1], SplitLines(t[i + 1..]));
      }
    }
  }

  lemma {:induction false} ConcatWithoutReturns(ls: seq<string>)
    requires forall l <- ls :: '\r' !in l
    ensures '\r' !in Concat(ls)
  {
    if ls != [] { ConcatWithoutReturns(ls[1..]); }
  }

  /** Physical lines written one after another are read back as themselves exactly if every line but
      the last ends in a newline. */
  lemma WrittenLinesReadBackExactly(ls: seq<string>)
    requires forall l <- ls :: Physical(l)
    ensures ReadLines(Concat(ls)) == ls <==> AllButLastWhole(ls)
  {
    ConcatWithoutReturns(ls);
    NormaliseIsOnePass(Concat(ls));
    OnePassFacts(Concat(ls));
    if AllButLastWhole(ls) { JoinThenSplit(ls); }
    SplitIsWhole(Concat(ls));
  }

  lemma ReadLinesAreWhole(t: string)
    ensures AllButLastWhole(ReadLines(t))
  {
    NormaliseIsOnePass(t);
    OnePassFacts(t);
    SplitIsWhole(NormaliseNewlines(t));
  }

  // ----- what a save writes -----

  ghost predicate Faithful(lines: seq<Line>) { forall l <- lines :: Parse(l.text) == l }

  lemma EntryIsWhole(k: string, v: string)
    requires ValidKey(k) && '\r' !in FormatEnvValue(v)
    ensures Whole(Entry(k, v).text)
  {
    FormatsToOneClosedLine(v);
    var text := Entry(k, v).text;
    assert text[..|text| - 1] == k + "=" + FormatEnvValue(v);
  }

  ghost predicate WholeEntries(e: Entered) { forall k <- e :: Whole(e[k].text) && Parse(e[k].text) == e[k] }

  ghost predicate Clean(lines: seq<Line>) { AllButLastWhole(Texts(lines)) && Faithful(lines) }

  predicate EndsWhole(lines: seq<Line>) { lines == [] || Whole(lines[|lines| - 1].text) }

  lemma {:induction false} RewriteTexts(lines: seq<Line>, e: Entered)
    requires Clean(lines) && WholeEntries(e)
    ensures Clean(Rewrite(lines, e)) && (EndsWhole(lines) ==> EndsWhole(Rewrite(lines, e)))
    decreases |lines|
  {
    if lines != [] {
      if !Kept(lines[0], e) && lines[0].Assign? {
        var n := Extent(lines[0].value, lines[1..]);
        assert lines[1..][n..] == lines[1 + n..];
        SuffixClean(lines, 1 + n);
        RewriteTexts(lines[1 + n..], e);
        ConsClean(e[lines[0].key], Rewrite(lines[1 + n..], e));
      } else {
        SuffixClean(lines, 1);
        RewriteTexts(lines[1..], e);
        if Kept(lines[0], e) {
          FirstClean(lines);
          ConsClean(lines[0], Rewrite(lines[1..], e));
        }
      }
    }
  }

  lemma FirstClean(lines: seq<Line>)
    requires Clean(lines) && lines != []
    ensures Physical(lines[0].text) && Parse(lines[0].text) == lines[0] && (|lines| > 1 ==> Whole(lines[0].text))
  {
    assert Texts(lines)[0] in Texts(lines);
  }

  lemma SuffixClean(lines: seq<Line>, n: nat)
    requires n <= |lines| && Clean(lines)
    ensures Clean(lines[n..]) && (EndsWhole(lines) ==> EndsWhole(lines[n..]))
  {
    assert Texts(lines[n..]) == Texts(lines)[n..];
    forall i | 0 <= i < |lines[n..]| - 1 ensures Whole(Texts(lines[n..])[i]) {
      assert Texts(lines[n..])[i] == Texts(lines)[n + i];
    }
  }

  lemma ConsClean(line: Line, rest: seq<Line>)
    requires Physical(line.text) && Parse(line.text) == line && Clean(rest) && (rest != [] ==> Whole(line.text))
    ensures Clean([line] + rest)
    ensures EndsWhole([line] + rest) <==> if rest == [] then Whole(line.text) else EndsWhole(rest)
  {
    JoinTexts([line], rest);
    assert Texts([line]) == [line.text];
    ConsWhole(line.text, Texts(rest));
    assert rest != [] ==> ([line] + rest)[|rest|] == rest[|rest| - 1];
    JoinFaithful([line], rest);
  }

  lemma ConsWhole(t: string, rest: seq<string>)
    requires Physical(t) && AllButLastWhole(rest) && (rest != [] ==> Whole(t))
    ensures AllButLastWhole([t] + rest)
  {
    var all := [t] + rest;
    forall i | 0 <= i < |all| - 1 ensures Whole(all[i]) {
      if i > 0 { assert all[i] == rest[i - 1]; }
    }
    forall l <- all ensures Physical(l) { assert l == t || l in rest; }
  }

  lemma JoinClean(a: seq<Line>, b: seq<Line>)
    requires Clean(a) && Clean(b) && (EndsWhole(a) || b == [])
    ensures Clean(a + b)
  {
    JoinTexts(a, b);
    JoinWhole(Texts(a), Texts(b));
    JoinFaithful(a, b);
  }

  lemma JoinTexts(a: seq<Line>, b: seq<Line>)
    ensures Texts(a + b) == Texts(a) + Texts(b)
    ensures Texts(a) == [] || (a != [] && Texts(a)[|Texts(a)| - 1] == a[|a| - 1].text)
  {}

  lemma JoinFaithful(a: seq<Line>, b: seq<Line>)
    requires Faithful(a) && Faithful(b)
    ensures Faithful(a + b)
  {
    forall l <- a + b ensures Parse(l.text) == l { assert l in a || l in b; }
  }

  lemma JoinWhole(ta: seq<string>, tb: seq<string>)
    requires AllButLastWhole(ta) && AllButLastWhole(tb) && (ta == [] || Whole(ta[|ta| - 1]) || tb == [])
    ensures AllButLastWhole(ta + tb)
  {
    var all := ta + tb;
    forall l <- all ensures Physical(l) { assert l in ta || l in tb; }
    forall i | 0 <= i < |all| - 1 ensures Whole(all[i]) {
      assert all[i] == if i < |ta| then ta[i] else tb[i - |ta|];
    }
  }

  lemma {:induction false} MissingClean(keys: seq<string>, e: Entered, updated: set<string>)
    requires WholeEntries(e) && forall k <- keys :: k in e
    ensures Clean(Missing(keys, e, updated))
    ensures forall l <- Missing(keys, e, updated) :: Whole(l.text)
  {
    if keys != [] {
      MissingClean(keys[1..], e, updated);
      if keys[0] !in updated { ConsClean(e[keys[0]], Missing(keys[1..], e, updated)); }
    }
  }

  /** Settings that are written as one line each: fewer demands than ValidSettings, quotes may be open. */
  ghost predicate Writable(s: Settings) {
    && (forall k :: k in s.keys <==> k in s.values)
    && (forall k <- s.values :: ValidKey(k) && '\r' !in FormatEnvValue(s.values[k]))
  }

  lemma WritableEntries(s: Dict)
    requires Writable(s)
    ensures WholeEntries(Entries(s))
  {
    forall k <- s.values ensures Whole(Entries(s)[k].text) && Parse(Entries(s)[k].text) == Entries(s)[k] {
      EntryIsWhole(k, s.values[k]);
      EntryParses(k, s.values[k]);
    }
  }

  lemma EntriesAreWhole(s: Dict)
    requires ValidSettings(s)
    ensures Writable(s) && WellEntered(Entries(s)) && WholeEntries(Entries(s))
  {
    EntriesAreWell(s);
    forall k <- s.values ensures '\r' !in FormatEnvValue(s.values[k]) { FormatsToOneClosedLine(s.values[k]); }
    WritableEntries(s);
  }

  lemma LinesAreClean(t: string)
    ensures Clean(Lines(t))
  {
    ReadLinesAreWhole(t);
    assert Texts(Lines(t)) == ReadLines(t);
  }

  // ----- an unterminated last line -----

  predicate Unterminated(t: string) { t != "" && t[|t| - 1] != '\n' && t[|t| - 1] != '\r' }

  /** The lines the loop looks at: all but those that continue a replaced value. */
  function Reached(lines: seq<Line>, e: Entered): (r: seq<Line>)
    ensures r == [] <==> lines == []
    decreases |lines|
  {
    if lines == [] then []
    else if lines[0].Assign? && lines[0].key in e then
      [lines[0]] + Reached(lines[1..][Extent(lines[0].value, lines[1..])..], e)
    else [lines[0]] + Reached(lines[1..], e)
  }

  predicate Assigned(lines: seq<Line>, k: string) { exists l <- lines :: l.Assign? && l.key == k }

  /** A save runs into the file's last line: that line lacks its newline and is copied, and some key has no
      assignment yet. */
  predicate Joins(t: string, s: Dict) {
    && Unterminated(t) && LastCopied(Lines(t), Entries(s))
    && exists k <- s.keys :: !Assigned(Reached(Lines(t), Entries(s)), k)
  }

  lemma {:induction false} OnePassLast(v: string)
    requires v != ""
    ensures OnePass(v) != "" && (OnePass(v)[|OnePass(v)| - 1] == '\n' <==> !Unterminated(v))
    decreases |v|
  {
    if StartsWith(v, "\r\n") {
      assert v[0] == '\r' && v[1] == '\n';
      if |v| > 2 { OnePassLast(v[2..]); }
    } else if |v| > 1 {
      OnePassLast(v[1..]);
    }
  }

  lemma {:induction false} SplitLast(t: string)
    requires t != ""
    ensures SplitLines(t) != [] && LastChar(SplitLines(t)) == t[|t| - 1..]
    decreases |t|
  {
    var i := IndexOf(t, '\n');
    if i < |t| {
      var rest := t[i + 1..];
      if rest == "" {
        assert t == t[..i + 1];
      } else {
        SplitLast(rest);
        assert rest[|rest| - 1..] == t[|t| - 1..];
      }
    }
  }

  /** The last character of the last line, if there is one. */
  function LastChar(ls: seq<string>): string
    requires ls != []
  {
    var l := ls[|ls| - 1];
    if l == "" then "" else l[|l| - 1..]
  }

  lemma SplitEnds(u: string)
    requires '\r' !in u && u != ""
    ensures var ls := SplitLines(u); ls != [] && (Whole(ls[|ls| - 1]) <==> u[|u| - 1] == '\n')
  {
    SplitLast(u);
    SplitIsWhole(u);
    var ls := SplitLines(u);
    assert ls[|ls| - 1] in ls;
    assert LastChar(ls)[0] == u[|u| - 1];
  }

  lemma LastLineEnds(t: string)
    ensures EndsWhole(Lines(t)) <==> !Unterminated(t)
  {
    NormaliseIsOnePass(t);
    OnePassFacts(t);
    if t != "" {
      OnePassLast(t);
      SplitEnds(NormaliseNewlines(t));
    }
  }

  lemma {:induction false} UpdatedIsReached(lines: seq<Line>, e: Entered, k: string)
    requires k in e
    ensures k in Updated(lines, e) <==> Assigned(Reached(lines, e), k)
    decreases |lines|
  {
    if lines != [] {
      var rest := if lines[0].Assign? && lines[0].key in e
                  then lines[1..][Extent(lines[0].value, lines[1..])..] else lines[1..];
      UpdatedIsReached(rest, e, k);
      assert Reached(lines, e) == [lines[0]] + Reached(rest, e);
    }
  }

  predicate AllWhole(e: Entered) { forall k <- e :: Whole(e[k].text) }

  /** The loop's next line, when it is at the first one. */
  function Next(lines: seq<Line>, e: Entered): (rest: seq<Line>)
    requires lines != []
    ensures |rest| < |lines| && (rest != [] ==> rest[|rest| - 1] == lines[|lines| - 1])
    ensures Reached(lines, e) == [lines[0]] + Reached(rest, e)
    ensures Rewrite(lines, e)
            == (if Kept(lines[0], e) then [lines[0]] else if lines[0].Assign? then [e[lines[0].key]] else [])
               + Rewrite(rest, e)
  {
    if lines[0].Assign? && lines[0].key in e then lines[1..][Extent(lines[0].value, lines[1..])..] else lines[1..]
  }

  predicate LastCopied(lines: seq<Line>, e: Entered) {
    lines != [] && Kept(Reached(lines, e)[|Reached(lines, e)| - 1], e)
  }

  /** The rewritten file ends unterminated exactly if the last line is and was copied. */
  lemma {:induction false} RewriteEnds(lines: seq<Line>, e: Entered)
    requires AllWhole(e) && forall i | 0 <= i < |lines| - 1 :: Whole(lines[i].text)
    ensures EndsWhole(Rewrite(lines, e)) <==> EndsWhole(lines) || !LastCopied(lines, e)
    decreases |lines|
  {
    if lines != [] {
      var rest := Next(lines, e);
      assert forall i | 0 <= i < |rest| - 1 :: rest[i] == lines[|lines| - |rest| + i] by { NextIsSuffix(lines, e); }
      RewriteEnds(rest, e);
      if rest == [] {
        assert Reached(lines, e) == [lines[0]];
        if Kept(lines[0], e) { FirstIsLast(lines, e); }
      } else {
        FirstIsWhole(lines, e);
        LastStays(lines, e);
      }
    }
  }

  lemma NextIsSuffix(lines: seq<Line>, e: Entered)
    requires lines != []
    ensures Next(lines, e) == lines[|lines| - |Next(lines, e)|..]
  {}

  lemma FirstIsLast(lines: seq<Line>, e: Entered)
    requires lines != [] && Next(lines, e) == [] && Kept(lines[0], e)
    ensures lines == [lines[0]] && Rewrite(lines, e) == lines
  {}

  /** When the loop goes on, what it wrote for the first line is terminated. */
  lemma FirstIsWhole(lines: seq<Line>, e: Entered)
    requires lines != [] && AllWhole(e) && Whole(lines[0].text)
    ensures EndsWhole(Rewrite(lines, e)) <==> EndsWhole(Rewrite(Next(lines, e), e))
  {
    var first := if Kept(lines[0], e) then [lines[0]] else if lines[0].Assign? then [e[lines[0].key]] else [];
    var out := Rewrite(Next(lines, e), e);
    EndsOfTwo(first, out);
  }

  lemma EndsOfTwo(a: seq<Line>, b: seq<Line>)
    requires EndsWhole(a)
    ensures EndsWhole(a + b) <==> EndsWhole(b)
  {
    if b == [] { assert a + b == a; } else { assert (a + b)[|a + b| - 1] == b[|b| - 1]; }
  }

  lemma LastStays(lines: seq<Line>, e: Entered)
    requires lines != [] && Next(lines, e) != []
    ensures LastCopied(lines, e) <==> LastCopied(Next(lines, e), e)
    ensures EndsWhole(lines) <==> EndsWhole(Next(lines, e))
  {
    var r := Reached(Next(lines, e), e);
    assert Reached(lines, e)[|r|] == r[|r| - 1];
  }

  lemma {:induction false} MissingMeans(keys: seq<string>, e: Entered, updated: set<string>)
    requires forall k <- keys :: k in e
    ensures Missing(keys, e, updated) != [] <==> exists k <- keys :: k !in updated
  {
    if keys != [] {
      MissingMeans(keys[1..], e, updated);
      assert keys == [keys[0]] + keys[1..];
    }
  }

  lemma JoinsLines(lines: seq<Line>, keys: seq<string>, e: Entered)
    requires AllWhole(e) && (forall k <- keys :: k in e) && forall i | 0 <= i < |lines| - 1 :: Whole(lines[i].text)
    ensures !EndsWhole(Rewrite(lines, e)) && Missing(keys, e, Updated(lines, e)) != []
            <==> !EndsWhole(lines) && LastCopied(lines, e) && exists k <- keys :: !Assigned(Reached(lines, e), k)
  {
    RewriteEnds(lines, e);
    MissingMeans(keys, e, Updated(lines, e));
    forall k <- keys ensures k in Updated(lines, e) <==> Assigned(Reached(lines, e), k) {
      UpdatedIsReached(lines, e, k);
    }
  }

  lemma JoinsMeans(t: string, s: Dict)
    requires Writable(s)
    ensures Joins(t, s) <==> !EndsWhole(Rewrite(Lines(t), Entries(s)))
                             && Missing(s.keys, Entries(s), Updated(Lines(t), Entries(s))) != []
  {
    WritableEntries(s);
    ReadLinesAreWhole(t);
    forall i | 0 <= i < |Lines(t)| - 1 ensures Whole(Lines(t)[i].text) { assert Lines(t)[i].text == ReadLines(t)[i]; }
    LastLineEnds(t);
    JoinsLines(Lines(t), s.keys, Entries(s));
  }

  lemma JoinedLineIsNotWhole(kept: seq<Line>, tail: seq<Line>)
    requires !EndsWhole(kept) && tail != []
    ensures !AllButLastWhole(Texts(kept + tail))
  {
    assert Texts(kept + tail)[|kept| - 1] == kept[|kept| - 1].text;
  }

  lemma JoinPhysical(a: seq<Line>, b: seq<Line>)
    requires Clean(a) && Clean(b)
    ensures (forall l <- Texts(a + b) :: Physical(l)) && Faithful(a + b)
  {
    hide Physical;
    JoinTexts(a, b);
    JoinFaithful(a, b);
    forall l <- Texts(a + b) ensures Physical(l) { assert l in Texts(a) || l in Texts(b); }
  }

  lemma SavedLinesPhysical(t: string, s: Dict)
    requires Writable(s)
    ensures forall l <- Texts(SavedLines(t, s)) :: Physical(l)
    ensures Faithful(SavedLines(t, s))
    ensures AllButLastWhole(Texts(SavedLines(t, s))) <==> !Joins(t, s)
  {
    WritableEntries(s);
    LinesAreClean(t);
    JoinsMeans(t, s);
    var lines, e := Lines(t), Entries(s);
    RewriteTexts(lines, e);
    MissingClean(s.keys, e, Updated(lines, e));
    var kept, tail := Rewrite(lines, e), Missing(s.keys, e, Updated(lines, e));
    JoinPhysical(kept, tail);
    if Joins(t, s) { JoinedLineIsNotWhole(kept, tail); } else { JoinClean(kept, tail); }
  }

  lemma ParseTexts(lines: seq<Line>)
    requires Faithful(lines)
    ensures ParseAll(Texts(lines)) == lines
  {}

  /** The file reads back as the lines that were meant to be written exactly if the save did not run
      into an unterminated last line. */
  lemma SaveReadsBackExactly(t: string, s: Dict)
    requires Writable(s)
    ensures ReadLines(SaveText(t, s)) == Texts(SavedLines(t, s)) <==> !Joins(t, s)
    ensures !Joins(t, s) ==> Lines(SaveText(t, s)) == SavedLines(t, s)
  {
    SavedLinesPhysical(t, s);
    WrittenLinesReadBackExactly(Texts(SavedLines(t, s)));
    ParseTexts(SavedLines(t, s));
  }

  // ----- a save, as a reader of the file sees it -----

  /** What the file says about a key; None if it does not assign it or leaves its quote open. */
  function Lookup(t: string, k: string): Option<string> {
    var raw := ReadRaw(Lines(t));
    if k in raw then ReadEnvValue(raw[k]) else None
  }

  /** After a save every saved key reads as its new value and every other key as before. A saved value
      comes back, newlines normalised, exactly if it reads back. */
  lemma SavedFileReads(t: string, s: Dict, k: string)
    requires ValidSettings(s) && !Joins(t, s) && Undisturbed(Lines(t), Entries(s))
    ensures k in s.values ==> Lookup(SaveText(t, s), k) == ReadEnvValue(FormatEnvValue(s.values[k]))
    ensures k in s.values ==>
              (Lookup(SaveText(t, s), k) == Some(NormaliseNewlines(s.values[k])) <==> ReadsBack(s.values[k]))
    ensures k !in s.values ==> Lookup(SaveText(t, s), k) == Lookup(t, k)
  {
    EntriesAreWhole(s);
    SaveReadsBackExactly(t, s);
    SaveIsOverride(Lines(t), s.keys, Entries(s), Entries(s).Keys);
    if k in s.values {
      EntryValueReads(s.values[k]);
      RoundTripExactly(s.values[k]);
    }
  }

  /** Saving the same settings a second time leaves the file as it is. */
  lemma SavedFileIsStable(t: string, s: Dict)
    requires ValidSettings(s) && !Joins(t, s)
    ensures SaveText(SaveText(t, s), s) == SaveText(t, s)
  {
    EntriesAreWhole(s);
    SaveReadsBackExactly(t, s);
    SavingTwiceIsSavingOnce(Lines(t), s.keys, Entries(s));
  }

  // ----- any run of saves -----

  /** Every line is terminated, and is blank, a comment or an assignment closed on that line. */
  predicate WellFormed(t: string) { EndsWhole(Lines(t)) && OneLiners(Lines(t)) }

  function SaveAll(t: string, saves: seq<Dict>): string
    decreases |saves|
  {
    if saves == [] then t else SaveAll(SaveText(t, saves[0]), saves[1..])
  }

  function NewValues(s: Dict): map<string, string> { map k | k in s.values :: Entry(k, s.values[k]).value }

  /** The map after the run: each save overrides what came before. */
  function Overridden(m: map<string, string>, saves: seq<Dict>): map<string, string>
    decreases |saves|
  {
    if saves == [] then m
    else Overridden(m + NewValues(saves[0]), saves[1..])
  }

  function Notes(lines: seq<Line>): seq<Line> {
    if lines == [] then []
    else if lines[0].Note? then [lines[0]] + Notes(lines[1..])
    else Notes(lines[1..])
  }

  lemma {:induction false} NotesAmongOthers(lines: seq<Line>, e: Entered)
    ensures Notes(Others(lines, e)) == Notes(lines)
  {
    if lines != [] {
      NotesAmongOthers(lines[1..], e);
      if Kept(lines[0], e) { assert Others(lines, e)[1..] == Others(lines[1..], e); }
    }
  }

  lemma SavedLinesEndWhole(lines: seq<Line>, keys: seq<string>, e: Entered)
    requires Clean(lines) && EndsWhole(lines) && WholeEntries(e) && forall k <- keys :: k in e
    ensures EndsWhole(Rewrite(lines, e)) && EndsWhole(SaveLines(lines, keys, e))
  {
    RewriteTexts(lines, e);
    MissingClean(keys, e, Updated(lines, e));
  }

  lemma EndsWholeSaves(t: string, s: Dict)
    requires ValidSettings(s) && EndsWhole(Lines(t))
    ensures !Joins(t, s) && EndsWhole(Lines(SaveText(t, s)))
  {
    EntriesAreWhole(s);
    LinesAreClean(t);
    LastLineEnds(t);
    SavedLinesEndWhole(Lines(t), s.keys, Entries(s));
    SaveReadsBackExactly(t, s);
  }

  lemma NewRawIsNewValues(s: Dict)
    requires WellEntered(Entries(s))
    ensures NewRaw(Entries(s)) == NewValues(s)
  {}

  lemma OneSaveOfWellFormed(t: string, s: Dict)
    requires ValidSettings(s) && WellFormed(t)
    ensures WellFormed(SaveText(t, s))
    ensures ReadRaw(Lines(SaveText(t, s))) == ReadRaw(Lines(t)) + NewValues(s)
    ensures Others(Lines(SaveText(t, s)), Entries(s)) == Others(Lines(t), Entries(s))
    ensures Notes(Lines(SaveText(t, s))) == Notes(Lines(t))
    ensures forall ks | s.values.Keys <= ks :: Unrelated(Lines(SaveText(t, s)), ks) == Unrelated(Lines(t), ks)
  {
    EntriesAreWhole(s);
    EndsWholeSaves(t, s);
    SaveReadsBackExactly(t, s);
    var before, e := Lines(t), Entries(s);
    var after := SaveLines(before, s.keys, e);
    assert Lines(SaveText(t, s)) == after;
    SaveKeepsOthers(before, s.keys, e);
    NotesAmongOthers(before, e);
    NotesAmongOthers(after, e);
    NewRawIsNewValues(s);
    OneLinersAreUndisturbed(before, e);
    forall ks | s.values.Keys <= ks ensures Unrelated(after, ks) == Unrelated(before, ks) {
      SaveIsOverride(before, s.keys, e, ks);
    }
  }

  /** Over any run of saves a well-formed file stays well-formed, reads as the overridden map, and keeps its
      comments, its blank lines and every assignment to another key verbatim and in order. */
  lemma {:induction false} RunOfSaves(t: string, saves: seq<Dict>, ks: set<string>)
    requires WellFormed(t) && (forall s <- saves :: ValidSettings(s) && s.values.Keys <= ks)
    ensures var after := SaveAll(t, saves);
            && WellFormed(after)
            && ReadRaw(Lines(after)) == Overridden(ReadRaw(Lines(t)), saves)
            && Notes(Lines(after)) == Notes(Lines(t))
            && Unrelated(Lines(after), ks) == Unrelated(Lines(t), ks)
    decreases |saves|
  {
    if saves != [] {
      assert saves[0] in saves;
      OneSaveOfWellFormed(t, saves[0]);
      RunOfSaves(SaveText(t, saves[0]), saves[1..], ks);
    }
  }
}
