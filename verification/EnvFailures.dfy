/** Files and settings on which a save does less than it promises, and what is then read. */
module EnvFailures {
  import opened Wrappers
  import opened EnvText
  import opened EnvRoundTrip
  import opened EnvLines
  import opened EnvOverride
  import opened EnvFile

  function One(k: string, v: string): Dict { Settings([k], map[k := v]) }

  lemma LinesOf(ls: seq<string>)
    requires AllButLastWhole(ls)
    ensures Lines(Concat(ls)) == ParseAll(ls)
  {
    WrittenLinesReadBackExactly(ls);
  }

  /** The text of a line that assigns value text v to key k. */
  function AssignText(k: string, v: string): string { k + "=" + v + "\n" }

  predicate OneLineText(v: string) { '\n' !in v && '\r' !in v }

  lemma AssignParses(k: string, v: string)
    requires ValidKey(k) && OneLineText(v)
    ensures Whole(AssignText(k, v)) && Parse(AssignText(k, v)) == Assign(AssignText(k, v), k, RStrip(v))
  {
    LineParses(k, v);
    assert AssignText(k, v)[..|AssignText(k, v)| - 1] == k + "=" + v;
  }

  /** The value text that is written for w. */
  function Written(w: string): (f: string)
    ensures '\n' !in f
  {
    FormatsToOneClosedLine(w);
    FormatEnvValue(w)
  }

  lemma NoQuoteNoClose(s: string, quote: char)
    requires s != "" && IsQuote(quote) && quote !in s[1..]
    ensures CloseFrom(s, quote, 1, false) == -1
  {
    assert forall i | 1 <= i < |s| :: s[i] == s[1..][i - 1];
    ScanFindsClosing(s, quote, 1, 1, false);
  }

  /** A quote that does not occur again has no value. */
  lemma OpenHasNoValue(v: string)
    requires v != "" && IsQuote(v[0]) && v[0] !in v[1..]
    ensures ReadEnvValue(v) == None && !QuoteClosed(v)
  {
    assert v == "" + [v[0]] + v[1..];
    RStripTail("", v[0], v[1..]);
    var w := Strip(v);
    assert LStrip(v) == v && w == [v[0]] + RStrip(v[1..]);
    assert w[1..] == RStrip(v[1..]) && w[1..] <= v[1..];
    NoQuoteNoClose(v, v[0]);
    NoQuoteNoClose(w, v[0]);
  }

  lemma OpenStaysOpen(v: string, u: string)
    requires v != "" && IsQuote(v[0]) && v[0] !in v[1..] && v[0] !in u
    ensures ReadEnvValue(v + "\n" + u) == None
  {
    var open := v + "\n" + u;
    assert open[1..] == v[1..] + "\n" + u;
    OpenHasNoValue(open);
  }

  // ----- an unrelated value that runs over two lines -----

  /** A value that is opened and not closed on its line. */
  predicate LeftOpen(v: string) { OneLineText(v) && RStrip(v) == v && !QuoteClosed(v) }

  /** A line that is neither blank nor a comment and has no equals sign. */
  predicate NeitherText(c: string) {
    OneLineText(c) && '=' !in c && Strip(c) != "" && Strip(c)[0] != '#'
  }

  lemma NeitherParses(c: string)
    requires NeitherText(c)
    ensures Whole(c + "\n") && Parse(c + "\n") == Neither(c + "\n")
  {
    assert (c + "\n")[..|c + "\n"| - 1] == c;
    StripDropsLast(c + "\n");
    StripSubset(c);
  }

  lemma LinesOfTwo(l0: string, l1: string)
    requires Whole(l0) && Whole(l1)
    ensures Lines(l0 + l1) == [Parse(l0), Parse(l1)]
  {
    assert [l0, l1][1..] == [l1] && [l1][1..] == [];
    assert Concat([l1]) == l1 + "" && l1 + "" == l1;
    assert Concat([l0, l1]) == l0 + l1;
    LinesOf([l0, l1]);
  }

  lemma TwoLineRewritten(la: Line, lc: Line, e: Entered)
    requires la.Assign? && la.key !in e && lc.Neither?
    ensures Rewrite([la, lc], e) == [la] && Updated([la, lc], e) == {}
  {
    assert [la, lc] == [la] + [lc] && [lc] == [lc] + [];
    RewriteFront(la, [lc], e);
    UpdatedFront(la, [lc], e);
    RewriteFront(lc, [], e);
    UpdatedFront(lc, [], e);
  }

  lemma OneEntry(k: string, v: string)
    ensures Entries(One(k, v)) == map[k := Entry(k, v)]
  {}

  /** A save that keeps one line and appends one. */
  lemma PairSaved(t: string, k: string, w: string, la: Line)
    requires Rewrite(Lines(t), Entries(One(k, w))) == [la] && Updated(Lines(t), Entries(One(k, w))) == {}
    ensures SaveText(t, One(k, w)) == la.text + AssignText(k, Written(w))
  {
    OneEntry(k, w);
    assert [k][1..] == [] && Missing([k], Entries(One(k, w)), {}) == [Entry(k, w)];
    assert SavedLines(t, One(k, w)) == [la, Entry(k, w)];
    TextOfTwo(la, Entry(k, w));
  }

  lemma TextOfTwo(l0: Line, l1: Line)
    ensures Concat(Texts([l0, l1])) == l0.text + l1.text
  {
    assert Texts([l0, l1]) == [l0.text, l1.text];
    assert [l0.text, l1.text][1..] == [l1.text] && [l1.text][1..] == [];
    assert Concat([l1.text]) == l1.text + "" && l1.text + "" == l1.text;
  }

  lemma TwoLineSaved(a: string, b: string, v: string, c: string, w: string)
    requires ValidKey(a) && a != b && OneLineText(v) && NeitherText(c)
    ensures SaveText(AssignText(a, v) + (c + "\n"), One(b, w)) == AssignText(a, v) + AssignText(b, Written(w))
  {
    AssignParses(a, v);
    NeitherParses(c);
    LinesOfTwo(AssignText(a, v), c + "\n");
    OneEntry(b, w);
    var la := Parse(AssignText(a, v));
    TwoLineRewritten(la, Parse(c + "\n"), Entries(One(b, w)));
    PairSaved(AssignText(a, v) + (c + "\n"), b, w, la);
  }

  /** What a reader sees in a file of an assignment that stays open and one line behind it. */
  lemma OpenPairReads(la: Line, lb: Line)
    requires la.Assign? && !QuoteClosed(la.value)
    ensures ReadRaw([la, lb]) == map[la.key := la.value + "\n" + TrimNewlines(lb.text)]
  {
    assert [la, lb] == [la] + [lb] && [lb][1..] == [];
    ReadFront(la, [lb]);
    var v1 := la.value + "\n" + TrimNewlines(lb.text);
    assert Continued(la.value, [lb]) == Continued(v1, []) && Extent(la.value, [lb]) == 1 + Extent(v1, []);
  }

  lemma TrimsOne(s: string)
    requires '\n' !in s
    ensures TrimNewlines(s + "\n") == s
  {
    assert (s + "\n")[..|s|] == s;
  }

  lemma OpenFileReads(a: string, v: string, u: string)
    requires ValidKey(a) && LeftOpen(v) && '\n' !in u && Whole(u + "\n")
    ensures ReadRaw(Lines(AssignText(a, v) + (u + "\n"))) == map[a := v + "\n" + u]
  {
    AssignParses(a, v);
    LinesOfTwo(AssignText(a, v), u + "\n");
    TrimsOne(u);
    OpenPairReads(Parse(AssignText(a, v)), Parse(u + "\n"));
  }

  /** Saving a key into a file in which another key's value runs over two lines drops the closing line: the
      other key takes the saved line for the rest of its value, and the saved key is not read. For example
      saving B=1 into the two lines A="x and y" leaves the two lines A="x and B=1, and A has no value. */
  lemma TwoLineValueLosesBoth(a: string, b: string, v: string, c: string, w: string)
    requires ValidKey(a) && ValidKey(b) && a != b && LeftOpen(v) && NeitherText(c) && '\r' !in Written(w)
    ensures var t := AssignText(a, v) + (c + "\n"); var saved := SaveText(t, One(b, w));
            var was, now := v + "\n" + c, v + "\n" + (b + "=" + Written(w));
            && saved == AssignText(a, v) + AssignText(b, Written(w))
            && ReadRaw(Lines(t)) == map[a := was] && Lookup(t, a) == ReadEnvValue(was)
            && ReadRaw(Lines(saved)) == map[a := now] && Lookup(saved, a) == ReadEnvValue(now) && was != now
            && (IsQuote(v[0]) && v[0] !in v[1..] && v[0] !in b + "=" + Written(w) ==> Lookup(saved, a) == None)
  {
    var u := b + "=" + Written(w);
    NeitherParses(c);
    TwoLineSaved(a, b, v, c, w);
    OpenFileReads(a, v, c);
    AssignParses(b, Written(w));
    OpenFileReads(a, v, u);
    LaterLinesDiffer(v, c, u);
    if IsQuote(v[0]) && v[0] !in v[1..] && v[0] !in u { OpenStaysOpen(v, u); }
  }

  lemma LaterLinesDiffer(v: string, c: string, u: string)
    requires '=' !in c && '=' in u
    ensures v + "\n" + c != v + "\n" + u
  {
    assert (v + "\n" + c)[|v| + 1..] == c && (v + "\n" + u)[|v| + 1..] == u;
  }

  // ----- a last line without its newline -----

  /** A value that is written bare and read as it is. */
  predicate Bare(w: string) {
    !NeedsQuotes(w) && '\r' !in w && w != "" && !IsSpace(w[0]) && !IsSpace(w[|w| - 1]) && !IsQuote(w[0])
  }

  lemma BareIsTrimmed(w: string)
    requires Bare(w)
    ensures RStrip(w) == w && Strip(w) == w && ReadEnvValue(w) == Some(w)
  {}

  lemma LastLineStrips(a: string, v: string)
    requires Strip(a) == a && '=' !in a
    ensures Strip(a + "=" + v) == a + "=" + RStrip(v)
  {
    hide Strip, RStrip;
    var t := a + "=" + v;
    assert (t + "\n")[..|t + "\n"| - 1] == t;
    StripDropsLast(t + "\n");
    StripEntry(a, v);
  }

  lemma LastLineParses(a: string, v: string)
    requires ValidKey(a) && OneLineText(v)
    ensures Physical(a + "=" + v) && Parse(a + "=" + v) == Assign(a + "=" + v, a, RStrip(v))
  {
    hide Parse, Strip, RStrip, IndexOf;
    LastLineStrips(a, v);
    FirstEquals(a, RStrip(v));
    EqualsSplits(a, RStrip(v));
    ParsesAs(a + "=" + v, a);
  }

  lemma LinesOfOne(l: string)
    requires Physical(l)
    ensures Lines(l) == [Parse(l)]
  {
    assert [l][1..] == [] && Concat([l]) == l + "" && l + "" == l;
    LinesOf([l]);
  }

  lemma OneLineReads(l: Line)
    requires l.Assign?
    ensures ReadRaw([l]) == map[l.key := l.value]
  {
    assert [l] == [l] + [] && [l][1..] == [];
    ReadFront(l, []);
  }

  lemma OneLineRewritten(la: Line, e: Entered)
    requires la.Assign? && la.key !in e
    ensures Rewrite([la], e) == [la] && Updated([la], e) == {} && Reached([la], e) == [la]
  {
    assert [la] == [la] + [] && [la][1..] == [];
    RewriteFront(la, [], e);
    UpdatedFront(la, [], e);
  }

  lemma UnterminatedSaved(a: string, b: string, v: string, w: string)
    requires ValidKey(a) && a != b && OneLineText(v)
    ensures SaveText(a + "=" + v, One(b, w)) == a + "=" + v + AssignText(b, Written(w))
    ensures Joins(a + "=" + v, One(b, w))
  {
    var t := a + "=" + v;
    LastLineParses(a, v);
    LinesOfOne(t);
    OneEntry(b, w);
    var la := Parse(t);
    OneLineRewritten(la, Entries(One(b, w)));
    PairSaved(t, b, w, la);
    assert Physical(t) && t[|t| - 1] == if v == "" then '=' else v[|v| - 1];
    UnterminatedJoins(t, la, b, w);
  }

  lemma UnterminatedJoins(t: string, la: Line, b: string, w: string)
    requires Lines(t) == [la] && la.Assign? && la.key != b && Unterminated(t)
    requires Reached([la], Entries(One(b, w))) == [la]
    ensures Joins(t, One(b, w))
  {
    assert b in One(b, w).keys && !Assigned([la], b);
  }

  lemma OneAssignmentReads(a: string, v: string)
    requires ValidKey(a) && OneLineText(v)
    ensures ReadRaw(Lines(a + "=" + v)) == map[a := RStrip(v)]
    ensures ReadRaw(Lines(AssignText(a, v))) == map[a := RStrip(v)]
  {
    LastLineParses(a, v);
    LinesOfOne(a + "=" + v);
    OneLineReads(Parse(a + "=" + v));
    AssignParses(a, v);
    LinesOfOne(AssignText(a, v));
    OneLineReads(Parse(AssignText(a, v)));
  }

  lemma JoinedText(a: string, b: string, v: string, f: string)
    ensures a + "=" + v + AssignText(b, f) == AssignText(a, v + (b + "=" + f))
  {}

  /** Saving a key into a file whose only line is an assignment without its newline joins the two lines: the
      saved key is not read and the other one reads as both. For example saving B=2 into A=1 leaves A=1B=2. */
  lemma UnterminatedLineLosesTheKey(a: string, b: string, v: string, w: string)
    requires ValidKey(a) && ValidKey(b) && a != b && OneLineText(v) && '\r' !in Written(w)
    ensures var t := a + "=" + v; var both := v + (b + "=" + Written(w)); var saved := SaveText(t, One(b, w));
            && Joins(t, One(b, w)) && saved == AssignText(a, both)
            && ReadRaw(Lines(t)) == map[a := RStrip(v)] && ReadRaw(Lines(saved)) == map[a := RStrip(both)]
            && (Bare(v) ==> Lookup(t, a) == Some(v)) && (Bare(both) ==> Lookup(saved, a) == Some(both))
  {
    var both := v + (b + "=" + Written(w));
    UnterminatedSaved(a, b, v, w);
    JoinedText(a, b, v, Written(w));
    OneAssignmentReads(a, v);
    OneAssignmentReads(a, both);
    if Bare(v) { BareIsTrimmed(v); }
    if Bare(both) { BareIsTrimmed(both); }
  }

  // ----- a value with an open single quote -----

  lemma TerminatedReadsBack(t: string, s: Dict)
    requires Writable(s) && EndsWhole(Lines(t))
    ensures Lines(SaveText(t, s)) == SavedLines(t, s)
  {
    LastLineEnds(t);
    SaveReadsBackExactly(t, s);
  }

  lemma SwapEnds(before: seq<Line>, line: Line, rest: seq<Line>, entry: Line, n: nat)
    requires EndsWhole(before + ([line] + rest)) && Whole(entry.text) && n <= |rest|
    ensures EndsWhole(before + ([entry] + rest[n..]))
  {
    var was, after := before + ([line] + rest), before + ([entry] + rest[n..]);
    assert after[|after| - 1] == if n < |rest| then was[|was| - 1] else entry;
  }

  lemma OneIsWritable(k: string, v: string)
    requires ValidKey(k) && '\r' !in FormatEnvValue(v)
    ensures Writable(One(k, v))
  {}

  lemma OneKeyLines(t: string, k: string, v: string, before: seq<Line>, line: Line, rest: seq<Line>)
    requires Lines(t) == before + ([line] + rest) && line.Assign? && line.key == k
    requires forall l <- before + rest :: Kept(l, Entries(One(k, v)))
    ensures SavedLines(t, One(k, v)) == before + ([Entry(k, v)] + rest[Extent(line.value, rest)..])
  {
    OneEntry(k, v);
    OneKeySaved(before, line, rest, k, Entries(One(k, v)));
  }

  /** One save of one key, with no line dropped and none joined. */
  lemma OneKeyText(t: string, k: string, v: string, before: seq<Line>, line: Line, rest: seq<Line>)
    requires Lines(t) == before + ([line] + rest) && EndsWhole(Lines(t)) && line.Assign? && line.key == k
    requires ValidKey(k) && '\r' !in FormatEnvValue(v) && forall l <- before + rest :: Kept(l, Entries(One(k, v)))
    ensures Lines(SaveText(t, One(k, v))) == before + ([Entry(k, v)] + rest[Extent(line.value, rest)..])
    ensures EndsWhole(Lines(SaveText(t, One(k, v))))
  {
    OneKeyLines(t, k, v, before, line, rest);
    OneIsWritable(k, v);
    TerminatedReadsBack(t, One(k, v));
    EntryIsWhole(k, v);
    SwapEnds(before, line, rest, Entry(k, v), Extent(line.value, rest));
  }

  /** Two saves of one key, first a value with an open single quote and then any value: the second save
      removes the lines behind the key up to and including the first one with a single quote, or all of
      them, and exactly those. */
  lemma SecondSaveSwallowsExactly(t: string, k: string, v: string, w: string, before: seq<Line>, line: Line,
                                  rest: seq<Line>)
    requires WellFormed(t) && Lines(t) == before + ([line] + rest) && line.Assign? && line.key == k
    requires forall l <- before + rest :: l.Assign? ==> l.key != k
    requires ValidKey(k) && OpensSingle(v) && !NeedsQuotes(v) && '\r' !in v && RStrip(v) == v
    requires '\r' !in FormatEnvValue(w)
    ensures Lines(SaveText(SaveText(t, One(k, v)), One(k, w)))
            == before + ([Entry(k, w)] + rest[FirstQuoted(rest)..])
  {
    forall l <- before + rest ensures OneLiner(l) { assert l in Lines(t); }
    OneEntry(k, v);
    OneEntry(k, w);
    assert line in Lines(t) && OneLiner(line);
    OneKeyText(t, k, v, before, line, rest);
    assert rest[0..] == rest;
    OpenValueRunsOn(v, rest);
    OneKeyText(SaveText(t, One(k, v)), k, w, before, Entry(k, v), rest);
  }
}
