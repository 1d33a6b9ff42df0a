/** The line-rewriting loop of save_settings_to_env and a reader for the files it writes. */
module EnvLines {
  import opened EnvText
  import opened EnvRoundTrip

  // ----- one line -----

  function IndexOf(s: string, c: char): (i: nat)
    ensures i <= |s| && c !in s[..i] && (i < |s| ==> s[i] == c) && (i == |s| <==> c !in s)
  {
    if s == "" || s[0] == c then 0
    else
      assert s == [s[0]] + s[1..];
      1 + IndexOf(s[1..], c)
  }

  /** A line as the loop sees it: blank or comment, an assignment, or neither. */
  datatype Line = Note(text: string) | Assign(text: string, key: string, value: string) | Neither(text: string)

  function Parse(text: string): (line: Line)
    ensures line.text == text
  {
    var t := Strip(text);
    if t == "" || t[0] == '#' then Note(text)
    else
      var i := IndexOf(t, '=');
      if i < |t| then Assign(text, Strip(t[..i]), t[i + 1..]) else Neither(text)
  }

  function TrimNewlines(s: string): string {
    if s != "" && s[|s| - 1] == '\n' then TrimNewlines(s[..|s| - 1]) else s
  }

  // ----- a quoted value that runs on over several lines -----

  /** The number of lines that continue an open value, as the nested loop counts them. */
  function Extent(value: string, lines: seq<Line>): (n: nat)
    ensures n <= |lines|
    decreases |lines|
  {
    if lines == [] || QuoteClosed(value) then 0
    else 1 + Extent(value + "\n" + TrimNewlines(lines[0].text), lines[1..])
  }

  function Continued(value: string, lines: seq<Line>): string
    decreases |lines|
  {
    if lines == [] || QuoteClosed(value) then value
    else Continued(value + "\n" + TrimNewlines(lines[0].text), lines[1..])
  }

  // ----- settings to save -----

  /** A dict in insertion order. */
  datatype Settings = Settings(keys: seq<string>, values: map<string, string>)

  type Dict = s: Settings | forall k <- s.keys :: k in s.values witness Settings([], map[])

  predicate ValidKey(k: string) {
    Strip(k) == k && '=' !in k && '\n' !in k && '\r' !in k && (k == "" || k[0] != '#')
  }

  ghost predicate ValidSettings(s: Settings) {
    && (forall k :: k in s.keys <==> k in s.values)
    && (forall i, j | 0 <= i < j < |s.keys| :: s.keys[i] != s.keys[j])
    && (forall k <- s.values :: ValidKey(k) && Admissible(s.values[k]))
  }

  /** The line written for a setting. */
  function Entry(k: string, v: string): Line {
    Assign(k + "=" + FormatEnvValue(v) + "\n", k, RStrip(FormatEnvValue(v)))
  }

  type Entered = map<string, Line>

  function Entries(s: Settings): Entered { map k | k in s.values :: Entry(k, s.values[k]) }

  // ----- the loop -----

  /** Lines the loop copies. */
  predicate Kept(line: Line, e: Entered) { line.Note? || (line.Assign? && line.key !in e) }

  function Rewrite(lines: seq<Line>, e: Entered): seq<Line>
    decreases |lines|
  {
    if lines == [] then []
    else if Kept(lines[0], e) then [lines[0]] + Rewrite(lines[1..], e)
    else if lines[0].Assign? then
      [e[lines[0].key]] + Rewrite(lines[1..][Extent(lines[0].value, lines[1..])..], e)
    else Rewrite(lines[1..], e)
  }

  function Updated(lines: seq<Line>, e: Entered): set<string>
    decreases |lines|
  {
    if lines == [] then {}
    else if lines[0].Assign? && lines[0].key in e then
      {lines[0].key} + Updated(lines[1..][Extent(lines[0].value, lines[1..])..], e)
    else Updated(lines[1..], e)
  }

  function Missing(keys: seq<string>, e: Entered, updated: set<string>): seq<Line>
    requires forall k <- keys :: k in e
  {
    if keys == [] then []
    else if keys[0] in updated then Missing(keys[1..], e, updated)
    else [e[keys[0]]] + Missing(keys[1..], e, updated)
  }

  /** The lines that save_settings_to_env writes. */
  function SaveLines(lines: seq<Line>, keys: seq<string>, e: Entered): seq<Line>
    requires forall k <- keys :: k in e
  {
    Rewrite(lines, e) + Missing(keys, e, Updated(lines, e))
  }

  // ----- the reader -----

  /** Every key's value text, joined over its lines; the last assignment counts. */
  function ReadRaw(lines: seq<Line>): map<string, string>
    decreases |lines|
  {
    if lines == [] then map[]
    else if lines[0].Assign? then
      map[lines[0].key := Continued(lines[0].value, lines[1..])]
        + ReadRaw(lines[1..][Extent(lines[0].value, lines[1..])..])
    else ReadRaw(lines[1..])
  }

  // ----- what an entry reads as -----

  lemma {:induction false} RStripTail(a: string, c: char, b: string)
    requires !IsSpace(c)
    ensures RStrip(a + [c] + b) == a + [c] + RStrip(b)
    decreases |b|
  {
    var all := a + [c] + b;
    if b == "" {
      assert all[|all| - 1] == c;
    } else if IsSpace(b[|b| - 1]) {
      assert all[..|all| - 1] == a + [c] + b[..|b| - 1];
      RStripTail(a, c, b[..|b| - 1]);
    }
  }

  lemma StripEntry(k: string, v: string)
    requires Strip(k) == k && '=' !in k
    ensures Strip(k + "=" + v + "\n") == k + "=" + RStrip(v)
  {
    var line := k + "=" + v + "\n";
    StrippedFront(k);
    assert !IsSpace(line[0]);
    assert line == k + ['='] + (v + "\n");
    RStripTail(k, '=', v + "\n");
    assert (v + "\n")[..|v + "\n"| - 1] == v;
  }

  lemma StrippedFront(k: string)
    requires Strip(k) == k
    ensures k == "" || !IsSpace(k[0])
  {
    assert k != "" && IsSpace(k[0]) ==> |LStrip(k)| <= |k| - 1;
  }

  lemma RStripKeepsQuoteClosed(f: string)
    requires QuoteClosed(f)
    ensures QuoteClosed(RStrip(f))
    decreases |f|
  {
    if f != "" && IsSpace(f[|f| - 1]) {
      var g := f[..|f| - 1];
      assert f == g + [f[|f| - 1]];
      DroppedBlankKeepsClosed(g, f[|f| - 1]);
      RStripKeepsQuoteClosed(g);
    }
  }

  lemma {:induction false} DroppedBlankKeepsClosed(g: string, c: char)
    requires IsSpace(c) && QuoteClosed(g + [c])
    ensures QuoteClosed(g)
    decreases |g|
  {
    if g != "" && IsSpace(g[0]) {
      assert (g + [c])[1..] == g[1..] + [c];
      DroppedBlankKeepsClosed(g[1..], c);
    } else if g != "" {
      assert (g + [c])[0] == g[0];
      if IsQuote(g[0]) { CloseIgnoresBlank(g, c, g[0], 1, false); }
    }
  }

  lemma {:induction false} CloseIgnoresBlank(g: string, c: char, quote: char, k: nat, skip: bool)
    requires k <= |g| && IsSpace(c) && IsQuote(quote)
    ensures CloseFrom(g + [c], quote, k, skip) == CloseFrom(g, quote, k, skip)
    decreases |g| - k
  {
    if k == |g| {
      assert (g + [c])[k] == c;
      assert CloseFrom(g + [c], quote, k + 1, false) == -1;
    } else {
      assert (g + [c])[k] == g[k];
      CloseIgnoresBlank(g, c, quote, k + 1, if skip then false else quote == '"' && g[k] == '\\');
    }
  }

  lemma FirstEquals(k: string, rest: string)
    requires '=' !in k
    ensures IndexOf(k + "=" + rest, '=') == |k|
  {
    var t := k + "=" + rest;
    var i := IndexOf(t, '=');
    assert t[|k|] == '=' && t[..|k|] == k;
    assert forall j | 0 <= j < i :: t[j] == t[..i][j];
    assert forall j | 0 <= j < |k| :: t[j] == k[j];
  }

  lemma LineParses(k: string, v: string)
    requires ValidKey(k)
    ensures Parse(k + "=" + v + "\n") == Assign(k + "=" + v + "\n", k, RStrip(v))
  {
    StripEntry(k, v);
    FirstEquals(k, RStrip(v));
    EqualsSplits(k, RStrip(v));
    ParsesAs(k + "=" + v + "\n", k);
  }

  lemma EqualsSplits(a: string, v: string)
    ensures var t := a + "=" + v; t[..|a|] == a && t[|a| + 1..] == v && t[0] == if a == "" then '=' else a[0]
  {}

  /** A line whose stripped text has its first equals sign behind p. */
  lemma ParsesAs(text: string, p: string)
    requires var t := Strip(text); |t| > |p| && t[0] != '#' && IndexOf(t, '=') == |p| && t[..|p|] == p
    ensures Parse(text) == Assign(text, Strip(p), Strip(text)[|p| + 1..])
  {}

  /** A written entry is one line that assigns exactly its key. */
  lemma EntryParses(k: string, v: string)
    requires ValidKey(k)
    ensures Parse(Entry(k, v).text) == Entry(k, v)
  {
    LineParses(k, FormatEnvValue(v));
  }

  lemma EntryCloses(k: string, v: string)
    requires Admissible(v)
    ensures QuoteClosed(Entry(k, v).value)
  {
    FormatsToOneClosedLine(v);
    RStripKeepsQuoteClosed(FormatEnvValue(v));
  }

  /** Lines that each assign their own key, with a closed value. */
  predicate WellEntered(e: Entered) {
    forall k <- e :: e[k].Assign? && e[k].key == k && QuoteClosed(e[k].value)
  }

  /** The value text of each entry. */
  function NewRaw(e: Entered): map<string, string>
    requires WellEntered(e)
  {
    map k | k in e :: e[k].value
  }

  lemma EntriesAreWell(s: Settings)
    requires ValidSettings(s)
    ensures WellEntered(Entries(s)) && forall k <- s.values :: Parse(Entries(s)[k].text) == Entries(s)[k]
  {
    forall k <- s.values ensures QuoteClosed(Entries(s)[k].value) && Parse(Entries(s)[k].text) == Entries(s)[k] {
      EntryParses(k, s.values[k]);
      EntryCloses(k, s.values[k]);
    }
  }

  /** Reading strips outer blanks itself, so nothing is lost with them. */
  lemma EntryValueReads(v: string)
    ensures ReadEnvValue(RStrip(FormatEnvValue(v))) == ReadEnvValue(FormatEnvValue(v))
  {
    StripAfterRStrip(FormatEnvValue(v));
  }

  lemma {:induction false} StripAfterRStrip(s: string)
    ensures Strip(RStrip(s)) == Strip(s)
    decreases |s|
  {
    if s != "" && IsSpace(s[|s| - 1]) {
      StripAfterRStrip(s[..|s| - 1]);
      StripDropsLast(s);
    }
  }

  lemma {:induction false} StripDropsLast(s: string)
    requires s != "" && IsSpace(s[|s| - 1])
    ensures Strip(s[..|s| - 1]) == Strip(s)
    decreases |s|
  {
    if IsSpace(s[0]) && |s| > 1 {
      assert s[..|s| - 1][1..] == s[1..][..|s| - 2];
      StripDropsLast(s[1..]);
    }
  }
}
