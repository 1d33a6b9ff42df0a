/** All settings, also those whose values cannot be read back. */
module EnvWhole {
  import opened Wrappers
  import opened EnvText
  import opened EnvRoundTrip
  import opened EnvLines
  import opened EnvOverride
  import opened EnvExactly
  import opened EnvFile
  import opened EnvPromise

  /** A dict whose keys can stand in front of an equals sign; nothing is asked of its values. */
  ghost predicate Storable(s: Settings) {
    && (forall k :: k in s.keys <==> k in s.values)
    && (forall i, j | 0 <= i < j < |s.keys| :: s.keys[i] != s.keys[j])
    && (forall k <- s.values :: ValidKey(k))
  }

  /** The save keeps its promise, and every saved value is read as it was given, newlines normalised. */
  predicate KeepsWholePromise(t: string, s: Dict) {
    KeepsPromise(t, s) && forall k <- s.values :: Lookup(SaveText(t, s), k) == Some(NormaliseNewlines(s.values[k]))
  }

  lemma ReadingBackIsAdmissible(v: string)
    requires ReadsBack(v)
    ensures Admissible(v)
  {}

  /** Where the map is overridden, a saved value reads back exactly if it is one that can. */
  lemma OverriddenReads(t: string, s: Dict, k: string)
    requires KeepsPromise(t, s) && k in s.values
    ensures Lookup(SaveText(t, s), k) == Some(NormaliseNewlines(s.values[k])) <==> ReadsBack(s.values[k])
  {
    var v := s.values[k];
    assert NewValues(s)[k] == RStrip(FormatEnvValue(v));
    EntryValueReads(v);
    RoundTripExactly(v);
  }

  /** For every text and every dict of settings, whatever its values: the save overrides the map, keeps
      everything unrelated verbatim and in order, and has every value read back, if and only if the file is
      undisturbed, the save does not run into an unterminated last line, and every value is quoted by the
      escaper or is bare text without outer blanks, carriage returns or a leading single quote. */
  lemma WholePromiseIsKeptExactly(t: string, s: Dict)
    requires Storable(s)
    ensures KeepsWholePromise(t, s) <==>
              && Undisturbed(Lines(t), Entries(s)) && !Joins(t, s)
              && forall k <- s.values :: ReadsBack(s.values[k])
  {
    if KeepsPromise(t, s) {
      forall k <- s.values
        ensures Lookup(SaveText(t, s), k) == Some(NormaliseNewlines(s.values[k])) <==> ReadsBack(s.values[k])
      {
        OverriddenReads(t, s, k);
      }
    }
    if forall k <- s.values :: ReadsBack(s.values[k]) {
      forall k <- s.values ensures Admissible(s.values[k]) { ReadingBackIsAdmissible(s.values[k]); }
      PromiseIsKeptExactly(t, s);
    }
  }

  // ----- values that never read back -----

  /** Whatever a save writes, glued or not, assigns each saved key its own entry's value text. */
  lemma GluedReadsEntries(lines: seq<Line>, keys: seq<string>, e: Entered, l: Line)
    requires Keyed(e) && WholeEntries(e) && Clean(lines) && forall k <- keys :: k in e
    requires !EndsWhole(Rewrite(lines, e)) && Missing(keys, e, Updated(lines, e)) != []
    requires l in Lines(Concat(Texts(SaveLines(lines, keys, e)))) && l.Assign? && l.key in e
    ensures l.value == e[l.key].value
  {
    hide Parse, Physical;
    var kept, more := Rewrite(lines, e), Missing(keys, e, Updated(lines, e));
    RewriteTexts(lines, e);
    MissingClean(keys, e, Updated(lines, e));
    CleanTexts(kept);
    CleanTexts(more);
    UnterminatedLast(kept);
    UnterminatedIsCopied(lines, e);
    GluedLines(kept, more);
    GluedMembers(kept, more, Lines(Concat(Texts(SaveLines(lines, keys, e)))), l);
    RewritesHarmlessLines(lines, e);
    MissingAreHarmless(keys, e, Updated(lines, e));
    MissingAreEntries(keys, e, Updated(lines, e));
    assert kept[|kept| - 1] in kept && more[0] in more;
    EntryJoins(kept[|kept| - 1], more[0], e);
  }

  lemma {:induction false} MissingAreEntries(keys: seq<string>, e: Entered, updated: set<string>)
    requires Keyed(e) && forall k <- keys :: k in e
    ensures forall m <- Missing(keys, e, updated) :: m.Assign? && m.key in e
  {
    if keys != [] { MissingAreEntries(keys[1..], e, updated); }
  }

  lemma EntriesAreKeyed(s: Dict)
    ensures Keyed(Entries(s)) && Entries(s).Keys == s.values.Keys
  {}

  lemma SavedReadsEntries(lines: seq<Line>, keys: seq<string>, e: Entered, l: Line)
    requires Keyed(e) && forall k <- keys :: k in e
    requires l in SaveLines(lines, keys, e) && l.Assign? && l.key in e
    ensures l.value == e[l.key].value
  {
    RewritesHarmlessLines(lines, e);
    MissingAreHarmless(keys, e, Updated(lines, e));
  }

  lemma ReadsOnlyEntries(t: string, s: Dict, l: Line)
    requires Writable(s) && l in Lines(SaveText(t, s)) && l.Assign? && l.key in s.values
    ensures l.value == Entries(s)[l.key].value
  {
    hide Joins, Lines, Parse, FormatEnvValue, Rewrite, Updated, Missing;
    EntriesAreKeyed(s);
    JoinsMeans(t, s);
    if Joins(t, s) {
      WritableEntries(s);
      LinesAreClean(t);
      GluedReadsEntries(Lines(t), s.keys, Entries(s), l);
    } else {
      SaveReadsBackExactly(t, s);
      SavedReadsEntries(Lines(t), s.keys, Entries(s), l);
    }
  }

  /** If every line for a key has the same value text, that text begins what is read for the key. */
  lemma {:induction false} ReadsFrom(lines: seq<Line>, k: string, w: string)
    requires (forall l <- lines :: l.Assign? && l.key == k ==> l.value == w) && k in ReadRaw(lines)
    ensures exists rest: seq<Line> :: ReadRaw(lines)[k] == Continued(w, rest)
    decreases |lines|
  {
    var next := if lines[0].Assign? then Tail(lines) else lines[1..];
    assert forall l <- next :: l in lines;
    if k in ReadRaw(next) {
      ReadsFrom(next, k, w);
    } else {
      assert lines[0].key == k && ReadRaw(lines)[k] == Continued(w, lines[1..]);
    }
  }

  lemma {:induction false} ContinuedShape(v: string, rest: seq<Line>)
    ensures v <= Continued(v, rest)
    ensures Continued(v, rest) == v || (!QuoteClosed(v) && Continued(v, rest)[|v|] == '\n')
    decreases |rest|
  {
    if rest != [] && !QuoteClosed(v) {
      var next := v + "\n" + TrimNewlines(rest[0].text);
      ContinuedShape(next, rest[1..]);
      assert next[|v|] == '\n' && v <= next;
    }
  }

  lemma ClosesBehind(u: string, tail: string, z: string)
    requires OpensSingle(u) && z != "" && z <= u + tail && (tail == "" || tail[0] == '\n')
    ensures var end := CloseFrom(z, '\'', 1, false); end >= 0 ==> '\n' in z[1..end]
  {
    var all, end := u + tail, CloseFrom(z, '\'', 1, false);
    if end >= 0 {
      assert z[end] == all[end] == '\'';
      assert forall i | 1 <= i < |u| :: u[i] == u[1..][i - 1];
      assert z[|u|] == all[|u|] == tail[0];
      assert z[1..end][|u| - 1] == '\n';
    }
  }

  lemma StripJoined(w: string, tail: string)
    requires OpenSingleQuote(w)
    ensures var z := Strip(w + tail); z != "" && z <= LStrip(w) + tail && z[0] == '\''
  {
    LStripJoins(w, tail);
    StripStarts(w + tail);
  }

  /** A single-quoted value that was continued is read with a newline in it, if it is read at all. */
  lemma ContinuedReadsNewline(w: string, tail: string)
    requires OpenSingleQuote(w) && (tail == "" || tail[0] == '\n')
    ensures ReadEnvValue(w + tail).None? || '\n' in ReadEnvValue(w + tail).value
  {
    hide Strip, LStrip, CloseFrom;
    StripJoined(w, tail);
    ClosesBehind(LStrip(w), tail, Strip(w + tail));
  }

  lemma WrittenBare(v: string)
    requires !ReadsBack(v) && '\r' !in FormatEnvValue(v)
    ensures FormatEnvValue(v) == v && NormaliseNewlines(v) == v && '\n' !in v && '\r' !in v && '"' !in v
  {
    NormaliseIsOnePass(v);
    OnePassFacts(v);
  }

  lemma OpenIsSingle(w: string)
    requires !QuoteClosed(w) && '"' !in w
    ensures OpenSingleQuote(w)
  {
    var u := LStrip(w);
    LStripDropsFront(w);
    ScanSingle(u, 1);
  }

  /** Whatever the file and the other settings: a value that cannot be read back is not read back, not even
      by accident of the lines around it. */
  lemma NeverReadsBack(t: string, s: Dict, k: string)
    requires Writable(s) && k in s.values && !ReadsBack(s.values[k])
    ensures Lookup(SaveText(t, s), k) != Some(NormaliseNewlines(s.values[k]))
  {
    var v, lines := s.values[k], Lines(SaveText(t, s));
    var w := RStrip(v);
    WrittenBare(v);
    forall l <- lines | l.Assign? && l.key == k ensures l.value == w { ReadsOnlyEntries(t, s, l); }
    if k in ReadRaw(lines) {
      ReadsFrom(lines, k, w);
      var rest: seq<Line> :| ReadRaw(lines)[k] == Continued(w, rest);
      NeverReadsValue(v, rest);
    }
  }

  lemma NeverReadsValue(v: string, rest: seq<Line>)
    requires !ReadsBack(v) && '\r' !in FormatEnvValue(v)
    ensures ReadEnvValue(Continued(RStrip(v), rest)) != Some(NormaliseNewlines(v))
  {
    var w := RStrip(v);
    WrittenBare(v);
    ContinuedShape(w, rest);
    EntryValueReads(v);
    RoundTripExactly(v);
    if Continued(w, rest) != w {
      var tail := Continued(w, rest)[|w|..];
      OpenIsSingle(w);
      assert Continued(w, rest) == w + tail;
      ContinuedReadsNewline(w, tail);
    }
  }
}
