/** Exactly when saving a file's text keeps its promise. */
module EnvPromise {
  import opened EnvText
  import opened EnvRoundTrip
  import opened EnvLines
  import opened EnvOverride
  import opened EnvExactly
  import opened EnvFile

  /** The text that is saved reads as the old map overridden by the settings, and has everything unrelated
      to them verbatim and in order. */
  predicate KeepsPromise(t: string, s: Dict) {
    && ReadRaw(Lines(SaveText(t, s))) == ReadRaw(Lines(t)) + NewValues(s)
    && Unrelated(Lines(SaveText(t, s)), s.values.Keys) == Unrelated(Lines(t), s.values.Keys)
  }

  // ----- a line that another one is appended to -----

  lemma {:induction false} LStripJoins(a: string, b: string)
    ensures LStrip(a + b) == if LStrip(a) == "" then LStrip(b) else LStrip(a) + b
  {
    if a == "" {
      assert a + b == b;
    } else if IsSpace(a[0]) {
      assert (a + b)[1..] == a[1..] + b;
      LStripJoins(a[1..], b);
    }
  }

  lemma StripStarts(a: string)
    ensures Strip(a) == "" <==> LStrip(a) == ""
    ensures Strip(a) != "" ==> Strip(a)[0] == LStrip(a)[0]
  {
    var u := LStrip(a);
    if u != "" {
      assert u == "" + [u[0]] + u[1..];
      RStripTail("", u[0], u[1..]);
    }
  }

  lemma CommentJoins(a: string, b: string)
    requires Strip(a) != "" && Strip(a)[0] == '#'
    ensures Parse(a + b).Note?
  {
    StripStarts(a);
    LStripJoins(a, b);
    StripStarts(a + b);
  }

  lemma BlankJoins(a: string, b: string)
    requires Strip(a) == "" && Parse(b).Assign?
    ensures Parse(a + b).Assign? && Parse(a + b).key == Parse(b).key && Parse(a + b).value == Parse(b).value
  {
    StripStarts(a);
    LStripJoins(a, b);
  }

  lemma AssignmentJoins(a: string, b: string)
    requires Parse(a).Assign?
    ensures Parse(a + b).Assign? && Parse(a + b).key == Parse(a).key
  {
    var u, i := LStrip(a), IndexOf(Strip(a), '=');
    AssignmentShape(a);
    hide Parse, RStrip;
    StripStarts(a);
    LStripJoins(a, b);
    EqualsJoins(u[..i], u[i + 1..], u, b);
    StripStarts(a + b);
    ParsesAs(a + b, u[..i]);
  }

  lemma AssignmentShape(a: string)
    requires Parse(a).Assign?
    ensures var u, i := LStrip(a), IndexOf(Strip(a), '=');
            && Strip(a) != "" && Strip(a)[0] != '#' && i < |u| && u == u[..i] + "=" + u[i + 1..] && '=' !in u[..i]
            && Parse(a).key == Strip(u[..i])
  {
    var u, t := LStrip(a), Strip(a);
    var i := IndexOf(t, '=');
    PrefixAt(t, u, i);
  }

  lemma PrefixAt(t: string, u: string, i: nat)
    requires t <= u && i < |t| && t[i] == '='
    ensures t[..i] == u[..i] && u == u[..i] + "=" + u[i + 1..]
  {}

  lemma EqualsJoins(p: string, q: string, u: string, b: string)
    requires u == p + "=" + q && '=' !in p
    ensures var t := RStrip(u + b); |t| > |p| && IndexOf(t, '=') == |p| && t[..|p|] == p
  {
    assert u + b == p + ['='] + (q + b);
    RStripTail(p, '=', q + b);
    var tail := RStrip(q + b);
    FirstEquals(p, tail);
    assert (p + "=" + tail)[..|p|] == p;
  }

  /** An entry behind an unterminated line that the loop copied: the joined line assigns the entry's key only
      if the line was blank, and no saved key otherwise. */
  lemma EntryJoins(l: Line, m: Line, e: Entered)
    requires Kept(l, e) && Parse(l.text) == l && m.Assign? && Parse(m.text) == m
    ensures var j := Parse(l.text + m.text);
            || j.Note? || (j.Assign? && j.key !in e) || (j.Assign? && j.key == m.key && j.value == m.value)
  {
    if l.Assign? {
      AssignmentJoins(l.text, m.text);
    } else if Strip(l.text) == "" {
      BlankJoins(l.text, m.text);
    } else {
      CommentJoins(l.text, m.text);
    }
  }

  // ----- what a joining save writes -----

  lemma {:induction false} ConcatJoins(a: seq<string>, b: seq<string>)
    ensures Concat(a + b) == Concat(a) + Concat(b)
  {
    if a == [] {
      assert a + b == b;
    } else {
      assert (a + b)[0] == a[0] && (a + b)[1..] == a[1..] + b;
      ConcatJoins(a[1..], b);
    }
  }

  lemma ConcatGlues(first: seq<string>, x: string, y: string, rest: seq<string>)
    ensures Concat(first + [x] + ([y] + rest)) == Concat(first + [x + y] + rest)
  {
    hide Concat;
    ConcatJoins(first + [x], [y] + rest);
    ConcatJoins(first, [x]);
    ConcatJoins([y], rest);
    ConcatJoins(first + [x + y], rest);
    ConcatJoins(first, [x + y]);
    ConcatOne(x);
    ConcatOne(y);
    ConcatOne(x + y);
    TextGlues(Concat(first), x, y, Concat(rest));
  }

  lemma ConcatOne(x: string)
    ensures Concat([x]) == x
  {
    assert [x][1..] == [] && x + "" == x;
  }

  lemma TextGlues(a: string, x: string, y: string, b: string)
    ensures a + x + (y + b) == a + (x + y) + b
  {}

  lemma GluedIsWhole(x: string, y: string)
    requires Physical(x) && !Whole(x) && Whole(y)
    ensures Whole(x + y)
  {
    var z := x + y;
    forall i | 0 <= i < |z| - 1 ensures z[i] != '\n' {
      if i < |x| - 1 { assert z[i] == x[..|x| - 1][i]; } else if i >= |x| { assert z[i] == y[..|y| - 1][i - |x|]; }
    }
  }

  /** The lines of a file whose last kept line and first appended entry were glued together. */
  lemma GluedLines(kept: seq<Line>, more: seq<Line>)
    requires kept != [] && more != [] && !Whole(kept[|kept| - 1].text)
    requires (forall l <- kept :: Physical(l.text)) && (forall l <- more :: Whole(l.text))
    requires forall i | 0 <= i < |kept| - 1 :: Whole(kept[i].text)
    ensures var glued := kept[|kept| - 1].text + more[0].text;
            var texts := Texts(kept[..|kept| - 1]) + [glued] + Texts(more[1..]);
            && Lines(Concat(Texts(kept + more))) == ParseAll(texts)
            && forall l <- texts :: Whole(l)
  {
    var n := |kept| - 1;
    var first, x, y, rest := Texts(kept[..n]), kept[n].text, more[0].text, Texts(more[1..]);
    var texts := first + [x + y] + rest;
    assert Texts(kept + more) == first + [x] + ([y] + rest);
    ConcatGlues(first, x, y, rest);
    assert kept[n] in kept && more[0] in more;
    GluedIsWhole(x, y);
    forall i | 0 <= i < |texts| ensures Whole(texts[i]) {
      if i < n { assert texts[i] == kept[i].text; } else if i > n { assert texts[i] == more[i - n].text; }
    }
    WrittenLinesReadBackExactly(texts);
  }

  lemma ParsedBack(lines: seq<Line>, some: seq<Line>, c: Line)
    requires Faithful(lines) && (forall l <- some :: l in lines) && c in ParseAll(Texts(some))
    ensures c in lines
  {
    var i :| 0 <= i < |some| && ParseAll(Texts(some))[i] == c;
    assert some[i] in lines;
  }

  lemma GluedMembers(kept: seq<Line>, more: seq<Line>, after: seq<Line>, c: Line)
    requires kept != [] && more != [] && c in after && Faithful(kept) && Faithful(more)
    requires after == ParseAll(Texts(kept[..|kept| - 1]) + [kept[|kept| - 1].text + more[0].text] + Texts(more[1..]))
    ensures c in kept || c in more || c == Parse(kept[|kept| - 1].text + more[0].text)
  {
    var first, rest := kept[..|kept| - 1], more[1..];
    var glued := [kept[|kept| - 1].text + more[0].text];
    ParseJoins(Texts(first) + glued, Texts(rest));
    ParseJoins(Texts(first), glued);
    if c in ParseAll(Texts(first)) {
      ParsedBack(kept, first, c);
    } else if c in ParseAll(Texts(rest)) {
      ParsedBack(more, rest, c);
    }
  }

  lemma ParseJoins(a: seq<string>, b: seq<string>)
    ensures ParseAll(a + b) == ParseAll(a) + ParseAll(b)
  {}

  // ----- lines the loop and the reader take differently -----

  lemma {:induction false} KeptAreUnrelated(lines: seq<Line>, e: Entered)
    requires WellEntered(e) && forall l <- Carried(lines, e.Keys) :: Harmless(l, e)
    ensures forall l <- Rewrite(lines, e) :: l in Unrelated(lines, e.Keys) || (l.Assign? && l.key in e && l == e[l.key])
    decreases |lines|
  {
    if lines != [] {
      StepInStep(lines, e, []);
      if !lines[0].Assign? {
        KeptAreUnrelated(lines[1..], e);
      } else {
        KeptAreUnrelated(Tail(lines), e);
        if lines[0].key !in e {
          if IsOpen(lines, e) { OpenShape(lines, e); } else { CopiedShape(lines, e, []); }
          assert Rewrite(lines, e) + [] == Rewrite(lines, e);
          assert Rewrite(Tail(lines), e) + [] == Rewrite(Tail(lines), e);
        }
      }
    }
  }

  /** In a list of lines that begins with head, one of head's disturbed lines is looked at by the loop, or
      all of head is passed line by line. */
  lemma {:induction false} HeadIsReached(head: seq<Line>, tail: seq<Line>, e: Entered)
    requires WellEntered(e)
    ensures (exists c <- head :: !Harmless(c, e) && c in Reached(head + tail, e))
            || Reached(head + tail, e) == head + Reached(tail, e)
    decreases |head|
  {
    if head == [] {
      assert head + tail == tail;
    } else {
      var all := head + tail;
      assert all[0] == head[0] && all[1..] == head[1..] + tail;
      if Harmless(head[0], e) {
        HeadIsReached(head[1..], tail, e);
        assert all[1..][0..] == all[1..];
        assert Reached(all, e) == [head[0]] + Reached(head[1..] + tail, e);
        assert head == [head[0]] + head[1..];
      } else {
        assert head[0] in Reached(all, e);
      }
    }
  }

  lemma {:induction false} DisturbedIsReached(lines: seq<Line>, e: Entered)
    requires WellEntered(e) && exists c <- Carried(lines, e.Keys) :: !Harmless(c, e)
    ensures exists c <- Carried(lines, e.Keys) :: !Harmless(c, e) && c in Reached(lines, e)
    decreases |lines|
  {
    if !lines[0].Assign? {
      DisturbedIsReached(lines[1..], e);
    } else if lines[0].key in e {
      DisturbedIsReached(Tail(lines), e);
    } else {
      HeadIsReached(Head(lines), Tail(lines), e);
      assert lines[1..] == Head(lines) + Tail(lines);
      if Reached(lines[1..], e) == Head(lines) + Reached(Tail(lines), e) {
        if exists c <- Head(lines) :: !Harmless(c, e) {
          var c :| c in Head(lines) && !Harmless(c, e);
          assert c in Reached(lines, e);
        } else {
          DisturbedIsReached(Tail(lines), e);
        }
      }
    }
  }

  lemma {:induction false} MissingAreNew(keys: seq<string>, e: Entered, updated: set<string>)
    requires WellEntered(e) && forall k <- keys :: k in e
    ensures forall m <- Missing(keys, e, updated) :: m.Assign? && m.key in e && m == e[m.key] && m.key !in updated
  {
    if keys != [] { MissingAreNew(keys[1..], e, updated); }
  }

  // ----- a joining save breaks its promise -----

  /** The glued text keeps the unrelated lines only if the loop and the reader disagree about one, and that
      one would have to be the glued line itself. */
  lemma GluedDisagrees(lines: seq<Line>, keys: seq<string>, e: Entered, after: seq<Line>)
    requires WellEntered(e) && WholeEntries(e) && Clean(lines) && forall k <- keys :: k in e
    requires var kept, more := Rewrite(lines, e), Missing(keys, e, Updated(lines, e));
             && kept != [] && more != [] && !Whole(kept[|kept| - 1].text) && Kept(kept[|kept| - 1], e)
             && Faithful(kept) && Faithful(more)
             && after == ParseAll(Texts(kept[..|kept| - 1]) + [kept[|kept| - 1].text + more[0].text] + Texts(more[1..]))
             && forall l <- after :: Whole(l.text)
    ensures Unrelated(after, e.Keys) != Unrelated(lines, e.Keys)
  {
    var kept, more := Rewrite(lines, e), Missing(keys, e, Updated(lines, e));
    var last := kept[|kept| - 1];
    UnrelatedAreLines(lines, e.Keys);
    UnrelatedAreLines(after, e.Keys);
    if forall l <- Carried(lines, e.Keys) :: Harmless(l, e) {
      KeptAreUnrelated(lines, e);
      assert last in kept;
    } else {
      DisturbedIsReached(lines, e);
      var c :| c in Carried(lines, e.Keys) && !Harmless(c, e) && c in Reached(lines, e);
      DisturbedIsNotThere(lines, keys, e, after, c);
    }
  }

  lemma DisturbedIsNotThere(lines: seq<Line>, keys: seq<string>, e: Entered, after: seq<Line>, c: Line)
    requires WellEntered(e) && forall k <- keys :: k in e
    requires var kept, more := Rewrite(lines, e), Missing(keys, e, Updated(lines, e));
             && kept != [] && more != [] && Kept(kept[|kept| - 1], e) && Faithful(kept) && Faithful(more)
             && after == ParseAll(Texts(kept[..|kept| - 1]) + [kept[|kept| - 1].text + more[0].text] + Texts(more[1..]))
    requires !Harmless(c, e) && c in Reached(lines, e)
    ensures c !in after
  {
    var updated := Updated(lines, e);
    var kept, more := Rewrite(lines, e), Missing(keys, e, updated);
    RewritesHarmlessLines(lines, e);
    MissingAreHarmless(keys, e, updated);
    MissingAreNew(keys, e, updated);
    if c in after {
      GluedMembers(kept, more, after, c);
      assert kept[|kept| - 1] in kept && more[0] in more;
      EntryJoins(kept[|kept| - 1], more[0], e);
      if c.Assign? && c.key == more[0].key {
        UpdatedIsReached(lines, e, c.key);
        assert Assigned(Reached(lines, e), c.key);
      }
    }
  }

  lemma {:induction false} RewritesCopiesOrEntries(lines: seq<Line>, e: Entered)
    ensures forall l <- Rewrite(lines, e) :: Kept(l, e) || exists k <- e :: l == e[k]
    decreases |lines|
  {
    if lines != [] {
      if lines[0].Assign? && lines[0].key in e {
        RewritesCopiesOrEntries(Tail(lines), e);
      } else {
        RewritesCopiesOrEntries(lines[1..], e);
      }
    }
  }

  lemma CleanTexts(lines: seq<Line>)
    requires Clean(lines)
    ensures Faithful(lines) && (forall l <- lines :: Physical(l.text))
    ensures forall i | 0 <= i < |lines| - 1 :: Whole(lines[i].text)
  {
    forall l <- lines ensures Physical(l.text) {
      var i :| 0 <= i < |lines| && lines[i] == l;
      assert Texts(lines)[i] in Texts(lines);
    }
    forall i | 0 <= i < |lines| - 1 ensures Whole(lines[i].text) { assert Whole(Texts(lines)[i]); }
  }

  /** The last line written before the appended ones was copied, if it is not terminated. */
  lemma UnterminatedIsCopied(lines: seq<Line>, e: Entered)
    requires AllWhole(e) && Rewrite(lines, e) != []
    requires !Whole(Rewrite(lines, e)[|Rewrite(lines, e)| - 1].text)
    ensures Kept(Rewrite(lines, e)[|Rewrite(lines, e)| - 1], e)
  {
    RewritesCopiesOrEntries(lines, e);
    assert Rewrite(lines, e)[|Rewrite(lines, e)| - 1] in Rewrite(lines, e);
  }

  lemma GluingBreaks(lines: seq<Line>, keys: seq<string>, e: Entered)
    requires WellEntered(e) && WholeEntries(e) && Clean(lines) && forall k <- keys :: k in e
    requires !EndsWhole(Rewrite(lines, e)) && Missing(keys, e, Updated(lines, e)) != []
    ensures Unrelated(Lines(Concat(Texts(SaveLines(lines, keys, e)))), e.Keys) != Unrelated(lines, e.Keys)
  {
    var kept, more := Rewrite(lines, e), Missing(keys, e, Updated(lines, e));
    RewriteTexts(lines, e);
    MissingClean(keys, e, Updated(lines, e));
    CleanTexts(kept);
    CleanTexts(more);
    UnterminatedLast(kept);
    UnterminatedIsCopied(lines, e);
    GluedLines(kept, more);
    GluedDisagrees(lines, keys, e, Lines(Concat(Texts(SaveLines(lines, keys, e)))));
  }

  lemma UnterminatedLast(lines: seq<Line>)
    requires !EndsWhole(lines)
    ensures lines != [] && !Whole(lines[|lines| - 1].text)
  {}

  lemma JoiningBreaksThePromise(t: string, s: Dict)
    requires ValidSettings(s)
    ensures Joins(t, s) ==> Unrelated(Lines(SaveText(t, s)), s.values.Keys) != Unrelated(Lines(t), s.values.Keys)
  {
    EntriesAreWhole(s);
    LinesAreClean(t);
    JoinsMeans(t, s);
    if Joins(t, s) { GluingBreaks(Lines(t), s.keys, Entries(s)); }
    SameKeys(s);
  }

  lemma SameKeys(s: Dict)
    ensures Entries(s).Keys == s.values.Keys
  {}

  lemma NotJoiningIsExact(t: string, s: Dict)
    requires ValidSettings(s) && !Joins(t, s)
    ensures KeepsPromise(t, s) <==> Undisturbed(Lines(t), Entries(s))
  {
    EntriesAreWhole(s);
    SaveReadsBackExactly(t, s);
    SaveIsInOrderExactly(Lines(t), s.keys, Entries(s));
    NewRawIsNewValues(s);
    SameKeys(s);
  }

  /** For every text and all valid settings: the saved text reads as the old map overridden by the settings
      and has everything unrelated verbatim and in order, if and only if the file is undisturbed and the
      save does not run into an unterminated last line. */
  lemma PromiseIsKeptExactly(t: string, s: Dict)
    requires ValidSettings(s)
    ensures KeepsPromise(t, s) <==> Undisturbed(Lines(t), Entries(s)) && !Joins(t, s)
  {
    if Joins(t, s) { JoiningBreaksThePromise(t, s); } else { NotJoiningIsExact(t, s); }
  }
}
