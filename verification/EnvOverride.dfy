/** Saving settings overrides the file's map and leaves everything else alone. Here the lines to
    write are given as entries: for each key, a line that assigns it. */
module EnvOverride {
  import opened EnvText
  import opened EnvRoundTrip
  import opened EnvLines

  // ----- one line in front -----

  lemma Front(line: Line, lines: seq<Line>)
    ensures ([line] + lines)[0] == line && ([line] + lines)[1..] == lines
  {}

  lemma RewriteFront(line: Line, lines: seq<Line>, e: Entered)
    ensures Rewrite([line] + lines, e)
            == if Kept(line, e) then [line] + Rewrite(lines, e)
               else if line.Assign? then [e[line.key]] + Rewrite(lines[Extent(line.value, lines)..], e)
               else Rewrite(lines, e)
  {
    Front(line, lines);
  }

  lemma UpdatedFront(line: Line, lines: seq<Line>, e: Entered)
    ensures Updated([line] + lines, e)
            == if !Kept(line, e) && line.Assign?
               then {line.key} + Updated(lines[Extent(line.value, lines)..], e)
               else Updated(lines, e)
  {
    Front(line, lines);
  }

  lemma ReadFront(line: Line, lines: seq<Line>)
    ensures ReadRaw([line] + lines)
            == if line.Assign? then
                 var v := line.value;
                 map[line.key := Continued(v, lines)] + ReadRaw(lines[Extent(v, lines)..])
               else ReadRaw(lines)
  {
    Front(line, lines);
  }

  /** An entry in front is read as one line, and written again as itself. */
  lemma EntryFront(k: string, e: Entered, lines: seq<Line>)
    requires WellEntered(e) && k in e
    ensures ReadRaw([e[k]] + lines) == map[k := NewRaw(e)[k]] + ReadRaw(lines)
    ensures Rewrite([e[k]] + lines, e) == [e[k]] + Rewrite(lines, e)
    ensures Updated([e[k]] + lines, e) == {k} + Updated(lines, e)
  {
    var v := e[k].value;
    assert Extent(v, lines) == 0 && Continued(v, lines) == v && lines[0..] == lines;
    ReadFront(e[k], lines);
    RewriteFront(e[k], lines, e);
    UpdatedFront(e[k], lines, e);
  }

  // ----- which files -----

  /** What a reader sees beside the keys in ks: comments and blanks, and every other assignment with the
      lines that continue it. */
  function Unrelated(lines: seq<Line>, ks: set<string>): seq<Line>
    decreases |lines|
  {
    if lines == [] then []
    else if !lines[0].Assign? then (if lines[0].Note? then [lines[0]] else []) + Unrelated(lines[1..], ks)
    else
      var n := Extent(lines[0].value, lines[1..]);
      (if lines[0].key in ks then [] else [lines[0]] + lines[1..][..n]) + Unrelated(lines[1..][n..], ks)
  }

  /** The lines among them that continue an assignment. */
  function Carried(lines: seq<Line>, ks: set<string>): seq<Line>
    decreases |lines|
  {
    if lines == [] then []
    else if !lines[0].Assign? then Carried(lines[1..], ks)
    else
      var n := Extent(lines[0].value, lines[1..]);
      (if lines[0].key in ks then [] else lines[1..][..n]) + Carried(lines[1..][n..], ks)
  }

  /** The last of the other assignments is still open when the file ends. */
  predicate OpenTail(lines: seq<Line>, ks: set<string>)
    decreases |lines|
  {
    if lines == [] then false
    else if !lines[0].Assign? then OpenTail(lines[1..], ks)
    else
      || (lines[0].key !in ks && !QuoteClosed(Continued(lines[0].value, lines[1..])))
      || OpenTail(lines[1..][Extent(lines[0].value, lines[1..])..], ks)
  }

  /** The loop leaves the line as it is: it copies it, or writes the same line again. */
  predicate Harmless(line: Line, e: Entered) {
    line.Note? || (line.Assign? && (line.key in e ==> line == e[line.key]))
  }

  /** A save does no harm: no continued line of another assignment is taken for something else, and a value
      that is open at the end of the file has nothing appended to it. */
  predicate Undisturbed(lines: seq<Line>, e: Entered) {
    && (forall l <- Carried(lines, e.Keys) :: Harmless(l, e) && (l.Assign? && l.key in e ==> l.key in ReadRaw(lines)))
    && (OpenTail(lines, e.Keys) ==> e.Keys <= ReadRaw(lines).Keys)
  }

  // ----- closed values stop where they did -----

  lemma {:induction false} ExtentIsLocal(v: string, lines: seq<Line>, more: seq<Line>)
    requires QuoteClosed(Continued(v, lines))
    ensures Extent(v, lines[..Extent(v, lines)] + more) == Extent(v, lines)
    ensures Continued(v, lines[..Extent(v, lines)] + more) == Continued(v, lines)
    decreases |lines|
  {
    if lines == [] || QuoteClosed(v) {
      assert lines[..0] + more == more;
    } else {
      var v1, rest := v + "\n" + TrimNewlines(lines[0].text), lines[1..];
      var n := Extent(v1, rest);
      assert lines[..1 + n] + more == [lines[0]] + (rest[..n] + more);
      Front(lines[0], rest[..n] + more);
      ExtentIsLocal(v1, rest, more);
    }
  }

  /** The keys that lines kept as they are count as replaced. */
  function Rewritten(lines: seq<Line>, e: Entered): set<string> {
    set l | l in lines && l.Assign? && l.key in e :: l.key
  }

  lemma RewriteCopiesOne(line: Line, rest: seq<Line>, e: Entered)
    requires WellEntered(e) && Harmless(line, e)
    ensures Rewrite([line] + rest, e) == [line] + Rewrite(rest, e)
    ensures Updated([line] + rest, e) == Rewritten([line], e) + Updated(rest, e)
  {
    if line.Assign? && line.key in e {
      EntryFront(line.key, e, rest);
    } else {
      RewriteFront(line, rest, e);
      UpdatedFront(line, rest, e);
    }
  }

  lemma RewrittenJoins(a: seq<Line>, b: seq<Line>, e: Entered)
    ensures Rewritten(a + b, e) == Rewritten(a, e) + Rewritten(b, e)
  {}

  lemma Associate<T>(a: seq<T>, b: seq<T>, c: seq<T>)
    ensures a + b + c == a + (b + c)
  {}

  lemma {:induction false} RewriteCopies(kept: seq<Line>, lines: seq<Line>, e: Entered)
    requires WellEntered(e) && forall l <- kept :: Harmless(l, e)
    ensures Rewrite(kept + lines, e) == kept + Rewrite(lines, e)
    ensures Updated(kept + lines, e) == Rewritten(kept, e) + Updated(lines, e)
    decreases |kept|
  {
    if kept == [] {
      assert kept + lines == lines;
    } else {
      var first, rest := [kept[0]], kept[1..];
      assert kept == first + rest;
      Associate(first, rest, lines);
      Associate(first, rest, Rewrite(lines, e));
      RewriteCopies(rest, lines, e);
      RewriteCopiesOne(kept[0], rest + lines, e);
      RewrittenJoins(first, rest, e);
    }
  }

  // ----- the loop is an override -----

  /** The old map with the replaced keys at their new values. */
  function Replaced(m: map<string, string>, e: Entered): map<string, string>
    requires WellEntered(e)
  {
    map k | k in m :: if k in e then NewRaw(e)[k] else m[k]
  }

  /** The loop and the reader see the same assignments. */
  predicate InStep(lines: seq<Line>, e: Entered, more: seq<Line>) {
    (forall l <- Carried(lines, e.Keys) :: Harmless(l, e)) && (OpenTail(lines, e.Keys) ==> more == [])
  }

  lemma AssociateFront(line: Line, a: seq<Line>, b: seq<Line>)
    ensures [line] + a + b == [line] + (a + b)
  {}

  lemma ReplacedFront(k: string, c: string, m: map<string, string>, e: Entered, after: map<string, string>)
    requires WellEntered(e)
    ensures Replaced(map[k := c] + m, e) + after
            == map[k := if k in e then NewRaw(e)[k] else c] + (Replaced(m, e) + after)
    ensures (map[k := c] + m).Keys * e.Keys == (if k in e then {k} else {}) + m.Keys * e.Keys
  {}

  /** The lines that continue the first assignment, and what follows them. */
  function Head(lines: seq<Line>): seq<Line>
    requires lines != [] && lines[0].Assign?
  {
    lines[1..][..Extent(lines[0].value, lines[1..])]
  }

  function Tail(lines: seq<Line>): (tail: seq<Line>)
    requires lines != [] && lines[0].Assign?
    ensures |tail| < |lines| && lines == [lines[0]] + (Head(lines) + tail)
  {
    lines[1..][Extent(lines[0].value, lines[1..])..]
  }

  /** An assignment to a saved key becomes its entry. */
  lemma ReplacedShape(lines: seq<Line>, e: Entered, more: seq<Line>)
    requires WellEntered(e) && lines != [] && lines[0].Assign? && lines[0].key in e
    ensures Rewrite(lines, e) + more == [e[lines[0].key]] + (Rewrite(Tail(lines), e) + more)
  {
    AssociateFront(e[lines[0].key], Rewrite(Tail(lines), e), more);
  }

  /** Another assignment that is closed in the file stays as it is, with the lines that continue it. */
  lemma CopiedShape(lines: seq<Line>, e: Entered, more: seq<Line>)
    requires WellEntered(e) && lines != [] && lines[0].Assign? && lines[0].key !in e
    requires QuoteClosed(Continued(lines[0].value, lines[1..])) && forall l <- Head(lines) :: Harmless(l, e)
    ensures Rewrite(lines, e) + more == [lines[0]] + (Head(lines) + (Rewrite(Tail(lines), e) + more))
    ensures Updated(lines, e) == Rewritten(Head(lines), e) + Updated(Tail(lines), e)
  {
    CopiedLines(lines[0], Head(lines), Tail(lines), e, more);
    assert lines == [lines[0]] + (Head(lines) + Tail(lines));
  }

  lemma CopiedLines(line: Line, head: seq<Line>, tail: seq<Line>, e: Entered, more: seq<Line>)
    requires WellEntered(e) && Kept(line, e) && line.Assign? && forall l <- head :: Harmless(l, e)
    ensures Rewrite([line] + (head + tail), e) + more == [line] + (head + (Rewrite(tail, e) + more))
    ensures Updated([line] + (head + tail), e) == Rewritten(head, e) + Updated(tail, e)
  {
    RewriteFront(line, head + tail, e);
    UpdatedFront(line, head + tail, e);
    RewriteCopies(head, tail, e);
  }

  lemma CopiedReads(lines: seq<Line>, after: seq<Line>)
    requires lines != [] && lines[0].Assign? && QuoteClosed(Continued(lines[0].value, lines[1..]))
    ensures var v, rest := lines[0].value, Head(lines) + after;
            && Extent(v, rest) == |Head(lines)|
            && rest[..|Head(lines)|] == Head(lines) && rest[|Head(lines)|..] == after
            && Continued(v, rest) == Continued(v, lines[1..])
  {
    ExtentIsLocal(lines[0].value, lines[1..], after);
  }

  lemma {:induction false} OpenRunsOut(v: string, lines: seq<Line>)
    requires !QuoteClosed(Continued(v, lines))
    ensures Extent(v, lines) == |lines|
    decreases |lines|
  {
    if lines != [] { OpenRunsOut(v + "\n" + TrimNewlines(lines[0].text), lines[1..]); }
  }

  /** An assignment that is open to the end of the file is copied with everything behind it. */
  lemma OpenShape(lines: seq<Line>, e: Entered)
    requires WellEntered(e) && lines != [] && lines[0].Assign? && lines[0].key !in e
    requires !QuoteClosed(Continued(lines[0].value, lines[1..])) && forall l <- Head(lines) :: Harmless(l, e)
    ensures Head(lines) == lines[1..] && Tail(lines) == []
    ensures Rewrite(lines, e) == lines && Updated(lines, e) == Rewritten(lines[1..], e)
  {
    var rest := lines[1..];
    OpenRunsOut(lines[0].value, rest);
    assert rest[..|rest|] == rest && rest + [] == rest && lines == [lines[0]] + rest;
    RewriteCopies(rest, [], e);
    RewriteFront(lines[0], rest, e);
    UpdatedFront(lines[0], rest, e);
  }

  lemma StepInStep(lines: seq<Line>, e: Entered, more: seq<Line>)
    requires InStep(lines, e, more) && lines != []
    ensures !lines[0].Assign? ==> InStep(lines[1..], e, more)
    ensures lines[0].Assign? ==> InStep(Tail(lines), e, more)
    ensures lines[0].Assign? && lines[0].key !in e ==> forall l <- Head(lines) :: Harmless(l, e)
  {}

  predicate IsOpen(lines: seq<Line>, e: Entered)
    requires lines != [] && lines[0].Assign?
  {
    lines[0].key !in e && !QuoteClosed(Continued(lines[0].value, lines[1..]))
  }

  lemma ReplacedReads(lines: seq<Line>, e: Entered, more: seq<Line>)
    requires WellEntered(e) && lines != [] && lines[0].Assign? && lines[0].key in e
    requires ReadRaw(Rewrite(Tail(lines), e) + more) == Replaced(ReadRaw(Tail(lines)), e) + ReadRaw(more)
    ensures ReadRaw(Rewrite(lines, e) + more) == Replaced(ReadRaw(lines), e) + ReadRaw(more)
  {
    var k := lines[0].key;
    ReplacedShape(lines, e, more);
    EntryFront(k, e, Rewrite(Tail(lines), e) + more);
    ReplacedFront(k, Continued(lines[0].value, lines[1..]), ReadRaw(Tail(lines)), e, ReadRaw(more));
  }

  lemma CopiedReplaces(lines: seq<Line>, e: Entered, more: seq<Line>)
    requires WellEntered(e) && lines != [] && lines[0].Assign? && lines[0].key !in e && !IsOpen(lines, e)
    requires forall l <- Head(lines) :: Harmless(l, e)
    requires ReadRaw(Rewrite(Tail(lines), e) + more) == Replaced(ReadRaw(Tail(lines)), e) + ReadRaw(more)
    ensures ReadRaw(Rewrite(lines, e) + more) == Replaced(ReadRaw(lines), e) + ReadRaw(more)
  {
    var after := Rewrite(Tail(lines), e) + more;
    CopiedShape(lines, e, more);
    CopiedReads(lines, after);
    ReadFront(lines[0], Head(lines) + after);
    ReplacedFront(lines[0].key, Continued(lines[0].value, lines[1..]), ReadRaw(Tail(lines)), e, ReadRaw(more));
  }

  lemma OpenReplaces(lines: seq<Line>, e: Entered)
    requires WellEntered(e) && lines != [] && lines[0].Assign? && IsOpen(lines, e)
    requires forall l <- Head(lines) :: Harmless(l, e)
    ensures ReadRaw(Rewrite(lines, e) + []) == Replaced(ReadRaw(lines), e) + ReadRaw([])
  {
    OpenShape(lines, e);
    assert lines + [] == lines;
    assert ReadRaw(lines) == map[lines[0].key := Continued(lines[0].value, lines[1..])] + ReadRaw(Tail(lines));
    assert Replaced(ReadRaw(lines), e) == ReadRaw(lines);
  }

  /** While the loop and the reader are in step, rewriting replaces the values of the saved keys in the map
      that is read, whatever is appended. */
  lemma {:induction false} RewriteReplaces(lines: seq<Line>, e: Entered, more: seq<Line>)
    requires WellEntered(e) && InStep(lines, e, more)
    ensures ReadRaw(Rewrite(lines, e) + more) == Replaced(ReadRaw(lines), e) + ReadRaw(more)
    decreases |lines|
  {
    if lines == [] {
      assert [] + more == more;
    } else {
      StepInStep(lines, e, more);
      if !lines[0].Assign? {
        RewriteReplaces(lines[1..], e, more);
        AssociateFront(lines[0], Rewrite(lines[1..], e), more);
        ReadFront(lines[0], Rewrite(lines[1..], e) + more);
      } else if IsOpen(lines, e) {
        OpenReplaces(lines, e);
      } else {
        RewriteReplaces(Tail(lines), e, more);
        if lines[0].key in e { ReplacedReads(lines, e, more); } else { CopiedReplaces(lines, e, more); }
      }
    }
  }

  lemma UnrelatedFront(line: Line, lines: seq<Line>, ks: set<string>)
    ensures Unrelated([line] + lines, ks)
            == if line.Assign? then
                 var n := Extent(line.value, lines);
                 (if line.key in ks then [] else [line] + lines[..n]) + Unrelated(lines[n..], ks)
               else (if line.Note? then [line] else []) + Unrelated(lines, ks)
  {
    Front(line, lines);
  }

  /** An entry in front is unrelated to nothing but its own key. */
  lemma EntryIsRelated(k: string, e: Entered, lines: seq<Line>, ks: set<string>)
    requires WellEntered(e) && k in e && e.Keys <= ks
    ensures Unrelated([e[k]] + lines, ks) == Unrelated(lines, ks)
  {
    UnrelatedFront(e[k], lines, ks);
    assert Extent(e[k].value, lines) == 0 && lines[0..] == lines;
  }

  lemma CopiedUnrelated(lines: seq<Line>, e: Entered, more: seq<Line>, ks: set<string>)
    requires WellEntered(e) && lines != [] && lines[0].Assign? && lines[0].key !in e && !IsOpen(lines, e)
    requires forall l <- Head(lines) :: Harmless(l, e)
    ensures Unrelated(Rewrite(lines, e) + more, ks)
            == (if lines[0].key in ks then [] else [lines[0]] + Head(lines))
               + Unrelated(Rewrite(Tail(lines), e) + more, ks)
  {
    var after := Rewrite(Tail(lines), e) + more;
    CopiedShape(lines, e, more);
    CopiedReads(lines, after);
    UnrelatedFront(lines[0], Head(lines) + after, ks);
  }

  lemma OpenUnrelated(lines: seq<Line>, e: Entered, ks: set<string>)
    requires WellEntered(e) && lines != [] && lines[0].Assign? && IsOpen(lines, e)
    requires forall l <- Head(lines) :: Harmless(l, e)
    ensures Unrelated(Rewrite(lines, e) + [], ks) == Unrelated(lines, ks) + Unrelated([], ks)
  {
    OpenShape(lines, e);
    assert lines + [] == lines;
  }

  /** And it leaves everything unrelated where it is. */
  lemma {:induction false} RewriteKeepsUnrelated(lines: seq<Line>, e: Entered, more: seq<Line>, ks: set<string>)
    requires WellEntered(e) && InStep(lines, e, more) && e.Keys <= ks
    ensures Unrelated(Rewrite(lines, e) + more, ks) == Unrelated(lines, ks) + Unrelated(more, ks)
    decreases |lines|
  {
    if lines == [] {
      assert [] + more == more;
    } else {
      StepInStep(lines, e, more);
      if !lines[0].Assign? {
        RewriteKeepsUnrelated(lines[1..], e, more, ks);
        AssociateFront(lines[0], Rewrite(lines[1..], e), more);
        UnrelatedFront(lines[0], Rewrite(lines[1..], e) + more, ks);
        Associate(if lines[0].Note? then [lines[0]] else [], Unrelated(lines[1..], ks), Unrelated(more, ks));
      } else if IsOpen(lines, e) {
        OpenUnrelated(lines, e, ks);
      } else {
        RewriteKeepsUnrelated(Tail(lines), e, more, ks);
        if lines[0].key in e {
          ReplacedShape(lines, e, more);
          EntryIsRelated(lines[0].key, e, Rewrite(Tail(lines), e) + more, ks);
        } else {
          CopiedUnrelated(lines, e, more, ks);
          Associate(if lines[0].key in ks then [] else [lines[0]] + Head(lines), Unrelated(Tail(lines), ks),
                    Unrelated(more, ks));
        }
      }
    }
  }

  lemma ReadsFirstKey(lines: seq<Line>)
    requires lines != [] && lines[0].Assign?
    ensures ReadRaw(lines).Keys == {lines[0].key} + ReadRaw(Tail(lines)).Keys
  {}

  lemma CopiedUpdates(lines: seq<Line>, e: Entered)
    requires WellEntered(e) && lines != [] && lines[0].Assign? && lines[0].key !in e
    requires forall l <- Head(lines) :: Harmless(l, e)
    ensures Updated(lines, e) == Rewritten(Head(lines), e) + Updated(Tail(lines), e)
  {
    if IsOpen(lines, e) { OpenShape(lines, e); } else { CopiedShape(lines, e, []); }
  }

  lemma UpdatedKeysStep(lines: seq<Line>, e: Entered)
    requires WellEntered(e) && lines != [] && lines[0].Assign?
    requires lines[0].key !in e ==> forall l <- Head(lines) :: Harmless(l, e)
    requires var tail := Tail(lines);
             Updated(tail, e) == ReadRaw(tail).Keys * e.Keys + Rewritten(Carried(tail, e.Keys), e)
    ensures Updated(lines, e) == ReadRaw(lines).Keys * e.Keys + Rewritten(Carried(lines, e.Keys), e)
  {
    hide ReadRaw, Rewritten, Extent, Harmless, WellEntered;
    ReadsFirstKey(lines);
    if lines[0].key in e {
      assert [] + Carried(Tail(lines), e.Keys) == Carried(Tail(lines), e.Keys);
    } else {
      RewrittenJoins(Head(lines), Carried(Tail(lines), e.Keys), e);
      CopiedUpdates(lines, e);
    }
  }

  /** The keys the loop thinks it has seen: those the reader sees, and those in continued lines. */
  lemma {:induction false} UpdatedKeys(lines: seq<Line>, e: Entered)
    requires WellEntered(e) && forall l <- Carried(lines, e.Keys) :: Harmless(l, e)
    ensures Updated(lines, e) == ReadRaw(lines).Keys * e.Keys + Rewritten(Carried(lines, e.Keys), e)
    decreases |lines|
  {
    if lines != [] {
      StepInStep(lines, e, []);
      if !lines[0].Assign? {
        UpdatedKeys(lines[1..], e);
      } else {
        UpdatedKeys(Tail(lines), e);
        UpdatedKeysStep(lines, e);
      }
    }
  }

  lemma {:induction false} MissingReads(keys: seq<string>, e: Entered, updated: set<string>)
    requires WellEntered(e) && forall k <- keys :: k in e
    ensures ReadRaw(Missing(keys, e, updated)) == map k | k in keys && k !in updated :: NewRaw(e)[k]
  {
    if keys != [] {
      MissingReads(keys[1..], e, updated);
      if keys[0] !in updated { EntryFront(keys[0], e, Missing(keys[1..], e, updated)); }
    }
  }

  lemma RestOverrides(m: map<string, string>, keys: seq<string>, e: Entered, updated: set<string>)
    requires WellEntered(e) && updated == m.Keys * e.Keys && forall k :: k in keys <==> k in e
    ensures Replaced(m, e) + (map k | k in keys && k !in updated :: NewRaw(e)[k]) == m + NewRaw(e)
  {}

  lemma {:induction false} MissingIsRelated(keys: seq<string>, e: Entered, updated: set<string>, ks: set<string>)
    requires WellEntered(e) && e.Keys <= ks && forall k <- keys :: k in e
    ensures Unrelated(Missing(keys, e, updated), ks) == []
    decreases |keys|
  {
    if keys != [] {
      MissingIsRelated(keys[1..], e, updated, ks);
      if keys[0] !in updated { EntryIsRelated(keys[0], e, Missing(keys[1..], e, updated), ks); }
    }
  }

  /** On an undisturbed file the map read after a save is the map read before, overridden by the saved
      settings, and everything unrelated to them comes through verbatim and in order. */
  lemma SaveIsOverride(lines: seq<Line>, keys: seq<string>, e: Entered, ks: set<string>)
    requires WellEntered(e) && Undisturbed(lines, e) && e.Keys <= ks && forall k :: k in keys <==> k in e
    ensures ReadRaw(SaveLines(lines, keys, e)) == ReadRaw(lines) + NewRaw(e)
    ensures Unrelated(SaveLines(lines, keys, e), ks) == Unrelated(lines, ks)
  {
    var updated := Updated(lines, e);
    UpdatedKeys(lines, e);
    assert updated == ReadRaw(lines).Keys * e.Keys;
    if OpenTail(lines, e.Keys) { NothingMissing(keys, e, updated); }
    RewriteReplaces(lines, e, Missing(keys, e, updated));
    RewriteKeepsUnrelated(lines, e, Missing(keys, e, updated), ks);
    MissingReads(keys, e, updated);
    MissingIsRelated(keys, e, updated, ks);
    RestOverrides(ReadRaw(lines), keys, e, updated);
  }

  // ----- comments and unrelated lines -----

  function Others(lines: seq<Line>, e: Entered): seq<Line> {
    if lines == [] then []
    else if Kept(lines[0], e) then [lines[0]] + Others(lines[1..], e)
    else Others(lines[1..], e)
  }

  /** The lines of one-line files: blank, comment, or an assignment with a closed value. */
  predicate OneLiner(line: Line) {
    line.Note? || (line.Assign? && QuoteClosed(line.value))
  }

  predicate OneLiners(lines: seq<Line>) { forall l <- lines :: OneLiner(l) }

  lemma OthersFront(line: Line, lines: seq<Line>, e: Entered)
    ensures Others([line] + lines, e) == if Kept(line, e) then [line] + Others(lines, e) else Others(lines, e)
  {
    Front(line, lines);
  }

  lemma {:induction false} MissingFacts(keys: seq<string>, e: Entered, updated: set<string>)
    requires WellEntered(e) && forall k <- keys :: k in e
    ensures Others(Missing(keys, e, updated), e) == [] && OneLiners(Missing(keys, e, updated))
  {
    if keys != [] {
      MissingFacts(keys[1..], e, updated);
      if keys[0] !in updated { OthersFront(e[keys[0]], Missing(keys[1..], e, updated), e); }
    }
  }

  lemma {:induction false} RewriteKeepsOthers(lines: seq<Line>, e: Entered, more: seq<Line>)
    requires WellEntered(e) && OneLiners(lines)
    ensures Others(Rewrite(lines, e) + more, e) == Others(lines, e) + Others(more, e)
    ensures OneLiners(Rewrite(lines, e))
    decreases |lines|
  {
    if lines == [] {
      assert [] + more == more;
    } else {
      assert OneLiner(lines[0]);
      assert lines[1..][0..] == lines[1..];
      RewriteKeepsOthers(lines[1..], e, more);
      var first := if Kept(lines[0], e) then lines[0] else e[lines[0].key];
      assert Rewrite(lines, e) == [first] + Rewrite(lines[1..], e);
      AssociateFront(first, Rewrite(lines[1..], e), more);
      OthersFront(first, Rewrite(lines[1..], e) + more, e);
    }
  }

  /** On a file of one-line assignments the comments, blanks and unrelated lines come through
      verbatim and in order, the result is such a file again, and saving is override. */
  lemma SaveKeepsOthers(lines: seq<Line>, keys: seq<string>, e: Entered)
    requires WellEntered(e) && OneLiners(lines) && forall k :: k in keys <==> k in e
    ensures var after := SaveLines(lines, keys, e);
            && Others(after, e) == Others(lines, e) && OneLiners(after)
            && ReadRaw(after) == ReadRaw(lines) + NewRaw(e)
  {
    RewriteKeepsOthers(lines, e, Missing(keys, e, Updated(lines, e)));
    MissingFacts(keys, e, Updated(lines, e));
    OneLinersAreUndisturbed(lines, e);
    SaveIsOverride(lines, keys, e, e.Keys);
  }

  lemma {:induction false} OneLinersCarryNothing(lines: seq<Line>, ks: set<string>)
    requires OneLiners(lines)
    ensures Carried(lines, ks) == [] && !OpenTail(lines, ks)
    decreases |lines|
  {
    if lines != [] {
      assert OneLiner(lines[0]) && lines[1..][0..] == lines[1..];
      OneLinersCarryNothing(lines[1..], ks);
    }
  }

  lemma OneLinersAreUndisturbed(lines: seq<Line>, e: Entered)
    requires OneLiners(lines)
    ensures Undisturbed(lines, e)
  {
    OneLinersCarryNothing(lines, e.Keys);
  }

  // ----- exactly when unrelated lines survive -----

  /** A file without any of the saved keys comes through the loop whole exactly if each of its lines
      is blank, a comment, or has an equals sign. A line that only continues a quoted value of
      another key is none of these, and is dropped. */
  lemma {:induction false} UnrelatedFileSurvivesExactly(lines: seq<Line>, e: Entered)
    requires forall l <- lines :: l.Assign? ==> l.key !in e
    ensures Rewrite(lines, e) == lines <==> forall l <- lines :: !l.Neither?
    ensures |Rewrite(lines, e)| <= |lines|
    decreases |lines|
  {
    if lines != [] {
      UnrelatedFileSurvivesExactly(lines[1..], e);
      if Kept(lines[0], e) {
        assert lines == [lines[0]] + lines[1..];
        assert Rewrite(lines, e) == lines <==> Rewrite(lines, e)[1..] == lines[1..];
        assert Rewrite(lines, e)[1..] == Rewrite(lines[1..], e);
      }
    }
  }

  // ----- saving twice -----

  lemma {:induction false} RewriteTwice(lines: seq<Line>, e: Entered, more: seq<Line>)
    requires WellEntered(e)
    ensures Rewrite(Rewrite(lines, e) + more, e) == Rewrite(lines, e) + Rewrite(more, e)
    ensures Updated(Rewrite(lines, e) + more, e) == Updated(lines, e) + Updated(more, e)
    decreases |lines|
  {
    if lines == [] {
      assert [] + more == more;
    } else if lines[0].Neither? {
      RewriteTwice(lines[1..], e, more);
    } else if Kept(lines[0], e) {
      RewriteTwice(lines[1..], e, more);
      var again := Rewrite(lines[1..], e) + more;
      AssociateFront(lines[0], Rewrite(lines[1..], e), more);
      AssociateFront(lines[0], Rewrite(lines[1..], e), Rewrite(more, e));
      RewriteFront(lines[0], again, e);
      UpdatedFront(lines[0], again, e);
    } else {
      var k, tail := lines[0].key, Tail(lines);
      RewriteTwice(tail, e, more);
      AssociateFront(e[k], Rewrite(tail, e), more);
      AssociateFront(e[k], Rewrite(tail, e), Rewrite(more, e));
      EntryFront(k, e, Rewrite(tail, e) + more);
    }
  }

  lemma {:induction false} MissingRewrites(keys: seq<string>, e: Entered, updated: set<string>)
    requires WellEntered(e) && forall k <- keys :: k in e
    ensures Rewrite(Missing(keys, e, updated), e) == Missing(keys, e, updated)
    ensures forall k <- keys :: k in updated || k in Updated(Missing(keys, e, updated), e)
  {
    if keys != [] {
      MissingRewrites(keys[1..], e, updated);
      if keys[0] !in updated { EntryFront(keys[0], e, Missing(keys[1..], e, updated)); }
    }
  }

  lemma {:induction false} NothingMissing(keys: seq<string>, e: Entered, updated: set<string>)
    requires forall k <- keys :: k in e && k in updated
    ensures Missing(keys, e, updated) == []
  {
    if keys != [] { NothingMissing(keys[1..], e, updated); }
  }

  /** For every file, well-formed or not: saving the same settings again writes the same lines. */
  lemma SavingTwiceIsSavingOnce(lines: seq<Line>, keys: seq<string>, e: Entered)
    requires WellEntered(e) && forall k :: k in keys <==> k in e
    ensures SaveLines(SaveLines(lines, keys, e), keys, e) == SaveLines(lines, keys, e)
  {
    var updated := Updated(lines, e);
    RewriteTwice(lines, e, Missing(keys, e, updated));
    MissingRewrites(keys, e, updated);
    NothingMissing(keys, e, Updated(SaveLines(lines, keys, e), e));
  }

  // ----- a value that is not admissible -----

  /** The lines up to and including the first one with a single quote, or all of them. */
  function FirstQuoted(lines: seq<Line>): (n: nat)
    ensures n <= |lines|
    ensures forall i | 0 <= i < n - 1 :: '\'' !in TrimNewlines(lines[i].text)
    ensures n < |lines| ==> n > 0 && '\'' in TrimNewlines(lines[n - 1].text)
  {
    if lines == [] then 0
    else if '\'' in TrimNewlines(lines[0].text) then 1
    else 1 + FirstQuoted(lines[1..])
  }

  predicate OpensSingle(v: string) { v != "" && v[0] == '\'' && '\'' !in v[1..] }

  lemma {:induction false} OpenValueRunsOn(v: string, lines: seq<Line>)
    requires OpensSingle(v)
    ensures Extent(v, lines) == FirstQuoted(lines)
    decreases |lines|
  {
    ScanSingle(v, 1);
    if lines != [] {
      var t := TrimNewlines(lines[0].text);
      var next := v + "\n" + t;
      assert next[1..] == v[1..] + "\n" + t;
      ScanSingle(next, 1);
      if '\'' !in t { OpenValueRunsOn(next, lines[1..]); }
    }
  }

  lemma {:induction false} KeptAreCopied(kept: seq<Line>, lines: seq<Line>, e: Entered)
    requires forall l <- kept :: Kept(l, e)
    ensures Rewrite(kept + lines, e) == kept + Rewrite(lines, e) && Updated(kept + lines, e) == Updated(lines, e)
    decreases |kept|
  {
    if kept == [] {
      assert kept + lines == lines;
    } else {
      Associate([kept[0]], kept[1..], lines);
      assert kept == [kept[0]] + kept[1..];
      RewriteFront(kept[0], kept[1..] + lines, e);
      UpdatedFront(kept[0], kept[1..] + lines, e);
      KeptAreCopied(kept[1..], lines, e);
      Associate([kept[0]], kept[1..], Rewrite(lines, e));
    }
  }

  /** Saving one key that one line assigns, in a file without other lines to replace or drop: the lines that
      continue the old value go, whatever they are. */
  lemma OneKeySaved(before: seq<Line>, line: Line, rest: seq<Line>, k: string, e: Entered)
    requires e.Keys == {k} && line.Assign? && line.key == k && forall l <- before + rest :: Kept(l, e)
    ensures SaveLines(before + ([line] + rest), [k], e) == before + ([e[k]] + rest[Extent(line.value, rest)..])
  {
    var tail := rest[Extent(line.value, rest)..];
    KeptAreCopied(before, [line] + rest, e);
    RewriteFront(line, rest, e);
    UpdatedFront(line, rest, e);
    KeptAreCopied(tail, [], e);
    assert tail + [] == tail;
    NothingMissing([k], e, Updated(before + ([line] + rest), e));
  }

  /** A value with a leading single quote that nothing closes is written as it is; the next save of its key
      then removes the following lines up to and including the first one with a single quote, or all of
      them. */
  lemma OpenQuoteSwallowsTheRest(line: Line, k: string, v: string, rest: seq<Line>, e: Entered)
    requires line.Assign? && line.key == k && line.value == v && k in e && OpensSingle(v)
    ensures Rewrite([line] + rest, e) == [e[k]] + Rewrite(rest[FirstQuoted(rest)..], e)
  {
    OpenValueRunsOn(v, rest);
    RewriteFront(line, rest, e);
  }
}
