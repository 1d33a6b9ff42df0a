/** Exactly which files a save leaves in order: the saved keys overridden, and everything unrelated to
    them verbatim. */
module EnvExactly {
  import opened EnvText
  import opened EnvRoundTrip
  import opened EnvLines
  import opened EnvOverride

  /** What a save promises: the map read is overridden, and the rest survives verbatim and in order. */
  predicate InOrder(lines: seq<Line>, keys: seq<string>, e: Entered)
    requires WellEntered(e) && forall k <- keys :: k in e
  {
    && ReadRaw(SaveLines(lines, keys, e)) == ReadRaw(lines) + NewRaw(e)
    && Unrelated(SaveLines(lines, keys, e), e.Keys) == Unrelated(lines, e.Keys)
  }

  // ----- the lines that a save writes -----

  /** Each entry assigns its own key. */
  predicate Keyed(e: Entered) { forall k <- e :: e[k].Assign? && e[k].key == k }

  lemma {:induction false} RewritesHarmlessLines(lines: seq<Line>, e: Entered)
    requires Keyed(e)
    ensures forall l <- Rewrite(lines, e) :: Harmless(l, e)
    decreases |lines|
  {
    if lines != [] {
      if Kept(lines[0], e) || !lines[0].Assign? {
        RewritesHarmlessLines(lines[1..], e);
      } else {
        RewritesHarmlessLines(Tail(lines), e);
      }
    }
  }

  lemma {:induction false} MissingAreHarmless(keys: seq<string>, e: Entered, updated: set<string>)
    requires Keyed(e) && forall k <- keys :: k in e
    ensures forall l <- Missing(keys, e, updated) :: Harmless(l, e)
  {
    if keys != [] { MissingAreHarmless(keys[1..], e, updated); }
  }

  lemma {:induction false} UnrelatedAreLines(lines: seq<Line>, ks: set<string>)
    ensures forall l <- Unrelated(lines, ks) :: l in lines
    ensures forall l <- Carried(lines, ks) :: l in Unrelated(lines, ks)
    decreases |lines|
  {
    if lines != [] {
      if lines[0].Assign? { UnrelatedAreLines(Tail(lines), ks); } else { UnrelatedAreLines(lines[1..], ks); }
    }
  }

  /** If everything unrelated survives, no continued line was taken for something else. */
  lemma SurvivingIsHarmless(lines: seq<Line>, keys: seq<string>, e: Entered)
    requires WellEntered(e) && forall k <- keys :: k in e
    requires Unrelated(SaveLines(lines, keys, e), e.Keys) == Unrelated(lines, e.Keys)
    ensures forall l <- Carried(lines, e.Keys) :: Harmless(l, e)
  {
    RewritesHarmlessLines(lines, e);
    MissingAreHarmless(keys, e, Updated(lines, e));
    UnrelatedAreLines(lines, e.Keys);
    UnrelatedAreLines(SaveLines(lines, keys, e), e.Keys);
  }

  // ----- a value that is open at the end of the file -----

  lemma {:induction false} OpenValueGrows(v: string, lines: seq<Line>, more: seq<Line>)
    requires !QuoteClosed(Continued(v, lines)) && more != []
    ensures Extent(v, lines + more) > |lines|
    decreases |lines|
  {
    if lines == [] {
      assert lines + more == more;
    } else {
      assert (lines + more)[0] == lines[0] && (lines + more)[1..] == lines[1..] + more;
      OpenValueGrows(v + "\n" + TrimNewlines(lines[0].text), lines[1..], more);
    }
  }

  lemma OpenSwallows(lines: seq<Line>, e: Entered, more: seq<Line>)
    requires WellEntered(e) && lines != [] && lines[0].Assign? && IsOpen(lines, e) && more != []
    requires forall l <- Head(lines) :: Harmless(l, e)
    ensures |Unrelated(Rewrite(lines, e) + more, e.Keys)| > |Unrelated(lines, e.Keys)|
  {
    OpenShape(lines, e);
    var rest := lines[1..];
    assert lines + more == [lines[0]] + (rest + more);
    OpenValueGrows(lines[0].value, rest, more);
    UnrelatedFront(lines[0], rest + more, e.Keys);
    assert Unrelated(lines, e.Keys) == [lines[0]] + rest;
  }

  /** It swallows what the save appends. */
  lemma {:induction false} OpenTailSwallows(lines: seq<Line>, e: Entered, more: seq<Line>)
    requires WellEntered(e) && OpenTail(lines, e.Keys) && more != []
    requires forall l <- Carried(lines, e.Keys) :: Harmless(l, e)
    ensures |Unrelated(Rewrite(lines, e) + more, e.Keys)| > |Unrelated(lines, e.Keys)|
    decreases |lines|
  {
    StepInStep(lines, e, []);
    if !lines[0].Assign? {
      OpenTailSwallows(lines[1..], e, more);
      AssociateFront(lines[0], Rewrite(lines[1..], e), more);
      UnrelatedFront(lines[0], Rewrite(lines[1..], e) + more, e.Keys);
    } else if IsOpen(lines, e) {
      OpenSwallows(lines, e, more);
    } else {
      OpenTailSwallows(Tail(lines), e, more);
      if lines[0].key in e {
        ReplacedShape(lines, e, more);
        EntryIsRelated(lines[0].key, e, Rewrite(Tail(lines), e) + more, e.Keys);
      } else {
        CopiedUnrelated(lines, e, more, e.Keys);
      }
    }
  }

  // ----- exactly -----

  lemma {:induction false} NothingMissingMeans(keys: seq<string>, e: Entered, updated: set<string>)
    requires (forall k <- keys :: k in e) && Missing(keys, e, updated) == []
    ensures forall k <- keys :: k in updated
  {
    if keys != [] { NothingMissingMeans(keys[1..], e, updated); }
  }

  lemma InOrderMeansUndisturbed(lines: seq<Line>, keys: seq<string>, e: Entered)
    requires WellEntered(e) && (forall k :: k in keys <==> k in e) && InOrder(lines, keys, e)
    ensures Undisturbed(lines, e)
  {
    var updated := Updated(lines, e);
    var more := Missing(keys, e, updated);
    SurvivingIsHarmless(lines, keys, e);
    if OpenTail(lines, e.Keys) && more != [] {
      OpenTailSwallows(lines, e, more);
      assert false;
    }
    RewriteReplaces(lines, e, more);
    MissingReads(keys, e, updated);
    UpdatedKeys(lines, e);
    forall k <- e.Keys ensures k in ReadRaw(lines) || k !in updated {
      assert k in ReadRaw(SaveLines(lines, keys, e));
    }
    if OpenTail(lines, e.Keys) { NothingMissingMeans(keys, e, updated); }
  }

  /** For every file and all settings: the saved keys are overridden and everything unrelated to them
      survives verbatim and in order, if and only if the file is undisturbed. */
  lemma SaveIsInOrderExactly(lines: seq<Line>, keys: seq<string>, e: Entered)
    requires WellEntered(e) && forall k :: k in keys <==> k in e
    ensures InOrder(lines, keys, e) <==> Undisturbed(lines, e)
  {
    if Undisturbed(lines, e) { SaveIsOverride(lines, keys, e, e.Keys); }
    if InOrder(lines, keys, e) { InOrderMeansUndisturbed(lines, keys, e); }
  }
}
