/** The coordinator's resolvers, read by read, beside parses, retries, deletions and each other
    (src/attachments/coordinator.py). */
module TurnResolvers {
  import opened Wrappers
  import opened AttachmentTurns

  type Readings = map<AttachmentId, ParseStatus>

  /** _resolve_turn: the turn, the attachment rows in one query, each asset, the write. mark is the length
      of the log below when the resolver read the rows. */
  datatype Resolver =
    | Look(id: TurnId)
    | ReadAssets(id: TurnId, mark: nat, rows: map<AttachmentId, Option<AssetId>>, statuses: Readings)
    | Commit(id: TurnId, mark: nat, statuses: Readings)

  /** What happened to attachments and assets, in order. */
  datatype Change =
    | Moved(asset: AssetId, from: ParseStatus)
    | Deleted(a: AttachmentId)
    | Reclaimed(asset: AssetId)

  datatype State = State(w: World, resolvers: map<nat, Resolver>, log: seq<Change>)

  datatype Event =
    | Begin(t: nat, id: TurnId)
    | Step(t: nat, next: AttachmentId)
    | Lose(t: nat)                                    // a callback or its process dies
    | SetStatus(asset: AssetId, status: ParseStatus)  // a parse progresses, settles or is retried
    | Delete(a: AttachmentId)
    | Reclaim(asset: AssetId)
    | Cancel(id: TurnId)

  predicate IsGone(w: World, a: AttachmentId) { a !in w.attachments || !w.attachments[a].active }

  function Rows(w: World, required: seq<AttachmentId>): map<AttachmentId, Option<AssetId>> {
    map a | a in required :: if IsGone(w, a) then None else Some(w.attachments[a].asset)
  }

  function StepResolver(s: State, t: nat, r: Resolver, next: AttachmentId): State {
    match r
    case Look(id) =>
      if id in s.w.turns && s.w.turns[id].status == Waiting && s.w.turns[id].required != [] then
        s.(resolvers := s.resolvers[t := ReadAssets(id, |s.log|, Rows(s.w, s.w.turns[id].required), map[])])
      else s.(resolvers := s.resolvers - {t})
    case ReadAssets(id, mark, rows, statuses) =>
      if next in rows then
        var seen := if rows[next].Some? && rows[next].value in s.w.assets then s.w.assets[rows[next].value] else Broken;
        s.(resolvers := s.resolvers[t := ReadAssets(id, mark, rows, statuses[next := seen])])
      else if statuses.Keys == rows.Keys then s.(resolvers := s.resolvers[t := Commit(id, mark, statuses)])
      else s
    case Commit(id, _, statuses) =>
      if id in s.w.turns
      then s.(w := s.w.(turns := s.w.turns[id := Transition(s.w.turns[id], Decide(statuses))]),
              resolvers := s.resolvers - {t})
      else s.(resolvers := s.resolvers - {t})
  }

  function Apply(s: State, e: Event): State {
    match e
    case Begin(t, id) => if t in s.resolvers then s else s.(resolvers := s.resolvers[t := Look(id)])
    case Step(t, next) => if t in s.resolvers then StepResolver(s, t, s.resolvers[t], next) else s
    case Lose(t) => s.(resolvers := s.resolvers - {t})
    case SetStatus(asset, status) =>
      if asset !in s.w.assets || s.w.assets[asset] == status then s
      else s.(w := s.w.(assets := s.w.assets[asset := status]), log := s.log + [Moved(asset, s.w.assets[asset])])
    case Delete(a) =>
      if a in s.w.attachments
      then s.(w := s.w.(attachments := s.w.attachments[a := s.w.attachments[a].(active := false)]),
              log := s.log + [Deleted(a)])
      else s
    case Reclaim(asset) => s.(w := s.w.(assets := s.w.assets - {asset}), log := s.log + [Reclaimed(asset)])
    case Cancel(id) =>
      if IsWaiting(s.w, id) then s.(w := s.w.(turns := s.w.turns[id := s.w.turns[id].(status := Elsewhere)])) else s
  }

  function Run(s: State, es: seq<Event>): State
    decreases |es|
  {
    if es == [] then s else Run(Apply(s, es[0]), es[1..])
  }

  function Begun(w: World): State { State(w, map[], []) }

  // ----- what a reading still says later -----

  predicate Settled(status: ParseStatus) { status != Queued && status != Parsing }

  /** The change concerns the attachment or its asset. */
  predicate Touches(w: World, a: AttachmentId, change: Change) {
    match change
    case Moved(asset, _) => a in w.attachments && w.attachments[a].asset == asset
    case Deleted(b) => a == b
    case Reclaimed(asset) => a in w.attachments && w.attachments[a].asset == asset
  }

  predicate IsReopening(change: Change) { change.Moved? && Settled(change.from) }

  predicate Touched(w: World, a: AttachmentId, log: seq<Change>) { exists x <- log :: Touches(w, a, x) }

  /** A retried or renewed parse took the attachment's asset out of a settled status. */
  predicate Reopened(w: World, a: AttachmentId, log: seq<Change>) {
    exists x <- log :: Touches(w, a, x) && IsReopening(x)
  }

  /** The attachment was deleted or its asset reclaimed. */
  predicate Lost(w: World, a: AttachmentId, log: seq<Change>) {
    exists x <- log :: Touches(w, a, x) && !x.Moved?
  }

  /** A reading is still true if nothing touched the attachment; a broken one unless the asset was
      re-opened; a settled one unless it was re-opened or lost. */
  predicate StillTells(w: World, a: AttachmentId, seen: ParseStatus, since: seq<Change>) {
    && (Touched(w, a, since) || StatusOf(w, a) == seen)
    && (seen == Broken ==> Reopened(w, a, since) || StatusOf(w, a) == Broken)
    && (Settled(seen) ==> Reopened(w, a, since) || Lost(w, a, since) || StatusOf(w, a) == seen)
  }

  ghost predicate ReadingsOk(s: State, mark: nat, statuses: Readings) {
    mark <= |s.log| && forall a <- statuses :: StillTells(s.w, a, statuses[a], s.log[mark..])
  }

  ghost predicate RowsOk(s: State, mark: nat, rows: map<AttachmentId, Option<AssetId>>) {
    && mark <= |s.log|
    && forall a <- rows ::
         if rows[a].None? then IsGone(s.w, a)
         else
           && a in s.w.attachments && s.w.attachments[a].asset == rows[a].value
           && (s.w.attachments[a].active || Lost(s.w, a, s.log[mark..]))
  }

  ghost predicate ResolverOk(s: State, r: Resolver) {
    match r
    case Look(_) => true
    case ReadAssets(id, mark, rows, statuses) =>
      && id in s.w.turns && s.w.turns[id].required != [] && (forall a :: a in rows <==> a in s.w.turns[id].required)
      && statuses.Keys <= rows.Keys && RowsOk(s, mark, rows) && ReadingsOk(s, mark, statuses)
    case Commit(id, mark, statuses) =>
      && id in s.w.turns && s.w.turns[id].required != []
      && (forall a :: a in statuses <==> a in s.w.turns[id].required) && ReadingsOk(s, mark, statuses)
  }

  ghost predicate Inv(s: State) { forall t <- s.resolvers :: ResolverOk(s, s.resolvers[t]) }

  /** How the world moves: turns keep what they require, a turn that has left the waiting status is left
      alone, what is gone stays gone, and the log says what became of every status. */
  ghost predicate WorldMoves(s: State, later: State) {
    && later.w.turns.Keys == s.w.turns.Keys && later.w.attachments.Keys == s.w.attachments.Keys
    && (forall id <- s.w.turns :: later.w.turns[id].required == s.w.turns[id].required
          && (s.w.turns[id].status != Waiting ==> later.w.turns[id] == s.w.turns[id]))
    && (forall a <- s.w.attachments :: later.w.attachments[a].asset == s.w.attachments[a].asset)
    && s.log <= later.log
    && (forall a :: IsGone(s.w, a) ==> IsGone(later.w, a))
    && (forall a :: !IsGone(s.w, a) && IsGone(later.w, a) ==> Lost(s.w, a, later.log[|s.log|..]))
    && (forall a :: StillTells(later.w, a, StatusOf(s.w, a), later.log[|s.log|..]))
  }

  lemma StatusMoves(s: State, asset: AssetId, status: ParseStatus)
    ensures WorldMoves(s, Apply(s, SetStatus(asset, status)))
  {
    var later := Apply(s, SetStatus(asset, status));
    if later != s {
      var change := Moved(asset, s.w.assets[asset]);
      assert later.log[|s.log|..] == [change];
      forall a ensures StillTells(later.w, a, StatusOf(s.w, a), [change]) {
        assert Touches(later.w, a, [change][0]) || StatusOf(later.w, a) == StatusOf(s.w, a);
      }
    }
  }

  lemma LossMoves(s: State, e: Event, change: Change)
    requires e.Delete? || e.Reclaim?
    requires change == if e.Delete? then Deleted(e.a) else Reclaimed(e.asset)
    ensures WorldMoves(s, Apply(s, e))
  {
    var later := Apply(s, e);
    if later != s {
      assert later.log[|s.log|..] == [change];
      forall a ensures StillTells(later.w, a, StatusOf(s.w, a), [change]) {
        assert Touches(later.w, a, [change][0]) || StatusOf(later.w, a) == StatusOf(s.w, a);
      }
      forall a | !IsGone(s.w, a) && IsGone(later.w, a) ensures Lost(s.w, a, [change]) {
        assert Touches(s.w, a, [change][0]);
      }
    }
  }

  lemma ApplyMoves(s: State, e: Event)
    ensures WorldMoves(s, Apply(s, e))
  {
    match e
    case SetStatus(asset, status) => StatusMoves(s, asset, status);
    case Delete(a) => LossMoves(s, e, Deleted(a));
    case Reclaim(asset) => LossMoves(s, e, Reclaimed(asset));
    case _ =>
  }

  lemma ChangesJoin(w: World, a: AttachmentId, was: seq<Change>, news: seq<Change>)
    ensures Touched(w, a, was + news) <==> Touched(w, a, was) || Touched(w, a, news)
    ensures Reopened(w, a, was + news) <==> Reopened(w, a, was) || Reopened(w, a, news)
    ensures Lost(w, a, was + news) <==> Lost(w, a, was) || Lost(w, a, news)
  {
    assert forall x :: x in was + news <==> x in was || x in news;
  }

  lemma ReadingsStay(s: State, later: State, mark: nat, statuses: Readings)
    requires WorldMoves(s, later) && ReadingsOk(s, mark, statuses)
    ensures ReadingsOk(later, mark, statuses)
  {
    var was, news := s.log[mark..], later.log[|s.log|..];
    assert later.log[mark..] == was + news;
    forall a <- statuses ensures StillTells(later.w, a, statuses[a], was + news) {
      assert StillTells(s.w, a, statuses[a], was) && StillTells(later.w, a, StatusOf(s.w, a), news);
      assert forall x :: Touches(later.w, a, x) == Touches(s.w, a, x);
      ChangesJoin(later.w, a, was, news);
    }
  }

  lemma RowsStay(s: State, later: State, mark: nat, rows: map<AttachmentId, Option<AssetId>>)
    requires WorldMoves(s, later) && RowsOk(s, mark, rows)
    ensures RowsOk(later, mark, rows)
  {
    var was, news := s.log[mark..], later.log[|s.log|..];
    assert later.log[mark..] == was + news;
    forall a <- rows | rows[a].Some? && !later.w.attachments[a].active ensures Lost(later.w, a, was + news) {
      assert IsGone(later.w, a) && (IsGone(s.w, a) || Lost(s.w, a, news));
      var part := if s.w.attachments[a].active then news else was;
      var x :| x in part && Touches(s.w, a, x) && !x.Moved?;
      assert Touches(later.w, a, x);
      ChangesJoin(later.w, a, was, news);
    }
  }

  lemma ResolverStays(s: State, later: State, r: Resolver)
    requires WorldMoves(s, later) && ResolverOk(s, r)
    ensures ResolverOk(later, r)
  {
    if !r.Look? { ReadingsStay(s, later, r.mark, r.statuses); }
    if r.ReadAssets? { RowsStay(s, later, r.mark, r.rows); }
  }

  lemma OwnStepOk(s: State, t: nat, next: AttachmentId)
    requires Inv(s) && t in s.resolvers
    ensures var later := Apply(s, Step(t, next)); t in later.resolvers ==> ResolverOk(later, later.resolvers[t])
  {
    assert ResolverOk(s, s.resolvers[t]);
  }

  lemma ApplyKeeps(s: State, e: Event)
    requires Inv(s)
    ensures Inv(Apply(s, e))
  {
    var later := Apply(s, e);
    ApplyMoves(s, e);
    forall t <- later.resolvers ensures ResolverOk(later, later.resolvers[t]) {
      if e.Step? && e.t == t && t in s.resolvers {
        OwnStepOk(s, t, e.next);
      } else if t in s.resolvers && s.resolvers[t] == later.resolvers[t] {
        ResolverStays(s, later, s.resolvers[t]);
      }
    }
  }

  lemma {:induction false} RunKeeps(s: State, es: seq<Event>)
    requires Inv(s)
    ensures Inv(Run(s, es))
    ensures s.w.turns.Keys == Run(s, es).w.turns.Keys
    ensures forall id <- s.w.turns :: s.w.turns[id].status != Waiting ==> Run(s, es).w.turns[id] == s.w.turns[id]
    decreases |es|
  {
    if es != [] {
      ApplyKeeps(s, es[0]);
      ApplyMoves(s, es[0]);
      RunKeeps(Apply(s, es[0]), es[1..]);
    }
  }

  /** Over every interleaving a turn leaves the waiting status at most once. */
  lemma TurnsLeaveOnce(w: World, before: seq<Event>, after: seq<Event>, id: TurnId)
    requires id in Run(Begun(w), before).w.turns
    requires Run(Begun(w), before).w.turns[id].status != Waiting
    ensures var now := Run(Begun(w), before);
            id in Run(now, after).w.turns && Run(now, after).w.turns[id] == now.w.turns[id]
  {
    RunKeeps(Begun(w), before);
    RunKeeps(Run(Begun(w), before), after);
  }

  // ----- the decision at the moment it is written -----

  /** The resolver of a turn that is about to write its decision in step e. */
  predicate Writes(s: State, e: Event, id: TurnId) {
    e.Step? && e.t in s.resolvers && s.resolvers[e.t].Commit? && s.resolvers[e.t].id == id
    && s.resolvers[e.t].mark <= |s.log|
  }

  /** What happened since the writing resolver read the attachment rows. */
  function Since(s: State, e: Event, id: TurnId): seq<Change>
    requires Writes(s, e, id)
  {
    s.log[s.resolvers[e.t].mark..]
  }

  lemma DecisionTells(s: State, mark: nat, required: seq<AttachmentId>, statuses: Readings)
    requires (forall a :: a in statuses <==> a in required) && ReadingsOk(s, mark, statuses)
    ensures Decide(statuses) == GiveUp ==>
              exists a <- required :: StatusOf(s.w, a) == Broken || Reopened(s.w, a, s.log[mark..])
    ensures Decide(statuses) == Proceed ==> forall a <- required ::
              StatusOf(s.w, a) in {Ready, Degraded} || Reopened(s.w, a, s.log[mark..]) || Lost(s.w, a, s.log[mark..])
    ensures (forall a <- required :: !Touched(s.w, a, s.log[mark..])) ==> statuses == Statuses(s.w, required)
  {
    forall a <- required ensures StillTells(s.w, a, statuses[a], s.log[mark..]) {}
    if Decide(statuses) == GiveUp {
      var a :| a in statuses && statuses[a] == Broken;
      assert a in required;
    }
  }

  /** Over every interleaving, however stale a resolver's readings are when it writes: a turn is failed only
      if one of its required attachments is at that moment broken, deleted or missing, except where an
      asset was re-opened since the attachment rows were read; and released only if every one is ready or
      degraded, except those re-opened, deleted or reclaimed since. */
  lemma DecisionsHoldWhenWritten(w: World, es: seq<Event>, e: Event, id: TurnId)
    requires IsWaiting(Run(Begun(w), es).w, id)
    ensures var now := Run(Begun(w), es); var later := Apply(now, e); var required := now.w.turns[id].required;
            && id in later.w.turns
            && (later.w.turns[id].status in {Failed, Pending} ==> Writes(now, e, id))
            && (later.w.turns[id].status == Failed ==> exists a <- required ::
                  StatusOf(now.w, a) == Broken || Reopened(now.w, a, Since(now, e, id)))
            && (later.w.turns[id].status == Pending ==> forall a <- required ::
                  || StatusOf(now.w, a) in {Ready, Degraded}
                  || Reopened(now.w, a, Since(now, e, id)) || Lost(now.w, a, Since(now, e, id)))
  {
    RunKeeps(Begun(w), es);
    var now := Run(Begun(w), es);
    ApplyMoves(now, e);
    if e.Step? && e.t in now.resolvers {
      var r := now.resolvers[e.t];
      assert ResolverOk(now, r);
      if r.Commit? && r.id == id { DecisionTells(now, r.mark, now.w.turns[id].required, r.statuses); }
    }
  }

  /** If nothing touched a required attachment since the rows were read, what is written is exactly the
      resolution of the turn at that moment: failed if and only if something required is broken, released
      if and only if everything required is ready or degraded, and waiting otherwise. */
  lemma UndisturbedDecisionIsExact(w: World, es: seq<Event>, e: Event, id: TurnId)
    requires var now := Run(Begun(w), es);
             && IsWaiting(now.w, id) && Writes(now, e, id)
             && forall a <- now.w.turns[id].required :: !Touched(now.w, a, Since(now, e, id))
    ensures var now := Run(Begun(w), es); var later := Apply(now, e);
            id in later.w.turns && later.w.turns[id] == ResolvedTurn(now.w, now.w.turns[id])
  {
    RunKeeps(Begun(w), es);
    var now := Run(Begun(w), es);
    var r := now.resolvers[e.t];
    assert ResolverOk(now, r);
    DecisionTells(now, r.mark, now.w.turns[id].required, r.statuses);
  }

  // ----- both exceptions are real -----

  lemma {:induction false} RunOfTwoParts(s: State, first: seq<Event>, rest: seq<Event>)
    ensures Run(s, first + rest) == Run(Run(s, first), rest)
    decreases |first|
  {
    if first == [] {
      assert first + rest == rest;
    } else {
      assert (first + rest)[1..] == first[1..] + rest;
      RunOfTwoParts(Apply(s, first[0]), first[1..], rest);
    }
  }

  /** One turn that waits for one attachment of an asset with the given status. */
  function OneTurn(status: ParseStatus): World {
    World(map["t" := Turn(Waiting, ["a"])], map["a" := Attachment(true, "x")], map["x" := status])
  }

  function ReadAllOfT(): seq<Event> { [Begin(0, "t"), Step(0, ""), Step(0, "a"), Step(0, "")] }

  lemma ReadingT(status: ParseStatus)
    ensures Run(Begun(OneTurn(status)), ReadAllOfT())
              == State(OneTurn(status), map[0 := Commit("t", 0, map["a" := status])], [])
  {
    var s0 := Begun(OneTurn(status));
    var s1 := Apply(s0, Begin(0, "t"));
    assert Rows(OneTurn(status), ["a"]) == map["a" := Some("x")];
    var s2 := Apply(s1, Step(0, ""));
    var s3 := Apply(s2, Step(0, "a"));
    assert s2.resolvers == map[0 := ReadAssets("t", 0, map["a" := Some("x")], map[])];
    assert s3.resolvers == map[0 := ReadAssets("t", 0, map["a" := Some("x")], map["a" := status])];
    assert ReadAllOfT()[1..] == [Step(0, ""), Step(0, "a"), Step(0, "")];
    assert Run(s3, [Step(0, "")]) == Apply(s3, Step(0, ""));
    assert Run(s2, [Step(0, "a"), Step(0, "")]) == Run(s3, [Step(0, "")]);
    assert Run(s1, [Step(0, ""), Step(0, "a"), Step(0, "")]) == Run(s2, [Step(0, "a"), Step(0, "")]);
  }

  /** Between the reading and the write, one event overtakes the resolver. */
  lemma Overtaken(status: ParseStatus, e: Event)
    ensures var read := State(OneTurn(status), map[0 := Commit("t", 0, map["a" := status])], []);
            Run(Begun(OneTurn(status)), ReadAllOfT() + [e, Step(0, "")]) == Apply(Apply(read, e), Step(0, ""))
  {
    var rest := [e, Step(0, "")];
    ReadingT(status);
    RunOfTwoParts(Begun(OneTurn(status)), ReadAllOfT(), rest);
    var read := Run(Begun(OneTurn(status)), ReadAllOfT());
    assert rest[1..] == [Step(0, "")];
    assert Run(Apply(read, e), [Step(0, "")]) == Apply(Apply(read, e), Step(0, ""));
  }

  /** A parse retried between the reading and the write has its turn failed although its one attachment is
      queued again. */
  lemma RetryCanComeTooLate()
    ensures exists es: seq<Event> ::
              var late := Run(Begun(OneTurn(Broken)), es).w;
              "t" in late.turns && late.turns["t"] == Turn(Failed, ["a"]) && StatusOf(late, "a") == Queued
  {
    Overtaken(Broken, SetStatus("x", Queued));
    assert Decide(map["a" := Broken]) == GiveUp by { assert "a" in map["a" := Broken]; }
    var late := Run(Begun(OneTurn(Broken)), ReadAllOfT() + [SetStatus("x", Queued), Step(0, "")]).w;
    assert StatusOf(late, "a") == Queued;
  }

  /** An attachment deleted between the reading and the write has its turn released without it. */
  lemma DeletionCanComeTooLate()
    ensures exists es: seq<Event> ::
              var late := Run(Begun(OneTurn(Ready)), es).w;
              "t" in late.turns && late.turns["t"] == Turn(Pending, ["a"]) && StatusOf(late, "a") == Broken
  {
    Overtaken(Ready, Delete("a"));
    assert Decide(map["a" := Ready]) == Proceed;
    var late := Run(Begun(OneTurn(Ready)), ReadAllOfT() + [Delete("a"), Step(0, "")]).w;
    assert StatusOf(late, "a") == Broken;
  }

  // ----- lost wakeups -----

  /** Assets only settle during the run: nothing is re-opened, deleted, reclaimed or cancelled. */
  predicate OnlySettles(s: State, es: seq<Event>)
    decreases |es|
  {
    es == [] || (SettlesOnly(s, es[0]) && OnlySettles(Apply(s, es[0]), es[1..]))
  }

  predicate SettlesOnly(s: State, e: Event) {
    match e
    case SetStatus(asset, status) => asset in s.w.assets && Settled(s.w.assets[asset]) ==> status == s.w.assets[asset]
    case Delete(_) => false
    case Reclaim(_) => false
    case Cancel(_) => false
    case _ => true
  }

  /** Each turn is as it began, or as resolving it now would leave it. */
  ghost predicate Truthful(w: World, s: State) {
    && s.w.turns.Keys == w.turns.Keys
    && (forall x <- s.log :: x.Moved? && !IsReopening(x))
    && (forall id <- w.turns :: s.w.turns[id] == w.turns[id] || s.w.turns[id] == ResolvedTurn(s.w, w.turns[id]))
  }

  lemma SettlingKeepsDecisions(w: World, later: World, t: Turn)
    requires forall a :: Settled(StatusOf(w, a)) ==> StatusOf(later, a) == StatusOf(w, a)
    requires ResolvedTurn(w, t) != t
    ensures ResolvedTurn(later, t) == ResolvedTurn(w, t)
  {
    ResolutionIsExact(w, t);
    ResolutionIsExact(later, t);
  }

  lemma CommitIsTruthful(s: State, id: TurnId, mark: nat, statuses: Readings)
    requires ResolverOk(s, Commit(id, mark, statuses)) && IsWaiting(s.w, id)
    requires forall x <- s.log :: x.Moved? && !IsReopening(x)
    ensures var t := s.w.turns[id]; var after := Transition(t, Decide(statuses));
            after == t || after == ResolvedTurn(s.w, t)
  {
    var t := s.w.turns[id];
    DecisionTells(s, mark, t.required, statuses);
    ResolutionIsExact(s.w, t);
    assert forall x <- s.log[mark..] :: x in s.log;
  }

  lemma SettlingShape(s: State, asset: AssetId, status: ParseStatus)
    requires SettlesOnly(s, SetStatus(asset, status))
    ensures var later := Apply(s, SetStatus(asset, status));
            && later.w.turns == s.w.turns
            && (forall a :: Settled(StatusOf(s.w, a)) ==> StatusOf(later.w, a) == StatusOf(s.w, a))
            && forall x <- later.log :: x in s.log || (x.Moved? && !IsReopening(x))
  {}

  lemma SettlingIsTruthful(w: World, s: State, asset: AssetId, status: ParseStatus)
    requires Truthful(w, s) && SettlesOnly(s, SetStatus(asset, status))
    ensures Truthful(w, Apply(s, SetStatus(asset, status)))
  {
    var later := Apply(s, SetStatus(asset, status));
    SettlingShape(s, asset, status);
    forall id <- w.turns | s.w.turns[id] != w.turns[id]
      ensures later.w.turns[id] == ResolvedTurn(later.w, w.turns[id])
    {
      SettlingKeepsDecisions(s.w, later.w, w.turns[id]);
    }
  }

  lemma ApplyIsTruthful(w: World, s: State, e: Event)
    requires Truthful(w, s) && Inv(s) && SettlesOnly(s, e)
    ensures Truthful(w, Apply(s, e))
  {
    var later := Apply(s, e);
    if e.SetStatus? {
      SettlingIsTruthful(w, s, e.asset, e.status);
    } else {
      forall t: Turn ensures ResolvedTurn(later.w, t) == ResolvedTurn(s.w, t) {
        SameStatuses(s.w, later.w, t.required);
      }
      if e.Step? && e.t in s.resolvers && s.resolvers[e.t].Commit? {
        var r := s.resolvers[e.t];
        assert ResolverOk(s, r);
        if IsWaiting(s.w, r.id) { CommitIsTruthful(s, r.id, r.mark, r.statuses); }
      }
    }
  }

  lemma {:induction false} RunIsTruthful(w: World, s: State, es: seq<Event>)
    requires Truthful(w, s) && Inv(s) && OnlySettles(s, es)
    ensures Truthful(w, Run(s, es)) && Run(s, es).w.attachments == s.w.attachments
    decreases |es|
  {
    if es != [] {
      hide Truthful, Inv;
      ApplyIsTruthful(w, s, es[0]);
      ApplyKeeps(s, es[0]);
      RunIsTruthful(w, Apply(s, es[0]), es[1..]);
    }
  }

  /** Whichever callbacks ran beside the settling assets, at which moments, how often and how far they got:
      a scan of the waiting turns afterwards ends in the state that the scan alone reaches from the turns
      as they were and the assets as they are now. */
  lemma LostWakeupsAreRecovered(w: World, es: seq<Event>, scanned: seq<TurnId>)
    requires OnlySettles(Begun(w), es) && forall id <- w.turns :: IsWaiting(w, id) ==> id in scanned
    ensures var now := Run(Begun(w), es).w;
            ResolveAll(now, scanned).turns == ResolveAll(now.(turns := w.turns), scanned).turns
  {
    RunIsTruthful(w, Begun(w), es);
    var now := Run(Begun(w), es).w;
    var first := now.(turns := w.turns);
    ResolveAllIsPointwise(now, scanned);
    ResolveAllIsPointwise(first, scanned);
    forall id <- w.turns ensures ResolveAll(now, scanned).turns[id] == ResolveAll(first, scanned).turns[id] {
      ResolvingTwice(now, first, w.turns[id]);
    }
  }

  lemma ResolvingTwice(w: World, next: World, t: Turn)
    requires next.attachments == w.attachments && next.assets == w.assets
    ensures ResolvedTurn(next, t) == ResolvedTurn(w, ResolvedTurn(w, t)) == ResolvedTurn(w, t)
    ensures t.status != Waiting ==> ResolvedTurn(w, t) == t
  {
    SameStatuses(w, next, t.required);
    SameStatuses(w, w, ResolvedTurn(w, t).required);
  }
}
