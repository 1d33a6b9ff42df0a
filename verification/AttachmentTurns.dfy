/** Turns that wait for attachments: the coordinator's methods, and its resolvers running beside
    settling assets, deletions and each other (src/attachments/coordinator.py). */
module AttachmentTurns {
  type TurnId = string
  type AttachmentId = string
  type AssetId = string

  datatype ParseStatus = Queued | Parsing | Ready | Degraded | Broken

  datatype TurnStatus = Waiting | Pending | Failed | Elsewhere

  datatype Turn = Turn(status: TurnStatus, required: seq<AttachmentId>)

  datatype Attachment = Attachment(active: bool, asset: AssetId)

  datatype World = World(
    turns: map<TurnId, Turn>, attachments: map<AttachmentId, Attachment>, assets: map<AssetId, ParseStatus>)

  /** What an attachment counts as: deleted and missing ones are broken. */
  function StatusOf(w: World, a: AttachmentId): ParseStatus {
    if a in w.attachments && w.attachments[a].active && w.attachments[a].asset in w.assets
    then w.assets[w.attachments[a].asset]
    else Broken
  }

  function Statuses(w: World, required: seq<AttachmentId>): map<AttachmentId, ParseStatus> {
    map a | a in required :: StatusOf(w, a)
  }

  datatype Verdict = GiveUp | Proceed | KeepWaiting

  function Decide(statuses: map<AttachmentId, ParseStatus>): Verdict {
    if exists a <- statuses :: statuses[a] == Broken then GiveUp
    else if forall a <- statuses :: statuses[a] != Queued && statuses[a] != Parsing then Proceed
    else KeepWaiting
  }

  /** transition_waiting_turn: a compare-and-set on the waiting status. */
  function Transition(t: Turn, verdict: Verdict): Turn {
    if t.status != Waiting then t
    else match verdict
      case GiveUp => t.(status := Failed)
      case Proceed => t.(status := Pending)
      case KeepWaiting => t
  }

  function ResolvedTurn(w: World, t: Turn): Turn {
    if t.required == [] then t else Transition(t, Decide(Statuses(w, t.required)))
  }

  function Resolved(w: World, id: TurnId): World {
    if id in w.turns then w.(turns := w.turns[id := ResolvedTurn(w, w.turns[id])]) else w
  }

  function ResolveAll(w: World, ids: seq<TurnId>): World
    decreases |ids|
  {
    if ids == [] then w else ResolveAll(Resolved(w, ids[0]), ids[1..])
  }

  /** A waiting turn on which the coordinator has something to say. */
  predicate Resolvable(w: World, id: TurnId) {
    id in w.turns && w.turns[id].status == Waiting && ResolvedTurn(w, w.turns[id]) != w.turns[id]
  }

  /** The turns among ids that resolving all of them decides. */
  function Decided(w: World, ids: seq<TurnId>): set<TurnId> { set id | id in ids && Resolvable(w, id) }

  // ----- the queries -----

  predicate IsWaiting(w: World, id: TurnId) { id in w.turns && w.turns[id].status == Waiting }

  /** turn_attachments: the attachments that a turn is linked to. */
  type Links = map<TurnId, seq<AttachmentId>>

  /** The waiting turns that one of the attachments is linked to. */
  function WaitingOn(w: World, links: Links, wanted: set<AttachmentId>, ids: seq<TurnId>): (found: seq<TurnId>)
    ensures forall id :: id in found <==>
              (id in ids && IsWaiting(w, id) && id in links && exists a <- links[id] :: a in wanted)
  {
    if ids == [] then []
    else
      assert ids == [ids[0]] + ids[1..];
      var linked := IsWaiting(w, ids[0]) && ids[0] in links && exists a <- links[ids[0]] :: a in wanted;
      (if linked then [ids[0]] else []) + WaitingOn(w, links, wanted, ids[1..])
  }

  /** Every waiting turn, in creation order. */
  function Waiters(w: World, ids: seq<TurnId>): (found: seq<TurnId>)
    ensures forall id :: id in found <==> id in ids && IsWaiting(w, id)
  {
    if ids == [] then []
    else
      assert ids == [ids[0]] + ids[1..];
      (if IsWaiting(w, ids[0]) then [ids[0]] else []) + Waiters(w, ids[1..])
  }

  function FirstWaiting(w: World, n: nat, ids: seq<TurnId>): (found: seq<TurnId>)
    ensures |found| <= n && forall id <- found :: id in ids && IsWaiting(w, id)
    ensures |found| < n ==> forall id <- ids :: IsWaiting(w, id) ==> id in found
  {
    var all := Waiters(w, ids);
    if n < |all| then all[..n] else all
  }

  /** The limited scan takes the oldest: a waiting turn is left out only if n older ones are waiting. */
  lemma OldestAreScanned(w: World, n: nat, ids: seq<TurnId>, k: nat)
    requires k < |ids| && IsWaiting(w, ids[k]) && forall i, j | 0 <= i < j < |ids| :: ids[i] != ids[j]
    ensures ids[k] in FirstWaiting(w, n, ids) <==> |Waiters(w, ids[..k])| < n
  {
    var older, newer := Waiters(w, ids[..k]), Waiters(w, ids[k + 1..]);
    assert ids == ids[..k] + ([ids[k]] + ids[k + 1..]);
    WaitersJoin(w, ids[..k], [ids[k]] + ids[k + 1..]);
    assert ([ids[k]] + ids[k + 1..])[1..] == ids[k + 1..];
    assert Waiters(w, ids) == older + ([ids[k]] + newer);
    assert ids[k] !in older;
    var all := Waiters(w, ids);
    assert all[|older|] == ids[k];
    if n <= |older| { assert all[..n] == older[..n]; } else if n < |all| { assert all[..n][|older|] == ids[k]; }
  }

  lemma {:induction false} WaitersJoin(w: World, a: seq<TurnId>, b: seq<TurnId>)
    ensures Waiters(w, a + b) == Waiters(w, a) + Waiters(w, b)
  {
    if a == [] {
      assert a + b == b;
    } else {
      assert (a + b)[1..] == a[1..] + b;
      WaitersJoin(w, a[1..], b);
    }
  }

  // ----- the coordinator -----

  class Coordinator {
    var turns: map<TurnId, Turn>
    var attachments: map<AttachmentId, Attachment>
    var assets: map<AssetId, ParseStatus>
    var links: Links
    var order: seq<TurnId>  // all turns by creation time and id

    function Now(): World reads this { World(turns, attachments, assets) }

    /** _resolve_turn with nothing changing while it looks. */
    method ResolveTurn(id: TurnId) returns (updated: bool)
      modifies this`turns
      ensures Now() == Resolved(old(Now()), id)
      ensures updated == Resolvable(old(Now()), id)
    {
      updated := false;
      if id !in turns || turns[id].status != Waiting || turns[id].required == [] { return; }
      var verdict := Decide(Statuses(Now(), turns[id].required));
      if verdict != KeepWaiting {
        turns := turns[id := Transition(turns[id], verdict)];
        updated := true;
      }
    }

    method ResolveEach(ids: seq<TurnId>) returns (resolved: nat)
      modifies this`turns
      ensures Now() == ResolveAll(old(Now()), ids) && resolved == |Decided(old(Now()), ids)|
    {
      resolved := 0;
      ghost var before := Now();
      for i := 0 to |ids|
        invariant Now() == ResolveAll(before, ids[..i]) && resolved == |Decided(before, ids[..i])|
      {
        ResolveOneMore(before, ids[..i], ids[i]);
        assert ids[..i] + [ids[i]] == ids[..i + 1];
        var updated := ResolveTurn(ids[i]);
        if updated { resolved := resolved + 1; }
      }
      assert ids[..|ids|] == ids;
    }

    function AttachmentsOf(asset: AssetId): set<AttachmentId>
      reads this
    {
      set a | a in attachments && attachments[a].asset == asset
    }

    /** Afterwards no turn that is linked to an attachment of the asset can still be decided; every other turn is
        as it was. The answer is the number of turns that stopped waiting. */
    method NotifyAssetSettled(asset: AssetId) returns (resolved: nat)
      modifies this`turns
      ensures turns.Keys == old(turns.Keys)
      ensures asset in assets ==> forall id <- order ::
                id in links && (exists a <- links[id] :: a in attachments && attachments[a].asset == asset) ==>
                  !Resolvable(Now(), id)
      ensures forall id <- turns ::
                || turns[id] == old(turns)[id]
                || (asset in assets && id in order && turns[id] == ResolvedTurn(old(Now()), old(turns)[id])
                    && id in links && exists a <- links[id] :: a in attachments && attachments[a].asset == asset)
      ensures resolved == |Stopped(old(Now()), Now())|
    {
      if asset !in assets {
        NobodyLeft(Now(), Now());
        return 0;
      }
      var ids := WaitingOn(Now(), links, AttachmentsOf(asset), order);
      ScanLeavesExactly(Now(), ids);
      ResolveAllIsPointwise(Now(), ids);
      DecidedAreThoseThatLeft(Now(), ids);
      resolved := ResolveEach(ids);
    }

    /** The same for the turns linked to the attachment itself. */
    method NotifyAttachmentDeleted(a: AttachmentId) returns (resolved: nat)
      modifies this`turns
      ensures turns.Keys == old(turns.Keys)
      ensures a != "" ==> forall id <- order :: id in links && a in links[id] ==> !Resolvable(Now(), id)
      ensures forall id <- turns ::
                || turns[id] == old(turns)[id]
                || (a != "" && id in order && turns[id] == ResolvedTurn(old(Now()), old(turns)[id])
                    && id in links && a in links[id])
      ensures resolved == |Stopped(old(Now()), Now())|
    {
      if a == "" {
        NobodyLeft(Now(), Now());
        return 0;
      }
      var ids := WaitingOn(Now(), links, {a}, order);
      ScanLeavesExactly(Now(), ids);
      ResolveAllIsPointwise(Now(), ids);
      DecidedAreThoseThatLeft(Now(), ids);
      resolved := ResolveEach(ids);
    }

    /** The recovery scan. It leaves a decidable turn waiting exactly when its limit kept it from looking
        at that turn. */
    method ReconcileWaitingTurns(limit: int) returns (resolved: nat)
      requires forall id <- turns :: id in order
      modifies this`turns
      ensures var bounded := if limit < 1 then 1 else if limit > 1000 then 1000 else limit;
              var scanned := old(FirstWaiting(Now(), bounded, order));
              && Now() == ResolveAll(old(Now()), scanned)
              && (forall id :: Resolvable(Now(), id) <==> (Resolvable(old(Now()), id) && id !in scanned))
              && (|scanned| < bounded ==> forall id :: !Resolvable(Now(), id))
      ensures turns.Keys == old(turns.Keys)
      ensures resolved == |Stopped(old(Now()), Now())|
    {
      var bounded: nat := if limit < 1 then 1 else if limit > 1000 then 1000 else limit;
      var ids := FirstWaiting(Now(), bounded, order);
      ScanLeavesExactly(Now(), ids);
      ResolveAllIsPointwise(Now(), ids);
      DecidedAreThoseThatLeft(Now(), ids);
      resolved := ResolveEach(ids);
    }
  }

  // ----- scans and callbacks -----

  /** A turn that waits on something is failed exactly if one of its required attachments is broken,
      deleted or missing, and released exactly if all of them are ready or degraded. */
  lemma ResolutionIsExact(w: World, t: Turn)
    requires t.status == Waiting
    ensures var after := ResolvedTurn(w, t);
            && after.required == t.required && after.status in {Waiting, Pending, Failed}
            && (after.status == Failed <==> exists a <- t.required ::
                  || a !in w.attachments || !w.attachments[a].active || w.attachments[a].asset !in w.assets
                  || w.assets[w.attachments[a].asset] == Broken)
            && (after.status == Pending <==> t.required != [] && forall a <- t.required ::
                  && a in w.attachments && w.attachments[a].active && w.attachments[a].asset in w.assets
                  && w.assets[w.attachments[a].asset] in {Ready, Degraded})
  {
    var statuses := Statuses(w, t.required);
    assert forall a <- t.required :: a in statuses && statuses[a] == StatusOf(w, a);
    if t.required != [] { assert t.required[0] in statuses; }
  }

  lemma {:induction false} ResolveAllIsPointwise(w: World, ids: seq<TurnId>)
    ensures var after := ResolveAll(w, ids);
            && after.attachments == w.attachments && after.assets == w.assets && after.turns.Keys == w.turns.Keys
            && forall id <- w.turns ::
                 after.turns[id] == if id in ids then ResolvedTurn(w, w.turns[id]) else w.turns[id]
    decreases |ids|
  {
    if ids != [] {
      var next := Resolved(w, ids[0]);
      ResolveAllIsPointwise(next, ids[1..]);
      assert ids == [ids[0]] + ids[1..];
      forall t: Turn
        ensures ResolvedTurn(next, t) == ResolvedTurn(w, t) == ResolvedTurn(w, ResolvedTurn(w, t))
      {
        SameStatuses(w, next, t.required);
      }
    }
  }

  lemma SameStatuses(w: World, next: World, required: seq<AttachmentId>)
    requires next.attachments == w.attachments && next.assets == w.assets
    ensures Statuses(next, required) == Statuses(w, required)
  {}

  /** After a scan a turn can still be decided exactly if it could be before and was not scanned. */
  lemma ScanLeavesExactly(w: World, ids: seq<TurnId>)
    ensures forall id :: Resolvable(ResolveAll(w, ids), id) <==> (Resolvable(w, id) && id !in ids)
  {
    var after := ResolveAll(w, ids);
    ResolveAllIsPointwise(w, ids);
    forall id <- w.turns ensures Resolvable(after, id) <==> (Resolvable(w, id) && id !in ids) {
      SameStatuses(w, after, w.turns[id].required);
    }
  }

  /** The turns that waited before and no longer do. */
  function Stopped(before: World, after: World): set<TurnId> {
    set id | id in before.turns && before.turns[id].status == Waiting
             && id in after.turns && after.turns[id].status != Waiting
  }

  lemma DecidedAreThoseThatLeft(w: World, ids: seq<TurnId>)
    ensures Decided(w, ids) == Stopped(w, ResolveAll(w, ids))
  {
    ResolveAllIsPointwise(w, ids);
  }

  lemma NobodyLeft(before: World, after: World)
    requires before == after
    ensures Stopped(before, after) == {}
  {}

  lemma {:induction false} ResolveAllLast(w: World, ids: seq<TurnId>, id: TurnId)
    ensures ResolveAll(w, ids + [id]) == Resolved(ResolveAll(w, ids), id)
    decreases |ids|
  {
    if ids == [] {
      assert [] + [id] == [id];
    } else {
      assert (ids + [id])[1..] == ids[1..] + [id];
      ResolveAllLast(Resolved(w, ids[0]), ids[1..], id);
    }
  }

  lemma ResolveOneMore(w: World, ids: seq<TurnId>, id: TurnId)
    ensures ResolveAll(w, ids + [id]) == Resolved(ResolveAll(w, ids), id)
    ensures |Decided(w, ids + [id])| == |Decided(w, ids)| + if Resolvable(ResolveAll(w, ids), id) then 1 else 0
  {
    ResolveAllLast(w, ids, id);
    ScanLeavesExactly(w, ids);
    if Resolvable(w, id) && id !in ids {
      assert Decided(w, ids + [id]) == Decided(w, ids) + {id};
    } else {
      assert Decided(w, ids + [id]) == Decided(w, ids);
    }
  }
}
