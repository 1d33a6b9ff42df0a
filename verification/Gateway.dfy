/** The MCP Gateway's table of attached services under concurrent attach, invoke, disable, revoke and
    mismatch detaches (deploy/mcp-gateway/gateway.py). */
module Gateway {
  type Ref = string

  /** What the operator registered for a deployment. */
  datatype Deployment = Deployment(profileRef: string, profileDigest: string, imageDigest: string)

  /** What the Runner says about a service. */
  datatype Identity = Identity(
    deploymentRef: Ref, profileRef: string, profileDigest: string, imageDigest: string,
    endpoint: string, executionId: string)

  /** An entry of _attached; token is the identity of the dict object. */
  datatype Record = Record(token: nat, endpoint: string, executionId: string)

  /** The six fields _verified_endpoint compares. */
  function Reviewed(ref: Ref, d: Deployment, r: Record): Identity {
    Identity(ref, d.profileRef, d.profileDigest, d.imageDigest, r.endpoint, r.executionId)
  }

  /** The four fields attach compares before it trusts a started service. */
  predicate Attested(ref: Ref, d: Deployment, started: Identity) {
    && started.deploymentRef == ref && started.profileRef == d.profileRef
    && started.profileDigest == d.profileDigest && started.imageDigest == d.imageDigest
  }

  /** 'svc-' and 64 lower-case hexadecimal digits. */
  predicate StableIdentity(executionId: string) {
    "svc-" <= executionId && |executionId| == 68
    && forall i | 4 <= i < 68 :: '0' <= executionId[i] <= '9' || 'a' <= executionId[i] <= 'f'
  }

  /** read is the record _verified_endpoint found, held the one invoke reads again afterwards.
      readAt and heldAt count the changes of the deployment's entry before each read. */
  datatype InvokePc =
    | ReadRecord
    | AskRunner(read: Record, readAt: nat)
    | Compare(read: Record, readAt: nat, observed: Identity)
    | ReadAgain(read: Record, readAt: nat, observed: Identity)
    | CallBridge(read: Record, readAt: nat, observed: Identity, held: Record, heldAt: nat)
    | FinalCheck(read: Record, readAt: nat, observed: Identity, held: Record, heldAt: nat)
    | Returned(read: Record, readAt: nat, observed: Identity, held: Record, heldAt: nat, doneAt: nat)

  datatype AttachPc = StartService | WaitBridge(started: Identity) | Install(started: Identity)

  datatype Thread =
    | Invoke(ref: Ref, d: Deployment, at: InvokePc)
    | Attach(ref: Ref, d: Deployment, step: AttachPc)
    | Detach(ref: Ref)

  /** changes is history: how often each deployment's entry was installed or removed. */
  datatype State = State(attached: map<Ref, Record>, next: nat, threads: map<nat, Thread>, changes: map<Ref, nat>)

  datatype Event =
    | BeginInvoke(t: nat, ref: Ref, d: Deployment)
    | BeginAttach(t: nat, ref: Ref, d: Deployment)
    | BeginDetach(t: nat, ref: Ref)          // disable or revoke
    | Step(t: nat, reply: Identity)          // reply is the Runner's answer where one is awaited
    | Abandon(t: nat)                        // an error, or a discover that needed only the endpoint

  function Changes(s: State, ref: Ref): nat { if ref in s.changes then s.changes[ref] else 0 }

  function Go(s: State, t: nat, th: Thread): State { s.(threads := s.threads[t := th]) }

  function End(s: State, t: nat): State { s.(threads := s.threads - {t}) }

  /** _attached.pop(ref, None) */
  function Pop(s: State, ref: Ref): State {
    if ref in s.attached
    then s.(attached := s.attached - {ref}, changes := s.changes[ref := Changes(s, ref) + 1])
    else s
  }

  /** _attached[ref] = {...}: always a new object. */
  function Put(s: State, ref: Ref, started: Identity): State {
    s.(attached := s.attached[ref := Record(s.next, started.endpoint, started.executionId)],
       next := s.next + 1, changes := s.changes[ref := Changes(s, ref) + 1])
  }

  datatype Next = Stop | Continue(pc: InvokePc)

  /** Where invoke goes next; it stops with an error when it finds no record or another one. */
  function InvokeNext(s: State, ref: Ref, d: Deployment, pc: InvokePc, reply: Identity): Next {
    match pc
    case ReadRecord =>
      if ref in s.attached then Continue(AskRunner(s.attached[ref], Changes(s, ref))) else Stop
    case AskRunner(read, readAt) => Continue(Compare(read, readAt, reply))
    case Compare(read, readAt, observed) =>
      if observed == Reviewed(ref, d, read) then Continue(ReadAgain(read, readAt, observed)) else Stop
    case ReadAgain(read, readAt, observed) =>
      if ref in s.attached
      then Continue(CallBridge(read, readAt, observed, s.attached[ref], Changes(s, ref)))
      else Stop
    case CallBridge(read, readAt, observed, held, heldAt) =>
      Continue(FinalCheck(read, readAt, observed, held, heldAt))
    case FinalCheck(read, readAt, observed, held, heldAt) =>
      if ref in s.attached && s.attached[ref].token == held.token
      then Continue(Returned(read, readAt, observed, held, heldAt, Changes(s, ref)))
      else Stop
    case Returned(_, _, _, _, _, _) => Continue(pc)
  }

  /** A mismatch also removes whatever record the deployment has by now. */
  function InvokeStep(s: State, t: nat, ref: Ref, d: Deployment, pc: InvokePc, reply: Identity): State {
    match InvokeNext(s, ref, d, pc, reply)
    case Continue(next) => Go(s, t, Invoke(ref, d, next))
    case Stop => End(if pc.Compare? then Pop(s, ref) else s, t)
  }

  function AttachStep(s: State, t: nat, ref: Ref, d: Deployment, pc: AttachPc, reply: Identity): State {
    match pc
    case StartService =>
      if Attested(ref, d, reply) && StableIdentity(reply.executionId) && reply.endpoint != ""
      then Go(s, t, Attach(ref, d, WaitBridge(reply)))
      else End(s, t)
    case WaitBridge(started) => Go(s, t, Attach(ref, d, Install(started)))
    case Install(started) => End(Put(s, ref, started), t)
  }

  /** An event that is not possible leaves the state as it is. */
  function Apply(s: State, e: Event): State {
    match e
    case BeginInvoke(t, ref, d) => if t in s.threads then s else Go(s, t, Invoke(ref, d, ReadRecord))
    case BeginAttach(t, ref, d) => if t in s.threads then s else Go(s, t, Attach(ref, d, StartService))
    case BeginDetach(t, ref) => if t in s.threads then s else Go(s, t, Detach(ref))
    case Abandon(t) => if t in s.threads && !(s.threads[t].Invoke? && s.threads[t].at.Returned?) then End(s, t) else s
    case Step(t, reply) =>
      if t !in s.threads then s
      else match s.threads[t]
        case Invoke(ref, d, pc) => InvokeStep(s, t, ref, d, pc, reply)
        case Attach(ref, d, pc) => AttachStep(s, t, ref, d, pc, reply)
        case Detach(ref) => End(Pop(s, ref), t)
  }

  function Run(s: State, es: seq<Event>): State
    decreases |es|
  {
    if es == [] then s else Run(Apply(s, es[0]), es[1..])
  }

  const EMPTY := State(map[], 0, map[], map[])

  // ----- the invariant -----

  /** A record read when the entry had changed n times: it is an old object, it is still the entry only
      if nothing changed since, and it is the entry again never. */
  predicate Tracked(s: State, ref: Ref, r: Record, n: nat) {
    && r.token < s.next && n <= Changes(s, ref)
    && (ref in s.attached && s.attached[ref].token == r.token <==> n == Changes(s, ref))
    && (n == Changes(s, ref) ==> ref in s.attached && s.attached[ref] == r)
  }

  /** Two reads found the same object exactly if the entry did not change between them. */
  predicate SameRead(read: Record, readAt: nat, held: Record, heldAt: nat) {
    readAt <= heldAt && (read.token == held.token <==> readAt == heldAt) && (readAt == heldAt ==> read == held)
  }

  predicate InvokeOk(s: State, ref: Ref, d: Deployment, pc: InvokePc) {
    match pc
    case ReadRecord => true
    case AskRunner(read, readAt) => Tracked(s, ref, read, readAt)
    case Compare(read, readAt, _) => Tracked(s, ref, read, readAt)
    case ReadAgain(read, readAt, observed) => Tracked(s, ref, read, readAt) && observed == Reviewed(ref, d, read)
    case CallBridge(read, readAt, observed, held, heldAt) =>
      observed == Reviewed(ref, d, read) && Tracked(s, ref, held, heldAt) && SameRead(read, readAt, held, heldAt)
    case FinalCheck(read, readAt, observed, held, heldAt) =>
      observed == Reviewed(ref, d, read) && Tracked(s, ref, held, heldAt) && SameRead(read, readAt, held, heldAt)
    case Returned(read, readAt, observed, held, heldAt, doneAt) =>
      observed == Reviewed(ref, d, read) && doneAt == heldAt && SameRead(read, readAt, held, heldAt)
  }

  ghost predicate Inv(s: State) {
    && (forall ref <- s.attached :: s.attached[ref].token < s.next)
    && forall t <- s.threads :: s.threads[t].Invoke? ==> InvokeOk(s, s.threads[t].ref, s.threads[t].d, s.threads[t].at)
  }

  /** The table either kept the entry or changed it to a new object or to nothing. */
  ghost predicate TableStep(s: State, later: State) {
    && s.next <= later.next
    && (forall ref <- later.attached :: later.attached[ref].token < later.next)
    && forall ref :: (Changes(later, ref) == Changes(s, ref) && (ref in later.attached <==> ref in s.attached)
                      && (ref in s.attached ==> later.attached[ref] == s.attached[ref]))
                     || (Changes(later, ref) > Changes(s, ref)
                         && (ref in later.attached ==> later.attached[ref].token >= s.next))
  }

  lemma TrackedStays(s: State, later: State, ref: Ref, r: Record, n: nat)
    requires TableStep(s, later) && Tracked(s, ref, r, n)
    ensures Tracked(later, ref, r, n)
  {
    assert Changes(later, ref) == Changes(s, ref) || Changes(later, ref) > Changes(s, ref);
  }

  lemma InvokeStays(s: State, later: State, ref: Ref, d: Deployment, pc: InvokePc)
    requires TableStep(s, later) && InvokeOk(s, ref, d, pc)
    ensures InvokeOk(later, ref, d, pc)
  {
    match pc
    case ReadRecord =>
    case AskRunner(read, readAt) => TrackedStays(s, later, ref, read, readAt);
    case Compare(read, readAt, _) => TrackedStays(s, later, ref, read, readAt);
    case ReadAgain(read, readAt, _) => TrackedStays(s, later, ref, read, readAt);
    case CallBridge(_, _, _, held, heldAt) => TrackedStays(s, later, ref, held, heldAt);
    case FinalCheck(_, _, _, held, heldAt) => TrackedStays(s, later, ref, held, heldAt);
    case Returned(_, _, _, _, _, _) =>
  }

  lemma PopIsATableStep(s: State, ref: Ref)
    requires Inv(s)
    ensures TableStep(s, Pop(s, ref))
  {}

  lemma PutIsATableStep(s: State, ref: Ref, started: Identity)
    requires Inv(s)
    ensures TableStep(s, Put(s, ref, started))
  {}

  /** The part of the state that records are judged by. */
  predicate SameTable(s: State, later: State) {
    later.attached == s.attached && later.next == s.next && later.changes == s.changes
  }

  lemma StepTouches(s: State, t: nat, reply: Identity)
    requires t in s.threads
    ensures var th := s.threads[t]; var later := Apply(s, Step(t, reply));
            || SameTable(s, later)
            || SameTable(Pop(s, th.ref), later)
            || (th.Attach? && th.step.Install? && SameTable(Put(s, th.ref, th.step.started), later))
  {}

  lemma SameTableStep(s: State, mid: State, later: State)
    requires TableStep(s, mid) && SameTable(mid, later)
    ensures TableStep(s, later)
  {
    assert forall ref :: Changes(mid, ref) == Changes(later, ref);
  }

  lemma NoTableStep(s: State)
    requires Inv(s)
    ensures TableStep(s, s)
  {}

  lemma EveryStepIsATableStep(s: State, e: Event)
    requires Inv(s)
    ensures TableStep(s, Apply(s, e))
  {
    var later := Apply(s, e);
    NoTableStep(s);
    if e.Step? && e.t in s.threads {
      var th := s.threads[e.t];
      StepTouches(s, e.t, e.reply);
      PopIsATableStep(s, th.ref);
      if SameTable(s, later) {
        SameTableStep(s, s, later);
      } else if SameTable(Pop(s, th.ref), later) {
        SameTableStep(s, Pop(s, th.ref), later);
      } else {
        PutIsATableStep(s, th.ref, th.step.started);
        SameTableStep(s, Put(s, th.ref, th.step.started), later);
      }
    } else {
      SameTableStep(s, s, later);
    }
  }

  lemma InvokeNextOk(s: State, ref: Ref, d: Deployment, pc: InvokePc, reply: Identity)
    requires (forall r <- s.attached :: s.attached[r].token < s.next) && InvokeOk(s, ref, d, pc)
    requires InvokeNext(s, ref, d, pc, reply).Continue?
    ensures InvokeOk(s, ref, d, InvokeNext(s, ref, d, pc, reply).pc)
  {}

  lemma OwnStepOk(s: State, t: nat, reply: Identity)
    requires Inv(s) && t in s.threads && s.threads[t].Invoke?
    requires t in Apply(s, Step(t, reply)).threads
    ensures var later := Apply(s, Step(t, reply)); var th := later.threads[t];
            th.Invoke? && SameTable(s, later) && InvokeOk(s, th.ref, th.d, th.at)
  {
    var th := s.threads[t];
    assert InvokeOk(s, th.ref, th.d, th.at);
    if InvokeNext(s, th.ref, th.d, th.at, reply).Continue? { InvokeNextOk(s, th.ref, th.d, th.at, reply); }
  }

  lemma ThreadStays(s: State, e: Event, t: nat)
    requires Inv(s) && t in Apply(s, e).threads && Apply(s, e).threads[t].Invoke?
    ensures var th := Apply(s, e).threads[t]; th.at == ReadRecord || InvokeOk(s, th.ref, th.d, th.at)
  {
    if e.Step? && e.t == t && t in s.threads && s.threads[t].Invoke? { OwnStepOk(s, t, e.reply); }
    if t in s.threads && s.threads[t].Invoke? { assert InvokeOk(s, s.threads[t].ref, s.threads[t].d, s.threads[t].at); }
  }

  lemma ApplyKeeps(s: State, e: Event)
    requires Inv(s)
    ensures Inv(Apply(s, e))
  {
    var later := Apply(s, e);
    EveryStepIsATableStep(s, e);
    forall t <- later.threads | later.threads[t].Invoke?
      ensures InvokeOk(later, later.threads[t].ref, later.threads[t].d, later.threads[t].at)
    {
      var th := later.threads[t];
      ThreadStays(s, e, t);
      if th.at != ReadRecord { InvokeStays(s, later, th.ref, th.d, th.at); }
    }
  }

  lemma {:induction false} RunKeeps(s: State, es: seq<Event>)
    requires Inv(s)
    ensures Inv(Run(s, es))
    decreases |es|
  {
    if es != [] {
      ApplyKeeps(s, es[0]);
      RunKeeps(Apply(s, es[0]), es[1..]);
    }
  }

  // ----- what a returned result means -----

  /** Over every interleaving: a result is returned only if the deployment's entry was neither removed
      nor replaced between invoke's own read of it and the final identity check, and the endpoint that
      was called had been confirmed by the Runner on all six fields within the call. */
  lemma ReturnedResults(es: seq<Event>, t: nat)
    requires var s := Run(EMPTY, es); t in s.threads && s.threads[t].Invoke? && s.threads[t].at.Returned?
    ensures var th := Run(EMPTY, es).threads[t];
            && th.at.doneAt == th.at.heldAt
            && th.at.observed.deploymentRef == th.ref
            && th.at.observed.profileRef == th.d.profileRef
            && th.at.observed.profileDigest == th.d.profileDigest
            && th.at.observed.imageDigest == th.d.imageDigest
            && th.at.observed.endpoint == th.at.read.endpoint
            && th.at.observed.executionId == th.at.read.executionId
    // The service called is the one that is attached exactly if the entry did not change since the
    // first read either: a re-attach between the two reads goes unnoticed.
    ensures var th := Run(EMPTY, es).threads[t];
            && (th.at.read.token == th.at.held.token <==> th.at.readAt == th.at.doneAt)
            && (th.at.readAt == th.at.doneAt ==> th.at.read == th.at.held)
  {
    RunKeeps(EMPTY, es);
    assert InvokeOk(Run(EMPTY, es), Run(EMPTY, es).threads[t].ref, Run(EMPTY, es).threads[t].d,
                    Run(EMPTY, es).threads[t].at);
  }

  ghost predicate Reaches(s: State, later: State) { exists es :: Run(s, es) == later }

  lemma {:induction false} RunLast(s: State, es: seq<Event>, e: Event)
    ensures Run(s, es + [e]) == Apply(Run(s, es), e)
    decreases |es|
  {
    if es == [] {
      assert Run(s, [e]) == Run(Apply(s, e), []);
    } else {
      assert (es + [e])[1..] == es[1..] + [e];
      RunLast(Apply(s, es[0]), es[1..], e);
    }
  }

  lemma OneMore(s: State, now: State, e: Event) returns (next: State)
    requires Reaches(s, now)
    ensures next == Apply(now, e) && Reaches(s, next)
  {
    var es :| Run(s, es) == now;
    RunLast(s, es, e);
    next := Apply(now, e);
  }

  /** One step of attach in thread t. */
  lemma AttachMore(s: State, now: State, t: nat, started: Identity, ref: Ref, d: Deployment, pc: AttachPc)
    returns (next: State)
    requires Reaches(s, now) && t in now.threads && now.threads[t] == Attach(ref, d, pc)
    ensures Reaches(s, next) && next == AttachStep(now, t, ref, d, pc, started)
  {
    next := OneMore(s, now, Step(t, started));
  }

  lemma AttachStarts(s: State, now: State, t: nat, ref: Ref, d: Deployment, started: Identity) returns (next: State)
    requires Reaches(s, now) && t !in now.threads
    requires Attested(ref, d, started) && StableIdentity(started.executionId) && started.endpoint != ""
    ensures Reaches(s, next) && next == Go(now, t, Attach(ref, d, WaitBridge(started)))
  {
    var a := OneMore(s, now, BeginAttach(t, ref, d));
    next := AttachMore(s, a, t, started, ref, d, StartService);
    assert next.threads == now.threads[t := Attach(ref, d, WaitBridge(started))];
  }

  lemma AttachInstalls(s: State, now: State, mid: State, t: nat, ref: Ref, d: Deployment, started: Identity)
    returns (next: State)
    requires Reaches(s, mid) && t !in now.threads && mid == Go(now, t, Attach(ref, d, WaitBridge(started)))
    ensures Reaches(s, next) && next == Put(now, ref, started)
  {
    var c := AttachMore(s, mid, t, started, ref, d, WaitBridge(started));
    next := AttachMore(s, c, t, started, ref, d, Install(started));
    assert next.threads == now.threads;
  }

  lemma AttachRun(s: State, now: State, t: nat, ref: Ref, d: Deployment, started: Identity) returns (next: State)
    requires Reaches(s, now) && t !in now.threads
    requires Attested(ref, d, started) && StableIdentity(started.executionId) && started.endpoint != ""
    ensures Reaches(s, next) && next == Put(now, ref, started)
  {
    var mid := AttachStarts(s, now, t, ref, d, started);
    next := AttachInstalls(s, now, mid, t, ref, d, started);
  }

  /** One step of invoke in thread 0. */
  lemma InvokeRun(s: State, now: State, reply: Identity, pc: InvokePc) returns (next: State)
    requires Reaches(s, now) && 0 in now.threads && now.threads[0].Invoke?
    requires InvokeNext(now, now.threads[0].ref, now.threads[0].d, now.threads[0].at, reply) == Continue(pc)
    ensures Reaches(s, next) && next == Go(now, 0, Invoke(now.threads[0].ref, now.threads[0].d, pc))
  {
    next := OneMore(s, now, Step(0, reply));
  }

  const SERVICE_A := "svc-" + seq(64, _ => 'a')
  const SERVICE_B := "svc-" + seq(64, _ => 'b')

  function Service(ref: Ref, d: Deployment, endpoint: string, executionId: string): Identity {
    Identity(ref, d.profileRef, d.profileDigest, d.imageDigest, endpoint, executionId)
  }

  lemma VerifiesFirst(ref: Ref, d: Deployment) returns (s: State)
    ensures Reaches(EMPTY, s) && s.next == 1 && 1 !in s.threads && Changes(s, ref) == 1
    ensures 0 in s.threads && s.threads[0] == Invoke(ref, d, ReadAgain(Record(0, "http://a", SERVICE_A), 1,
                                                                       Service(ref, d, "http://a", SERVICE_A)))
  {
    assert Run(EMPTY, []) == EMPTY;
    var first, r1 := Service(ref, d, "http://a", SERVICE_A), Record(0, "http://a", SERVICE_A);
    s := AttachRun(EMPTY, EMPTY, 1, ref, d, first);
    s := OneMore(EMPTY, s, BeginInvoke(0, ref, d));
    s := InvokeRun(EMPTY, s, first, AskRunner(r1, 1));
    s := InvokeRun(EMPTY, s, first, Compare(r1, 1, first));
    s := InvokeRun(EMPTY, s, first, ReadAgain(r1, 1, first));
  }

  /** A re-attach between the two reads: the result comes from the old endpoint and is returned as if
      the new service had produced it. */
  lemma ReattachGoesUnnoticed(ref: Ref, d: Deployment)
    ensures exists s :: Reaches(EMPTY, s) && 0 in s.threads && s.threads[0].Invoke? && s.threads[0].at.Returned?
              && ref in s.attached && s.attached[ref] == s.threads[0].at.held
              && s.threads[0].at.read.endpoint != s.attached[ref].endpoint
  {
    var first, second := Service(ref, d, "http://a", SERVICE_A), Service(ref, d, "http://b", SERVICE_B);
    var r1, r2 := Record(0, "http://a", SERVICE_A), Record(1, "http://b", SERVICE_B);
    assert r1.endpoint[7] != r2.endpoint[7];
    var s := VerifiesFirst(ref, d);
    s := AttachRun(EMPTY, s, 1, ref, d, second);
    s := InvokeRun(EMPTY, s, first, CallBridge(r1, 1, first, r2, 2));
    s := InvokeRun(EMPTY, s, first, FinalCheck(r1, 1, first, r2, 2));
    s := InvokeRun(EMPTY, s, first, Returned(r1, 1, first, r2, 2, 2));
  }

  // ----- what attach lets in, and what a detach stops -----

  /** Every attach that trusts a started service has the Runner's attestation of it, under a stable identity and
      with an endpoint. */
  predicate StartedReviewed(ref: Ref, d: Deployment, started: Identity) {
    && started.deploymentRef == ref && started.profileRef == d.profileRef
    && started.profileDigest == d.profileDigest && started.imageDigest == d.imageDigest
    && StableText(started.executionId) && started.endpoint != ""
  }

  predicate StableText(id: string) {
    "svc-" <= id && |id[4..]| == 64 && forall c <- id[4..] :: c in "0123456789abcdef"
  }

  lemma HexDigit(c: char)
    requires '0' <= c <= '9' || 'a' <= c <= 'f'
    ensures c in "0123456789abcdef"
  {
    var digits := "0123456789abcdef";
    if c <= '9' { assert digits[c as int - 48] == c; } else { assert digits[c as int - 87] == c; }
  }

  lemma StableMeans(id: string)
    ensures StableIdentity(id) <==> StableText(id)
  {
    if StableText(id) {
      forall i | 4 <= i < 68 ensures '0' <= id[i] <= '9' || 'a' <= id[i] <= 'f' {
        assert id[i] == id[4..][i - 4] && id[4..][i - 4] in id[4..];
      }
    }
    if StableIdentity(id) {
      forall c <- id[4..] ensures c in "0123456789abcdef" {
        var i :| 0 <= i < 64 && id[4..][i] == c;
        assert id[i + 4] == c;
        HexDigit(c);
      }
    }
  }

  ghost predicate AttachedReviewed(s: State) {
    && (forall ref <- s.attached :: StableText(s.attached[ref].executionId) && s.attached[ref].endpoint != "")
    && (forall t <- s.threads :: s.threads[t].Attach? && !s.threads[t].step.StartService? ==>
          StartedReviewed(s.threads[t].ref, s.threads[t].d, s.threads[t].step.started))
  }

  lemma AttachKeepsReviewed(s: State, t: nat, reply: Identity)
    requires AttachedReviewed(s) && t in s.threads && s.threads[t].Attach?
    ensures AttachedReviewed(Apply(s, Step(t, reply)))
  {
    hide StableText, StableIdentity;
    StableMeans(reply.executionId);
  }

  lemma OthersKeepReviewed(s: State, e: Event)
    requires AttachedReviewed(s) && !(e.Step? && e.t in s.threads && s.threads[e.t].Attach?)
    ensures AttachedReviewed(Apply(s, e))
  {
    hide StableText, StartedReviewed;
  }

  /** Over every interleaving: what is attached has a stable identity and an endpoint, and whatever an attach is
      about to install the Runner attested for its deployment, in all four fields. */
  lemma {:induction false} OnlyReviewedIsAttached(s: State, es: seq<Event>)
    requires AttachedReviewed(s)
    ensures AttachedReviewed(Run(s, es))
    decreases |es|
  {
    hide AttachedReviewed, Apply;
    if es != [] {
      if es[0].Step? && es[0].t in s.threads && s.threads[es[0].t].Attach? {
        AttachKeepsReviewed(s, es[0].t, es[0].reply);
      } else {
        OthersKeepReviewed(s, es[0]);
      }
      OnlyReviewedIsAttached(Apply(s, es[0]), es[1..]);
    }
  }

  /** An invoke whose answer differs from the registration or from the record in one of the six fields ends
      without a result, and the deployment is no longer attached. */
  lemma MismatchDetaches(s: State, t: nat, ref: Ref, d: Deployment, read: Record, readAt: nat, seen: Identity,
                         reply: Identity)
    requires t in s.threads && s.threads[t] == Invoke(ref, d, Compare(read, readAt, seen))
    requires || seen.deploymentRef != ref || seen.profileRef != d.profileRef || seen.profileDigest != d.profileDigest
             || seen.imageDigest != d.imageDigest || seen.endpoint != read.endpoint
             || seen.executionId != read.executionId
    ensures var later := Apply(s, Step(t, reply));
            t !in later.threads && later.attached == s.attached - {ref}
  {}

  /** Nothing installs an entry for the deployment. */
  predicate NotAttachedAgain(s: State, es: seq<Event>, ref: Ref)
    decreases |es|
  {
    es != [] ==>
      && !(es[0].Step? && es[0].t in s.threads && s.threads[es[0].t].Attach? && s.threads[es[0].t].ref == ref
           && s.threads[es[0].t].step.Install?)
      && NotAttachedAgain(Apply(s, es[0]), es[1..], ref)
  }

  predicate HasReturned(s: State, u: nat, ref: Ref) {
    u in s.threads && s.threads[u].Invoke? && s.threads[u].ref == ref && s.threads[u].at.Returned?
  }

  lemma InvokeGetsNothing(s: State, t: nat, reply: Identity, ref: Ref, u: nat)
    requires ref !in s.attached && t in s.threads && s.threads[t].Invoke?
    ensures ref !in Apply(s, Step(t, reply)).attached
    ensures HasReturned(Apply(s, Step(t, reply)), u, ref) ==> HasReturned(s, u, ref)
  {
    hide Reviewed;
  }

  lemma OthersGetNothing(s: State, e: Event, ref: Ref, u: nat)
    requires ref !in s.attached && NotAttachedAgain(s, [e], ref)
    requires !(e.Step? && e.t in s.threads && s.threads[e.t].Invoke?)
    ensures ref !in Apply(s, e).attached
    ensures HasReturned(Apply(s, e), u, ref) ==> HasReturned(s, u, ref)
  {
    hide StableIdentity, Attested, InvokeStep;
  }

  /** Without an entry no invoke of the deployment gets a result that had none before. */
  lemma NoNewResult(s: State, e: Event, ref: Ref, u: nat)
    requires ref !in s.attached && NotAttachedAgain(s, [e], ref)
    ensures ref !in Apply(s, e).attached
    ensures HasReturned(Apply(s, e), u, ref) ==> HasReturned(s, u, ref)
  {
    hide Apply, HasReturned, NotAttachedAgain;
    if e.Step? && e.t in s.threads && s.threads[e.t].Invoke? {
      InvokeGetsNothing(s, e.t, e.reply, ref, u);
    } else {
      OthersGetNothing(s, e, ref, u);
    }
  }

  lemma {:induction false} StaysDetached(s: State, es: seq<Event>, ref: Ref, u: nat)
    requires ref !in s.attached && NotAttachedAgain(s, es, ref)
    ensures ref !in Run(s, es).attached
    ensures HasReturned(Run(s, es), u, ref) ==> HasReturned(s, u, ref)
    decreases |es|
  {
    hide Apply, HasReturned;
    if es != [] {
      assert NotAttachedAgain(s, [es[0]], ref) by {
        assert [es[0]][1..] == [] && NotAttachedAgain(Apply(s, es[0]), [], ref);
      }
      NoNewResult(s, es[0], ref, u);
      StaysDetached(Apply(s, es[0]), es[1..], ref, u);
    }
  }

  /** From any state: once a disable or a revoke has taken its step, and until the deployment is attached again,
      it has no entry and no invoke of it returns a result, neither one begun since nor one still on its way. */
  lemma DetachStopsResults(s: State, t: nat, ref: Ref, reply: Identity, es: seq<Event>, u: nat)
    requires t in s.threads && s.threads[t] == Detach(ref)
    requires NotAttachedAgain(Apply(s, Step(t, reply)), es, ref)
    ensures var after := Apply(s, Step(t, reply)); var later := Run(after, es);
            && after.attached == s.attached - {ref} && ref !in later.attached
            && (HasReturned(later, u, ref) ==> HasReturned(s, u, ref))
  {
    StaysDetached(Apply(s, Step(t, reply)), es, ref, u);
  }
}
