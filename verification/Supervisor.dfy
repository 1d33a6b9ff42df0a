/** Restarting worker processes with backoff (src/api/worker_supervisor.py). */
module Supervisor {

  function Min(a: nat, b: nat): nat { if a < b then a else b }

  function Pow2(n: nat): (p: nat)
    ensures p >= 1
  {
    if n == 0 then 1 else 2 * Pow2(n - 1)
  }

  /** Seconds to wait before the restart after f failures. */
  function Delay(f: nat): nat { Min(60, Pow2(Min(f, 6))) }

  /** The fields of a Child; alive says whether it has a process. */
  datatype Worker = Worker(alive: bool, failures: nat, nextStart: real, startedAt: real)

  /** What one tick sees of one child: the clock, and whether its process has exited. */
  datatype Sight = Sight(now: real, exited: bool, stopping: bool)

  function Reaped(w: Worker, now: real): Worker {
    var failures := (if now - w.startedAt > 60.0 then 0 else w.failures) + 1;
    Worker(false, failures, now + Delay(failures) as real, w.startedAt)
  }

  function Ticked(w: Worker, see: Sight): Worker {
    if w.alive && !see.exited then w
    else
      var idle := if w.alive then Reaped(w, see.now) else w;
      if !see.stopping && see.now >= idle.nextStart
      then idle.(alive := true, startedAt := see.now)
      else idle
  }

  /** The seconds themselves. */
  lemma DelaysAre(f: nat)
    ensures Delay(1) == 2 && Delay(2) == 4 && Delay(3) == 8 && Delay(4) == 16 && Delay(5) == 32
    ensures f >= 6 ==> Delay(f) == 60
  {
    assert Pow2(3) == 8 && Pow2(6) == 64;
  }

  lemma DelayIsPositive(f: nat)
    ensures 1 <= Delay(f) <= 60
  {}

  /** What one tick does to a child. A live process is left alone. One that has exited is counted, after a
      minute's life from one again, and gets its next start 2, 4, 8, 16, 32 or 60 seconds from now; it is not
      started in the same tick. A child without a process is started exactly if the supervisor is not stopping
      and the start is due. */
  lemma TickMeans(w: Worker, see: Sight)
    ensures var next := Ticked(w, see);
            && (w.alive && !see.exited ==> next == w)
            && (w.alive && see.exited ==>
                  && !next.alive && next.startedAt == w.startedAt
                  && next.failures == (if see.now - w.startedAt > 60.0 then 1 else w.failures + 1)
                  && (next.failures == 1 ==> next.nextStart == see.now + 2.0)
                  && (next.failures == 2 ==> next.nextStart == see.now + 4.0)
                  && (next.failures == 3 ==> next.nextStart == see.now + 8.0)
                  && (next.failures == 4 ==> next.nextStart == see.now + 16.0)
                  && (next.failures == 5 ==> next.nextStart == see.now + 32.0)
                  && (next.failures >= 6 ==> next.nextStart == see.now + 60.0))
            && (!w.alive && !see.stopping && see.now >= w.nextStart ==>
                  next == Worker(true, w.failures, w.nextStart, see.now))
            && (!w.alive && (see.stopping || see.now < w.nextStart) ==> next == w)
  {
    hide Delay;
    var failures := (if see.now - w.startedAt > 60.0 then 0 else w.failures) + 1;
    DelaysAre(failures);
    DelayIsPositive(failures);
  }

  const FRESH := Worker(false, 0, 0.0, 0.0)

  class Child {
    const moduleName: string
    var process: bool
    var failures: nat
    var nextStart: real
    var startedAt: real

    constructor (moduleName: string)
      ensures this.moduleName == moduleName && Now() == FRESH
    {
      this.moduleName := moduleName;
      process, failures, nextStart, startedAt := false, 0, 0.0, 0.0;
    }

    ghost function Now(): Worker reads this { Worker(process, failures, nextStart, startedAt) }
  }

  /** tick(): one pass over the children, each with its own clock reading. */
  method Tick(children: seq<Child>, sights: seq<Sight>)
    requires |sights| == |children| && forall i, j | 0 <= i < j < |children| :: children[i] != children[j]
    modifies set c | c in children
    ensures forall i | 0 <= i < |children| :: children[i].Now() == Ticked(old(children[i].Now()), sights[i])
  {
    for i := 0 to |children|
      invariant forall k | 0 <= k < i :: children[k].Now() == Ticked(old(children[k].Now()), sights[k])
      invariant forall k | i <= k < |children| :: children[k].Now() == old(children[k].Now())
    {
      var child, see := children[i], sights[i];
      if child.process {
        if !see.exited { continue; }
        if see.now - child.startedAt > 60.0 { child.failures := 0; }
        child.failures := child.failures + 1;
        child.nextStart := see.now + Delay(child.failures) as real;
        child.process := false;
      }
      if !see.stopping && see.now >= child.nextStart {
        child.process := true;
        child.startedAt := see.now;
      }
    }
  }

  // ----- runs of one child -----

  /** One start of the process: when, after how many failures, and how long the process before it was
      seen to live. */
  datatype Launch = Launch(at: real, failures: nat, lifetime: real)

  datatype History = History(worker: Worker, launches: seq<Launch>, lifetime: real, reaped: nat)

  function Step(h: History, see: Sight): History {
    var w := Ticked(h.worker, see);
    var died := h.worker.alive && see.exited;
    var lifetime := if died then see.now - h.worker.startedAt else h.lifetime;
    var started := w.alive && (died || !h.worker.alive);
    History(w, if started then h.launches + [Launch(see.now, w.failures, lifetime)] else h.launches, lifetime,
            h.reaped + if died then 1 else 0)
  }

  function Run(h: History, sights: seq<Sight>): History
    decreases |sights|
  {
    if sights == [] then h else Run(Step(h, sights[0]), sights[1..])
  }

  const BEGIN := History(FRESH, [], 0.0, 0)

  predicate Monotonic(sights: seq<Sight>) { forall i, j | 0 <= i < j < |sights| :: sights[i].now <= sights[j].now }

  /** Between two starts of a process lies the backoff of the failures counted so far, which grow by
      one unless the process outlived a minute. */
  predicate Spaced(before: Launch, next: Launch) {
    && next.failures == (if next.lifetime > 60.0 then 0 else before.failures) + 1
    && next.at >= before.at + Delay(next.failures) as real
  }

  predicate Inv(h: History, clock: real) {
    && (forall i | 0 < i < |h.launches| :: Spaced(h.launches[i - 1], h.launches[i]))
    && (h.launches == [] <==> h.worker == FRESH)
    && (h.launches == [] || h.launches[0].failures == 0)
    && |h.launches| == h.reaped + (if h.worker.alive then 1 else 0)
    && (h.launches != [] ==>
          var last := h.launches[|h.launches| - 1];
          && last.at == h.worker.startedAt <= clock
          && (h.worker.alive ==> h.worker.failures == last.failures)
          && (!h.worker.alive ==>
                && h.worker.failures == (if h.lifetime > 60.0 then 0 else last.failures) + 1
                && h.worker.nextStart >= last.at + Delay(h.worker.failures) as real))
  }

  lemma StepKeeps(h: History, clock: real, see: Sight)
    requires Inv(h, clock) && clock <= see.now
    ensures Inv(Step(h, see), see.now)
  {
    var next := Step(h, see);
    if |next.launches| > |h.launches| && h.launches != [] {
      assert next.launches[|h.launches| - 1] == h.launches[|h.launches| - 1];
      assert !h.worker.alive;
      assert Spaced(h.launches[|h.launches| - 1], next.launches[|h.launches|]);
    }
  }

  lemma {:induction false} RunKeeps(h: History, clock: real, sights: seq<Sight>) returns (end: real)
    requires Inv(h, clock) && Monotonic(sights) && (sights != [] ==> clock <= sights[0].now)
    ensures Inv(Run(h, sights), end)
    decreases |sights|
  {
    end := clock;
    if sights != [] {
      StepKeeps(h, clock, sights[0]);
      end := RunKeeps(Step(h, sights[0]), sights[0].now, sights[1..]);
    }
  }

  /** Over every run of ticks with a non-decreasing clock: consecutive starts are apart by the backoff of
      the failure count, and there is at most one live process, the one not yet reaped. */
  lemma RestartsAreSpaced(sights: seq<Sight>)
    requires Monotonic(sights) && (sights != [] ==> 0.0 <= sights[0].now)
    ensures var h := Run(BEGIN, sights);
            && (forall i | 0 < i < |h.launches| :: Spaced(h.launches[i - 1], h.launches[i]))
            && (h.launches == [] || h.launches[0].failures == 0)
            && 0 <= |h.launches| - h.reaped <= 1
  {
    var _ := RunKeeps(BEGIN, 0.0, sights);
  }

  function DelaySum(from: nat, n: nat): nat { if n == 0 then 0 else DelaySum(from, n - 1) + Delay(from + n) }

  lemma {:induction false} CrashLoopFrom(launches: seq<Launch>, first: nat, n: nat)
    requires first + n < |launches|
    requires forall i | first < i <= first + n :: Spaced(launches[i - 1], launches[i]) && launches[i].lifetime <= 60.0
    ensures launches[first + n].failures == launches[first].failures + n
    ensures launches[first + n].at >= launches[first].at + DelaySum(launches[first].failures, n) as real
  {
    if n > 0 { CrashLoopFrom(launches, first, n - 1); }
  }

  lemma {:induction false} DelaySumClosed(n: nat)
    requires n >= 5
    ensures DelaySum(0, n) == 62 + 60 * (n - 5)
  {
    if n == 5 {
      assert Delay(1) == 2 && Delay(2) == 4 && Delay(3) == 8 && Delay(4) == 16 && Delay(5) == 32;
      assert DelaySum(0, 2) == 6 && DelaySum(0, 4) == 30;
    } else {
      DelaySumClosed(n - 1);
      assert Pow2(6) == 64;
    }
  }

  lemma {:induction false} Pow2Grows(a: nat, b: nat)
    requires a <= b
    ensures Pow2(a) <= Pow2(b)
  {
    if a < b { Pow2Grows(a, b - 1); }
  }

  /** More failures before a crash loop only make its delays longer. */
  lemma {:induction false} DelaySumGrows(from: nat, n: nat)
    ensures DelaySum(from, n) >= DelaySum(0, n)
  {
    if n > 0 {
      DelaySumGrows(from, n - 1);
      Pow2Grows(Min(n, 6), Min(from + n, 6));
    }
  }

  /** A process that keeps dying within a minute, from whichever start on: its n-th restart in a row comes no
      earlier than the sum of the first n backoffs after that start, which from the fifth restart on is 62 s
      and a minute for each further one. */
  lemma CrashLoopIsSlow(sights: seq<Sight>, first: nat, n: nat)
    requires Monotonic(sights) && (sights != [] ==> 0.0 <= sights[0].now)
    requires first + n < |Run(BEGIN, sights).launches|
    requires forall i | first < i <= first + n :: Run(BEGIN, sights).launches[i].lifetime <= 60.0
    ensures var launches := Run(BEGIN, sights).launches;
            && launches[first + n].failures == launches[first].failures + n
            && launches[first + n].at >= launches[first].at + DelaySum(launches[first].failures, n) as real
            && launches[first + n].at >= launches[first].at + DelaySum(0, n) as real
            && (n >= 5 ==> DelaySum(0, n) == 62 + 60 * (n - 5))
  {
    var launches := Run(BEGIN, sights).launches;
    RestartsAreSpaced(sights);
    CrashLoopFrom(launches, first, n);
    DelaySumGrows(launches[first].failures, n);
    if n >= 5 { DelaySumClosed(n); }
  }
}
