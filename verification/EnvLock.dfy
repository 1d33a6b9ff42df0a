/** Concurrent saves of one .env file: a lock, a temporary file, an atomic replace, and crashes. */
module EnvLock {
  import opened Wrappers
  import opened EnvText
  import opened EnvLines
  import opened EnvFile

  /** A caller of save_settings_to_env: before the lock, after reading the file, while the temporary
      file holds whatever has reached it, after fsync, and after the replace. */
  datatype Saver<D> =
    | Waiting(s: D)
    | Locked(s: D)
    | HasRead(s: D, seen: string)
    | Writing(s: D, seen: string, temp: string)
    | Synced(s: D, temp: string)
    | Replaced(s: D)

  /** A turn at the lock, in lock order, and whether its save reached the file. */
  datatype Turn<D> = Turn(saver: nat, s: D, completed: bool)

  datatype State<D> = State(disk: string, holder: Option<nat>, savers: map<nat, Saver<D>>, turns: seq<Turn<D>>)

  datatype Event<D> =
    | Call(t: nat, s: D)
    | Acquire(t: nat)
    | Read(t: nat)
    | Open(t: nat)
    | Write(t: nat, temp: string)   // any partial content may be on disk in the temporary file
    | Sync(t: nat)
    | Replace(t: nat)
    | Release(t: nat)
    | Fail(t: nat)                  // an exception: the temporary file is removed, the lock released
    | Crash

  function To<D>(st: State<D>, t: nat, next: Saver<D>): State<D> { st.(savers := st.savers[t := next]) }

  function Left<D>(st: State<D>, t: nat): State<D> {
    st.(savers := st.savers - {t}, holder := if st.holder == Some(t) then None else st.holder)
  }

  function CompleteLast<D>(turns: seq<Turn<D>>): seq<Turn<D>>
    requires turns != []
  {
    turns[..|turns| - 1] + [turns[|turns| - 1].(completed := true)]
  }

  /** What a save writes, given the text it read. */
  type SaveFn<!D> = (string, D) -> string

  /** An event that is not possible leaves the state as it is. */
  function Apply<D>(st: State<D>, e: Event<D>, save: SaveFn<D>): State<D> {
    match e
    case Call(t, s) => if t in st.savers then st else To(st, t, Waiting(s))
    case Crash => st.(holder := None, savers := map[])
    case Fail(t) => if t in st.savers && !st.savers[t].Replaced? then Left(st, t) else st
    case Acquire(t) =>
      if t in st.savers && st.savers[t].Waiting? && st.holder.None? then
        var s := st.savers[t].s;
        To(st, t, Locked(s)).(holder := Some(t), turns := st.turns + [Turn(t, s, false)])
      else st
    case Read(t) =>
      if t in st.savers && st.savers[t].Locked? then To(st, t, HasRead(st.savers[t].s, st.disk)) else st
    case Open(t) =>
      if t in st.savers && st.savers[t].HasRead? then To(st, t, Writing(st.savers[t].s, st.savers[t].seen, "")) else st
    case Write(t, temp) =>
      if t in st.savers && st.savers[t].Writing?
      then To(st, t, Writing(st.savers[t].s, st.savers[t].seen, temp))
      else st
    case Sync(t) =>
      if t in st.savers && st.savers[t].Writing?
      then To(st, t, Synced(st.savers[t].s, save(st.savers[t].seen, st.savers[t].s)))
      else st
    case Replace(t) =>
      if t in st.savers && st.savers[t].Synced? && st.turns != []
      then To(st, t, Replaced(st.savers[t].s)).(disk := st.savers[t].temp, turns := CompleteLast(st.turns))
      else st
    case Release(t) => if t in st.savers && st.savers[t].Replaced? then Left(st, t) else st
  }

  function Run<D>(st: State<D>, es: seq<Event<D>>, save: SaveFn<D>): State<D>
    decreases |es|
  {
    if es == [] then st else Run(Apply(st, es[0], save), es[1..], save)
  }

  /** The completed saves applied to the initial text one after another, in lock order. */
  function Serial<D>(initial: string, turns: seq<Turn<D>>, save: SaveFn<D>): string {
    if turns == [] then initial
    else
      var before := Serial(initial, turns[..|turns| - 1], save);
      var last := turns[|turns| - 1];
      if last.completed then save(before, last.s) else before
  }

  ghost predicate SaverOk<D>(st: State<D>, t: nat, saver: Saver<D>, save: SaveFn<D>) {
    && (!saver.Waiting? ==> st.holder == Some(t) && st.turns != [])
    && (!saver.Waiting? ==> st.turns[|st.turns| - 1] == Turn(t, saver.s, saver.Replaced?))
    && (saver.HasRead? || saver.Writing? ==> saver.seen == st.disk)
    && (saver.Synced? ==> saver.temp == save(st.disk, saver.s))
  }

  ghost predicate Inv<D>(st: State<D>, initial: string, save: SaveFn<D>) {
    && st.disk == Serial(initial, st.turns, save)
    && forall t <- st.savers :: SaverOk(st, t, st.savers[t], save)
  }

  lemma AcquireKeeps<D>(st: State<D>, t: nat, initial: string, save: SaveFn<D>)
    requires Inv(st, initial, save) && t in st.savers && st.savers[t].Waiting? && st.holder.None?
    ensures Inv(Apply(st, Acquire(t), save), initial, save)
  {
    var turns := Apply(st, Acquire(t), save).turns;
    assert turns[..|turns| - 1] == st.turns;
  }

  lemma OthersWait<D>(st: State<D>, t: nat, initial: string, save: SaveFn<D>)
    requires Inv(st, initial, save) && st.holder == Some(t)
    ensures forall u <- st.savers :: u != t ==> st.savers[u].Waiting?
  {
    forall u <- st.savers | u != t ensures st.savers[u].Waiting? { assert SaverOk(st, u, st.savers[u], save); }
  }

  lemma SerialCompletes<D>(initial: string, turns: seq<Turn<D>>, save: SaveFn<D>)
    requires turns != [] && !turns[|turns| - 1].completed
    ensures Serial(initial, CompleteLast(turns), save) == save(Serial(initial, turns, save), turns[|turns| - 1].s)
  {
    assert CompleteLast(turns)[..|turns| - 1] == turns[..|turns| - 1];
  }

  lemma ReplaceKeeps<D>(st: State<D>, t: nat, initial: string, save: SaveFn<D>)
    requires Inv(st, initial, save) && t in st.savers && st.savers[t].Synced? && st.turns != []
    ensures Inv(Apply(st, Replace(t), save), initial, save)
  {
    assert SaverOk(st, t, st.savers[t], save);
    OthersWait(st, t, initial, save);
    SerialCompletes(initial, st.turns, save);
  }

  lemma ApplyKeeps<D>(st: State<D>, e: Event<D>, initial: string, save: SaveFn<D>)
    requires Inv(st, initial, save)
    ensures Inv(Apply(st, e, save), initial, save)
  {
    match e
    case Acquire(t) =>
      if t in st.savers && st.savers[t].Waiting? && st.holder.None? { AcquireKeeps(st, t, initial, save); }
    case Replace(t) =>
      if t in st.savers && st.savers[t].Synced? && st.turns != [] { ReplaceKeeps(st, t, initial, save); }
    case _ =>
  }

  lemma {:induction false} RunKeeps<D>(st: State<D>, es: seq<Event<D>>, initial: string, save: SaveFn<D>)
    requires Inv(st, initial, save)
    ensures Inv(Run(st, es, save), initial, save)
    decreases |es|
  {
    if es != [] {
      ApplyKeeps(st, es[0], initial, save);
      RunKeeps(Apply(st, es[0], save), es[1..], initial, save);
    }
  }

  /** The turns of later are those of turns and more; all but the last stay as they are, and a turn that was
      completed stays completed. */
  ghost predicate TurnsGrow<D>(turns: seq<Turn<D>>, later: seq<Turn<D>>) {
    && |turns| <= |later|
    && (forall i | 0 <= i < |turns| :: turns[i].completed || i < |turns| - 1 ==> later[i] == turns[i])
    && (forall i | 0 <= i < |turns| :: later[i].saver == turns[i].saver && later[i].s == turns[i].s)
  }

  lemma ApplyGrows<D>(st: State<D>, e: Event<D>, initial: string, save: SaveFn<D>)
    requires Inv(st, initial, save)
    ensures TurnsGrow(st.turns, Apply(st, e, save).turns)
  {
    if e.Replace? && e.t in st.savers { assert SaverOk(st, e.t, st.savers[e.t], save); }
  }

  lemma {:induction false} RunGrows<D>(st: State<D>, es: seq<Event<D>>, initial: string, save: SaveFn<D>)
    requires Inv(st, initial, save)
    ensures TurnsGrow(st.turns, Run(st, es, save).turns)
    decreases |es|
  {
    if es != [] {
      ApplyGrows(st, es[0], initial, save);
      ApplyKeeps(st, es[0], initial, save);
      RunGrows(Apply(st, es[0], save), es[1..], initial, save);
    }
  }

  /** Over every interleaving of saves, failures and crashes the file is the initial file with the completed
      saves applied one after another in lock order. Every caller whose replace went through is among them for
      ever after, also when it has returned, and a save that a later one followed without having replaced the
      file never takes effect: no save is lost, none is torn. */
  lemma NoLostOrTornSave(initial: string, before: seq<Event<Dict>>, after: seq<Event<Dict>>)
    ensures var mid := Run(State(initial, None, map[], []), before, SaveText); var end := Run(mid, after, SaveText);
            && end.disk == Serial(initial, end.turns, SaveText)
            && TurnsGrow(mid.turns, end.turns)
            && forall t <- mid.savers :: mid.savers[t].Replaced? ==> Turn(t, mid.savers[t].s, true) in end.turns
  {
    var start: State<Dict> := State(initial, None, map[], []);
    var mid := Run(start, before, SaveText);
    RunKeeps(start, before, initial, SaveText);
    RunKeeps(mid, after, initial, SaveText);
    RunGrows(mid, after, initial, SaveText);
    var end := Run(mid, after, SaveText);
    forall t <- mid.savers | mid.savers[t].Replaced? ensures Turn(t, mid.savers[t].s, true) in end.turns {
      assert SaverOk(mid, t, mid.savers[t], SaveText);
      assert end.turns[|mid.turns| - 1] == mid.turns[|mid.turns| - 1];
    }
  }

  /** The events of one call of save_settings_to_env in which nothing fails. */
  function OneSave<D>(t: nat, s: D, temp: string): seq<Event<D>> {
    [Call(t, s), Acquire(t), Read(t), Open(t), Write(t, temp), Sync(t), Replace(t), Release(t)]
  }

  lemma RunFirst<D>(st: State<D>, e: Event<D>, es: seq<Event<D>>, save: SaveFn<D>)
    ensures Run(st, [e] + es, save) == Run(Apply(st, e, save), es, save)
  {
    assert ([e] + es)[1..] == es;
  }

  lemma FirstHalfReads<D>(st: State<D>, t: nat, s: D, temp: string, rest: seq<Event<D>>, save: SaveFn<D>)
    requires st.holder == None && t !in st.savers
    ensures var mid := Run(st, [Call(t, s), Acquire(t), Read(t), Open(t), Write(t, temp)] + rest, save);
            mid == Run(st.(holder := Some(t), turns := st.turns + [Turn(t, s, false)],
                           savers := st.savers[t := Writing(s, st.disk, temp)]), rest, save)
  {
    var st1 := Apply(st, Call(t, s), save);
    var st2 := Apply(st1, Acquire(t), save);
    var st3 := Apply(st2, Read(t), save);
    var st4 := Apply(st3, Open(t), save);
    var r4 := [Write(t, temp)] + rest;
    var r3 := [Open(t)] + r4;
    var r2 := [Read(t)] + r3;
    var r1 := [Acquire(t)] + r2;
    assert [Call(t, s), Acquire(t), Read(t), Open(t), Write(t, temp)] + rest == [Call(t, s)] + r1;
    RunFirst(st, Call(t, s), r1, save);
    RunFirst(st1, Acquire(t), r2, save);
    RunFirst(st2, Read(t), r3, save);
    RunFirst(st3, Open(t), r4, save);
    RunFirst(st4, Write(t, temp), rest, save);
    assert Apply(st4, Write(t, temp), save).savers == st.savers[t := Writing(s, st.disk, temp)];
  }

  lemma SecondHalfLands<D>(st: State<D>, t: nat, s: D, seen: string, temp: string, save: SaveFn<D>)
    requires t in st.savers && st.savers[t] == Writing(s, seen, temp) && st.turns != [] && st.holder == Some(t)
    ensures var end := Run(st, [Sync(t), Replace(t), Release(t)], save);
            && end.disk == save(seen, s) && end.holder == None && end.savers == st.savers - {t}
            && end.turns == CompleteLast(st.turns)
  {
    var st1 := Apply(st, Sync(t), save);
    var st2 := Apply(st1, Replace(t), save);
    var none: seq<Event<D>> := [];
    var r2 := [Release(t)] + none;
    var r1 := [Replace(t)] + r2;
    assert [Sync(t), Replace(t), Release(t)] == [Sync(t)] + r1;
    RunFirst(st, Sync(t), r1, save);
    RunFirst(st1, Replace(t), r2, save);
    RunFirst(st2, Release(t), none, save);
    assert Apply(st2, Release(t), save).savers == st.savers - {t};
  }

  /** A call that finds the lock free and in which nothing fails, whatever of the temporary file reached the disk
      on the way: the file is the save of what it was, the lock is free again, and its turn counts as completed. */
  lemma UndisturbedSaveLands(st: State<Dict>, t: nat, s: Dict, temp: string)
    requires st.holder == None && t !in st.savers
    ensures var end := Run(st, OneSave(t, s, temp), SaveText);
            && end.disk == SaveText(st.disk, s) && end.holder == None && end.savers == st.savers
            && end.turns == st.turns + [Turn(t, s, true)]
  {
    var rest := [Sync(t), Replace(t), Release(t)];
    assert OneSave(t, s, temp) == [Call(t, s), Acquire(t), Read(t), Open(t), Write(t, temp)] + rest;
    FirstHalfReads(st, t, s, temp, rest, SaveText);
    var mid := st.(holder := Some(t), turns := st.turns + [Turn(t, s, false)],
                   savers := st.savers[t := Writing(s, st.disk, temp)]);
    SecondHalfLands(mid, t, s, st.disk, temp, SaveText);
    assert mid.savers - {t} == st.savers;
    assert CompleteLast(mid.turns) == st.turns + [Turn(t, s, true)];
  }
}
