/** The spawn lock: any number of threads calling the patched `os.spawnve`. */
module SpawnLock {
  import opened Options

  type Tid = nat

  datatype Mode = Wait | NoWait | OtherMode(code: int)

  /** Where a thread is inside `new_spawnve`. A spawn, made with mode `inner`, yields a result or
      raises; the `finally` clause then releases the lock, and only a waiting call goes on to
      `waitpid`. */
  datatype Pc =
    | Acquiring(mode: Mode)
    | Spawning(mode: Mode, inner: Mode)
    | Releasing(mode: Mode, result: Option<int>)
    | Waiting(pid: int)
    | Returned(value: int)
    | Raised

  datatype State = State(lock: Option<Tid>, pcs: map<Tid, Pc>)

  datatype Action =
    | Acquire(t: Tid)
    | SpawnReturns(t: Tid, result: int)
    | SpawnRaises(t: Tid)
    | Release(t: Tid)
    | WaitReturns(t: Tid, status: int)
    | WaitRaises(t: Tid)

  /** `status >> 8`, an arithmetic shift. */
  function ExitCode(status: int): int {
    status / 256
  }

  predicate Enabled(s: State, a: Action) {
    && a.t in s.pcs
    && match a
       case Acquire(t) => s.pcs[t].Acquiring? && s.lock == None
       case SpawnReturns(t, _) => s.pcs[t].Spawning?
       case SpawnRaises(t) => s.pcs[t].Spawning?
       case Release(t) => s.pcs[t].Releasing?
       case WaitReturns(t, _) => s.pcs[t].Waiting?
       case WaitRaises(t) => s.pcs[t].Waiting?
  }

  function Next(s: State, a: Action): State
    requires Enabled(s, a)
  {
    State(match a case Acquire(t) => Some(t) case Release(_) => None case _ => s.lock,
          s.pcs[a.t := Local(s.pcs[a.t], a)])
  }

  /** What an action does to its own thread; the identity where it does not apply. */
  function Local(pc: Pc, a: Action): Pc {
    match (pc, a)
    case (Acquiring(mode), Acquire(_)) => Spawning(mode, if mode == Wait then NoWait else mode)
    case (Spawning(mode, _), SpawnReturns(_, result)) => Releasing(mode, Some(result))
    case (Spawning(mode, _), SpawnRaises(_)) => Releasing(mode, None)
    case (Releasing(_, None), Release(_)) => Raised
    case (Releasing(mode, Some(v)), Release(_)) => if mode == Wait then Waiting(v) else Returned(v)
    case (Waiting(_), WaitReturns(_, status)) => Returned(ExitCode(status))
    case (Waiting(_), WaitRaises(_)) => Raised
    case _ => pc
  }

  // ---------- safety ----------

  predicate Holding(pc: Pc) {
    pc.Spawning? || pc.Releasing?
  }

  predicate Finished(pc: Pc) {
    pc.Returned? || pc.Raised?
  }

  predicate Initial(s: State) {
    s.lock == None && forall t | t in s.pcs :: s.pcs[t].Acquiring?
  }

  /** The lock names exactly the one thread between acquire and release. */
  predicate Inv(s: State) {
    && (forall t | t in s.pcs :: Holding(s.pcs[t]) <==> s.lock == Some(t))
    && (s.lock.Some? ==> s.lock.value in s.pcs)
    && (forall t | t in s.pcs && s.pcs[t].Spawning? :: s.pcs[t].inner != Wait)
  }

  predicate IsRun(s: State, run: seq<Action>)
    decreases |run|
  {
    run == [] || (Enabled(s, run[0]) && IsRun(Next(s, run[0]), run[1..]))
  }

  function After(s: State, run: seq<Action>): State
    requires IsRun(s, run)
    decreases |run|
  {
    if run == [] then s else After(Next(s, run[0]), run[1..])
  }

  lemma NextInv(s: State, a: Action)
    requires Inv(s) && Enabled(s, a)
    ensures Inv(Next(s, a))
  {
  }

  lemma {:induction false} RunInv(s: State, run: seq<Action>)
    requires Inv(s) && IsRun(s, run)
    ensures Inv(After(s, run))
    decreases |run|
  {
    hide Inv, Enabled, Next;
    if run == [] {
    } else {
      NextInv(s, run[0]);
      RunInv(Next(s, run[0]), run[1..]);
    }
  }

  /** In every interleaving at most one thread is inside the original spawn, which never waits for
      its child there, and no thread that is waiting, has returned or has raised holds the lock. */
  lemma MutualExclusion(s: State, run: seq<Action>)
    requires Initial(s) && IsRun(s, run)
    ensures var s' := After(s, run);
            && (forall t, u | t in s'.pcs && u in s'.pcs && s'.pcs[t].Spawning? && s'.pcs[u].Spawning? :: t == u)
            && (forall t | t in s'.pcs && s'.pcs[t].Spawning? :: s'.pcs[t].inner != Wait)
            && (forall t | t in s'.pcs && (s'.pcs[t].Waiting? || Finished(s'.pcs[t])) :: s'.lock != Some(t))
  {
    RunInv(s, run);
  }

  // ---------- the spawns are a sequence of whole calls ----------

  datatype Mark = Enter(t: Tid) | Leave(t: Tid)

  /** Entries into and exits from the original spawn, in the order they happen. */
  function Marks(run: seq<Action>): seq<Mark> {
    if run == [] then []
    else
      (match run[0]
       case Acquire(t) => [Enter(t)]
       case SpawnReturns(t, _) => [Leave(t)]
       case SpawnRaises(t) => [Leave(t)]
       case _ => []) + Marks(run[1..])
  }

  /** Enter and leave alternate and match, starting inside thread `inside` if it is given. */
  predicate Serial(marks: seq<Mark>, inside: Option<Tid>) {
    marks == [] ||
    match marks[0]
    case Enter(t) => inside == None && Serial(marks[1..], Some(t))
    case Leave(t) => inside == Some(t) && Serial(marks[1..], None)
  }

  function Inside(s: State): Option<Tid> {
    match s.lock
    case None => None
    case Some(t) => if t in s.pcs && s.pcs[t].Spawning? then Some(t) else None
  }

  lemma {:induction false} SpawnsAreSerial(s: State, run: seq<Action>)
    requires Inv(s) && IsRun(s, run)
    ensures Serial(Marks(run), Inside(s))
    decreases |run|
  {
    if run == [] {
    } else {
      var s' := Next(s, run[0]);
      NextInv(s, run[0]);
      SpawnsAreSerial(s', run[1..]);
      var first := Marks(run)[..|Marks(run)| - |Marks(run[1..])|];
      assert Marks(run) == first + Marks(run[1..]);
      if first != [] {
        assert Marks(run)[1..] == Marks(run[1..]);
      }
    }
  }

  // ---------- each call behaves as if it ran alone ----------

  function Own(run: seq<Action>, t: Tid): seq<Action> {
    if run == [] then [] else (if run[0].t == t then [run[0]] else []) + Own(run[1..], t)
  }

  function Alone(pc: Pc, own: seq<Action>): Pc
    decreases |own|
  {
    if own == [] then pc else Alone(Local(pc, own[0]), own[1..])
  }

  /** The state of a call after any interleaving depends only on its own actions. */
  lemma {:induction false} CallsDoNotInterfere(s: State, run: seq<Action>, t: Tid)
    requires IsRun(s, run) && t in s.pcs
    ensures t in After(s, run).pcs
    ensures After(s, run).pcs[t] == Alone(s.pcs[t], Own(run, t))
    decreases |run|
  {
    hide Local;
    if run == [] {
    } else {
      CallsDoNotInterfere(Next(s, run[0]), run[1..], t);
      if run[0].t == t {
        assert Own(run, t)[1..] == Own(run[1..], t);
      } else {
        assert Own(run, t) == Own(run[1..], t);
      }
    }
  }

  /** The one list of own actions of a call made with `mode` that reaches a place, up to what its
      spawn and its wait reported. */
  ghost predicate Explains(mode: Mode, t: Tid, own: seq<Action>, pc: Pc) {
    match pc
    case Acquiring(m) => m == mode && own == []
    case Spawning(m, inner) =>
      m == mode && (if mode == Wait then inner == NoWait else inner == mode) && own == [Acquire(t)]
    case Releasing(m, Some(v)) => m == mode && own == [Acquire(t), SpawnReturns(t, v)]
    case Releasing(m, None) => m == mode && own == [Acquire(t), SpawnRaises(t)]
    case Waiting(pid) => mode == Wait && own == [Acquire(t), SpawnReturns(t, pid), Release(t)]
    case Returned(v) =>
      if mode == Wait then exists pid, status :: v == ExitCode(status) && own == Waited(t, pid, status)
      else own == [Acquire(t), SpawnReturns(t, v), Release(t)]
    case Raised =>
      || own == [Acquire(t), SpawnRaises(t), Release(t)]
      || (mode == Wait && exists pid :: own == WaitFailed(t, pid))
  }

  function Waited(t: Tid, pid: int, status: int): seq<Action> {
    [Acquire(t), SpawnReturns(t, pid), Release(t), WaitReturns(t, status)]
  }

  function WaitFailed(t: Tid, pid: int): seq<Action> {
    [Acquire(t), SpawnReturns(t, pid), Release(t), WaitRaises(t)]
  }

  lemma ExplainsStep(mode: Mode, past: seq<Action>, s: State, a: Action)
    requires Enabled(s, a) && Explains(mode, a.t, past, s.pcs[a.t])
    ensures Explains(mode, a.t, past + [a], Local(s.pcs[a.t], a))
  {
    match a
    case WaitReturns(t, status) =>
      assert past + [a] == Waited(t, s.pcs[t].pid, status);
    case WaitRaises(t) =>
      assert past + [a] == WaitFailed(t, s.pcs[t].pid);
    case _ =>
  }

  lemma {:induction false} RunExplained(s: State, run: seq<Action>, mode: Mode, t: Tid, past: seq<Action>)
    requires IsRun(s, run) && t in s.pcs && Explains(mode, t, past, s.pcs[t])
    ensures t in After(s, run).pcs && Explains(mode, t, past + Own(run, t), After(s, run).pcs[t])
    decreases |run|
  {
    hide Explains, Local;
    if run == [] {
      assert past + [] == past;
    } else {
      var s', rest := Next(s, run[0]), Own(run[1..], t);
      if run[0].t == t {
        ExplainsStep(mode, past, s, run[0]);
        RunExplained(s', run[1..], mode, t, past + [run[0]]);
        assert (past + [run[0]]) + rest == past + ([run[0]] + rest);
      } else {
        RunExplained(s', run[1..], mode, t, past);
        assert [] + rest == rest;
      }
    }
  }

  /** In every interleaving a call has returned a value exactly when its own actions are those of a
      whole successful call: a waiting call returns its child's exit code, which is the status without
      its low eight bits, any other call what the original function returned. It has raised exactly
      when its spawn, or after a spawn its wait, has raised; the lock was released before. Only the
      waiting mode is changed for the original function. */
  lemma ResultOfCall(s: State, run: seq<Action>, t: Tid, v: int)
    requires Initial(s) && IsRun(s, run) && t in s.pcs
    ensures t in After(s, run).pcs
    ensures After(s, run).pcs[t] == Returned(v) <==>
            if s.pcs[t].mode == Wait
            then exists pid, status :: 256 * v <= status < 256 * (v + 1) && Own(run, t) == Waited(t, pid, status)
            else Own(run, t) == [Acquire(t), SpawnReturns(t, v), Release(t)]
    ensures After(s, run).pcs[t] == Raised <==>
            || Own(run, t) == [Acquire(t), SpawnRaises(t), Release(t)]
            || (s.pcs[t].mode == Wait && exists pid :: Own(run, t) == WaitFailed(t, pid))
    ensures After(s, run).pcs[t].Spawning? ==>
              After(s, run).pcs[t].inner == if s.pcs[t].mode == Wait then NoWait else s.pcs[t].mode
  {
    hide IsRun, Own, After;
    assert [] + Own(run, t) == Own(run, t);
    RunExplained(s, run, s.pcs[t].mode, t, []);
    ExplainedOnce(s.pcs[t].mode, t, Own(run, t), After(s, run).pcs[t], v);
    forall status ensures v == ExitCode(status) <==> 256 * v <= status < 256 * (v + 1) {
      ExitCodeMeans(status, v);
    }
  }

  lemma ExitCodeMeans(status: int, v: int)
    ensures v == ExitCode(status) <==> 256 * v <= status < 256 * (v + 1)
  {
  }

  /** A list of own actions explains at most one place. */
  lemma ExplainedOnce(mode: Mode, t: Tid, own: seq<Action>, pc: Pc, v: int)
    requires Explains(mode, t, own, pc)
    ensures Explains(mode, t, own, Returned(v)) ==> pc == Returned(v)
    ensures Explains(mode, t, own, Raised) ==> pc == Raised
  {
    if mode == Wait && pc.Returned? {
      var pid, status :| pc.value == ExitCode(status) && own == Waited(t, pid, status);
      assert own[3] == WaitReturns(t, status);
    }
  }

  // ---------- progress ----------

  /** The holder of the lock always has a step, whatever the others do. */
  lemma HolderCanStep(s: State)
    requires Inv(s) && s.lock.Some?
    ensures var t := s.lock.value;
            Enabled(s, SpawnReturns(t, 0)) || Enabled(s, Release(t))
  {
  }

  /** No deadlock: a state without an enabled action has every thread finished and the lock free. */
  lemma StuckOnlyWhenDone(s: State)
    requires Inv(s) && forall a :: !Enabled(s, a)
    ensures s.lock == None && forall t | t in s.pcs :: Finished(s.pcs[t])
  {
    if s.lock.Some? {
      HolderCanStep(s);
    }
    forall t | t in s.pcs ensures Finished(s.pcs[t]) {
      assert !Enabled(s, Acquire(t)) && !Enabled(s, SpawnRaises(t));
      assert !Enabled(s, Release(t)) && !Enabled(s, WaitRaises(t));
    }
  }

  function Remaining(pc: Pc): nat {
    match pc
    case Acquiring(_) => 4
    case Spawning(_, _) => 3
    case Releasing(_, _) => 2
    case Waiting(_) => 1
    case _ => 0
  }

  /** Steps left, summed over the threads listed in `order`. */
  function Budget(pcs: map<Tid, Pc>, order: seq<Tid>): nat
    requires forall i | 0 <= i < |order| :: order[i] in pcs
  {
    if order == [] then 0 else Remaining(pcs[order[0]]) + Budget(pcs, order[1..])
  }

  lemma {:induction false} BudgetElsewhere(pcs: map<Tid, Pc>, order: seq<Tid>, t: Tid, pc: Pc)
    requires forall i | 0 <= i < |order| :: order[i] in pcs
    requires forall i | 0 <= i < |order| :: order[i] != t
    ensures Budget(pcs[t := pc], order) == Budget(pcs, order)
  {
    if order == [] {
    } else {
      BudgetElsewhere(pcs, order[1..], t, pc);
    }
  }

  predicate Lists(order: seq<Tid>, pcs: map<Tid, Pc>) {
    && (forall i | 0 <= i < |order| :: order[i] in pcs)
    && (forall i, j | 0 <= i < j < |order| :: order[i] != order[j])
    && (forall t | t in pcs :: t in order)
  }

  lemma {:induction false} BudgetDrops(pcs: map<Tid, Pc>, order: seq<Tid>, k: nat, pc: Pc)
    requires forall i | 0 <= i < |order| :: order[i] in pcs
    requires forall i, j | 0 <= i < j < |order| :: order[i] != order[j]
    requires k < |order| && Remaining(pc) < Remaining(pcs[order[k]])
    ensures Budget(pcs[order[k] := pc], order) < Budget(pcs, order)
    decreases |order|
  {
    if k == 0 {
      BudgetElsewhere(pcs, order[1..], order[0], pc);
    } else {
      BudgetDrops(pcs, order[1..], k - 1, pc);
    }
  }

  /** Every run is finite: no more than four steps for each calling thread. */
  lemma {:induction false} RunsAreBounded(s: State, run: seq<Action>, order: seq<Tid>)
    requires IsRun(s, run) && Lists(order, s.pcs)
    ensures |run| <= Budget(s.pcs, order)
    decreases |run|
  {
    if run == [] {
    } else {
      var t, s' := run[0].t, Next(s, run[0]);
      assert t in order;
      var k :| 0 <= k < |order| && order[k] == t;
      assert s'.pcs == s.pcs[t := s'.pcs[t]];
      BudgetDrops(s.pcs, order, k, s'.pcs[t]);
      RunsAreBounded(s', run[1..], order);
    }
  }

  lemma {:induction false} BudgetOfCallers(pcs: map<Tid, Pc>, order: seq<Tid>)
    requires forall i | 0 <= i < |order| :: order[i] in pcs && pcs[order[i]].Acquiring?
    ensures Budget(pcs, order) == 4 * |order|
  {
    if order == [] {
    } else {
      BudgetOfCallers(pcs, order[1..]);
    }
  }

  /** Total correctness for n callers: at most 4n steps are ever taken, and a run that cannot be
      extended has every call returned or raised, with the lock free. */
  lemma EveryCallCompletes(s: State, run: seq<Action>, order: seq<Tid>)
    requires Initial(s) && IsRun(s, run) && Lists(order, s.pcs)
    ensures |run| <= 4 * |order|
    ensures (forall a :: !Enabled(After(s, run), a)) ==>
              After(s, run).lock == None && forall t | t in After(s, run).pcs :: Finished(After(s, run).pcs[t])
  {
    hide Enabled, Next;
    RunInv(s, run);
    RunsAreBounded(s, run, order);
    BudgetOfCallers(s.pcs, order);
    if forall a :: !Enabled(After(s, run), a) {
      StuckOnlyWhenDone(After(s, run));
    }
  }
}
