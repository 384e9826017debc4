/** What pthread_once promises, in every run and after a cancelled init. */
module OnceTheorems {
  import opened Kernel
  import opened Sums
  import opened Runs
  import opened Once
  import C = Cleanup
  import M = Mutex

  // ----- Once and only once -----

  /** At most one init ever completes; whoever pthread_once has returned to, it returned
      after that; and init runs in at most one thread, only before one has completed. */
  ghost predicate OnceOnly(s: State) {
    && s.completed <= 1
    && (s.done ==> s.completed == 1)
    && (forall t :: 0 <= t < |s.threads| && s.threads[t].answered > 0 ==> s.completed == 1)
    && (forall t :: 0 <= t < |s.threads| && s.threads[t].pc.Running? ==> s.completed == 0)
    && forall t, u :: 0 <= t < u < |s.threads| ==> !(s.threads[t].pc.Running? && s.threads[u].pc.Running?)
  }

  lemma FinishedAlone(s: State, t: nat)
    requires Inv(s) && t < |s.threads| && M.Gross(s.mutex.threads[t]) == 1
    ensures Sum(s.threads, Finished) == Finished(s.threads[t])
  {
    var idle := s.threads[t].(pc := Idle);
    var xs := s.threads[t := idle];
    forall u | 0 <= u < |xs| ensures Finished(xs[u]) == 0 {
      if u != t {
        assert ThreadOk(s.threads[u], s.mutex.threads[u], s.done);
        OneInside(s, t, u);
      }
    }
    SumBounds(xs, 0, 0, Finished);
    SumUpdate(s.threads, t, idle, Finished);
  }

  lemma OnceOnlyIn(s: State)
    requires Inv(s)
    ensures OnceOnly(s)
  {
    forall t | 0 <= t < |s.threads|
      ensures ThreadOk(s.threads[t], s.mutex.threads[t], s.done)
      ensures s.threads[t].pc.Running? ==> s.completed == 0
    {
      if s.threads[t].pc.Running? {
        FinishedAlone(s, t);
      }
    }
    forall t, u | 0 <= t < u < |s.threads| && s.threads[t].pc.Running? ensures !s.threads[u].pc.Running? {
      OneInside(s, t, u);
    }
    SumNonNegative(s.threads, Finished);
    if Sum(s.threads, Finished) > 0 {
      var t := SumWitness(s.threads, Finished);
      FinishedAlone(s, t);
    }
  }

  lemma AtMostOneInitCompletes(s: State, es: seq<Event>)
    requires Init(s)
    ensures OnceOnly(Exec(Step, s, es))
  {
    RunInv(s, es);
    OnceOnlyIn(Exec(Step, s, es));
  }

  // ----- Nobody is stuck behind the mutex -----

  /** If the mutex's unit is out, a thread has it that can go on, or is running init. */
  ghost predicate SomebodyMoves(s: State) {
    s.mutex.sema.count == 0 ==>
      exists t :: 0 <= t < |s.threads| && (s.threads[t].pc.Running? || Step(s, Event(t, Go)) != s)
  }

  lemma HolderMoves(s: State, t: nat)
    requires Inv(s) && t < |s.threads| && M.Units(s.mutex.threads[t]) > 0 && !s.threads[t].pc.Running?
    ensures Step(s, Event(t, Go)) != s
  {
    assert ThreadOk(s.threads[t], s.mutex.threads[t], s.done);
    M.InvGivesMoverPre(s.mutex, t);
    var s' := Step(s, Event(t, Go));
    assert s'.threads[t] != s.threads[t] || s'.mutex.threads[t] != s.mutex.threads[t];
  }

  lemma NeverStuck(s: State, es: seq<Event>)
    requires Init(s)
    ensures SomebodyMoves(Exec(Step, s, es))
  {
    RunInv(s, es);
    var x := Exec(Step, s, es);
    if x.mutex.sema.count == 0 {
      var t := SumWitness(x.mutex.threads, M.Units);
      if !x.threads[t].pc.Running? {
        HolderMoves(x, t);
      }
    }
  }

  // ----- A cancelled init -----

  ghost predicate OnlyBy(es: seq<Event>, t: nat) { forall i :: 0 <= i < |es| ==> es[i].tid == t }

  function Handlers(s: State, t: nat): C.State
    requires t < |s.threads|
  {
    C.State(s.threads[t].stack, s.threads[t].executed)
  }

  /** What a run of one thread does not touch. */
  ghost predicate Elsewhere(s: State, s': State, t: nat) {
    && s'.done == s.done && s'.completed == s.completed && |s'.threads| == |s.threads|
    && forall u :: 0 <= u < |s.threads| && u != t ==> s'.threads[u] == s.threads[u]
  }

  /** One access of an unlock of a normal mutex, by the thread that holds it. */
  lemma UnlockNearer(m: M.State, t: nat)
    requires M.MoverPre(m, t) && m.kind.Normal? && M.InUnlock(m.threads[t].pc) && M.Gross(m.threads[t]) == 1
    ensures var m' := M.UnlockAccess(m, t);
      && |m'.threads| == |m.threads|
      && (if m.threads[t].pc.UnlockPost? then m'.threads[t].pc.Ready? && m'.sema.count == 1
          else M.InUnlock(m'.threads[t].pc) && Left(m'.threads[t].pc) < Left(m.threads[t].pc))
  {
  }

  /** One access of the handler's unlock, by the thread that holds the mutex. */
  lemma UnlockMoves(s: State, t: nat)
    requires Inv(s) && Has(s, t) && s.threads[t].pc.CleanUnlock?
    ensures var s', pc := Step(s, Event(t, Go)), s.mutex.threads[t].pc;
      && Inv(s') && Elsewhere(s, s', t) && s'.threads[t].stack == s.threads[t].stack
      && s'.threads[t].executed == s.threads[t].executed && s'.threads[t].due == s.threads[t].due
      && (if pc.UnlockPost? then s'.threads[t].pc.Cleaning? && s'.mutex.sema.count == 1
          else s'.threads[t].pc.CleanUnlock? && Left(s'.mutex.threads[t].pc) < Left(pc))
  {
    assert ThreadOk(s.threads[t], s.mutex.threads[t], s.done);
    StepKeepsInv(s, Event(t, Go));
    M.InvGivesMoverPre(s.mutex, t);
    UnlockNearer(s.mutex, t);
  }

  /** Accesses left in an unlock of a normal mutex. */
  function Left(pc: M.Pc): nat {
    if pc.UnlockTest? then 3 else if pc.UnlockNull? then 2 else if pc.UnlockClear? then 1 else 0
  }

  /** Undisturbed, a cancelled thread executes its handlers newest first, each once, and
      dies; if the mutex was its, the mutex is then free, with `done` as it was. */
  lemma {:induction false} CleansUp(s: State, t: nat) returns (es: seq<Event>, s': State)
    requires Inv(s) && Has(s, t) && (s.threads[t].pc.Cleaning? || s.threads[t].pc.CleanUnlock?)
    ensures OnlyBy(es, t) && s' == Exec(Step, s, es) && Inv(s') && Elsewhere(s, s', t)
    ensures s'.threads[t].pc.Dead? && s'.threads[t].executed == s.threads[t].due
    ensures M.Gross(s.mutex.threads[t]) == 1 || s.mutex.sema.count == 1 ==> s'.mutex.sema.count == 1
    decreases |s.threads[t].stack|, s.threads[t].pc.CleanUnlock?, Left(s.mutex.threads[t].pc)
  {
    var go := Event(t, Go);
    var x := Step(s, go);
    StepKeepsInv(s, go);
    assert ThreadOk(s.threads[t], s.mutex.threads[t], s.done);
    ExecOne(Step, s, go);
    if s.threads[t].pc.Cleaning? && s.threads[t].stack == [] {
      es, s' := [go], x;
      assert s.threads[t].executed + s.threads[t].stack == s.threads[t].executed;
    } else {
      if s.threads[t].pc.CleanUnlock? {
        UnlockMoves(s, t);
      } else {
        PopMoves(s, t);
      }
      es, s' := CleansUp(x, t);
      ExecCons(Step, s, go, es);
      es := [go] + es;
    }
  }

  lemma PopMoves(s: State, t: nat)
    requires Inv(s) && Has(s, t) && s.threads[t].pc.Cleaning? && s.threads[t].stack != []
    ensures var s' := Step(s, Event(t, Go));
      && Elsewhere(s, s', t) && |s'.threads[t].stack| < |s.threads[t].stack|
      && s'.threads[t].due == s.threads[t].due && s'.mutex.sema == s.mutex.sema
      && M.Gross(s'.mutex.threads[t]) == M.Gross(s.mutex.threads[t])
      && (s'.threads[t].pc.Cleaning? || s'.threads[t].pc.CleanUnlock?)
  {
    assert ThreadOk(s.threads[t], s.mutex.threads[t], s.done);
  }

  /** On the way from the call to init: accesses still to make. */
  function ToInit(c: Caller, mt: M.Thread): nat {
    match c.pc
    case Read1 => 6
    case Locking => if mt.pc.LockTest? then 5 else if mt.pc.LockWait? then 4 else 3
    case Read2 => 2
    case PushCleanup => 1
    case _ => 0
  }

  ghost predicate OnTheWay(s: State, u: nat) {
    && Inv(s) && Has(s, u) && !s.done
    && var pc := s.threads[u].pc;
       && (pc.Read1? || pc.Locking? || pc.Read2? || pc.PushCleanup?)
       && (pc.Read1? || (pc.Locking? && !s.mutex.threads[u].pc.OwnWrite?) ==> s.mutex.sema.count == 1)
  }

  /** With init not done and the mutex free, each access brings it nearer. */
  lemma Approaches(s: State, u: nat)
    requires OnTheWay(s, u)
    ensures var s' := Step(s, Event(u, Go));
      && Elsewhere(s, s', u)
      && ((s.threads[u].pc.PushCleanup? && s'.threads[u].pc.Running?)
          || (OnTheWay(s', u) && ToInit(s'.threads[u], s'.mutex.threads[u]) < ToInit(s.threads[u], s.mutex.threads[u])))
  {
    assert ThreadOk(s.threads[u], s.mutex.threads[u], s.done);
    M.InvGivesMoverPre(s.mutex, u);
    StepKeepsInv(s, Event(u, Go));
  }

  lemma {:induction false} ReachesInit(s: State, u: nat) returns (es: seq<Event>, s': State)
    requires OnTheWay(s, u)
    ensures OnlyBy(es, u) && s' == Exec(Step, s, es) && Elsewhere(s, s', u) && s'.threads[u].pc.Running?
    decreases ToInit(s.threads[u], s.mutex.threads[u])
  {
    var go := Event(u, Go);
    var x := Step(s, go);
    Approaches(s, u);
    ExecOne(Step, s, go);
    if x.threads[u].pc.Running? {
      es, s' := [go], x;
    } else {
      es, s' := ReachesInit(x, u);
      ExecCons(Step, s, go, es);
      es := [go] + es;
    }
  }

  /** Not past its wait for the mutex: idle, about to call, or blocked in the lock call. */
  predicate AtTheDoor(s: State, u: nat) {
    && Has(s, u)
    && (s.threads[u].pc.Idle? || s.threads[u].pc.Read1?
        || (s.threads[u].pc.Locking? && !s.mutex.threads[u].pc.OwnWrite?))
  }

  /** A thread that finds init not done and the mutex free gets to run init, be it a new
      caller or one that has been waiting for the mutex. */
  lemma {:induction false} CallerRunsInit(s: State, u: nat) returns (es: seq<Event>, s': State)
    requires Inv(s) && AtTheDoor(s, u) && !s.done && s.mutex.sema.count == 1
    ensures OnlyBy(es, u) && s' == Exec(Step, s, es) && Elsewhere(s, s', u) && s'.threads[u].pc.Running?
  {
    if s.threads[u].pc.Idle? {
      var call := Event(u, CallOnce);
      StepKeepsInv(s, call);
      es, s' := ReachesInit(Step(s, call), u);
      ExecCons(Step, s, call, es);
      es := [call] + es;
    } else {
      es, s' := ReachesInit(s, u);
    }
  }

  // ----- ... among other threads -----

  /** Thread t has been cancelled in x, and is on its way through the handlers it had then. */
  ghost predicate CleansUpAfter(x: State, t: nat, y: State)
    requires t < |x.threads|
  {
    && Inv(y) && |y.threads| == |x.threads|
    && Cancelling(y.threads[t])
    && y.threads[t].due == C.RunAll(Handlers(x, t)).executed
  }

  /** What holds of a cancelled thread at every point: it has executed the newest of its
      handlers, in order; if it is dead, all of them, and it has given up the mutex; and for
      as long as it has the mutex, `done` is 0. */
  ghost predicate CleansUpSafely(x: State, t: nat, y: State)
    requires t < |x.threads|
  {
    && |y.threads| == |x.threads| == |y.mutex.threads|
    && Cancelling(y.threads[t])
    && y.threads[t].executed <= C.RunAll(Handlers(x, t)).executed
    && (y.threads[t].pc.Dead? ==>
          && y.threads[t].executed == C.RunAll(Handlers(x, t)).executed && y.threads[t].stack == []
          && y.mutex.threads[t].pc.Ready? && M.Gross(y.mutex.threads[t]) == 0 && y.mutex.owner != Some(t))
    && (M.Gross(y.mutex.threads[t]) == 1 ==> !y.done)
  }

  /** Accesses a cancelled thread still has to make. */
  function ToDeath(c: Caller, mt: M.Thread): nat {
    match c.pc
    case Cleaning => 5 * |c.stack| + 1
    case CleanUnlock => 5 * |c.stack| + 2 + Left(mt.pc)
    case _ => 0
  }

  predicate Cancelling(c: Caller) { c.pc.Cleaning? || c.pc.CleanUnlock? || c.pc.Dead? }

  /** The cancelled thread's own access. */
  lemma OwnCleanStep(y: State, t: nat)
    requires Inv(y) && Has(y, t) && Cancelling(y.threads[t]) && !y.threads[t].pc.Dead?
    ensures var y' := Step(y, Event(t, Go));
      && |y'.threads| == |y.threads| == |y'.mutex.threads| && Cancelling(y'.threads[t])
      && y'.threads[t].due == y.threads[t].due
      && ToDeath(y'.threads[t], y'.mutex.threads[t]) < ToDeath(y.threads[t], y.mutex.threads[t])
  {
    MutexSteps(y, Event(t, Go));
    if y.threads[t].pc.CleanUnlock? {
      UnlockMoves(y, t);
    } else if y.threads[t].stack != [] {
      PopMoves(y, t);
    }
  }

  /** Anything else leaves it where it is. */
  lemma OtherStep(y: State, t: nat, e: Event)
    requires Inv(y) && Has(y, t) && Cancelling(y.threads[t]) && (e != Event(t, Go) || y.threads[t].pc.Dead?)
    ensures var y' := Step(y, e);
      && |y'.threads| == |y.threads| == |y'.mutex.threads| && y'.threads[t] == y.threads[t]
      && y'.mutex.threads[t] == y.mutex.threads[t]
  {
    if e.tid == t {
      assert Step(y, e) == y;
    } else {
      AnotherStep(y, t, e);
    }
  }

  lemma AnotherStep(y: State, t: nat, e: Event)
    requires Inv(y) && Has(y, t) && e.tid != t
    ensures var y' := Step(y, e);
      && |y'.threads| == |y.threads| == |y'.mutex.threads| && y'.threads[t] == y.threads[t]
      && y'.mutex.threads[t] == y.mutex.threads[t]
  {
    if Has(y, e.tid) {
      MutexSteps(y, e);
    }
  }

  lemma StepCleansUp(x: State, t: nat, y: State, e: Event)
    requires t < |x.threads| && CleansUpAfter(x, t, y)
    ensures CleansUpAfter(x, t, Step(y, e))
    ensures var y' := Step(y, e);
      var n, n' := ToDeath(y.threads[t], y.mutex.threads[t]), ToDeath(y'.threads[t], y'.mutex.threads[t]);
      y'.threads[t].pc.Dead? || if e == Event(t, Go) then n' < n else n' == n
  {
    StepKeepsInv(y, e);
    if e == Event(t, Go) && !y.threads[t].pc.Dead? {
      OwnCleanStep(y, t);
    } else {
      OtherStep(y, t, e);
    }
  }

  lemma {:induction false} RunCleansUp(x: State, t: nat, y: State, es: seq<Event>)
    requires t < |x.threads| && CleansUpAfter(x, t, y)
    ensures CleansUpAfter(x, t, Exec(Step, y, es))
  {
    if es != [] {
      RunCleansUp(x, t, y, es[..|es| - 1]);
      StepCleansUp(x, t, Exec(Step, y, es[..|es| - 1]), es[|es| - 1]);
    }
  }

  lemma SafeIn(x: State, t: nat, y: State)
    requires t < |x.threads| && CleansUpAfter(x, t, y)
    ensures CleansUpSafely(x, t, y)
  {
    assert ThreadOk(y.threads[t], y.mutex.threads[t], y.done);
    M.InvGivesMoverPre(y.mutex, t);
    if y.threads[t].pc.Dead? {
      assert y.threads[t].executed == y.threads[t].due;
    }
  }

  lemma CancelStarts(x: State, t: nat)
    requires Inv(x) && Has(x, t) && x.threads[t].pc.Running?
    ensures CleansUpAfter(x, t, Step(x, Event(t, Cancelled)))
  {
    StepKeepsInv(x, Event(t, Cancelled));
    C.RunAllIsNewestFirst(Handlers(x, t));
  }

  /** An init cancelled at any point of any run, and anything that anybody does after that. */
  lemma {:induction false} CancelledInitIsSafe(s: State, es: seq<Event>, t: nat, x: State, fs: seq<Event>)
    requires Init(s) && x == Exec(Step, s, es) && Has(x, t) && x.threads[t].pc.Running?
    ensures CleansUpSafely(x, t, Exec(Step, Step(x, Event(t, Cancelled)), fs))
  {
    RunInv(s, es);
    CancelStarts(x, t);
    RunCleansUp(x, t, Step(x, Event(t, Cancelled)), fs);
    SafeIn(x, t, Exec(Step, Step(x, Event(t, Cancelled)), fs));
  }

  /** No step of anybody else holds a cancelled thread up: it is dead after at most five
      accesses for each of its handlers and one more. */
  lemma {:induction false} OwnStepsAdvance(x: State, t: nat, y: State, es: seq<Event>)
    requires t < |x.threads| && CleansUpAfter(x, t, y)
    ensures var z := Exec(Step, y, es);
      && CleansUpAfter(x, t, z)
      && (z.threads[t].pc.Dead?
          || ToDeath(z.threads[t], z.mutex.threads[t]) + Occurrences(es, Event(t, Go))
             <= ToDeath(y.threads[t], y.mutex.threads[t]))
  {
    if es != [] {
      var k := |es| - 1;
      OwnStepsAdvance(x, t, y, es[..k]);
      StepCleansUp(x, t, Exec(Step, y, es[..k]), es[k]);
    }
  }

  lemma {:induction false} CancelledThreadDies(s: State, es: seq<Event>, t: nat, x: State, fs: seq<Event>)
    requires Init(s) && x == Exec(Step, s, es) && Has(x, t) && x.threads[t].pc.Running?
    requires Occurrences(fs, Event(t, Go)) >= 5 * |x.threads[t].stack| + 1
    ensures CleansUpSafely(x, t, Exec(Step, Step(x, Event(t, Cancelled)), fs))
    ensures Exec(Step, Step(x, Event(t, Cancelled)), fs).threads[t].pc.Dead?
  {
    CancelledInitIsSafe(s, es, t, x, fs);
    RunInv(s, es);
    CancelStarts(x, t);
    DiesIn(x, t, Step(x, Event(t, Cancelled)), fs);
  }

  lemma DiesIn(x: State, t: nat, y: State, fs: seq<Event>)
    requires t < |x.threads| && CleansUpAfter(x, t, y)
    requires Occurrences(fs, Event(t, Go)) >= ToDeath(y.threads[t], y.mutex.threads[t])
    ensures CleansUpAfter(x, t, Exec(Step, y, fs)) && Exec(Step, y, fs).threads[t].pc.Dead?
  {
    OwnStepsAdvance(x, t, y, fs);
  }

  /** An init cancelled at any point of any run: left to itself, the thread executes its
      handlers newest first and frees the mutex with `done` still 0, and then the next
      caller can run init, whether it comes afterwards or was waiting for the mutex all
      along. */
  lemma {:induction false} CancelledInitCanBeRetried(s: State, es: seq<Event>, t: nat, u: nat, x: State)
    returns (fs: seq<Event>, gs: seq<Event>, y: State, z: State)
    requires Init(s) && x == Exec(Step, s, es)
    requires Has(x, t) && x.threads[t].pc.Running? && AtTheDoor(x, u)
    ensures OnlyBy(fs, t) && y == Exec(Step, Step(x, Event(t, Cancelled)), fs) && |y.threads| == |x.threads|
    ensures y.threads[t].pc.Dead? && Handlers(y, t) == C.RunAll(Handlers(x, t))
    ensures !y.done && y.mutex.sema.count == 1
    ensures OnlyBy(gs, u) && z == Exec(Step, y, gs) && |z.threads| == |x.threads| && z.threads[u].pc.Running?
  {
    RunInv(s, es);
    fs, gs, y, z := RetryIn(x, t, u);
  }

  /** A run of one thread leaves every other thread's record in the mutex alone. */
  lemma {:induction false} MutexElsewhere(s: State, u: nat, t: nat, es: seq<Event>)
    requires Inv(s) && Has(s, u) && OnlyBy(es, t) && u != t
    ensures Inv(Exec(Step, s, es)) && Has(Exec(Step, s, es), u)
    ensures Exec(Step, s, es).mutex.threads[u] == s.mutex.threads[u]
  {
    if es != [] {
      var k := |es| - 1;
      MutexElsewhere(s, u, t, es[..k]);
      var x := Exec(Step, s, es[..k]);
      StepKeepsInv(x, es[k]);
      if Has(x, t) {
        MutexSteps(x, es[k]);
      }
    }
  }

  lemma RetryIn(x: State, t: nat, u: nat) returns (fs: seq<Event>, gs: seq<Event>, y: State, z: State)
    requires Inv(x) && Has(x, t) && x.threads[t].pc.Running? && AtTheDoor(x, u)
    ensures OnlyBy(fs, t) && y == Exec(Step, Step(x, Event(t, Cancelled)), fs)
    ensures |y.threads| == |x.threads|
    ensures y.threads[t].pc.Dead? && Handlers(y, t) == C.RunAll(Handlers(x, t))
    ensures !y.done && y.mutex.sema.count == 1
    ensures OnlyBy(gs, u) && z == Exec(Step, y, gs) && |z.threads| == |x.threads| && z.threads[u].pc.Running?
  {
    assert ThreadOk(x.threads[t], x.mutex.threads[t], x.done);
    var c := Step(x, Event(t, Cancelled));
    StepKeepsInv(x, Event(t, Cancelled));
    fs, y := CleansUp(c, t);
    MutexElsewhere(c, u, t, fs);
    gs, z := CallerRunsInit(y, u);
    C.RunAllIsNewestFirst(Handlers(x, t));
    assert ThreadOk(y.threads[t], y.mutex.threads[t], y.done);
  }
}
