/** pthread_once, composed with the mutex machine and the stack of clean-up handlers.

    `done` is read once without the mutex and once with it.  While init runs, a handler
    that unlocks the mutex is on the caller's stack, below anything init pushes itself; if
    init calls pthread_testcancel with a cancellation pending, the whole stack is executed
    and the thread ends. */
module Once {
  import opened Sums
  import opened Runs
  import opened Cleanup
  import M = Mutex

  datatype Pc =
    | Idle            // not in pthread_once
    | Read1           // read done
    | Locking         // in pthread_mutex_lock
    | Read2           // read done again, under the mutex
    | PushCleanup
    | Running         // in init
    | PopCleanup
    | SetDone
    | Unlocking       // in pthread_mutex_unlock
    | Cleaning        // cancelled: about to pop the next handler
    | CleanUnlock     // cancelled: in the handler's pthread_mutex_unlock
    | Dead

  /** Besides its program counter, a thread has its handlers (newest first) and, as history,
      how often pthread_once has returned to it, the handlers executed so far, and those
      a cancellation owes. */
  datatype Caller = Caller(pc: Pc, stack: seq<Handler>, answered: nat, executed: seq<Handler>, due: seq<Handler>)

  /** `completed` is history: how many calls of init have returned. */
  datatype State = State(mutex: M.State, done: bool, threads: seq<Caller>, completed: nat)

  datatype Act = CallOnce | PushUser(h: Handler) | PopUser(execute: bool) | Cancelled | InitReturns | Go

  datatype Event = Event(tid: nat, act: Act)

  /** The static function `cleanup`, whose address no other file has. */
  const UNLOCK: Handler := Handler(0, 0)

  predicate IsUser(h: Handler) { h.func != UNLOCK.func }

  predicate Has(s: State, t: nat) { t < |s.threads| && t < |s.mutex.threads| }

  function Put(s: State, t: nat, c: Caller): State
    requires t < |s.threads|
  {
    s.(threads := s.threads[t := c])
  }

  function At(s: State, t: nat, pc: Pc): State
    requires t < |s.threads|
  {
    Put(s, t, s.threads[t].(pc := pc))
  }

  function Return(s: State, t: nat): State
    requires t < |s.threads|
  {
    Put(s, t, s.threads[t].(pc := Idle, answered := s.threads[t].answered + 1))
  }

  /** Code that may run outside pthread_once or in init: it may push handlers and pop its
      own, and it may act upon a pending cancellation. */
  function UserAct(s: State, t: nat, act: Act): State
    requires t < |s.threads|
  {
    var c := s.threads[t];
    match act
    case PushUser(h) => if IsUser(h) then Put(s, t, c.(stack := [h] + c.stack)) else s
    case PopUser(execute) =>
      if c.stack != [] && IsUser(c.stack[0]) then
        Put(s, t, c.(stack := c.stack[1..], executed := if execute then c.executed + [c.stack[0]] else c.executed))
      else s
    case Cancelled => Put(s, t, c.(pc := Cleaning, due := c.executed + c.stack))
    case _ => s
  }

  function CallMutex(s: State, t: nat, act: M.Act, pc: Pc): State
    requires Has(s, t)
  {
    At(s.(mutex := M.Start(s.mutex, t, act)), t, pc)
  }

  /** The next access of the mutex function the thread is in; after the last, go on. */
  function InMutex(s: State, t: nat): State
    requires Has(s, t)
  {
    var m := M.Advance(s.mutex, t);
    var s' := s.(mutex := m);
    if !m.threads[t].pc.Ready? then s' else
      match s.threads[t].pc
      case Locking => At(s', t, Read2)
      case Unlocking => Return(s', t)
      case CleanUnlock => At(s', t, Cleaning)
      case _ => s'
  }

  /** pthread_cleanup_pop(1), once per round of the loop that empties the stack. */
  function CleanAccess(s: State, t: nat): State
    requires Has(s, t)
  {
    var c := s.threads[t];
    if c.stack == [] then At(s, t, Dead) else
      var h := c.stack[0];
      var s' := Put(s, t, c.(stack := c.stack[1..], executed := c.executed + [h]));
      if IsUser(h) then s' else CallMutex(s', t, M.CallUnlock, CleanUnlock)
  }

  function Advance(s: State, t: nat): State
    requires Has(s, t)
  {
    var c := s.threads[t];
    match c.pc
    case Read1 => if s.done then Return(s, t) else CallMutex(s, t, M.CallLock(false), Locking)
    case Read2 => if s.done then CallMutex(s, t, M.CallUnlock, Unlocking) else At(s, t, PushCleanup)
    case PushCleanup => Put(s, t, c.(pc := Running, stack := [UNLOCK] + c.stack))
    case PopCleanup => Put(s, t, c.(pc := SetDone, stack := if c.stack == [] then [] else c.stack[1..]))
    case SetDone => CallMutex(s.(done := true), t, M.CallUnlock, Unlocking)
    case Cleaning => CleanAccess(s, t)
    case Locking => InMutex(s, t)
    case Unlocking => InMutex(s, t)
    case CleanUnlock => InMutex(s, t)
    case _ => s
  }

  /** init can return only with its own handlers popped, the macros being block-bound. */
  function RunAct(s: State, t: nat, act: Act): State
    requires Has(s, t)
  {
    var c := s.threads[t];
    if act.InitReturns? then
      if c.stack != [] && !IsUser(c.stack[0]) then At(s, t, PopCleanup).(completed := s.completed + 1) else s
    else UserAct(s, t, act)
  }

  function Step(s: State, e: Event): State {
    var t := e.tid;
    if !Has(s, t) then s
    else
      match s.threads[t].pc
      case Idle => if e.act.CallOnce? then At(s, t, Read1) else UserAct(s, t, e.act)
      case Running => RunAct(s, t, e.act)
      case _ => if e.act.Go? then Advance(s, t) else s
  }

  /** PTHREAD_ONCE_INIT, with its normal mutex initialised. */
  ghost predicate Init(s: State) {
    && M.Init(s.mutex) && s.mutex.kind.Normal? && !s.done && s.completed == 0
    && |s.mutex.threads| == |s.threads|
    && forall t :: 0 <= t < |s.threads| ==> s.threads[t] == Caller(Idle, [], 0, [], [])
  }

  // ----- The invariant -----

  /** How many unlocks the handlers of a stack will make. */
  function Unlocks(stack: seq<Handler>): nat {
    if stack == [] then 0 else (if IsUser(stack[0]) then 0 else 1) + Unlocks(stack[1..])
  }

  /** init has returned, `done` not yet set. */
  function Finished(c: Caller): int { if c.pc.PopCleanup? || c.pc.SetDone? then 1 else 0 }

  /** A thread owes the mutex an unlock exactly while it is between lock and unlock, or while
      the handler that makes it is on its stack; until init is done, it finds done clear. */
  predicate ThreadOk(c: Caller, mt: M.Thread, done: bool) {
    && (c.answered > 0 ==> done)
    && match c.pc
       case Idle | Read1 => mt.pc.Ready? && M.Gross(mt) == 0 && Unlocks(c.stack) == 0
       case Locking => M.InUntimedLock(mt.pc) && M.Gross(mt) == 0 && Unlocks(c.stack) == 0
       case Read2 => mt.pc.Ready? && M.Gross(mt) == 1 && Unlocks(c.stack) == 0
       case PushCleanup | SetDone => mt.pc.Ready? && M.Gross(mt) == 1 && Unlocks(c.stack) == 0 && !done
       case Running => mt.pc.Ready? && M.Gross(mt) == 1 && Unlocks(c.stack) == 1 && !done
       case PopCleanup =>
         && mt.pc.Ready? && M.Gross(mt) == 1 && Unlocks(c.stack) == 1 && !done
         && c.stack != [] && !IsUser(c.stack[0])
       case Unlocking => M.InUnlock(mt.pc) && M.Gross(mt) == 1 && Unlocks(c.stack) == 0 && done
       case Cleaning =>
         && mt.pc.Ready? && M.Gross(mt) == Unlocks(c.stack) <= 1
         && c.executed + c.stack == c.due && (M.Gross(mt) == 1 ==> !done)
       case CleanUnlock =>
         && M.InUnlock(mt.pc) && M.Gross(mt) == 1 && Unlocks(c.stack) == 0
         && c.executed + c.stack == c.due && !done
       case Dead =>
         mt.pc.Ready? && M.Gross(mt) == 0 && c.stack == [] && c.executed == c.due
  }

  ghost predicate Inv(s: State) {
    && M.Inv(s.mutex) && s.mutex.kind.Normal? && |s.mutex.threads| == |s.threads|
    && s.completed == (if s.done then 1 else 0) + Sum(s.threads, Finished)
    && forall t :: 0 <= t < |s.threads| ==> ThreadOk(s.threads[t], s.mutex.threads[t], s.done)
  }

  lemma InitInv(s: State)
    requires Init(s)
    ensures Inv(s)
  {
    M.InitInv(s.mutex);
    SumBounds(s.threads, 0, 0, Finished);
  }

  /** Only one thread at a time has locked and not unlocked. */
  lemma OneInside(s: State, t: nat, u: nat)
    requires Inv(s) && t < |s.threads| && u < |s.threads| && t != u
    requires M.Gross(s.mutex.threads[t]) == 1
    ensures M.Gross(s.mutex.threads[u]) != 1
  {
    M.UnitsExclusive(s.mutex, t, u);
  }

  /** What one step of thread t does to everything but the mutex. */
  ghost predicate MoverPost(s: State, t: nat, s': State)
    requires Has(s, t)
  {
    && |s'.threads| == |s.threads| && s'.threads == s.threads[t := s'.threads[t]]
    && |s'.mutex.threads| == |s.mutex.threads|
    && ThreadOk(s'.threads[t], s'.mutex.threads[t], s'.done)
    && (s'.done == s.done || (s'.done && M.Gross(s.mutex.threads[t]) == 1))
    && s'.completed - s.completed
       == (if s'.done then 1 else 0) - (if s.done then 1 else 0) + Finished(s'.threads[t]) - Finished(s.threads[t])
  }

  lemma OthersKept(s: State, t: nat, s': State)
    requires Inv(s) && Has(s, t) && MoverPost(s, t, s') && M.Inv(s'.mutex) && s'.mutex.kind.Normal?
    requires forall u :: 0 <= u < |s.threads| && u != t ==> s'.mutex.threads[u] == s.mutex.threads[u]
    ensures Inv(s')
  {
    SumUpdate(s.threads, t, s'.threads[t], Finished);
    forall u | 0 <= u < |s'.threads| ensures ThreadOk(s'.threads[u], s'.mutex.threads[u], s'.done) {
      if u != t {
        assert ThreadOk(s.threads[u], s.mutex.threads[u], s.done);
        if s'.done != s.done {
          OneInside(s, t, u);
        }
      }
    }
  }

  lemma UserKeepsMover(s: State, t: nat, act: Act)
    requires Inv(s) && Has(s, t) && (s.threads[t].pc.Idle? || s.threads[t].pc.Running?)
    ensures MoverPost(s, t, UserAct(s, t, act))
  {
    var c := s.threads[t];
    assert ThreadOk(c, s.mutex.threads[t], s.done);
    match act
    case PushUser(h) =>
      assert ([h] + c.stack)[1..] == c.stack;
    case _ =>
      assert s.threads == s.threads[t := c];
  }

  /** The accesses that leave the mutex alone. */
  lemma PlainKeepsMover(s: State, t: nat)
    requires Inv(s) && Has(s, t)
    requires var pc := s.threads[t].pc;
      (pc.Read1? && s.done) || (pc.Read2? && !s.done) || pc.PushCleanup? || pc.PopCleanup?
    ensures MoverPost(s, t, Advance(s, t))
  {
    var c := s.threads[t];
    assert ThreadOk(c, s.mutex.threads[t], s.done);
    assert ([UNLOCK] + c.stack)[1..] == c.stack;
  }

  /** The accesses that end in a call of lock or unlock. */
  lemma CallKeepsMover(s: State, t: nat)
    requires Inv(s) && Has(s, t)
    requires var pc := s.threads[t].pc; (pc.Read1? && !s.done) || (pc.Read2? && s.done) || pc.SetDone?
    ensures MoverPost(s, t, Advance(s, t))
  {
    assert ThreadOk(s.threads[t], s.mutex.threads[t], s.done);
  }

  lemma CleanKeepsMover(s: State, t: nat)
    requires Inv(s) && Has(s, t) && s.threads[t].pc.Cleaning?
    ensures MoverPost(s, t, CleanAccess(s, t))
  {
    var c := s.threads[t];
    assert ThreadOk(c, s.mutex.threads[t], s.done);
    if c.stack == [] {
      assert c.executed + c.stack == c.executed;
    } else {
      assert c.executed + [c.stack[0]] + c.stack[1..] == c.executed + c.stack;
    }
  }

  /** A normal mutex's lock, on a thread that does not hold it, and unlock, on one that
      does: still inside, or returned with one lock or unlock more. */
  lemma MutexAccess(m: M.State, t: nat)
    requires M.Inv(m) && m.kind.Normal? && t < |m.threads|
    requires (M.InUntimedLock(m.threads[t].pc) && M.Gross(m.threads[t]) == 0)
          || (M.InUnlock(m.threads[t].pc) && M.Gross(m.threads[t]) == 1)
    ensures var mt, mt' := m.threads[t], M.Advance(m, t).threads[t];
      if mt'.pc.Ready? then M.Gross(mt') == 1 - M.Gross(mt)
      else
        && M.Gross(mt') == M.Gross(mt)
        && (M.InUntimedLock(mt.pc) ==> M.InUntimedLock(mt'.pc)) && (M.InUnlock(mt.pc) ==> M.InUnlock(mt'.pc))
  {
    M.InvGivesMoverPre(m, t);
  }

  lemma InMutexKeepsMover(s: State, t: nat)
    requires Inv(s) && Has(s, t)
    requires var pc := s.threads[t].pc; pc.Locking? || pc.Unlocking? || pc.CleanUnlock?
    ensures MoverPost(s, t, InMutex(s, t))
  {
    assert ThreadOk(s.threads[t], s.mutex.threads[t], s.done);
    MutexAccess(s.mutex, t);
    M.StepTouchesMover(s.mutex, M.Event(t, M.Go));
    assert s.threads == s.threads[t := s.threads[t]];
  }

  lemma AdvanceKeepsMover(s: State, t: nat)
    requires Inv(s) && Has(s, t) && !s.threads[t].pc.Idle? && !s.threads[t].pc.Running? && !s.threads[t].pc.Dead?
    ensures MoverPost(s, t, Advance(s, t))
  {
    match s.threads[t].pc
    case Locking | Unlocking | CleanUnlock => InMutexKeepsMover(s, t);
    case Cleaning => CleanKeepsMover(s, t);
    case PushCleanup | PopCleanup => PlainKeepsMover(s, t);
    case SetDone => CallKeepsMover(s, t);
    case Read1 =>
      if s.done {
        PlainKeepsMover(s, t);
      } else {
        CallKeepsMover(s, t);
      }
    case Read2 =>
      if s.done {
        CallKeepsMover(s, t);
      } else {
        PlainKeepsMover(s, t);
      }
  }

  /** What a step does to the mutex is nothing, or one lawful step of the same thread. */
  lemma MutexSteps(s: State, e: Event)
    requires Inv(s) && Has(s, e.tid)
    ensures var s' := Step(s, e);
      && M.Inv(s'.mutex) && s'.mutex.kind.Normal? && |s'.mutex.threads| == |s.mutex.threads|
      && forall u :: 0 <= u < |s.threads| && u != e.tid ==> s'.mutex.threads[u] == s.mutex.threads[u]
  {
    var t := e.tid;
    assert ThreadOk(s.threads[t], s.mutex.threads[t], s.done);
    if Step(s, e).mutex != s.mutex {
      var a := if !s.mutex.threads[t].pc.Ready? then M.Go
               else if s.threads[t].pc.Read1? then M.CallLock(false) else M.CallUnlock;
      assert Step(s, e).mutex == M.Step(s.mutex, M.Event(t, a));
      M.StepKeepsInv(s.mutex, M.Event(t, a));
      M.StepKeepsKind(s.mutex, M.Event(t, a));
      M.StepTouchesMover(s.mutex, M.Event(t, a));
    }
  }

  lemma StepKeepsInv(s: State, e: Event)
    requires Inv(s)
    ensures Inv(Step(s, e))
  {
    var t, s' := e.tid, Step(s, e);
    if Has(s, t) && s' != s {
      assert ThreadOk(s.threads[t], s.mutex.threads[t], s.done);
      MutexSteps(s, e);
      if s.threads[t].pc.Idle? || s.threads[t].pc.Running? {
        UserKeepsMover(s, t, e.act);
      } else {
        AdvanceKeepsMover(s, t);
      }
      OthersKept(s, t, s');
    }
  }

  lemma RunInv(s: State, es: seq<Event>)
    requires Init(s)
    ensures Inv(Exec(Step, s, es))
  {
    InitInv(s);
    forall x, e | Inv(x) ensures Inv(Step(x, e)) {
      StepKeepsInv(x, e);
    }
    InvariantOfRuns(Step, Inv, s, es);
  }
}
