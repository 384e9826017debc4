/** What a whole call of pthread_once does and returns, whatever the other threads do between
    its accesses and whatever handlers init pushes and pops. */
module OnceCalls {
  import opened Kernel
  import opened Sums
  import opened Runs
  import opened Cleanup
  import opened Once
  import M = Mutex
  import MC = MutexCalls

  /** In a call that has neither returned nor been cancelled. */
  predicate Busy(s: Once.State, t: nat) {
    && Has(s, t)
    && var pc := s.threads[t].pc;
       !pc.Idle? && !pc.Dead? && !pc.Cleaning? && !pc.CleanUnlock?
  }

  /** The caller's own handlers lie below those of the call: the one that unlocks, while it
      is pushed, and above it those of init. */
  predicate Above(stack: seq<Handler>, base: seq<Handler>) {
    exists n :: 0 < n <= |stack| && stack[n..] == base && !IsUser(stack[n - 1])
      && forall i :: 0 <= i < n - 1 ==> IsUser(stack[i])
  }

  predicate Layered(pc: Once.Pc, stack: seq<Handler>, base: seq<Handler>) {
    if pc.Running? || pc.PopCleanup? then Above(stack, base) else stack == base
  }

  ghost predicate Underway(c0: Caller, s: Once.State, t: nat) {
    && Inv(s) && Busy(s, t) && s.threads[t].answered == c0.answered
    && Layered(s.threads[t].pc, s.threads[t].stack, c0.stack)
  }

  /** What the call has returned: init is done, the caller's handlers are as they were, and
      it does not hold the mutex. */
  ghost predicate Verdict(c0: Caller, s: Once.State, t: nat) {
    && Has(s, t) && s.threads[t].pc.Idle? && s.done && s.completed == 1
    && s.threads[t].answered == c0.answered + 1 && s.threads[t].stack == c0.stack
    && M.Gross(s.mutex.threads[t]) == 0
  }

  /** It has been cancelled, in init. */
  ghost predicate WasCancelled(c0: Caller, s: Once.State, t: nat) {
    && Has(s, t) && s.threads[t].pc.Cleaning? && Above(s.threads[t].stack, c0.stack) && !s.done
  }

  lemma PushLayer(base: seq<Handler>)
    ensures Above([UNLOCK] + base, base)
  {
    assert ([UNLOCK] + base)[1..] == base;
  }

  lemma PushUserLayer(h: Handler, stack: seq<Handler>, base: seq<Handler>)
    requires Above(stack, base) && IsUser(h)
    ensures Above([h] + stack, base)
  {
    var n :| 0 < n <= |stack| && stack[n..] == base && !IsUser(stack[n - 1])
      && forall i :: 0 <= i < n - 1 ==> IsUser(stack[i]);
    var up := [h] + stack;
    assert up[n + 1..] == base && up[n] == stack[n - 1];
    forall i | 0 <= i < n ensures IsUser(up[i]) {
      assert i == 0 || up[i] == stack[i - 1];
    }
  }

  lemma PopLayer(stack: seq<Handler>, base: seq<Handler>)
    requires Above(stack, base)
    ensures stack != []
    ensures if IsUser(stack[0]) then Above(stack[1..], base) else stack[1..] == base
  {
    var n :| 0 < n <= |stack| && stack[n..] == base && !IsUser(stack[n - 1])
      && forall i :: 0 <= i < n - 1 ==> IsUser(stack[i]);
    if IsUser(stack[0]) {
      var down := stack[1..];
      assert down[n - 1..] == base && !IsUser(down[n - 2]);
      forall i | 0 <= i < n - 2 ensures IsUser(down[i]) {
        assert down[i] == stack[i + 1];
      }
    }
  }

  /** What the event e, which leads to s', does to t's call. */
  ghost predicate GoesOn(c0: Caller, s': Once.State, t: nat) {
    Underway(c0, s', t) || Verdict(c0, s', t) || WasCancelled(c0, s', t)
  }

  lemma RunningStep(c0: Caller, s: Once.State, t: nat, act: Act)
    requires Underway(c0, s, t) && s.threads[t].pc.Running?
    ensures GoesOn(c0, Step(s, Event(t, act)), t)
  {
    var c := s.threads[t];
    StepKeepsInv(s, Event(t, act));
    assert ThreadOk(c, s.mutex.threads[t], s.done);
    PopLayer(c.stack, c0.stack);
    if act.PushUser? && IsUser(act.h) {
      PushUserLayer(act.h, c.stack, c0.stack);
    }
  }

  lemma OwnStep(c0: Caller, s: Once.State, t: nat, act: Act)
    requires Underway(c0, s, t) && !s.threads[t].pc.Running?
    ensures GoesOn(c0, Step(s, Event(t, act)), t)
  {
    var s' := Step(s, Event(t, act));
    StepKeepsInv(s, Event(t, act));
    LayersKept(c0, s, t, act);
    if s'.threads[t].pc.Idle? {
      assert ThreadOk(s'.threads[t], s'.mutex.threads[t], s'.done);
      DoneMeansCompleted(s');
    }
  }

  lemma LayersKept(c0: Caller, s: Once.State, t: nat, act: Act)
    requires Underway(c0, s, t) && !s.threads[t].pc.Running?
    ensures var s' := Step(s, Event(t, act));
      && Has(s', t)
      && var c' := s'.threads[t];
      && (if c'.pc.Idle? then c'.stack == c0.stack && c'.answered == c0.answered + 1 && s'.done
          else Busy(s', t) && c'.answered == c0.answered && Layered(c'.pc, c'.stack, c0.stack))
  {
    var c := s.threads[t];
    assert ThreadOk(c, s.mutex.threads[t], s.done);
    if c.pc.PushCleanup? {
      PushLayer(c0.stack);
    } else if c.pc.PopCleanup? {
      PopLayer(c.stack, c0.stack);
    }
  }

  lemma DoneMeansCompleted(s: Once.State)
    requires Inv(s) && s.done
    ensures s.completed == 1
  {
    forall u | 0 <= u < |s.threads| ensures Finished(s.threads[u]) == 0 {
      assert ThreadOk(s.threads[u], s.mutex.threads[u], s.done);
    }
    SumBounds(s.threads, 0, 0, Finished);
  }

  lemma OthersStep(c0: Caller, s: Once.State, t: nat, e: Once.Event)
    requires Underway(c0, s, t) && e.tid != t
    ensures Underway(c0, Step(s, e), t)
  {
    StepKeepsInv(s, e);
    OthersRecord(s, t, e);
  }

  lemma OthersRecord(s: Once.State, t: nat, e: Once.Event)
    requires t < |s.threads| && e.tid != t
    ensures |Step(s, e).threads| == |s.threads| && Step(s, e).threads[t] == s.threads[t]
  {
  }

  lemma UnderwayStep(c0: Caller, s: Once.State, t: nat, e: Once.Event)
    requires Underway(c0, s, t)
    ensures GoesOn(c0, Step(s, e), t)
  {
    if e.tid != t {
      OthersStep(c0, s, t, e);
    } else if s.threads[t].pc.Running? {
      RunningStep(c0, s, t, e.act);
    } else {
      OwnStep(c0, s, t, e.act);
    }
  }

  /** The verdict of every call, in every run: it returns only with init done, the caller's
      handlers untouched and the mutex given up, unless it is cancelled in init, with its
      handlers and the one that unlocks still to run and `done` still 0. */
  lemma {:induction false} CallVerdict(s: Once.State, t: nat, es: seq<Once.Event>, last: Once.Event)
    requires Inv(s) && Has(s, t) && s.threads[t].pc.Idle?
    ensures var s1 := Step(s, Event(t, CallOnce));
      var s' := Step(Exec(Step, s1, es), last);
      Always(Step, s1, es, x => Busy(x, t)) && !Busy(s', t) ==>
        Verdict(s.threads[t], s', t) || WasCancelled(s.threads[t], s', t)
  {
    var s1 := Step(s, Event(t, CallOnce));
    StepKeepsInv(s, Event(t, CallOnce));
    if Always(Step, s1, es, x => Busy(x, t)) {
      var c0 := s.threads[t];
      var inside := (x: Once.State) => Busy(x, t);
      var keeps := (x: Once.State) => Underway(c0, x, t);
      forall x, e | keeps(x) && inside(Step(x, e)) ensures keeps(Step(x, e)) {
        UnderwayStep(c0, x, t, e);
      }
      KeptInside(Step, s1, es, inside, keeps);
      UnderwayStep(c0, Exec(Step, s1, es), t, last);
    }
  }

  // ----- No call waits without need -----

  /** Accesses a call has left, at most, init itself not counted. */
  function ToReturn(c: Caller, mt: M.Thread): nat {
    match c.pc
    case Read1 => 18
    case Locking => 14 + MC.Left(mt.pc)
    case Read2 => 14
    case PushCleanup => 13
    case Running => 12
    case PopCleanup => 11
    case SetDone => 10
    case Unlocking => MC.Left(mt.pc)
    case _ => 0
  }

  /** Every access of a call brings it nearer to its return, except that it waits for the
      mutex while some thread has it; a caller that finds `done` set is returned to at once,
      the mutex untouched. */
  lemma Advances(s: Once.State, t: nat)
    requires Inv(s) && Busy(s, t) && !s.threads[t].pc.Running?
    ensures var s' := Step(s, Event(t, Go));
      && Has(s', t)
      && (ToReturn(s'.threads[t], s'.mutex.threads[t]) < ToReturn(s.threads[t], s.mutex.threads[t])
          || (s' == s && s.threads[t].pc.Locking?
              && exists u :: 0 <= u < |s.threads| && M.Units(s.mutex.threads[u]) == 1))
      && (s.threads[t].pc.Read1? && s.done ==> s'.threads[t].pc.Idle? && s'.mutex == s.mutex)
  {
    assert ThreadOk(s.threads[t], s.mutex.threads[t], s.done);
    if s.threads[t].pc.Locking? {
      LockingAdvances(s, t);
    } else if s.threads[t].pc.Unlocking? {
      MC.UnlockAdvances(s.mutex, t);
    }
  }

  lemma LockingAdvances(s: Once.State, t: nat)
    requires Inv(s) && Has(s, t) && s.threads[t].pc.Locking?
    ensures var s' := Step(s, Event(t, Go));
      && Has(s', t)
      && (ToReturn(s'.threads[t], s'.mutex.threads[t]) < ToReturn(s.threads[t], s.mutex.threads[t])
          || (s' == s && exists u :: 0 <= u < |s.threads| && M.Units(s.mutex.threads[u]) == 1))
  {
    assert ThreadOk(s.threads[t], s.mutex.threads[t], s.done);
    MC.LockAdvances(s.mutex, t);
    MutexAccess(s.mutex, t);
    if s.mutex.sema.count == 0 {
      var u := SumWitness(s.mutex.threads, M.Units);
      M.UnitsBound(s.mutex, u);
    }
  }

  /** init, once its own handlers are popped, can return, and the call then goes on. */
  lemma InitCanReturn(c0: Caller, s: Once.State, t: nat)
    requires Underway(c0, s, t) && s.threads[t].pc.Running?
    ensures s.threads[t].stack != []
    ensures !IsUser(s.threads[t].stack[0]) ==>
      var s' := Step(s, Event(t, InitReturns)); Has(s', t) && s'.threads[t].pc.PopCleanup? && s'.completed == 1
  {
    PopLayer(s.threads[t].stack, c0.stack);
    FinishedNow(s, t);
  }

  lemma FinishedNow(s: Once.State, t: nat)
    requires Inv(s) && Has(s, t) && s.threads[t].pc.Running?
    ensures s.completed == 0
  {
    assert ThreadOk(s.threads[t], s.mutex.threads[t], s.done);
    forall u | 0 <= u < |s.threads| ensures Finished(s.threads[u]) == 0 {
      assert ThreadOk(s.threads[u], s.mutex.threads[u], s.done);
      if u != t {
        OneInside(s, t, u);
      }
    }
    SumBounds(s.threads, 0, 0, Finished);
  }

  // ----- What becomes of a handler -----

  /** The events by which t pushes h ... */
  function Pushes(t: nat, h: Handler): (Once.State, Once.Event) -> bool {
    (x: Once.State, e: Once.Event) =>
      e.tid == t && Has(x, t) && Has(Step(x, e), t) && Step(x, e).threads[t].stack == [h] + x.threads[t].stack
  }

  /** ... and by which it pops h without executing it: its own pop(0), and that of the call. */
  function Discards(t: nat, h: Handler): (Once.State, Once.Event) -> bool {
    (x: Once.State, e: Once.Event) =>
      && e.tid == t && Has(x, t) && x.threads[t].stack != [] && x.threads[t].stack[0] == h
      && var pc := x.threads[t].pc;
         if pc.PopCleanup? then e.act.Go? else IsUser(h) && (pc.Idle? || pc.Running?) && e.act == PopUser(false)
  }

  /** How often h stands on the stack or has been executed. */
  function Kept(c: Caller, h: Handler): nat { multiset(c.stack)[h] + multiset(c.executed)[h] }

  datatype Move = Still | Pushing(h: Handler) | Executing | Discarding

  predicate Moved(m: Move, c: Caller, c': Caller) {
    match m
    case Still => c'.stack == c.stack && c'.executed == c.executed
    case Pushing(h) => c'.stack == [h] + c.stack && c'.executed == c.executed
    case Executing => c.stack != [] && c'.stack == c.stack[1..] && c'.executed == c.executed + [c.stack[0]]
    case Discarding => c.stack != [] && c'.stack == c.stack[1..] && c'.executed == c.executed
  }

  lemma KeptByMove(m: Move, c: Caller, c': Caller, h: Handler)
    requires Moved(m, c, c')
    ensures c'.stack == [h] + c.stack <==> m == Pushing(h)
    ensures Kept(c', h) + (if m.Discarding? && c.stack[0] == h then 1 else 0)
         == Kept(c, h) + (if m == Pushing(h) then 1 else 0)
  {
    assert |[h] + c.stack| == |c.stack| + 1 && ([h] + c.stack)[0] == h;
    if m.Executing? || m.Discarding? {
      assert c.stack == [c.stack[0]] + c.stack[1..];
    }
  }

  /** What an event does to t's handlers. */
  function MoveOf(s: Once.State, e: Once.Event, t: nat): Move
    requires Has(s, t)
  {
    var c := s.threads[t];
    if e.tid != t then Still
    else
      match c.pc
      case Idle | Running =>
        if e.act.PushUser? && IsUser(e.act.h) then Pushing(e.act.h)
        else if e.act.PopUser? && c.stack != [] && IsUser(c.stack[0]) then
          if e.act.execute then Executing else Discarding
        else Still
      case PushCleanup => if e.act.Go? then Pushing(UNLOCK) else Still
      case PopCleanup => if e.act.Go? && c.stack != [] then Discarding else Still
      case Cleaning => if e.act.Go? && c.stack != [] then Executing else Still
      case _ => Still
  }

  predicate TouchesHandlers(pc: Once.Pc) {
    pc.Idle? || pc.Running? || pc.PushCleanup? || pc.PopCleanup? || pc.Cleaning?
  }

  lemma OwnHandlersMove(s: Once.State, act: Act, t: nat)
    requires Has(s, t) && TouchesHandlers(s.threads[t].pc)
    ensures var s' := Step(s, Event(t, act));
      Has(s', t) && Moved(MoveOf(s, Event(t, act), t), s.threads[t], s'.threads[t])
  {
  }

  lemma HandlersStay(s: Once.State, act: Act, t: nat)
    requires Has(s, t) && !TouchesHandlers(s.threads[t].pc)
    ensures var s' := Step(s, Event(t, act)); Has(s', t) && Moved(Still, s.threads[t], s'.threads[t])
  {
  }

  lemma HandlersMove(s: Once.State, e: Once.Event, t: nat)
    requires Has(s, t)
    ensures Has(Step(s, e), t) && Moved(MoveOf(s, e, t), s.threads[t], Step(s, e).threads[t])
  {
    if e.tid != t {
      OthersRecord(s, t, e);
      ThreadsStay(s, e);
    } else if TouchesHandlers(s.threads[t].pc) {
      OwnHandlersMove(s, e.act, t);
    } else {
      HandlersStay(s, e.act, t);
    }
  }

  lemma ThreadsStay(s: Once.State, e: Once.Event)
    ensures |Step(s, e).mutex.threads| == |s.mutex.threads|
  {
  }

  lemma HandlerStep(s: Once.State, e: Once.Event, t: nat, h: Handler)
    requires Has(s, t)
    ensures Has(Step(s, e), t)
    ensures Kept(Step(s, e).threads[t], h) + (if Discards(t, h)(s, e) then 1 else 0)
         == Kept(s.threads[t], h) + (if Pushes(t, h)(s, e) then 1 else 0)
  {
    HandlersMove(s, e, t);
    KeptByMove(MoveOf(s, e, t), s.threads[t], Step(s, e).threads[t], h);
  }

  /** In every run each handler pushed is once executed, popped unexecuted, or still there. */
  lemma {:induction false} HandlersAccountedFor(s: Once.State, es: seq<Once.Event>, t: nat, h: Handler)
    requires Has(s, t)
    ensures var x := Exec(Step, s, es);
      && Has(x, t)
      && Kept(x.threads[t], h) + Times(Step, s, es, Discards(t, h))
         == Kept(s.threads[t], h) + Times(Step, s, es, Pushes(t, h))
  {
    if es != [] {
      var n := |es| - 1;
      HandlersAccountedFor(s, es[..n], t, h);
      HandlerStep(Exec(Step, s, es[..n]), es[n], t, h);
    }
  }
}
