/** What a whole call on the read-write lock does and returns, whatever the other threads do
    between its accesses. */
module RwLockCalls {
  import opened Kernel
  import opened Sums
  import opened Runs
  import opened RwLock

  predicate IsCall(act: Act) { act.CallLock? || act.CallTry? || act.CallUnlock? }

  predicate Busy(s: State, t: nat) { t < |s.threads| && !s.threads[t].pc.Ready? }

  /** Thread t is in the call `act` that it made when its record was th0. */
  ghost predicate Underway(act: Act, th0: Thread, s: State, t: nat) {
    && Inv(s) && t < |s.threads|
    && var th := s.threads[t];
       && th.held == th0.held && th.writing == th0.writing
       && match act
          case CallLock(write, timed) => th.pc == Wait(write, timed) || th.pc == SetFlag(write)
          case CallTry(write) => th.pc == TryPoll(write) || (th.pc.TrySet? && write)
          case CallUnlock => InUnlock(th.pc)
          case _ => false
  }

  /** The holds a thread has in the lock that is implemented: how often for reading, and
      whether for writing. */
  function HoldsOf(th: Thread): (nat, bool) { (ReadHolds(th), WriteHold(th)) }

  /** The hold asked for, gained: the write hold by a thread that had none at all, or one
      read hold more. */
  predicate Gained(write: bool, th0: Thread, th: Thread) {
    if write then HoldsOf(th0) == (0, false) && HoldsOf(th) == (0, true)
    else !WriteHold(th0) && HoldsOf(th) == (ReadHolds(th0) + 1, false)
  }

  /** What the call `act` has returned, in s, by the event `last`. */
  predicate Verdict(act: Act, th0: Thread, th: Thread, last: Event) {
    match act
    case CallLock(write, timed) =>
      if last.act.TimeOut? then timed && th.result.ETIMEDOUT? && HoldsOf(th) == HoldsOf(th0)
      else th.result.OK? && Gained(write, th0, th)
    case CallTry(write) =>
      (th.result.OK? && Gained(write, th0, th)) || (th.result.EBUSY? && HoldsOf(th) == HoldsOf(th0))
    case CallUnlock =>
      && th.result.OK?
      && HoldsOf(th) == if WriteHold(th0) then (ReadHolds(th0), false) else (ReadHolds(th0) - 1, false)
    case _ => false
  }

  /** The event e, which leads to s', leaves t in its call, or is t's and ends it. */
  ghost predicate GoesOn(act: Act, th0: Thread, s: State, t: nat, e: Event, s': State) {
    && |s'.threads| == |s.threads| && t < |s.threads|
    && (Busy(s', t) ==> Underway(act, th0, s', t))
    && (!Busy(s', t) ==> e.tid == t && Verdict(act, th0, s'.threads[t], e))
  }

  lemma CallStarts(s: State, t: nat, act: Act)
    requires Inv(s) && t < |s.threads| && s.threads[t].pc.Ready? && IsCall(act) && Lawful(s, Event(t, act))
    ensures Underway(act, s.threads[t], LawfulStep(s, Event(t, act)), t)
  {
    StepKeepsInv(s, Event(t, act));
  }

  lemma LockStep(act: Act, th0: Thread, s: State, t: nat, e: Event)
    requires th0.pc.Ready? && Underway(act, th0, s, t) && Busy(s, t) && e.tid == t && act.CallLock?
    ensures GoesOn(act, th0, s, t, e, Step(s, e))
  {
    StepKeepsInv(s, e);
    InvGivesMoverPre(s, t);
  }

  lemma TryStep(act: Act, th0: Thread, s: State, t: nat, e: Event)
    requires th0.pc.Ready? && Underway(act, th0, s, t) && Busy(s, t) && e.tid == t && act.CallTry?
    ensures GoesOn(act, th0, s, t, e, Step(s, e))
  {
    StepKeepsInv(s, e);
    InvGivesMoverPre(s, t);
  }

  /** One access of unlock, from what concerns its thread alone. */
  lemma UnlockAlone(th0: Thread, s: State, t: nat)
    requires MoverPre(s, t) && InUnlock(s.threads[t].pc)
    requires HoldsOf(s.threads[t]) == HoldsOf(th0)
    ensures var s' := UnlockAccess(s, t);
      && |s'.threads| == |s.threads|
      && var th, th' := s.threads[t], s'.threads[t];
      && (!th'.pc.Ready? ==> InUnlock(th'.pc) && th'.held == th.held && th'.writing == th.writing)
      && (th'.pc.Ready? ==>
            && th'.result.OK?
            && HoldsOf(th') == if WriteHold(th0) then (ReadHolds(th0), false) else (ReadHolds(th0) - 1, false))
  {
  }

  lemma UnlockStep(act: Act, th0: Thread, s: State, t: nat, e: Event)
    requires th0.pc.Ready? && Underway(act, th0, s, t) && Busy(s, t) && e.tid == t && act.CallUnlock?
    ensures GoesOn(act, th0, s, t, e, Step(s, e))
  {
    StepKeepsInv(s, e);
    InvGivesMoverPre(s, t);
    UnlockAlone(th0, s, t);
  }

  lemma OwnStep(act: Act, th0: Thread, s: State, t: nat, e: Event)
    requires th0.pc.Ready? && Underway(act, th0, s, t) && Busy(s, t) && e.tid == t
    ensures GoesOn(act, th0, s, t, e, Step(s, e))
  {
    if act.CallLock? {
      LockStep(act, th0, s, t, e);
    } else if act.CallTry? {
      TryStep(act, th0, s, t, e);
    } else {
      UnlockStep(act, th0, s, t, e);
    }
  }

  lemma UnderwayStep(act: Act, th0: Thread, s: State, t: nat, e: Event)
    requires th0.pc.Ready? && Underway(act, th0, s, t) && Busy(s, t)
    ensures GoesOn(act, th0, s, t, e, LawfulStep(s, e))
  {
    if e.tid == t {
      OwnStep(act, th0, s, t, e);
    } else if Lawful(s, e) {
      StepKeepsInv(s, e);
      if e.tid < |s.threads| {
        InvGivesMoverPre(s, e.tid);
        StepKeepsMover(s, e);
      }
    }
  }

  lemma CallContinues(act: Act, th0: Thread, s1: State, t: nat, es: seq<Event>)
    requires th0.pc.Ready? && Underway(act, th0, s1, t) && Always(LawfulStep, s1, es, x => Busy(x, t))
    ensures Underway(act, th0, Exec(LawfulStep, s1, es), t) && Busy(Exec(LawfulStep, s1, es), t)
  {
    var inside := (x: State) => Busy(x, t);
    var keeps := (x: State) => Underway(act, th0, x, t) && Busy(x, t);
    assert s1 == Exec(LawfulStep, s1, es[..0]);
    forall x, e | keeps(x) && inside(LawfulStep(x, e)) ensures keeps(LawfulStep(x, e)) {
      UnderwayStep(act, th0, x, t, e);
    }
    KeptInside(LawfulStep, s1, es, inside, keeps);
  }

  /** The verdict of every call, in every lawful run: a call that returns 0 has given its
      caller the hold it asked for, the write hold or one read hold, and no other; a timed
      call that gives up returns ETIMEDOUT, and a try call that is refused EBUSY, and both
      leave its holds alone; unlock returns 0 and takes the write hold, or one read hold. */
  lemma {:induction false} CallVerdict(s: State, t: nat, act: Act, es: seq<Event>, last: Event)
    requires Inv(s) && t < |s.threads| && s.threads[t].pc.Ready? && IsCall(act) && Lawful(s, Event(t, act))
    ensures var s1 := LawfulStep(s, Event(t, act));
      var s' := LawfulStep(Exec(LawfulStep, s1, es), last);
      Always(LawfulStep, s1, es, x => Busy(x, t)) && !Busy(s', t) ==>
        t < |s'.threads| && last.tid == t && Verdict(act, s.threads[t], s'.threads[t], last)
  {
    var s1 := LawfulStep(s, Event(t, act));
    CallStarts(s, t, act);
    if Always(LawfulStep, s1, es, x => Busy(x, t)) {
      CallContinues(act, s.threads[t], s1, t, es);
      UnderwayStep(act, s.threads[t], Exec(LawfulStep, s1, es), t, last);
    }
  }

  // ----- No call waits without need -----

  /** Accesses a call has left, at most. */
  function Left(pc: Pc): nat {
    match pc
    case Wait(_, _) => 2
    case SetFlag(_) => 1
    case TryPoll(_) => 2
    case TrySet => 1
    case UnlockRead => 3
    case UnlockClear => 2
    case UnlockPost(_) => 1
    case Ready => 0
  }

  /** Every access of a call brings it nearer to its end, except that a blocking writer waits
      while anybody has a hold, and a blocking reader while all units are out. */
  lemma Advances(s: State, t: nat)
    requires Inv(s) && Busy(s, t)
    ensures var s', pc := Step(s, Event(t, Go)), s.threads[t].pc;
      && |s'.threads| == |s.threads|
      && (Left(s'.threads[t].pc) < Left(pc)
          || (s' == s && pc.Wait? && if pc.write then !Idle(Abs(s)) else Sum(s.threads, Units) == MAX_COUNT))
  {
    AllUnitsLeftMeansIdle(s);
  }

  /** A timed call that waits can give up; it has then returned ETIMEDOUT. */
  lemma TimedCallCanGiveUp(write: bool, th0: Thread, s: State, t: nat)
    requires th0.pc.Ready? && Underway(CallLock(write, true), th0, s, t) && Busy(s, t)
    requires Step(s, Event(t, Go)) == s
    ensures var s' := Step(s, Event(t, TimeOut));
      !Busy(s', t) && |s'.threads| == |s.threads|
      && Verdict(CallLock(write, true), th0, s'.threads[t], Event(t, TimeOut))
  {
    OwnStep(CallLock(write, true), th0, s, t, Event(t, TimeOut));
    Advances(s, t);
  }

  // ----- Unlock of a free lock -----

  predicate Free(x: State) { x.rdwrQ.count == x.rdwrQ.max && !x.writelock }

  predicate Refusing(x: State, t: nat) {
    t < |x.threads| && Free(x) && (x.threads[t].pc.UnlockRead? || x.threads[t].pc == UnlockPost(1))
  }

  predicate RefusesNext(s: State, t: nat, e: Event, s': State)
    requires t < |s.threads|
  {
    if t < |s'.threads| && !s'.threads[t].pc.Ready? then Free(s') ==> Refusing(s', t)
    else s' == s.(threads := s.threads[t := s.threads[t].(pc := Ready, result := EINVAL)])
  }

  lemma RefusingStep(s: State, t: nat, e: Event)
    requires Refusing(s, t)
    ensures RefusesNext(s, t, e, Step(s, e))
  {
  }

  /** In any run at all, lawful or not: an unlock during which nobody has the lock returns
      EINVAL, and its last access changes nothing else. */
  lemma {:induction false} FreeUnlockRefused(s: State, t: nat, es: seq<Event>, last: Event)
    requires t < |s.threads| && s.threads[t].pc.Ready? && Free(s)
    ensures var s1 := Step(s, Event(t, CallUnlock));
      var x := Exec(Step, s1, es);
      var s' := Step(x, last);
      Always(Step, s1, es, y => Busy(y, t) && Free(y)) && !Busy(s', t) ==>
        t < |x.threads| && s' == x.(threads := x.threads[t := x.threads[t].(pc := Ready, result := EINVAL)])
  {
    var s1 := Step(s, Event(t, CallUnlock));
    var inside := (y: State) => Busy(y, t) && Free(y);
    if Always(Step, s1, es, y => Busy(y, t) && Free(y)) {
      var keeps := (y: State) => Refusing(y, t);
      assert Always(Step, s1, es, inside);
      forall y, e | keeps(y) && inside(Step(y, e)) ensures keeps(Step(y, e)) {
        RefusingStep(y, t, e);
      }
      KeptInside(Step, s1, es, inside, keeps);
      RefusingStep(Exec(Step, s1, es), t, last);
    }
  }
}
