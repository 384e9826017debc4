/** What a whole call on the mutex does and returns, whatever the other threads do between
    its accesses. */
module MutexCalls {
  import opened Kernel
  import opened Sums
  import opened Runs
  import opened Mutex

  predicate IsCall(act: Act) { act.CallLock? || act.CallTrylock? || act.CallUnlock? || act.CallSetCeiling? }

  predicate Busy(s: State, t: nat) { t < |s.threads| && !s.threads[t].pc.Ready? }

  /** Thread t is in the call `act` that it made when its record was th0. */
  ghost predicate Underway(act: Act, th0: Thread, s: State, t: nat) {
    && Inv(s) && t < |s.threads|
    && var th := s.threads[t];
       && th.locks == th0.locks && th.unlocks == th0.unlocks
       && match act
          case CallLock(timed) =>
            && (th.pc == LockTest(timed) || th.pc == LockWait(timed)
                || th.pc.OwnWrite? || th.pc.IncLoad? || th.pc.IncStore?)
            && (th.pc.LockWait? ==> !(s.kind.ErrorCheck? && Gross(th0) > 0))
            && (th.pc.OwnWrite? ==> Gross(th0) == 0)
          case CallTrylock =>
            && (th.pc.TryTest? || th.pc.TryPoll? || th.pc.OwnWrite? || th.pc.IncLoad? || th.pc.IncStore?)
            && (th.pc.TryPoll? ==> !(s.kind.Recursive? && Gross(th0) > 0))
            && (th.pc.OwnWrite? ==> Gross(th0) == 0)
          case CallUnlock => InUnlock(th.pc)
          case CallSetCeiling(c) =>
            th.pc == CeilWait(c) || th.pc == CeilWrite(c) || (th.pc.CeilPost? && s.prioceiling == c)
          case _ => false
  }

  /** A call that takes effect: locked once more, and the owner. */
  predicate Locked(th0: Thread, s: State, t: nat)
    requires t < |s.threads|
  {
    && s.threads[t].locks == th0.locks + 1 && s.threads[t].unlocks == th0.unlocks
    && s.owner == Some(t) && s.recursivecount == Gross(th0)
  }

  predicate Untouched(th0: Thread, th: Thread) { th.locks == th0.locks && th.unlocks == th0.unlocks }

  /** What the call `act` has returned, in s, by the event `last`. */
  predicate Verdict(act: Act, th0: Thread, s: State, t: nat, last: Event)
    requires t < |s.threads|
  {
    var th := s.threads[t];
    match act
    case CallLock(timed) =>
      if last.act.TimeOut? then timed && th.result.ETIMEDOUT? && Untouched(th0, th)
      else if s.kind.ErrorCheck? && Gross(th0) > 0 then th.result.EDEADLK? && Untouched(th0, th)
      else th.result.OK? && Locked(th0, s, t)
    case CallTrylock =>
      || (th.result.OK? && Locked(th0, s, t))
      || (th.result.EBUSY? && Untouched(th0, th) && !(s.kind.Recursive? && Gross(th0) > 0))
    case CallUnlock =>
      if Gross(th0) > 0 then
        && th.result.OK? && th.locks == th0.locks && th.unlocks == th0.unlocks + 1
        && (s.owner == Some(t) <==> Gross(th) > 0)
      else th.result.EPERM? && Untouched(th0, th)
    case CallSetCeiling(c) => th.result.OK? && Untouched(th0, th) && s.prioceiling == c
    case _ => false
  }

  /** The event e, which leads to s', leaves t in its call, or is t's and ends it. */
  ghost predicate GoesOn(act: Act, th0: Thread, s: State, t: nat, e: Event, s': State) {
    && |s'.threads| == |s.threads| && t < |s.threads| && s'.kind == s.kind
    && (Busy(s', t) ==> Underway(act, th0, s', t))
    && (!Busy(s', t) ==> e.tid == t && Verdict(act, th0, s', t, e))
  }

  lemma CallStarts(s: State, t: nat, act: Act)
    requires Inv(s) && t < |s.threads| && s.threads[t].pc.Ready? && IsCall(act) && Lawful(s, Event(t, act))
    ensures Underway(act, s.threads[t], LawfulStep(s, Event(t, act)), t)
    ensures LawfulStep(s, Event(t, act)).kind == s.kind
  {
    StepKeepsInv(s, Event(t, act));
  }

  /** While t is inside, nobody changes its record, nor the ceiling it has just written. */
  lemma OthersStep(act: Act, th0: Thread, s: State, t: nat, e: Event)
    requires Underway(act, th0, s, t) && Lawful(s, e) && e.tid != t
    ensures Underway(act, th0, Step(s, e), t)
    ensures Step(s, e).threads[t] == s.threads[t] && Step(s, e).kind == s.kind
  {
    StepKeepsInv(s, e);
    if e.tid < |s.threads| {
      StepTouchesMover(s, e);
      UnitsExclusive(s, t, e.tid);
    }
  }

  lemma LockStep(act: Act, th0: Thread, s: State, t: nat, e: Event)
    requires Underway(act, th0, s, t) && e.tid == t && Busy(s, t) && (act.CallLock? || act.CallTrylock?)
    ensures GoesOn(act, th0, s, t, e, Step(s, e))
  {
    StepKeepsInv(s, e);
    InvGivesMoverPre(s, t);
  }

  lemma UnlockStep(act: Act, th0: Thread, s: State, t: nat, e: Event)
    requires Underway(act, th0, s, t) && e.tid == t && Busy(s, t) && act.CallUnlock?
    ensures GoesOn(act, th0, s, t, e, Step(s, e))
  {
    StepKeepsInv(s, e);
    InvGivesMoverPre(s, t);
    assert ThreadInv(Step(s, e), t);
  }

  lemma CeilingStep(act: Act, th0: Thread, s: State, t: nat, e: Event)
    requires Underway(act, th0, s, t) && e.tid == t && Busy(s, t) && act.CallSetCeiling?
    ensures GoesOn(act, th0, s, t, e, Step(s, e))
  {
    StepKeepsInv(s, e);
  }

  lemma UnderwayStep(act: Act, th0: Thread, s: State, t: nat, e: Event)
    requires Underway(act, th0, s, t) && Busy(s, t)
    ensures GoesOn(act, th0, s, t, e, LawfulStep(s, e))
  {
    if Lawful(s, e) {
      if e.tid != t {
        OthersStep(act, th0, s, t, e);
        StepKeepsInv(s, e);
        OthersCount(s, e);
      } else if act.CallUnlock? {
        UnlockStep(act, th0, s, t, e);
      } else if act.CallSetCeiling? {
        CeilingStep(act, th0, s, t, e);
      } else {
        LockStep(act, th0, s, t, e);
      }
    }
  }

  lemma OthersCount(s: State, e: Event)
    ensures |Step(s, e).threads| == |s.threads|
  {
    if e.tid < |s.threads| {
      StepTouchesMover(s, e);
    }
  }

  /** A call under way after some run, seen from where it began. */
  lemma CallContinues(act: Act, th0: Thread, s1: State, t: nat, es: seq<Event>)
    requires Underway(act, th0, s1, t) && Always(LawfulStep, s1, es, x => Busy(x, t))
    ensures Underway(act, th0, Exec(LawfulStep, s1, es), t) && Busy(Exec(LawfulStep, s1, es), t)
  {
    var inside := (x: State) => Busy(x, t);
    var keeps := (x: State) => Underway(act, th0, x, t) && Busy(x, t);
    assert s1 == Exec(LawfulStep, s1, es[..0]);
    forall x, e | keeps(x) && inside(LawfulStep(x, e)) ensures keeps(LawfulStep(x, e)) {
      UnderwayStep(act, th0, x, t, e);
    }
    KeptInside(LawfulStep, s1, es, inside, keeps);
  }

  /** The verdict of every call, in every lawful run: lock, timedlock and trylock return 0
      exactly if they have made the caller the owner, one level deeper; ETIMEDOUT exactly
      when a timed call gives up; EDEADLK exactly to the owner of an errorcheck mutex; EBUSY
      from trylock alone, never to the owner of a recursive mutex; and unlock returns 0 and
      takes one level off, or EPERM, by whether the caller held the mutex when it called. */
  lemma {:induction false} CallVerdict(s: State, t: nat, act: Act, es: seq<Event>, last: Event)
    requires Inv(s) && t < |s.threads| && s.threads[t].pc.Ready? && IsCall(act) && Lawful(s, Event(t, act))
    ensures var s1 := LawfulStep(s, Event(t, act));
      var s' := LawfulStep(Exec(LawfulStep, s1, es), last);
      Always(LawfulStep, s1, es, x => Busy(x, t)) && !Busy(s', t) ==>
        t < |s'.threads| && last.tid == t && Verdict(act, s.threads[t], s', t, last)
  {
    var s1 := LawfulStep(s, Event(t, act));
    CallStarts(s, t, act);
    if Always(LawfulStep, s1, es, x => Busy(x, t)) {
      CallContinues(act, s.threads[t], s1, t, es);
      UnderwayStep(act, s.threads[t], Exec(LawfulStep, s1, es), t, last);
    }
  }

  // ----- No call waits without need -----

  /** Accesses a call has left, at most. */
  function Left(pc: Pc): nat {
    match pc
    case LockTest(_) => 3
    case TryTest => 3
    case LockWait(_) => 2
    case TryPoll => 2
    case IncLoad => 2
    case IncStore(_) => 1
    case OwnWrite => 1
    case UnlockTest => 5
    case UnlockLoad => 4
    case UnlockNull => 3
    case UnlockClear => 2
    case UnlockStore(_) => 1
    case UnlockPost => 1
    case CeilWait(_) => 3
    case CeilWrite(_) => 2
    case CeilPost => 1
    case Ready => 0
  }

  lemma UnlockAdvances(s: State, t: nat)
    requires t < |s.threads| && InUnlock(s.threads[t].pc)
    ensures |UnlockAccess(s, t).threads| == |s.threads|
    ensures Left(UnlockAccess(s, t).threads[t].pc) < Left(s.threads[t].pc)
  {
  }

  lemma LockAdvances(s: State, t: nat)
    requires t < |s.threads| && (InLock(s.threads[t].pc) || InCeiling(s.threads[t].pc))
    ensures var s', pc := Advance(s, t), s.threads[t].pc;
      && |s'.threads| == |s.threads|
      && (Left(s'.threads[t].pc) < Left(pc)
          || (s' == s && s.sema.count == 0 && !pc.TryTest? && !pc.TryPoll?))
  {
  }

  /** Every access of a call brings it nearer to its end; it waits only in lock, timedlock
      and setprioceiling, and only while some thread has the mutex's unit. */
  lemma Advances(s: State, t: nat)
    requires Inv(s) && Busy(s, t)
    ensures var s', pc := Step(s, Event(t, Go)), s.threads[t].pc;
      && |s'.threads| == |s.threads|
      && (Left(s'.threads[t].pc) < Left(pc)
          || (s' == s && !InUnlock(pc) && !pc.TryTest? && !pc.TryPoll?
              && exists u :: 0 <= u < |s.threads| && Units(s.threads[u]) == 1))
  {
    if InUnlock(s.threads[t].pc) {
      UnlockAdvances(s, t);
    } else {
      LockAdvances(s, t);
      if s.sema.count == 0 {
        var u := SumWitness(s.threads, Units);
        UnitsBound(s, u);
      }
    }
  }

  /** A timed lock call that waits can give up; it has then returned ETIMEDOUT. */
  lemma TimedCallCanGiveUp(act: Act, th0: Thread, s: State, t: nat)
    requires Underway(act, th0, s, t) && Busy(s, t) && act == CallLock(true) && Step(s, Event(t, Go)) == s
    ensures !Busy(Step(s, Event(t, TimeOut)), t) && Verdict(act, th0, Step(s, Event(t, TimeOut)), t, Event(t, TimeOut))
  {
    UnderwayStep(act, th0, s, t, Event(t, TimeOut));
    Advances(s, t);
  }

  // ----- Unlock of a free mutex -----

  predicate Refusing(x: State, t: nat) {
    t < |x.threads| && x.owner == None && (x.threads[t].pc.UnlockTest? || x.threads[t].pc.UnlockNull?)
  }

  /** The event e, which leads to s', leaves t's unlock on the way to its refusal, or is t's
      and has refused it. */
  predicate RefusesNext(s: State, t: nat, e: Event, s': State)
    requires t < |s.threads|
  {
    if t < |s'.threads| && !s'.threads[t].pc.Ready? then s'.owner == None ==> Refusing(s', t)
    else s' == s.(threads := s.threads[t := s.threads[t].(pc := Ready, result := EPERM)])
  }

  lemma RefusingStep(s: State, t: nat, e: Event)
    requires Refusing(s, t)
    ensures RefusesNext(s, t, e, Step(s, e))
  {
    if e.tid < |s.threads| {
      StepTouchesMover(s, e);
    }
  }

  /** In any run at all, lawful or not, and for every kind of mutex: an unlock during which
      nobody owns the mutex returns EPERM, and its last access changes nothing else. */
  lemma {:induction false} FreeUnlockRefused(s: State, t: nat, es: seq<Event>, last: Event)
    requires t < |s.threads| && s.threads[t].pc.Ready? && s.owner == None
    ensures var s1 := Step(s, Event(t, CallUnlock));
      var x := Exec(Step, s1, es);
      var s' := Step(x, last);
      Always(Step, s1, es, y => Busy(y, t) && y.owner == None) && !Busy(s', t) ==>
        t < |x.threads| && s' == x.(threads := x.threads[t := x.threads[t].(pc := Ready, result := EPERM)])
  {
    var s1 := Step(s, Event(t, CallUnlock));
    var inside := (y: State) => Busy(y, t) && y.owner == None;
    if Always(Step, s1, es, y => Busy(y, t) && y.owner == None) {
      var keeps := (y: State) => Refusing(y, t);
      assert Always(Step, s1, es, inside);
      forall y, e | keeps(y) && inside(Step(y, e)) ensures keeps(Step(y, e)) {
        RefusingStep(y, t, e);
      }
      KeptInside(Step, s1, es, inside, keeps);
      RefusingStep(Exec(Step, s1, es), t, last);
    }
  }
}
