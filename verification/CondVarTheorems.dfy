/** What the condition variable promises, for every run of any number of threads. */
module CondVarTheorems {
  import opened Kernel
  import opened Sums
  import opened Runs
  import opened CondVar
  import opened CondVarProofs
  import M = Mutex

  // ----- Counting -----

  /** The waiters counted in NbWait and the units in `lock` together are exactly the
      waiters not yet woken, the timed-out ones not yet uncounted, and what a signaller
      or broadcaster in mid-update has posted but not subtracted. */
  ghost predicate Conserved(s: State) {
    s.NbWait + s.lock.count == Sum(s.threads, Waiting) + Sum(s.threads, Expired) + Sum(s.threads, Posted)
  }

  /** No post is ever refused, NbWait stays a C int, and the units in excess of the waiters
      are at most the waits that timed out so far, so none in a run without time-outs. */
  ghost predicate SpuriousWakeupsBounded(s: State) {
    && s.lock.count <= |s.threads| <= s.lock.max
    && -|s.threads| <= s.NbWait <= |s.threads|
    && s.lock.count - Sum(s.threads, Waiting) <= s.timeouts
  }

  lemma CountingIn(s: State)
    requires Inv(s)
    ensures Conserved(s) && SpuriousWakeupsBounded(s)
  {
    WaitersAreThreads(s.threads);
    SumNonNegative(s.threads, Posted);
  }

  lemma Conservation(s: State, es: seq<Event>)
    requires Init(s)
    ensures Conserved(Exec(Step, s, es)) && SpuriousWakeupsBounded(Exec(Step, s, es))
  {
    RunInv(s, es);
    CountingIn(Exec(Step, s, es));
  }

  // ----- No wake-up is lost -----

  /** The event at which a signal or broadcast decides to do nothing. */
  predicate DecidesNothing(s: State, e: Event) {
    && Has(s, e.tid) && e.act.Go?
    && var pc := s.threads[e.tid].pc;
       ((pc.SRead? || pc.BRead?) && s.NbWait == 0) || ((pc.STest? || pc.BTest?) && s.NbWait <= 0)
  }

  /** Every thread waiting has a unit it can take. */
  ghost predicate EveryWaiterHasAUnit(s: State) {
    Sum(s.threads, Waiting) <= s.lock.count
  }

  lemma NothingToDo(s: State)
    requires Inv(s) && s.NbWait <= 0
    ensures EveryWaiterHasAUnit(s)
  {
    WaitersAreThreads(s.threads);
    SumNonNegative(s.threads, Posted);
  }

  /** A signal or broadcast that does nothing had nothing to do, even where the test of
      NbWait is made without control, and even where time-outs made NbWait negative. */
  lemma NoLostWakeup(s: State, es: seq<Event>, e: Event)
    requires Init(s) && DecidesNothing(Exec(Step, s, es), e)
    ensures EveryWaiterHasAUnit(Exec(Step, s, es))
  {
    RunInv(s, es);
    NothingToDo(Exec(Step, s, es));
  }

  /** A signal that does act leaves one unit more; it is never refused. */
  lemma SignalPostsOne(s: State, e: Event)
    requires Inv(s) && Has(s, e.tid) && e.act.Go? && s.threads[e.tid].pc.SPost?
    ensures Step(s, e).lock.count == s.lock.count + 1
  {
    RoomToPost(s, e.tid);
  }

  /** A broadcast that does act leaves, when it resets NbWait, a unit for every waiter. */
  lemma {:induction false} BroadcastReachesEveryone(s: State, es: seq<Event>, e: Event, s': State)
    requires Init(s) && s' == Exec(Step, s, es)
    requires Has(s', e.tid) && e.act.Go? && s'.threads[e.tid].pc.BZero?
    ensures EveryWaiterHasAUnit(Step(s', e)) && Step(s', e).NbWait == 0
  {
    RunInv(s, es);
    StepKeepsInv(s', e);
    NothingToDo(Step(s', e));
  }

  // ----- Release is atomic with waiting -----

  /** Thread t is in a wait, has let go of the mutex, and has neither been woken nor
      timed out. */
  predicate Blocked(s: State, t: nat) {
    && Has(s, t) && M.Gross(s.mutex.threads[t]) < s.threads[t].entry
    && var pc := s.threads[t].pc; pc.CbUnlock? || pc.CbControl? || pc.CbInWait? || pc.WWait?
  }

  lemma SumOfOne(s: State, t: nat)
    requires t < |s.threads| && Waiting(s.threads[t]) == 1
    ensures Sum(s.threads, Waiting) >= 1
  {
    SumAtLeast(s.threads, t, Waiting);
  }

  /** "If another thread acquires the mutex after the about-to-block thread has released
      it, a subsequent signal behaves as if issued after that thread has blocked": a waiter
      that has released even one level of the mutex is counted, so a signal or broadcast
      that then does nothing leaves a unit for it. */
  lemma {:induction false} WaitIsAtomic(s: State, es: seq<Event>, e: Event, t: nat, s': State)
    requires Init(s) && s' == Exec(Step, s, es) && Blocked(s', t) && DecidesNothing(s', e)
    ensures 1 <= Sum(s'.threads, Waiting) <= s'.lock.count
  {
    NoLostWakeup(s, es, e);
    SumOfOne(s', t);
  }

  /** A thread in a wait that has not been counted yet still owns the mutex, at the depth
      at which it called. */
  lemma {:induction false} CountedBeforeReleased(s: State, es: seq<Event>, t: nat, s': State)
    requires Init(s) && s' == Exec(Step, s, es) && Has(s', t)
    requires s'.threads[t].pc.WControl? || s'.threads[t].pc.WCount?
    ensures s'.mutex.owner == Some(t) && M.Depth(s'.mutex.threads[t]) == s'.threads[t].entry
  {
    RunInv(s, es);
    InvGivesMoverPre(s', t);
    DepthIsGross(s'.mutex, t);
  }

  // ----- The depth round trip -----

  predicate Inside(pc: Pc) { InWait(pc) || InCallback(pc) || pc.Relock? }

  /** The depth noted at the call is not touched before the wait returns. */
  lemma EntryKept(s: State, e: Event, t: nat)
    requires Has(s, t) && Inside(s.threads[t].pc) && |s.threads| == |s.mutex.threads|
    ensures |Step(s, e).threads| == |s.threads| && Step(s, e).threads[t].entry == s.threads[t].entry
    ensures Step(s, e).threads[t].timed == s.threads[t].timed
  {
    if Has(s, e.tid) && e.tid == t {
      if InWait(s.threads[t].pc) && e.act.Go? {
        WaitKeepsEntry(s, t);
      }
    }
  }

  lemma WaitKeepsEntry(s: State, t: nat)
    requires Has(s, t) && InWait(s.threads[t].pc)
    ensures var th, th' := s.threads[t], WaitAccess(s, t).threads[t]; th'.entry == th.entry && th'.timed == th.timed
  {
  }

  ghost predicate InsideAlong(s: State, es: seq<Event>, t: nat) {
    forall k :: 0 <= k < |es| ==> Has(Exec(Step, s, es[..k]), t) && Inside(Exec(Step, s, es[..k]).threads[t].pc)
  }

  lemma {:induction false} EntryKeptAlong(s: State, es: seq<Event>, t: nat)
    requires Inv(s) && Has(s, t) && InsideAlong(s, es, t)
    ensures Inv(Exec(Step, s, es)) && |Exec(Step, s, es).threads| == |s.threads|
    ensures Exec(Step, s, es).threads[t].entry == s.threads[t].entry
    ensures Exec(Step, s, es).threads[t].timed == s.threads[t].timed
  {
    if es != [] {
      var k := |es| - 1;
      forall j | 0 <= j < k
        ensures Has(Exec(Step, s, es[..k][..j]), t) && Inside(Exec(Step, s, es[..k][..j]).threads[t].pc)
      {
        assert es[..k][..j] == es[..j];
      }
      EntryKeptAlong(s, es[..k], t);
      var x := Exec(Step, s, es[..k]);
      assert Has(x, t) && Inside(x.threads[t].pc);
      StepKeepsInv(x, es[k]);
      EntryKept(x, es[k], t);
    }
  }

  /** Thread t's wait has returned: it owns the mutex at depth d, with result 0 or, if the
      wait was timed, ETIMEDOUT. */
  predicate Restored(s: State, t: nat, d: int, timed: bool) {
    && Has(s, t) && s.threads[t].pc.Ready? && !s.threads[t].inWAIT
    && s.mutex.owner == Some(t) && s.mutex.recursivecount == d - 1 && M.Depth(s.mutex.threads[t]) == d
    && (s.threads[t].result.OK? || (timed && s.threads[t].result.ETIMEDOUT?))
  }

  lemma OnlyMoverMoves(s: State, e: Event, t: nat)
    requires Has(s, t) && e.tid != t
    ensures Has(Step(s, e), t) ==> Step(s, e).threads[t] == s.threads[t]
  {
  }

  lemma OnlyRelockReturns(s: State, t: nat, act: Act)
    requires Has(s, t) && Inside(s.threads[t].pc)
    ensures Has(Step(s, Event(t, act)), t) && Step(s, Event(t, act)).threads[t].pc.Ready? ==>
      && s.threads[t].pc.Relock? && s.mutex.threads[t].pc.Ready? && s.threads[t].pc.i > s.threads[t].recursivecount
      && Step(s, Event(t, act)) == Return(s, t, s.threads[t].returncode)
  {
  }

  /** The step by which a wait returns: the mutex is owned again at the noted depth, and
      the result is the return code so far. */
  lemma ReturnStep(s: State, e: Event, t: nat)
    requires Inv(s) && Has(s, t) && Inside(s.threads[t].pc)
    ensures Has(Step(s, e), t) && Step(s, e).threads[t].pc.Ready? ==>
      && Restored(Step(s, e), t, s.threads[t].entry, s.threads[t].timed)
      && Step(s, e).threads[t].result == s.threads[t].returncode
  {
    InvGivesMoverPre(s, t);
    assert ThreadInv(s, t);
    if e.tid != t {
      OnlyMoverMoves(s, e, t);
    } else {
      OnlyRelockReturns(s, t, e.act);
      if s.mutex.threads[t].pc.Ready? {
        DepthIsGross(s.mutex, t);
      }
    }
  }

  lemma CallStep(s: State, t: nat, timed: bool)
    requires Inv(s) && Has(s, t) && s.threads[t].pc.Ready? && s.mutex.threads[t].pc.Ready?
    requires M.Depth(s.mutex.threads[t]) > 0
    ensures var s1 := Step(s, Event(t, CallWait(timed)));
      && Inv(s1) && Has(s1, t)
      && s1.threads[t].entry == M.Depth(s.mutex.threads[t]) && s1.threads[t].timed == timed
  {
    StepKeepsInv(s, Event(t, CallWait(timed)));
  }

  /** A thread that waits at depth d returns owning the mutex at exactly depth d, whatever
      all the threads do in between, on a normal, errorcheck or recursive mutex: s is the
      state at the call, s1 just after it, s' where the wait has returned. */
  lemma {:induction false} WaitRestoresDepth(s: State, t: nat, timed: bool, es: seq<Event>, last: Event)
    requires Inv(s) && Has(s, t) && s.threads[t].pc.Ready? && s.mutex.threads[t].pc.Ready?
    requires M.Depth(s.mutex.threads[t]) > 0
    ensures var s1 := Step(s, Event(t, CallWait(timed)));
      var s' := Exec(Step, s1, es + [last]);
      InsideAlong(s1, es + [last], t) && Has(s', t) && s'.threads[t].pc.Ready? ==>
        Restored(s', t, M.Depth(s.mutex.threads[t]), timed)
  {
    var s1 := Step(s, Event(t, CallWait(timed)));
    var s' := Exec(Step, s1, es + [last]);
    CallStep(s, t, timed);
    if InsideAlong(s1, es + [last], t) && Has(s', t) && s'.threads[t].pc.Ready? {
      RestoresEntry(s1, t, es, last, s');
    }
  }

  lemma RestoresEntry(s1: State, t: nat, es: seq<Event>, last: Event, s': State)
    requires Inv(s1) && Has(s1, t) && InsideAlong(s1, es + [last], t)
    requires s' == Exec(Step, s1, es + [last]) && Has(s', t) && s'.threads[t].pc.Ready?
    ensures Restored(s', t, s1.threads[t].entry, s1.threads[t].timed)
  {
    var x := Exec(Step, s1, es);
    PrefixInside(s1, es, last, t);
    EntryKeptAlong(s1, es, t);
    ExecSnoc(Step, s1, es, last);
    ReturnStep(x, last, t);
  }

  lemma PrefixInside(s: State, es: seq<Event>, last: Event, t: nat)
    requires InsideAlong(s, es + [last], t)
    ensures InsideAlong(s, es, t)
    ensures Has(Exec(Step, s, es), t) && Inside(Exec(Step, s, es).threads[t].pc)
  {
    forall k | 0 <= k < |es|
      ensures Has(Exec(Step, s, es[..k]), t) && Inside(Exec(Step, s, es[..k]).threads[t].pc)
    {
      assert (es + [last])[..k] == es[..k];
    }
    assert (es + [last])[..|es|] == es;
  }

  // ----- Time-outs are reported -----

  /** The event at which the wait of thread t times out. */
  predicate Expires(s: State, e: Event, t: nat) {
    e == Event(t, TimeOut) && Has(s, t) && s.threads[t].pc.WWait? && s.threads[t].timed
  }

  ghost predicate ExpiredAlong(s: State, es: seq<Event>, t: nat) {
    exists k :: 0 <= k < |es| && Expires(Exec(Step, s, es[..k]), es[k], t)
  }

  lemma ExpiredSnoc(s: State, es: seq<Event>, e: Event, t: nat)
    ensures ExpiredAlong(s, es + [e], t) <==> ExpiredAlong(s, es, t) || Expires(Exec(Step, s, es), e, t)
  {
    var fs := es + [e];
    assert fs[..|es|] == es;
    forall k | 0 <= k < |es| ensures fs[..k] == es[..k] && fs[k] == es[k] {}
    if ExpiredAlong(s, es, t) {
      var k :| 0 <= k < |es| && Expires(Exec(Step, s, es[..k]), es[k], t);
      assert Expires(Exec(Step, s, fs[..k]), fs[k], t);
    }
    if Expires(Exec(Step, s, es), e, t) {
      assert Expires(Exec(Step, s, fs[..|es|]), fs[|es|], t);
    }
  }

  lemma RelockKeepsCode(s: State, t: nat)
    requires Inv(s) && Has(s, t) && s.threads[t].pc.Relock?
    ensures RelockAccess(s, t).threads[t].returncode == s.threads[t].returncode
  {
    assert ThreadInv(s, t);
    M.InvGivesMoverPre(s.mutex, t);
    if !s.mutex.threads[t].pc.Ready? {
      LockCall(s.mutex, t);
    }
  }

  /** The return code of a wait becomes ETIMEDOUT when it times out, and stays. */
  lemma CodeStep(s: State, e: Event, t: nat)
    requires Inv(s) && Has(s, t) && Inside(s.threads[t].pc)
    ensures |Step(s, e).threads| == |s.threads|
    ensures Step(s, e).threads[t].returncode.ETIMEDOUT? <==> s.threads[t].returncode.ETIMEDOUT? || Expires(s, e, t)
  {
    EntryKept(s, e, t);
    if e.tid != t {
      OnlyMoverMoves(s, e, t);
      StepKeepsInv(s, e);
    } else if s.threads[t].pc.Relock? {
      RelockKeepsCode(s, t);
    }
  }

  lemma {:induction false} CodeAlong(s: State, es: seq<Event>, t: nat)
    requires Inv(s) && Has(s, t) && InsideAlong(s, es, t)
    ensures |Exec(Step, s, es).threads| == |s.threads|
    ensures Exec(Step, s, es).threads[t].returncode.ETIMEDOUT?
      <==> s.threads[t].returncode.ETIMEDOUT? || ExpiredAlong(s, es, t)
  {
    if es != [] {
      var k := |es| - 1;
      assert es == es[..k] + [es[k]];
      PrefixInside(s, es[..k], es[k], t);
      CodeAlong(s, es[..k], t);
      EntryKeptAlong(s, es[..k], t);
      CodeStep(Exec(Step, s, es[..k]), es[k], t);
      ExpiredSnoc(s, es[..k], es[k], t);
    }
  }

  lemma ReturnsItsCode(s: State, e: Event, t: nat)
    requires Inv(s) && Has(s, t) && Inside(s.threads[t].pc)
    ensures Has(Step(s, e), t) && Step(s, e).threads[t].pc.Ready? ==>
      !Expires(s, e, t) && Step(s, e).threads[t].result == s.threads[t].returncode
  {
    ReturnStep(s, e, t);
  }

  /** A wait returns ETIMEDOUT if and only if it timed out on the way. */
  lemma {:induction false} TimeOutIsReported(s1: State, t: nat, es: seq<Event>, last: Event, s': State)
    requires Inv(s1) && Has(s1, t) && s1.threads[t].returncode.OK? && InsideAlong(s1, es + [last], t)
    requires s' == Exec(Step, s1, es + [last]) && Has(s', t) && s'.threads[t].pc.Ready?
    ensures s'.threads[t].result.ETIMEDOUT? <==> ExpiredAlong(s1, es + [last], t)
  {
    var x := Exec(Step, s1, es);
    PrefixInside(s1, es, last, t);
    EntryKeptAlong(s1, es, t);
    CodeAlong(s1, es, t);
    ExecSnoc(Step, s1, es, last);
    ReturnsItsCode(x, last, t);
    ExpiredSnoc(s1, es, last, t);
  }

  // ----- Control never deadlocks with the mutex -----

  /** A thread that holds control is never at a blocking access of the mutex, and its next
      step is enabled. */
  lemma ControllerMoves(s: State, t: nat)
    requires Inv(s) && Has(s, t) && Controls(s.threads[t]) == 1
    ensures !s.mutex.threads[t].pc.LockWait? && !s.mutex.threads[t].pc.CeilWait?
    ensures Step(s, Event(t, Go)) != s
  {
    InvGivesMoverPre(s, t);
    assert ThreadInv(s, t);
    if s.threads[t].pc.CbUnlock? && !s.mutex.threads[t].pc.Ready? {
      UnlockMoves(s.mutex, t);
    } else if s.threads[t].pc.CbUnlock? {
      assert M.Start(s.mutex, t, M.CallUnlock).threads[t].pc.UnlockTest?;
    } else {
      assert Step(s, Event(t, Go)).threads[t].pc != s.threads[t].pc;
    }
  }

  lemma UnlockMoves(m: M.State, t: nat)
    requires t < |m.threads| && M.InUnlock(m.threads[t].pc)
    ensures M.Advance(m, t).threads[t].pc != m.threads[t].pc
  {
  }

  /** So in every reachable state where control is taken, exactly one thread has it, and
      that thread can move. */
  lemma ControlHolderMoves(s: State, es: seq<Event>, s': State) returns (t: nat)
    requires Init(s) && s' == Exec(Step, s, es) && s'.control.count == 0
    ensures Has(s', t) && Controls(s'.threads[t]) == 1
    ensures forall u :: 0 <= u < |s'.threads| && u != t ==> Controls(s'.threads[u]) == 0
    ensures !s'.mutex.threads[t].pc.LockWait? && Step(s', Event(t, Go)) != s'
  {
    RunInv(s, es);
    t := SumWitness(s'.threads, Controls);
    forall u | 0 <= u < |s'.threads| && u != t ensures Controls(s'.threads[u]) == 0 {
      ControlIsExclusive(s', t, u);
    }
    ControllerMoves(s', t);
  }

  /** Accesses an unlock call has left at most. */
  function UnlockLeft(pc: M.Pc): nat {
    match pc
    case UnlockTest => 5
    case UnlockLoad => 4
    case UnlockNull => 3
    case UnlockClear => 2
    case UnlockStore(_) => 1
    case UnlockPost => 1
    case _ => 0
  }

  /** Accesses left, at most, until the holder of control gives it back. */
  function ControlLeft(th: Thread, mt: M.Thread): int {
    match th.pc
    case WCount => 6 * th.entry + 5
    case WNotify => 6 * th.entry + 4
    case CbRead => 6 * th.entry + 3
    case CbUnlock(i) => 6 * (th.entry - i) + 2 - (if mt.pc.Ready? then 0 else 6 - UnlockLeft(mt.pc))
    case STest => 4 case SPost => 3 case SCount => 2 case SRelease => 1
    case BTest => 4 case BPost => 3 case BZero(_) => 2 case BRelease => 1
    case TCount => 2 case TRelease => 1
    case CbControl => 1
    case _ => 0
  }

  lemma ControlLeftBound(s: State, t: nat)
    requires Inv(s) && Has(s, t) && Controls(s.threads[t]) == 1
    ensures 1 <= ControlLeft(s.threads[t], s.mutex.threads[t])
         <= if Inside(s.threads[t].pc) then 6 * s.threads[t].entry + 5 else 4
  {
    assert ThreadInv(s, t);
  }

  /** The event at which t gives control back. */
  predicate Releases(s: State, e: Event, t: nat) {
    && e == Event(t, Go) && Has(s, t) && Controls(s.threads[t]) == 1
    && var s' := Step(s, e); Has(s', t) && Controls(s'.threads[t]) == 0 && s'.control.count == 1
  }

  lemma CallbackComesNearer(s: State, t: nat)
    requires Inv(s) && Has(s, t) && s.threads[t].pc.CbUnlock?
    ensures var s' := Step(s, Event(t, Go));
      && Has(s', t) && Controls(s'.threads[t]) == 1
      && ControlLeft(s'.threads[t], s'.mutex.threads[t]) < ControlLeft(s.threads[t], s.mutex.threads[t])
  {
    assert ThreadInv(s, t);
    M.InvGivesMoverPre(s.mutex, t);
    if !s.mutex.threads[t].pc.Ready? {
      UnlockComesNearer(s.mutex, t);
    }
  }

  lemma UnlockComesNearer(m: M.State, t: nat)
    requires t < |m.threads| && M.InUnlock(m.threads[t].pc)
    ensures |M.UnlockAccess(m, t).threads| == |m.threads|
    ensures var pc' := M.UnlockAccess(m, t).threads[t].pc;
      pc'.Ready? || (M.InUnlock(pc') && UnlockLeft(pc') < UnlockLeft(m.threads[t].pc))
  {
  }

  predicate Nearer(s: State, s': State, t: nat)
    requires Has(s, t)
  {
    && Has(s', t)
    && (Controls(s'.threads[t]) == 0 ==> s'.control.count == 1)
    && (Controls(s'.threads[t]) != 0 ==>
          && Controls(s'.threads[t]) == 1
          && ControlLeft(s'.threads[t], s'.mutex.threads[t]) < ControlLeft(s.threads[t], s.mutex.threads[t]))
  }

  lemma WaitComesNearer(s: State, t: nat)
    requires MoverPre(s, t) && InWait(s.threads[t].pc) && Controls(s.threads[t]) == 1
    ensures Nearer(s, WaitAccess(s, t), t)
  {
  }

  lemma SignalComesNearer(s: State, t: nat)
    requires MoverPre(s, t) && InSignal(s.threads[t].pc) && Controls(s.threads[t]) == 1
    ensures Nearer(s, SignalAccess(s, t), t)
  {
  }

  lemma BroadcastComesNearer(s: State, t: nat)
    requires MoverPre(s, t) && InBroadcast(s.threads[t].pc) && Controls(s.threads[t]) == 1
    ensures Nearer(s, BroadcastAccess(s, t), t)
  {
  }

  lemma CallbackEndComesNearer(s: State, t: nat)
    requires MoverPre(s, t) && (s.threads[t].pc.CbRead? || s.threads[t].pc.CbControl?)
    ensures Nearer(s, CallbackAccess(s, t), t)
  {
  }

  /** The holder's own access gives control back or comes nearer to it. */
  lemma HolderComesNearer(s: State, t: nat)
    requires Inv(s) && Has(s, t) && Controls(s.threads[t]) == 1
    ensures Nearer(s, Step(s, Event(t, Go)), t)
  {
    var pc := s.threads[t].pc;
    InvGivesMoverPre(s, t);
    if pc.CbUnlock? {
      CallbackComesNearer(s, t);
    } else if InWait(pc) {
      WaitComesNearer(s, t);
    } else if InSignal(pc) {
      SignalComesNearer(s, t);
    } else if InBroadcast(pc) {
      BroadcastComesNearer(s, t);
    } else {
      CallbackEndComesNearer(s, t);
    }
  }

  /** Nothing else moves it. */
  lemma HolderStays(s: State, e: Event, t: nat)
    requires Inv(s) && Has(s, t) && Controls(s.threads[t]) == 1 && e != Event(t, Go)
    ensures var s' := Step(s, e);
      Has(s', t) && s'.threads[t] == s.threads[t] && s'.mutex.threads[t] == s.mutex.threads[t]
  {
    if e.tid != t {
      StepKeepsInv(s, e);
      EntrySizes(s, e);
      OnlyMoverMoves(s, e, t);
      MutexMovesByItsOwnSteps(s, e);
      var p := Projection(s, e);
      if p.Some? && p.value.tid < |s.mutex.threads| {
        M.StepTouchesMover(s.mutex, p.value);
      }
    }
  }

  lemma EntrySizes(s: State, e: Event)
    requires Inv(s)
    ensures |Step(s, e).threads| == |s.threads|
  {
  }

  ghost predicate ReleasedAlong(s: State, es: seq<Event>, t: nat) {
    exists k :: 0 <= k < |es| && Releases(Exec(Step, s, es[..k]), es[k], t)
  }

  /** Thread t holds control in a state of some run. */
  ghost predicate Holding(x: State, t: nat) { Inv(x) && Has(x, t) && Controls(x.threads[t]) == 1 }

  ghost function Away(x: State, t: nat): int {
    if Has(x, t) then ControlLeft(x.threads[t], x.mutex.threads[t]) else 0
  }

  /** Control is always given back: from any reachable state, whatever the other threads do,
      its holder releases it within as many of its own accesses as ControlLeft says, which
      is at most 6 for each level of the mutex and 5 more, or 4 for a signaller. */
  lemma {:induction false} ControlIsGivenBack(s: State, es: seq<Event>, t: nat, s': State, fs: seq<Event>)
    requires Init(s) && s' == Exec(Step, s, es) && Has(s', t) && Controls(s'.threads[t]) == 1
    requires Occurrences(fs, Event(t, Go)) >= ControlLeft(s'.threads[t], s'.mutex.threads[t])
    ensures ReleasedAlong(s', fs, t)
  {
    RunInv(s, es);
    GivenBackFrom(s', t, fs);
  }

  lemma GivenBackFrom(s: State, t: nat, fs: seq<Event>)
    requires Holding(s, t) && Occurrences(fs, Event(t, Go)) >= Away(s, t)
    ensures ReleasedAlong(s, fs, t)
  {
    var go := Event(t, Go);
    var holds, away := (x: State) => Holding(x, t), (x: State) => Away(x, t);
    forall x, f | holds(x) && f != go ensures holds(Step(x, f)) && away(Step(x, f)) == away(x) {
      StepKeepsInv(x, f);
      HolderStays(x, f, t);
    }
    forall x | holds(x) && holds(Step(x, go)) ensures away(Step(x, go)) < away(x) {
      HolderComesNearer(x, t);
    }
    LeftInTime(Step, s, fs, go, holds, away);
    if k :| 0 <= k < |fs| && LeavesAt(Step, s, fs, go, holds, k) {
      ReleasesThere(Exec(Step, s, fs[..k]), t);
    } else {
      ControlLeftBound(Exec(Step, s, fs), t);
    }
  }

  lemma ReleasesThere(x: State, t: nat)
    requires Holding(x, t) && !Holding(Step(x, Event(t, Go)), t)
    ensures Releases(x, Event(t, Go), t)
  {
    StepKeepsInv(x, Event(t, Go));
    HolderComesNearer(x, t);
  }

  // ----- The mutex inside -----

  /** The mutex events of a run, in order. */
  function Projections(s: State, es: seq<Event>): seq<M.Event> {
    if es == [] then [] else
      var k := |es| - 1;
      var p := Projection(Exec(Step, s, es[..k]), es[k]);
      Projections(s, es[..k]) + (if p.Some? then [p.value] else [])
  }

  /** Every run of the condition variable is, seen from its mutex, a lawful run of the
      mutex machine, so whatever the mutex promises holds here too. */
  lemma {:induction false} RefinesMutex(s: State, es: seq<Event>)
    requires Init(s)
    ensures Exec(Step, s, es).mutex == Exec(M.LawfulStep, s.mutex, Projections(s, es))
  {
    if es != [] {
      var k := |es| - 1;
      var x := Exec(Step, s, es[..k]);
      RefinesMutex(s, es[..k]);
      RunInv(s, es[..k]);
      MutexMovesByItsOwnSteps(x, es[k]);
      var p := Projection(x, es[k]);
      if p.Some? {
        ExecSnoc(M.LawfulStep, s.mutex, Projections(s, es[..k]), p.value);
      } else {
        assert Projections(s, es) == Projections(s, es[..k]);
      }
    }
  }
}
