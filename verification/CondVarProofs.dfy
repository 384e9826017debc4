/** Every step of the condition-variable machine keeps its invariant. */
module CondVarProofs {
  import opened Kernel
  import opened Sums
  import opened Runs
  import opened CondVar
  import M = Mutex

  // ----- The calls into the mutex -----

  /** The mutex event a condition-variable event amounts to, if any. */
  function Projection(s: State, e: Event): Option<M.Event> {
    var t := e.tid;
    if !Has(s, t) then None
    else if s.threads[t].pc.Ready? then
      if e.act.User? then Some(M.Event(t, e.act.act)) else None
    else if !e.act.Go? || !(s.threads[t].pc.CbUnlock? || s.threads[t].pc.Relock?) then None
    else if !s.mutex.threads[t].pc.Ready? then Some(M.Event(t, M.Go))
    else if s.threads[t].pc.i > s.threads[t].recursivecount then None
    else Some(M.Event(t, if s.threads[t].pc.CbUnlock? then M.CallUnlock else M.CallLock(false)))
  }

  /** The mutex inside the machine moves only by lawful steps of the mutex machine. */
  lemma MutexMovesByItsOwnSteps(s: State, e: Event)
    requires Has(s, e.tid) ==> ThreadInv(s, e.tid)
    ensures Step(s, e).mutex ==
      (match Projection(s, e) case None => s.mutex case Some(me) => M.LawfulStep(s.mutex, me))
    ensures Projection(s, e).Some? ==> Projection(s, e).value.tid == e.tid
  {
  }

  /** An unlock call by a thread of positive depth never fails and lowers it by one. */
  lemma UnlockCall(m: M.State, t: nat)
    requires M.MoverPre(m, t) && M.InUnlock(m.threads[t].pc) && M.Gross(m.threads[t]) >= 1
    ensures var mt' := M.UnlockAccess(m, t).threads[t];
      if mt'.pc.Ready? then mt'.result.OK? && M.Gross(mt') == M.Gross(m.threads[t]) - 1
      else M.InUnlock(mt'.pc) && M.Gross(mt') == M.Gross(m.threads[t])
  {
  }

  /** An untimed lock call never fails (an errorcheck mutex is not relocked) and raises
      the depth by one. */
  lemma LockCall(m: M.State, t: nat)
    requires M.MoverPre(m, t) && M.InUntimedLock(m.threads[t].pc)
    requires !m.kind.Recursive? ==> M.Gross(m.threads[t]) == 0
    ensures var mt' := M.LockAccess(m, t).threads[t];
      if mt'.pc.Ready? then mt'.result.OK? && M.Gross(mt') == M.Gross(m.threads[t]) + 1
      else M.InUntimedLock(mt'.pc) && M.Gross(mt') == M.Gross(m.threads[t])
  {
  }

  // ----- The mover -----

  ghost predicate MoverPre(s: State, t: nat) {
    && Has(s, t) && ThreadInv(s, t)
    && s.control.max == 1 && s.control.count + Controls(s.threads[t]) <= 1
    && s.lock.max == INT_MAX && s.lock.count <= |s.threads| <= INT_MAX
    && (s.threads[t].pc.SPost? ==> s.lock.count + 1 <= |s.threads|)
    && (s.threads[t].pc.BPost? ==> s.lock.count + s.NbWait <= |s.threads|)
  }

  /** What the mover is about to post to `lock`. */
  function AboutToPost(s: State, t: nat): int
    requires Has(s, t)
  {
    if s.threads[t].pc.SPost? then 1 else if s.threads[t].pc.BPost? then s.NbWait else 0
  }

  ghost predicate MoverPost(s: State, t: nat, s': State)
    requires Has(s, t)
  {
    && |s'.threads| == |s.threads| && (forall u :: 0 <= u < |s.threads| && u != t ==> s'.threads[u] == s.threads[u])
    && (s'.mutex == s.mutex || M.MoverPost(s.mutex, t, s'.mutex))
    && ThreadInv(s', t)
    && Moved(s, t, s')
  }

  /** The numbers: control is accounted for, the balance is kept, timed-out waits are
      uncounted once, and only the holder of control changes NbWait. */
  predicate Moved(s: State, t: nat, s': State)
    requires Has(s, t) && |s'.threads| == |s.threads|
  {
    var th, th' := s.threads[t], s'.threads[t];
    && s'.control.max == 1 && s'.control.count + Controls(th') == s.control.count + Controls(th)
    && s'.lock.max == INT_MAX && s'.lock.count <= |s.threads|
    && s'.NbWait + s'.lock.count - Waiting(th') - Expired(th') - Posted(th')
       == s.NbWait + s.lock.count - Waiting(th) - Expired(th) - Posted(th)
    && s'.timeouts - Expired(th') >= s.timeouts - Expired(th)
    && s'.NbWait + s'.timeouts - Expired(th') - Posted(th')
       >= s.NbWait + s.timeouts - Expired(th) - Posted(th) - AboutToPost(s, t)
    && (s'.NbWait == s.NbWait || Controls(th) == 1)
    && (s'.NbWait <= s.NbWait || s'.NbWait <= 0 || (th.pc.WCount? && Posted(th') == 0))
  }

  lemma StartKeepsMover(s: State, t: nat, act: Act)
    requires MoverPre(s, t) && s.threads[t].pc.Ready? && M.MoverPre(s.mutex, t)
    ensures MoverPost(s, t, Start(s, t, act))
  {
    if act.User? {
      UserKeepsMover(s, t, act.act);
    } else if act.CallWait? && s.mutex.threads[t].pc.Ready? {
      DepthIsGross(s.mutex, t);
    }
  }

  lemma UserKeepsMover(s: State, t: nat, a: M.Act)
    requires MoverPre(s, t) && s.threads[t].pc.Ready? && M.MoverPre(s.mutex, t)
    ensures MoverPost(s, t, Start(s, t, User(a)))
  {
    if M.Lawful(s.mutex, M.Event(t, a)) {
      M.StepKeepsMover(s.mutex, M.Event(t, a));
    }
  }

  lemma DepthIsGross(m: M.State, t: nat)
    requires M.MoverPre(m, t) && m.threads[t].pc.Ready?
    ensures M.Depth(m.threads[t]) == M.Gross(m.threads[t]) >= 0
    ensures M.Gross(m.threads[t]) > 0 ==> m.owner == Some(t) && m.recursivecount == M.Gross(m.threads[t]) - 1
    ensures !m.kind.Recursive? ==> M.Gross(m.threads[t]) <= 1
  {
  }

  lemma WaitKeepsMover(s: State, t: nat)
    requires MoverPre(s, t) && InWait(s.threads[t].pc)
    ensures MoverPost(s, t, WaitAccess(s, t))
  {
  }

  lemma ExpireKeepsMover(s: State, t: nat)
    requires MoverPre(s, t) && s.threads[t].pc.WWait? && s.threads[t].timed
    ensures MoverPost(s, t, Expire(s, t))
  {
  }

  lemma CallbackKeepsMover(s: State, t: nat)
    requires MoverPre(s, t) && InCallback(s.threads[t].pc) && M.MoverPre(s.mutex, t)
    ensures MoverPost(s, t, CallbackAccess(s, t))
  {
    if s.threads[t].pc.CbUnlock? && !s.mutex.threads[t].pc.Ready? {
      UnlockStepKeepsMover(s, t);
    } else if s.threads[t].pc.CbRead? {
      DepthIsGross(s.mutex, t);
    }
  }

  lemma UnlockStepKeepsMover(s: State, t: nat)
    requires MoverPre(s, t) && s.threads[t].pc.CbUnlock? && !s.mutex.threads[t].pc.Ready? && M.MoverPre(s.mutex, t)
    ensures MoverPost(s, t, CallbackAccess(s, t))
  {
    UnlockCall(s.mutex, t);
    M.UnlockKeepsMover(s.mutex, t);
    MutexStepKeepsMover(s, t, M.UnlockAccess(s.mutex, t), CallbackAccess(s, t));
  }

  lemma RelockKeepsMover(s: State, t: nat)
    requires MoverPre(s, t) && s.threads[t].pc.Relock? && M.MoverPre(s.mutex, t)
    ensures MoverPost(s, t, RelockAccess(s, t))
  {
    if !s.mutex.threads[t].pc.Ready? {
      LockStepKeepsMover(s, t);
    }
  }

  lemma LockStepKeepsMover(s: State, t: nat)
    requires MoverPre(s, t) && s.threads[t].pc.Relock? && !s.mutex.threads[t].pc.Ready? && M.MoverPre(s.mutex, t)
    ensures MoverPost(s, t, RelockAccess(s, t))
  {
    LockCall(s.mutex, t);
    M.LockKeepsMover(s.mutex, t);
    MutexStepKeepsMover(s, t, M.LockAccess(s.mutex, t), RelockAccess(s, t));
  }

  /** A step inside a mutex call: the mutex moves, the loop counter may advance. */
  lemma MutexStepKeepsMover(s: State, t: nat, m: M.State, s': State)
    requires MoverPre(s, t) && M.MoverPost(s.mutex, t, m) && s' == s.(mutex := m, threads := s'.threads)
    requires |s'.threads| == |s.threads|
    requires forall u :: 0 <= u < |s.threads| && u != t ==> s'.threads[u] == s.threads[u]
    requires ThreadInv(s', t)
    requires var th, th' := s.threads[t], s'.threads[t];
      (th.pc.CbUnlock? && th'.pc.CbUnlock?) || (th.pc.Relock? && th'.pc.Relock?)
    ensures MoverPost(s, t, s')
  {
  }

  lemma SignalMoves(s: State, t: nat)
    requires MoverPre(s, t) && InSignal(s.threads[t].pc)
    ensures |SignalAccess(s, t).threads| == |s.threads| && Moved(s, t, SignalAccess(s, t))
  {
  }

  lemma SignalKeepsMover(s: State, t: nat)
    requires MoverPre(s, t) && InSignal(s.threads[t].pc)
    ensures MoverPost(s, t, SignalAccess(s, t))
  {
    SignalMoves(s, t);
  }

  lemma BroadcastMoves(s: State, t: nat)
    requires MoverPre(s, t) && InBroadcast(s.threads[t].pc)
    ensures |BroadcastAccess(s, t).threads| == |s.threads| && Moved(s, t, BroadcastAccess(s, t))
  {
  }

  lemma BroadcastKeepsMover(s: State, t: nat)
    requires MoverPre(s, t) && InBroadcast(s.threads[t].pc)
    ensures MoverPost(s, t, BroadcastAccess(s, t))
  {
    BroadcastMoves(s, t);
  }

  lemma StepKeepsMover(s: State, e: Event)
    requires MoverPre(s, e.tid) && M.MoverPre(s.mutex, e.tid)
    ensures MoverPost(s, e.tid, Step(s, e))
  {
    var t := e.tid;
    var pc := s.threads[t].pc;
    if pc.Ready? {
      StartKeepsMover(s, t, e.act);
    } else if e.act.Go? {
      if InWait(pc) {
        WaitKeepsMover(s, t);
      } else if InCallback(pc) {
        CallbackKeepsMover(s, t);
      } else if pc.Relock? {
        RelockKeepsMover(s, t);
      } else if InSignal(pc) {
        SignalKeepsMover(s, t);
      } else {
        BroadcastKeepsMover(s, t);
      }
    } else if e.act.TimeOut? && pc.WWait? && s.threads[t].timed {
      ExpireKeepsMover(s, t);
    }
  }

  // ----- Everybody -----

  lemma ControlIsExclusive(s: State, t: nat, u: nat)
    requires Inv(s) && t < |s.threads| && u < |s.threads| && t != u
    ensures Controls(s.threads[t]) + Controls(s.threads[u]) <= 1
  {
    SumAtLeastTwo(s.threads, if t < u then t else u, if t < u then u else t, Controls);
  }

  lemma OthersKept(s: State, t: nat, s': State, u: nat)
    requires Has(s, t) && Has(s, u) && u != t
    requires ThreadInv(s, u) && MoverPost(s, t, s')
    requires Controls(s.threads[t]) + Controls(s.threads[u]) <= 1
    ensures ThreadInv(s', u)
  {
    assert s'.threads[u] == s.threads[u] && s'.mutex.threads[u] == s.mutex.threads[u];
  }

  /** While t holds control and has posted nothing, nobody has posted anything. */
  lemma NothingPosted(s: State, t: nat)
    requires Inv(s) && t < |s.threads| && Controls(s.threads[t]) == 1 && Posted(s.threads[t]) == 0
    ensures Sum(s.threads, Posted) == 0
  {
    if Sum(s.threads, Posted) > 0 {
      var u := SumWitness(s.threads, Posted);
      ControlIsExclusive(s, t, u);
    }
    SumNonNegative(s.threads, Posted);
  }

  /** So a post fits: there are never more units than threads. */
  lemma RoomToPost(s: State, t: nat)
    requires Inv(s) && t < |s.threads| && (s.threads[t].pc.SPost? || s.threads[t].pc.BPost?)
    ensures Sum(s.threads, Posted) == 0
    ensures s.lock.count + s.NbWait <= |s.threads| && s.NbWait > 0
  {
    assert ThreadInv(s, t);
    NothingPosted(s, t);
    WaitersAreThreads(s.threads);
  }

  lemma WaitersAreThreads(threads: seq<Thread>)
    ensures 0 <= Sum(threads, Waiting) && 0 <= Sum(threads, Expired)
    ensures Sum(threads, Waiting) + Sum(threads, Expired) <= |threads|
  {
    SumNonNegative(threads, Waiting);
    SumNonNegative(threads, Expired);
    var either := (th: Thread) => Waiting(th) + Expired(th);
    SumOfSplit(threads, either, Waiting, Expired);
    SumBounds(threads, 0, 1, either);
  }

  lemma InvGivesMoverPre(s: State, t: nat)
    requires Inv(s) && Has(s, t)
    ensures MoverPre(s, t) && M.MoverPre(s.mutex, t)
  {
    M.InvGivesMoverPre(s.mutex, t);
    SumAtLeast(s.threads, t, Controls);
    if s.threads[t].pc.SPost? || s.threads[t].pc.BPost? {
      RoomToPost(s, t);
    }
  }

  lemma SumsMove(s: State, t: nat, s': State)
    requires Has(s, t) && MoverPost(s, t, s')
    ensures Sum(s'.threads, Controls) == Sum(s.threads, Controls) - Controls(s.threads[t]) + Controls(s'.threads[t])
    ensures Sum(s'.threads, Waiting) == Sum(s.threads, Waiting) - Waiting(s.threads[t]) + Waiting(s'.threads[t])
    ensures Sum(s'.threads, Expired) == Sum(s.threads, Expired) - Expired(s.threads[t]) + Expired(s'.threads[t])
    ensures Sum(s'.threads, Posted) == Sum(s.threads, Posted) - Posted(s.threads[t]) + Posted(s'.threads[t])
  {
    assert s'.threads == s.threads[t := s'.threads[t]];
    SumUpdate(s.threads, t, s'.threads[t], Controls);
    SumUpdate(s.threads, t, s'.threads[t], Waiting);
    SumUpdate(s.threads, t, s'.threads[t], Expired);
    SumUpdate(s.threads, t, s'.threads[t], Posted);
  }

  lemma BalanceKept(s: State, t: nat, s': State)
    requires Inv(s) && Has(s, t) && MoverPost(s, t, s')
    ensures Balanced(s') && s'.NbWait <= |s'.threads|
  {
    SumsMove(s, t, s');
    WaitersAreThreads(s'.threads);
    if s.threads[t].pc.SPost? || s.threads[t].pc.BPost? {
      RoomToPost(s, t);
    } else if s.threads[t].pc.WCount? {
      NothingPosted(s, t);
    }
  }

  lemma StepKeepsInv(s: State, e: Event)
    requires Inv(s)
    ensures Inv(Step(s, e))
  {
    var s', t := Step(s, e), e.tid;
    if Has(s, t) {
      InvGivesMoverPre(s, t);
      StepKeepsMover(s, e);
      SumsMove(s, t, s');
      BalanceKept(s, t, s');
      MutexKept(s, e);
      forall u | 0 <= u < |s.threads|
        ensures ThreadInv(s', u)
      {
        if u != t {
          ControlIsExclusive(s, t, u);
          OthersKept(s, t, s', u);
        }
      }
    }
  }

  lemma MutexKept(s: State, e: Event)
    requires Inv(s)
    ensures M.Inv(Step(s, e).mutex)
  {
    MutexMovesByItsOwnSteps(s, e);
    match Projection(s, e)
    case None =>
    case Some(me) =>
      if M.Lawful(s.mutex, me) {
        M.StepKeepsInv(s.mutex, me);
      }
  }

  lemma RunInv(s: State, es: seq<Event>)
    requires Init(s)
    ensures Inv(Exec(Step, s, es))
  {
    InitInv(s);
    forall x, e | Inv(x) ensures Inv(Step(x, e)) {
      StepKeepsInv(x, e);
    }
    InvariantOfRuns(Step, Inv, s, es);
  }
}
