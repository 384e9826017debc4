/** What whole calls of signal, broadcast and wait do and return, whatever the other threads
    do between their accesses. */
module CondVarCalls {
  import opened Kernel
  import opened Sums
  import opened Runs
  import opened CondVar
  import opened CondVarProofs
  import opened CondVarTheorems
  import M = Mutex
  import MC = MutexCalls

  predicate Busy(s: State, t: nat) { Has(s, t) && !s.threads[t].pc.Ready? }

  function One(b: bool): nat { if b then 1 else 0 }

  /** The event by which t posts one unit to `lock` ... */
  function Posts(t: nat): (State, Event) -> bool {
    (s: State, e: Event) => e.tid == t && Step(s, e).lock.count == s.lock.count + 1
  }

  /** ... or takes one. */
  function Takes(t: nat): (State, Event) -> bool {
    (s: State, e: Event) => e.tid == t && Step(s, e).lock.count == s.lock.count - 1
  }

  /** After one of t's own accesses along es, every waiter has a unit. */
  ghost predicate Served(s: State, es: seq<Event>, t: nat) {
    exists k :: 0 <= k < |es| && es[k].tid == t && EveryWaiterHasAUnit(Exec(Step, s, es[..k + 1]))
  }

  lemma ServedSnoc(s: State, es: seq<Event>, e: Event, t: nat)
    ensures Served(s, es, t) ==> Served(s, es + [e], t)
    ensures e.tid == t && EveryWaiterHasAUnit(Exec(Step, s, es + [e])) ==> Served(s, es + [e], t)
  {
    var fs := es + [e];
    assert fs[..|es| + 1] == fs;
    if Served(s, es, t) {
      var k :| 0 <= k < |es| && es[k].tid == t && EveryWaiterHasAUnit(Exec(Step, s, es[..k + 1]));
      assert fs[..k + 1] == es[..k + 1] && fs[k] == es[k];
    }
    if e.tid == t && EveryWaiterHasAUnit(Exec(Step, s, fs)) {
      assert fs[|es|].tid == t && EveryWaiterHasAUnit(Exec(Step, s, fs[..|es| + 1]));
    }
  }

  lemma SizesKept(s: State, e: Event)
    requires Inv(s)
    ensures |Step(s, e).threads| == |s.threads| && Inv(Step(s, e))
  {
    StepKeepsInv(s, e);
    EntrySizes(s, e);
  }

  // ----- pthread_cond_signal -----

  lemma SignalOwnStep(s: State, t: nat)
    requires Inv(s) && Has(s, t) && InSignal(s.threads[t].pc)
    ensures var s', pc := Step(s, Event(t, Go)), s.threads[t].pc;
      && Has(s', t)
      && var pc' := s'.threads[t].pc;
      && (pc'.Ready? || InSignal(pc'))
      && s'.lock.count == s.lock.count + One(pc.SPost?)
      && (pc.SPost? <==> pc'.SCount?)
      && (pc.SCount? ==> pc'.SRelease?)
      && (pc'.SRelease? && !pc.SCount? && !pc.SRelease? ==> s'.NbWait <= 0)
      && (pc'.Ready? ==> s'.threads[t].result.OK? && (pc.SRelease? || s'.NbWait <= 0))
  {
    InvGivesMoverPre(s, t);
    SizesKept(s, Event(t, Go));
    SignalMoves(s, t);
  }

  lemma OthersKeep(s: State, e: Event, t: nat)
    requires Inv(s) && Has(s, t) && e.tid != t
    ensures Has(Step(s, e), t) && Step(s, e).threads[t] == s.threads[t] && Inv(Step(s, e))
  {
    SizesKept(s, e);
    OnlyMoverMoves(s, e, t);
  }

  lemma SignalStep(s: State, e: Event, t: nat)
    requires Inv(s) && Has(s, t) && InSignal(s.threads[t].pc)
    ensures Inv(Step(s, e)) && Has(Step(s, e), t)
    ensures e != Event(t, Go) ==> Step(s, e).threads[t] == s.threads[t] && !Posts(t)(s, e)
    ensures e == Event(t, Go) ==> (Posts(t)(s, e) <==> s.threads[t].pc.SPost?)
    ensures !Takes(t)(s, e)
  {
    if e.tid != t {
      OthersKeep(s, e, t);
    } else {
      SizesKept(s, e);
      if e.act.Go? {
        SignalOwnStep(s, t);
      }
    }
  }

  /** What t's signal has done when it is at pc. */
  ghost predicate SignalDone(s1: State, es: seq<Event>, t: nat, pc: Pc) {
    && Times(Step, s1, es, Takes(t)) == 0
    && (pc.SCount? ==> Times(Step, s1, es, Posts(t)) == 1)
    && (pc.SRelease? || pc.Ready? ==>
          || Times(Step, s1, es, Posts(t)) == 1
          || (Times(Step, s1, es, Posts(t)) == 0 && Served(s1, es, t)))
    && (!pc.SCount? && !pc.SRelease? && !pc.Ready? ==> Times(Step, s1, es, Posts(t)) == 0)
  }

  lemma SignalGoesOn(s1: State, es: seq<Event>, t: nat, x: State, e: Event)
    requires x == Exec(Step, s1, es) && Inv(x) && Has(x, t) && InSignal(x.threads[t].pc)
    requires SignalDone(s1, es, t, x.threads[t].pc)
    ensures var x' := Step(x, e);
      && Inv(x') && Has(x', t) && SignalDone(s1, es + [e], t, x'.threads[t].pc)
      && (x'.threads[t].pc.Ready? || InSignal(x'.threads[t].pc))
      && (x'.threads[t].pc.Ready? ==> x'.threads[t].result.OK?)
  {
    var x' := Step(x, e);
    SignalStep(x, e, t);
    TimesSnoc(Step, s1, es, e, Posts(t));
    TimesSnoc(Step, s1, es, e, Takes(t));
    ServedSnoc(s1, es, e, t);
    ExecSnoc(Step, s1, es, e);
    if e == Event(t, Go) {
      SignalOwnStep(x, t);
      if x'.NbWait <= 0 {
        NothingToDo(x');
      }
    }
  }

  lemma {:induction false} SignalSoFar(s1: State, t: nat, es: seq<Event>)
    requires Inv(s1) && Has(s1, t) && s1.threads[t].pc.SRead? && Always(Step, s1, es, x => Busy(x, t))
    ensures var x := Exec(Step, s1, es);
      Inv(x) && Has(x, t) && InSignal(x.threads[t].pc) && SignalDone(s1, es, t, x.threads[t].pc)
  {
    if es != [] {
      var n := |es| - 1;
      assert es == es[..n] + [es[n]];
      AlwaysPrefix(Step, s1, es[..n], es[n], x => Busy(x, t));
      SignalSoFar(s1, t, es[..n]);
      SignalGoesOn(s1, es[..n], t, Exec(Step, s1, es[..n]), es[n]);
    }
  }

  /** What a whole signal has done: posted one unit, or else found, at one of its accesses,
      that every waiter has a unit already. */
  ghost predicate SignalVerdict(s1: State, es: seq<Event>, t: nat, s': State)
    requires t < |s'.threads|
  {
    && s'.threads[t].result.OK? && Times(Step, s1, es, Takes(t)) == 0
    && (Times(Step, s1, es, Posts(t)) == 1 || (Times(Step, s1, es, Posts(t)) == 0 && Served(s1, es, t)))
  }

  /** The verdict of every signal, in every run. */
  lemma {:induction false} SignalCallVerdict(s: State, t: nat, es: seq<Event>, last: Event)
    requires Inv(s) && Has(s, t) && s.threads[t].pc.Ready? && s.mutex.threads[t].pc.Ready?
    ensures var s1 := Step(s, Event(t, CallSignal));
      var s' := Step(Exec(Step, s1, es), last);
      Always(Step, s1, es, x => Busy(x, t)) && !Busy(s', t) ==>
        t < |s'.threads| && SignalVerdict(s1, es + [last], t, s')
  {
    var s1 := Step(s, Event(t, CallSignal));
    SizesKept(s, Event(t, CallSignal));
    if Always(Step, s1, es, x => Busy(x, t)) {
      SignalSoFar(s1, t, es);
      SignalGoesOn(s1, es, t, Exec(Step, s1, es), last);
    }
  }

  // ----- pthread_cond_broadcast -----

  lemma BroadcastOwnStep(s: State, t: nat)
    requires Inv(s) && Has(s, t) && InBroadcast(s.threads[t].pc)
    ensures var s', pc := Step(s, Event(t, Go)), s.threads[t].pc;
      && Has(s', t)
      && var pc' := s'.threads[t].pc;
      && (pc'.Ready? || InBroadcast(pc'))
      && (pc'.BRelease? && !pc.BRelease? ==> s'.NbWait <= 0)
      && (pc'.Ready? ==> s'.threads[t].result.OK? && (pc.BRelease? || s'.NbWait <= 0))
  {
    InvGivesMoverPre(s, t);
    SizesKept(s, Event(t, Go));
    BroadcastMoves(s, t);
  }

  lemma BroadcastGoesOn(s1: State, es: seq<Event>, t: nat, x: State, e: Event)
    requires x == Exec(Step, s1, es) && Inv(x) && Has(x, t) && InBroadcast(x.threads[t].pc)
    requires x.threads[t].pc.BRelease? ==> Served(s1, es, t)
    ensures var x' := Step(x, e);
      && Inv(x') && Has(x', t)
      && (x'.threads[t].pc.BRelease? || x'.threads[t].pc.Ready? ==> Served(s1, es + [e], t))
      && (x'.threads[t].pc.Ready? || InBroadcast(x'.threads[t].pc))
      && (x'.threads[t].pc.Ready? ==> x'.threads[t].result.OK?)
  {
    var x' := Step(x, e);
    ServedSnoc(s1, es, e, t);
    ExecSnoc(Step, s1, es, e);
    if e.tid != t {
      OthersKeep(x, e, t);
    } else {
      SizesKept(x, e);
      if e.act.Go? {
        BroadcastOwnStep(x, t);
        if x'.NbWait <= 0 {
          NothingToDo(x');
        }
      }
    }
  }

  lemma {:induction false} BroadcastSoFar(s1: State, t: nat, es: seq<Event>)
    requires Inv(s1) && Has(s1, t) && s1.threads[t].pc.BRead? && Always(Step, s1, es, x => Busy(x, t))
    ensures var x := Exec(Step, s1, es);
      && Inv(x) && Has(x, t) && InBroadcast(x.threads[t].pc)
      && (x.threads[t].pc.BRelease? ==> Served(s1, es, t))
  {
    if es != [] {
      var n := |es| - 1;
      assert es == es[..n] + [es[n]];
      AlwaysPrefix(Step, s1, es[..n], es[n], x => Busy(x, t));
      BroadcastSoFar(s1, t, es[..n]);
      BroadcastGoesOn(s1, es[..n], t, Exec(Step, s1, es[..n]), es[n]);
    }
  }

  /** The verdict of every broadcast, in every run: it returns 0, and after one of its
      accesses every waiter has a unit. */
  lemma {:induction false} BroadcastCallVerdict(s: State, t: nat, es: seq<Event>, last: Event)
    requires Inv(s) && Has(s, t) && s.threads[t].pc.Ready? && s.mutex.threads[t].pc.Ready?
    ensures var s1 := Step(s, Event(t, CallBroadcast));
      var s' := Step(Exec(Step, s1, es), last);
      Always(Step, s1, es, x => Busy(x, t)) && !Busy(s', t) ==>
        t < |s'.threads| && s'.threads[t].result.OK? && Served(s1, es + [last], t)
  {
    var s1 := Step(s, Event(t, CallBroadcast));
    SizesKept(s, Event(t, CallBroadcast));
    if Always(Step, s1, es, x => Busy(x, t)) {
      BroadcastSoFar(s1, t, es);
      BroadcastGoesOn(s1, es, t, Exec(Step, s1, es), last);
    }
  }

  // ----- pthread_cond_wait and pthread_cond_timedwait -----

  /** Past the wait on `lock`. */
  predicate Woken(pc: Pc) { pc.WAwake? || pc.TControl? || pc.TCount? || pc.TRelease? || pc.Relock? }

  /** Waiting, counted, with the mutex given up entirely. */
  predicate BlockedEntirely(s: State, t: nat) {
    Has(s, t) && Waiting(s.threads[t]) == 1 && M.Gross(s.mutex.threads[t]) == 0
  }

  ghost predicate WasBlocked(s1: State, es: seq<Event>, t: nat) {
    exists k :: 0 <= k <= |es| && BlockedEntirely(Exec(Step, s1, es[..k]), t)
  }

  lemma WasBlockedSnoc(s1: State, es: seq<Event>, e: Event, t: nat)
    ensures WasBlocked(s1, es, t) || BlockedEntirely(Exec(Step, s1, es), t) ==> WasBlocked(s1, es + [e], t)
  {
    var fs := es + [e];
    assert fs[..|es|] == es;
    if WasBlocked(s1, es, t) {
      var k :| 0 <= k <= |es| && BlockedEntirely(Exec(Step, s1, es[..k]), t);
      assert fs[..k] == es[..k];
    }
    if BlockedEntirely(Exec(Step, s1, es), t) {
      assert BlockedEntirely(Exec(Step, s1, fs[..|es|]), t);
    }
  }

  lemma WaitOwnStep(s: State, t: nat, e: Event)
    requires Inv(s) && Has(s, t) && Inside(s.threads[t].pc) && e.tid == t
    ensures var s', th := Step(s, e), s.threads[t];
      && Has(s', t)
      && var th' := s'.threads[t];
      && (th'.pc.Ready? || Inside(th'.pc))
      && (s'.lock.count == s.lock.count - 1 <==> !Woken(th.pc) && Woken(th'.pc) && th'.returncode.OK?)
      && (Woken(th'.pc) && !Woken(th.pc) ==> th.pc.WWait?)
      && (Woken(th.pc) ==> th'.pc.Ready? || Woken(th'.pc))
      && (th'.pc.Ready? ==> Woken(th.pc) && th'.result == th.returncode)
  {
    SizesKept(s, e);
    assert ThreadInv(s, t);
    OnlyRelockReturns(s, t, e.act);
  }

  lemma CodeInside(s: State, t: nat)
    requires Inv(s) && Has(s, t) && Inside(s.threads[t].pc)
    ensures s.threads[t].returncode.OK? || s.threads[t].returncode.ETIMEDOUT?
  {
    assert ThreadInv(s, t);
  }

  /** The return code does not change once the wait on `lock` is over. */
  lemma CodeKept(s: State, e: Event, t: nat, s': State)
    requires Inv(s) && Has(s, t) && Woken(s.threads[t].pc) && s' == Step(s, e)
    requires Has(s', t) && Inside(s'.threads[t].pc)
    ensures s'.threads[t].returncode.OK? <==> s.threads[t].returncode.OK?
  {
    SizesKept(s, e);
    CodeInside(s, t);
    CodeInside(s', t);
    CodeStep(s, e, t);
  }

  /** What t's wait has done when its record is th. */
  ghost predicate WaitDone(s1: State, es: seq<Event>, t: nat, th: Thread) {
    && Times(Step, s1, es, Takes(t)) == One(Woken(th.pc) && th.returncode.OK?)
    && (Woken(th.pc) ==> WasBlocked(s1, es, t))
  }

  /** An event's share in what t's wait has done. */
  predicate WaitMoves(x: State, e: Event, t: nat, x': State)
    requires Has(x, t) && Has(x', t)
  {
    var th, th' := x.threads[t], x'.threads[t];
    && (th'.pc.Ready? || Inside(th'.pc))
    && (Inside(th'.pc) ==>
          One(Woken(th'.pc) && th'.returncode.OK?) == One(Woken(th.pc) && th.returncode.OK?) + One(Takes(t)(x, e)))
    && (Woken(th'.pc) && !Woken(th.pc) ==> th.pc.WWait?)
    && (th'.pc.Ready? ==> Woken(th.pc) && th'.result == th.returncode && !Takes(t)(x, e))
  }

  lemma WaitStep(x: State, e: Event, t: nat)
    requires Inv(x) && Has(x, t) && Inside(x.threads[t].pc)
    ensures Inv(Step(x, e)) && Has(Step(x, e), t) && WaitMoves(x, e, t, Step(x, e))
  {
    SizesKept(x, e);
    if e.tid != t {
      OthersKeep(x, e, t);
    } else {
      WaitOwnStep(x, t, e);
      if Woken(x.threads[t].pc) && Inside(Step(x, e).threads[t].pc) {
        CodeKept(x, e, t, Step(x, e));
      }
    }
  }

  lemma WaitGoesOn(s1: State, es: seq<Event>, t: nat, x: State, e: Event)
    requires x == Exec(Step, s1, es) && Inv(x) && Has(x, t) && Inside(x.threads[t].pc)
    requires WaitDone(s1, es, t, x.threads[t])
    ensures var x' := Step(x, e);
      && Inv(x') && Has(x', t) && (x'.threads[t].pc.Ready? || Inside(x'.threads[t].pc))
      && (Inside(x'.threads[t].pc) ==> WaitDone(s1, es + [e], t, x'.threads[t]))
      && (x'.threads[t].pc.Ready? ==>
            Times(Step, s1, es + [e], Takes(t)) == One(x'.threads[t].result.OK?) && WasBlocked(s1, es + [e], t))
  {
    TimesSnoc(Step, s1, es, e, Takes(t));
    WasBlockedSnoc(s1, es, e, t);
    WaitStep(x, e, t);
    if x.threads[t].pc.WWait? {
      WaitingIsBlocked(x, t);
    }
  }

  lemma WaitingIsBlocked(x: State, t: nat)
    requires Inv(x) && Has(x, t) && x.threads[t].pc.WWait?
    ensures BlockedEntirely(x, t)
  {
    assert ThreadInv(x, t);
  }

  lemma {:induction false} WaitSoFar(s1: State, t: nat, es: seq<Event>)
    requires Inv(s1) && Has(s1, t) && s1.threads[t].pc.WControl? && Always(Step, s1, es, x => Busy(x, t))
    ensures var x := Exec(Step, s1, es);
      && Inv(x) && Has(x, t) && Inside(x.threads[t].pc) && WaitDone(s1, es, t, x.threads[t])
      && InsideAlong(s1, es + [Event(t, Go)], t)
  {
    if es == [] {
      var fs := [] + [Event(t, Go)];
      assert fs[..0] == [];
    } else {
      var n := |es| - 1;
      assert es == es[..n] + [es[n]];
      AlwaysPrefix(Step, s1, es[..n], es[n], x => Busy(x, t));
      WaitSoFar(s1, t, es[..n]);
      WaitGoesOn(s1, es[..n], t, Exec(Step, s1, es[..n]), es[n]);
      InsideExtends(s1, es[..n], es[n], Event(t, Go), t);
    }
  }

  lemma InsideExtends(s1: State, es: seq<Event>, e: Event, f: Event, t: nat)
    requires InsideAlong(s1, es + [f], t)
    requires Has(Exec(Step, s1, es + [e]), t) && Inside(Exec(Step, s1, es + [e]).threads[t].pc)
    ensures InsideAlong(s1, es + [e] + [f], t)
  {
    var gs := es + [e] + [f];
    forall k | 0 <= k < |gs| ensures Has(Exec(Step, s1, gs[..k]), t) && Inside(Exec(Step, s1, gs[..k]).threads[t].pc) {
      if k <= |es| {
        assert gs[..k] == (es + [f])[..k];
      } else {
        assert gs[..k] == es + [e];
      }
    }
  }

  lemma SameInside(s1: State, es: seq<Event>, e: Event, f: Event, t: nat)
    requires InsideAlong(s1, es + [e], t)
    ensures InsideAlong(s1, es + [f], t)
  {
    forall k | 0 <= k < |es + [f]|
      ensures Has(Exec(Step, s1, (es + [f])[..k]), t) && Inside(Exec(Step, s1, (es + [f])[..k]).threads[t].pc)
    {
      assert (es + [f])[..k] == (es + [e])[..k];
    }
  }

  /** What a whole wait, called at depth d, has done: it has been counted and blocked with
      the mutex given up entirely; it owns the mutex again, at depth d; it returns ETIMEDOUT
      exactly if it timed out on the way, and then has taken no unit, and otherwise 0, having
      taken one. */
  ghost predicate WaitVerdict(s1: State, es: seq<Event>, t: nat, s': State, d: int, timed: bool) {
    && Restored(s', t, d, timed) && WasBlocked(s1, es, t)
    && (s'.threads[t].result.ETIMEDOUT? <==> ExpiredAlong(s1, es, t))
    && Times(Step, s1, es, Takes(t)) == One(s'.threads[t].result.OK?)
  }

  /** The verdict of every wait, in every run. */
  lemma {:induction false} WaitCallVerdict(s: State, t: nat, timed: bool, es: seq<Event>, last: Event)
    requires Inv(s) && Has(s, t) && s.threads[t].pc.Ready? && s.mutex.threads[t].pc.Ready?
    requires M.Depth(s.mutex.threads[t]) > 0
    ensures var s1 := Step(s, Event(t, CallWait(timed)));
      var s' := Step(Exec(Step, s1, es), last);
      Always(Step, s1, es, x => Busy(x, t)) && !Busy(s', t) ==>
        WaitVerdict(s1, es + [last], t, s', M.Depth(s.mutex.threads[t]), timed)
  {
    var s1 := Step(s, Event(t, CallWait(timed)));
    var s' := Step(Exec(Step, s1, es), last);
    CallStep(s, t, timed);
    if Always(Step, s1, es, x => Busy(x, t)) && !Busy(s', t) {
      WaitSoFar(s1, t, es);
      SameInside(s1, es, Event(t, Go), last, t);
      WaitGoesOn(s1, es, t, Exec(Step, s1, es), last);
      ExecSnoc(Step, s1, es, last);
      RestoresEntry(s1, t, es, last, s');
      TimeOutIsReported(s1, t, es, last, s');
    }
  }

  /** A timed wait that is blocked can give up, with ETIMEDOUT as its return code. */
  lemma {:induction false} TimedWaitCanGiveUp(s: State, t: nat, es: seq<Event>)
    requires Inv(s) && Has(s, t) && s.threads[t].pc.Ready? && s.mutex.threads[t].pc.Ready?
    requires M.Depth(s.mutex.threads[t]) > 0
    ensures var s1 := Step(s, Event(t, CallWait(true)));
      var x := Exec(Step, s1, es);
      Always(Step, s1, es, y => Busy(y, t)) && t < |x.threads| && x.threads[t].pc.WWait? ==>
        && Expires(x, Event(t, TimeOut), t)
        && |Step(x, Event(t, TimeOut)).threads| == |x.threads|
        && Step(x, Event(t, TimeOut)).threads[t].returncode.ETIMEDOUT?
  {
    var s1 := Step(s, Event(t, CallWait(true)));
    CallStep(s, t, true);
    if Always(Step, s1, es, y => Busy(y, t)) {
      WaitSoFar(s1, t, es);
      PrefixInside(s1, es, Event(t, Go), t);
      EntryKeptAlong(s1, es, t);
    }
  }

  // ----- No call waits without need -----

  /** Accesses a call has left, at most. */
  function Left(th: Thread, mt: M.Thread): int {
    match th.pc
    case Ready => 0
    case SRead | BRead => 6
    case SControl | BControl => 5
    case WControl => 11 * th.entry + 13
    case WCount | WNotify | CbRead | CbUnlock(_) | CbControl => ControlLeft(th, mt) + 5 * th.entry + 7
    case CbInWait => 5 * th.entry + 7
    case WWait => 5 * th.entry + 6
    case WAwake => 5 * th.entry + 5
    case TControl => 5 * th.entry + 4
    case TCount => 5 * th.entry + 3
    case TRelease => 5 * th.entry + 2
    case Relock(i) => 5 * (th.entry - i) + 1 - (if mt.pc.Ready? then 0 else 5 - MC.Left(mt.pc))
    case _ => ControlLeft(th, mt)
  }

  /** What a thread may have to wait for: control, while a thread has it; a unit of `lock`,
      while there is none; the mutex, while its unit is out. */
  predicate MustWait(s: State, t: nat)
    requires Has(s, t)
  {
    var pc := s.threads[t].pc;
    || ((pc.WControl? || pc.TControl? || pc.SControl? || pc.BControl?) && s.control.count == 0)
    || (pc.WWait? && s.lock.count == 0)
    || (pc.Relock? && s.mutex.threads[t].pc.LockWait? && s.mutex.sema.count == 0)
  }

  ghost predicate NearerOrWaiting(s: State, t: nat, s': State)
    requires Has(s, t)
  {
    && Has(s', t)
    && (Left(s'.threads[t], s'.mutex.threads[t]) < Left(s.threads[t], s.mutex.threads[t])
        || (s' == s && MustWait(s, t)))
  }

  lemma WaitAdvances(s: State, t: nat)
    requires Has(s, t) && InWait(s.threads[t].pc) && ThreadInv(s, t)
    ensures NearerOrWaiting(s, t, WaitAccess(s, t))
  {
  }

  lemma CallbackAdvances(s: State, t: nat)
    requires Inv(s) && Has(s, t) && InCallback(s.threads[t].pc)
    ensures NearerOrWaiting(s, t, CallbackAccess(s, t))
  {
    assert ThreadInv(s, t);
    if s.threads[t].pc.CbUnlock? {
      CallbackComesNearer(s, t);
      EntryKept(s, Event(t, Go), t);
    }
  }

  lemma SignalEnters(s: State, t: nat)
    requires Has(s, t) && (s.threads[t].pc.SRead? || s.threads[t].pc.SControl?)
    ensures NearerOrWaiting(s, t, SignalAccess(s, t))
  {
  }

  lemma SignalGoesIn(s: State, t: nat)
    requires Has(s, t) && InSignal(s.threads[t].pc) && !s.threads[t].pc.SRead? && !s.threads[t].pc.SControl?
    ensures NearerOrWaiting(s, t, SignalAccess(s, t))
  {
  }

  lemma SignalAdvances(s: State, t: nat)
    requires Has(s, t) && InSignal(s.threads[t].pc)
    ensures NearerOrWaiting(s, t, SignalAccess(s, t))
  {
    if s.threads[t].pc.SRead? || s.threads[t].pc.SControl? {
      SignalEnters(s, t);
    } else {
      SignalGoesIn(s, t);
    }
  }

  lemma BroadcastEnters(s: State, t: nat)
    requires Has(s, t) && (s.threads[t].pc.BRead? || s.threads[t].pc.BControl?)
    ensures NearerOrWaiting(s, t, BroadcastAccess(s, t))
  {
  }

  lemma BroadcastGoesIn(s: State, t: nat)
    requires Has(s, t) && InBroadcast(s.threads[t].pc) && !s.threads[t].pc.BRead? && !s.threads[t].pc.BControl?
    ensures NearerOrWaiting(s, t, BroadcastAccess(s, t))
  {
  }

  lemma BroadcastAdvances(s: State, t: nat)
    requires Has(s, t) && InBroadcast(s.threads[t].pc)
    ensures NearerOrWaiting(s, t, BroadcastAccess(s, t))
  {
    if s.threads[t].pc.BRead? || s.threads[t].pc.BControl? {
      BroadcastEnters(s, t);
    } else {
      BroadcastGoesIn(s, t);
    }
  }

  lemma RelockAdvances(s: State, t: nat)
    requires Inv(s) && Has(s, t) && s.threads[t].pc.Relock?
    ensures NearerOrWaiting(s, t, RelockAccess(s, t))
  {
    assert ThreadInv(s, t);
    if !s.mutex.threads[t].pc.Ready? {
      M.InvGivesMoverPre(s.mutex, t);
      LockCall(s.mutex, t);
      MC.LockAdvances(s.mutex, t);
      assert s.threads[t := s.threads[t]] == s.threads;
    }
  }

  /** Every access of a call brings it nearer to its return, unless it must wait; if it must
      wait for control or the mutex, some thread has it. */
  lemma Advances(s: State, t: nat)
    requires Inv(s) && Busy(s, t)
    ensures NearerOrWaiting(s, t, Step(s, Event(t, Go)))
    ensures s.control.count == 0 ==> exists u :: 0 <= u < |s.threads| && Controls(s.threads[u]) == 1
    ensures s.mutex.sema.count == 0 ==> exists u :: 0 <= u < |s.mutex.threads| && M.Units(s.mutex.threads[u]) == 1
  {
    var pc := s.threads[t].pc;
    if InWait(pc) {
      assert ThreadInv(s, t);
      WaitAdvances(s, t);
    } else if InCallback(pc) {
      CallbackAdvances(s, t);
    } else if pc.Relock? {
      RelockAdvances(s, t);
    } else if InSignal(pc) {
      SignalAdvances(s, t);
    } else {
      BroadcastAdvances(s, t);
    }
    SomebodyHas(s);
  }

  lemma SomebodyHas(s: State)
    requires Inv(s)
    ensures s.control.count == 0 ==> exists u :: 0 <= u < |s.threads| && Controls(s.threads[u]) == 1
    ensures s.mutex.sema.count == 0 ==> exists u :: 0 <= u < |s.mutex.threads| && M.Units(s.mutex.threads[u]) == 1
  {
    if s.control.count == 0 {
      var u := SumWitness(s.threads, Controls);
    }
    if s.mutex.sema.count == 0 {
      var u := SumWitness(s.mutex.threads, M.Units);
      M.UnitsBound(s.mutex, u);
    }
  }
}
