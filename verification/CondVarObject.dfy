/** pthread_cond_t itself, updated in place by the functions of pthread_cond.c, one access
    at a time, over the mutex object that the callback unlocks and the clean-up relocks. */
module CondVarObject {
  import opened Kernel
  import opened Runs
  import opened CondVar
  import opened CondVarProofs
  import M = Mutex

  class PthreadCond {
    const mutex: M.PthreadMutex
    var control: Sema
    var NbWait: int
    var lock: Sema
    var threads: seq<Thread>
    ghost var timeouts: nat

    ghost function Contents(): State
      reads this, mutex
    {
      State(mutex.Contents(), control, NbWait, lock, threads, timeouts)
    }

    constructor (mutex: M.PthreadMutex)
      requires M.Init(mutex.Contents()) && |mutex.threads| <= INT_MAX
      ensures this.mutex == mutex && Init(Contents())
    {
      this.mutex := mutex;
      this.control := Sema(1, 1);
      this.NbWait := 0;
      this.lock := Sema(0, INT_MAX);
      this.threads := seq(|mutex.threads|, _ => Thread(Ready, false, 0, OK, false, OK, 0));
      this.timeouts := 0;
    }

    method Goto(me: nat, pc: Pc)
      requires me < |threads|
      modifies this
      ensures Contents() == At(old(Contents()), me, pc)
    {
      threads := threads[me := threads[me].(pc := pc)];
    }

    method Finish(me: nat, result: Errno)
      requires me < |threads|
      modifies this
      ensures Contents() == Return(old(Contents()), me, result)
    {
      threads := threads[me := threads[me].(pc := Ready, result := result)];
    }

    /** The static function `lock`, shared by wait and timedwait, up to its clean-up. */
    method Wait(me: nat)
      requires Has(Contents(), me) && InWait(threads[me].pc)
      modifies this
      ensures Contents() == WaitAccess(old(Contents()), me)
    {
      match threads[me].pc
      case WControl =>
        if control.Has(1) {
          control := control.Take(1);
          Goto(me, WCount);
        }
      case WCount =>
        NbWait := NbWait + 1;
        Goto(me, WNotify);
      case WNotify =>
        Goto(me, CbRead);
      case WWait =>
        if lock.Has(1) {
          lock := lock.Take(1);
          Goto(me, WAwake);
        }
      case WAwake =>
        var timedOut := threads[me].returncode.ETIMEDOUT?;
        threads := threads[me := threads[me].(inWAIT := false)];
        Goto(me, if timedOut then TControl else Relock(0));
      case TControl =>
        if control.Has(1) {
          control := control.Take(1);
          Goto(me, TCount);
        }
      case TCount =>
        NbWait := NbWait - 1;
        Goto(me, TRelease);
      case TRelease =>
        control := control.Signal(1);
        Goto(me, Relock(0));
    }

    /** The kernel callback: unlock as often as the mutex was locked, release control. */
    method CallbackHandler(me: nat)
      requires Has(Contents(), me) && InCallback(threads[me].pc)
      modifies this, mutex
      ensures Contents() == CallbackAccess(old(Contents()), me)
    {
      var th := threads[me];
      match th.pc
      case CbRead =>
        threads := threads[me := th.(pc := CbUnlock(0), recursivecount := mutex.recursivecount)];
      case CbUnlock(i) =>
        if !mutex.threads[me].pc.Ready? {
          Continue(me);
          Goto(me, if mutex.threads[me].pc.Ready? then CbUnlock(i + 1) else CbUnlock(i));
        } else if i <= th.recursivecount {
          mutex.Goto(me, M.UnlockTest);
        } else {
          Goto(me, CbControl);
        }
      case CbControl =>
        control := control.Signal(1);
        Goto(me, CbInWait);
      case CbInWait =>
        threads := threads[me := th.(pc := WWait, inWAIT := true)];
    }

    /** The next access of the mutex call this thread is in. */
    method Continue(me: nat)
      requires me < |mutex.threads| && !mutex.threads[me].pc.Ready?
      modifies mutex
      ensures mutex.Contents() == M.Advance(old(mutex.Contents()), me)
    {
      if M.InLock(mutex.threads[me].pc) {
        mutex.Lock(me);
      } else if M.InUnlock(mutex.threads[me].pc) {
        mutex.Unlock(me);
      } else {
        mutex.SetPrioCeiling(me);
      }
    }

    /** The clean-up handler: lock as often as the callback unlocked. */
    method Cleanup(me: nat)
      requires Has(Contents(), me) && threads[me].pc.Relock?
      modifies this, mutex
      ensures Contents() == RelockAccess(old(Contents()), me)
    {
      var th, i := threads[me], threads[me].pc.i;
      if !mutex.threads[me].pc.Ready? {
        Continue(me);
        if mutex.threads[me].pc.Ready? {
          var r := mutex.threads[me].result;
          threads := threads[me := th.(pc := Relock(i + 1), returncode := if !r.OK? then r else th.returncode)];
        }
      } else if i <= th.recursivecount {
        mutex.Goto(me, M.LockTest(false));
      } else {
        Finish(me, th.returncode);
      }
    }

    method Signal(me: nat)
      requires Has(Contents(), me) && InSignal(threads[me].pc)
      modifies this
      ensures Contents() == SignalAccess(old(Contents()), me)
    {
      match threads[me].pc
      case SRead =>
        if NbWait == 0 {
          Finish(me, OK);
        } else {
          Goto(me, SControl);
        }
      case SControl =>
        if control.Has(1) {
          control := control.Take(1);
          Goto(me, STest);
        }
      case STest =>
        Goto(me, if NbWait > 0 then SPost else SRelease);
      case SPost =>
        lock := lock.Signal(1);
        Goto(me, SCount);
      case SCount =>
        NbWait := NbWait - 1;
        Goto(me, SRelease);
      case SRelease =>
        control := control.Signal(1);
        Finish(me, OK);
    }

    method Broadcast(me: nat)
      requires Has(Contents(), me) && InBroadcast(threads[me].pc)
      modifies this
      ensures Contents() == BroadcastAccess(old(Contents()), me)
    {
      match threads[me].pc
      case BRead =>
        if NbWait == 0 {
          Finish(me, OK);
        } else {
          Goto(me, BControl);
        }
      case BControl =>
        if control.Has(1) {
          control := control.Take(1);
          Goto(me, BTest);
        }
      case BTest =>
        Goto(me, if NbWait > 0 then BPost else BRelease);
      case BPost =>
        if NbWait >= 0 {
          lock := lock.Signal(NbWait);
        }
        Goto(me, BZero(NbWait));
      case BZero(_) =>
        NbWait := 0;
        Goto(me, BRelease);
      case BRelease =>
        control := control.Signal(1);
        Finish(me, OK);
    }

    method Begin(me: nat, act: Act)
      requires Has(Contents(), me)
      modifies this, mutex
      ensures Contents() == Start(old(Contents()), me, act)
    {
      var free := mutex.threads[me].pc.Ready?;
      var depth := M.Depth(mutex.threads[me]);
      match act
      case User(a) =>
        if M.Lawful(mutex.Contents(), M.Event(me, a)) {
          mutex.Perform(M.Event(me, a));
        }
      case CallWait(timed) =>
        if free && depth > 0 {
          threads := threads[me := threads[me].(pc := WControl, timed := timed, recursivecount := 0,
                                                returncode := OK, entry := depth)];
        }
      case CallSignal =>
        if free {
          Goto(me, SRead);
        }
      case CallBroadcast =>
        if free {
          Goto(me, BRead);
        }
      case _ =>
    }

    method Perform(e: Event)
      modifies this, mutex
      ensures Contents() == Step(old(Contents()), e)
    {
      var me := e.tid;
      if me >= |threads| || me >= |mutex.threads| {
        return;
      }
      var pc := threads[me].pc;
      if pc.Ready? {
        Begin(me, e.act);
      } else if e.act.Go? {
        if InWait(pc) {
          Wait(me);
        } else if InCallback(pc) {
          CallbackHandler(me);
        } else if pc.Relock? {
          Cleanup(me);
        } else if InSignal(pc) {
          Signal(me);
        } else {
          Broadcast(me);
        }
      } else if e.act.TimeOut? && pc.WWait? && threads[me].timed {
        threads := threads[me := threads[me].(pc := WAwake, returncode := ETIMEDOUT)];
        timeouts := timeouts + 1;
      }
    }

    /** Any interleaving of waits, timed waits, signals, broadcasts and mutex calls. */
    method Run(es: seq<Event>)
      modifies this, mutex
      ensures Contents() == Exec(Step, old(Contents()), es)
      ensures old(Init(Contents())) ==> Inv(Contents())
    {
      for i := 0 to |es|
        invariant Contents() == Exec(Step, old(Contents()), es[..i])
      {
        Perform(es[i]);
        assert es[..i + 1][..i] == es[..i];
      }
      assert es[..|es|] == es;
      if old(Init(Contents())) {
        RunInv(old(Contents()), es);
      }
    }
  }
}
