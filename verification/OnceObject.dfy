/** pthread_once_t itself, over the mutex object it contains. */
module OnceObject {
  import opened Runs
  import opened Once
  import opened OnceTheorems
  import M = Mutex

  class PthreadOnce {
    const in_progress: M.PthreadMutex
    var done: bool
    var threads: seq<Caller>
    ghost var completed: nat

    ghost function Contents(): State
      reads this, in_progress
    {
      State(in_progress.Contents(), done, threads, completed)
    }

    constructor (n: nat)
      ensures fresh(in_progress) && Init(Contents()) && |threads| == n
    {
      in_progress := new M.PthreadMutex(M.Normal, 0, n);
      done := false;
      threads := seq(n, _ => Caller(Idle, [], 0, [], []));
      completed := 0;
    }

    method Goto(me: nat, pc: Pc)
      requires me < |threads|
      modifies this
      ensures Contents() == At(old(Contents()), me, pc)
    {
      threads := threads[me := threads[me].(pc := pc)];
    }

    method Finish(me: nat)
      requires me < |threads|
      modifies this
      ensures Contents() == Return(old(Contents()), me)
    {
      var c := threads[me];
      threads := threads[me := c.(pc := Idle, answered := c.answered + 1)];
    }

    /** What code outside pthread_once, or init, may do with the handlers. */
    method User(me: nat, act: Act)
      requires me < |threads|
      modifies this
      ensures Contents() == UserAct(old(Contents()), me, act)
    {
      var c := threads[me];
      match act
      case PushUser(h) =>
        if IsUser(h) {
          threads := threads[me := c.(stack := [h] + c.stack)];
        }
      case PopUser(execute) =>
        if c.stack != [] && IsUser(c.stack[0]) {
          var ran := if execute then c.executed + [c.stack[0]] else c.executed;
          threads := threads[me := c.(stack := c.stack[1..], executed := ran)];
        }
      case Cancelled =>
        threads := threads[me := c.(pc := Cleaning, due := c.executed + c.stack)];
      case _ =>
    }

    /** The next access of pthread_mutex_lock or pthread_mutex_unlock. */
    method Continue(me: nat)
      requires Has(Contents(), me)
      modifies this, in_progress
      ensures Contents() == InMutex(old(Contents()), me)
    {
      if M.InLock(in_progress.threads[me].pc) {
        in_progress.Lock(me);
      } else if M.InUnlock(in_progress.threads[me].pc) {
        in_progress.Unlock(me);
      } else if M.InCeiling(in_progress.threads[me].pc) {
        in_progress.SetPrioCeiling(me);
      }
      if in_progress.threads[me].pc.Ready? {
        match threads[me].pc
        case Locking => Goto(me, Read2);
        case Unlocking => Finish(me);
        case CleanUnlock => Goto(me, Cleaning);
        case _ =>
      }
    }

    /** One round of the loop over the handlers. */
    method CleanUp(me: nat)
      requires Has(Contents(), me)
      modifies this, in_progress
      ensures Contents() == CleanAccess(old(Contents()), me)
    {
      var c := threads[me];
      if c.stack == [] {
        Goto(me, Dead);
        return;
      }
      threads := threads[me := c.(stack := c.stack[1..], executed := c.executed + [c.stack[0]])];
      if !IsUser(c.stack[0]) {
        in_progress.Goto(me, M.UnlockTest);
        Goto(me, CleanUnlock);
      }
    }

    /** The next access of pthread_once. */
    method CallOnce(me: nat)
      requires Has(Contents(), me)
      modifies this, in_progress
      ensures Contents() == Advance(old(Contents()), me)
    {
      var c := threads[me];
      match c.pc
      case Read1 =>
        if done {
          Finish(me);
        } else {
          in_progress.Goto(me, M.LockTest(false));
          Goto(me, Locking);
        }
      case Read2 =>
        if !done {
          Goto(me, PushCleanup);
        } else {
          in_progress.Goto(me, M.UnlockTest);
          Goto(me, Unlocking);
        }
      case PushCleanup =>
        threads := threads[me := c.(pc := Running, stack := [UNLOCK] + c.stack)];
      case PopCleanup =>
        threads := threads[me := c.(pc := SetDone, stack := if c.stack == [] then [] else c.stack[1..])];
      case SetDone =>
        done := true;
        in_progress.Goto(me, M.UnlockTest);
        Goto(me, Unlocking);
      case Cleaning => CleanUp(me);
      case Locking => Continue(me);
      case Unlocking => Continue(me);
      case CleanUnlock => Continue(me);
      case _ =>
    }

    method Perform(e: Event)
      modifies this, in_progress
      ensures Contents() == Step(old(Contents()), e)
    {
      var me := e.tid;
      if !(me < |threads| && me < |in_progress.threads|) {
        return;
      }
      var c := threads[me];
      match c.pc
      case Idle =>
        if e.act.CallOnce? {
          Goto(me, Read1);
        } else {
          User(me, e.act);
        }
      case Running =>
        if e.act.InitReturns? {
          if c.stack != [] && !IsUser(c.stack[0]) {
            Goto(me, PopCleanup);
            completed := completed + 1;
          }
        } else {
          User(me, e.act);
        }
      case _ =>
        if e.act.Go? {
          CallOnce(me);
        }
    }

    /** Any interleaving of any callers, cancellations included. */
    method Run(es: seq<Event>)
      modifies this, in_progress
      ensures Contents() == Exec(Step, old(Contents()), es)
      ensures old(Init(Contents())) ==> OnceOnly(Contents())
    {
      ghost var s := Contents();
      for i := 0 to |es|
        invariant Contents() == Exec(Step, s, es[..i])
      {
        Perform(es[i]);
        assert es[..i + 1][..i] == es[..i];
      }
      assert es[..|es|] == es;
      if Init(s) {
        AtMostOneInitCompletes(s, es);
      }
    }
  }
}
