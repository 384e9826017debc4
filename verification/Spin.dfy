/** The spin lock: one word, of which lock and trylock set bit 0 and unlock flips it, by the
    atomic bit operations and therefore access by access. */
module Spin {
  import opened Kernel
  import opened Sums
  import opened Runs
  import opened Words
  import A = Atomics
  import O = AtomicMemory

  /** Where a thread is: about to test the word for the mark of a destroyed lock, or inside
      test_and_set_bit or test_and_clear_bit. */
  datatype Pc = Out | LockTest | LockSpin | TryTest | TrySet | UnlockTest | UnlockClear

  /** As history: whether the thread has taken the lock and not yet given it back. */
  datatype Spinner = Spinner(pc: Pc, result: Errno, holds: bool)

  datatype State = State(word: A.State, threads: seq<Spinner>)

  datatype Act = CallLock | CallTrylock | CallUnlock | Go | Fail

  datatype Event = Event(tid: nat, act: Act)

  const SET := A.SetBit(0)
  const CLEAR := A.ClearBit(0)

  /** The value 2, which pthread_spin_destroy leaves. */
  function Destroyed(): Word { Mask(1) }

  predicate Has(s: State, t: nat) { t < |s.threads| == |s.word.threads| && |s.word.mem| == 1 }

  function At(s: State, t: nat, pc: Pc): State
    requires t < |s.threads|
  {
    s.(threads := s.threads[t := s.threads[t].(pc := pc)])
  }

  function Return(s: State, t: nat, result: Errno, holds: bool): State
    requires t < |s.threads|
  {
    s.(threads := s.threads[t := Spinner(Out, result, holds)])
  }

  function Start(s: State, t: nat, act: Act): State
    requires t < |s.threads|
  {
    match act
    case CallLock => At(s, t, LockTest)
    case CallTrylock => At(s, t, TryTest)
    case CallUnlock => At(s, t, UnlockTest)
    case _ => s
  }

  /** The VALID test, and the call of the atomic operation if it passes. */
  function TestAccess(s: State, t: nat, op: A.Op, pc: Pc): State
    requires Has(s, t)
  {
    if s.word.mem[0] == Destroyed() then Return(s, t, EINVAL, s.threads[t].holds)
    else At(s.(word := A.Step(s.word, A.Event(t, A.Call(op)))), t, pc)
  }

  /** What the caller makes of the bit's former value; lock goes round until it was clear. */
  function Answered(s: State, t: nat, wasSet: bool): State
    requires Has(s, t)
  {
    match s.threads[t].pc
    case LockSpin => if wasSet then s.(word := A.Step(s.word, A.Event(t, A.Call(SET)))) else Return(s, t, OK, true)
    case TrySet => if wasSet then Return(s, t, EBUSY, s.threads[t].holds) else Return(s, t, OK, true)
    case UnlockClear => if wasSet then Return(s, t, OK, false) else Return(s, t, EPERM, s.threads[t].holds)
    case _ => s
  }

  /** One access of the atomic operation in progress. */
  function WordAccess(s: State, t: nat, act: A.Act): State
    requires Has(s, t)
  {
    var w := A.Step(s.word, A.Event(t, act));
    if Has(s.(word := w), t) && w.threads[t].pc.Ready? then
      Answered(s.(word := w), t, w.threads[t].result == A.WasSet(true))
    else s.(word := w)
  }

  function Step(s: State, e: Event): State {
    var t := e.tid;
    if !Has(s, t) then s else
      match s.threads[t].pc
      case Out => Start(s, t, e.act)
      case LockTest => if e.act.Go? then TestAccess(s, t, SET, LockSpin) else s
      case TryTest => if e.act.Go? then TestAccess(s, t, SET, TrySet) else s
      case UnlockTest => if e.act.Go? then TestAccess(s, t, CLEAR, UnlockClear) else s
      case _ =>
        if e.act.Go? then WordAccess(s, t, A.Go) else if e.act.Fail? then WordAccess(s, t, A.Fail) else s
  }

  /** "The results are undefined if the lock is not held by the calling thread." */
  predicate Lawful(s: State, e: Event) {
    e.act.CallUnlock? && Has(s, e.tid) && s.threads[e.tid].pc.Out? ==> s.threads[e.tid].holds
  }

  function LawfulStep(s: State, e: Event): State { if Lawful(s, e) then Step(s, e) else s }

  ghost predicate Init(s: State) {
    && A.Init(s.word, [Zero()]) && |s.threads| == |s.word.threads|
    && forall t :: 0 <= t < |s.threads| ==> s.threads[t] == Spinner(Out, OK, false)
  }

  // ----- The invariant -----

  function Holds(th: Spinner): int { if th.holds then 1 else 0 }

  predicate Agrees(th: Spinner, w: A.Thread) {
    && !th.result.EINVAL? && !th.result.EPERM?
    && match th.pc
       case LockSpin => !w.pc.Ready? && w.pc.op == SET
       case TrySet => !w.pc.Ready? && w.pc.op == SET
       case UnlockTest => w.pc.Ready? && th.holds
       case UnlockClear => !w.pc.Ready? && w.pc.op == CLEAR && th.holds
       case _ => w.pc.Ready?
  }

  /** Bit 0 is set exactly while a thread holds the lock; the other bits stay clear. */
  ghost predicate Inv(s: State) {
    && A.Inv(s.word, [Zero()]) && |s.threads| == |s.word.threads|
    && (forall i :: 0 < i < WIDTH ==> !s.word.mem[0][i])
    && Sum(s.threads, Holds) == (if s.word.mem[0][0] then 1 else 0)
    && forall t :: 0 <= t < |s.threads| ==> Agrees(s.threads[t], s.word.threads[t])
  }

  lemma InitInv(s: State)
    requires Init(s)
    ensures Inv(s)
  {
    SumBounds(s.threads, 0, 0, Holds);
  }

  lemma NeverMarked(s: State)
    requires Inv(s)
    ensures s.word.mem[0] != Destroyed()
  {
    assert Mask(1)[1];
  }

  function Bit(w: Word): int { if w[0] then 1 else 0 }

  /** What a step of thread t may do: change bit 0 only together with its own hold. */
  ghost predicate Frame(s: State, s': State, t: nat)
    requires Inv(s) && Has(s, t)
  {
    && A.Inv(s'.word, [Zero()]) && |s'.word.threads| == |s'.threads| == |s.threads|
    && s'.threads == s.threads[t := s'.threads[t]]
    && (forall u :: 0 <= u < |s.threads| && u != t ==> s'.word.threads[u] == s.word.threads[u])
    && (forall i :: 0 < i < WIDTH ==> s'.word.mem[0][i] == s.word.mem[0][i])
    && Bit(s'.word.mem[0]) - Bit(s.word.mem[0]) == Holds(s'.threads[t]) - Holds(s.threads[t])
  }

  lemma FramedStep(s: State, s': State, t: nat)
    requires Inv(s) && Has(s, t) && Frame(s, s', t) && Agrees(s'.threads[t], s'.word.threads[t])
    ensures Inv(s')
  {
    SumUpdate(s.threads, t, s'.threads[t], Holds);
  }

  lemma CallStarts(w: A.State, t: nat, op: A.Op)
    requires t < |w.threads| && w.threads[t].pc.Ready? && |w.mem| == |w.stores| == 1 && (op == SET || op == CLEAR)
    ensures A.Step(w, A.Event(t, A.Call(op))) == A.At(w, t, A.FirstRead(op))
  {
  }

  lemma TestKeepsInv(s: State, t: nat, op: A.Op, pc: Pc)
    requires Inv(s) && Has(s, t) && (op == SET || op == CLEAR) && s.word.threads[t].pc.Ready?
    requires Agrees(s.threads[t].(pc := pc), s.word.threads[t].(pc := A.FirstRead(op)))
    ensures Inv(TestAccess(s, t, op, pc))
  {
    NeverMarked(s);
    CallStarts(s.word, t, op);
    A.StepKeepsInv(s.word, A.Event(t, A.Call(op)), [Zero()]);
    FramedStep(s, TestAccess(s, t, op, pc), t);
  }

  /** What the one effective access of a bit operation does to the lock word. */
  lemma LockWord(w: Word)
    ensures A.After(SET, w)[0] && (A.After(CLEAR, w)[0] <==> !w[0])
    ensures forall i :: 0 < i < WIDTH ==> (A.After(SET, w)[i] <==> w[i]) && (A.After(CLEAR, w)[i] <==> w[i])
    ensures A.AnswerFor(SET, w) == A.WasSet(w[0]) && A.AnswerFor(CLEAR, w) == A.WasSet(w[0])
  {
    forall i | 0 <= i < WIDTH
      ensures A.After(SET, w)[i] == (w[i] || i == 0) && A.After(CLEAR, w)[i] == (w[i] != (i == 0))
    {
      MaskedBits(w, 0, i);
    }
    MaskedBits(w, 0, 0);
  }

  predicate Completes(s: State, t: nat, act: A.Act) {
    && Has(s, t) && !s.word.threads[t].pc.Ready?
    && var w := A.Step(s.word, A.Event(t, act)); t < |w.threads| && w.threads[t].pc.Ready?
  }

  /** lock finds the bit set, and goes round again. */
  lemma RetryKeepsInv(s: State, t: nat, act: A.Act)
    requires Inv(s) && Has(s, t) && s.threads[t].pc.LockSpin? && s.word.mem[0][0]
    ensures Completes(s, t, act) ==> Inv(WordAccess(s, t, act))
  {
    if !Completes(s, t, act) {
      return;
    }
    var w, s' := A.Step(s.word, A.Event(t, act)), WordAccess(s, t, act);
    A.StepKeepsInv(s.word, A.Event(t, act), [Zero()]);
    A.StepIsAtomic(s.word, A.Event(t, act), [Zero()]);
    LockWord(s.word.mem[0]);
    A.StepKeepsInv(w, A.Event(t, A.Call(SET)), [Zero()]);
    assert s'.threads == s.threads[t := s'.threads[t]];
    FramedStep(s, s', t);
  }

  /** The access that completes the bit operation of lock, trylock or unlock. */
  lemma AnsweredKeepsInv(s: State, t: nat, act: A.Act)
    requires Inv(s) && Completes(s, t, act) && !(s.threads[t].pc.LockSpin? && s.word.mem[0][0])
    ensures Inv(WordAccess(s, t, act))
  {
    var s' := WordAccess(s, t, act);
    A.StepKeepsInv(s.word, A.Event(t, act), [Zero()]);
    A.StepIsAtomic(s.word, A.Event(t, act), [Zero()]);
    LockWord(s.word.mem[0]);
    SumAtLeast(s.threads, t, Holds);
    FramedStep(s, s', t);
  }

  lemma WordKeepsInv(s: State, t: nat, act: A.Act)
    requires Inv(s) && Has(s, t) && !s.word.threads[t].pc.Ready?
    ensures Inv(WordAccess(s, t, act))
  {
    var e := A.Event(t, act);
    A.StepIsAtomic(s.word, e, [Zero()]);
    if A.Step(s.word, e).threads[t].pc.Ready? {
      if s.threads[t].pc.LockSpin? && s.word.mem[0][0] {
        RetryKeepsInv(s, t, act);
      } else {
        AnsweredKeepsInv(s, t, act);
      }
    } else {
      A.StepKeepsInv(s.word, e, [Zero()]);
      var s' := WordAccess(s, t, act);
      assert s'.threads == s.threads[t := s'.threads[t]];
      FramedStep(s, s', t);
    }
  }

  lemma StartKeepsInv(s: State, e: Event)
    requires Inv(s) && Lawful(s, e) && Has(s, e.tid) && s.threads[e.tid].pc.Out?
    ensures Inv(Step(s, e))
  {
    var s' := Step(s, e);
    assert Agrees(s.threads[e.tid], s.word.threads[e.tid]);
    if s' != s {
      FramedStep(s, s', e.tid);
    }
  }

  lemma StepKeepsInv(s: State, e: Event)
    requires Inv(s) && Lawful(s, e)
    ensures Inv(Step(s, e))
  {
    var t := e.tid;
    if Has(s, t) {
      assert Agrees(s.threads[t], s.word.threads[t]);
      match s.threads[t].pc
      case Out => StartKeepsInv(s, e);
      case LockTest => TestKeepsInv(s, t, SET, LockSpin);
      case TryTest => TestKeepsInv(s, t, SET, TrySet);
      case UnlockTest => TestKeepsInv(s, t, CLEAR, UnlockClear);
      case _ =>
        if e.act.Go? {
          WordKeepsInv(s, t, A.Go);
        } else if e.act.Fail? {
          WordKeepsInv(s, t, A.Fail);
        }
    }
  }

  lemma RunInv(s: State, es: seq<Event>)
    requires Init(s)
    ensures Inv(Exec(LawfulStep, s, es))
  {
    InitInv(s);
    forall x, e | Inv(x) ensures Inv(LawfulStep(x, e)) {
      if Lawful(x, e) {
        StepKeepsInv(x, e);
      }
    }
    InvariantOfRuns(LawfulStep, Inv, s, es);
  }

  // ----- What it promises -----

  /** No two threads hold the lock. */
  ghost predicate Exclusive(s: State) {
    forall t, u :: 0 <= t < u < |s.threads| ==> !(s.threads[t].holds && s.threads[u].holds)
  }

  lemma ExclusiveIn(s: State)
    requires Inv(s)
    ensures Exclusive(s)
  {
    forall t, u | 0 <= t < u < |s.threads| ensures !(s.threads[t].holds && s.threads[u].holds) {
      SumAtLeastTwo(s.threads, t, u, Holds);
    }
  }

  /** In any run of any number of threads, with unlock called only by the holder, at most
      one thread is in the critical section. */
  lemma {:induction false} MutualExclusion(s: State, es: seq<Event>)
    requires Init(s)
    ensures Exclusive(Exec(LawfulStep, s, es))
  {
    RunInv(s, es);
    ExclusiveIn(Exec(LawfulStep, s, es));
  }

  /** What the word and the results say: the bit is set exactly while somebody holds the
      lock, and no call ever fails with EINVAL or EPERM. */
  ghost predicate WordTellsTheTruth(s: State) {
    && |s.word.mem| == 1
    && (s.word.mem[0] == Mask(0) <==> exists t :: 0 <= t < |s.threads| && s.threads[t].holds)
    && (s.word.mem[0] == Zero() <==> forall t :: 0 <= t < |s.threads| ==> !s.threads[t].holds)
    && forall t :: 0 <= t < |s.threads| ==> !s.threads[t].result.EINVAL? && !s.threads[t].result.EPERM?
  }

  lemma TruthfulIn(s: State)
    requires Inv(s)
    ensures WordTellsTheTruth(s)
  {
    var w := s.word.mem[0];
    forall t | 0 <= t < |s.threads| ensures Agrees(s.threads[t], s.word.threads[t]) {}
    if w[0] {
      var t := SumWitness(s.threads, Holds);
      assert s.threads[t].holds && w == Mask(0) && Mask(0)[0];
    } else {
      forall t | 0 <= t < |s.threads| ensures !s.threads[t].holds {
        SumAtLeast(s.threads, t, Holds);
      }
      assert w == Zero() && Mask(0)[0];
    }
  }

  lemma WordIsTruthful(s: State, es: seq<Event>)
    requires Init(s)
    ensures WordTellsTheTruth(Exec(LawfulStep, s, es))
  {
    RunInv(s, es);
    TruthfulIn(Exec(LawfulStep, s, es));
  }

  /** trylock says EBUSY only at an access at which some thread holds the lock. */
  lemma BusyIsTrue(s: State, e: Event, t: nat)
    requires Inv(s) && Has(s, t) && e.tid == t && s.threads[t].pc.TrySet?
    requires Step(s, e).threads[t].pc.Out? && Step(s, e).threads[t].result.EBUSY?
    ensures exists u :: 0 <= u < |s.threads| && s.threads[u].holds
  {
    assert Agrees(s.threads[t], s.word.threads[t]);
    A.StepIsAtomic(s.word, A.Event(t, if e.act.Go? then A.Go else A.Fail), [Zero()]);
    LockWord(s.word.mem[0]);
    var u := SumWitness(s.threads, Holds);
  }

  // ----- The object itself -----

  /** pthread_spinlock_t over the shared word, and the threads using it. */
  class PthreadSpinlock {
    const lock: O.Memory
    var threads: seq<Spinner>

    ghost function Contents(): State
      reads this, lock
    {
      State(lock.Contents(), threads)
    }

    constructor (n: nat)
      ensures fresh(lock) && Init(Contents()) && |threads| == n
    {
      lock := new O.Memory([Zero()], n);
      threads := seq(n, _ => Spinner(Out, OK, false));
    }

    method Finish(me: nat, result: Errno, holds: bool)
      requires me < |threads|
      modifies this
      ensures Contents() == Return(old(Contents()), me, result, holds)
    {
      threads := threads[me := Spinner(Out, result, holds)];
    }

    /** The VALID test and the call of the bit operation. */
    method Test(me: nat, op: A.Op, pc: Pc)
      requires Has(Contents(), me)
      modifies this, lock
      ensures Contents() == TestAccess(old(Contents()), me, op, pc)
    {
      if lock.words[0] == Destroyed() {
        Finish(me, EINVAL, threads[me].holds);
      } else {
        lock.Perform(A.Event(me, A.Call(op)));
        threads := threads[me := threads[me].(pc := pc)];
      }
    }

    /** The next access of the bit operation, and, once it returns, what lock, trylock or
        unlock does with its answer. */
    method Continue(me: nat, act: A.Act)
      requires Has(Contents(), me)
      modifies this, lock
      ensures Contents() == WordAccess(old(Contents()), me, act)
    {
      lock.Perform(A.Event(me, act));
      if me < |lock.threads| == |threads| && |lock.words| == 1 && lock.threads[me].pc.Ready? {
        var wasSet := lock.threads[me].result == A.WasSet(true);
        var holds := threads[me].holds;
        match threads[me].pc
        case LockSpin =>
          if wasSet {
            lock.Perform(A.Event(me, A.Call(SET)));
          } else {
            Finish(me, OK, true);
          }
        case TrySet =>
          if wasSet {
            Finish(me, EBUSY, holds);
          } else {
            Finish(me, OK, true);
          }
        case UnlockClear =>
          if wasSet {
            Finish(me, OK, false);
          } else {
            Finish(me, EPERM, holds);
          }
        case _ =>
      }
    }

    method Perform(e: Event)
      modifies this, lock
      ensures Contents() == Step(old(Contents()), e)
    {
      var me := e.tid;
      if !(me < |threads| == |lock.threads| && |lock.words| == 1) {
        return;
      }
      match threads[me].pc
      case Out =>
        if e.act.CallLock? {
          threads := threads[me := threads[me].(pc := LockTest)];
        } else if e.act.CallTrylock? {
          threads := threads[me := threads[me].(pc := TryTest)];
        } else if e.act.CallUnlock? {
          threads := threads[me := threads[me].(pc := UnlockTest)];
        }
      case LockTest =>
        if e.act.Go? {
          Test(me, SET, LockSpin);
        }
      case TryTest =>
        if e.act.Go? {
          Test(me, SET, TrySet);
        }
      case UnlockTest =>
        if e.act.Go? {
          Test(me, CLEAR, UnlockClear);
        }
      case _ =>
        if e.act.Go? {
          Continue(me, A.Go);
        } else if e.act.Fail? {
          Continue(me, A.Fail);
        }
    }

    /** Any interleaving of any number of threads, unlock called only by the holder. */
    method Run(es: seq<Event>)
      modifies this, lock
      ensures old(Init(Contents())) && (forall i :: 0 <= i < |es| ==> LawfulAt(old(Contents()), es, i)) ==>
        Contents() == Exec(LawfulStep, old(Contents()), es) && Exclusive(Contents())
    {
      ghost var s := Contents();
      ghost var lawful := forall i :: 0 <= i < |es| ==> LawfulAt(s, es, i);
      for i := 0 to |es|
        invariant lawful ==> Contents() == Exec(LawfulStep, s, es[..i])
      {
        assert lawful ==> LawfulAt(s, es, i);
        Perform(es[i]);
        assert es[..i + 1][..i] == es[..i];
      }
      assert es[..|es|] == es;
      if lawful && Init(s) {
        MutualExclusion(s, es);
      }
    }
  }

  ghost predicate LawfulAt(s: State, es: seq<Event>, i: nat)
    requires i < |es|
  {
    Lawful(Exec(LawfulStep, s, es[..i]), es[i])
  }
}
