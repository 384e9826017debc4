/** What a whole call on the spin lock does and returns, whatever the other threads do
    between its accesses. */
module SpinCalls {
  import opened Kernel
  import opened Sums
  import opened Runs
  import opened Words
  import opened Spin
  import A = Atomics

  predicate IsCall(act: Act) { act.CallLock? || act.CallTrylock? || act.CallUnlock? }

  predicate Busy(s: State, t: nat) { t < |s.threads| && !s.threads[t].pc.Out? }

  /** Thread t is in the call `act` that it made when it held the lock, or not. */
  ghost predicate Underway(act: Act, held: bool, s: State, t: nat) {
    && Inv(s) && t < |s.threads| && s.threads[t].holds == held
    && var pc := s.threads[t].pc;
       match act
       case CallLock => pc.LockTest? || pc.LockSpin?
       case CallTrylock => pc.TryTest? || pc.TrySet?
       case CallUnlock => pc.UnlockTest? || pc.UnlockClear?
       case _ => false
  }

  /** What the call has returned: lock only ever 0, with the lock; trylock 0 with the lock or
      EBUSY without; unlock 0, the lock given back. */
  predicate Verdict(act: Act, held: bool, th: Spinner) {
    match act
    case CallLock => th.result.OK? && !held && th.holds
    case CallTrylock => (th.result.OK? && !held && th.holds) || (th.result.EBUSY? && th.holds == held)
    case CallUnlock => th.result.OK? && held && !th.holds
    case _ => false
  }

  ghost predicate GoesOn(act: Act, held: bool, s: State, t: nat, e: Event, s': State) {
    && |s'.threads| == |s.threads| && t < |s.threads|
    && (Busy(s', t) ==> Underway(act, held, s', t))
    && (!Busy(s', t) ==> e.tid == t && Verdict(act, held, s'.threads[t]))
  }

  lemma CallStarts(s: State, t: nat, act: Act)
    requires Inv(s) && t < |s.threads| && s.threads[t].pc.Out? && IsCall(act) && Lawful(s, Event(t, act))
    ensures Underway(act, s.threads[t].holds, LawfulStep(s, Event(t, act)), t)
  {
    StepKeepsInv(s, Event(t, act));
  }

  /** An access of the bit operation that ends the call. */
  lemma Answers(act: Act, held: bool, s: State, t: nat, a: A.Act)
    requires Underway(act, held, s, t) && Completes(s, t, a)
    ensures var s' := WordAccess(s, t, a);
      |s'.threads| == |s.threads|
      && (s'.threads[t].pc.Out? ==> Verdict(act, held, s'.threads[t]))
      && (!s'.threads[t].pc.Out? ==> s'.threads[t] == s.threads[t] && s.word.mem[0][0] && s.threads[t].pc.LockSpin?)
  {
    assert Agrees(s.threads[t], s.word.threads[t]);
    A.StepIsAtomic(s.word, A.Event(t, a), [Zero()]);
    LockWord(s.word.mem[0]);
    SumAtLeast(s.threads, t, Holds);
  }

  lemma WordStep(act: Act, held: bool, s: State, t: nat, a: A.Act)
    requires Underway(act, held, s, t) && !s.word.threads[t].pc.Ready?
    ensures var s' := WordAccess(s, t, a);
      |s'.threads| == |s.threads|
      && (s'.threads[t].pc.Out? ==> Verdict(act, held, s'.threads[t]))
      && (!s'.threads[t].pc.Out? ==> s'.threads[t] == s.threads[t])
  {
    if Completes(s, t, a) {
      Answers(act, held, s, t, a);
    }
  }

  lemma OwnStep(act: Act, held: bool, s: State, t: nat, e: Event)
    requires Underway(act, held, s, t) && Busy(s, t) && e.tid == t
    ensures GoesOn(act, held, s, t, e, Step(s, e))
  {
    StepKeepsInv(s, e);
    assert Agrees(s.threads[t], s.word.threads[t]);
    NeverMarked(s);
    var pc := s.threads[t].pc;
    if pc.LockSpin? || pc.TrySet? || pc.UnlockClear? {
      WordStep(act, held, s, t, if e.act.Go? then A.Go else A.Fail);
    }
  }

  lemma UnderwayStep(act: Act, held: bool, s: State, t: nat, e: Event)
    requires Underway(act, held, s, t) && Busy(s, t)
    ensures GoesOn(act, held, s, t, e, LawfulStep(s, e))
  {
    if e.tid == t {
      OwnStep(act, held, s, t, e);
    } else if Lawful(s, e) {
      StepKeepsInv(s, e);
      OthersRecords(s, e, t);
    }
  }

  lemma OthersRecords(s: State, e: Event, t: nat)
    requires t < |s.threads| && e.tid != t
    ensures |Step(s, e).threads| == |s.threads| && Step(s, e).threads[t] == s.threads[t]
  {
  }

  lemma CallContinues(act: Act, held: bool, s1: State, t: nat, es: seq<Event>)
    requires Underway(act, held, s1, t) && Always(LawfulStep, s1, es, x => Busy(x, t))
    ensures Underway(act, held, Exec(LawfulStep, s1, es), t) && Busy(Exec(LawfulStep, s1, es), t)
  {
    var inside := (x: State) => Busy(x, t);
    var keeps := (x: State) => Underway(act, held, x, t) && Busy(x, t);
    assert s1 == Exec(LawfulStep, s1, es[..0]);
    forall x, e | keeps(x) && inside(LawfulStep(x, e)) ensures keeps(LawfulStep(x, e)) {
      UnderwayStep(act, held, x, t, e);
    }
    KeptInside(LawfulStep, s1, es, inside, keeps);
  }

  /** The verdict of every call, in every run in which only holders unlock. */
  lemma {:induction false} CallVerdict(s: State, t: nat, act: Act, es: seq<Event>, last: Event)
    requires Inv(s) && t < |s.threads| && s.threads[t].pc.Out? && IsCall(act) && Lawful(s, Event(t, act))
    ensures var s1 := LawfulStep(s, Event(t, act));
      var s' := LawfulStep(Exec(LawfulStep, s1, es), last);
      Always(LawfulStep, s1, es, x => Busy(x, t)) && !Busy(s', t) ==>
        t < |s'.threads| && last.tid == t && Verdict(act, s.threads[t].holds, s'.threads[t])
  {
    var s1 := LawfulStep(s, Event(t, act));
    CallStarts(s, t, act);
    if Always(LawfulStep, s1, es, x => Busy(x, t)) {
      CallContinues(act, s.threads[t].holds, s1, t, es);
      UnderwayStep(act, s.threads[t].holds, Exec(LawfulStep, s1, es), t, last);
    }
  }

  // ----- No call spins without need -----

  /** Accesses a call has left if nobody stores to the word and strex does not fail. */
  function Left(s: State, t: nat): nat
    requires t < |s.threads| && t < |s.word.threads|
  {
    var pc := s.threads[t].pc;
    if pc.Out? then 0
    else if pc.LockTest? || pc.TryTest? || pc.UnlockTest? then 5
    else A.ToReturn(s.word, t)
  }

  /** Every access of a call brings it nearer to its return; only lock goes round again, and
      only when it has found the lock held. */
  lemma Advances(s: State, t: nat)
    requires Inv(s) && Busy(s, t)
    ensures var s' := Step(s, Event(t, Go));
      && |s'.threads| == |s.threads| == |s'.word.threads|
      && (Left(s', t) < Left(s, t)
          || (s.threads[t].pc.LockSpin? && exists u :: 0 <= u < |s.threads| && s.threads[u].holds))
  {
    StepKeepsInv(s, Event(t, Go));
    assert Agrees(s.threads[t], s.word.threads[t]);
    var pc := s.threads[t].pc;
    if pc.LockTest? || pc.TryTest? || pc.UnlockTest? {
      NeverMarked(s);
      TestPasses(s, t);
    } else {
      A.OwnAccessComesNearer(s.word, t, [Zero()]);
      if Completes(s, t, A.Go) && s.word.mem[0][0] && pc.LockSpin? {
        var u := SumWitness(s.threads, Holds);
      } else if Completes(s, t, A.Go) {
        var act := if pc.LockSpin? then CallLock else if pc.TrySet? then CallTrylock else CallUnlock;
        Answers(act, s.threads[t].holds, s, t, A.Go);
      }
    }
  }

  lemma TestPasses(s: State, t: nat)
    requires Inv(s) && t < |s.threads| && s.word.threads[t].pc.Ready?
    requires s.threads[t].pc.LockTest? || s.threads[t].pc.TryTest? || s.threads[t].pc.UnlockTest?
    requires s.word.mem[0] != Destroyed()
    ensures var s' := Step(s, Event(t, Go));
      && t < |s'.threads| && t < |s'.word.threads| && s'.word.threads[t].pc.FirstRead? && Left(s', t) == 4
  {
    BitCallStarts(s.word, t);
  }

  lemma BitCallStarts(w: A.State, t: nat)
    requires t < |w.threads| && w.threads[t].pc.Ready? && A.Inv(w, [Zero()])
    ensures A.Step(w, A.Event(t, A.Call(SET))) == A.At(w, t, A.FirstRead(SET))
    ensures A.Step(w, A.Event(t, A.Call(CLEAR))) == A.At(w, t, A.FirstRead(CLEAR))
  {
    Spin.CallStarts(w, t, SET);
    Spin.CallStarts(w, t, CLEAR);
  }

  // ----- Unlock without the lock -----

  /** Not the holder, and not about to change that. */
  predicate Barred(th: Spinner, w: A.Thread) {
    && !th.holds
    && match th.pc
       case LockSpin | TrySet => !w.pc.Ready? && w.pc.op == SET
       case UnlockTest | UnlockClear => false
       case _ => w.pc.Ready?
  }

  /** The lock's bit is set and nobody holds the lock. */
  ghost predicate Jammed(s: State) {
    && A.Inv(s.word, [Zero()]) && |s.threads| == |s.word.threads| && s.word.mem[0][0]
    && forall t :: 0 <= t < |s.threads| ==> Barred(s.threads[t], s.word.threads[t])
  }

  lemma JammedWord(s: State, t: nat, a: A.Act)
    requires Jammed(s) && Has(s, t) && !s.word.threads[t].pc.Ready?
    ensures var s' := WordAccess(s, t, a);
      Jammed(s') && (s'.threads[t].pc.Out? ==> s.threads[t].pc.TrySet? && s'.threads[t].result.EBUSY?)
  {
    var e := A.Event(t, a);
    assert Barred(s.threads[t], s.word.threads[t]);
    A.StepKeepsInv(s.word, e, [Zero()]);
    A.StepIsAtomic(s.word, e, [Zero()]);
    LockWord(s.word.mem[0]);
    var w := A.Step(s.word, e);
    if Completes(s, t, a) && s.threads[t].pc.LockSpin? {
      A.StepKeepsInv(w, A.Event(t, A.Call(SET)), [Zero()]);
      Spin.CallStarts(w, t, SET);
    }
  }

  lemma JammedTest(s: State, t: nat, pc: Pc)
    requires Jammed(s) && Has(s, t) && s.word.threads[t].pc.Ready? && (pc.LockSpin? || pc.TrySet?)
    ensures Jammed(TestAccess(s, t, SET, pc)) && TestAccess(s, t, SET, pc).threads[t].pc == pc
  {
    assert !Destroyed()[0];
    Spin.CallStarts(s.word, t, SET);
    A.StepKeepsInv(s.word, A.Event(t, A.Call(SET)), [Zero()]);
  }

  /** Still jammed, and if e was the last event of a call, that was a trylock refused. */
  ghost predicate StaysJammed(s: State, e: Event, s': State) {
    Jammed(s') && (Busy(s, e.tid) && !Busy(s', e.tid) ==> Refused(s, e, s'))
  }

  predicate Refused(s: State, e: Event, s': State) {
    && e.tid < |s.threads| && e.tid < |s'.threads|
    && s.threads[e.tid].pc.TrySet? && s'.threads[e.tid].result.EBUSY?
  }

  lemma JammedAccess(s: State, e: Event)
    requires Jammed(s) && Has(s, e.tid) && !s.threads[e.tid].pc.Out?
    ensures StaysJammed(s, e, Step(s, e))
  {
    var t := e.tid;
    var pc := s.threads[t].pc;
    assert Barred(s.threads[t], s.word.threads[t]);
    if pc.LockTest? {
      JammedTest(s, t, LockSpin);
    } else if pc.TryTest? {
      JammedTest(s, t, TrySet);
    } else {
      JammedWord(s, t, if e.act.Go? then A.Go else A.Fail);
    }
  }

  lemma JammedCall(s: State, e: Event)
    requires Jammed(s) && (Has(s, e.tid) ==> s.threads[e.tid].pc.Out?)
    ensures StaysJammed(s, e, LawfulStep(s, e))
  {
  }

  lemma JammedStep(s: State, e: Event)
    requires Jammed(s)
    ensures StaysJammed(s, e, LawfulStep(s, e))
  {
    if Has(s, e.tid) && !s.threads[e.tid].pc.Out? {
      JammedAccess(s, e);
    } else {
      JammedCall(s, e);
    }
  }

  /** A jammed lock is never had again: in every lawful run nobody holds it, no lock call
      returns, and trylock says EBUSY. */
  lemma {:induction false} JammedForEver(s: State, es: seq<Event>, e: Event)
    requires Jammed(s)
    ensures var x := Exec(LawfulStep, s, es);
      Jammed(x) && StaysJammed(x, e, LawfulStep(x, e))
  {
    forall x, f | Jammed(x) ensures Jammed(LawfulStep(x, f)) {
      JammedStep(x, f);
    }
    InvariantOfRuns(LawfulStep, Jammed, s, es);
    JammedStep(Exec(LawfulStep, s, es), e);
  }

  /** The lock after t's unlock has flipped the bit, undisturbed. */
  function Flipped(s: State, t: nat, w: A.State): State
    requires Has(s, t) && t < |w.threads|
  {
    var was := s.word.mem[0][0];
    var th := Spinner(Out, if was then OK else EPERM, if was then false else s.threads[t].holds);
    s.(word := w, threads := s.threads[t := th])
  }

  /** The three accesses of test_and_clear_bit, alone. */
  lemma BitFlips(w0: A.State, t: nat) returns (w1: A.State, w2: A.State, w: A.State)
    requires t < |w0.threads| && A.Inv(w0, [Zero()]) && w0.threads[t].pc == A.FirstRead(CLEAR)
    ensures var go := A.Event(t, A.Go); w1 == A.Step(w0, go) && w2 == A.Step(w1, go) && w == A.Step(w2, go)
    ensures |w1.threads| == |w2.threads| == |w.threads| == |w0.threads|
    ensures !w1.threads[t].pc.Ready? && !w2.threads[t].pc.Ready? && w.threads[t].pc.Ready?
    ensures A.Inv(w, [Zero()]) && w2.mem == w1.mem == w0.mem && w.mem == [A.After(CLEAR, w0.mem[0])]
    ensures w.threads[t].result == A.WasSet(w0.mem[0][0])
    ensures forall u :: 0 <= u < |w.threads| && u != t ==> w.threads[u] == w0.threads[u]
  {
    var go, m := A.Event(t, A.Go), w0.mem[0];
    ReadsBit(w0, t);
    w1 := A.At(w0, t, A.LoadEx(CLEAR, m));
    LoadsBit(w1, t, m);
    w2 := A.At(w1, t, A.StoreEx(CLEAR, m, w0.stores[0]));
    StoresBit(w2, t, m);
    w := A.Step(w2, go);
    A.StepKeepsInv(w0, go, [Zero()]);
    A.StepKeepsInv(w1, go, [Zero()]);
    A.StepKeepsInv(w2, go, [Zero()]);
  }

  lemma ReadsBit(w: A.State, t: nat)
    requires t < |w.threads| && |w.mem| == |w.stores| == 1 && w.threads[t].pc == A.FirstRead(CLEAR)
    ensures A.Step(w, A.Event(t, A.Go)) == A.At(w, t, A.LoadEx(CLEAR, w.mem[0]))
  {
  }

  lemma LoadsBit(w: A.State, t: nat, m: Word)
    requires t < |w.threads| && |w.mem| == |w.stores| == 1 && w.threads[t].pc == A.LoadEx(CLEAR, m) && w.mem[0] == m
    ensures A.Step(w, A.Event(t, A.Go)) == A.At(w, t, A.StoreEx(CLEAR, m, w.stores[0]))
  {
  }

  lemma StoresBit(w: A.State, t: nat, m: Word)
    requires t < |w.threads| && |w.mem| == |w.stores| == 1 && w.threads[t].pc == A.StoreEx(CLEAR, m, w.stores[0])
    ensures var w' := A.Step(w, A.Event(t, A.Go));
      && |w'.threads| == |w.threads| && w'.threads[t].pc.Ready?
      && w'.mem == [A.After(CLEAR, m)] && w'.threads[t].result == A.WasSet(m[0])
      && forall u :: 0 <= u < |w.threads| && u != t ==> w'.threads[u] == w.threads[u]
  {
    LockWord(m);
  }

  lemma FlipsAlone(s: State, t: nat) returns (w: A.State)
    requires Has(s, t) && A.Inv(s.word, [Zero()])
    requires s.threads[t].pc.UnlockClear? && s.word.threads[t].pc == A.FirstRead(CLEAR)
    ensures A.Inv(w, [Zero()]) && w.mem == [A.After(CLEAR, s.word.mem[0])]
    ensures |w.threads| == |s.word.threads| && w.threads[t].pc.Ready?
    ensures forall u :: 0 <= u < |w.threads| && u != t ==> w.threads[u] == s.word.threads[u]
    ensures var go := Event(t, Go); Step(Step(Step(s, go), go), go) == Flipped(s, t, w)
  {
    var w1, w2, wEnd := BitFlips(s.word, t);
    w := wEnd;
    WordOnly(s, t, w1);
    WordOnly(s.(word := w1), t, w2);
    LastFlip(s.(word := w2), t, w, s.word.mem[0][0]);
  }

  /** An access of a bit operation that does not end it. */
  lemma WordOnly(s: State, t: nat, w: A.State)
    requires Has(s, t) && s.threads[t].pc.UnlockClear? && |w.threads| == |s.threads|
    requires w == A.Step(s.word, A.Event(t, A.Go)) && !w.threads[t].pc.Ready?
    ensures Step(s, Event(t, Go)) == s.(word := w)
  {
  }

  lemma LastFlip(s: State, t: nat, w: A.State, was: bool)
    requires Has(s, t) && s.threads[t].pc.UnlockClear? && |w.threads| == |s.threads| && |w.mem| == 1
    requires w == A.Step(s.word, A.Event(t, A.Go)) && w.threads[t].pc.Ready? && w.threads[t].result == A.WasSet(was)
    requires was == s.word.mem[0][0]
    ensures Step(s, Event(t, Go)) == Flipped(s, t, w)
  {
  }

  /** unlock by a thread that does not hold the lock, alone: because it flips the bit, on a
      free lock it returns EPERM and jams the lock; on a held one it returns 0 and leaves
      the bit clear under its holder. */
  lemma StrayUnlock(s: State, t: nat) returns (es: seq<Event>, x: State)
    requires Inv(s) && t < |s.threads| && s.threads[t].pc.Out? && !s.threads[t].holds
    ensures x == Exec(Step, s, es) && |x.threads| == |s.threads| && x.threads[t].pc.Out?
    ensures forall k :: 0 <= k < |es| ==> es[k].tid == t
    ensures forall u :: 0 <= u < |s.threads| ==> x.threads[u].holds == s.threads[u].holds
    ensures if s.word.mem[0] == Zero() then x.threads[t].result.EPERM? && Jammed(x)
            else x.threads[t].result.OK? && |x.word.mem| == 1 && x.word.mem[0] == Zero()
  {
    var call, go := Event(t, CallUnlock), Event(t, Go);
    es := [call, go, go, go] + [go];
    ExecFour(Step, s, call, go, go, go);
    ExecSnoc(Step, s, [call, go, go, go], go);
    var y := StrayCall(s, t);
    var w := FlipsAlone(y, t);
    x := Flipped(y, t, w);
    AfterFlip(s, t, y, w);
  }

  lemma StrayCall(s: State, t: nat) returns (y: State)
    requires Inv(s) && Has(s, t) && s.threads[t].pc.Out? && !s.threads[t].holds
    ensures y == Step(Step(s, Event(t, CallUnlock)), Event(t, Go)) && Has(y, t)
    ensures A.Inv(y.word, [Zero()]) && y.word.mem == s.word.mem && y.word.threads[t].pc == A.FirstRead(CLEAR)
    ensures y.threads == s.threads[t := Spinner(UnlockClear, s.threads[t].result, false)]
    ensures |y.word.threads| == |s.word.threads|
    ensures forall u :: 0 <= u < |s.threads| && u != t ==> y.word.threads[u] == s.word.threads[u]
  {
    assert Agrees(s.threads[t], s.word.threads[t]);
    NeverMarked(s);
    Spin.CallStarts(s.word, t, CLEAR);
    A.StepKeepsInv(s.word, A.Event(t, A.Call(CLEAR)), [Zero()]);
    y := At(s.(word := A.At(s.word, t, A.FirstRead(CLEAR))), t, UnlockClear);
    var y1 := At(s, t, UnlockTest);
    assert Step(s, Event(t, CallUnlock)) == y1;
    assert Step(y1, Event(t, Go)) == TestAccess(y1, t, CLEAR, UnlockClear);
  }

  lemma AfterFlip(s: State, t: nat, y: State, w: A.State)
    requires Inv(s) && Has(s, t) && s.threads[t].pc.Out? && !s.threads[t].holds
    requires y.threads == s.threads[t := Spinner(UnlockClear, s.threads[t].result, false)] && y.word.mem == s.word.mem
    requires Has(y, t) && A.Inv(w, [Zero()]) && w.mem == [A.After(CLEAR, s.word.mem[0])]
    requires |w.threads| == |s.word.threads| && w.threads[t].pc.Ready?
    requires forall u :: 0 <= u < |w.threads| && u != t ==> w.threads[u] == s.word.threads[u]
    ensures if s.word.mem[0] == Zero() then Jammed(Flipped(y, t, w)) else w.mem[0] == Zero() && s.word.mem[0][0]
  {
    var x, m := Flipped(y, t, w), s.word.mem[0];
    LockWord(m);
    if !m[0] {
      assert m == Zero();
      forall u | 0 <= u < |x.threads| ensures Barred(x.threads[u], x.word.threads[u]) {
        assert Agrees(s.threads[u], s.word.threads[u]);
        SumAtLeast(s.threads, u, Holds);
      }
    } else {
      assert w.mem[0] == Zero();
    }
  }

  // ----- A destroyed lock -----

  /** Destroyed while nobody was inside. */
  ghost predicate Gone(s: State) {
    && |s.threads| == |s.word.threads| && s.word.mem == [Destroyed()]
    && forall t :: 0 <= t < |s.threads| ==>
      var pc := s.threads[t].pc; pc.Out? || pc.LockTest? || pc.TryTest? || pc.UnlockTest?
  }

  /** Every call of every later run, lawful or not, then returns EINVAL and touches nothing. */
  lemma {:induction false} DestroyedRefuses(s: State, es: seq<Event>, t: nat)
    requires Gone(s)
    ensures var x := Exec(Step, s, es);
      && Gone(x) && x.word == s.word
      && (Busy(x, t) ==>
            Step(x, Event(t, Go)) == x.(threads := x.threads[t := Spinner(Out, EINVAL, x.threads[t].holds)]))
  {
    var inv := (x: State) => Gone(x) && x.word == s.word;
    forall x, e | inv(x) ensures inv(Step(x, e)) {
    }
    InvariantOfRuns(Step, inv, s, es);
  }
}
