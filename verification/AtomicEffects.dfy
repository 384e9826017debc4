/** What the atomic operations do to memory, read off the log of any run: additions each
    count once, the bit operations touch one bit of the flat bit array, and of concurrent
    setters of one bit exactly one finds it clear. */
module AtomicEffects {
  import opened Kernel
  import opened Runs
  import opened Words
  import opened Atomics

  // ----- The flat bit array -----

  predicate Flat(mem: seq<Word>, nr: nat)
    requires nr / WIDTH < |mem|
  {
    mem[nr / WIDTH][nr % WIDTH]
  }

  lemma SameBit(i: nat, j: nat)
    requires i / WIDTH == j / WIDTH && i % WIDTH == j % WIDTH
    ensures i == j
  {
  }

  /** test_and_set_bit sets bit nr of the array and leaves every other bit of every word;
      test_and_clear_bit flips bit nr, so it clears it exactly when it was set.  Both say
      whether it was set. */
  lemma BitOperationsTouchOneBit(mem: seq<Word>, nr: nat, j: nat)
    requires nr / WIDTH < |mem| && j / WIDTH < |mem|
    ensures var m := mem[nr / WIDTH := After(SetBit(nr), mem[nr / WIDTH])];
      Flat(m, j) <==> j == nr || Flat(mem, j)
    ensures var m := mem[nr / WIDTH := After(ClearBit(nr), mem[nr / WIDTH])];
      Flat(m, j) <==> if j == nr then !Flat(mem, nr) else Flat(mem, j)
    ensures AnswerFor(SetBit(nr), mem[nr / WIDTH]) == WasSet(Flat(mem, nr))
    ensures AnswerFor(ClearBit(nr), mem[nr / WIDTH]) == WasSet(Flat(mem, nr))
  {
    var w := mem[nr / WIDTH];
    MaskedBits(w, nr % WIDTH, j % WIDTH);
    if j / WIDTH == nr / WIDTH && j % WIDTH == nr % WIDTH {
      SameBit(j, nr);
    }
  }

  // ----- Concurrent additions -----

  predicate IsAdd(op: Op) { op.Add? || op.ExchangeAdd? }

  /** The sum of what the log added to word a. */
  function Added(log: seq<Entry>, a: nat): nat {
    if log == [] then 0 else
      var e := log[|log| - 1];
      Added(log[..|log| - 1], a) + (if e.addr == a && IsAdd(e.op) then ToNat(e.op.value) else 0)
  }

  ghost predicate OnlyAddsAt(log: seq<Entry>, a: nat) {
    forall i :: 0 <= i < |log| && log[i].addr == a ==> IsAdd(log[i].op)
  }

  lemma {:induction false} AddMultiple(m: nat, k: nat)
    ensures (m + k * RANGE) % RANGE == m % RANGE
  {
    if k > 0 {
      AddMultiple(m, k - 1);
      assert m + k * RANGE == m + (k - 1) * RANGE + RANGE;
    }
  }

  lemma {:induction false} WordInRange(bits: seq<bool>)
    ensures ToNat(bits) < Pow2(|bits|)
  {
    if bits != [] {
      WordInRange(bits[1..]);
    }
  }

  lemma Wrapped(w: Word, carried: nat, total: nat)
    requires ToNat(w) + carried * RANGE == total
    ensures ToNat(w) == total % RANGE
  {
    WordInRange(w);
    RangeIsPow2();
    AddMultiple(ToNat(w), carried);
  }

  /** The last entry writes one word; an addition adds to it, wrapping c times. */
  lemma LastEffect(mem: seq<Word>, log: seq<Entry>) returns (w: Word, c: nat)
    requires Legal(mem, log) && Faithful(log) && log != []
    ensures var r, e := Replay(mem, log[..|log| - 1]), log[|log| - 1];
      && e.addr < |mem| && Replay(mem, log) == r[e.addr := w]
      && (IsAdd(e.op) ==> ToNat(w) + c * RANGE == ToNat(r[e.addr]) + ToNat(e.op.value))
  {
    var e := log[|log| - 1];
    w, c := e.after, 0;
    assert e.after == After(e.op, e.before);
    if IsAdd(e.op) {
      PlusIsModular(e.before, e.op.value);
      c := (ToNat(e.before) + ToNat(e.op.value)) / RANGE;
    }
  }

  /** Word a and what was carried out of it make up its first value and all additions. */
  lemma {:induction false} AdditionsAddUp(mem: seq<Word>, log: seq<Entry>, a: nat) returns (carried: nat)
    requires Legal(mem, log) && Faithful(log) && OnlyAddsAt(log, a) && a < |mem|
    ensures ToNat(Replay(mem, log)[a]) + carried * RANGE == ToNat(mem[a]) + Added(log, a)
  {
    carried := 0;
    if log != [] {
      var p := log[..|log| - 1];
      LegalPrefix(mem, log);
      carried := AdditionsAddUp(mem, p, a);
      var w, c := LastEffect(mem, log);
      if log[|log| - 1].addr == a {
        carried := carried + c;
      }
    }
  }

  lemma LegalPrefix(mem: seq<Word>, log: seq<Entry>)
    requires Legal(mem, log) && Faithful(log) && log != []
    ensures Legal(mem, log[..|log| - 1]) && Faithful(log[..|log| - 1])
  {
    var p := log[..|log| - 1];
    forall i | 0 <= i < |p| ensures p[i].addr < |mem| && p[i].before == Replay(mem, p[..i])[p[i].addr] {
      assert p[..i] == log[..i];
    }
  }

  // ----- Which operations a run contains -----

  /** The operations in progress or logged are ones that were called. */
  ghost predicate OnlyOps(s: State, p: Op -> bool) {
    && (forall t :: 0 <= t < |s.threads| && !s.threads[t].pc.Ready? ==> p(s.threads[t].pc.op))
    && forall i :: 0 <= i < |s.log| ==> p(s.log[i].op)
  }

  ghost predicate Calls(es: seq<Event>, p: Op -> bool) {
    forall i :: 0 <= i < |es| && es[i].act.Call? ==> p(es[i].act.op)
  }

  lemma StepKeepsOps(s: State, e: Event, p: Op -> bool)
    requires OnlyOps(s, p) && (e.act.Call? ==> p(e.act.op))
    ensures OnlyOps(Step(s, e), p)
  {
    ReturnsWhatItLogged(s, e);
  }

  lemma {:induction false} RunKeepsOps(s: State, es: seq<Event>, p: Op -> bool)
    requires OnlyOps(s, p) && Calls(es, p)
    ensures OnlyOps(Exec(Step, s, es), p)
  {
    if es != [] {
      var k := |es| - 1;
      RunKeepsOps(s, es[..k], p);
      StepKeepsOps(Exec(Step, s, es[..k]), es[k], p);
    }
  }

  lemma NothingCalledYet(s: State, mem: seq<Word>, p: Op -> bool)
    requires Init(s, mem)
    ensures OnlyOps(s, p)
  {
  }

  lemma OpsOfRun(s: State, mem: seq<Word>, es: seq<Event>, p: Op -> bool)
    requires Init(s, mem) && Calls(es, p)
    ensures OnlyOps(Exec(Step, s, es), p)
  {
    NothingCalledYet(s, mem, p);
    RunKeepsOps(s, es, p);
  }

  /** Word a is its first value plus everything added to it, modulo 2^32. */
  ghost predicate EachCountedOnce(s: State, mem: seq<Word>, a: nat) {
    && a < |s.mem| == |mem|
    && ToNat(s.mem[a]) == (ToNat(mem[a]) + Added(s.log, a)) % RANGE
  }

  function AddsAt(a: nat): Op -> bool { op => Target(op) == a ==> IsAdd(op) }

  lemma OnlyAddsLogged(s: State, mem: seq<Word>, a: nat)
    requires Inv(s, mem) && OnlyOps(s, AddsAt(a))
    ensures OnlyAddsAt(s.log, a)
  {
    forall i | 0 <= i < |s.log| && s.log[i].addr == a ensures IsAdd(s.log[i].op) {
      assert AddsAt(a)(s.log[i].op);
    }
  }

  lemma CountedOnceIn(s: State, mem: seq<Word>, a: nat)
    requires Inv(s, mem) && OnlyOps(s, AddsAt(a)) && a < |mem|
    ensures EachCountedOnce(s, mem, a)
  {
    OnlyAddsLogged(s, mem, a);
    var carried := AdditionsAddUp(mem, s.log, a);
    Wrapped(s.mem[a], carried, ToNat(mem[a]) + Added(s.log, a));
  }

  /** In every run of concurrent additions to word a (and anything to other words), each
      completed addition has counted exactly once, modulo 2^32. */
  lemma ConcurrentAddsEachCountOnce(s: State, mem: seq<Word>, es: seq<Event>, a: nat)
    requires Init(s, mem) && a < |mem| && Calls(es, AddsAt(a))
    ensures EachCountedOnce(Exec(Step, s, es), mem, a)
  {
    Refinement(s, mem, es);
    OpsOfRun(s, mem, es, AddsAt(a));
    CountedOnceIn(Exec(Step, s, es), mem, a);
  }

  // ----- Concurrent setters of one bit -----

  predicate IsSetter(e: Entry, nr: nat) { e.op == SetBit(nr) }

  predicate Wins(e: Entry, nr: nat) { IsSetter(e, nr) && AnswerFor(e.op, e.before) == WasSet(false) }

  /** How many setters of bit nr found it clear. */
  function Winners(log: seq<Entry>, nr: nat): nat {
    if log == [] then 0 else
      var e := log[|log| - 1];
      Winners(log[..|log| - 1], nr) + (if Wins(e, nr) then 1 else 0)
  }

  /** Nothing but setting of bits was done to word w. */
  ghost predicate OnlySetters(log: seq<Entry>, w: nat) {
    forall i :: 0 <= i < |log| && log[i].addr == w ==> log[i].op.SetBit?
  }

  ghost predicate Attempted(log: seq<Entry>, nr: nat) {
    exists i :: 0 <= i < |log| && IsSetter(log[i], nr)
  }

  lemma AttemptedSnoc(log: seq<Entry>, nr: nat)
    requires log != []
    ensures Attempted(log, nr) <==> Attempted(log[..|log| - 1], nr) || IsSetter(log[|log| - 1], nr)
  {
    var p := log[..|log| - 1];
    if Attempted(p, nr) {
      var i :| 0 <= i < |p| && IsSetter(p[i], nr);
      assert IsSetter(log[i], nr);
    }
    if Attempted(log, nr) {
      var i :| 0 <= i < |log| && IsSetter(log[i], nr);
      assert i == |log| - 1 || IsSetter(p[i], nr);
    }
  }

  /** Of the setters of a bit that is clear at first, exactly one finds it clear. */
  lemma {:induction false} OneWinnerInLog(mem: seq<Word>, log: seq<Entry>, nr: nat)
    requires Legal(mem, log) && Faithful(log) && OnlySetters(log, nr / WIDTH)
    requires nr / WIDTH < |mem| && !Flat(mem, nr)
    ensures Winners(log, nr) == if Attempted(log, nr) then 1 else 0
    ensures Flat(Replay(mem, log), nr) <==> Attempted(log, nr)
  {
    if log != [] {
      var k := |log| - 1;
      var r, e := Replay(mem, log[..k]), log[k];
      LegalPrefix(mem, log);
      OneWinnerInLog(mem, log[..k], nr);
      AttemptedSnoc(log, nr);
      assert e.addr == Target(e.op) && e.before == r[e.addr] && e.after == After(e.op, e.before);
      if e.addr == nr / WIDTH {
        BitOperationsTouchOneBit(r, e.op.nr, nr);
      }
    }
  }

  /** pthread_detach: EINVAL if the bit was already set. */
  function DetachResult(answer: Answer): Errno {
    if answer == WasSet(true) then EINVAL else OK
  }

  /** Operations that do to word w nothing but set bits. */
  function SetsOnlyIn(w: nat): Op -> bool { op => Target(op) == w ==> op.SetBit? }

  /** A detaching call is a setter of bit nr, and returns 0 if it wins; if any has returned,
      exactly one has won. */
  ghost predicate DetachedOnce(s: State, nr: nat) {
    && Winners(s.log, nr) == (if Attempted(s.log, nr) then 1 else 0)
    && forall i :: 0 <= i < |s.log| && IsSetter(s.log[i], nr) ==>
         (DetachResult(AnswerFor(s.log[i].op, s.log[i].before)).OK? <==> Wins(s.log[i], nr))
  }

  lemma OnlySettersLogged(s: State, mem: seq<Word>, w: nat)
    requires Inv(s, mem) && OnlyOps(s, SetsOnlyIn(w))
    ensures OnlySetters(s.log, w)
  {
    forall i | 0 <= i < |s.log| && s.log[i].addr == w ensures s.log[i].op.SetBit? {
      assert SetsOnlyIn(w)(s.log[i].op);
    }
  }

  lemma DetachedOnceIn(s: State, mem: seq<Word>, nr: nat)
    requires nr / WIDTH < |mem| && !Flat(mem, nr) && Inv(s, mem) && OnlyOps(s, SetsOnlyIn(nr / WIDTH))
    ensures DetachedOnce(s, nr)
  {
    OnlySettersLogged(s, mem, nr / WIDTH);
    OneWinnerInLog(mem, s.log, nr);
  }

  /** Among any number of concurrent pthread_detach calls on a joinable thread that is not
      yet detached, in any memory and with any operations on other words going on, exactly
      one returns 0, as soon as any has returned at all. */
  lemma {:induction false} DetachSucceedsOnce(s: State, mem: seq<Word>, es: seq<Event>, nr: nat)
    requires Init(s, mem) && nr / WIDTH < |mem| && !Flat(mem, nr) && Calls(es, SetsOnlyIn(nr / WIDTH))
    ensures DetachedOnce(Exec(Step, s, es), nr)
  {
    Refinement(s, mem, es);
    OpsOfRun(s, mem, es, SetsOnlyIn(nr / WIDTH));
    DetachedOnceIn(Exec(Step, s, es), mem, nr);
  }
}
