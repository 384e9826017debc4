/** The atomic operations: ldrex and strex make a compare-and-swap, and loops over the
    compare-and-swap make exchange, add and the bit operations.

    Memory words are 32 bits wide.  A store counter per word stands for the exclusive
    monitor: a reservation made by ldrex holds until the next store to the word, and strex
    may also fail for no reason at all. */
module Atomics {
  import opened Kernel
  import opened Runs
  import opened Words

  datatype Op =
    | Cas(addr: nat, compare: Word, swap: Word)   // ATOMIC_CAS
    | Exchange(addr: nat, value: Word)            // ATOMIC_LW_SW
    | Add(addr: nat, value: Word)                 // ATOMIC_ADD
    | ExchangeAdd(addr: nat, value: Word)         // ATOMIC_EXCHANGE_ADD
    | SetBit(nr: nat)                             // test_and_set_bit
    | ClearBit(nr: nat)                           // test_and_clear_bit

  function BitOf(nr: nat): Word { Mask(nr % WIDTH) }

  /** The word an operation works on; the bit operations take a flat bit number. */
  function Target(op: Op): nat {
    match op
    case SetBit(nr) => nr / WIDTH
    case ClearBit(nr) => nr / WIDTH
    case _ => op.addr
  }

  /** The word the first, plain read looks at: for the bit operations always word 0. */
  function FirstGuess(op: Op): nat {
    if op.SetBit? || op.ClearBit? then 0 else op.addr
  }

  /** What the loop tries to store, having seen t1. */
  function Desired(op: Op, t1: Word): Word {
    match op
    case Cas(_, _, swap) => swap
    case Exchange(_, value) => value
    case Add(_, value) => Plus(t1, value)
    case ExchangeAdd(_, value) => Plus(t1, value)
    case SetBit(nr) => Or(t1, BitOf(nr))
    case ClearBit(nr) => Xor(t1, BitOf(nr))
  }

  /** What the operation returns, having replaced t1: a word, or for the bit operations
      whether the bit was set. */
  datatype Answer = Value(word: Word) | WasSet(bit: bool)

  function AnswerFor(op: Op, t1: Word): Answer {
    match op
    case Cas(_, _, _) => Value(t1)
    case Exchange(_, _) => Value(t1)
    case Add(_, value) => Value(Plus(t1, value))
    case ExchangeAdd(_, _) => Value(t1)
    case SetBit(nr) => WasSet(NonZero(And(t1, BitOf(nr))))
    case ClearBit(nr) => WasSet(NonZero(And(t1, BitOf(nr))))
  }

  datatype Pc =
    | Ready
    | FirstRead(op: Op)                        // t2 = *addr
    | LoadEx(op: Op, t1: Word)                 // old = ldrex; compare with t1
    | StoreEx(op: Op, t1: Word, stamp: nat)    // strex, under the reservation of `stamp`

  datatype Thread = Thread(pc: Pc, result: Answer)

  /** History: one entry per completed operation, and one per completed compare-and-swap,
      each with the value found and the value left. */
  datatype Entry = Entry(tid: nat, op: Op, addr: nat, before: Word, after: Word)
  datatype CasEntry = CasEntry(tid: nat, addr: nat, compare: Word, swap: Word, before: Word)

  datatype State = State(mem: seq<Word>, stores: seq<nat>, threads: seq<Thread>,
                         log: seq<Entry>, casLog: seq<CasEntry>)

  datatype Act = Call(op: Op) | Go | Fail

  datatype Event = Event(tid: nat, act: Act)

  function At(s: State, t: nat, pc: Pc): State
    requires t < |s.threads|
  {
    s.(threads := s.threads[t := s.threads[t].(pc := pc)])
  }

  function Return(s: State, t: nat, op: Op, before: Word, after: Word): State
    requires t < |s.threads|
  {
    s.(threads := s.threads[t := Thread(Ready, AnswerFor(op, before))],
       log := s.log + [Entry(t, op, Target(op), before, after)])
  }

  predicate Has(s: State, t: nat, op: Op) {
    t < |s.threads| && Target(op) < |s.mem| == |s.stores| && FirstGuess(op) < |s.mem|
  }

  function Start(s: State, t: nat, op: Op): State
    requires t < |s.threads|
  {
    if !Has(s, t, op) then s
    else if op.Cas? then At(s, t, LoadEx(op, op.compare))
    else At(s, t, FirstRead(op))
  }

  /** ldrex and the comparison.  A mismatch ends the compare-and-swap; a loop goes round
      again with the value found. */
  function Load(s: State, t: nat, op: Op, t1: Word): State
    requires Has(s, t, op)
  {
    var m := Target(op);
    var found := s.mem[m];
    if found == t1 then At(s, t, StoreEx(op, t1, s.stores[m]))
    else
      var s1 := s.(casLog := s.casLog + [CasEntry(t, m, t1, Desired(op, t1), found)]);
      if op.Cas? then Return(s1, t, op, found, found) else At(s1, t, LoadEx(op, found))
  }

  /** The store, ending the compare-and-swap and the loop over it. */
  function Stored(s: State, t: nat, op: Op, t1: Word, desired: Word): State
    requires Has(s, t, op)
  {
    var m := Target(op);
    var s1 := s.(mem := s.mem[m := desired], stores := s.stores[m := s.stores[m] + 1],
                 casLog := s.casLog + [CasEntry(t, m, t1, desired, t1)]);
    Return(s1, t, op, t1, desired)
  }

  /** strex: without its reservation it fails, and ldrex is tried again. */
  function Store(s: State, t: nat, op: Op, t1: Word, stamp: nat): State
    requires Has(s, t, op)
  {
    if stamp != s.stores[Target(op)] then At(s, t, LoadEx(op, t1)) else Stored(s, t, op, t1, Desired(op, t1))
  }

  function Step(s: State, e: Event): State {
    var t := e.tid;
    if t >= |s.threads| then s else
      match s.threads[t].pc
      case Ready => if e.act.Call? then Start(s, t, e.act.op) else s
      case FirstRead(op) => if e.act.Go? && Has(s, t, op) then At(s, t, LoadEx(op, s.mem[FirstGuess(op)])) else s
      case LoadEx(op, t1) => if e.act.Go? && Has(s, t, op) then Load(s, t, op, t1) else s
      case StoreEx(op, t1, stamp) =>
        if e.act.Go? && Has(s, t, op) then Store(s, t, op, t1, stamp)
        else if e.act.Fail? then At(s, t, LoadEx(op, t1))
        else s
  }

  ghost predicate Init(s: State, mem: seq<Word>) {
    && s.mem == mem && |s.stores| == |mem| && s.log == [] && s.casLog == []
    && forall t :: 0 <= t < |s.threads| ==> s.threads[t].pc.Ready?
  }

  // ----- The atomic operations it refines -----

  /** What one atomic operation makes of the word it finds. */
  function After(op: Op, before: Word): Word {
    if op.Cas? && before != op.compare then before else Desired(op, before)
  }

  /** Memory after the operations of a log, each done atomically. */
  function Replay(mem: seq<Word>, log: seq<Entry>): (r: seq<Word>)
    ensures |r| == |mem|
  {
    if log == [] then mem else
      var r := Replay(mem, log[..|log| - 1]);
      var e := log[|log| - 1];
      if e.addr < |mem| then r[e.addr := e.after] else r
  }

  /** Every operation of the log found what the operations before it left. */
  ghost predicate Legal(mem: seq<Word>, log: seq<Entry>) {
    forall i :: 0 <= i < |log| ==> log[i].addr < |mem| && log[i].before == Replay(mem, log[..i])[log[i].addr]
  }

  function ReplayCas(mem: seq<Word>, log: seq<CasEntry>): (r: seq<Word>)
    ensures |r| == |mem|
  {
    if log == [] then mem else
      var r := ReplayCas(mem, log[..|log| - 1]);
      var e := log[|log| - 1];
      if e.addr < |mem| && e.before == e.compare then r[e.addr := e.swap] else r
  }

  ghost predicate LegalCas(mem: seq<Word>, log: seq<CasEntry>) {
    forall i :: 0 <= i < |log| ==> log[i].addr < |mem| && log[i].before == ReplayCas(mem, log[..i])[log[i].addr]
  }

  ghost predicate ThreadInv(s: State, t: nat)
    requires t < |s.threads|
  {
    match s.threads[t].pc
    case Ready => true
    case FirstRead(op) => Has(s, t, op) && !op.Cas?
    case LoadEx(op, t1) => Has(s, t, op) && (op.Cas? ==> t1 == op.compare)
    case StoreEx(op, t1, stamp) =>
      && Has(s, t, op) && (op.Cas? ==> t1 == op.compare)
      && stamp <= s.stores[Target(op)] && (stamp == s.stores[Target(op)] ==> s.mem[Target(op)] == t1)
  }

  /** Every operation of the log did to the word what its atomic form does. */
  ghost predicate Faithful(log: seq<Entry>) {
    forall i :: 0 <= i < |log| ==>
      log[i].addr == Target(log[i].op) && log[i].after == After(log[i].op, log[i].before)
  }

  /** Memory is what the atomic operations logged so far make of it, at both levels. */
  ghost predicate Inv(s: State, mem: seq<Word>) {
    && |s.mem| == |s.stores| == |mem|
    && Legal(mem, s.log) && Faithful(s.log) && s.mem == Replay(mem, s.log)
    && LegalCas(mem, s.casLog) && s.mem == ReplayCas(mem, s.casLog)
    && forall t :: 0 <= t < |s.threads| ==> ThreadInv(s, t)
  }

  lemma ReplaySnoc(mem: seq<Word>, log: seq<Entry>, e: Entry)
    requires Legal(mem, log) && e.addr < |mem| && e.before == Replay(mem, log)[e.addr]
    ensures Legal(mem, log + [e])
    ensures Replay(mem, log + [e]) == Replay(mem, log)[e.addr := e.after]
  {
    var log' := log + [e];
    assert log'[..|log|] == log;
    forall i | 0 <= i < |log'|
      ensures log'[i].addr < |mem| && log'[i].before == Replay(mem, log'[..i])[log'[i].addr]
    {
      if i < |log| {
        assert log'[..i] == log[..i];
      }
    }
  }

  lemma ReplayCasSnoc(mem: seq<Word>, log: seq<CasEntry>, e: CasEntry)
    requires LegalCas(mem, log) && e.addr < |mem| && e.before == ReplayCas(mem, log)[e.addr]
    ensures LegalCas(mem, log + [e])
    ensures ReplayCas(mem, log + [e])
         == if e.before == e.compare then ReplayCas(mem, log)[e.addr := e.swap] else ReplayCas(mem, log)
  {
    var log' := log + [e];
    assert log'[..|log|] == log;
    forall i | 0 <= i < |log'|
      ensures log'[i].addr < |mem| && log'[i].before == ReplayCas(mem, log'[..i])[log'[i].addr]
    {
      if i < |log| {
        assert log'[..i] == log[..i];
      }
    }
  }

  /** A compare-and-swap that fails is logged and changes nothing. */
  lemma FailedCas(s: State, e: CasEntry, mem: seq<Word>)
    requires Inv(s, mem) && e.addr < |s.mem| && e.before == s.mem[e.addr] && e.before != e.compare
    ensures Inv(s.(casLog := s.casLog + [e]), mem)
  {
    var s1 := s.(casLog := s.casLog + [e]);
    ReplayCasSnoc(mem, s.casLog, e);
    forall u | 0 <= u < |s.threads| ensures ThreadInv(s1, u) {
      assert ThreadInv(s, u);
    }
  }

  /** So does an ATOMIC_CAS that returns without storing. */
  lemma ReturnUnchanged(s: State, t: nat, op: Op, mem: seq<Word>)
    requires Inv(s, mem) && Has(s, t, op) && op.Cas? && s.mem[Target(op)] != op.compare
    ensures Inv(Return(s, t, op, s.mem[Target(op)], s.mem[Target(op)]), mem)
  {
    var w := s.mem[Target(op)];
    var s' := Return(s, t, op, w, w);
    ReplaySnoc(mem, s.log, Entry(t, op, Target(op), w, w));
    assert s.mem[Target(op) := w] == s.mem;
    forall u | 0 <= u < |s'.threads| ensures ThreadInv(s', u) {
      assert ThreadInv(s, u);
    }
  }

  lemma LoadKeepsInv(s: State, t: nat, op: Op, t1: Word, mem: seq<Word>)
    requires Inv(s, mem) && Has(s, t, op) && s.threads[t].pc == LoadEx(op, t1)
    ensures Inv(Load(s, t, op, t1), mem)
  {
    var m := Target(op);
    assert ThreadInv(s, t);
    if s.mem[m] == t1 {
      PcKeepsInv(s, t, StoreEx(op, t1, s.stores[m]), mem);
    } else {
      var e := CasEntry(t, m, t1, Desired(op, t1), s.mem[m]);
      FailedCas(s, e, mem);
      var s1 := s.(casLog := s.casLog + [e]);
      if op.Cas? {
        ReturnUnchanged(s1, t, op, mem);
      } else {
        PcKeepsInv(s1, t, LoadEx(op, s.mem[m]), mem);
      }
    }
  }

  /** A successful strex stores under a reservation, so over the value that was loaded. */
  lemma StoredKeepsInv(s: State, t: nat, op: Op, t1: Word, desired: Word, mem: seq<Word>)
    requires Inv(s, mem) && Has(s, t, op) && s.mem[Target(op)] == t1 && desired == After(op, t1)
    ensures Inv(Stored(s, t, op, t1, desired), mem)
  {
    var m, s' := Target(op), Stored(s, t, op, t1, desired);
    ReplayCasSnoc(mem, s.casLog, CasEntry(t, m, t1, desired, t1));
    ReplaySnoc(mem, s.log, Entry(t, op, m, t1, desired));
    forall u | 0 <= u < |s'.threads| ensures ThreadInv(s', u) {
      assert ThreadInv(s, u);
    }
  }

  lemma StoreKeepsInv(s: State, t: nat, op: Op, t1: Word, stamp: nat, mem: seq<Word>)
    requires Inv(s, mem) && Has(s, t, op) && s.threads[t].pc == StoreEx(op, t1, stamp)
    ensures Inv(Store(s, t, op, t1, stamp), mem)
  {
    assert ThreadInv(s, t);
    if stamp != s.stores[Target(op)] {
      PcKeepsInv(s, t, LoadEx(op, t1), mem);
    } else {
      StoredKeepsInv(s, t, op, t1, Desired(op, t1), mem);
    }
  }

  lemma StepKeepsInv(s: State, e: Event, mem: seq<Word>)
    requires Inv(s, mem)
    ensures Inv(Step(s, e), mem)
  {
    var t, s' := e.tid, Step(s, e);
    if t < |s.threads| {
      assert ThreadInv(s, t);
      match s.threads[t].pc
      case LoadEx(op, t1) =>
        if e.act.Go? {
          LoadKeepsInv(s, t, op, t1, mem);
        }
      case StoreEx(op, t1, stamp) =>
        if e.act.Go? {
          StoreKeepsInv(s, t, op, t1, stamp, mem);
        } else {
          PcKeepsInv(s, t, LoadEx(op, t1), mem);
        }
      case FirstRead(op) =>
        PcKeepsInv(s, t, LoadEx(op, s.mem[FirstGuess(op)]), mem);
      case Ready =>
        if e.act.Call? && Has(s, t, e.act.op) {
          PcKeepsInv(s, t, if e.act.op.Cas? then LoadEx(e.act.op, e.act.op.compare) else FirstRead(e.act.op), mem);
        }
    }
  }

  lemma PcKeepsInv(s: State, t: nat, pc: Pc, mem: seq<Word>)
    requires Inv(s, mem) && t < |s.threads| && ThreadInv(At(s, t, pc), t)
    ensures Inv(At(s, t, pc), mem)
  {
    forall u | 0 <= u < |s.threads| ensures ThreadInv(At(s, t, pc), u) {
      assert ThreadInv(s, u);
    }
  }

  /** In every run the loops refine the atomic operations: each operation takes effect once,
      at one of its own accesses, as if done atomically there, and the log of these effects
      explains memory and every value returned.  One level down, the same holds of the
      compare-and-swaps that the loops are made of. */
  lemma {:induction false} Refinement(s: State, mem: seq<Word>, es: seq<Event>)
    requires Init(s, mem)
    ensures Inv(Exec(Step, s, es), mem)
  {
    var inv := (x: State) => Inv(x, mem);
    forall x, e | inv(x) ensures inv(Step(x, e)) {
      StepKeepsInv(x, e, mem);
    }
    InvariantOfRuns(Step, inv, s, es);
  }

  /** An operation returns in the very step that logs it, with the answer for the value it
      found; no other step logs or returns anything. */
  lemma ReturnsWhatItLogged(s: State, e: Event)
    ensures var s' := Step(s, e);
      || (s'.log == s.log && (e.tid < |s.threads| && s'.threads[e.tid].pc.Ready? ==> s'.threads == s.threads))
      || (e.tid < |s.threads| && !s.threads[e.tid].pc.Ready? && s'.threads[e.tid].pc.Ready?
          && |s'.log| == |s.log| + 1 && s'.log[..|s.log|] == s.log
          && s'.log[|s.log|].tid == e.tid && s'.log[|s.log|].op == s.threads[e.tid].pc.op
          && s'.threads[e.tid].result == AnswerFor(s'.log[|s.log|].op, s'.log[|s.log|].before))
  {
  }

  /** One access of an operation in progress either leaves memory and the operation's
      progress towards its target as they were, or is the whole operation done at once. */
  lemma StepIsAtomic(s: State, e: Event, mem: seq<Word>)
    requires Inv(s, mem) && e.tid < |s.threads| && !s.threads[e.tid].pc.Ready?
    ensures var t, s', op := e.tid, Step(s, e), s.threads[e.tid].pc.op;
      && Has(s, t, op) && |s'.threads| == |s.threads|
      && (forall u :: 0 <= u < |s.threads| && u != t ==> s'.threads[u] == s.threads[u])
      && (if s'.threads[t].pc.Ready? then
            && s'.mem == s.mem[Target(op) := After(op, s.mem[Target(op)])]
            && s'.threads[t].result == AnswerFor(op, s.mem[Target(op)])
          else s'.mem == s.mem && s'.threads[t].pc.op == op)
  {
    assert ThreadInv(s, e.tid);
  }

  /** What the atomic operations mean, as numbers: compare-and-swap stores on a match only,
      exchange stores its value, the additions add modulo 2^32; ATOMIC_ADD returns the sum,
      the others the value found. */
  lemma MeaningOfOperations(a: nat, v: Word, w: Word, found: Word)
    ensures After(Cas(a, v, w), found) == (if found == v then w else found)
    ensures After(Exchange(a, v), found) == v
    ensures ToNat(After(Add(a, v), found)) == (ToNat(found) + ToNat(v)) % RANGE
    ensures ToNat(After(ExchangeAdd(a, v), found)) == (ToNat(found) + ToNat(v)) % RANGE
    ensures AnswerFor(Add(a, v), found) == Value(After(Add(a, v), found))
    ensures AnswerFor(Cas(a, v, w), found) == AnswerFor(Exchange(a, v), found)
         == AnswerFor(ExchangeAdd(a, v), found) == Value(found)
  {
    PlusIsModular(found, v);
  }

  // ----- Whole calls -----

  /** Accesses an operation has left if nobody stores to its word and strex does not fail. */
  function ToReturn(s: State, t: nat): nat
    requires t < |s.threads|
  {
    match s.threads[t].pc
    case Ready => 0
    case FirstRead(_) => 4
    case LoadEx(op, t1) => if Has(s, t, op) && s.mem[Target(op)] == t1 then 2 else 3
    case StoreEx(op, t1, stamp) => if Has(s, t, op) && stamp == s.stores[Target(op)] then 1 else 4
  }

  /** Every access of the thread's own brings the operation nearer to its return. */
  lemma OwnAccessComesNearer(s: State, t: nat, mem: seq<Word>)
    requires Inv(s, mem) && t < |s.threads| && !s.threads[t].pc.Ready?
    ensures var s' := Step(s, Event(t, Go)); |s'.threads| == |s.threads| && ToReturn(s', t) < ToReturn(s, t)
  {
    assert ThreadInv(s, t);
  }

  predicate Busy(s: State, t: nat) { t < |s.threads| && !s.threads[t].pc.Ready? }

  /** Thread t is in the operation op. */
  ghost predicate Underway(s: State, t: nat, op: Op, mem: seq<Word>) {
    Inv(s, mem) && Busy(s, t) && s.threads[t].pc.op == op
  }

  lemma UnderwayStep(s: State, t: nat, op: Op, mem: seq<Word>, e: Event)
    requires Underway(s, t, op, mem)
    ensures Busy(Step(s, e), t) ==> Underway(Step(s, e), t, op, mem)
    ensures !Busy(Step(s, e), t) ==> e.tid == t && t < |Step(s, e).threads|
  {
    StepKeepsInv(s, e, mem);
    if e.tid < |s.threads| && !s.threads[e.tid].pc.Ready? {
      StepIsAtomic(s, e, mem);
    }
  }

  /** The verdict of a whole operation, in every run: it has done, at its last access, what
      the operation called does atomically to the word it found there, and returns the
      answer for that word. */
  lemma {:induction false} CallVerdict(s: State, t: nat, op: Op, mem: seq<Word>, es: seq<Event>, last: Event)
    requires Inv(s, mem) && Has(s, t, op) && s.threads[t].pc.Ready?
    ensures var s1 := Step(s, Event(t, Call(op)));
      var x := Exec(Step, s1, es);
      var s' := Step(x, last);
      Always(Step, s1, es, y => Busy(y, t)) && !Busy(s', t) ==>
        && t < |s'.threads| && Has(x, t, op)
        && s'.mem == x.mem[Target(op) := After(op, x.mem[Target(op)])]
        && s'.threads[t].result == AnswerFor(op, x.mem[Target(op)])
  {
    var s1 := Step(s, Event(t, Call(op)));
    StepKeepsInv(s, Event(t, Call(op)), mem);
    if Always(Step, s1, es, y => Busy(y, t)) {
      var inside := (y: State) => Busy(y, t);
      var keeps := (y: State) => Underway(y, t, op, mem);
      forall y, e | keeps(y) && inside(Step(y, e)) ensures keeps(Step(y, e)) {
        UnderwayStep(y, t, op, mem, e);
      }
      KeptInside(Step, s1, es, inside, keeps);
      UnderwayStep(Exec(Step, s1, es), t, op, mem, last);
      if last.tid == t {
        StepIsAtomic(Exec(Step, s1, es), last, mem);
      }
    }
  }
}
