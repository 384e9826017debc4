/** Shared memory and the threads operating on it, changed in place. */
module AtomicMemory {
  import opened Runs
  import opened Words
  import opened Atomics

  /** The words an atomic operation may be aimed at, their exclusive monitors, and where
      each thread is in its loop.  Each method makes one access of one loop. */
  class Memory {
    var words: seq<Word>
    var stores: seq<nat>
    var threads: seq<Thread>
    ghost var log: seq<Entry>
    ghost var casLog: seq<CasEntry>

    ghost function Contents(): State
      reads this
    {
      State(words, stores, threads, log, casLog)
    }

    constructor (words: seq<Word>, n: nat)
      ensures Init(Contents(), words) && |threads| == n
    {
      this.words := words;
      this.stores := seq(|words|, _ => 0);
      this.threads := seq(n, _ => Thread(Ready, WasSet(false)));
      this.log := [];
      this.casLog := [];
    }

    method Goto(me: nat, pc: Pc)
      requires me < |threads|
      modifies this
      ensures Contents() == At(old(Contents()), me, pc)
    {
      threads := threads[me := threads[me].(pc := pc)];
    }

    method Finish(me: nat, op: Op, before: Word, after: Word)
      requires me < |threads|
      modifies this
      ensures Contents() == Return(old(Contents()), me, op, before, after)
    {
      threads := threads[me := Thread(Ready, AnswerFor(op, before))];
      log := log + [Entry(me, op, Target(op), before, after)];
    }

    /** ldrex, and the comparison that may end the compare-and-swap. */
    method LoadExclusive(me: nat, op: Op, t1: Word)
      requires Has(Contents(), me, op)
      modifies this
      ensures Contents() == Load(old(Contents()), me, op, t1)
    {
      var m := Target(op);
      var found := words[m];
      if found == t1 {
        Goto(me, StoreEx(op, t1, stores[m]));
      } else {
        casLog := casLog + [CasEntry(me, m, t1, Desired(op, t1), found)];
        if op.Cas? {
          Finish(me, op, found, found);
        } else {
          Goto(me, LoadEx(op, found));
        }
      }
    }

    /** strex, which stores only while the reservation holds. */
    method StoreExclusive(me: nat, op: Op, t1: Word, stamp: nat)
      requires Has(Contents(), me, op)
      modifies this
      ensures Contents() == Store(old(Contents()), me, op, t1, stamp)
    {
      var m := Target(op);
      if stamp != stores[m] {
        Goto(me, LoadEx(op, t1));
      } else {
        var desired := Desired(op, t1);
        words := words[m := desired];
        stores := stores[m := stores[m] + 1];
        casLog := casLog + [CasEntry(me, m, t1, desired, t1)];
        Finish(me, op, t1, desired);
      }
    }

    method Perform(e: Event)
      modifies this
      ensures Contents() == Step(old(Contents()), e)
    {
      var me := e.tid;
      if me >= |threads| {
        return;
      }
      match threads[me].pc
      case Ready =>
        if e.act.Call? && InRange(e.act.op) {
          var op := e.act.op;
          Goto(me, if op.Cas? then LoadEx(op, op.compare) else FirstRead(op));
        }
      case FirstRead(op) =>
        if e.act.Go? && InRange(op) {
          Goto(me, LoadEx(op, words[FirstGuess(op)]));
        }
      case LoadEx(op, t1) =>
        if e.act.Go? && InRange(op) {
          LoadExclusive(me, op, t1);
        }
      case StoreEx(op, t1, stamp) =>
        if e.act.Go? && InRange(op) {
          StoreExclusive(me, op, t1, stamp);
        } else if e.act.Fail? {
          Goto(me, LoadEx(op, t1));
        }
    }

    predicate InRange(op: Op)
      reads this
    {
      Target(op) < |words| == |stores| && FirstGuess(op) < |words|
    }

    /** Any interleaving of any operations by any threads leaves what the operations that
        completed, each done at once, would have left. */
    method Run(es: seq<Event>)
      modifies this
      ensures Contents() == Exec(Step, old(Contents()), es)
      ensures Init(old(Contents()), old(words)) ==> words == Replay(old(words), log) && Legal(old(words), log)
    {
      ghost var s := Contents();
      for i := 0 to |es|
        invariant Contents() == Exec(Step, s, es[..i])
      {
        Perform(es[i]);
        assert es[..i + 1][..i] == es[..i];
      }
      assert es[..|es|] == es;
      if Init(s, old(words)) {
        Refinement(s, old(words), es);
      }
    }
  }
}
