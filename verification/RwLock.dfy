/** The read-write lock: one kernel semaphore of MAX_COUNT units, of which a reader takes
    one and a writer all, and a flag `writelock` that is written after the units are taken
    and read, outside any lock, to decide how many to give back. */
module RwLock {
  import opened Kernel
  import opened Sums
  import opened Runs

  const MAX_COUNT: nat := INT_MAX

  datatype Pc =
    | Ready
    | Wait(write: bool, timed: bool)   // lock: wait for 1 or all units
    | SetFlag(write: bool)             // lock: writelock := write
    | TryPoll(write: bool)             // tryrdlock, trywrlock: poll for 1 or all units
    | TrySet                           // trywrlock: writelock := 1
    | UnlockRead                       // unlock: read writelock
    | UnlockClear                      // unlock: writelock := 0
    | UnlockPost(count: nat)           // unlock: signal 1 or all units

  /** `held` and `writing` are history: the holds this thread's returned calls gave it. */
  datatype Thread = Thread(pc: Pc, result: Errno, held: nat, writing: bool)

  datatype State = State(rdwrQ: Sema, writelock: bool, threads: seq<Thread>)

  datatype Act = CallLock(write: bool, timed: bool) | CallTry(write: bool) | CallUnlock | Go | TimeOut

  datatype Event = Event(tid: nat, act: Act)

  function Need(write: bool): nat { if write then MAX_COUNT else 1 }

  function Put(s: State, t: nat, th: Thread): State
    requires t < |s.threads|
  {
    s.(threads := s.threads[t := th])
  }

  function Granted(th: Thread, write: bool): Thread {
    if write then th.(pc := Ready, result := OK, writing := true)
    else th.(pc := Ready, result := OK, held := th.held + 1)
  }

  function Released(th: Thread, count: nat): Thread {
    if count == 1 then th.(pc := Ready, result := OK, held := if th.held > 0 then th.held - 1 else 0)
    else th.(pc := Ready, result := OK, writing := false)
  }

  function LockAccess(s: State, t: nat): State
    requires t < |s.threads| && InLock(s.threads[t].pc)
  {
    var th := s.threads[t];
    match th.pc
    case Wait(write, _) =>
      if s.rdwrQ.Has(Need(write)) then
        Put(s.(rdwrQ := s.rdwrQ.Take(Need(write))), t, th.(pc := SetFlag(write)))
      else s
    case SetFlag(write) => Put(s.(writelock := write), t, Granted(th, write))
  }

  function TryAccess(s: State, t: nat): State
    requires t < |s.threads| && InTry(s.threads[t].pc)
  {
    var th := s.threads[t];
    match th.pc
    case TryPoll(write) =>
      if s.rdwrQ.Has(Need(write)) then
        Put(s.(rdwrQ := s.rdwrQ.Take(Need(write))), t, if write then th.(pc := TrySet) else Granted(th, false))
      else Put(s, t, th.(pc := Ready, result := EBUSY))
    case TrySet => Put(s.(writelock := true), t, Granted(th, true))
  }

  function UnlockAccess(s: State, t: nat): State
    requires t < |s.threads| && InUnlock(s.threads[t].pc)
  {
    var th := s.threads[t];
    match th.pc
    case UnlockRead => Put(s, t, th.(pc := if s.writelock then UnlockClear else UnlockPost(1)))
    case UnlockClear => Put(s.(writelock := false), t, th.(pc := UnlockPost(MAX_COUNT)))
    case UnlockPost(count) =>
      if s.rdwrQ.Fits(count) then Put(s.(rdwrQ := s.rdwrQ.Signal(count)), t, Released(th, count))
      else Put(s, t, th.(pc := Ready, result := EINVAL))
  }

  predicate InLock(pc: Pc) { pc.Wait? || pc.SetFlag? }
  predicate InTry(pc: Pc) { pc.TryPoll? || pc.TrySet? }
  predicate InUnlock(pc: Pc) { pc.UnlockRead? || pc.UnlockClear? || pc.UnlockPost? }

  function Start(s: State, t: nat, act: Act): State
    requires t < |s.threads|
  {
    match act
    case CallLock(write, timed) => Put(s, t, s.threads[t].(pc := Wait(write, timed)))
    case CallTry(write) => Put(s, t, s.threads[t].(pc := TryPoll(write)))
    case CallUnlock => Put(s, t, s.threads[t].(pc := UnlockRead))
    case _ => s
  }

  function Advance(s: State, t: nat): State
    requires t < |s.threads|
  {
    var pc := s.threads[t].pc;
    if InLock(pc) then LockAccess(s, t)
    else if InTry(pc) then TryAccess(s, t)
    else if InUnlock(pc) then UnlockAccess(s, t)
    else s
  }

  function Step(s: State, e: Event): State {
    var t := e.tid;
    if t >= |s.threads| then s
    else if s.threads[t].pc.Ready? then Start(s, t, e.act)
    else if e.act.Go? then Advance(s, t)
    else if e.act.TimeOut? && s.threads[t].pc.Wait? && s.threads[t].pc.timed then
      Put(s, t, s.threads[t].(pc := Ready, result := ETIMEDOUT))
    else s
  }

  /** Unlocking what one does not hold is undefined. */
  predicate Lawful(s: State, e: Event) {
    e.act.CallUnlock? && e.tid < |s.threads| && s.threads[e.tid].pc.Ready?
    ==> s.threads[e.tid].held > 0 || s.threads[e.tid].writing
  }

  function LawfulStep(s: State, e: Event): State {
    if Lawful(s, e) then Step(s, e) else s
  }

  ghost predicate Init(s: State) {
    && s.rdwrQ == Sema(MAX_COUNT, MAX_COUNT) && !s.writelock
    && forall t :: 0 <= t < |s.threads| ==> s.threads[t] == Thread(Ready, OK, 0, false)
  }

  // ----- The invariant -----

  /** Units taken by a thread and not given back. */
  function Units(th: Thread): int {
    th.held + (if th.writing then MAX_COUNT else 0)
    + (match th.pc case SetFlag(write) => Need(write) case TrySet => MAX_COUNT case _ => 0)
  }

  /** A writer whose flag is up: between writing the flag and clearing it. */
  function Flagged(th: Thread): int {
    if th.writing && !th.pc.UnlockPost? then 1 else 0
  }

  function AsInt(b: bool): int { if b then 1 else 0 }

  predicate ThreadInv(s: State, t: nat)
    requires t < |s.threads|
  {
    var th := s.threads[t];
    match th.pc
    case UnlockRead => th.held > 0 || th.writing
    case UnlockClear => th.writing
    case UnlockPost(count) =>
      (count == 1 && th.held > 0 && !th.writing) || (count == MAX_COUNT && th.writing)
    case _ => true
  }

  ghost predicate Inv(s: State) {
    && s.rdwrQ.max == MAX_COUNT
    && s.rdwrQ.count + Sum(s.threads, Units) == MAX_COUNT
    && AsInt(s.writelock) == Sum(s.threads, Flagged)
    && forall t :: 0 <= t < |s.threads| ==> ThreadInv(s, t)
  }

  lemma InitInv(s: State)
    requires Init(s)
    ensures Inv(s)
  {
    SumBounds(s.threads, 0, 0, Units);
    SumBounds(s.threads, 0, 0, Flagged);
  }

  lemma UnitsBound(s: State, t: nat)
    requires Inv(s) && t < |s.threads|
    ensures s.rdwrQ.count + Units(s.threads[t]) <= MAX_COUNT
  {
    SumAtLeast(s.threads, t, Units);
  }

  lemma UnitsBoundTwo(s: State, t: nat, u: nat)
    requires Inv(s) && t < |s.threads| && u < |s.threads| && t != u
    ensures s.rdwrQ.count + Units(s.threads[t]) + Units(s.threads[u]) <= MAX_COUNT
  {
    SumAtLeastTwo(s.threads, if t < u then t else u, if t < u then u else t, Units);
  }

  /** The flag is up exactly when the thread asking is a writer with its flag up, for any
      thread that has taken units. */
  lemma FlagIsExact(s: State, t: nat)
    requires Inv(s) && t < |s.threads| && Units(s.threads[t]) > 0
    ensures s.writelock <==> Flagged(s.threads[t]) == 1
  {
    SumAtLeast(s.threads, t, Flagged);
    if s.writelock {
      var u := SumWitness(s.threads, Flagged);
      if u != t {
        UnitsBoundTwo(s, t, u);
      }
    }
  }

  ghost predicate MoverPre(s: State, t: nat) {
    && t < |s.threads| && ThreadInv(s, t)
    && s.rdwrQ.max == MAX_COUNT && s.rdwrQ.count + Units(s.threads[t]) <= MAX_COUNT
    && (Units(s.threads[t]) > 0 ==> (s.writelock <==> Flagged(s.threads[t]) == 1))
  }

  ghost predicate MoverPost(s: State, t: nat, s': State)
    requires t < |s.threads|
  {
    && |s'.threads| == |s.threads| && (forall u :: 0 <= u < |s.threads| && u != t ==> s'.threads[u] == s.threads[u])
    && ThreadInv(s', t)
    && s'.rdwrQ.max == MAX_COUNT
    && s'.rdwrQ.count + Units(s'.threads[t]) == s.rdwrQ.count + Units(s.threads[t])
    && AsInt(s'.writelock) - Flagged(s'.threads[t]) == AsInt(s.writelock) - Flagged(s.threads[t])
  }

  lemma LockKeepsMover(s: State, t: nat)
    requires MoverPre(s, t) && InLock(s.threads[t].pc)
    ensures MoverPost(s, t, LockAccess(s, t))
  {
  }

  lemma TryKeepsMover(s: State, t: nat)
    requires MoverPre(s, t) && InTry(s.threads[t].pc)
    ensures MoverPost(s, t, TryAccess(s, t))
  {
  }

  lemma UnlockKeepsMover(s: State, t: nat)
    requires MoverPre(s, t) && InUnlock(s.threads[t].pc)
    ensures MoverPost(s, t, UnlockAccess(s, t))
  {
  }

  lemma StepKeepsMover(s: State, e: Event)
    requires MoverPre(s, e.tid) && Lawful(s, e)
    ensures MoverPost(s, e.tid, Step(s, e))
  {
    var pc := s.threads[e.tid].pc;
    if e.act.Go? {
      if InLock(pc) {
        LockKeepsMover(s, e.tid);
      } else if InTry(pc) {
        TryKeepsMover(s, e.tid);
      } else if InUnlock(pc) {
        UnlockKeepsMover(s, e.tid);
      }
    }
  }

  lemma StepKeepsInv(s: State, e: Event)
    requires Inv(s) && Lawful(s, e)
    ensures Inv(Step(s, e))
  {
    var s', t := Step(s, e), e.tid;
    if t < |s.threads| {
      InvGivesMoverPre(s, t);
      StepKeepsMover(s, e);
      assert s'.threads == s.threads[t := s'.threads[t]];
      SumUpdate(s.threads, t, s'.threads[t], Units);
      SumUpdate(s.threads, t, s'.threads[t], Flagged);
      forall u | 0 <= u < |s.threads|
        ensures ThreadInv(s', u)
      {
        assert ThreadInv(s, u);
      }
    }
  }

  lemma InvGivesMoverPre(s: State, t: nat)
    requires Inv(s) && t < |s.threads|
    ensures MoverPre(s, t)
  {
    UnitsBound(s, t);
    if Units(s.threads[t]) > 0 {
      FlagIsExact(s, t);
    }
  }

  lemma RunInv(s: State, es: seq<Event>)
    requires Init(s)
    ensures Inv(Exec(LawfulStep, s, es))
  {
    InitInv(s);
    forall x, e | Inv(x) ensures Inv(LawfulStep(x, e)) {
      if Lawful(x, e) {
        StepKeepsInv(x, e);
      }
    }
    InvariantOfRuns(LawfulStep, Inv, s, es);
  }

  // ----- The lock it implements -----

  /** The lock of the standard: how often each thread holds it for reading, and which
      threads hold it for writing. */
  datatype Abstract = Abstract(readers: seq<nat>, writers: seq<bool>)

  predicate Idle(a: Abstract) { NoWriter(a) && NoReader(a) }
  predicate NoWriter(a: Abstract) { forall t :: 0 <= t < |a.writers| ==> !a.writers[t] }
  predicate NoReader(a: Abstract) { forall t :: 0 <= t < |a.readers| ==> a.readers[t] == 0 }

  /** What thread t may do to it in one step: nothing; take a read hold when nobody writes;
      take the write hold when nobody holds anything; give back a hold it has. */
  predicate AbstractStep(a: Abstract, t: nat, b: Abstract) {
    || b == a
    || (t < |a.readers| && NoWriter(a) && b == a.(readers := a.readers[t := a.readers[t] + 1]))
    || (t < |a.writers| && Idle(a) && b == a.(writers := a.writers[t := true]))
    || (t < |a.readers| && a.readers[t] > 0 && b == a.(readers := a.readers[t := a.readers[t] - 1]))
    || (t < |a.writers| && a.writers[t] && b == a.(writers := a.writers[t := false]))
  }

  /** Readers, or one writer, never both. */
  predicate ReadersXorWriter(a: Abstract) {
    && (NoWriter(a) || NoReader(a))
    && forall t, u :: 0 <= t < |a.writers| && 0 <= u < |a.writers| && a.writers[t] && a.writers[u] ==> t == u
  }

  lemma AbstractStepKeepsExclusion(a: Abstract, t: nat, b: Abstract)
    requires ReadersXorWriter(a) && |a.readers| == |a.writers| && AbstractStep(a, t, b)
    ensures ReadersXorWriter(b)
  {
    if b != a {
      forall u | 0 <= u < |a.readers| && u != t
        ensures b.readers[u] == a.readers[u] && b.writers[u] == a.writers[u]
      {
      }
      if NoWriter(a) && !NoWriter(b) {
        assert b.writers[t] && NoReader(a);
      }
    }
  }

  function ReadHolds(th: Thread): nat { th.held + (if th.pc.SetFlag? && !th.pc.write then 1 else 0) }

  predicate WriteHold(th: Thread) { th.writing || th.pc.TrySet? || (th.pc.SetFlag? && th.pc.write) }

  /** A hold begins when the units are taken and ends when they are given back. */
  function Abs(s: State): Abstract {
    Abstract(seq(|s.threads|, t requires 0 <= t < |s.threads| => ReadHolds(s.threads[t])),
             seq(|s.threads|, t requires 0 <= t < |s.threads| => WriteHold(s.threads[t])))
  }

  /** Units left tell what others hold. */
  lemma OneUnitLeftMeansNoWriter(s: State)
    requires Inv(s) && s.rdwrQ.count >= 1
    ensures NoWriter(Abs(s))
  {
    forall t | 0 <= t < |s.threads| ensures !WriteHold(s.threads[t]) {
      UnitsBound(s, t);
    }
  }

  lemma AllUnitsLeftMeansIdle(s: State)
    requires Inv(s)
    ensures s.rdwrQ.count <= MAX_COUNT
    ensures s.rdwrQ.count == MAX_COUNT <==> Idle(Abs(s))
  {
    SumNonNegative(s.threads, Units);
    if s.rdwrQ.count == MAX_COUNT {
      forall t | 0 <= t < |s.threads| ensures !WriteHold(s.threads[t]) && ReadHolds(s.threads[t]) == 0 {
        UnitsBound(s, t);
      }
    } else {
      var t := SumWitness(s.threads, Units);
      assert Abs(s).writers[t] || Abs(s).readers[t] > 0;
    }
  }

  /** Every access of the implementation is a step of the standard's lock, or none. */
  lemma StepRefines(s: State, e: Event)
    requires Inv(s) && Lawful(s, e)
    ensures AbstractStep(Abs(s), e.tid, Abs(Step(s, e)))
  {
    var s', t := Step(s, e), e.tid;
    if t < |s.threads| {
      InvGivesMoverPre(s, t);
      StepKeepsMover(s, e);
      var a, b, th, th' := Abs(s), Abs(s'), s.threads[t], s'.threads[t];
      assert b.readers == a.readers[t := ReadHolds(th')];
      assert b.writers == a.writers[t := WriteHold(th')];
      if s.rdwrQ.count >= 1 {
        OneUnitLeftMeansNoWriter(s);
      }
      AllUnitsLeftMeansIdle(s);
      HoldsMove(s, e);
      if ReadHolds(th') == ReadHolds(th) {
        assert b.readers == a.readers;
      }
      if WriteHold(th') == WriteHold(th) {
        assert b.writers == a.writers;
      }
    }
  }

  /** How one step moves the mover's holds. */
  lemma HoldsMove(s: State, e: Event)
    requires MoverPre(s, e.tid) && Lawful(s, e) && |Step(s, e).threads| == |s.threads|
    ensures var th, th' := s.threads[e.tid], Step(s, e).threads[e.tid];
      || (ReadHolds(th') == ReadHolds(th) && WriteHold(th') == WriteHold(th))
      || (ReadHolds(th') == ReadHolds(th) + 1 && WriteHold(th') == WriteHold(th) && s.rdwrQ.count >= 1)
      || (ReadHolds(th') == ReadHolds(th) && WriteHold(th') && s.rdwrQ.count == MAX_COUNT)
      || (ReadHolds(th') == ReadHolds(th) - 1 && WriteHold(th') == WriteHold(th))
      || (ReadHolds(th') == ReadHolds(th) && WriteHold(th) && !WriteHold(th'))
  {
  }

  // ----- What the lock promises -----

  /** In every lawful run the implementation refines the readers-xor-one-writer lock: it
      starts idle, each event is one of its steps, and exclusion holds throughout. */
  lemma {:induction false} Refinement(s: State, es: seq<Event>)
    requires Init(s)
    ensures es == [] ==> Idle(Abs(Exec(LawfulStep, s, es)))
    ensures es != [] ==> AbstractStep(Abs(Exec(LawfulStep, s, es[..|es| - 1])), es[|es| - 1].tid,
                                      Abs(Exec(LawfulStep, s, es)))
    ensures ReadersXorWriter(Abs(Exec(LawfulStep, s, es)))
  {
    if es != [] {
      var k := |es| - 1;
      var x := Exec(LawfulStep, s, es[..k]);
      Refinement(s, es[..k]);
      RunInv(s, es[..k]);
      if Lawful(x, es[k]) {
        StepRefines(x, es[k]);
      }
      AbstractStepKeepsExclusion(Abs(x), es[k].tid, Abs(LawfulStep(x, es[k])));
    }
  }

  /** Units are conserved, and the flag is up exactly while one writer has all of them and
      has not begun to give them back. */
  ghost predicate UnitsAndFlagAgree(s: State) {
    && s.rdwrQ.count + Sum(s.threads, Units) == MAX_COUNT
    && (s.writelock <==> exists t :: 0 <= t < |s.threads| && Flagged(s.threads[t]) == 1)
    && (s.writelock ==> s.rdwrQ.count == 0)
  }

  lemma AgreeIn(s: State)
    requires Inv(s)
    ensures UnitsAndFlagAgree(s)
  {
    if s.writelock {
      var t := SumWitness(s.threads, Flagged);
      UnitsBound(s, t);
    } else {
      forall t | 0 <= t < |s.threads| ensures Flagged(s.threads[t]) == 0 {
        SumAtLeast(s.threads, t, Flagged);
      }
    }
  }

  lemma UnitsAndFlagAlwaysAgree(s: State, es: seq<Event>)
    requires Init(s)
    ensures UnitsAndFlagAgree(Exec(LawfulStep, s, es))
  {
    RunInv(s, es);
    AgreeIn(Exec(LawfulStep, s, es));
  }

  /** A holder's unlock gives back exactly the units it took, which always fit: a reader,
      whatever the flag has been doing meanwhile, one unit; a writer all of them. */
  lemma UnlockGivesBackWhatWasTaken(s: State, es: seq<Event>, t: nat, s': State)
    requires Init(s) && s' == Exec(LawfulStep, s, es) && t < |s'.threads| && InUnlock(s'.threads[t].pc)
    ensures var th, s'' := s'.threads[t], UnlockAccess(s', t);
      match th.pc
      case UnlockPost(count) =>
        && count == (if th.writing then MAX_COUNT else 1)
        && s''.rdwrQ.count == s'.rdwrQ.count + count && |s''.threads| == |s'.threads|
        && s''.threads[t].result.OK? && Units(s''.threads[t]) == Units(th) - count
      case UnlockRead => s'.writelock == th.writing
      case UnlockClear => th.writing
  {
    RunInv(s, es);
    InvGivesMoverPre(s', t);
  }

  /** EBUSY is exact: trywrlock is refused just when somebody holds the lock, tryrdlock just
      when somebody writes or all the units are with readers. */
  lemma TryIsExact(s: State, t: nat)
    requires Inv(s) && t < |s.threads| && s.threads[t].pc.TryPoll?
    ensures |TryAccess(s, t).threads| == |s.threads|
    ensures var refused := TryAccess(s, t).threads[t].pc.Ready? && TryAccess(s, t).threads[t].result.EBUSY?;
      if s.threads[t].pc.write then refused <==> !Idle(Abs(s))
      else refused <==> Sum(s.threads, Units) == MAX_COUNT
  {
    AllUnitsLeftMeansIdle(s);
  }

  // ----- The object itself -----

  /** pthread_rwlock_t and the threads using it. */
  class PthreadRwLock {
    var rdwrQ: Sema
    var writelock: bool
    var threads: seq<Thread>

    function Contents(): State
      reads this
    {
      State(rdwrQ, writelock, threads)
    }

    constructor (n: nat)
      ensures Init(Contents()) && |threads| == n
    {
      rdwrQ := Sema(MAX_COUNT, MAX_COUNT);
      writelock := false;
      threads := seq(n, _ => Thread(Ready, OK, 0, false));
    }

    method Goto(me: nat, pc: Pc)
      requires me < |threads|
      modifies this`threads
      ensures Contents() == Put(old(Contents()), me, old(threads[me]).(pc := pc))
    {
      threads := threads[me := threads[me].(pc := pc)];
    }

    method Finish(me: nat, result: Errno, held: nat, writing: bool)
      requires me < |threads|
      modifies this`threads
      ensures Contents() == Put(old(Contents()), me, Thread(Ready, result, held, writing))
    {
      threads := threads[me := Thread(Ready, result, held, writing)];
    }

    method Lock(me: nat)
      requires me < |threads| && InLock(threads[me].pc)
      modifies this
      ensures Contents() == LockAccess(old(Contents()), me)
    {
      var th := threads[me];
      match th.pc
      case Wait(write, _) =>
        var need := Need(write);
        if rdwrQ.Has(need) {
          rdwrQ := rdwrQ.Take(need);
          Goto(me, SetFlag(write));
        }
      case SetFlag(write) =>
        writelock := write;
        if write {
          Finish(me, OK, th.held, true);
        } else {
          Finish(me, OK, th.held + 1, th.writing);
        }
    }

    method Try(me: nat)
      requires me < |threads| && InTry(threads[me].pc)
      modifies this
      ensures Contents() == TryAccess(old(Contents()), me)
    {
      var th := threads[me];
      match th.pc
      case TryPoll(write) =>
        var need := Need(write);
        if !rdwrQ.Has(need) {
          Finish(me, EBUSY, th.held, th.writing);
        } else {
          rdwrQ := rdwrQ.Take(need);
          if write {
            Goto(me, TrySet);
          } else {
            Finish(me, OK, th.held + 1, th.writing);
          }
        }
      case TrySet =>
        writelock := true;
        Finish(me, OK, th.held, true);
    }

    method Unlock(me: nat)
      requires me < |threads| && InUnlock(threads[me].pc)
      modifies this
      ensures Contents() == UnlockAccess(old(Contents()), me)
    {
      var th := threads[me];
      match th.pc
      case UnlockRead =>
        Goto(me, if writelock then UnlockClear else UnlockPost(1));
      case UnlockClear =>
        writelock := false;
        Goto(me, UnlockPost(MAX_COUNT));
      case UnlockPost(count) =>
        if rdwrQ.Fits(count) {
          rdwrQ := rdwrQ.Signal(count);
          if count == 1 {
            Finish(me, OK, if th.held > 0 then th.held - 1 else 0, th.writing);
          } else {
            Finish(me, OK, th.held, false);
          }
        } else {
          Finish(me, EINVAL, th.held, th.writing);
        }
    }

    method Perform(e: Event)
      modifies this
      ensures Contents() == LawfulStep(old(Contents()), e)
    {
      var me := e.tid;
      if me >= |threads| || !Lawful(Contents(), e) {
        return;
      }
      var pc := threads[me].pc;
      if pc.Ready? {
        match e.act
        case CallLock(write, timed) => Goto(me, Wait(write, timed));
        case CallTry(write) => Goto(me, TryPoll(write));
        case CallUnlock => Goto(me, UnlockRead);
        case _ =>
      } else if e.act.Go? {
        if InLock(pc) {
          Lock(me);
        } else if InTry(pc) {
          Try(me);
        } else {
          Unlock(me);
        }
      } else if e.act.TimeOut? && pc.Wait? && pc.timed {
        Finish(me, ETIMEDOUT, threads[me].held, threads[me].writing);
      }
    }

    /** Any interleaving of blocking, timed and try calls and holders' unlocks. */
    method Run(es: seq<Event>)
      modifies this
      ensures Contents() == Exec(LawfulStep, old(Contents()), es)
      ensures old(Init(Contents())) ==> UnitsAndFlagAgree(Contents()) && ReadersXorWriter(Abs(Contents()))
    {
      for i := 0 to |es|
        invariant Contents() == Exec(LawfulStep, old(Contents()), es[..i])
      {
        Perform(es[i]);
        assert es[..i + 1][..i] == es[..i];
      }
      assert es[..|es|] == es;
      if old(Init(Contents())) {
        UnitsAndFlagAlwaysAgree(old(Contents()), es);
        Refinement(old(Contents()), es);
      }
    }
  }
}
