/** The mutex: one kernel semaphore plus the plain fields `owner`, `recursivecount` and
    `prioceiling`, most of them read or written outside the semaphore.

    Each thread has a program counter naming its next access to shared memory or to the
    kernel, so a run may interleave any number of threads between any two accesses. */
module Mutex {
  import opened Kernel
  import opened Sums
  import opened Runs

  datatype Kind = Normal | ErrorCheck | Recursive

  /** Where a thread is inside a mutex function: its next shared access. */
  datatype Pc =
    | Ready                      // in no mutex function
    | LockTest(timed: bool)      // lock: read owner
    | LockWait(timed: bool)      // lock: wait for the semaphore
    | TryTest                    // trylock: read owner
    | TryPoll                    // trylock: poll the semaphore
    | IncLoad                    // owner again: load recursivecount ...
    | IncStore(v: int)           // ... and store it incremented
    | OwnWrite                   // unit taken, owner not yet written
    | UnlockTest                 // unlock: read owner
    | UnlockLoad                 // unlock: load recursivecount
    | UnlockStore(v: int)        // unlock: store it decremented
    | UnlockNull                 // unlock: compare owner with NULL
    | UnlockClear                // unlock: owner := NULL
    | UnlockPost                 // unlock: signal the semaphore
    | CeilWait(c: int)           // setprioceiling: wait for the semaphore
    | CeilWrite(c: int)          // setprioceiling: write the new ceiling
    | CeilPost                   // setprioceiling: signal the semaphore

  /** A thread's program counter, the result of its last call, and (as history) how many
      of its lock calls and of its unlock calls have returned 0. */
  datatype Thread = Thread(pc: Pc, result: Errno, locks: nat, unlocks: nat)

  datatype State = State(kind: Kind, sema: Sema, owner: Option<Tid>, recursivecount: int,
                         prioceiling: int, threads: seq<Thread>)

  /** What a scheduled thread does: start a call, take its next step, or time out. */
  datatype Act = CallLock(timed: bool) | CallTrylock | CallUnlock | CallSetCeiling(c: int) | Go | TimeOut

  datatype Event = Event(tid: nat, act: Act)

  function At(s: State, t: nat, pc: Pc): State
    requires t < |s.threads|
  {
    s.(threads := s.threads[t := s.threads[t].(pc := pc)])
  }

  function Return(s: State, t: nat, result: Errno): State
    requires t < |s.threads|
  {
    s.(threads := s.threads[t := s.threads[t].(pc := Ready, result := result)])
  }

  function ReturnLocked(s: State, t: nat): State
    requires t < |s.threads|
  {
    var th := s.threads[t];
    s.(threads := s.threads[t := th.(pc := Ready, result := OK, locks := th.locks + 1)])
  }

  function ReturnUnlocked(s: State, t: nat): State
    requires t < |s.threads|
  {
    var th := s.threads[t];
    s.(threads := s.threads[t := th.(pc := Ready, result := OK, unlocks := th.unlocks + 1)])
  }

  function Start(s: State, t: nat, act: Act): State
    requires t < |s.threads|
  {
    match act
    case CallLock(timed) => At(s, t, LockTest(timed))
    case CallTrylock => At(s, t, TryTest)
    case CallUnlock => At(s, t, UnlockTest)
    case CallSetCeiling(c) => At(s, t, CeilWait(c))
    case _ => s
  }

  predicate InLock(pc: Pc) {
    pc.LockTest? || pc.LockWait? || pc.TryTest? || pc.TryPoll? || pc.IncLoad? || pc.IncStore? || pc.OwnWrite?
  }

  predicate InUnlock(pc: Pc) {
    pc.UnlockTest? || pc.UnlockLoad? || pc.UnlockStore? || pc.UnlockNull? || pc.UnlockClear? || pc.UnlockPost?
  }

  predicate InCeiling(pc: Pc) { pc.CeilWait? || pc.CeilWrite? || pc.CeilPost? }

  /** One access of lock, timedlock or trylock; on an empty semaphore lock stays put. */
  function LockAccess(s: State, t: nat): State
    requires t < |s.threads| && InLock(s.threads[t].pc)
  {
    match s.threads[t].pc
    case LockTest(timed) =>
      if s.kind.Recursive? && s.owner == Some(t) then At(s, t, IncLoad)
      else if s.kind.ErrorCheck? && s.owner == Some(t) then Return(s, t, EDEADLK)
      else At(s, t, LockWait(timed))
    case LockWait(_) =>
      if s.sema.Has(1) then At(s.(sema := s.sema.Take(1)), t, OwnWrite) else s
    case TryTest =>
      if s.kind.Recursive? && s.owner == Some(t) then At(s, t, IncLoad) else At(s, t, TryPoll)
    case TryPoll =>
      if s.sema.Has(1) then At(s.(sema := s.sema.Take(1)), t, OwnWrite) else Return(s, t, EBUSY)
    case IncLoad => At(s, t, IncStore(s.recursivecount + 1))
    case IncStore(v) => ReturnLocked(s.(recursivecount := v), t)
    case OwnWrite => ReturnLocked(s.(owner := Some(t)), t)
  }

  /** One access of unlock; it never waits. */
  function UnlockAccess(s: State, t: nat): State
    requires t < |s.threads| && InUnlock(s.threads[t].pc)
  {
    match s.threads[t].pc
    case UnlockTest =>
      if s.kind.Recursive? then
        if s.owner == Some(t) then At(s, t, UnlockLoad) else Return(s, t, EPERM)
      else if s.kind.ErrorCheck? && s.owner != Some(t) then Return(s, t, EPERM)
      else At(s, t, UnlockNull)
    case UnlockLoad =>
      if s.recursivecount > 0 then At(s, t, UnlockStore(s.recursivecount - 1)) else At(s, t, UnlockNull)
    case UnlockStore(v) => ReturnUnlocked(s.(recursivecount := v), t)
    case UnlockNull => if s.owner == None then Return(s, t, EPERM) else At(s, t, UnlockClear)
    case UnlockClear => At(s.(owner := None), t, UnlockPost)
    case UnlockPost =>
      if s.sema.Fits(1) then ReturnUnlocked(s.(sema := s.sema.Signal(1)), t) else Return(s, t, EINVAL)
  }

  /** One access of setprioceiling, which takes the semaphore without becoming owner. */
  function CeilingAccess(s: State, t: nat): State
    requires t < |s.threads| && InCeiling(s.threads[t].pc)
  {
    match s.threads[t].pc
    case CeilWait(c) =>
      if s.sema.Has(1) then At(s.(sema := s.sema.Take(1)), t, CeilWrite(c)) else s
    case CeilWrite(c) => At(s.(prioceiling := c), t, CeilPost)
    case CeilPost => Return(s.(sema := s.sema.Signal(1)), t, OK)
  }

  function Advance(s: State, t: nat): State
    requires t < |s.threads|
  {
    var pc := s.threads[t].pc;
    if InLock(pc) then LockAccess(s, t)
    else if InUnlock(pc) then UnlockAccess(s, t)
    else if InCeiling(pc) then CeilingAccess(s, t)
    else s
  }

  /** The code, for every event, lawful or not. */
  function Step(s: State, e: Event): State {
    var t := e.tid;
    if t >= |s.threads| then s
    else if s.threads[t].pc.Ready? then Start(s, t, e.act)
    else if e.act.Go? then Advance(s, t)
    else if e.act.TimeOut? && s.threads[t].pc == LockWait(true) then Return(s, t, ETIMEDOUT)
    else s
  }

  /** The lock depth a thread has reached, counted from the calls that returned; an unlock
      that has cleared `owner` but not yet signalled counts as done. */
  function Depth(th: Thread): int {
    th.locks - th.unlocks - (if th.pc.UnlockPost? then 1 else 0)
  }

  /** The depth counted from returned calls alone. */
  function Gross(th: Thread): int { th.locks - th.unlocks }

  /** The phases of an untimed lock call. */
  predicate InUntimedLock(pc: Pc) {
    pc == LockTest(false) || pc == LockWait(false) || pc.IncLoad? || pc.IncStore? || pc.OwnWrite?
  }

  /** Unlocking a normal mutex one does not hold is undefined; the other kinds check. */
  predicate Lawful(s: State, e: Event) {
    s.kind.Normal? && e.act.CallUnlock? && e.tid < |s.threads| && s.threads[e.tid].pc.Ready?
    ==> Depth(s.threads[e.tid]) > 0
  }

  function LawfulStep(s: State, e: Event): State {
    if Lawful(s, e) then Step(s, e) else s
  }

  /** A mutex as pthread_mutex_init leaves it, with n threads that have not used it. */
  ghost predicate Init(s: State) {
    && s.sema == Sema(1, 1) && s.owner == None && s.recursivecount == 0
    && forall t :: 0 <= t < |s.threads| ==> s.threads[t] == Thread(Ready, OK, 0, 0)
  }

  // ----- The invariant -----

  /** Units of the semaphore a thread accounts for: one while it holds the mutex, one while
      it has taken the unit but not written `owner`, cleared `owner` but not signalled, or
      is changing the ceiling. */
  function Units(th: Thread): int {
    (if Depth(th) > 0 then 1 else 0)
    + (if th.pc.OwnWrite? || th.pc.UnlockPost? || th.pc.CeilWrite? || th.pc.CeilPost? then 1 else 0)
  }

  ghost predicate ThreadInv(s: State, t: nat)
    requires t < |s.threads|
  {
    var th := s.threads[t];
    && Depth(th) >= 0
    && (s.owner == Some(t) <==> Depth(th) > 0)
    && (s.owner == Some(t) ==> s.recursivecount == Depth(th) - 1)
    && match th.pc
       case IncLoad => s.kind.Recursive? && s.owner == Some(t)
       case IncStore(v) => s.kind.Recursive? && s.owner == Some(t) && v == s.recursivecount + 1
       case UnlockTest => s.kind.Normal? ==> s.owner == Some(t)
       case UnlockLoad => s.kind.Recursive? && s.owner == Some(t)
       case UnlockStore(v) => s.kind.Recursive? && s.owner == Some(t) && v == s.recursivecount - 1 >= 0
       case UnlockNull => s.owner == Some(t) && s.recursivecount == 0
       case UnlockClear => s.owner == Some(t) && s.recursivecount == 0
       case _ => true
  }

  ghost predicate Inv(s: State) {
    && s.sema.max == 1
    && s.sema.count + Sum(s.threads, Units) == 1
    && (s.owner.Some? ==> s.owner.value < |s.threads|)
    && (s.owner == None || !s.kind.Recursive? ==> s.recursivecount == 0)
    && forall t :: 0 <= t < |s.threads| ==> ThreadInv(s, t)
  }

  lemma InitInv(s: State)
    requires Init(s)
    ensures Inv(s)
  {
    SumBounds(s.threads, 0, 0, Units);
  }

  /** Two threads can never both account for a unit. */
  lemma UnitsExclusive(s: State, t: nat, u: nat)
    requires Inv(s) && t < |s.threads| && u < |s.threads| && t != u
    ensures Units(s.threads[t]) + Units(s.threads[u]) <= 1
    ensures s.sema.count + Units(s.threads[t]) <= 1
  {
    SumAtLeastTwo(s.threads, if t < u then t else u, if t < u then u else t, Units);
    SumAtLeast(s.threads, t, Units);
  }

  lemma UnitsBound(s: State, t: nat)
    requires Inv(s) && t < |s.threads|
    ensures s.sema.count + Units(s.threads[t]) <= 1
  {
    SumAtLeast(s.threads, t, Units);
  }

  /** While t is between taking the unit and writing `owner`, there is no owner. */
  lemma NoOwnerYet(s: State, t: nat)
    requires Inv(s) && t < |s.threads| && s.threads[t].pc.OwnWrite?
    ensures s.owner == None
  {
    UnitsBound(s, t);
    if s.owner.Some? {
      var u := s.owner.value;
      assert ThreadInv(s, u) && ThreadInv(s, t);
      if u != t {
        UnitsExclusive(s, t, u);
      }
    }
  }

  /** What the mover's own step needs to know of the rest of the state. */
  ghost predicate MoverPre(s: State, t: nat) {
    && t < |s.threads| && ThreadInv(s, t)
    && s.sema.max == 1 && s.sema.count + Units(s.threads[t]) <= 1
    && (s.owner == None || !s.kind.Recursive? ==> s.recursivecount == 0)
    && (s.threads[t].pc.OwnWrite? ==> s.owner == None)
  }

  /** What the step leaves: the mover's invariant, the balance of units, and nothing of
      `owner` and `recursivecount` changed under a thread that owns the mutex. */
  ghost predicate MoverPost(s: State, t: nat, s': State)
    requires t < |s.threads|
  {
    && s'.kind == s.kind && s'.sema.max == 1
    && |s'.threads| == |s.threads| && s'.threads == s.threads[t := s'.threads[t]]
    && ThreadInv(s', t)
    && s'.sema.count + Units(s'.threads[t]) == s.sema.count + Units(s.threads[t])
    && (s'.owner == s.owner || (s.owner == None && s'.owner == Some(t)) || (s.owner == Some(t) && s'.owner == None))
    && (s'.recursivecount == s.recursivecount || s.owner == Some(t))
    && (s'.owner == None || !s'.kind.Recursive? ==> s'.recursivecount == 0)
  }

  lemma StartKeepsMover(s: State, t: nat, act: Act)
    requires MoverPre(s, t) && s.threads[t].pc.Ready? && Lawful(s, Event(t, act))
    ensures MoverPost(s, t, Start(s, t, act))
  {
  }

  lemma LockKeepsMover(s: State, t: nat)
    requires MoverPre(s, t) && InLock(s.threads[t].pc)
    ensures MoverPost(s, t, LockAccess(s, t))
  {
  }

  lemma UnlockKeepsMover(s: State, t: nat)
    requires MoverPre(s, t) && InUnlock(s.threads[t].pc)
    ensures MoverPost(s, t, UnlockAccess(s, t))
  {
  }

  lemma CeilingKeepsMover(s: State, t: nat)
    requires MoverPre(s, t) && InCeiling(s.threads[t].pc)
    ensures MoverPost(s, t, CeilingAccess(s, t))
  {
  }

  lemma StepKeepsMover(s: State, e: Event)
    requires MoverPre(s, e.tid) && Lawful(s, e)
    ensures MoverPost(s, e.tid, Step(s, e))
  {
    var t := e.tid;
    if s.threads[t].pc.Ready? {
      StartKeepsMover(s, t, e.act);
    } else if e.act.Go? {
      if InLock(s.threads[t].pc) {
        LockKeepsMover(s, t);
      } else if InUnlock(s.threads[t].pc) {
        UnlockKeepsMover(s, t);
      } else {
        CeilingKeepsMover(s, t);
      }
    }
  }

  lemma InvGivesMoverPre(s: State, t: nat)
    requires Inv(s) && t < |s.threads|
    ensures MoverPre(s, t)
  {
    UnitsBound(s, t);
    if s.threads[t].pc.OwnWrite? {
      NoOwnerYet(s, t);
    }
  }

  lemma StepKeepsInv(s: State, e: Event)
    requires Inv(s) && Lawful(s, e)
    ensures Inv(Step(s, e))
  {
    var s', t := Step(s, e), e.tid;
    if t < |s.threads| {
      InvGivesMoverPre(s, t);
      StepKeepsMover(s, e);
      SumUpdate(s.threads, t, s'.threads[t], Units);
      forall u | 0 <= u < |s.threads|
        ensures ThreadInv(s', u)
      {
        if u != t {
          OthersKept(s, t, s', u);
        }
      }
    }
  }

  lemma OthersKept(s: State, t: nat, s': State, u: nat)
    requires t < |s.threads| && u < |s.threads| && u != t
    requires ThreadInv(s, u) && MoverPost(s, t, s')
    ensures ThreadInv(s', u)
  {
  }

  lemma RunInv(s: State, es: seq<Event>)
    requires Init(s)
    ensures Inv(Exec(LawfulStep, s, es))
  {
    InitInv(s);
    forall x, e | Inv(x) ensures Inv(LawfulStep(x, e)) {
      if Lawful(x, e) {
        StepKeepsInv(x, e);
      }
    }
    InvariantOfRuns(LawfulStep, Inv, s, es);
  }

  /** Recursive and errorcheck mutexes check for themselves: every event is lawful. */
  lemma CheckedRunInv(s: State, es: seq<Event>)
    requires Init(s) && !s.kind.Normal?
    ensures Inv(Exec(Step, s, es)) && Exec(Step, s, es).kind == s.kind
  {
    InitInv(s);
    CheckedRunFrom(s, es);
  }

  // ----- What the mutex promises -----

  /** Mutual exclusion in every lawful run: the semaphore's unit is accounted for exactly
      once, so at most one thread holds the mutex or is about to, and then no unit is left. */
  lemma MutualExclusion(s: State, es: seq<Event>, t: nat, u: nat)
    requires Init(s) && t < |s.threads| && u < |s.threads| && t != u
    ensures var s' := Exec(LawfulStep, s, es);
      && |s'.threads| == |s.threads|
      && s'.sema.count + Sum(s'.threads, Units) == 1
      && (Depth(s'.threads[t]) > 0 || s'.threads[t].pc.OwnWrite? ==>
            && s'.sema.count == 0 && Depth(s'.threads[u]) == 0 && !s'.threads[u].pc.OwnWrite?
            && s'.owner != Some(u))
  {
    var s' := Exec(LawfulStep, s, es);
    RunInv(s, es);
    ThreadCount(s, es);
    UnitsExclusive(s', t, u);
    assert ThreadInv(s', t) && ThreadInv(s', u);
  }

  lemma ThreadCount(s: State, es: seq<Event>)
    ensures |Exec(LawfulStep, s, es).threads| == |s.threads|
    ensures |Exec(Step, s, es).threads| == |s.threads|
  {
    var inv := (x: State) => |x.threads| == |s.threads|;
    forall x, e | inv(x) ensures inv(LawfulStep(x, e)) && inv(Step(x, e)) {
      if e.tid < |x.threads| {
        StepTouchesMover(x, e);
      }
    }
    InvariantOfRuns(LawfulStep, inv, s, es);
    InvariantOfRuns(Step, inv, s, es);
  }

  lemma StepTouchesMover(s: State, e: Event)
    requires e.tid < |s.threads|
    ensures |Step(s, e).threads| == |s.threads|
    ensures Step(s, e).threads == s.threads[e.tid := Step(s, e).threads[e.tid]]
  {
  }

  /** `owner == me` is true precisely when the caller's returned locks outnumber its
      returned (or committed) unlocks; while held, `recursivecount` is that surplus less
      one, and while free it is 0. */
  ghost predicate OwnerTestExact(s: State, t: nat) {
    && t < |s.threads|
    && var th := s.threads[t];
    && (s.owner == Some(t) <==> th.locks - th.unlocks - (if th.pc.UnlockPost? then 1 else 0) > 0)
    && (s.owner == Some(t) ==> s.recursivecount == th.locks - th.unlocks - 1)
    && (s.owner == None ==> s.recursivecount == 0)
  }

  lemma OwnerTestExactIn(s: State, t: nat)
    requires Inv(s) && t < |s.threads|
    ensures OwnerTestExact(s, t)
  {
    assert ThreadInv(s, t);
    UnitsBound(s, t);
  }

  /** The test of `owner` is made outside the semaphore, yet exact in every lawful run. */
  lemma OwnerTestIsExact(s: State, es: seq<Event>, t: nat)
    requires Init(s) && t < |s.threads|
    ensures OwnerTestExact(Exec(LawfulStep, s, es), t)
  {
    RunInv(s, es);
    ThreadCount(s, es);
    OwnerTestExactIn(Exec(LawfulStep, s, es), t);
  }

  /** A thread whose locks outnumber its unlocks keeps every other thread out: whatever
      anyone does next, no other thread's lock call succeeds. */
  lemma HeldMutexRefusesOthers(s: State, e: Event, t: nat, u: nat)
    requires Inv(s) && Lawful(s, e) && t < |s.threads| && u < |s.threads| && t != u
    requires s.threads[t].locks > s.threads[t].unlocks
    ensures |Step(s, e).threads| == |s.threads|
    ensures Step(s, e).threads[u].locks == s.threads[u].locks
  {
    UnitsExclusive(s, t, u);
    assert ThreadInv(s, t) && ThreadInv(s, u);
  }

  /** n acquisitions need n unlocks: throughout any lawful run in which thread t's lock
      calls stay ahead of its unlock calls, no other thread acquires the mutex ... */
  lemma {:induction false} MatchedUnlocksNeeded(s: State, es: seq<Event>, t: nat, u: nat)
    requires Inv(s) && t < |s.threads| && u < |s.threads| && t != u
    requires forall k :: 0 <= k < |es| ==> Ahead(Exec(LawfulStep, s, es[..k]), t)
    ensures Inv(Exec(LawfulStep, s, es))
    ensures |Exec(LawfulStep, s, es).threads| == |s.threads|
    ensures Exec(LawfulStep, s, es).threads[u].locks == s.threads[u].locks
  {
    if es != [] {
      var k := |es| - 1;
      forall j | 0 <= j < k ensures Ahead(Exec(LawfulStep, s, es[..k][..j]), t) {
        assert es[..k][..j] == es[..j];
      }
      MatchedUnlocksNeeded(s, es[..k], t, u);
      var x := Exec(LawfulStep, s, es[..k]);
      assert Ahead(x, t);
      if Lawful(x, es[k]) {
        HeldMutexRefusesOthers(x, es[k], t, u);
        StepKeepsInv(x, es[k]);
      }
    }
  }

  ghost predicate Ahead(s: State, t: nat) {
    t < |s.threads| && s.threads[t].locks > s.threads[t].unlocks
  }

  /** ... and once they match, t accounts for nothing: the mutex is not t's, and the unit
      is in the semaphore or with somebody else. */
  ghost predicate Relinquished(s: State, t: nat) {
    && s.owner != Some(t)
    && (s.sema.count == 1 || exists u :: 0 <= u < |s.threads| && u != t && Units(s.threads[u]) == 1)
  }

  lemma RelinquishedIn(s: State, t: nat)
    requires Inv(s) && t < |s.threads| && s.threads[t].pc.Ready?
    requires s.threads[t].locks == s.threads[t].unlocks
    ensures Relinquished(s, t)
  {
    assert ThreadInv(s, t);
    UnitsBound(s, t);
    if s.sema.count == 0 {
      var u := SumWitness(s.threads, Units);
      UnitsBound(s, u);
    }
  }

  lemma MatchedUnlocksSuffice(s: State, es: seq<Event>, s': State, t: nat)
    requires Init(s) && s' == Exec(LawfulStep, s, es)
    requires t < |s'.threads| && s'.threads[t].pc.Ready? && s'.threads[t].locks == s'.threads[t].unlocks
    ensures Relinquished(s', t)
  {
    RunInv(s, es);
    RelinquishedIn(s', t);
  }

  /** When lock and trylock are refused, exactly: trylock says EBUSY just when some thread
      has the unit (holding the mutex, or taking, releasing or re-ceiling it), lock says
      EDEADLK just when an errorcheck mutex is the caller's own, and the owner of a
      recursive mutex is never made to wait for it. */
  lemma RefusalsAreExact(s: State, t: nat)
    requires Inv(s) && t < |s.threads| && InLock(s.threads[t].pc)
    ensures var pc, r := s.threads[t].pc, LockAccess(s, t).threads[t];
      && (pc.TryPoll? ==> (r.pc.Ready? <==> exists u :: 0 <= u < |s.threads| && Units(s.threads[u]) == 1))
      && (pc.TryPoll? && r.pc.Ready? ==> r.result.EBUSY? && r.locks == s.threads[t].locks)
      && (pc.LockTest? ==> (r.pc.Ready? <==> s.kind.ErrorCheck? && Depth(s.threads[t]) > 0))
      && (pc.LockTest? && r.pc.Ready? ==> r.result.EDEADLK? && r.locks == s.threads[t].locks)
      && (s.kind.Recursive? && Depth(s.threads[t]) > 0 && (pc.LockTest? || pc.TryTest?) ==> r.pc.IncLoad?)
  {
    assert ThreadInv(s, t);
    if s.sema.count == 0 {
      var u := SumWitness(s.threads, Units);
      UnitsBound(s, u);
    } else {
      SumNonNegative(s.threads, Units);
      forall u | 0 <= u < |s.threads| ensures Units(s.threads[u]) != 1 {
        UnitsBound(s, u);
      }
    }
  }

  /** When unlock fails, exactly: a call returns 0, and takes one level off, if it is by a
      thread that holds the mutex, and EPERM otherwise; the signal always fits. */
  lemma UnlockVerdictIsExact(s: State, t: nat)
    requires Inv(s) && t < |s.threads| && InUnlock(s.threads[t].pc)
    ensures var th, r := s.threads[t], UnlockAccess(s, t).threads[t];
      r.pc.Ready? ==>
        if Units(th) == 1 then r.result.OK? && r.unlocks == th.unlocks + 1
        else r.result.EPERM? && r.unlocks == th.unlocks
  {
    assert ThreadInv(s, t);
    UnitsBound(s, t);
  }

  /** A step of one thread neither reads nor writes another thread's record. */
  lemma StepIgnoresOthers(s: State, t: nat, th: Thread, e: Event)
    requires t < |s.threads| && e.tid != t
    ensures |Step(s, e).threads| == |s.threads|
    ensures Step(s.(threads := s.threads[t := th]), e) == Step(s, e).(threads := Step(s, e).threads[t := th])
    ensures Step(s, e).threads[t] == s.threads[t]
  {
    var u := e.tid;
    if u < |s.threads| {
      StepTouchesMover(s, e);
      var x := s.(threads := s.threads[t := th]);
      StepTouchesMover(x, e);
      assert s.threads[t := th][u := Step(s, e).threads[u]] == s.threads[u := Step(s, e).threads[u]][t := th];
    }
  }

  lemma {:induction false} RunIgnoresOthers(s: State, t: nat, th: Thread, es: seq<Event>)
    requires t < |s.threads| && forall i :: 0 <= i < |es| ==> es[i].tid != t
    ensures |Exec(Step, s, es).threads| == |s.threads|
    ensures Exec(Step, s.(threads := s.threads[t := th]), es)
         == Exec(Step, s, es).(threads := Exec(Step, s, es).threads[t := th])
    ensures Exec(Step, s, es).threads[t] == s.threads[t]
  {
    if es != [] {
      var k := |es| - 1;
      RunIgnoresOthers(s, t, th, es[..k]);
      StepIgnoresOthers(Exec(Step, s, es[..k]), t, th, es[k]);
    }
  }

  lemma RefusedUnlock(x: State, t: nat, th: Thread)
    requires t < |x.threads| && !x.kind.Normal? && x.owner != Some(t) && th.pc.UnlockTest?
    ensures Step(x.(threads := x.threads[t := th]), Event(t, Go))
         == x.(threads := x.threads[t := th.(pc := Ready, result := EPERM)])
  {
    assert x.threads[t := th][t := th.(pc := Ready, result := EPERM)]
        == x.threads[t := th.(pc := Ready, result := EPERM)];
  }

  lemma CheckedRunFrom(s: State, es: seq<Event>)
    requires Inv(s) && !s.kind.Normal?
    ensures Inv(Exec(Step, s, es)) && Exec(Step, s, es).kind == s.kind
  {
    var inv := (x: State) => Inv(x) && x.kind == s.kind;
    forall x, e | inv(x) ensures inv(Step(x, e)) {
      StepKeepsKind(x, e);
      StepKeepsInv(x, e);
    }
    InvariantOfRuns(Step, inv, s, es);
  }

  lemma StepKeepsKind(s: State, e: Event)
    ensures Step(s, e).kind == s.kind
  {
  }

  /** A non-owner's unlock of a recursive or errorcheck mutex changes nothing and returns
      EPERM, whatever the other threads do between its call and its test of `owner`. */
  lemma {:induction false} NonOwnerUnlockChangesNothing(s: State, t: nat, es: seq<Event>)
    requires Inv(s) && !s.kind.Normal? && t < |s.threads| && s.threads[t].pc.Ready? && s.owner != Some(t)
    requires forall i :: 0 <= i < |es| ==> es[i].tid != t
    ensures |Exec(Step, s, es).threads| == |s.threads|
    ensures Exec(Step, s, [Event(t, CallUnlock)] + es + [Event(t, Go)])
         == Exec(Step, s, es).(threads := Exec(Step, s, es).threads[t := s.threads[t].(result := EPERM)])
  {
    var call, th, x := Event(t, CallUnlock), s.threads[t].(pc := UnlockTest), Exec(Step, s, es);
    var s1 := s.(threads := s.threads[t := th]);
    RunIgnoresOthers(s, t, th, es);
    CheckedRunFrom(s, es);
    StillNotOwner(s, x, t);
    RefusedUnlock(x, t, th);
    assert Step(s, call) == s1;
    ExecFramed(s, call, es, Event(t, Go));
  }

  lemma ExecFramed(s: State, first: Event, es: seq<Event>, last: Event)
    ensures Exec(Step, s, [first] + es + [last]) == Step(Exec(Step, Step(s, first), es), last)
  {
    ExecCons(Step, s, first, es);
    ExecSnoc(Step, s, [first] + es, last);
  }

  lemma StillNotOwner(s: State, x: State, t: nat)
    requires Inv(s) && Inv(x) && t < |s.threads| && t < |x.threads| && x.threads[t] == s.threads[t]
    ensures x.owner == Some(t) <==> s.owner == Some(t)
  {
    assert ThreadInv(s, t) && ThreadInv(x, t);
  }

  /** Nothing checks a normal mutex: an unlock by a thread that does not hold it lets two
      threads hold it at once.  Thread 1 unlocks what thread 0 holds; thread 2 locks it. */
  lemma UnlawfulUnlockBreaksExclusion(s: State) returns (es: seq<Event>)
    requires Init(s) && s.kind.Normal? && |s.threads| >= 3
    ensures var s' := Exec(Step, s, es);
      && |s'.threads| == |s.threads| && Depth(s'.threads[0]) == 1 && Depth(s'.threads[2]) == 1
      && s'.owner == Some(2)
  {
    var a, x := LockAlone(s, 0);
    var b, y := UnlockAlone(x, 1);
    var c, z := LockAlone(y, 2);
    es := a + b + c;
    ExecConcat(Step, s, a, b);
    ExecConcat(Step, s, a + b, c);
  }

  /** Thread t has locked the mutex since x, and not unlocked it since. */
  predicate LockedSince(x: State, z: State, t: nat) {
    && t < |x.threads| && t < |z.threads|
    && z.threads[t].locks > x.threads[t].locks && z.threads[t].unlocks == x.threads[t].unlocks
  }

  /** At the end of the run thread t is in its critical section. */
  ghost predicate Inside(s: State, es: seq<Event>, t: nat) {
    exists k :: 0 <= k <= |es| && LockedSince(Exec(Step, s, es[..k]), Exec(Step, s, es), t)
  }

  ghost predicate TwoInside(s: State, es: seq<Event>, t: nat, u: nat) {
    t != u && Inside(s, es, t) && Inside(s, es, u)
  }

  lemma InsideHasUnit(x: State, z: State, t: nat)
    requires Inv(x) && Inv(z) && LockedSince(x, z, t)
    ensures Units(z.threads[t]) == 1
  {
    assert ThreadInv(x, t) && ThreadInv(z, t);
    UnitsBound(z, t);
  }

  lemma CheckedNeverTwoInside(s: State, es: seq<Event>, t: nat, u: nat)
    requires Init(s) && !s.kind.Normal?
    ensures !TwoInside(s, es, t, u)
  {
    if TwoInside(s, es, t, u) {
      var z := Exec(Step, s, es);
      CheckedRunInv(s, es);
      var k :| 0 <= k <= |es| && LockedSince(Exec(Step, s, es[..k]), z, t);
      var j :| 0 <= j <= |es| && LockedSince(Exec(Step, s, es[..j]), z, u);
      CheckedRunInv(s, es[..k]);
      CheckedRunInv(s, es[..j]);
      InsideHasUnit(Exec(Step, s, es[..k]), z, t);
      InsideHasUnit(Exec(Step, s, es[..j]), z, u);
      UnitsExclusive(z, t, u);
    }
  }

  /** Thread 1 unlocks what thread 0 holds, and locks it itself. */
  lemma NormalTwoInside(s: State) returns (es: seq<Event>)
    requires Init(s) && s.kind.Normal? && |s.threads| >= 2
    ensures TwoInside(s, es, 0, 1)
  {
    var a, x := LockAlone(s, 0);
    var b, y := UnlockAlone(x, 1);
    var c, z := LockAlone(y, 1);
    es := a + b + c;
    ExecConcat(Step, s, a, b);
    ExecConcat(Step, s, a + b, c);
    assert es[..0] == [] && es[..|a + b|] == a + b;
    assert LockedSince(Exec(Step, s, es[..0]), z, 0) && LockedSince(Exec(Step, s, es[..|a + b|]), z, 1);
  }

  /** Without any condition on who unlocks, some run brings two threads into their critical
      sections at once if and only if the mutex is normal and two threads use it. */
  lemma ExclusionBreaksIff(s: State)
    requires Init(s)
    ensures (exists es, t, u :: TwoInside(s, es, t, u)) <==> s.kind.Normal? && |s.threads| >= 2
  {
    if s.kind.Normal? && |s.threads| >= 2 {
      var es := NormalTwoInside(s);
    } else {
      forall es, t, u ensures !TwoInside(s, es, t, u) {
        if !s.kind.Normal? {
          CheckedNeverTwoInside(s, es, t, u);
        } else {
          ThreadCount(s, es);
        }
      }
    }
  }

  /** A free mutex is locked by four events of one thread ... */
  lemma LockAlone(s: State, t: nat) returns (es: seq<Event>, s': State)
    requires t < |s.threads| && s.threads[t].pc.Ready? && s.sema == Sema(1, 1) && s.owner != Some(t)
    ensures s' == Exec(Step, s, es)
    ensures s' == ReturnLocked(s.(sema := Sema(0, 1), owner := Some(t)), t)
  {
    es := [Event(t, CallLock(false)), Event(t, Go), Event(t, Go), Event(t, Go)];
    s' := ReturnLocked(s.(sema := Sema(0, 1), owner := Some(t)), t);
    ExecFour(Step, s, es[0], es[1], es[2], es[3]);
    var x1 := Step(s, es[0]);
    var x2 := Step(x1, es[1]);
    assert x2.threads == s.threads[t := s.threads[t].(pc := LockWait(false))];
    var x3 := Step(x2, es[2]);
    assert x3 == At(s.(sema := Sema(0, 1)), t, OwnWrite);
    assert Step(x3, es[3]) == s';
  }

  /** ... and a held normal one is freed by five events of any thread. */
  lemma UnlockAlone(s: State, t: nat) returns (es: seq<Event>, s': State)
    requires t < |s.threads| && s.threads[t].pc.Ready? && s.sema == Sema(0, 1)
    requires s.owner != None && s.kind.Normal?
    ensures s' == Exec(Step, s, es)
    ensures s' == ReturnUnlocked(s.(sema := Sema(1, 1), owner := None), t)
  {
    var fs := [Event(t, CallUnlock), Event(t, Go), Event(t, Go), Event(t, Go)];
    es := fs + [Event(t, Go)];
    s' := ReturnUnlocked(s.(sema := Sema(1, 1), owner := None), t);
    ExecFour(Step, s, fs[0], fs[1], fs[2], fs[3]);
    ExecSnoc(Step, s, fs, Event(t, Go));
    var x2 := Step(Step(s, fs[0]), fs[1]);
    assert x2.threads == s.threads[t := s.threads[t].(pc := UnlockNull)];
    var x4 := Step(Step(x2, fs[2]), fs[3]);
    assert x4 == At(s.(owner := None), t, UnlockPost);
    assert Step(x4, Event(t, Go)) == s';
  }

  // ----- The object itself -----

  /** pthread_mutex_t and the threads using it.  Each method makes one access of one C
      function, in place; `Run` lets a schedule interleave them. */
  class PthreadMutex {
    const kind: Kind
    var id: Sema
    var owner: Option<Tid>
    var recursivecount: int
    var prioceiling: int
    var threads: seq<Thread>

    function Contents(): State
      reads this
    {
      State(kind, id, owner, recursivecount, prioceiling, threads)
    }

    constructor (kind: Kind, prioceiling: int, n: nat)
      ensures Init(Contents()) && this.kind == kind && this.prioceiling == prioceiling && |threads| == n
    {
      this.kind := kind;
      this.id := Sema(1, 1);
      this.recursivecount := 0;
      this.owner := None;
      this.prioceiling := prioceiling;
      this.threads := seq(n, _ => Thread(Ready, OK, 0, 0));
    }

    method Goto(me: nat, pc: Pc)
      requires me < |threads|
      modifies this
      ensures Contents() == At(old(Contents()), me, pc)
    {
      threads := threads[me := threads[me].(pc := pc)];
    }

    method Finish(me: nat, result: Errno, locked: nat, unlocked: nat)
      requires me < |threads|
      modifies this
      ensures var th := old(threads[me]);
        Contents() == old(Contents()).(threads := old(threads)[me :=
          Thread(Ready, result, th.locks + locked, th.unlocks + unlocked)])
    {
      var th := threads[me];
      threads := threads[me := Thread(Ready, result, th.locks + locked, th.unlocks + unlocked)];
    }

    method Lock(me: nat)
      requires me < |threads| && InLock(threads[me].pc)
      modifies this
      ensures Contents() == LockAccess(old(Contents()), me)
    {
      match threads[me].pc
      case LockTest(timed) =>
        if kind.Recursive? && owner == Some(me) {
          Goto(me, IncLoad);
        } else if kind.ErrorCheck? && owner == Some(me) {
          Finish(me, EDEADLK, 0, 0);
        } else {
          Goto(me, LockWait(timed));
        }
      case LockWait(_) =>
        if id.Has(1) {
          id := id.Take(1);
          Goto(me, OwnWrite);
        }
      case TryTest =>
        if kind.Recursive? && owner == Some(me) {
          Goto(me, IncLoad);
        } else {
          Goto(me, TryPoll);
        }
      case TryPoll =>
        if id.Has(1) {
          id := id.Take(1);
          Goto(me, OwnWrite);
        } else {
          Finish(me, EBUSY, 0, 0);
        }
      case IncLoad =>
        Goto(me, IncStore(recursivecount + 1));
      case IncStore(v) =>
        recursivecount := v;
        Finish(me, OK, 1, 0);
      case OwnWrite =>
        owner := Some(me);
        Finish(me, OK, 1, 0);
    }

    method Unlock(me: nat)
      requires me < |threads| && InUnlock(threads[me].pc)
      modifies this
      ensures Contents() == UnlockAccess(old(Contents()), me)
    {
      match threads[me].pc
      case UnlockTest =>
        if kind.Recursive? {
          if owner == Some(me) {
            Goto(me, UnlockLoad);
          } else {
            Finish(me, EPERM, 0, 0);
          }
        } else if kind.ErrorCheck? && owner != Some(me) {
          Finish(me, EPERM, 0, 0);
        } else {
          Goto(me, UnlockNull);
        }
      case UnlockLoad =>
        if recursivecount > 0 {
          Goto(me, UnlockStore(recursivecount - 1));
        } else {
          Goto(me, UnlockNull);
        }
      case UnlockStore(v) =>
        recursivecount := v;
        Finish(me, OK, 0, 1);
      case UnlockNull =>
        if owner == None {
          Finish(me, EPERM, 0, 0);
        } else {
          Goto(me, UnlockClear);
        }
      case UnlockClear =>
        owner := None;
        Goto(me, UnlockPost);
      case UnlockPost =>
        if id.Fits(1) {
          id := id.Signal(1);
          Finish(me, OK, 0, 1);
        } else {
          Finish(me, EINVAL, 0, 0);
        }
    }

    method SetPrioCeiling(me: nat)
      requires me < |threads| && InCeiling(threads[me].pc)
      modifies this
      ensures Contents() == CeilingAccess(old(Contents()), me)
    {
      match threads[me].pc
      case CeilWait(c) =>
        if id.Has(1) {
          id := id.Take(1);
          Goto(me, CeilWrite(c));
        }
      case CeilWrite(c) =>
        prioceiling := c;
        Goto(me, CeilPost);
      case CeilPost =>
        id := id.Signal(1);
        Finish(me, OK, 0, 0);
    }

    method Perform(e: Event)
      modifies this
      ensures Contents() == Step(old(Contents()), e)
    {
      var me := e.tid;
      if me >= |threads| {
        return;
      }
      var pc := threads[me].pc;
      if pc.Ready? {
        match e.act
        case CallLock(timed) => Goto(me, LockTest(timed));
        case CallTrylock => Goto(me, TryTest);
        case CallUnlock => Goto(me, UnlockTest);
        case CallSetCeiling(c) => Goto(me, CeilWait(c));
        case _ =>
      } else if e.act.Go? {
        if InLock(pc) {
          Lock(me);
        } else if InUnlock(pc) {
          Unlock(me);
        } else {
          SetPrioCeiling(me);
        }
      } else if e.act.TimeOut? && pc == LockWait(true) {
        Finish(me, ETIMEDOUT, 0, 0);
      }
    }

    /** Any interleaving of any calls by any threads on a checking mutex. */
    method Run(es: seq<Event>)
      modifies this
      ensures Contents() == Exec(Step, old(Contents()), es)
      ensures old(Init(Contents())) && !kind.Normal? ==> Inv(Contents())
    {
      for i := 0 to |es|
        invariant Contents() == Exec(Step, old(Contents()), es[..i])
      {
        Perform(es[i]);
        assert es[..i + 1][..i] == es[..i];
      }
      assert es[..|es|] == es;
      if !kind.Normal? && old(Init(Contents())) {
        CheckedRunInv(old(Contents()), es);
      }
    }
  }
}
