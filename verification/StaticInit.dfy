/** First use of a statically initialised object, composed with the mutex machine of the
    global lock, which is recursive and is taken twice: by the static initialiser and,
    nested, by the initialiser proper.

    A mutex or rwlock is static while its id is the static id and its signature (in the
    field `owner` of a mutex, `writelock` of a rwlock) is in place.  The initialiser stores
    the id of the new semaphore first and overwrites the signature afterwards. */
module StaticInit {
  import opened Kernel
  import opened Sums
  import opened Runs
  import M = Mutex
  import MC = MutexCalls

  datatype Id = StaticId | SemaId(n: nat) | InvalidId

  datatype Pc =
    | Outside
    | TestId        // unlocked STATIC_INIT: the id ...
    | TestMark      // ... and the signature
    | Enter1        // in the global lock's pthread_mutex_lock
    | AgainId       // STATIC_INIT once more, locked
    | AgainMark
    | Enter2        // in the nested pthread_mutex_lock
    | Create        // create the semaphore
    | WriteId(n: nat)
    | WriteMark
    | FailId        // creation failed: STATIC_INIT decides whether to invalidate
    | FailMark
    | Invalidate
    | Leave2        // in the nested pthread_mutex_unlock
    | Leave1        // in the outer pthread_mutex_unlock

  /** A user's program counter and what its first use has returned so far. */
  datatype User = User(pc: Pc, result: Errno)

  /** `created` is history: how many semaphores the kernel has made for the object. */
  datatype State = State(global: M.State, id: Id, mark: bool, threads: seq<User>, created: nat)

  /** `Fail` is a scheduled step at which the kernel cannot create the semaphore. */
  datatype Act = Use | Go | Fail

  datatype Event = Event(tid: nat, act: Act)

  predicate Has(s: State, t: nat) { t < |s.threads| && t < |s.global.threads| }

  function Put(s: State, t: nat, u: User): State
    requires t < |s.threads|
  {
    s.(threads := s.threads[t := u])
  }

  function At(s: State, t: nat, pc: Pc): State
    requires t < |s.threads|
  {
    Put(s, t, s.threads[t].(pc := pc))
  }

  function CallGlobal(s: State, t: nat, act: M.Act, pc: Pc): State
    requires Has(s, t)
  {
    At(s.(global := M.Start(s.global, t, act)), t, pc)
  }

  /** The next access of the global lock's function; after the last, go on. */
  function InGlobal(s: State, t: nat): State
    requires Has(s, t)
  {
    var m := M.Advance(s.global, t);
    var s' := s.(global := m);
    if !m.threads[t].pc.Ready? then s' else
      match s.threads[t].pc
      case Enter1 => At(s', t, AgainId)
      case Enter2 => At(s', t, Create)
      case Leave2 => CallGlobal(s', t, M.CallUnlock, Leave1)
      case Leave1 => At(s', t, Outside)
      case _ => s'
  }

  /** The initialiser proper, under both locks. */
  function InitAccess(s: State, t: nat, fails: bool): State
    requires Has(s, t)
  {
    match s.threads[t].pc
    case Create =>
      if fails then Put(s, t, User(FailId, EINVAL))
      else At(s.(created := s.created + 1), t, WriteId(s.created))
    case WriteId(n) => At(s.(id := SemaId(n)), t, WriteMark)
    case WriteMark => CallGlobal(s.(mark := false), t, M.CallUnlock, Leave2)
    case FailId => At(s, t, if s.id.StaticId? then FailMark else Invalidate)
    case FailMark => if s.mark then CallGlobal(s, t, M.CallUnlock, Leave2) else At(s, t, Invalidate)
    case Invalidate => CallGlobal(s.(id := InvalidId), t, M.CallUnlock, Leave2)
    case _ => s
  }

  function Advance(s: State, t: nat): State
    requires Has(s, t)
  {
    match s.threads[t].pc
    case TestId => At(s, t, if s.id.StaticId? then TestMark else Outside)
    case TestMark => if s.mark then CallGlobal(s, t, M.CallLock(false), Enter1) else At(s, t, Outside)
    case AgainId => if s.id.StaticId? then At(s, t, AgainMark) else CallGlobal(s, t, M.CallUnlock, Leave1)
    case AgainMark =>
      if s.mark then CallGlobal(s, t, M.CallLock(false), Enter2) else CallGlobal(s, t, M.CallUnlock, Leave1)
    case Enter1 => InGlobal(s, t)
    case Enter2 => InGlobal(s, t)
    case Leave2 => InGlobal(s, t)
    case Leave1 => InGlobal(s, t)
    case _ => InitAccess(s, t, false)
  }

  function Step(s: State, e: Event): State {
    var t := e.tid;
    if !Has(s, t) then s
    else if s.threads[t].pc.Outside? then if e.act.Use? then Put(s, t, User(TestId, OK)) else s
    else if e.act.Go? then Advance(s, t)
    else if e.act.Fail? && s.threads[t].pc.Create? then InitAccess(s, t, true)
    else s
  }

  /** The global lock as the library's initialisation leaves it, and a static object. */
  ghost predicate Init(s: State) {
    && M.Init(s.global) && s.global.kind.Recursive? && |s.global.threads| == |s.threads|
    && s.id.StaticId? && s.mark && s.created == 0
    && forall t :: 0 <= t < |s.threads| ==> s.threads[t] == User(Outside, OK)
  }

  // ----- The invariant -----

  /** Has a semaphore whose id is not stored yet. */
  function Carries(u: User): int { if u.pc.WriteId? then 1 else 0 }

  /** Has stored the id and is about to overwrite the signature. */
  function Clears(u: User): int { if u.pc.WriteMark? then 1 else 0 }

  /** The object has its semaphore and still the signature of a static one. */
  function Late(id: Id, mark: bool): int { if mark && !id.StaticId? then 1 else 0 }

  /** How deep a thread is in the global lock, and what the object looks like to a thread
      that is: static, until that thread itself stores the new id. */
  predicate UserOk(u: User, mt: M.Thread, id: Id, mark: bool, created: nat) {
    && (u.result.OK? || u.result.EINVAL?)
    && match u.pc
       case Outside | TestId | TestMark => mt.pc.Ready? && M.Gross(mt) == 0
       case Enter1 => M.InUntimedLock(mt.pc) && M.Gross(mt) == 0
       case AgainId => mt.pc.Ready? && M.Gross(mt) == 1
       case AgainMark => mt.pc.Ready? && M.Gross(mt) == 1 && id.StaticId? && created == 0
       case Enter2 =>
         && M.InUntimedLock(mt.pc) && !mt.pc.LockWait? && !mt.pc.OwnWrite?
         && M.Gross(mt) == 1 && id.StaticId? && mark && created == 0
       case Create => mt.pc.Ready? && M.Gross(mt) == 2 && id.StaticId? && mark && created == 0
       case FailId | FailMark =>
         mt.pc.Ready? && M.Gross(mt) == 2 && id.StaticId? && mark && created == 0 && u.result.EINVAL?
       case WriteId(n) => mt.pc.Ready? && M.Gross(mt) == 2 && id.StaticId? && mark && created == 1 && n == 0
       case WriteMark => mt.pc.Ready? && M.Gross(mt) == 2 && id.SemaId? && mark
       case Invalidate => false
       case Leave2 => M.InUnlock(mt.pc) && M.Gross(mt) == 2 && (u.result.OK? ==> !id.StaticId?)
       case Leave1 => M.InUnlock(mt.pc) && M.Gross(mt) == 1 && (u.result.OK? ==> !id.StaticId?)
  }

  /** The object is static, or it is the one semaphore made for it. */
  ghost predicate Inv(s: State) {
    && M.Inv(s.global) && s.global.kind.Recursive? && |s.global.threads| == |s.threads|
    && (s.id == StaticId || s.id == SemaId(0))
    && (s.id.StaticId? ==> s.mark)
    && s.created == (if s.id.StaticId? then 0 else 1) + Sum(s.threads, Carries)
    && Sum(s.threads, Clears) == Late(s.id, s.mark)
    && forall t :: 0 <= t < |s.threads| ==> UserOk(s.threads[t], s.global.threads[t], s.id, s.mark, s.created)
  }

  lemma OneInside(s: State, t: nat, u: nat)
    requires Inv(s) && t < |s.threads| && u < |s.threads| && t != u && M.Gross(s.global.threads[t]) >= 1
    ensures M.Gross(s.global.threads[u]) <= 0
  {
    M.UnitsExclusive(s.global, t, u);
    M.InvGivesMoverPre(s.global, t);
    M.InvGivesMoverPre(s.global, u);
  }

  /** A thread that is deep enough to have the lock, and not about to store the id, is the
      only one that could be, so the count is settled. */
  lemma NoneCarries(s: State, t: nat)
    requires Inv(s) && t < |s.threads| && M.Gross(s.global.threads[t]) >= 1 && !s.threads[t].pc.WriteId?
    ensures Sum(s.threads, Carries) == 0
  {
    forall u | 0 <= u < |s.threads| ensures Carries(s.threads[u]) == 0 {
      assert UserOk(s.threads[u], s.global.threads[u], s.id, s.mark, s.created);
      if u != t {
        OneInside(s, t, u);
      }
    }
    SumBounds(s.threads, 0, 0, Carries);
  }

  /** What one step of thread t does to everything but the global lock; only a thread with
      the lock changes the object. */
  ghost predicate MoverPost(s: State, t: nat, s': State)
    requires Has(s, t)
  {
    && |s'.threads| == |s.threads| && s'.threads == s.threads[t := s'.threads[t]]
    && |s'.global.threads| == |s.global.threads|
    && UserOk(s'.threads[t], s'.global.threads[t], s'.id, s'.mark, s'.created)
    && (s'.id == StaticId || s'.id == SemaId(0)) && (s'.id.StaticId? ==> s'.mark)
    && ((s'.id == s.id && s'.mark == s.mark && s'.created == s.created) || M.Gross(s.global.threads[t]) >= 1)
    && s'.created - s.created
       == (if s'.id.StaticId? then 0 else 1) - (if s.id.StaticId? then 0 else 1)
          + Carries(s'.threads[t]) - Carries(s.threads[t])
    && Late(s'.id, s'.mark) - Late(s.id, s.mark) == Clears(s'.threads[t]) - Clears(s.threads[t])
  }

  lemma OthersKept(s: State, t: nat, s': State)
    requires Inv(s) && Has(s, t) && MoverPost(s, t, s') && M.Inv(s'.global) && s'.global.kind.Recursive?
    requires forall u :: 0 <= u < |s.threads| && u != t ==> s'.global.threads[u] == s.global.threads[u]
    ensures Inv(s')
  {
    SumUpdate(s.threads, t, s'.threads[t], Carries);
    SumUpdate(s.threads, t, s'.threads[t], Clears);
    forall u | 0 <= u < |s'.threads|
      ensures UserOk(s'.threads[u], s'.global.threads[u], s'.id, s'.mark, s'.created)
    {
      if u != t {
        assert UserOk(s.threads[u], s.global.threads[u], s.id, s.mark, s.created);
        if s'.id != s.id || s'.mark != s.mark || s'.created != s.created {
          OneInside(s, t, u);
        }
      }
    }
  }

  /** A recursive mutex's lock, and its unlock by the thread that holds it: still inside, or
      returned one level deeper or one level up. */
  lemma LockLevel(m: M.State, t: nat)
    requires M.Inv(m) && m.kind.Recursive? && t < |m.threads| && M.InUntimedLock(m.threads[t].pc)
    ensures var mt, mt' := m.threads[t], M.Advance(m, t).threads[t];
      if mt'.pc.Ready? then M.Gross(mt') == M.Gross(mt) + 1 else M.Gross(mt') == M.Gross(mt) && M.InUntimedLock(mt'.pc)
    ensures var mt, mt' := m.threads[t], M.Advance(m, t).threads[t];
      M.Gross(mt) >= 1 && !mt.pc.LockWait? && !mt.pc.OwnWrite? ==> !mt'.pc.LockWait? && !mt'.pc.OwnWrite?
  {
    M.InvGivesMoverPre(m, t);
  }

  lemma UnlockLevel(m: M.State, t: nat)
    requires M.Inv(m) && m.kind.Recursive? && t < |m.threads| && M.InUnlock(m.threads[t].pc)
    requires M.Gross(m.threads[t]) >= 1
    ensures var mt, mt' := m.threads[t], M.Advance(m, t).threads[t];
      if mt'.pc.Ready? then M.Gross(mt') == M.Gross(mt) - 1 else M.Gross(mt') == M.Gross(mt) && M.InUnlock(mt'.pc)
  {
    M.InvGivesMoverPre(m, t);
  }

  lemma InGlobalKeepsMover(s: State, t: nat)
    requires Inv(s) && Has(s, t)
    requires var pc := s.threads[t].pc; pc.Enter1? || pc.Enter2? || pc.Leave2? || pc.Leave1?
    ensures MoverPost(s, t, InGlobal(s, t))
  {
    assert UserOk(s.threads[t], s.global.threads[t], s.id, s.mark, s.created);
    if s.threads[t].pc.Enter1? || s.threads[t].pc.Enter2? {
      LockLevel(s.global, t);
    } else {
      UnlockLevel(s.global, t);
    }
    M.StepTouchesMover(s.global, M.Event(t, M.Go));
    assert s.threads == s.threads[t := s.threads[t]];
  }

  lemma InitKeepsMover(s: State, t: nat, fails: bool)
    requires Inv(s) && Has(s, t)
    requires var pc := s.threads[t].pc;
      pc.Create? || pc.WriteId? || pc.WriteMark? || pc.FailId? || pc.FailMark?
    ensures MoverPost(s, t, InitAccess(s, t, fails))
  {
    assert UserOk(s.threads[t], s.global.threads[t], s.id, s.mark, s.created);
  }

  lemma TestKeepsMover(s: State, t: nat)
    requires Inv(s) && Has(s, t)
    requires var pc := s.threads[t].pc; pc.TestId? || pc.TestMark? || pc.AgainId? || pc.AgainMark?
    ensures MoverPost(s, t, Advance(s, t))
  {
    assert UserOk(s.threads[t], s.global.threads[t], s.id, s.mark, s.created);
    if s.threads[t].pc.AgainId? {
      NoneCarries(s, t);
    }
  }

  /** What a step does to the global lock is nothing, or lawful steps of the same thread. */
  lemma GlobalSteps(s: State, t: nat, g: M.State)
    requires Inv(s) && Has(s, t)
    requires g == s.global || g == M.Advance(s.global, t)
          || (s.global.threads[t].pc.Ready? && g == M.Start(s.global, t, M.CallUnlock))
          || (s.global.threads[t].pc.Ready? && g == M.Start(s.global, t, M.CallLock(false)))
    requires g == M.Advance(s.global, t) ==> g == s.global || !s.global.threads[t].pc.Ready?
    ensures M.Inv(g) && g.kind.Recursive? && |g.threads| == |s.global.threads|
    ensures forall u :: 0 <= u < |s.threads| && u != t ==> g.threads[u] == s.global.threads[u]
  {
    if g != s.global {
      var a := if !s.global.threads[t].pc.Ready? then M.Go
               else if g == M.Start(s.global, t, M.CallUnlock) then M.CallUnlock else M.CallLock(false);
      assert g == M.Step(s.global, M.Event(t, a));
      M.StepKeepsInv(s.global, M.Event(t, a));
      M.StepKeepsKind(s.global, M.Event(t, a));
      M.StepTouchesMover(s.global, M.Event(t, a));
    }
  }

  lemma GlobalKept(s: State, e: Event)
    requires Inv(s) && Has(s, e.tid)
    ensures var g := Step(s, e).global;
      && M.Inv(g) && g.kind.Recursive? && |g.threads| == |s.global.threads|
      && forall u :: 0 <= u < |s.threads| && u != e.tid ==> g.threads[u] == s.global.threads[u]
  {
    var t := e.tid;
    assert UserOk(s.threads[t], s.global.threads[t], s.id, s.mark, s.created);
    if s.threads[t].pc.Leave2? && e.act.Go? && M.Advance(s.global, t).threads[t].pc.Ready? {
      var g := M.Advance(s.global, t);
      GlobalSteps(s, t, g);
      M.StepKeepsInv(g, M.Event(t, M.CallUnlock));
      M.StepTouchesMover(g, M.Event(t, M.CallUnlock));
    } else {
      GlobalSteps(s, t, Step(s, e).global);
    }
  }

  lemma StepKeepsInv(s: State, e: Event)
    requires Inv(s)
    ensures Inv(Step(s, e))
  {
    var t, s' := e.tid, Step(s, e);
    if Has(s, t) && s' != s {
      assert UserOk(s.threads[t], s.global.threads[t], s.id, s.mark, s.created);
      GlobalKept(s, e);
      match s.threads[t].pc {
        case Outside =>
        case TestId | TestMark | AgainId | AgainMark => TestKeepsMover(s, t);
        case Enter1 | Enter2 | Leave2 | Leave1 => InGlobalKeepsMover(s, t);
        case _ => InitKeepsMover(s, t, e.act.Fail?);
      }
      OthersKept(s, t, s');
    }
  }

  lemma RunInv(s: State, es: seq<Event>)
    requires Init(s)
    ensures Inv(Exec(Step, s, es))
  {
    M.InitInv(s.global);
    SumBounds(s.threads, 0, 0, Carries);
    SumBounds(s.threads, 0, 0, Clears);
    forall x, e | Inv(x) ensures Inv(Step(x, e)) {
      StepKeepsInv(x, e);
    }
    InvariantOfRuns(Step, Inv, s, es);
  }

  // ----- What it promises -----

  /** At most one semaphore is ever made for the object; until it is in place the object is
      exactly as it was declared, whatever attempts have failed; it is never invalidated. */
  ghost predicate CreatedOnce(s: State) {
    && s.created <= 1
    && (s.created == 0 ==> s.id.StaticId? && s.mark)
    && (!s.id.StaticId? ==> s.id == SemaId(0) && s.created == 1)
    && forall t :: 0 <= t < |s.threads| ==> !s.threads[t].pc.Invalidate?
  }

  lemma CreatedOnceIn(s: State)
    requires Inv(s)
    ensures CreatedOnce(s)
  {
    forall t | 0 <= t < |s.threads| ensures !s.threads[t].pc.Invalidate? {
      assert UserOk(s.threads[t], s.global.threads[t], s.id, s.mark, s.created);
    }
    SumNonNegative(s.threads, Carries);
    if Sum(s.threads, Carries) > 0 {
      var t := SumWitness(s.threads, Carries);
      assert UserOk(s.threads[t], s.global.threads[t], s.id, s.mark, s.created);
    }
  }

  /** Any number of first users create at most one semaphore. */
  lemma FirstUsersCreateOne(s: State, es: seq<Event>)
    requires Init(s)
    ensures CreatedOnce(Exec(Step, s, es))
  {
    RunInv(s, es);
    CreatedOnceIn(Exec(Step, s, es));
  }

  /** In every run the signature of a static object goes with its id: it outlives the id only
      until the thread that stored the new one, next, overwrites it. */
  lemma MarkFollowsId(s: State, es: seq<Event>)
    requires Init(s)
    ensures var x := Exec(Step, s, es);
      x.mark <==> x.id.StaticId? || exists t :: 0 <= t < |x.threads| && x.threads[t].pc.WriteMark?
  {
    RunInv(s, es);
    var x := Exec(Step, s, es);
    if Late(x.id, x.mark) == 1 {
      var t := SumWitness(x.threads, Clears);
    }
    if t :| 0 <= t < |x.threads| && x.threads[t].pc.WriteMark? {
      SumAtLeast(x.threads, t, Clears);
    }
  }

  /** Once the semaphore's id is stored it stays. */
  lemma IdStays(s: State, e: Event)
    requires Inv(s) && s.id.SemaId?
    ensures Step(s, e).id == s.id
  {
    if Has(s, e.tid) {
      assert UserOk(s.threads[e.tid], s.global.threads[e.tid], s.id, s.mark, s.created);
    }
  }

  /** A first use that returns 0 returns with the semaphore in place; one that returns an
      error returns it from a failed creation. */
  lemma UsableOnReturn(s: State, e: Event)
    requires Inv(s) && Has(s, e.tid) && !s.threads[e.tid].pc.Outside?
    ensures var u, u' := s.threads[e.tid], Step(s, e).threads[e.tid];
      && (u'.pc.Outside? && u'.result.OK? ==> Step(s, e).id == SemaId(0))
      && (u'.result != u.result ==> u.pc.Create? && e.act.Fail?)
  {
    assert UserOk(s.threads[e.tid], s.global.threads[e.tid], s.id, s.mark, s.created);
  }

  // ----- A failed creation can be retried -----

  /** Accesses still to make before the creation. */
  function ToCreate(u: User, mt: M.Thread): nat {
    match u.pc
    case TestId => 10
    case TestMark => 9
    case Enter1 => if mt.pc.LockTest? then 8 else if mt.pc.LockWait? then 7 else 6
    case AgainId => 5
    case AgainMark => 4
    case Enter2 => if mt.pc.LockTest? then 3 else if mt.pc.IncLoad? then 2 else 1
    case _ => 0
  }

  ghost predicate OnTheWay(s: State, t: nat) {
    && Inv(s) && Has(s, t) && s.created == 0
    && var pc := s.threads[t].pc;
       && (pc.TestId? || pc.TestMark? || pc.Enter1? || pc.AgainId? || pc.AgainMark? || pc.Enter2?)
       && (pc.TestId? || pc.TestMark? || (pc.Enter1? && !s.global.threads[t].pc.OwnWrite?) ==> s.global.sema.count == 1)
       && (pc.Enter2? ==> !s.global.threads[t].pc.LockWait? && !s.global.threads[t].pc.OwnWrite?)
  }

  lemma Approaches(s: State, t: nat)
    requires OnTheWay(s, t)
    ensures var s' := Step(s, Event(t, Go));
      && |s'.threads| == |s.threads| && Has(s', t) && Inv(s') && s'.created == 0
      && (s'.threads[t].pc.Create?
          || (OnTheWay(s', t)
              && ToCreate(s'.threads[t], s'.global.threads[t]) < ToCreate(s.threads[t], s.global.threads[t])))
  {
    assert UserOk(s.threads[t], s.global.threads[t], s.id, s.mark, s.created);
    CreatedOnceIn(s);
    M.InvGivesMoverPre(s.global, t);
    StepKeepsInv(s, Event(t, Go));
  }

  ghost predicate OnlyBy(es: seq<Event>, t: nat) { forall i :: 0 <= i < |es| ==> es[i].tid == t }

  lemma {:induction false} ReachesCreation(s: State, t: nat) returns (es: seq<Event>, s': State)
    requires OnTheWay(s, t)
    ensures OnlyBy(es, t) && s' == Exec(Step, s, es) && Inv(s') && Has(s', t)
    ensures s'.threads[t].pc.Create? && s'.created == 0
    decreases ToCreate(s.threads[t], s.global.threads[t])
  {
    var go := Event(t, Go);
    var x := Step(s, go);
    Approaches(s, t);
    ExecOne(Step, s, go);
    if x.threads[t].pc.Create? {
      es, s' := [go], x;
    } else {
      es, s' := ReachesCreation(x, t);
      ExecCons(Step, s, go, es);
      es := [go] + es;
    }
  }

  /** Not past its wait for the global lock: outside, about to test, or blocked in the lock. */
  predicate AtTheDoor(s: State, t: nat) {
    && Has(s, t)
    && var pc := s.threads[t].pc;
       || pc.Outside? || pc.TestId? || pc.TestMark?
       || (pc.Enter1? && !s.global.threads[t].pc.OwnWrite?)
  }

  /** However many attempts have failed, any user, new or blocked in the global lock all the
      while, tries again once the lock is free, and a semaphore the kernel then makes becomes
      the object's. */
  lemma {:induction false} Retriable(s: State, es: seq<Event>, t: nat, x: State) returns (fs: seq<Event>, y: State)
    requires Init(s) && x == Exec(Step, s, es) && x.created == 0 && x.global.sema.count == 1
    requires AtTheDoor(x, t)
    ensures OnlyBy(fs, t) && y == Exec(Step, x, fs) && Has(y, t) && y.threads[t].pc.Create?
    ensures Step(Step(y, Event(t, Go)), Event(t, Go)).id == SemaId(0)
    ensures Step(y, Event(t, Fail)).id.StaticId? && Step(y, Event(t, Fail)).created == 0
  {
    RunInv(s, es);
    fs, y := RetryIn(x, t);
  }

  lemma RetryIn(x: State, t: nat) returns (fs: seq<Event>, y: State)
    requires Inv(x) && x.created == 0 && x.global.sema.count == 1 && AtTheDoor(x, t)
    ensures OnlyBy(fs, t) && y == Exec(Step, x, fs) && Has(y, t) && y.threads[t].pc.Create?
    ensures Step(Step(y, Event(t, Go)), Event(t, Go)).id == SemaId(0)
    ensures Step(y, Event(t, Fail)).id.StaticId? && Step(y, Event(t, Fail)).created == 0
  {
    if x.threads[t].pc.Outside? {
      var use := Event(t, Use);
      StepKeepsInv(x, use);
      fs, y := ReachesCreation(Step(x, use), t);
      ExecCons(Step, x, use, fs);
      fs := [use] + fs;
    } else {
      fs, y := ReachesCreation(x, t);
    }
    CreationIsStored(y, t);
  }

  lemma CreationIsStored(y: State, t: nat)
    requires Inv(y) && Has(y, t) && y.threads[t].pc.Create? && y.created == 0
    ensures Step(Step(y, Event(t, Go)), Event(t, Go)).id == SemaId(0)
    ensures Step(y, Event(t, Fail)).id.StaticId? && Step(y, Event(t, Fail)).created == 0
  {
    assert UserOk(y.threads[t], y.global.threads[t], y.id, y.mark, y.created);
  }

  // ----- No user waits without need -----

  /** Accesses a first use has left, at most. */
  function ToOutside(u: User, mt: M.Thread): nat {
    match u.pc
    case Outside => 0
    case TestId => 28
    case TestMark => 27
    case Enter1 => 23 + MC.Left(mt.pc)
    case AgainId => 22
    case AgainMark => 21
    case Enter2 => 17 + MC.Left(mt.pc)
    case Create => 16
    case FailId => 14
    case WriteId(_) => 13
    case FailMark => 13
    case WriteMark => 12
    case Invalidate => 12
    case Leave2 => 6 + MC.Left(mt.pc)
    case Leave1 => MC.Left(mt.pc)
  }

  ghost predicate NearerOrWaiting(s: State, t: nat, s': State)
    requires Has(s, t)
  {
    && Has(s', t)
    && (ToOutside(s'.threads[t], s'.global.threads[t]) < ToOutside(s.threads[t], s.global.threads[t])
        || (s' == s && s.threads[t].pc.Enter1?
            && exists u :: 0 <= u < |s.global.threads| && u != t && M.Units(s.global.threads[u]) == 1))
  }

  lemma EnterAdvances(s: State, t: nat)
    requires Inv(s) && Has(s, t) && (s.threads[t].pc.Enter1? || s.threads[t].pc.Enter2?)
    ensures NearerOrWaiting(s, t, InGlobal(s, t))
  {
    assert UserOk(s.threads[t], s.global.threads[t], s.id, s.mark, s.created);
    MC.LockAdvances(s.global, t);
    if s.global.threads[t].pc.LockWait? && s.global.sema.count == 0 {
      var u := SumWitness(s.global.threads, M.Units);
      M.UnitsBound(s.global, u);
      assert M.Units(s.global.threads[t]) == 0;
    }
  }

  lemma LeaveAdvances(s: State, t: nat)
    requires Inv(s) && Has(s, t) && (s.threads[t].pc.Leave2? || s.threads[t].pc.Leave1?)
    ensures NearerOrWaiting(s, t, InGlobal(s, t))
  {
    assert UserOk(s.threads[t], s.global.threads[t], s.id, s.mark, s.created);
    MC.UnlockAdvances(s.global, t);
  }

  /** Every access of a first use brings it nearer to its end, except that it waits for the
      global lock while another thread has it; and a user that finds an id in place goes its
      way at once, the global lock untouched. */
  lemma Advances(s: State, t: nat)
    requires Inv(s) && Has(s, t) && !s.threads[t].pc.Outside?
    ensures NearerOrWaiting(s, t, Step(s, Event(t, Go)))
    ensures s.threads[t].pc.TestId? && s.id.SemaId? ==> Step(s, Event(t, Go)) == At(s, t, Outside)
  {
    assert UserOk(s.threads[t], s.global.threads[t], s.id, s.mark, s.created);
    var pc := s.threads[t].pc;
    if pc.Enter1? || pc.Enter2? {
      EnterAdvances(s, t);
    } else if pc.Leave2? || pc.Leave1? {
      LeaveAdvances(s, t);
    }
  }

  // ----- The object itself -----

  /** The fields of a mutex or rwlock that decide whether it is static, over the global lock. */
  class StaticObject {
    const global: M.PthreadMutex
    var id: Id
    var mark: bool
    var threads: seq<User>
    var created: nat

    ghost function Contents(): State
      reads this, global
    {
      State(global.Contents(), id, mark, threads, created)
    }

    constructor (n: nat)
      ensures fresh(global) && Init(Contents()) && |threads| == n
    {
      global := new M.PthreadMutex(M.Recursive, 0, n);
      id := StaticId;
      mark := true;
      threads := seq(n, _ => User(Outside, OK));
      created := 0;
    }

    method Goto(me: nat, pc: Pc)
      requires me < |threads|
      modifies this
      ensures Contents() == At(old(Contents()), me, pc)
    {
      threads := threads[me := threads[me].(pc := pc)];
    }

    method Enter(me: nat, pc: Pc)
      requires Has(Contents(), me)
      modifies this, global
      ensures Contents() == CallGlobal(old(Contents()), me, M.CallLock(false), pc)
    {
      global.Goto(me, M.LockTest(false));
      Goto(me, pc);
    }

    method Leave(me: nat, pc: Pc)
      requires Has(Contents(), me)
      modifies this, global
      ensures Contents() == CallGlobal(old(Contents()), me, M.CallUnlock, pc)
    {
      global.Goto(me, M.UnlockTest);
      Goto(me, pc);
    }

    method Continue(me: nat)
      requires Has(Contents(), me)
      modifies this, global
      ensures Contents() == InGlobal(old(Contents()), me)
    {
      if M.InLock(global.threads[me].pc) {
        global.Lock(me);
      } else if M.InUnlock(global.threads[me].pc) {
        global.Unlock(me);
      } else if M.InCeiling(global.threads[me].pc) {
        global.SetPrioCeiling(me);
      }
      if global.threads[me].pc.Ready? {
        match threads[me].pc
        case Enter1 => Goto(me, AgainId);
        case Enter2 => Goto(me, Create);
        case Leave2 => Leave(me, Leave1);
        case Leave1 => Goto(me, Outside);
        case _ =>
      }
    }

    /** pthread_mutex_init or pthread_rwlock_init, inside both locks. */
    method Initialise(me: nat, fails: bool)
      requires Has(Contents(), me)
      modifies this, global
      ensures Contents() == InitAccess(old(Contents()), me, fails)
    {
      match threads[me].pc
      case Create =>
        if fails {
          threads := threads[me := User(FailId, EINVAL)];
        } else {
          Goto(me, WriteId(created));
          created := created + 1;
        }
      case WriteId(n) =>
        id := SemaId(n);
        Goto(me, WriteMark);
      case WriteMark =>
        mark := false;
        Leave(me, Leave2);
      case FailId =>
        Goto(me, if id.StaticId? then FailMark else Invalidate);
      case FailMark =>
        if mark {
          Leave(me, Leave2);
        } else {
          Goto(me, Invalidate);
        }
      case Invalidate =>
        id := InvalidId;
        Leave(me, Leave2);
      case _ =>
    }

    /** The next access of init_static. */
    method Use(me: nat)
      requires Has(Contents(), me)
      modifies this, global
      ensures Contents() == Advance(old(Contents()), me)
    {
      match threads[me].pc
      case TestId => Goto(me, if id.StaticId? then TestMark else Outside);
      case TestMark =>
        if mark {
          Enter(me, Enter1);
        } else {
          Goto(me, Outside);
        }
      case AgainId =>
        if id.StaticId? {
          Goto(me, AgainMark);
        } else {
          Leave(me, Leave1);
        }
      case AgainMark =>
        if mark {
          Enter(me, Enter2);
        } else {
          Leave(me, Leave1);
        }
      case Enter1 => Continue(me);
      case Enter2 => Continue(me);
      case Leave2 => Continue(me);
      case Leave1 => Continue(me);
      case _ => Initialise(me, false);
    }

    method Perform(e: Event)
      modifies this, global
      ensures Contents() == Step(old(Contents()), e)
    {
      var me := e.tid;
      if !(me < |threads| && me < |global.threads|) {
        return;
      }
      if threads[me].pc.Outside? {
        if e.act.Use? {
          threads := threads[me := User(TestId, OK)];
        }
      } else if e.act.Go? {
        Use(me);
      } else if e.act.Fail? && threads[me].pc.Create? {
        Initialise(me, true);
      }
    }

    /** Any interleaving of any number of first users. */
    method Run(es: seq<Event>)
      modifies this, global
      ensures Contents() == Exec(Step, old(Contents()), es)
      ensures old(Init(Contents())) ==> CreatedOnce(Contents())
    {
      ghost var s := Contents();
      for i := 0 to |es|
        invariant Contents() == Exec(Step, s, es[..i])
      {
        Perform(es[i]);
        assert es[..i + 1][..i] == es[..i];
      }
      assert es[..|es|] == es;
      if Init(s) {
        FirstUsersCreateOne(s, es);
      }
    }
  }
}
