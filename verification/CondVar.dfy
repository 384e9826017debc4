/** The condition variable, composed with the mutex machine.

    A waiter counts itself in `NbWait` under the control semaphore, and a kernel callback
    then releases the mutex completely and gives the control semaphore back, before the
    waiter can leave its wait on `lock`.  A timed-out waiter uncounts itself later, racing
    with signallers.  On the way out the mutex is locked again to its old depth, by as many
    calls of the mutex's own lock as the callback made of its own unlock. */
module CondVar {
  import opened Kernel
  import opened Sums
  import M = Mutex

  datatype Pc =
    | Ready
    // wait: count oneself under control, then notify the callback
    | WControl | WCount | WNotify
    // the callback: read the depth, unlock depth times, release control, set inWAIT
    | CbRead | CbUnlock(i: nat) | CbControl | CbInWait
    // the wait itself, then clearing inWAIT
    | WWait | WAwake
    // after a time-out: uncount oneself under control
    | TControl | TCount | TRelease
    // the clean-up handler: lock depth times
    | Relock(i: nat)
    // signal
    | SRead | SControl | STest | SPost | SCount | SRelease
    // broadcast
    | BRead | BControl | BTest | BPost | BZero(posted: int) | BRelease

  /** Per thread: program counter, is the wait timed, the callback's copy of the recursion
      count, the return code so far, inWAIT, the result of the last call, and (as history)
      the depth at which the mutex was held when the wait was called. */
  datatype Thread = Thread(pc: Pc, timed: bool, recursivecount: int, returncode: Errno,
                           inWAIT: bool, result: Errno, entry: int)

  /** `timeouts` is history: how many waits have timed out so far. */
  datatype State = State(mutex: M.State, control: Sema, NbWait: int, lock: Sema,
                         threads: seq<Thread>, timeouts: nat)

  datatype Act = User(act: M.Act) | CallWait(timed: bool) | CallSignal | CallBroadcast | Go | TimeOut

  datatype Event = Event(tid: nat, act: Act)

  predicate Has(s: State, t: nat) { t < |s.threads| && t < |s.mutex.threads| }

  function Put(s: State, t: nat, th: Thread): State
    requires t < |s.threads|
  {
    s.(threads := s.threads[t := th])
  }

  function At(s: State, t: nat, pc: Pc): State
    requires t < |s.threads|
  {
    Put(s, t, s.threads[t].(pc := pc))
  }

  function Return(s: State, t: nat, result: Errno): State
    requires t < |s.threads|
  {
    Put(s, t, s.threads[t].(pc := Ready, result := result))
  }

  /** An idle thread may use the mutex (lawfully), or start a call when it is in no mutex
      function.  Waiting without holding the mutex is undefined. */
  function Start(s: State, t: nat, act: Act): State
    requires Has(s, t)
  {
    var free := s.mutex.threads[t].pc.Ready?;
    match act
    case User(a) => s.(mutex := M.LawfulStep(s.mutex, M.Event(t, a)))
    case CallWait(timed) =>
      if free && M.Depth(s.mutex.threads[t]) > 0 then
        Put(s, t, s.threads[t].(pc := WControl, timed := timed, recursivecount := 0, returncode := OK,
                                entry := M.Depth(s.mutex.threads[t])))
      else s
    case CallSignal => if free then At(s, t, SRead) else s
    case CallBroadcast => if free then At(s, t, BRead) else s
    case _ => s
  }

  /** The callback: for i from 0 to recursivecount, one unlock call each. */
  function CallbackAccess(s: State, t: nat): State
    requires Has(s, t) && InCallback(s.threads[t].pc)
  {
    var th := s.threads[t];
    match th.pc
    case CbRead => Put(s, t, th.(pc := CbUnlock(0), recursivecount := s.mutex.recursivecount))
    case CbUnlock(i) =>
      if !s.mutex.threads[t].pc.Ready? then
        var m := M.Advance(s.mutex, t);
        At(s.(mutex := m), t, if m.threads[t].pc.Ready? then CbUnlock(i + 1) else CbUnlock(i))
      else if i <= th.recursivecount then s.(mutex := M.Start(s.mutex, t, M.CallUnlock))
      else At(s, t, CbControl)
    case CbControl => At(s.(control := s.control.Signal(1)), t, CbInWait)
    case CbInWait => Put(s, t, th.(pc := WWait, inWAIT := true))
  }

  /** The clean-up handler: for i from 0 to recursivecount, one lock call each. */
  function RelockAccess(s: State, t: nat): State
    requires Has(s, t) && s.threads[t].pc.Relock?
  {
    var th, i := s.threads[t], s.threads[t].pc.i;
    if !s.mutex.threads[t].pc.Ready? then
      var m := M.Advance(s.mutex, t);
      if m.threads[t].pc.Ready? then
        var r := m.threads[t].result;
        Put(s.(mutex := m), t, th.(pc := Relock(i + 1), returncode := if !r.OK? then r else th.returncode))
      else s.(mutex := m)
    else if i <= th.recursivecount then s.(mutex := M.Start(s.mutex, t, M.CallLock(false)))
    else Return(s, t, th.returncode)
  }

  function WaitAccess(s: State, t: nat): State
    requires Has(s, t) && InWait(s.threads[t].pc)
  {
    var th := s.threads[t];
    match th.pc
    case WControl => if s.control.Has(1) then At(s.(control := s.control.Take(1)), t, WCount) else s
    case WCount => At(s.(NbWait := s.NbWait + 1), t, WNotify)
    case WNotify => At(s, t, CbRead)
    case WWait => if s.lock.Has(1) then At(s.(lock := s.lock.Take(1)), t, WAwake) else s
    case WAwake => Put(s, t, th.(pc := if th.returncode.ETIMEDOUT? then TControl else Relock(0), inWAIT := false))
    case TControl => if s.control.Has(1) then At(s.(control := s.control.Take(1)), t, TCount) else s
    case TCount => At(s.(NbWait := s.NbWait - 1), t, TRelease)
    case TRelease => At(s.(control := s.control.Signal(1)), t, Relock(0))
  }

  /** The wait on `lock` gives up with no unit taken. */
  function Expire(s: State, t: nat): State
    requires Has(s, t)
  {
    Put(s.(timeouts := s.timeouts + 1), t, s.threads[t].(pc := WAwake, returncode := ETIMEDOUT))
  }

  function SignalAccess(s: State, t: nat): State
    requires Has(s, t) && InSignal(s.threads[t].pc)
  {
    match s.threads[t].pc
    case SRead => if s.NbWait == 0 then Return(s, t, OK) else At(s, t, SControl)
    case SControl => if s.control.Has(1) then At(s.(control := s.control.Take(1)), t, STest) else s
    case STest => At(s, t, if s.NbWait > 0 then SPost else SRelease)
    case SPost => At(s.(lock := s.lock.Signal(1)), t, SCount)
    case SCount => At(s.(NbWait := s.NbWait - 1), t, SRelease)
    case SRelease => Return(s.(control := s.control.Signal(1)), t, OK)
  }

  function BroadcastAccess(s: State, t: nat): State
    requires Has(s, t) && InBroadcast(s.threads[t].pc)
  {
    match s.threads[t].pc
    case BRead => if s.NbWait == 0 then Return(s, t, OK) else At(s, t, BControl)
    case BControl => if s.control.Has(1) then At(s.(control := s.control.Take(1)), t, BTest) else s
    case BTest => At(s, t, if s.NbWait > 0 then BPost else BRelease)
    case BPost =>
      At(s.(lock := if s.NbWait >= 0 then s.lock.Signal(s.NbWait) else s.lock), t, BZero(s.NbWait))
    case BZero(_) => At(s.(NbWait := 0), t, BRelease)
    case BRelease => Return(s.(control := s.control.Signal(1)), t, OK)
  }

  predicate InWait(pc: Pc) {
    pc.WControl? || pc.WCount? || pc.WNotify? || pc.WWait? || pc.WAwake?
    || pc.TControl? || pc.TCount? || pc.TRelease?
  }

  predicate InCallback(pc: Pc) { pc.CbRead? || pc.CbUnlock? || pc.CbControl? || pc.CbInWait? }

  predicate InSignal(pc: Pc) {
    pc.SRead? || pc.SControl? || pc.STest? || pc.SPost? || pc.SCount? || pc.SRelease?
  }

  predicate InBroadcast(pc: Pc) {
    pc.BRead? || pc.BControl? || pc.BTest? || pc.BPost? || pc.BZero? || pc.BRelease?
  }

  function Advance(s: State, t: nat): State
    requires Has(s, t)
  {
    var pc := s.threads[t].pc;
    if InWait(pc) then WaitAccess(s, t)
    else if InCallback(pc) then CallbackAccess(s, t)
    else if pc.Relock? then RelockAccess(s, t)
    else if InSignal(pc) then SignalAccess(s, t)
    else if InBroadcast(pc) then BroadcastAccess(s, t)
    else s
  }

  function Step(s: State, e: Event): State {
    var t := e.tid;
    if !Has(s, t) then s
    else if s.threads[t].pc.Ready? then Start(s, t, e.act)
    else if e.act.Go? then Advance(s, t)
    else if e.act.TimeOut? && s.threads[t].pc.WWait? && s.threads[t].timed then Expire(s, t)
    else s
  }

  /** A condition variable and a mutex as initialised, with n threads. */
  ghost predicate Init(s: State) {
    && M.Init(s.mutex) && |s.mutex.threads| == |s.threads| <= INT_MAX
    && s.control == Sema(1, 1) && s.NbWait == 0 && s.lock == Sema(0, INT_MAX) && s.timeouts == 0
    && forall t :: 0 <= t < |s.threads| ==> s.threads[t] == Thread(Ready, false, 0, OK, false, OK, 0)
  }

  // ----- The quantities the invariant balances -----

  /** Holds the control semaphore. */
  function Controls(th: Thread): int {
    match th.pc
    case WCount => 1 case WNotify => 1 case CbRead => 1 case CbUnlock(_) => 1 case CbControl => 1
    case TCount => 1 case TRelease => 1
    case STest => 1 case SPost => 1 case SCount => 1 case SRelease => 1
    case BTest => 1 case BPost => 1 case BZero(_) => 1 case BRelease => 1
    case _ => 0
  }

  /** Counted in NbWait and not yet woken or timed out. */
  function Waiting(th: Thread): int {
    if th.pc.WNotify? || InCallback(th.pc) || th.pc.WWait? then 1 else 0
  }

  /** Timed out and not yet uncounted. */
  function Expired(th: Thread): int {
    if th.returncode.ETIMEDOUT? && (th.pc.WAwake? || th.pc.TControl? || th.pc.TCount?) then 1 else 0
  }

  /** Posted by a signaller or broadcaster that has not yet subtracted it from NbWait. */
  function Posted(th: Thread): int {
    match th.pc
    case SCount => 1
    case BZero(v) => if v > 0 then v else 0
    case _ => 0
  }

  /** A wait that was called at a depth the mutex's kind allows. */
  predicate Waiter(th: Thread, kind: M.Kind) {
    && th.entry >= 1 && (!kind.Recursive? ==> th.entry == 1)
    && (th.returncode.OK? || (th.returncode.ETIMEDOUT? && th.timed))
  }

  /** What is known of one thread, from its record, its record in the mutex and NbWait. */
  predicate ThreadOk(th: Thread, mt: M.Thread, nbWait: int, kind: M.Kind) {
    && (th.inWAIT <==> th.pc.WWait? || th.pc.WAwake?)
    && match th.pc
       case Ready => true
       case WControl | WCount | WNotify | CbRead =>
         Waiter(th, kind) && th.returncode.OK? && mt.pc.Ready? && M.Gross(mt) == th.entry
       case CbUnlock(i) =>
         && Waiter(th, kind) && th.returncode.OK? && th.recursivecount == th.entry - 1
         && i <= th.entry && M.Gross(mt) == th.entry - i
         && (mt.pc.Ready? || (M.InUnlock(mt.pc) && i < th.entry))
       case CbControl | CbInWait | WWait =>
         && Waiter(th, kind) && th.returncode.OK? && th.recursivecount == th.entry - 1
         && mt.pc.Ready? && M.Gross(mt) == 0
       case WAwake =>
         Waiter(th, kind) && th.recursivecount == th.entry - 1 && mt.pc.Ready? && M.Gross(mt) == 0
       case TControl | TCount | TRelease =>
         && Waiter(th, kind) && th.returncode.ETIMEDOUT? && th.recursivecount == th.entry - 1
         && mt.pc.Ready? && M.Gross(mt) == 0
       case Relock(i) =>
         && Waiter(th, kind) && th.recursivecount == th.entry - 1
         && i <= th.entry && M.Gross(mt) == i
         && (mt.pc.Ready? || (M.InUntimedLock(mt.pc) && i < th.entry))
       case SPost | SCount | BPost => mt.pc.Ready? && nbWait > 0
       case BZero(posted) => mt.pc.Ready? && posted == nbWait > 0
       case _ => mt.pc.Ready?
  }

  predicate ThreadInv(s: State, t: nat)
    requires Has(s, t)
  {
    ThreadOk(s.threads[t], s.mutex.threads[t], s.NbWait, s.mutex.kind)
  }

  ghost predicate Balanced(s: State) {
    && s.NbWait + s.lock.count == Sum(s.threads, Waiting) + Sum(s.threads, Expired) + Sum(s.threads, Posted)
    && Sum(s.threads, Expired) <= s.timeouts
    && Sum(s.threads, Posted) <= s.NbWait + (s.timeouts - Sum(s.threads, Expired))
  }

  ghost predicate Inv(s: State) {
    && |s.mutex.threads| == |s.threads| <= INT_MAX
    && M.Inv(s.mutex)
    && s.control.max == 1 && s.control.count + Sum(s.threads, Controls) == 1
    && s.lock.max == INT_MAX && s.lock.count <= |s.threads| && s.NbWait <= |s.threads|
    && Balanced(s)
    && forall t :: 0 <= t < |s.threads| ==> ThreadInv(s, t)
  }

  lemma InitInv(s: State)
    requires Init(s)
    ensures Inv(s)
  {
    M.InitInv(s.mutex);
    SumBounds(s.threads, 0, 0, Controls);
    SumBounds(s.threads, 0, 0, Waiting);
    SumBounds(s.threads, 0, 0, Expired);
    SumBounds(s.threads, 0, 0, Posted);
  }
}
