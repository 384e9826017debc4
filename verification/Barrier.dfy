/** The barrier: an arrival counter under a control semaphore, and a queue semaphore from
    which the waiting threads draw the units that the last arrival posts. */
module Barrier {
  import opened Kernel
  import opened Sums
  import opened Runs

  datatype Pc =
    | Ready
    | LockControl      // wait for control
    | Count            // count += 1
    | Test             // count < neededcount ?
    | UnlockFirst      // not last: release control ...
    | QueueWait        // ... and wait for a unit of the queue
    | Reset            // last: count := 0
    | Post(owed: nat)  // last: signal neededcount - 1 units
    | UnlockLast       // last: release control

  datatype Result = NotYet | Zero | Serial

  /** `returned` is history: how many of the thread's calls have returned. */
  datatype Thread = Thread(pc: Pc, result: Result, returned: nat)

  /** History: arrivals counted, rounds completed by a reset, calls that returned 0 and
      calls that returned PTHREAD_BARRIER_SERIAL_THREAD, and units refused by the queue. */
  datatype State = State(needed: nat, control: Sema, queue: Sema, count: nat, threads: seq<Thread>,
                         arrivals: nat, rounds: nat, zeros: nat, serials: nat, lost: nat)

  datatype Act = CallWait | Go

  datatype Event = Event(tid: nat, act: Act)

  function At(s: State, t: nat, pc: Pc): State
    requires t < |s.threads|
  {
    s.(threads := s.threads[t := s.threads[t].(pc := pc)])
  }

  function Return(s: State, t: nat, result: Result): State
    requires t < |s.threads|
  {
    s.(threads := s.threads[t := Thread(Ready, result, s.threads[t].returned + 1)])
  }

  function Advance(s: State, t: nat): State
    requires t < |s.threads|
  {
    match s.threads[t].pc
    case Ready => s
    case LockControl => if s.control.Has(1) then At(s.(control := s.control.Take(1)), t, Count) else s
    case Count => At(s.(count := s.count + 1, arrivals := s.arrivals + 1), t, Test)
    case Test => At(s, t, if s.count < s.needed then UnlockFirst else Reset)
    case UnlockFirst => At(s.(control := s.control.Signal(1)), t, QueueWait)
    case QueueWait =>
      if s.queue.Has(1) then Return(s.(queue := s.queue.Take(1), zeros := s.zeros + 1), t, Zero) else s
    case Reset =>
      At(s.(count := 0, rounds := s.rounds + 1), t, Post(if s.needed > 1 then s.needed - 1 else 0))
    case Post(owed) =>
      if s.queue.Fits(owed) then At(s.(queue := s.queue.Signal(owed)), t, UnlockLast)
      else At(s.(lost := s.lost + owed), t, UnlockLast)
    case UnlockLast => Return(s.(control := s.control.Signal(1), serials := s.serials + 1), t, Serial)
  }

  function Step(s: State, e: Event): State {
    var t := e.tid;
    if t >= |s.threads| then s
    else if s.threads[t].pc.Ready? then
      if e.act.CallWait? then At(s, t, LockControl) else s
    else if e.act.Go? then Advance(s, t)
    else s
  }

  /** A barrier for `needed` threads as initialised, with any number of threads using it. */
  ghost predicate Init(s: State) {
    && s.needed >= 1 && s.control == Sema(1, INT_MAX) && s.queue == Sema(0, s.needed) && s.count == 0
    && s.arrivals == s.rounds == s.zeros == s.serials == s.lost == 0
    && forall t :: 0 <= t < |s.threads| ==> s.threads[t] == Thread(Ready, NotYet, 0)
  }

  // ----- The invariant -----

  function Controls(th: Thread): int {
    if th.pc.Ready? || th.pc.LockControl? || th.pc.QueueWait? then 0 else 1
  }

  /** Inside and not last: waiting for a unit, or about to. */
  function Queued(th: Thread): int { if th.pc.UnlockFirst? || th.pc.QueueWait? then 1 else 0 }

  /** Counted, but not yet known to be last or not. */
  function Arriving(th: Thread): int { if th.pc.Test? || th.pc.Reset? then 1 else 0 }

  function Owed(th: Thread): int { if th.pc.Post? then th.pc.owed else 0 }

  /** Last of a round, not yet returned. */
  function Closing(th: Thread): int { if th.pc.Post? || th.pc.UnlockLast? then 1 else 0 }

  predicate ThreadInv(s: State, t: nat)
    requires t < |s.threads|
  {
    match s.threads[t].pc
    case Count => s.count < s.needed
    case Test => 1 <= s.count <= s.needed
    case UnlockFirst => s.count < s.needed
    case Reset => s.count == s.needed
    case Post(owed) => s.count == 0 && owed == s.needed - 1
    case UnlockLast => s.count == 0
    case _ => true
  }

  ghost predicate Inv(s: State) {
    && s.needed >= 1 && s.queue.max == s.needed && s.control.max == INT_MAX
    && s.control.count + Sum(s.threads, Controls) == 1
    && (s.control.count == 1 ==> s.count < s.needed)
    && Sum(s.threads, Queued) + Sum(s.threads, Arriving) == s.queue.count + s.count + Sum(s.threads, Owed) + s.lost
    && s.arrivals == s.needed * s.rounds + s.count
    && s.rounds == s.serials + Sum(s.threads, Closing)
    && s.zeros + s.queue.count + Sum(s.threads, Owed) + s.lost == (s.needed - 1) * s.rounds
    && forall t :: 0 <= t < |s.threads| ==> ThreadInv(s, t)
  }

  lemma InitInv(s: State)
    requires Init(s)
    ensures Inv(s)
  {
    SumBounds(s.threads, 0, 0, Controls);
    SumBounds(s.threads, 0, 0, Queued);
    SumBounds(s.threads, 0, 0, Arriving);
    SumBounds(s.threads, 0, 0, Owed);
    SumBounds(s.threads, 0, 0, Closing);
  }

  lemma ControlIsExclusive(s: State, t: nat, u: nat)
    requires Inv(s) && t < |s.threads| && u < |s.threads| && t != u
    ensures s.control.count + Controls(s.threads[t]) <= 1
    ensures Controls(s.threads[t]) + Controls(s.threads[u]) <= 1
  {
    SumAtLeastTwo(s.threads, if t < u then t else u, if t < u then u else t, Controls);
    SumAtLeast(s.threads, t, Controls);
  }

  ghost predicate MoverPre(s: State, t: nat) {
    && t < |s.threads| && ThreadInv(s, t)
    && s.needed >= 1 && s.queue.max == s.needed && s.control.max == INT_MAX
    && s.control.count + Controls(s.threads[t]) <= 1
    && (s.control.count == 1 ==> s.count < s.needed)
  }

  ghost predicate MoverPost(s: State, t: nat, s': State)
    requires t < |s.threads|
  {
    && |s'.threads| == |s.threads| && (forall u :: 0 <= u < |s.threads| && u != t ==> s'.threads[u] == s.threads[u])
    && ThreadInv(s', t)
    && s'.needed == s.needed && s'.queue.max == s.queue.max && s'.control.max == s.control.max
    && var th, th' := s.threads[t], s'.threads[t];
    && s'.control.count + Controls(th') == s.control.count + Controls(th)
    && (s'.control.count == 1 ==> s'.count < s.needed)
    && (s'.count == s.count || Controls(th) == 1)
    && Queued(th') + Arriving(th') - s'.queue.count - s'.count - Owed(th') - s'.lost
       == Queued(th) + Arriving(th) - s.queue.count - s.count - Owed(th) - s.lost
    && s.rounds <= s'.rounds <= s.rounds + 1
    && s'.arrivals - s'.count == s.arrivals - s.count + (if s'.rounds > s.rounds then s.needed else 0)
    && s'.rounds - s'.serials - Closing(th') == s.rounds - s.serials - Closing(th)
    && s'.zeros + s'.queue.count + Owed(th') + s'.lost
       == s.zeros + s.queue.count + Owed(th) + s.lost + (if s'.rounds > s.rounds then s.needed - 1 else 0)
  }

  lemma StepKeepsMover(s: State, e: Event)
    requires MoverPre(s, e.tid)
    ensures MoverPost(s, e.tid, Step(s, e))
  {
    var pc := s.threads[e.tid].pc;
    if pc.Reset? || pc.Post? || pc.UnlockLast? {
      CloseKeepsMover(s, e.tid);
    } else if !pc.Ready? {
      ArriveKeepsMover(s, e.tid);
    }
  }

  lemma ArriveKeepsMover(s: State, t: nat)
    requires MoverPre(s, t)
    requires var pc := s.threads[t].pc;
      pc.LockControl? || pc.Count? || pc.Test? || pc.UnlockFirst? || pc.QueueWait?
    ensures MoverPost(s, t, Advance(s, t))
  {
  }

  lemma CloseKeepsMover(s: State, t: nat)
    requires MoverPre(s, t)
    requires var pc := s.threads[t].pc; pc.Reset? || pc.Post? || pc.UnlockLast?
    ensures MoverPost(s, t, Advance(s, t))
  {
  }

  lemma NextRound(n: int, r: int)
    ensures n * (r + 1) == n * r + n
  {
  }

  lemma NumbersKept(s: State, t: nat, s': State)
    requires Inv(s) && t < |s.threads| && MoverPost(s, t, s')
    ensures s'.control.count + Sum(s'.threads, Controls) == 1
    ensures Sum(s'.threads, Queued) + Sum(s'.threads, Arriving)
         == s'.queue.count + s'.count + Sum(s'.threads, Owed) + s'.lost
    ensures s'.arrivals == s'.needed * s'.rounds + s'.count
    ensures s'.rounds == s'.serials + Sum(s'.threads, Closing)
    ensures s'.zeros + s'.queue.count + Sum(s'.threads, Owed) + s'.lost == (s'.needed - 1) * s'.rounds
  {
    var th' := s'.threads[t];
    assert s'.threads == s.threads[t := th'];
    SumUpdate(s.threads, t, th', Controls);
    SumUpdate(s.threads, t, th', Queued);
    SumUpdate(s.threads, t, th', Arriving);
    SumUpdate(s.threads, t, th', Owed);
    SumUpdate(s.threads, t, th', Closing);
    NextRound(s.needed, s.rounds);
    NextRound(s.needed - 1, s.rounds);
  }

  lemma StepKeepsInv(s: State, e: Event)
    requires Inv(s)
    ensures Inv(Step(s, e))
  {
    var s', t := Step(s, e), e.tid;
    if t < |s.threads| {
      SumAtLeast(s.threads, t, Controls);
      StepKeepsMover(s, e);
      NumbersKept(s, t, s');
      forall u | 0 <= u < |s.threads|
        ensures ThreadInv(s', u)
      {
        if u != t {
          ControlIsExclusive(s, t, u);
          assert ThreadInv(s, u);
        }
      }
    }
  }

  lemma RunInv(s: State, es: seq<Event>)
    requires Init(s)
    ensures Inv(Exec(Step, s, es))
    ensures |Exec(Step, s, es).threads| == |s.threads| && Exec(Step, s, es).needed == s.needed
  {
    InitInv(s);
    var inv := (x: State) => Inv(x) && |x.threads| == |s.threads| && x.needed == s.needed;
    forall x, e | inv(x) ensures inv(Step(x, e)) {
      StepKeepsInv(x, e);
      StepKeepsSize(x, e);
    }
    InvariantOfRuns(Step, inv, s, es);
  }

  lemma StepKeepsSize(s: State, e: Event)
    ensures |Step(s, e).threads| == |s.threads| && Step(s, e).needed == s.needed
  {
  }

  // ----- What the barrier promises -----

  /** Between control sections the threads waiting are exactly the units in the queue, the
      arrivals of the open round, and whatever the queue refused. */
  ghost predicate Conserved(s: State) {
    s.control.count == 1 ==>
      && Sum(s.threads, Queued) == s.queue.count + s.count + s.lost
      && s.count < s.needed
  }

  /** Of every `needed` arrivals at most `needed` calls have returned, one of them with
      the serial result. */
  ghost predicate ReturnsBounded(s: State) {
    && s.needed >= 1
    && s.zeros + s.serials <= s.needed * (s.arrivals / s.needed)
    && s.serials <= s.arrivals / s.needed
    && (s.control.count == 1 ==> s.serials == s.arrivals / s.needed)
  }

  lemma NoControllers(s: State)
    requires Inv(s) && s.control.count == 1
    ensures Sum(s.threads, Arriving) == Sum(s.threads, Owed) == Sum(s.threads, Closing) == 0
  {
    forall t | 0 <= t < |s.threads| ensures Controls(s.threads[t]) == 0 {
      SumAtLeast(s.threads, t, Controls);
    }
    SumBounds(s.threads, 0, 0, Arriving);
    SumBounds(s.threads, 0, 0, Owed);
    SumBounds(s.threads, 0, 0, Closing);
  }

  lemma ConservedIn(s: State)
    requires Inv(s)
    ensures Conserved(s)
  {
    if s.control.count == 1 {
      NoControllers(s);
    }
  }

  lemma MulMonotone(n: nat, a: int, b: int)
    requires a <= b
    ensures n * a <= n * b
  {
  }

  lemma RoundsOf(a: nat, n: nat, r: nat, c: nat)
    requires n >= 1 && a == n * r + c
    ensures r <= a / n && n * r <= n * (a / n)
    ensures c < n ==> a / n == r
  {
    var q := a / n;
    if r > q {
      MulMonotone(n, q + 1, r);
    }
    MulMonotone(n, r, q);
    if c < n && r < q {
      MulMonotone(n, r + 1, q);
    }
  }

  lemma ReturnsBoundedIn(s: State)
    requires Inv(s)
    ensures ReturnsBounded(s)
  {
    RoundsOf(s.arrivals, s.needed, s.rounds, s.count);
    SumNonNegative(s.threads, Owed);
    SumNonNegative(s.threads, Closing);
    assert (s.needed - 1) * s.rounds + s.rounds == s.needed * s.rounds;
    if s.control.count == 1 {
      NoControllers(s);
    }
  }

  lemma Conservation(s: State, es: seq<Event>)
    requires Init(s)
    ensures Conserved(Exec(Step, s, es)) && ReturnsBounded(Exec(Step, s, es))
  {
    RunInv(s, es);
    ConservedIn(Exec(Step, s, es));
    ReturnsBoundedIn(Exec(Step, s, es));
  }

  /** While no unit was refused, `needed` threads can never all be stuck inside: with that
      many waiting there is a unit for one of them. */
  lemma NeverAllStuck(s: State, es: seq<Event>, s': State)
    requires Init(s) && s' == Exec(Step, s, es) && s'.lost == 0
    requires s'.control.count == 1 && Sum(s'.threads, Queued) >= s'.needed
    ensures s'.queue.count >= 1
  {
    RunInv(s, es);
    ConservedIn(s');
  }

  /** Whoever holds control can move. */
  lemma ControllerMoves(s: State, t: nat)
    requires Inv(s) && t < |s.threads| && Controls(s.threads[t]) == 1
    ensures Step(s, Event(t, Go)).threads[t].pc != s.threads[t].pc
  {
    StepKeepsSize(s, Event(t, Go));
  }

  /** Accesses left, at most, until the holder of control gives it back. */
  function ControlLeft(pc: Pc): nat {
    match pc
    case Count => 5
    case Test => 4
    case Reset => 3
    case Post(_) => 2
    case UnlockFirst | UnlockLast => 1
    case _ => 0
  }

  ghost predicate Holding(x: State, t: nat) { Inv(x) && t < |x.threads| && Controls(x.threads[t]) == 1 }

  function Away(x: State, t: nat): int { if t < |x.threads| then ControlLeft(x.threads[t].pc) else 0 }

  /** The event at which t gives control back. */
  predicate Releases(x: State, e: Event, t: nat) {
    && e == Event(t, Go) && t < |x.threads| && Controls(x.threads[t]) == 1
    && var x' := Step(x, e); t < |x'.threads| && Controls(x'.threads[t]) == 0 && x'.control.count == 1
  }

  ghost predicate ReleasedAlong(x: State, es: seq<Event>, t: nat) {
    exists k :: 0 <= k < |es| && Releases(Exec(Step, x, es[..k]), es[k], t)
  }

  lemma HolderComesNearer(x: State, t: nat)
    requires Holding(x, t)
    ensures Holding(Step(x, Event(t, Go)), t) ==> Away(Step(x, Event(t, Go)), t) < Away(x, t)
    ensures !Holding(Step(x, Event(t, Go)), t) ==> Releases(x, Event(t, Go), t)
  {
    StepKeepsInv(x, Event(t, Go));
    StepKeepsSize(x, Event(t, Go));
    SumAtLeast(x.threads, t, Controls);
  }

  lemma HolderStays(x: State, e: Event, t: nat)
    requires Holding(x, t) && e != Event(t, Go)
    ensures Holding(Step(x, e), t) && Away(Step(x, e), t) == Away(x, t)
  {
    StepKeepsInv(x, e);
    StepKeepsSize(x, e);
  }

  /** Control always comes back: from any reachable state, whatever the other threads do, its
      holder gives it back within five accesses of its own. */
  lemma {:induction false} ControlIsGivenBack(s: State, es: seq<Event>, t: nat, s': State, fs: seq<Event>)
    requires Init(s) && s' == Exec(Step, s, es) && t < |s'.threads| && Controls(s'.threads[t]) == 1
    requires Occurrences(fs, Event(t, Go)) >= 5
    ensures ReleasedAlong(s', fs, t)
  {
    RunInv(s, es);
    GivenBackFrom(s', t, fs);
  }

  lemma GivenBackFrom(s: State, t: nat, fs: seq<Event>)
    requires Holding(s, t) && Occurrences(fs, Event(t, Go)) >= Away(s, t)
    ensures ReleasedAlong(s, fs, t)
  {
    var go := Event(t, Go);
    var holds, away := (x: State) => Holding(x, t), (x: State) => Away(x, t);
    forall x, f | holds(x) && f != go ensures holds(Step(x, f)) && away(Step(x, f)) == away(x) {
      HolderStays(x, f, t);
    }
    forall x | holds(x) && holds(Step(x, go)) ensures away(Step(x, go)) < away(x) {
      HolderComesNearer(x, t);
    }
    LeftInTime(Step, s, fs, go, holds, away);
    if k :| 0 <= k < |fs| && LeavesAt(Step, s, fs, go, holds, k) {
      HolderComesNearer(Exec(Step, s, fs[..k]), t);
      assert Releases(Exec(Step, s, fs[..k]), fs[k], t);
    }
  }

  // ----- When does the queue refuse units? -----

  lemma OnlyOneOwes(s: State, t: nat)
    requires Inv(s) && t < |s.threads| && s.threads[t].pc.Post?
    ensures Sum(s.threads, Owed) == s.needed - 1 && Sum(s.threads, Arriving) == 0
    ensures Sum(s.threads, Queued) <= |s.threads| - 1
  {
    forall u | 0 <= u < |s.threads| && u != t ensures Controls(s.threads[u]) == 0 {
      ControlIsExclusive(s, t, u);
    }
    var idle := Thread(Ready, NotYet, 0);
    var rest := s.threads[t := idle];
    SumUpdate(s.threads, t, idle, Owed);
    SumUpdate(s.threads, t, idle, Arriving);
    SumBounds(rest, 0, 0, Owed);
    SumBounds(rest, 0, 0, Arriving);
    var one := (th: Thread) => if th.pc.Post? then 0 else 1;
    SumUpdate(s.threads, t, idle, one);
    SumBounds(rest, 0, 1, one);
    SumMonotone(s.threads, Queued, one);
    assert ThreadInv(s, t);
  }

  lemma PostFits(s: State, e: Event)
    requires Inv(s) && s.lost == 0 && (|s.threads| <= s.needed + 1 || s.needed == 1)
    ensures Step(s, e).lost == 0
  {
    var t := e.tid;
    if t < |s.threads| && s.threads[t].pc.Post? {
      OnlyOneOwes(s, t);
      assert ThreadInv(s, t);
    }
  }

  /** With at most one thread more than the barrier needs, in particular with exactly its
      participants, the queue never refuses a unit. */
  lemma {:induction false} FewThreadsNeverOverflow(s: State, es: seq<Event>)
    requires Init(s) && (|s.threads| <= s.needed + 1 || s.needed == 1)
    ensures Exec(Step, s, es).lost == 0
  {
    if es != [] {
      var k := |es| - 1;
      FewThreadsNeverOverflow(s, es[..k]);
      RunInv(s, es[..k]);
      PostFits(Exec(Step, s, es[..k]), es[k]);
    }
  }

  /** So the participants of a barrier can never all be stuck inside it: whenever no one is
      in a control section and `needed` of them wait, one of them has a unit to take. */
  lemma ParticipantsNeverStuck(s: State, es: seq<Event>, s': State)
    requires Init(s) && |s.threads| <= s.needed + 1 && s' == Exec(Step, s, es)
    requires s'.control.count == 1 && Sum(s'.threads, Queued) >= s'.needed
    ensures s'.lost == 0 && s'.queue.count >= 1
  {
    FewThreadsNeverOverflow(s, es);
    NeverAllStuck(s, es, s');
  }

  // ----- When can nobody overtake? -----

  /** With fewer threads than the barrier needs no round is ever closed, and no call of any
      thread returns. */
  ghost predicate Starved(s: State) {
    && Inv(s) && |s.threads| < s.needed && s.rounds == 0
    && forall t :: 0 <= t < |s.threads| ==> s.threads[t].returned == 0
  }

  lemma TooFewToClose(s: State, t: nat)
    requires Starved(s) && t < |s.threads|
    ensures !s.threads[t].pc.Reset? && !s.threads[t].pc.UnlockLast? && s.queue.count == 0
  {
    SumNonNegative(s.threads, Owed);
    SumAtLeast(s.threads, t, Closing);
    var inside := (th: Thread) => Queued(th) + Arriving(th);
    SumOfSplit(s.threads, inside, Queued, Arriving);
    SumBounds(s.threads, 0, 1, inside);
    assert ThreadInv(s, t);
  }

  lemma StepKeepsStarved(s: State, e: Event)
    requires Starved(s)
    ensures Starved(Step(s, e))
  {
    StepKeepsInv(s, e);
    StepKeepsSize(s, e);
    if e.tid < |s.threads| {
      TooFewToClose(s, e.tid);
    }
  }

  lemma TooFewNeverReturn(s: State, es: seq<Event>)
    requires Init(s) && |s.threads| < s.needed
    ensures Starved(Exec(Step, s, es))
  {
    InitInv(s);
    forall x, e | Starved(x) ensures Starved(Step(x, e)) {
      StepKeepsStarved(x, e);
    }
    InvariantOfRuns(Step, Starved, s, es);
  }

  /** A barrier for one thread never makes anybody wait. */
  ghost predicate NobodyWaits(s: State) {
    && Inv(s) && s.needed == 1
    && forall t :: 0 <= t < |s.threads| ==> Queued(s.threads[t]) == 0 && s.threads[t].result != Zero
  }

  lemma OneNeverWaits(s: State, es: seq<Event>)
    requires Init(s) && s.needed == 1
    ensures NobodyWaits(Exec(Step, s, es))
  {
    InitInv(s);
    forall x, e | NobodyWaits(x) ensures NobodyWaits(Step(x, e)) {
      StepKeepsInv(x, e);
      StepKeepsSize(x, e);
      if e.tid < |x.threads| {
        assert ThreadInv(x, e.tid);
        assert Queued(x.threads[e.tid]) == 0;
      }
    }
    InvariantOfRuns(Step, NobodyWaits, s, es);
  }

  // ----- The object itself -----

  /** pthread_barrier_t and the threads using it. */
  class PthreadBarrier {
    const neededcount: nat
    var control: Sema
    var queue: Sema
    var count: nat
    var threads: seq<Thread>
    ghost var arrivals: nat
    ghost var rounds: nat
    ghost var zeros: nat
    ghost var serials: nat
    ghost var lost: nat

    ghost function Contents(): State
      reads this
    {
      State(neededcount, control, queue, count, threads, arrivals, rounds, zeros, serials, lost)
    }

    constructor (neededcount: nat, n: nat)
      requires neededcount >= 1
      ensures Init(Contents()) && this.neededcount == neededcount && |threads| == n
    {
      this.neededcount := neededcount;
      control, queue, count := Sema(1, INT_MAX), Sema(0, neededcount), 0;
      threads := seq(n, _ => Thread(Ready, NotYet, 0));
      arrivals, rounds, zeros, serials, lost := 0, 0, 0, 0, 0;
    }

    method Goto(me: nat, pc: Pc)
      requires me < |threads|
      modifies this`threads
      ensures Contents() == At(old(Contents()), me, pc)
    {
      threads := threads[me := threads[me].(pc := pc)];
    }

    method Finish(me: nat, result: Result)
      requires me < |threads|
      modifies this`threads
      ensures Contents() == Return(old(Contents()), me, result)
    {
      threads := threads[me := Thread(Ready, result, threads[me].returned + 1)];
    }

    method Wait(me: nat)
      requires me < |threads|
      modifies this
      ensures Contents() == Advance(old(Contents()), me)
    {
      match threads[me].pc
      case Ready =>
      case LockControl =>
        if control.Has(1) {
          control := control.Take(1);
          Goto(me, Count);
        }
      case Count =>
        count := count + 1;
        arrivals := arrivals + 1;
        Goto(me, Test);
      case Test =>
        Goto(me, if count < neededcount then UnlockFirst else Reset);
      case UnlockFirst =>
        control := control.Signal(1);
        Goto(me, QueueWait);
      case QueueWait =>
        if queue.Has(1) {
          queue := queue.Take(1);
          zeros := zeros + 1;
          Finish(me, Zero);
        }
      case Reset =>
        count := 0;
        rounds := rounds + 1;
        Goto(me, Post(if neededcount > 1 then neededcount - 1 else 0));
      case Post(owed) =>
        if queue.Fits(owed) {
          queue := queue.Signal(owed);
        } else {
          lost := lost + owed;
        }
        Goto(me, UnlockLast);
      case UnlockLast =>
        control := control.Signal(1);
        serials := serials + 1;
        Finish(me, Serial);
    }

    method Perform(e: Event)
      modifies this
      ensures Contents() == Step(old(Contents()), e)
    {
      var me := e.tid;
      if me < |threads| {
        if threads[me].pc.Ready? {
          if e.act.CallWait? {
            Goto(me, LockControl);
          }
        } else if e.act.Go? {
          Wait(me);
        }
      }
    }

    /** Any interleaving of any number of arrivals. */
    method Run(es: seq<Event>)
      modifies this
      ensures Contents() == Exec(Step, old(Contents()), es)
      ensures old(Init(Contents())) ==> Conserved(Contents()) && ReturnsBounded(Contents())
    {
      for i := 0 to |es|
        invariant Contents() == Exec(Step, old(Contents()), es[..i])
      {
        Perform(es[i]);
        assert es[..i + 1][..i] == es[..i];
      }
      assert es[..|es|] == es;
      if old(Init(Contents())) {
        Conservation(old(Contents()), es);
      }
    }
  }
}
