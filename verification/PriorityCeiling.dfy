/** Priority ceilings: how a thread's running priority follows the PRIO_PROTECT mutexes it
    locks.  A smaller number is a higher priority.  The thread keeps, per ceiling, an
    unsigned char counting its mutexes of that ceiling; lock counts before it waits,
    unlock uncounts and scans for the highest priority still due, and trylock does
    neither.  Only the thread itself touches these fields. */
module PriorityCeiling {
  import opened Kernel
  import opened Runs

  const PRIORITIES: nat := 128
  const UCHAR_RANGE: nat := 256

  type Counts = c: seq<nat> | |c| == PRIORITIES && forall i :: 0 <= i < |c| ==> c[i] < UCHAR_RANGE
    witness seq(PRIORITIES, _ => 0)

  type Tally = c: seq<nat> | |c| == PRIORITIES witness seq(PRIORITIES, _ => 0)

  /** `priority` is the base, `current` the running priority, `awaiting` the ceiling a lock
      call in progress waits for.  History, per ceiling: mutexes held, lock calls that
      timed out after being counted, and trylock calls that succeeded uncounted. */
  datatype State = State(priority: nat, priomutex: Counts, current: nat, awaiting: Option<nat>,
                         held: Tally, expired: Tally, tried: Tally)

  /** Request, then Acquire or Expire, is a lock call on a mutex of ceiling c. */
  datatype Event = Request(c: nat) | Acquire | Expire | TryLock(c: nat) | Unlock(c: nat)

  function Bump(counts: Tally, c: nat): Tally
    requires c < PRIORITIES
  {
    counts[c := counts[c] + 1]
  }

  /** lock, up to its wait on the semaphore. */
  function RaiseForLock(s: State, c: nat): State
    requires c < PRIORITIES
  {
    s.(priomutex := s.priomutex[c := (s.priomutex[c] + 1) % UCHAR_RANGE],
       current := if c < s.current then c else s.current)
  }

  /** The scan of unlock from priority i on: the first priority that is the base or has a
      mutex counted; `current` stays as it is if there is none. */
  function Scan(counts: Counts, priority: nat, current: nat, i: nat): nat
    requires i <= PRIORITIES
    decreases PRIORITIES - i
  {
    if i == PRIORITIES then current
    else if i == priority || counts[i] > 0 then i
    else Scan(counts, priority, current, i + 1)
  }

  /** unlock, after its signal. */
  function DropForUnlock(s: State, c: nat): State
    requires c < PRIORITIES
  {
    var counts := s.priomutex[c := (s.priomutex[c] + UCHAR_RANGE - 1) % UCHAR_RANGE];
    s.(priomutex := counts, current := Scan(counts, s.priority, s.current, 0))
  }

  /** A thread locks one mutex at a time and unlocks only what it holds. */
  function Step(s: State, e: Event): State {
    match e
    case Request(c) =>
      if c < PRIORITIES && s.awaiting == None then RaiseForLock(s, c).(awaiting := Some(c)) else s
    case Acquire =>
      if s.awaiting.Some? && s.awaiting.value < PRIORITIES then
        s.(awaiting := None, held := Bump(s.held, s.awaiting.value))
      else s
    case Expire =>
      if s.awaiting.Some? && s.awaiting.value < PRIORITIES then
        s.(awaiting := None, expired := Bump(s.expired, s.awaiting.value))
      else s
    case TryLock(c) =>
      if c < PRIORITIES && s.awaiting == None then s.(held := Bump(s.held, c), tried := Bump(s.tried, c)) else s
    case Unlock(c) =>
      if c < PRIORITIES && s.awaiting == None && s.held[c] > 0 then
        DropForUnlock(s, c).(held := s.held[c := s.held[c] - 1])
      else s
  }

  ghost predicate Init(s: State) {
    && s.current == s.priority && s.awaiting == None
    && s.priomutex == s.held == s.expired == s.tried == seq(PRIORITIES, _ => 0)
  }

  // ----- What the counters count -----

  /** Mutexes of ceiling c that the thread holds or awaits. */
  function Engaged(s: State, c: nat): nat
    requires c < PRIORITIES
  {
    s.held[c] + (if s.awaiting == Some(c) then 1 else 0)
  }

  /** In every run: the counter is what is held or awaited, plus every time-out, minus
      every trylock, modulo 256. */
  ghost predicate Counted(s: State) {
    && (s.awaiting.Some? ==> s.awaiting.value < PRIORITIES)
    && forall c :: 0 <= c < PRIORITIES ==>
      s.priomutex[c] == Expected(s, c) % UCHAR_RANGE
  }

  /** What one ceiling's counter should read, before it wraps. */
  function Expected(s: State, c: nat): int
    requires c < PRIORITIES
  {
    Engaged(s, c) + s.expired[c] - s.tried[c]
  }

  lemma RemainderIs(x: int, q: int, r: int)
    requires x == q * UCHAR_RANGE + r && 0 <= r < UCHAR_RANGE
    ensures x % UCHAR_RANGE == r
  {
    var q', r' := x / UCHAR_RANGE, x % UCHAR_RANGE;
    assert (q - q') * UCHAR_RANGE == r' - r;
  }

  lemma WrapUp(x: int)
    ensures (x % UCHAR_RANGE + 1) % UCHAR_RANGE == (x + 1) % UCHAR_RANGE
    ensures (x % UCHAR_RANGE + UCHAR_RANGE - 1) % UCHAR_RANGE == (x - 1) % UCHAR_RANGE
  {
    var q, r := x / UCHAR_RANGE, x % UCHAR_RANGE;
    if r == UCHAR_RANGE - 1 {
      RemainderIs(x + 1, q + 1, 0);
    } else {
      RemainderIs(x + 1, q, r + 1);
    }
    if r == 0 {
      RemainderIs(x - 1, q - 1, UCHAR_RANGE - 1);
    } else {
      RemainderIs(x - 1, q, r - 1);
    }
  }

  /** Only a lock call's request and an unlock move what is expected, by one. */
  lemma ExpectedMoves(s: State, e: Event, c: nat)
    requires c < PRIORITIES && (s.awaiting.Some? ==> s.awaiting.value < PRIORITIES)
    ensures var s' := Step(s, e);
      || (s'.priomutex[c] == s.priomutex[c] && Expected(s', c) == Expected(s, c))
      || (s'.priomutex[c] == (s.priomutex[c] + 1) % UCHAR_RANGE && Expected(s', c) == Expected(s, c) + 1)
      || (s'.priomutex[c] == (s.priomutex[c] + UCHAR_RANGE - 1) % UCHAR_RANGE && Expected(s', c) == Expected(s, c) - 1)
    ensures Step(s, e).awaiting.Some? ==> Step(s, e).awaiting.value < PRIORITIES
  {
  }

  lemma StepKeepsCounted(s: State, e: Event)
    requires Counted(s)
    ensures Counted(Step(s, e))
  {
    var s' := Step(s, e);
    ExpectedMoves(s, e, 0);
    forall c | 0 <= c < PRIORITIES
      ensures s'.priomutex[c] == Expected(s', c) % UCHAR_RANGE
    {
      ExpectedMoves(s, e, c);
      WrapUp(Expected(s, c));
    }
  }

  lemma {:induction false} CountersInEveryRun(s: State, es: seq<Event>)
    requires Init(s)
    ensures Counted(Exec(Step, s, es))
  {
    forall x, e | Counted(x) ensures Counted(Step(x, e)) {
      StepKeepsCounted(x, e);
    }
    InvariantOfRuns(Step, Counted, s, es);
  }

  /** So, with fewer than 256 mutexes of ceiling c, the counter is right exactly when
      time-outs and successful trylocks at that ceiling cancel out modulo 256. */
  lemma CounterIsRightIff(s: State, es: seq<Event>, c: nat, s': State)
    requires Init(s) && s' == Exec(Step, s, es) && c < PRIORITIES && Engaged(s', c) < UCHAR_RANGE
    ensures s'.priomutex[c] == Engaged(s', c) <==> (s'.expired[c] - s'.tried[c]) % UCHAR_RANGE == 0
  {
    CountersInEveryRun(s, es);
    CounterIsRightIn(s', c);
  }

  lemma CounterIsRightIn(s: State, c: nat)
    requires Counted(s) && c < PRIORITIES && Engaged(s, c) < UCHAR_RANGE
    ensures s.priomutex[c] == Engaged(s, c) <==> (s.expired[c] - s.tried[c]) % UCHAR_RANGE == 0
  {
    var d: int := s.expired[c] as int - s.tried[c] as int;
    SameResidue(Engaged(s, c), d);
  }

  lemma SameResidue(n: nat, d: int)
    requires n < UCHAR_RANGE
    ensures (n + d) % UCHAR_RANGE == n <==> d % UCHAR_RANGE == 0
  {
    if d % UCHAR_RANGE == 0 {
      RemainderIs(n + d, d / UCHAR_RANGE, n);
    }
    if (n + d) % UCHAR_RANGE == n {
      RemainderIs(d, (n + d) / UCHAR_RANGE, 0);
    }
  }

  // ----- What the scan finds -----

  /** p is the highest of the base priority and the ceilings with a positive count. */
  ghost predicate IsHighest(p: nat, priority: nat, counts: seq<nat>)
    requires |counts| == PRIORITIES
  {
    && (p == priority || (p < PRIORITIES && counts[p] > 0))
    && p <= priority
    && forall i :: 0 <= i < p && i < PRIORITIES ==> counts[i] == 0
  }

  lemma {:induction false} ScanFindsHighest(counts: Counts, priority: nat, current: nat, i: nat)
    requires i <= priority < PRIORITIES && forall j :: 0 <= j < i ==> counts[j] == 0
    ensures IsHighest(Scan(counts, priority, current, i), priority, counts)
    decreases PRIORITIES - i
  {
    if i == priority || counts[i] > 0 {
    } else {
      ScanFindsHighest(counts, priority, current, i + 1);
    }
  }

  /** The scan with a base it never meets. */
  lemma {:induction false} ScanBelowBase(counts: Counts, priority: nat, current: nat, i: nat)
    requires i <= PRIORITIES <= priority && forall j :: 0 <= j < i ==> counts[j] == 0
    ensures var p := Scan(counts, priority, current, i);
      if exists j :: 0 <= j < PRIORITIES && counts[j] > 0 then
        p < PRIORITIES && counts[p] > 0 && forall j :: 0 <= j < p ==> counts[j] == 0
      else p == current
    decreases PRIORITIES - i
  {
    if i < PRIORITIES && counts[i] == 0 {
      ScanBelowBase(counts, priority, current, i + 1);
    }
  }

  // ----- The rule of the standard -----

  /** Events under which the rule is promised: lock calls that succeed, and unlocks. */
  predicate Plain(e: Event) { e.Request? || e.Acquire? || e.Unlock? }

  function Engagements(s: State): Tally {
    seq(PRIORITIES, c requires 0 <= c < PRIORITIES => Engaged(s, c))
  }

  /** The thread runs at the highest of its base priority and the ceilings of the mutexes
      it holds or awaits. */
  ghost predicate RunsAtCeiling(s: State) {
    IsHighest(s.current, s.priority, Engagements(s))
  }

  /** Fewer mutexes of each ceiling than an unsigned char can count. */
  predicate Few(s: State) {
    forall c :: 0 <= c < PRIORITIES ==> Engaged(s, c) < UCHAR_RANGE
  }

  ghost predicate PlainInv(s: State) {
    && s.priority < PRIORITIES && (s.awaiting.Some? ==> s.awaiting.value < PRIORITIES)
    && (forall c :: 0 <= c < PRIORITIES ==> s.priomutex[c] == Engaged(s, c))
    && IsHighest(s.current, s.priority, s.priomutex)
  }

  lemma PlainRequest(s: State, c: nat)
    requires PlainInv(s) && Few(Step(s, Request(c)))
    ensures PlainInv(Step(s, Request(c)))
  {
    if c < PRIORITIES && s.awaiting == None {
      assert Engaged(Step(s, Request(c)), c) == Engaged(s, c) + 1;
    }
  }

  lemma PlainUnlock(s: State, c: nat)
    requires PlainInv(s)
    ensures PlainInv(Step(s, Unlock(c)))
  {
    if c < PRIORITIES && s.awaiting == None && s.held[c] > 0 {
      ScanFindsHighest(DropForUnlock(s, c).priomutex, s.priority, s.current, 0);
      assert Engaged(s, c) == s.held[c];
    }
  }

  lemma PlainStep(s: State, e: Event)
    requires PlainInv(s) && Plain(e) && Few(Step(s, e))
    ensures PlainInv(Step(s, e))
  {
    match e
    case Request(c) => PlainRequest(s, c);
    case Unlock(c) => PlainUnlock(s, c);
    case _ =>
  }

  /** In every run of successful untimed locks and unlocks, from a base priority the scan
      covers and with fewer than 256 mutexes per ceiling, every counter is the number of
      mutexes held or awaited, and the running priority is the one the standard sets. */
  lemma {:induction false} CeilingRuleHolds(s: State, es: seq<Event>)
    requires Init(s) && s.priority < PRIORITIES
    requires forall i :: 0 <= i < |es| ==> Plain(es[i])
    requires forall k :: 0 <= k <= |es| ==> Few(Exec(Step, s, es[..k]))
    ensures PlainInv(Exec(Step, s, es)) && RunsAtCeiling(Exec(Step, s, es))
  {
    if es != [] {
      var k := |es| - 1;
      forall j | 0 <= j <= k ensures Few(Exec(Step, s, es[..k][..j])) {
        assert es[..k][..j] == es[..j];
      }
      CeilingRuleHolds(s, es[..k]);
      assert es[..|es|] == es;
      assert Few(Exec(Step, s, es[..|es|]));
      PlainStep(Exec(Step, s, es[..k]), es[k]);
    }
    var s' := Exec(Step, s, es);
    assert Engagements(s') == s'.priomutex;
  }

  // ----- When the rule holds, exactly -----

  /** Every ceiling above the base that `a` shows has one at least as high that `b` shows. */
  ghost predicate Covers(priority: nat, a: seq<nat>, b: seq<nat>)
    requires |a| == |b| == PRIORITIES
  {
    forall c :: 0 <= c < PRIORITIES && c < priority && a[c] > 0 ==> exists d :: 0 <= d <= c && b[d] > 0
  }

  /** Two tallies have the same highest priority exactly if each covers the other. */
  lemma SameHighest(p: nat, priority: nat, a: seq<nat>, b: seq<nat>)
    requires |a| == |b| == PRIORITIES && IsHighest(p, priority, a)
    ensures IsHighest(p, priority, b) <==> Covers(priority, a, b) && Covers(priority, b, a)
  {
    if IsHighest(p, priority, b) {
      forall c | 0 <= c < PRIORITIES && c < priority && (a[c] > 0 || b[c] > 0)
        ensures exists d :: 0 <= d <= c && b[d] > 0
        ensures exists d :: 0 <= d <= c && a[d] > 0
      {
        assert p <= c && a[p] > 0 && b[p] > 0;
      }
    } else if Covers(priority, a, b) && Covers(priority, b, a) {
      HighestCovered(p, priority, a, b);
    }
  }

  lemma HighestCovered(p: nat, priority: nat, a: seq<nat>, b: seq<nat>)
    requires |a| == |b| == PRIORITIES && IsHighest(p, priority, a)
    ensures Covers(priority, a, b) && Covers(priority, b, a) ==> IsHighest(p, priority, b)
  {
    if !(Covers(priority, a, b) && Covers(priority, b, a)) {
      return;
    }
    forall i | 0 <= i < p && i < PRIORITIES ensures b[i] == 0 {
      if b[i] > 0 {
        assert false;
      }
    }
    if p != priority {
      var d :| 0 <= d <= p && b[d] > 0;
      assert d == p;
    }
  }

  /** What the counters show, from history alone. */
  function Shown(s: State): Tally {
    seq(PRIORITIES, c requires 0 <= c < PRIORITIES => Expected(s, c) % UCHAR_RANGE)
  }

  /** What the thread has been raised for, folded from its calls: a lock call adds its
      ceiling; an unlock that finds a priority to run at, the base or a ceiling with a
      counter that shows, starts afresh from what shows; any other unlock changes nothing. */
  ghost function RaisedAfter(raised: Tally, s: State, e: Event): Tally {
    match e
    case Request(c) => if c < PRIORITIES && s.awaiting == None then Bump(raised, c) else raised
    case Unlock(c) => if CanUnlock(s, c) && Finds(Step(s, e)) then Shown(Step(s, e)) else raised
    case _ => raised
  }

  predicate CanUnlock(s: State, c: nat) { c < PRIORITIES && s.awaiting == None && s.held[c] > 0 }

  ghost predicate Finds(s: State) {
    s.priority < PRIORITIES || exists c :: 0 <= c < PRIORITIES && Shown(s)[c] > 0
  }

  ghost function Raised(s: State, es: seq<Event>): Tally {
    if es == [] then seq(PRIORITIES, _ => 0) else
      var k := |es| - 1;
      RaisedAfter(Raised(s, es[..k]), Exec(Step, s, es[..k]), es[k])
  }

  lemma UnlockKeepsRaised(s: State, c: nat, raised: Tally)
    requires Counted(s) && IsHighest(s.current, s.priority, raised) && CanUnlock(s, c)
    ensures IsHighest(Step(s, Unlock(c)).current, s.priority, RaisedAfter(raised, s, Unlock(c)))
  {
    var s' := Step(s, Unlock(c));
    StepKeepsCounted(s, Unlock(c));
    assert Shown(s') == s'.priomutex;
    if s.priority < PRIORITIES {
      ScanFindsHighest(s'.priomutex, s.priority, s.current, 0);
    } else {
      ScanBelowBase(s'.priomutex, s.priority, s.current, 0);
    }
  }

  lemma StepKeepsRaised(s: State, e: Event, raised: Tally)
    requires Counted(s) && IsHighest(s.current, s.priority, raised)
    ensures Step(s, e).priority == s.priority
    ensures IsHighest(Step(s, e).current, s.priority, RaisedAfter(raised, s, e))
  {
    if e.Unlock? && CanUnlock(s, e.c) {
      UnlockKeepsRaised(s, e.c, raised);
    }
  }

  /** In every run the thread runs at the highest of its base and what it was raised for. */
  lemma {:induction false} RunsAtRaised(s: State, es: seq<Event>)
    requires Init(s)
    ensures Exec(Step, s, es).priority == s.priority
    ensures IsHighest(Exec(Step, s, es).current, s.priority, Raised(s, es))
  {
    if es != [] {
      var k := |es| - 1;
      RunsAtRaised(s, es[..k]);
      CountersInEveryRun(s, es[..k]);
      StepKeepsRaised(Exec(Step, s, es[..k]), es[k], Raised(s, es[..k]));
    }
  }

  /** In every run, of locks that succeed or time out, trylocks and unlocks, from every base
      priority: the rule holds if and only if what the thread has been raised for and what
      it engages cover each other above the base. */
  lemma {:induction false} CeilingRuleIff(s: State, es: seq<Event>)
    requires Init(s)
    ensures RunsAtCeiling(Exec(Step, s, es)) <==>
      && Covers(s.priority, Raised(s, es), Engagements(Exec(Step, s, es)))
      && Covers(s.priority, Engagements(Exec(Step, s, es)), Raised(s, es))
  {
    RunsAtRaised(s, es);
    SameHighest(Exec(Step, s, es).current, s.priority, Raised(s, es), Engagements(Exec(Step, s, es)));
  }

  // ----- Simpler conditions, where the counters tell what the thread was raised for -----

  /** A lock call finds room in its counter. */
  predicate Roomy(s: State, e: Event) {
    e.Request? && e.c < PRIORITIES && s.awaiting == None ==> s.priomutex[e.c] < UCHAR_RANGE - 1
  }

  /** The thread runs at the highest of its base and the ceilings its counters show. */
  ghost predicate RunsAtCounted(s: State) { IsHighest(s.current, s.priority, s.priomutex) }

  /** Whatever an unlock finds, it leaves the thread where its counters say. */
  lemma UnlockRestoresCounted(s: State, c: nat)
    requires s.priority < PRIORITIES && c < PRIORITIES && s.awaiting == None && s.held[c] > 0
    ensures RunsAtCounted(Step(s, Unlock(c)))
  {
    ScanFindsHighest(DropForUnlock(s, c).priomutex, s.priority, s.current, 0);
  }

  lemma StepKeepsCountedPriority(s: State, e: Event)
    requires s.priority < PRIORITIES && RunsAtCounted(s) && Roomy(s, e)
    ensures RunsAtCounted(Step(s, e)) && Step(s, e).priority == s.priority
  {
    match e
    case Unlock(c) =>
      if c < PRIORITIES && s.awaiting == None && s.held[c] > 0 {
        UnlockRestoresCounted(s, c);
      }
    case _ =>
  }

  lemma {:induction false} RunKeepsCountedPriority(s: State, es: seq<Event>)
    requires Init(s) && s.priority < PRIORITIES
    requires forall k :: 0 <= k < |es| ==> Roomy(Exec(Step, s, es[..k]), es[k])
    ensures RunsAtCounted(Exec(Step, s, es)) && Exec(Step, s, es).priority == s.priority
  {
    if es != [] {
      var j := |es| - 1;
      forall k | 0 <= k < j ensures Roomy(Exec(Step, s, es[..j][..k]), es[..j][k]) {
        assert es[..j][..k] == es[..k];
      }
      RunKeepsCountedPriority(s, es[..j]);
      StepKeepsCountedPriority(Exec(Step, s, es[..j]), es[j]);
    }
  }

  /** The rule, from history alone: every ceiling above the base at which engaged mutexes
      and time-outs, less trylocks, do not cancel modulo 256 has a mutex engaged at least as
      high, and every ceiling above the base with a mutex engaged has one at least as high
      at which they do not cancel. */
  ghost predicate Balanced(s: State) {
    Covers(s.priority, Shown(s), Engagements(s)) && Covers(s.priority, Engagements(s), Shown(s))
  }

  lemma RuleIffBalanced(s: State)
    requires Counted(s) && RunsAtCounted(s)
    ensures RunsAtCeiling(s) <==> Balanced(s)
  {
    assert Shown(s) == s.priomutex;
    SameHighest(s.current, s.priority, s.priomutex, Engagements(s));
  }

  /** Time-outs and trylocks included, with a base priority the scan covers: in every run in
      which no lock call finds its counter full, the rule holds if and only if the history
      is balanced. */
  lemma {:induction false} CeilingRuleIffWhileRoomy(s: State, es: seq<Event>)
    requires Init(s) && s.priority < PRIORITIES
    requires forall k :: 0 <= k < |es| ==> Roomy(Exec(Step, s, es[..k]), es[k])
    ensures RunsAtCeiling(Exec(Step, s, es)) <==> Balanced(Exec(Step, s, es))
  {
    CountersInEveryRun(s, es);
    RunKeepsCountedPriority(s, es);
    RuleIffBalanced(Exec(Step, s, es));
  }

  /** And when an unlock has returned, so it does in every run whatsoever. */
  lemma CeilingRuleIffAtUnlock(s: State, es: seq<Event>, c: nat, x: State)
    requires Init(s) && s.priority < PRIORITIES && x == Exec(Step, s, es)
    requires c < PRIORITIES && x.awaiting == None && x.held[c] > 0
    ensures RunsAtCeiling(Step(x, Unlock(c))) <==> Balanced(Step(x, Unlock(c)))
  {
    CountersInEveryRun(s, es);
    StepKeepsCounted(x, Unlock(c));
    PriorityFixed(s, es);
    UnlockRestoresCounted(x, c);
    RuleIffBalanced(Step(x, Unlock(c)));
  }

  lemma PriorityFixed(s: State, es: seq<Event>)
    ensures Exec(Step, s, es).priority == s.priority
  {
    var inv := (x: State) => x.priority == s.priority;
    InvariantOfRuns(Step, inv, s, es);
  }

  /** No trylock has been made, and the counters have had room for all they had to count. */
  ghost predicate Uncrowded(s: State) {
    forall c :: 0 <= c < PRIORITIES ==> s.tried[c] == 0 && Engaged(s, c) + s.expired[c] < UCHAR_RANGE
  }

  /** Every time-out on a mutex of a ceiling above the base is hidden by a mutex, held or
      awaited, of at least that ceiling. */
  ghost predicate TimeOutsHidden(s: State) { Covers(s.priority, s.expired, Engagements(s)) }

  lemma CoversSum(priority: nat, a: Tally, b: Tally, sum: Tally)
    requires forall c :: 0 <= c < PRIORITIES ==> sum[c] == a[c] + b[c]
    ensures Covers(priority, b, a) <==> Covers(priority, sum, a) && Covers(priority, a, sum)
  {
    if Covers(priority, b, a) {
      forall c | 0 <= c < PRIORITIES && c < priority && sum[c] > 0 ensures exists d :: 0 <= d <= c && a[d] > 0 {
        assert a[c] > 0 || b[c] > 0;
      }
    }
    if Covers(priority, sum, a) {
      forall c | 0 <= c < PRIORITIES && c < priority && b[c] > 0 ensures exists d :: 0 <= d <= c && a[d] > 0 {
        assert sum[c] > 0;
      }
    }
    forall c | 0 <= c < PRIORITIES && c < priority && a[c] > 0 ensures exists d :: 0 <= d <= c && sum[d] > 0 {
      assert sum[c] > 0;
    }
  }

  lemma HiddenIffBalanced(s: State)
    requires Uncrowded(s)
    ensures TimeOutsHidden(s) <==> Balanced(s)
  {
    forall c | 0 <= c < PRIORITIES ensures Shown(s)[c] == Engagements(s)[c] + s.expired[c] {
      ShownIs(s, c);
    }
    CoversSum(s.priority, Engagements(s), s.expired, Shown(s));
  }

  lemma ShownIs(s: State, c: nat)
    requires Uncrowded(s) && c < PRIORITIES
    ensures Shown(s)[c] == Engaged(s, c) + s.expired[c]
  {
    RemainderIs(Expected(s, c), 0, Expected(s, c));
  }

  lemma UncrowdedIsRoomy(s: State, e: Event)
    requires Counted(s) && Uncrowded(s) && Uncrowded(Step(s, e))
    ensures Roomy(s, e)
  {
    if e.Request? && e.c < PRIORITIES && s.awaiting == None {
      assert Engaged(Step(s, e), e.c) == Engaged(s, e.c) + 1;
      ShownIs(s, e.c);
    }
  }

  /** Without trylocks, and while mutexes and time-outs of each ceiling together stay below
      256, the rule holds if and only if every time-out above the base is hidden by a mutex
      of at least that ceiling.  A thread that has timed out at ceiling c, above its base,
      thus runs too high in every later state in which it engages nothing as high. */
  lemma {:induction false} CeilingRuleIffTimeOutsHidden(s: State, es: seq<Event>)
    requires Init(s) && s.priority < PRIORITIES
    requires forall k :: 0 <= k <= |es| ==> Uncrowded(Exec(Step, s, es[..k]))
    ensures RunsAtCeiling(Exec(Step, s, es)) <==> TimeOutsHidden(Exec(Step, s, es))
  {
    forall k | 0 <= k < |es| ensures Roomy(Exec(Step, s, es[..k]), es[k]) {
      CountersInEveryRun(s, es[..k]);
      assert es[..k + 1][..k] == es[..k];
      assert Uncrowded(Exec(Step, s, es[..k + 1]));
      UncrowdedIsRoomy(Exec(Step, s, es[..k]), es[k]);
    }
    CeilingRuleIffWhileRoomy(s, es);
    assert es[..|es|] == es;
    assert Uncrowded(Exec(Step, s, es[..|es|]));
    HiddenIffBalanced(Exec(Step, s, es));
  }

  // ----- A base priority beyond the scan -----

  ghost predicate NothingEngaged(s: State) { forall c :: 0 <= c < PRIORITIES ==> Engaged(s, c) == 0 }

  /** The ceiling at which the thread has been left behind, if it has: by an unlock that
      leaves nothing engaged, until an unlock leaves something engaged or a lock call asks
      for a ceiling at least as high. */
  ghost function LeftAfter(left: Option<nat>, s: State, e: Event): Option<nat> {
    match e
    case Request(c) =>
      if c < PRIORITIES && s.awaiting == None && left.Some? && c <= left.value then None else left
    case Unlock(c) =>
      if !(c < PRIORITIES && s.awaiting == None && s.held[c] > 0) then left
      else if !NothingEngaged(Step(s, e)) then None
      else if left.Some? then left else Some(c)
    case _ => left
  }

  ghost function LeftBehind(s: State, es: seq<Event>): Option<nat> {
    if es == [] then None else
      var k := |es| - 1;
      LeftAfter(LeftBehind(s, es[..k]), Exec(Step, s, es[..k]), es[k])
  }

  ghost predicate HighBaseInv(s: State, left: Option<nat>) {
    && s.priority >= PRIORITIES && (s.awaiting.Some? ==> s.awaiting.value < PRIORITIES)
    && (forall c :: 0 <= c < PRIORITIES ==> s.priomutex[c] == Engaged(s, c))
    && match left
       case Some(m) => s.current == m < PRIORITIES && forall i :: 0 <= i <= m ==> Engaged(s, i) == 0
       case None =>
         if NothingEngaged(s) then s.current == s.priority
         else
           && s.current < PRIORITIES && Engaged(s, s.current) > 0
           && forall i :: 0 <= i < s.current ==> Engaged(s, i) == 0
  }

  lemma HighBaseRequest(s: State, c: nat, left: Option<nat>)
    requires HighBaseInv(s, left) && c < PRIORITIES && s.awaiting == None && Few(Step(s, Request(c)))
    ensures HighBaseInv(Step(s, Request(c)), LeftAfter(left, s, Request(c)))
  {
    var s' := Step(s, Request(c));
    assert Engaged(s', c) == Engaged(s, c) + 1;
    assert forall d :: 0 <= d < PRIORITIES && d != c ==> Engaged(s', d) == Engaged(s, d);
  }

  lemma HighBaseUnlock(s: State, c: nat, left: Option<nat>)
    requires HighBaseInv(s, left) && c < PRIORITIES && s.awaiting == None && s.held[c] > 0
    ensures HighBaseInv(Step(s, Unlock(c)), LeftAfter(left, s, Unlock(c)))
  {
    var s' := Step(s, Unlock(c));
    UnlockUncounts(s, c);
    if NothingEngaged(s') {
      assert !NothingEngaged(s);
    } else {
      var d :| 0 <= d < PRIORITIES && Engaged(s', d) != 0;
      assert s'.priomutex[d] > 0;
    }
  }

  lemma UnlockUncounts(s: State, c: nat)
    requires s.priority >= PRIORITIES && c < PRIORITIES && s.awaiting == None && s.held[c] > 0
    requires forall d :: 0 <= d < PRIORITIES ==> s.priomutex[d] == Engaged(s, d)
    ensures var s' := Step(s, Unlock(c));
      && s'.priority == s.priority && s'.awaiting == None
      && (forall d :: 0 <= d < PRIORITIES ==> s'.priomutex[d] == Engaged(s', d))
      && (forall d :: 0 <= d < PRIORITIES ==> Engaged(s', d) == Engaged(s, d) - if d == c then 1 else 0)
      && (if exists j :: 0 <= j < PRIORITIES && s'.priomutex[j] > 0 then
            s'.current < PRIORITIES && s'.priomutex[s'.current] > 0
            && forall j :: 0 <= j < s'.current ==> s'.priomutex[j] == 0
          else s'.current == s.current)
  {
    ScanBelowBase(Step(s, Unlock(c)).priomutex, s.priority, s.current, 0);
  }

  lemma HighBaseStep(s: State, e: Event, left: Option<nat>)
    requires HighBaseInv(s, left) && Plain(e) && Few(Step(s, e))
    ensures HighBaseInv(Step(s, e), LeftAfter(left, s, e))
  {
    match e
    case Request(c) =>
      if c < PRIORITIES && s.awaiting == None {
        HighBaseRequest(s, c, left);
      }
    case Unlock(c) =>
      if c < PRIORITIES && s.awaiting == None && s.held[c] > 0 {
        HighBaseUnlock(s, c, left);
      }
    case Acquire =>
      assert forall d :: 0 <= d < PRIORITIES ==> Engaged(Step(s, e), d) == Engaged(s, d);
  }

  lemma {:induction false} HighBaseRun(s: State, es: seq<Event>)
    requires Init(s) && s.priority >= PRIORITIES
    requires forall i :: 0 <= i < |es| ==> Plain(es[i])
    requires forall k :: 0 <= k <= |es| ==> Few(Exec(Step, s, es[..k]))
    ensures HighBaseInv(Exec(Step, s, es), LeftBehind(s, es))
  {
    if es != [] {
      var k := |es| - 1;
      forall j | 0 <= j <= k ensures Few(Exec(Step, s, es[..k][..j])) {
        assert es[..k][..j] == es[..j];
      }
      HighBaseRun(s, es[..k]);
      assert es[..|es|] == es;
      assert Few(Exec(Step, s, es[..|es|]));
      HighBaseStep(Exec(Step, s, es[..k]), es[k], LeftBehind(s, es[..k]));
    }
  }

  /** From a base priority the scan does not cover, in every run of successful untimed locks
      and unlocks: the rule holds if and only if the thread has not been left behind, and
      otherwise it runs at the very ceiling at which it was. */
  lemma {:induction false} HighBaseRuleIff(s: State, es: seq<Event>)
    requires Init(s) && s.priority >= PRIORITIES
    requires forall i :: 0 <= i < |es| ==> Plain(es[i])
    requires forall k :: 0 <= k <= |es| ==> Few(Exec(Step, s, es[..k]))
    ensures RunsAtCeiling(Exec(Step, s, es)) <==> LeftBehind(s, es) == None
    ensures LeftBehind(s, es).Some? ==> Exec(Step, s, es).current == LeftBehind(s, es).value
  {
    HighBaseRun(s, es);
    HighBaseRuleIn(Exec(Step, s, es), LeftBehind(s, es));
  }

  lemma HighBaseRuleIn(s: State, left: Option<nat>)
    requires HighBaseInv(s, left)
    ensures RunsAtCeiling(s) <==> left == None
  {
    var engaged := Engagements(s);
    assert forall c :: 0 <= c < PRIORITIES ==> engaged[c] == Engaged(s, c);
  }

  /** The state y an unlock returns in: the rule holds exactly if something is still
      engaged. */
  ghost predicate HoldsIffEngaged(y: State) { RunsAtCeiling(y) <==> !NothingEngaged(y) }

  lemma HoldsIffEngagedAfter(x: State, c: nat, left: Option<nat>)
    requires HighBaseInv(x, left) && CanUnlock(x, c)
    ensures HoldsIffEngaged(Step(x, Unlock(c)))
  {
    HighBaseUnlock(x, c, left);
    HighBaseRuleIn(Step(x, Unlock(c)), LeftAfter(left, x, Unlock(c)));
  }

  /** So, in every such run, whenever an unlock returns. */
  lemma {:induction false} HighBaseRuleIffAtUnlock(s: State, es: seq<Event>, c: nat)
    requires Init(s) && s.priority >= PRIORITIES
    requires forall i :: 0 <= i < |es| ==> Plain(es[i])
    requires forall k :: 0 <= k <= |es| ==> Few(Exec(Step, s, es[..k]))
    ensures CanUnlock(Exec(Step, s, es), c) ==> HoldsIffEngaged(Step(Exec(Step, s, es), Unlock(c)))
  {
    HighBaseRun(s, es);
    if CanUnlock(Exec(Step, s, es), c) {
      HoldsIffEngagedAfter(Exec(Step, s, es), c, LeftBehind(s, es));
    }
  }

  lemma LockedAndUnlocked(s: State, c: nat)
    requires Init(s) && s.priority >= PRIORITIES && c < PRIORITIES
    ensures var x := Step(Step(Step(s, Request(c)), Acquire), Unlock(c));
      HighBaseInv(x, Some(c)) && NothingEngaged(x) && x.awaiting == None
  {
    HighBaseRequest(s, c, None);
    var x1 := Step(s, Request(c));
    HighBaseStep(x1, Acquire, None);
    var x2 := Step(x1, Acquire);
    assert x2.held == s.held[c := 1];
    HighBaseUnlock(x2, c, None);
    assert forall i :: 0 <= i < PRIORITIES ==> Engaged(Step(x2, Unlock(c)), i) == 0;
  }

  /** Runs that fail: after one lock and unlock of ceiling c the thread holds nothing and
      runs at c, and a mutex of a lower ceiling d engaged next does not bring it down. */
  lemma HighBaseIsNotRestored(s: State, c: nat, d: nat)
    requires Init(s) && s.priority >= PRIORITIES && c < d < PRIORITIES
    ensures var x := Step(Step(Step(s, Request(c)), Acquire), Unlock(c));
      && NothingEngaged(x) && x.current == c && !RunsAtCeiling(x)
      && Engaged(Step(x, Request(d)), d) == 1 && Step(x, Request(d)).current == c
      && !RunsAtCeiling(Step(x, Request(d)))
  {
    var x := Step(Step(Step(s, Request(c)), Acquire), Unlock(c));
    LockedAndUnlocked(s, c);
    HighBaseRuleIn(x, Some(c));
    StillLeftBehind(x, c, d);
  }

  lemma StillLeftBehind(x: State, c: nat, d: nat)
    requires HighBaseInv(x, Some(c)) && NothingEngaged(x) && x.awaiting == None && c < d < PRIORITIES
    ensures var y := Step(x, Request(d)); Engaged(y, d) == 1 && y.current == c && !RunsAtCeiling(y)
  {
    var y := Step(x, Request(d));
    assert forall i :: 0 <= i < PRIORITIES ==> Engaged(y, i) == Engaged(x, i) + if i == d then 1 else 0;
    HighBaseRequest(x, d, Some(c));
    HighBaseRuleIn(y, Some(c));
  }

  // ----- A full counter -----

  /** Where a counter has been full, it no longer tells: after a trylock and its unlock, a
      lock call on ceiling c keeps the rule though the counters say nothing is engaged, and
      when it times out the rule fails though nothing is engaged and nothing is counted. */
  lemma FullCounterDeceives(s: State, c: nat)
    requires Init(s) && c < s.priority < PRIORITIES
    ensures var x := Step(Step(Step(s, TryLock(c)), Unlock(c)), Request(c));
      && RunsAtCeiling(x) && !Balanced(x)
      && !RunsAtCeiling(Step(x, Expire)) && Balanced(Step(x, Expire)) && NothingEngaged(Step(x, Expire))
  {
    var s2 := Step(Step(s, TryLock(c)), Unlock(c));
    TryLockUnbalances(s, c);
    assert s2.tried == s.tried[c := 1] && s2.expired == s.expired;
    LockAfterTrylock(s, s2, c);
    TimeOutAfterTrylock(s, s2, c);
  }

  lemma LockAfterTrylock(s: State, s2: State, c: nat)
    requires Init(s) && c < s.priority < PRIORITIES
    requires s2 == s.(priomutex := s2.priomutex, current := c, tried := s.tried[c := 1])
    ensures RunsAtCeiling(Step(s2, Request(c))) && !Balanced(Step(s2, Request(c)))
  {
    var x := Step(s2, Request(c));
    assert Engagements(x) == s.held[c := 1];
    assert Expected(x, c) == 0 && forall d :: 0 <= d < PRIORITIES ==> Expected(x, d) == 0;
    assert forall d :: 0 <= d < PRIORITIES ==> Shown(x)[d] == 0;
    assert Engagements(x)[c] > 0;
  }

  lemma TimeOutAfterTrylock(s: State, s2: State, c: nat)
    requires Init(s) && c < s.priority < PRIORITIES
    requires s2 == s.(priomutex := s2.priomutex, current := c, tried := s.tried[c := 1])
    ensures var y := Step(Step(s2, Request(c)), Expire); !RunsAtCeiling(y) && Balanced(y) && NothingEngaged(y)
  {
    var y := Step(Step(s2, Request(c)), Expire);
    assert Engagements(y) == s.held;
    assert forall d :: 0 <= d < PRIORITIES ==> Expected(y, d) == 0;
    assert forall d :: 0 <= d < PRIORITIES ==> Shown(y)[d] == 0;
  }

  // ----- What breaks it -----

  /** A lock call that times out leaves the thread raised: it holds nothing, yet runs at the
      ceiling c, and so it does after locking and unlocking any lower one. */
  lemma ExpiredLockStaysRaised(s: State, c: nat, d: nat)
    requires Init(s) && c < s.priority < PRIORITIES && c < d < PRIORITIES
    ensures var s1 := Step(Step(s, Request(c)), Expire);
      s1.held == s.held && s1.awaiting == None && s1.current == c && !RunsAtCeiling(s1)
    ensures var s2 := Step(Step(Step(Step(Step(s, Request(c)), Expire), Request(d)), Acquire), Unlock(d));
      s2.held == s.held && s2.awaiting == None && s2.current == c && !RunsAtCeiling(s2)
  {
    var s1 := Step(Step(s, Request(c)), Expire);
    assert Engagements(s1)[c] == 0;
    var x := Step(Step(s1, Request(d)), Acquire);
    assert x.held[d] == 1 && x.current == c && x.priomutex[c] == 1;
    var s2 := Step(x, Unlock(d));
    assert s2.held == s.held;
    assert s2.priomutex[c] == 1 && forall i :: 0 <= i < c ==> s2.priomutex[i] == 0;
    ScanFindsHighest(s2.priomutex, s.priority, x.current, 0);
    assert Engagements(s2)[c] == 0;
  }

  /** A trylock neither counts nor raises, and the unlock that matches it takes the counter
      from 0 to 255: the thread holds nothing and is raised to the ceiling. */
  lemma TryLockUnbalances(s: State, c: nat)
    requires Init(s) && c < s.priority < PRIORITIES
    ensures var s1 := Step(s, TryLock(c)); s1.held[c] == 1 && s1.current == s.priority && !RunsAtCeiling(s1)
    ensures var s2 := Step(Step(s, TryLock(c)), Unlock(c));
      s2.held == s.held && s2.priomutex[c] == UCHAR_RANGE - 1 && s2.current == c && !RunsAtCeiling(s2)
  {
    var s1 := Step(s, TryLock(c));
    assert Engagements(s1)[c] == 1;
    var s2 := Step(s1, Unlock(c));
    assert s2.held == s.held;
    ScanFindsHighest(s2.priomutex, s.priority, s1.current, 0);
    assert Engagements(s2)[c] == 0;
  }

  // ----- The fields themselves -----

  /** The part of pthread_storage_t that serves priority ceilings, and the kernel's record
      of the thread's running priority. */
  class ThreadPriority {
    const priority: nat
    const priomutex: array<nat>
    var current: nat

    predicate Valid()
      reads priomutex
    {
      priomutex.Length == PRIORITIES && forall i :: 0 <= i < PRIORITIES ==> priomutex[i] < UCHAR_RANGE
    }

    /** The state these fields are in, beside a call and history that are not theirs. */
    ghost predicate Represents(s: State)
      reads this, priomutex
    {
      Valid() && s.priority == priority && s.priomutex == priomutex[..] && s.current == current
    }

    constructor (priority: nat)
      ensures Valid() && this.priority == priority && current == priority && fresh(priomutex)
      ensures forall i :: 0 <= i < PRIORITIES ==> priomutex[i] == 0
    {
      this.priority := priority;
      this.priomutex := new nat[PRIORITIES](_ => 0);
      this.current := priority;
    }

    /** pthread_mutex.c, lock, before its wait. */
    method Raise(ceiling: nat, ghost s: State)
      requires Represents(s) && ceiling < PRIORITIES
      modifies this, priomutex
      ensures Represents(RaiseForLock(s, ceiling))
    {
      priomutex[ceiling] := (priomutex[ceiling] + 1) % UCHAR_RANGE;
      if ceiling < current {
        current := ceiling;
      }
    }

    /** pthread_mutex_unlock, after its signal: uncount, then take the first priority that is
        the thread's own or has a mutex counted. */
    method Drop(ceiling: nat, ghost s: State)
      requires Represents(s) && ceiling < PRIORITIES
      modifies this, priomutex
      ensures Represents(DropForUnlock(s, ceiling))
      ensures priority < PRIORITIES ==> IsHighest(current, priority, priomutex[..])
    {
      priomutex[ceiling] := (priomutex[ceiling] + UCHAR_RANGE - 1) % UCHAR_RANGE;
      ghost var counts: Counts := priomutex[..];
      assert counts == DropForUnlock(s, ceiling).priomutex;
      var i := 0;
      while i < PRIORITIES
        invariant i <= PRIORITIES && current == old(current) && priomutex[..] == counts
        invariant Scan(counts, priority, current, 0) == Scan(counts, priority, current, i)
      {
        if i == priority || priomutex[i] > 0 {
          current := i;
          break;
        }
        i := i + 1;
      }
      if priority < PRIORITIES {
        ScanFindsHighest(counts, priority, old(current), 0);
      }
    }
  }
}
