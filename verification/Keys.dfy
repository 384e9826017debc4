/** Thread-specific data: a table of reference-counted keys, a row of slots per thread with
    a count of its own, and the destructor loop that empties a row when a thread ends.

    Each operation is one step, except that the destructor loop lets go of the key table
    around every destructor call, so that anything may happen between its steps. */
module Keys {
  import opened Kernel
  import opened Sums
  import opened Runs

  const KEYS_MAX: nat := 48
  const DESTRUCTOR_ITERATIONS: nat := 4

  type Pointer = nat
  const NULL: Pointer := 0

  /** One entry of key_table: its reference count (0: free) and its destructor. */
  datatype Key = Key(count: int, dtor: Option<nat>)

  /** Where a thread's destructor loop is: position `pos` is iteration pos / KEYS_MAX, key
      pos % KEYS_MAX. */
  datatype Sweep = NoSweep | At(pos: nat) | InDestructor(pos: nat)

  type Slots = s: seq<Pointer> | |s| == KEYS_MAX witness seq(KEYS_MAX, _ => NULL)

  /** A thread's slots, its specific_data_count, its sweep, and (history) the destructor
      calls made by its present or last sweep. */
  datatype Thread = Thread(slots: Slots, stored: int, sweep: Sweep, made: nat)

  /** A destructor call: whose data, which key, which destructor, which value. */
  datatype Call = Call(tid: nat, key: nat, dtor: nat, data: Pointer)

  type Table = k: seq<Key> | |k| == KEYS_MAX witness seq(KEYS_MAX, _ => Key(0, None))

  datatype State = State(keys: Table, threads: seq<Thread>, calls: seq<Call>)

  datatype Act = Create(dtor: Option<nat>) | Delete(k: int) | Set(k: int, value: Pointer) | Begin | Advance

  datatype Event = Event(tid: nat, act: Act)

  predicate InRange(k: int) { 0 <= k < KEYS_MAX }

  // ----- The operations -----

  /** The first free entry from k on, or KEYS_MAX. */
  function FirstFree(keys: Table, k: nat): nat
    requires k <= KEYS_MAX
    decreases KEYS_MAX - k
  {
    if k == KEYS_MAX || keys[k].count == 0 then k else FirstFree(keys, k + 1)
  }

  function KeyCreate(s: State, dtor: Option<nat>): State {
    var k := FirstFree(s.keys, 0);
    if k < KEYS_MAX then s.(keys := s.keys[k := Key(s.keys[k].count + 1, dtor)]) else s
  }

  function CreateResult(s: State): Errno {
    if FirstFree(s.keys, 0) < KEYS_MAX then OK else EAGAIN
  }

  /** A key that still has data somewhere is kept. */
  function KeyDelete(s: State, k: int): State {
    if InRange(k) && s.keys[k].count == 1 then s.(keys := s.keys[k := Key(0, None)]) else s
  }

  function AddRef(keys: Table, k: nat, d: int): Table
    requires k < KEYS_MAX
  {
    keys[k := keys[k].(count := keys[k].count + d)]
  }

  function SetValue(s: State, t: nat, k: int, value: Pointer): State
    requires t < |s.threads|
  {
    if !InRange(k) || s.keys[k].count == 0 then s else
      var th := s.threads[t];
      var d := (if value != NULL then 1 else 0) - (if th.slots[k] != NULL then 1 else 0);
      s.(keys := AddRef(s.keys, k, d),
         threads := s.threads[t := th.(slots := th.slots[k := value], stored := th.stored + d)])
  }

  function GetValue(s: State, t: nat, k: int): Pointer
    requires t < |s.threads|
  {
    if InRange(k) && s.keys[k].count != 0 then s.threads[t].slots[k] else NULL
  }

  /** One round of the inner loop, or the end of the sweep; a destructor call suspends it. */
  function SweepAt(s: State, t: nat): State
    requires t < |s.threads| && s.threads[t].sweep.At?
  {
    var th, pos := s.threads[t], s.threads[t].sweep.pos;
    if pos >= DESTRUCTOR_ITERATIONS * KEYS_MAX || th.stored == 0 then
      s.(threads := s.threads[t := th.(sweep := NoSweep)])
    else
      var k := pos % KEYS_MAX;
      var data := th.slots[k];
      if data == NULL then s.(threads := s.threads[t := th.(sweep := At(pos + 1))])
      else
        var emptied := th.(slots := th.slots[k := NULL], stored := th.stored - 1);
        match s.keys[k].dtor
        case Some(d) =>
          s.(threads := s.threads[t := emptied.(sweep := InDestructor(pos), made := th.made + 1)],
             calls := s.calls + [Call(t, k, d, data)])
        case None =>
          s.(keys := AddRef(s.keys, k, -1), threads := s.threads[t := emptied.(sweep := At(pos + 1))])
  }

  /** The destructor has returned. */
  function SweepResume(s: State, t: nat): State
    requires t < |s.threads| && s.threads[t].sweep.InDestructor?
  {
    var th, pos := s.threads[t], s.threads[t].sweep.pos;
    s.(keys := AddRef(s.keys, pos % KEYS_MAX, -1), threads := s.threads[t := th.(sweep := At(pos + 1))])
  }

  function Step(s: State, e: Event): State {
    var t := e.tid;
    if t >= |s.threads| then s else
      match e.act
      case Create(dtor) => KeyCreate(s, dtor)
      case Delete(k) => KeyDelete(s, k)
      case Set(k, value) => SetValue(s, t, k, value)
      case Begin =>
        if s.threads[t].sweep.NoSweep? then
          s.(threads := s.threads[t := s.threads[t].(sweep := At(0), made := 0)])
        else s
      case Advance =>
        match s.threads[t].sweep
        case NoSweep => s
        case At(_) => SweepAt(s, t)
        case InDestructor(_) => SweepResume(s, t)
  }

  ghost predicate Init(s: State) {
    && (forall k :: 0 <= k < KEYS_MAX ==> s.keys[k] == Key(0, None))
    && forall t :: 0 <= t < |s.threads| ==> s.threads[t] == Thread(seq(KEYS_MAX, _ => NULL), 0, NoSweep, 0)
  }

  // ----- The invariant -----

  function NonNull(p: Pointer): int { if p != NULL then 1 else 0 }

  /** References of one thread to key k: a value in its slot, a destructor in flight. */
  function Refs(th: Thread, k: nat): int {
    (if k < KEYS_MAX then NonNull(th.slots[k]) else 0)
    + (if th.sweep.InDestructor? && th.sweep.pos % KEYS_MAX == k then 1 else 0)
  }

  function RefsTo(k: nat): Thread -> int {
    th => Refs(th, k)
  }

  predicate KeyInv(keys: Table, threads: seq<Thread>, k: nat)
    requires k < KEYS_MAX
  {
    var refs := Sum(threads, RefsTo(k));
    if keys[k].count == 0 then refs == 0 else keys[k].count == 1 + refs
  }

  predicate ThreadInv(th: Thread, keys: Table) {
    && th.stored == Sum(th.slots, NonNull)
    && match th.sweep
       case NoSweep => th.made <= DESTRUCTOR_ITERATIONS * KEYS_MAX
       case At(pos) => th.made <= pos <= DESTRUCTOR_ITERATIONS * KEYS_MAX
       case InDestructor(pos) =>
         th.made <= pos + 1 <= DESTRUCTOR_ITERATIONS * KEYS_MAX && keys[pos % KEYS_MAX].dtor.Some?
  }

  ghost predicate Inv(s: State) {
    && (forall k :: 0 <= k < KEYS_MAX ==> KeyInv(s.keys, s.threads, k))
    && forall t :: 0 <= t < |s.threads| ==> ThreadInv(s.threads[t], s.keys)
  }

  lemma InitInv(s: State)
    requires Init(s)
    ensures Inv(s)
  {
    forall k | 0 <= k < KEYS_MAX ensures KeyInv(s.keys, s.threads, k) {
      SumBounds(s.threads, 0, 0, RefsTo(k));
    }
    var empty: Slots := seq(KEYS_MAX, _ => NULL);
    SumBounds(empty, 0, 0, NonNull);
  }

  lemma RefsUpdate(threads: seq<Thread>, t: nat, th: Thread, k: nat)
    requires t < |threads|
    ensures Sum(threads[t := th], RefsTo(k)) == Sum(threads, RefsTo(k)) - Refs(threads[t], k) + Refs(th, k)
    ensures Refs(threads[t], k) <= Sum(threads, RefsTo(k))
  {
    SumUpdate(threads, t, th, RefsTo(k));
    SumAtLeast(threads, t, RefsTo(k));
  }

  /** A free key is used by nobody. */
  lemma FreeMeansUnused(s: State, k: nat, t: nat)
    requires Inv(s) && k < KEYS_MAX && t < |s.threads| && s.keys[k].count <= 1
    ensures Refs(s.threads[t], k) == 0
  {
    assert KeyInv(s.keys, s.threads, k);
    SumAtLeast(s.threads, t, RefsTo(k));
  }

  lemma FirstFreeIsFree(keys: Table, k: nat)
    requires k <= KEYS_MAX
    ensures k <= FirstFree(keys, k) <= KEYS_MAX
    ensures FirstFree(keys, k) < KEYS_MAX ==> keys[FirstFree(keys, k)].count == 0
    ensures forall j :: k <= j < FirstFree(keys, k) ==> keys[j].count != 0
    decreases KEYS_MAX - k
  {
    if k < KEYS_MAX && keys[k].count != 0 {
      FirstFreeIsFree(keys, k + 1);
    }
  }

  /** Changing one key's entry, nobody's slots: the other keys are as before, and a thread
      in a destructor keeps its key's destructor if the changed key has no references. */
  lemma TableChange(s: State, k: nat, key: Key)
    requires Inv(s) && k < KEYS_MAX && s.keys[k].count <= 1 && key.count in {0, 1}
    ensures Inv(s.(keys := s.keys[k := key]))
  {
    var s' := s.(keys := s.keys[k := key]);
    forall j | 0 <= j < KEYS_MAX ensures KeyInv(s'.keys, s'.threads, j) {
      assert KeyInv(s.keys, s.threads, j);
      if j == k {
        SumNonNegative(s.threads, RefsTo(k));
      }
    }
    forall t | 0 <= t < |s.threads| ensures ThreadInv(s'.threads[t], s'.keys) {
      FreeMeansUnused(s, k, t);
    }
  }

  /** Changing one thread's record, and one key's count by as much as its references. */
  lemma RecordChange(s: State, t: nat, th: Thread, k: nat, d: int, calls: seq<Call>)
    requires Inv(s) && t < |s.threads| && k < KEYS_MAX && (d == 0 || s.keys[k].count != 0)
    requires forall j :: 0 <= j < KEYS_MAX ==> Refs(th, j) - Refs(s.threads[t], j) == if j == k then d else 0
    requires ThreadInv(th, s.keys)
    ensures Inv(State(AddRef(s.keys, k, d), s.threads[t := th], calls))
  {
    var keys, threads := AddRef(s.keys, k, d), s.threads[t := th];
    forall j | 0 <= j < KEYS_MAX ensures KeyInv(keys, threads, j) {
      assert KeyInv(s.keys, s.threads, j);
      RefsUpdate(s.threads, t, th, j);
      SumNonNegative(threads, RefsTo(j));
    }
    forall u | 0 <= u < |threads| ensures ThreadInv(threads[u], keys) {
    }
  }

  lemma SetKeepsInv(s: State, t: nat, k: int, value: Pointer)
    requires Inv(s) && t < |s.threads|
    ensures Inv(SetValue(s, t, k, value))
  {
    if InRange(k) && s.keys[k].count != 0 {
      var th := s.threads[t];
      StoredRecord(th, s.keys, k, value);
      RecordChange(s, t, Stored(th, k, value), k, NonNull(value) - NonNull(th.slots[k]), s.calls);
    }
  }

  /** A thread's record with another value stored. */
  function Stored(th: Thread, k: nat, value: Pointer): Thread
    requires k < KEYS_MAX
  {
    th.(slots := th.slots[k := value], stored := th.stored + NonNull(value) - NonNull(th.slots[k]))
  }

  lemma StoredRecord(th: Thread, keys: Table, k: nat, value: Pointer)
    requires ThreadInv(th, keys) && k < KEYS_MAX
    ensures var th' := Stored(th, k, value);
      && ThreadInv(th', keys)
      && forall j :: 0 <= j < KEYS_MAX ==>
           Refs(th', j) - Refs(th, j) == if j == k then NonNull(value) - NonNull(th.slots[k]) else 0
  {
    SumUpdate(th.slots, k, value, NonNull);
  }

  lemma SweepAtKeepsInv(s: State, t: nat)
    requires Inv(s) && t < |s.threads| && s.threads[t].sweep.At?
    ensures Inv(SweepAt(s, t))
  {
    var th, pos := s.threads[t], s.threads[t].sweep.pos;
    var k := pos % KEYS_MAX;
    var s' := SweepAt(s, t);
    var th' := s'.threads[t];
    SumUpdate(th.slots, k, NULL, NonNull);
    assert KeyInv(s.keys, s.threads, k);
    RefsUpdate(s.threads, t, th, k);
    if pos < DESTRUCTOR_ITERATIONS * KEYS_MAX && th.stored != 0 && th.slots[k] != NULL && s.keys[k].dtor == None {
      RecordChange(s, t, th', k, -1, s.calls);
    } else {
      RecordChange(s, t, th', k, 0, s'.calls);
      assert AddRef(s.keys, k, 0) == s.keys;
    }
  }

  lemma SweepResumeKeepsInv(s: State, t: nat)
    requires Inv(s) && t < |s.threads| && s.threads[t].sweep.InDestructor?
    ensures Inv(SweepResume(s, t))
  {
    var k := s.threads[t].sweep.pos % KEYS_MAX;
    RefsUpdate(s.threads, t, s.threads[t], k);
    assert KeyInv(s.keys, s.threads, k);
    RecordChange(s, t, SweepResume(s, t).threads[t], k, -1, s.calls);
  }

  lemma StepKeepsInv(s: State, e: Event)
    requires Inv(s)
    ensures Inv(Step(s, e))
  {
    var t := e.tid;
    if t < |s.threads| {
      match e.act
      case Create(dtor) =>
        FirstFreeIsFree(s.keys, 0);
        var k := FirstFree(s.keys, 0);
        if k < KEYS_MAX {
          TableChange(s, k, Key(1, dtor));
        }
      case Delete(k) =>
        if InRange(k) && s.keys[k].count == 1 {
          TableChange(s, k, Key(0, None));
        }
      case Set(k, value) =>
        SetKeepsInv(s, t, k, value);
      case Begin =>
        if s.threads[t].sweep.NoSweep? {
          RecordChange(s, t, s.threads[t].(sweep := At(0), made := 0), 0, 0, s.calls);
          assert AddRef(s.keys, 0, 0) == s.keys;
        }
      case Advance =>
        match s.threads[t].sweep
        case NoSweep =>
        case At(_) => SweepAtKeepsInv(s, t);
        case InDestructor(_) => SweepResumeKeepsInv(s, t);
    }
  }

  lemma RunInv(s: State, es: seq<Event>)
    requires Init(s)
    ensures Inv(Exec(Step, s, es))
  {
    InitInv(s);
    forall x, e | Inv(x) ensures Inv(Step(x, e)) {
      StepKeepsInv(x, e);
    }
    InvariantOfRuns(Step, Inv, s, es);
  }

  // ----- What the table promises -----

  /** A key is free or has one reference of its own, one per non-NULL slot of any thread
      and one per destructor in flight; a thread's count is its non-NULL slots. */
  ghost predicate CountsAgree(s: State) {
    && (forall k :: 0 <= k < KEYS_MAX ==>
          var refs := Sum(s.threads, RefsTo(k));
          (s.keys[k].count == 0 && refs == 0) || s.keys[k].count == 1 + refs)
    && forall t :: 0 <= t < |s.threads| ==> s.threads[t].stored == Sum(s.threads[t].slots, NonNull)
  }

  lemma CountsAlwaysAgree(s: State, es: seq<Event>)
    requires Init(s)
    ensures CountsAgree(Exec(Step, s, es))
  {
    RunInv(s, es);
    CountsAgreeIn(Exec(Step, s, es));
  }

  lemma CountsAgreeIn(s: State)
    requires Inv(s)
    ensures CountsAgree(s)
  {
    forall k | 0 <= k < KEYS_MAX
      ensures var refs := Sum(s.threads, RefsTo(k));
        (s.keys[k].count == 0 && refs == 0) || s.keys[k].count == 1 + refs
    {
      assert KeyInv(s.keys, s.threads, k);
    }
  }

  /** A freshly created key, even one that was deleted before, reads NULL in every thread,
      and no destructor call for it is pending. */
  lemma FreshKeyReadsNull(s: State, es: seq<Event>, dtor: Option<nat>, t: nat, s': State)
    requires Init(s) && s' == Exec(Step, s, es) && CreateResult(s').OK? && t < |s'.threads|
    ensures var k := FirstFree(s'.keys, 0);
      && s'.keys[k].count == 0 && KeyCreate(s', dtor).keys[k] == Key(1, dtor)
      && s'.threads[t].slots[k] == NULL && GetValue(KeyCreate(s', dtor), t, k) == NULL
      && !(s'.threads[t].sweep.InDestructor? && s'.threads[t].sweep.pos % KEYS_MAX == k)
  {
    RunInv(s, es);
    FirstFreeIsFree(s'.keys, 0);
    FreeMeansUnused(s', FirstFree(s'.keys, 0), t);
  }

  /** EAGAIN means that every key is in use. */
  lemma CreateFailsOnlyWhenFull(s: State)
    ensures CreateResult(s).EAGAIN? <==> forall k :: 0 <= k < KEYS_MAX ==> s.keys[k].count != 0
  {
    FirstFreeIsFree(s.keys, 0);
  }

  /** Delete frees the key exactly when no thread stores data in it and no destructor for
      it is in flight. */
  lemma DeleteFreesIffUnused(s: State, k: nat)
    requires Inv(s) && k < KEYS_MAX
    ensures KeyDelete(s, k).keys[k].count == 0 <==> forall t :: 0 <= t < |s.threads| ==> Refs(s.threads[t], k) == 0
  {
    assert KeyInv(s.keys, s.threads, k);
    SumNonNegative(s.threads, RefsTo(k));
    if Sum(s.threads, RefsTo(k)) > 0 {
      var t := SumWitness(s.threads, RefsTo(k));
    } else {
      forall t | 0 <= t < |s.threads| ensures Refs(s.threads[t], k) == 0 {
        SumAtLeast(s.threads, t, RefsTo(k));
      }
    }
  }

  /** setspecific on an allocated key is what getspecific then reads; nothing else that any
      thread reads through any key changes, and an unallocated key takes no value. */
  lemma SetThenGet(s: State, t: nat, k: nat, value: Pointer, u: nat, j: nat)
    requires Inv(s) && t < |s.threads| && u < |s.threads| && k < KEYS_MAX && j < KEYS_MAX
    ensures var s' := SetValue(s, t, k, value);
      && |s'.threads| == |s.threads|
      && GetValue(s', u, j)
         == if u == t && j == k then (if s.keys[k].count != 0 then value else NULL) else GetValue(s, u, j)
  {
    assert KeyInv(s.keys, s.threads, k);
    SumNonNegative(s.threads, RefsTo(k));
    if s.keys[k].count != 0 && s.threads[t].slots[k] != NULL {
      InUse(s, t, k);
    }
  }

  lemma OthersRecordKept(s: State, e: Event, t: nat)
    requires t < |s.threads| && e.tid != t
    ensures |Step(s, e).threads| == |s.threads| && Step(s, e).threads[t] == s.threads[t]
  {
  }

  /** What a thread stored stays readable, with the same destructor, whatever the other
      threads do: they cannot change its slot, and its reference keeps the key from being
      deleted or recycled. */
  lemma {:induction false} StoredValueSurvives(s: State, es: seq<Event>, t: nat, k: nat)
    requires Inv(s) && t < |s.threads| && k < KEYS_MAX && Refs(s.threads[t], k) > 0
    requires forall i :: 0 <= i < |es| ==> es[i].tid != t
    ensures var s' := Exec(Step, s, es);
      && Inv(s') && |s'.threads| == |s.threads| && s'.threads[t] == s.threads[t]
      && GetValue(s', t, k) == s.threads[t].slots[k]
      && s'.keys[k].dtor == s.keys[k].dtor && s'.keys[k].count >= 2
  {
    if es == [] {
      InUse(s, t, k);
    } else {
      var j := |es| - 1;
      var x := Exec(Step, s, es[..j]);
      StoredValueSurvives(s, es[..j], t, k);
      StepKeepsInv(x, es[j]);
      OthersRecordKept(x, es[j], t);
      InUse(Step(x, es[j]), t, k);
      DtorKept(x, es[j], k);
    }
  }

  lemma InUse(s: State, t: nat, k: nat)
    requires Inv(s) && t < |s.threads| && k < KEYS_MAX && Refs(s.threads[t], k) > 0
    ensures s.keys[k].count >= 2
  {
    assert KeyInv(s.keys, s.threads, k);
    SumAtLeast(s.threads, t, RefsTo(k));
  }

  lemma DtorKept(s: State, e: Event, k: nat)
    requires k < KEYS_MAX && s.keys[k].count >= 2
    ensures Step(s, e).keys[k].dtor == s.keys[k].dtor
  {
    FirstFreeIsFree(s.keys, 0);
  }

  // ----- What the destructor loop promises -----

  /** How far a sweep has come; each of its own steps takes it further or ends it, so no
      sweep takes more than 2 * 4 * 48 + 1 of them ... */
  function Progress(sweep: Sweep): nat {
    match sweep
    case NoSweep => 0
    case At(pos) => 2 * pos
    case InDestructor(pos) => 2 * pos + 1
  }

  lemma SweepAdvances(s: State, t: nat)
    requires Inv(s) && t < |s.threads| && !s.threads[t].sweep.NoSweep?
    ensures var s' := Step(s, Event(t, Advance));
      && |s'.threads| == |s.threads|
      && Progress(s.threads[t].sweep) <= 2 * DESTRUCTOR_ITERATIONS * KEYS_MAX
      && (s'.threads[t].sweep.NoSweep? || Progress(s'.threads[t].sweep) > Progress(s.threads[t].sweep))
  {
    assert ThreadInv(s.threads[t], s.keys);
  }

  /** ... and whatever destructors store, and whatever everybody else does meanwhile, it
      makes at most 4 * 48 destructor calls. */
  lemma SweepCallsBounded(s: State, es: seq<Event>, t: nat)
    requires Init(s) && t < |Exec(Step, s, es).threads|
    ensures Exec(Step, s, es).threads[t].made <= DESTRUCTOR_ITERATIONS * KEYS_MAX
  {
    RunInv(s, es);
    assert ThreadInv(Exec(Step, s, es).threads[t], Exec(Step, s, es).keys);
  }

  /** The calls due for the values in a row from key k on, in key order. */
  function CallsDue(t: nat, slots: Slots, keys: Table, k: nat): seq<Call>
    requires k <= KEYS_MAX
    decreases KEYS_MAX - k
  {
    if k == KEYS_MAX then []
    else if slots[k] != NULL && keys[k].dtor.Some? then
      [Call(t, k, keys[k].dtor.value, slots[k])] + CallsDue(t, slots, keys, k + 1)
    else CallsDue(t, slots, keys, k + 1)
  }

  /** The table after a row's references are dropped from key k on. */
  predicate Dropped(keys: Table, slots: Slots, k: nat, keys': Table) {
    forall j :: 0 <= j < KEYS_MAX ==>
      keys'[j] == if j >= k then keys[j].(count := keys[j].count - NonNull(slots[j])) else keys[j]
  }

  lemma {:induction false} EmptyFromNoCalls(t: nat, slots: Slots, keys: Table, k: nat)
    requires k <= KEYS_MAX && forall j :: k <= j < KEYS_MAX ==> slots[j] == NULL
    ensures CallsDue(t, slots, keys, k) == []
    decreases KEYS_MAX - k
  {
    if k < KEYS_MAX {
      EmptyFromNoCalls(t, slots, keys, k + 1);
    }
  }

  lemma NothingStored(slots: Slots, j: nat)
    requires Sum(slots, NonNull) == 0 && j < KEYS_MAX
    ensures slots[j] == NULL
  {
    SumAtLeast(slots, j, NonNull);
  }

  /** The row of t has been swept from key k on: the calls due were made, in order, the row
      is empty, and its references are dropped. */
  ghost predicate Swept(s: State, t: nat, k: nat, s': State)
    requires t < |s.threads| && k <= KEYS_MAX
  {
    && |s'.threads| == |s.threads| && s'.threads[t].sweep.NoSweep? && s'.threads[t].stored == 0
    && s'.calls == s.calls + CallsDue(t, s.threads[t].slots, s.keys, k)
    && (forall j :: 0 <= j < KEYS_MAX ==> s'.threads[t].slots[j] == NULL)
    && Dropped(s.keys, s.threads[t].slots, k, s'.keys)
  }

  /** The early exit: nothing is left in the row, so nothing is skipped. */
  lemma QuietExit(s: State, t: nat, k: nat)
    requires Inv(s) && t < |s.threads| && k <= KEYS_MAX && s.threads[t].sweep == At(k)
    requires s.threads[t].stored == 0
    ensures Swept(s, t, k, SweepAt(s, t))
  {
    var th := s.threads[t];
    assert ThreadInv(th, s.keys);
    forall j | 0 <= j < KEYS_MAX ensures th.slots[j] == NULL {
      NothingStored(th.slots, j);
    }
    EmptyFromNoCalls(t, th.slots, s.keys, k);
  }

  /** One key's worth of a sweep whose destructors store nothing. */
  predicate QuietKey(s: State, t: nat, k: nat, x: State)
    requires t < |s.threads| && k < KEYS_MAX
  {
    var th := s.threads[t];
    && |x.threads| == |s.threads| && x.threads[t].sweep == At(k + 1)
    && x.threads[t].slots == th.slots[k := NULL]
    && x.keys == AddRef(s.keys, k, -NonNull(th.slots[k]))
    && x.calls == s.calls + (if th.slots[k] != NULL && s.keys[k].dtor.Some? then
                               [Call(t, k, s.keys[k].dtor.value, th.slots[k])] else [])
  }

  /** One round of the inner loop, with a destructor that does nothing. */
  function QuietStep(s: State, t: nat): State
    requires t < |s.threads| && s.threads[t].sweep.At?
  {
    var x := SweepAt(s, t);
    if x.threads[t].sweep.InDestructor? then SweepResume(x, t) else x
  }

  lemma QuietStepIsQuietKey(s: State, t: nat, k: nat)
    requires t < |s.threads| && k < KEYS_MAX && s.threads[t].sweep == At(k) && s.threads[t].stored != 0
    ensures QuietKey(s, t, k, QuietStep(s, t))
  {
  }

  lemma QuietOne(s: State, t: nat, k: nat) returns (es: seq<Event>, x: State)
    requires Inv(s) && t < |s.threads| && k < KEYS_MAX && s.threads[t].sweep == At(k) && s.threads[t].stored != 0
    ensures x == Exec(Step, s, es) && Inv(x) && QuietKey(s, t, k, x)
    ensures forall i :: 0 <= i < |es| ==> es[i] == Event(t, Advance)
  {
    QuietStepIsQuietKey(s, t, k);
    var go := Event(t, Advance);
    es, x := [go], SweepAt(s, t);
    ExecOne(Step, s, go);
    SweepAtKeepsInv(s, t);
    if x.threads[t].sweep.InDestructor? {
      ExecSnoc(Step, s, es, go);
      SweepResumeKeepsInv(x, t);
      es, x := es + [go], SweepResume(x, t);
    }
  }

  lemma SweptOneMore(s: State, t: nat, k: nat, x: State, s': State)
    requires t < |s.threads| && k < KEYS_MAX && QuietKey(s, t, k, x) && Swept(x, t, k + 1, s')
    ensures Swept(s, t, k, s')
  {
    SameCallsDue(t, s.threads[t].slots, s.keys, x.threads[t].slots, x.keys, k + 1);
  }

  lemma AllEmptyStoresNothing(s: State, t: nat)
    requires Inv(s) && t < |s.threads| && forall j :: 0 <= j < KEYS_MAX ==> s.threads[t].slots[j] == NULL
    ensures s.threads[t].stored == 0
  {
    assert ThreadInv(s.threads[t], s.keys);
    SumBounds(s.threads[t].slots, 0, 0, NonNull);
  }

  /** From key k of the first iteration on, with the keys before k already empty. */
  lemma {:induction false} QuietSweepFrom(s: State, t: nat, k: nat) returns (es: seq<Event>, s': State)
    requires Inv(s) && t < |s.threads| && k <= KEYS_MAX && s.threads[t].sweep == At(k)
    requires forall j :: 0 <= j < k ==> s.threads[t].slots[j] == NULL
    ensures s' == Exec(Step, s, es) && Swept(s, t, k, s')
    ensures forall i :: 0 <= i < |es| ==> es[i] == Event(t, Advance)
    decreases KEYS_MAX - k
  {
    if k == KEYS_MAX {
      AllEmptyStoresNothing(s, t);
    }
    if s.threads[t].stored == 0 {
      QuietExit(s, t, k);
      es, s' := [Event(t, Advance)], SweepAt(s, t);
      ExecOne(Step, s, Event(t, Advance));
    } else {
      var fs, x := QuietOne(s, t, k);
      var gs;
      gs, s' := QuietSweepFrom(x, t, k + 1);
      es := fs + gs;
      ExecConcat(Step, s, fs, gs);
      SweptOneMore(s, t, k, x, s');
    }
  }

  lemma {:induction false} SameCallsDue(t: nat, a: Slots, keys: Table, b: Slots, keys': Table, k: nat)
    requires k <= KEYS_MAX && forall j :: k <= j < KEYS_MAX ==> a[j] == b[j] && keys[j] == keys'[j]
    ensures CallsDue(t, a, keys, k) == CallsDue(t, b, keys', k)
    decreases KEYS_MAX - k
  {
    if k < KEYS_MAX {
      SameCallsDue(t, a, keys, b, keys', k + 1);
    }
  }

  /** If the destructors store nothing, the sweep gives every value whose key has a
      destructor to it, once, in key order, leaves every slot NULL and drops exactly the
      references the row held; leaving early, as it always does, skips nothing. */
  lemma {:induction false} QuietSweep(s: State, t: nat) returns (es: seq<Event>, s': State)
    requires Inv(s) && t < |s.threads| && s.threads[t].sweep.NoSweep?
    ensures s' == Exec(Step, s, [Event(t, Begin)] + es) && Swept(s, t, 0, s')
    ensures forall i :: 0 <= i < |es| ==> es[i] == Event(t, Advance)
  {
    var x := Step(s, Event(t, Begin));
    StepKeepsInv(s, Event(t, Begin));
    es, s' := QuietSweepFrom(x, t, 0);
    ExecCons(Step, s, Event(t, Begin), es);
  }

  /** "Exactly once, in key order" of CallsDue: a call is listed for key j just when the row
      has a value there and the key a destructor, and keys increase along the list. */
  lemma {:induction false} CallsDueAreExact(t: nat, slots: Slots, keys: Table, k: nat)
    requires k <= KEYS_MAX
    ensures var cs := CallsDue(t, slots, keys, k);
      && (forall i :: 0 <= i < |cs| ==> (
            && k <= cs[i].key < KEYS_MAX && slots[cs[i].key] != NULL && cs[i].tid == t
            && keys[cs[i].key].dtor == Some(cs[i].dtor) && cs[i].data == slots[cs[i].key]))
      && (forall i, j :: 0 <= i < j < |cs| ==> cs[i].key < cs[j].key)
      && (forall j :: k <= j < KEYS_MAX && slots[j] != NULL && keys[j].dtor.Some? ==>
            Call(t, j, keys[j].dtor.value, slots[j]) in cs)
    decreases KEYS_MAX - k
  {
    if k < KEYS_MAX {
      CallsDueAreExact(t, slots, keys, k + 1);
    }
  }

  // ----- The sweep among other threads -----

  /** Thread t stores nothing along es: all it does is go on with its sweep, and, from its
      destructors, create and delete keys.  The other threads may do anything. */
  predicate StoresNothing(t: nat, es: seq<Event>) {
    forall i :: 0 <= i < |es| && es[i].tid == t ==> es[i].act.Advance? || es[i].act.Create? || es[i].act.Delete?
  }

  /** What a destructor may do without storing anything: anything but start a sweep or change
      a slot.  Setting a slot to what it holds, such as NULL to the slot being cleaned up,
      changes nothing. */
  predicate KeepsSlots(s: State, e: Event) {
    && !e.act.Begin?
    && (e.act.Set? && e.tid < |s.threads| && InRange(e.act.k) && s.keys[e.act.k].count != 0 ==>
          s.threads[e.tid].slots[e.act.k] == e.act.value)
  }

  /** Thread t changes no slot along es but by its sweep. */
  ghost predicate ChangesNoSlot(s: State, t: nat, es: seq<Event>) {
    forall i :: 0 <= i < |es| && es[i].tid == t ==> KeepsSlots(Exec(Step, s, es[..i]), es[i])
  }

  lemma StoringNothingChangesNoSlot(s: State, t: nat, es: seq<Event>)
    requires StoresNothing(t, es)
    ensures ChangesNoSlot(s, t, es)
  {
    forall i | 0 <= i < |es| && es[i].tid == t ensures KeepsSlots(Exec(Step, s, es[..i]), es[i]) {
      assert !es[i].act.Set? && !es[i].act.Begin?;
    }
  }

  /** The destructor calls made for thread t, in order. */
  function CallsBy(calls: seq<Call>, t: nat): seq<Call> {
    if calls == [] then [] else
      CallsBy(calls[..|calls| - 1], t) + (if calls[|calls| - 1].tid == t then [calls[|calls| - 1]] else [])
  }

  /** The slots the sweep has passed are empty. */
  predicate Passed(th: Thread) {
    match th.sweep
    case NoSweep => forall j :: 0 <= j < KEYS_MAX ==> th.slots[j] == NULL
    case At(pos) => forall j :: 0 <= j < KEYS_MAX && j < pos ==> th.slots[j] == NULL
    case InDestructor(pos) => forall j :: 0 <= j < KEYS_MAX && j <= pos ==> th.slots[j] == NULL
  }

  predicate EmptyBelow(slots: Slots, k: nat) { forall j :: 0 <= j < KEYS_MAX && j < k ==> slots[j] == NULL }

  /** The calls made for t, and those due to it from key k on. */
  function MadeAndDue(s: State, t: nat, k: nat): seq<Call>
    requires t < |s.threads| && k <= KEYS_MAX
  {
    CallsBy(s.calls, t) + CallsDue(t, s.threads[t].slots, s.keys, k)
  }

  /** What is due depends on the destructors of the keys with a value only. */
  lemma {:induction false} DueByDtors(t: nat, slots: Slots, keys: Table, keys': Table, k: nat)
    requires k <= KEYS_MAX
    requires forall j :: k <= j < KEYS_MAX && slots[j] != NULL ==> keys'[j].dtor == keys[j].dtor
    ensures CallsDue(t, slots, keys', k) == CallsDue(t, slots, keys, k)
    decreases KEYS_MAX - k
  {
    if k < KEYS_MAX {
      DueByDtors(t, slots, keys, keys', k + 1);
    }
  }

  /** Emptying the first slot with a value takes the first call off the list. */
  lemma {:induction false} FirstDue(t: nat, slots: Slots, keys: Table, i: nat, k: nat)
    requires i <= k < KEYS_MAX && slots[k] != NULL && forall j :: i <= j < k ==> slots[j] == NULL
    ensures CallsDue(t, slots, keys, i)
         == (if keys[k].dtor.Some? then [Call(t, k, keys[k].dtor.value, slots[k])] else [])
            + CallsDue(t, slots[k := NULL], keys, i)
    decreases k - i
  {
    if i == k {
      SameCallsDue(t, slots, keys, slots[k := NULL], keys, k + 1);
    } else {
      FirstDue(t, slots, keys, i + 1, k);
    }
  }

  lemma CallsBySnoc(calls: seq<Call>, c: Call, t: nat)
    ensures CallsBy(calls + [c], t) == CallsBy(calls, t) + (if c.tid == t then [c] else [])
  {
    assert (calls + [c])[..|calls|] == calls;
  }

  /** No step of anybody changes the destructor of a key under which t has a value. */
  lemma DueKept(s: State, e: Event, t: nat, i: nat)
    requires Inv(s) && t < |s.threads| && i <= KEYS_MAX
    ensures CallsDue(t, s.threads[t].slots, Step(s, e).keys, i) == CallsDue(t, s.threads[t].slots, s.keys, i)
  {
    forall j | 0 <= j < KEYS_MAX && s.threads[t].slots[j] != NULL
      ensures Step(s, e).keys[j].dtor == s.keys[j].dtor
    {
      InUse(s, t, j);
      DtorKept(s, e, j);
    }
    DueByDtors(t, s.threads[t].slots, s.keys, Step(s, e).keys, i);
  }

  /** What a step adds to the log of calls: at most one, for the thread that moves. */
  lemma OthersCallsKept(s: State, e: Event, t: nat)
    requires t < |s.threads| && e.tid != t
    ensures CallsBy(Step(s, e).calls, t) == CallsBy(s.calls, t)
  {
    var calls := Step(s, e).calls;
    if calls != s.calls {
      assert calls == s.calls + [calls[|s.calls|]];
      CallsBySnoc(s.calls, calls[|s.calls|], t);
    }
  }

  lemma NothingLeft(s: State, t: nat)
    requires Inv(s) && t < |s.threads| && s.threads[t].stored == 0
    ensures forall j :: 0 <= j < KEYS_MAX ==> s.threads[t].slots[j] == NULL
  {
    assert ThreadInv(s.threads[t], s.keys);
    forall j | 0 <= j < KEYS_MAX ensures s.threads[t].slots[j] == NULL {
      NothingStored(s.threads[t].slots, j);
    }
  }

  /** The call, if any, made for the first value is the first that was due. */
  lemma TakeFirst(calls: seq<Call>, t: nat, slots: Slots, keys: Table, keys': Table, i: nat, k: nat)
    requires i <= k < KEYS_MAX && slots[k] != NULL && forall j :: 0 <= j < k ==> slots[j] == NULL
    requires forall j :: 0 <= j < KEYS_MAX ==> keys'[j].dtor == keys[j].dtor
    ensures var made := if keys[k].dtor.Some? then [Call(t, k, keys[k].dtor.value, slots[k])] else [];
      CallsBy(calls + made, t) + CallsDue(t, slots[k := NULL], keys', i)
      == CallsBy(calls, t) + CallsDue(t, slots, keys, i)
  {
    var due := CallsDue(t, slots[k := NULL], keys, i);
    FirstDue(t, slots, keys, i, k);
    DueByDtors(t, slots[k := NULL], keys, keys', i);
    if keys[k].dtor.Some? {
      var c := Call(t, k, keys[k].dtor.value, slots[k]);
      CallsBySnoc(calls, c, t);
      assert CallsBy(calls, t) + ([c] + due) == CallsBy(calls, t) + [c] + due;
    } else {
      assert calls + [] == calls && [] + due == due;
    }
  }

  lemma TakingKeepsDue(s: State, t: nat, i: nat)
    requires t < |s.threads| && i <= KEYS_MAX && EmptyBelow(s.threads[t].slots, i)
    requires s.threads[t].sweep.At? && s.threads[t].sweep.pos < KEYS_MAX && Passed(s.threads[t])
    requires s.threads[t].stored != 0 && s.threads[t].slots[s.threads[t].sweep.pos] != NULL
    ensures MadeAndDue(SweepAt(s, t), t, i) == MadeAndDue(s, t, i)
  {
    var th, s' := s.threads[t], SweepAt(s, t);
    TakeFirst(s.calls, t, th.slots, s.keys, s'.keys, i, th.sweep.pos);
    assert s.calls + [] == s.calls;
  }

  lemma RoundKeepsDue(s: State, t: nat, i: nat)
    requires Inv(s) && i <= KEYS_MAX && t < |s.threads| && s.threads[t].sweep.At? && Passed(s.threads[t])
    requires EmptyBelow(s.threads[t].slots, i)
    ensures |SweepAt(s, t).threads| == |s.threads|
    ensures Passed(SweepAt(s, t).threads[t]) && MadeAndDue(SweepAt(s, t), t, i) == MadeAndDue(s, t, i)
  {
    var th := s.threads[t];
    if th.stored == 0 {
      NothingLeft(s, t);
    } else if th.sweep.pos < DESTRUCTOR_ITERATIONS * KEYS_MAX && th.slots[th.sweep.pos % KEYS_MAX] != NULL {
      assert th.sweep.pos % KEYS_MAX == th.sweep.pos;
      TakingKeepsDue(s, t, i);
    }
  }

  lemma StepKeepsDue(s: State, e: Event, t: nat, i: nat)
    requires Inv(s) && t < |s.threads| && Passed(s.threads[t]) && i <= KEYS_MAX && EmptyBelow(s.threads[t].slots, i)
    requires e.tid == t ==> KeepsSlots(s, e)
    ensures |Step(s, e).threads| == |s.threads|
    ensures Passed(Step(s, e).threads[t]) && EmptyBelow(Step(s, e).threads[t].slots, i)
    ensures MadeAndDue(Step(s, e), t, i) == MadeAndDue(s, t, i)
  {
    if e.tid != t {
      OthersRecordKept(s, e, t);
      OthersCallsKept(s, e, t);
      DueKept(s, e, t, i);
    } else if e.act.Advance? && s.threads[t].sweep.At? {
      RoundKeepsDue(s, t, i);
    } else {
      DueKept(s, e, t, i);
      RecordKept(s, e);
    }
  }

  /** What else a thread may do while it keeps its slots. */
  lemma RecordKept(s: State, e: Event)
    requires e.tid < |s.threads| && KeepsSlots(s, e) && !(e.act.Advance? && s.threads[e.tid].sweep.At?)
    ensures var th, th' := s.threads[e.tid], Step(s, e).threads[e.tid];
      && |Step(s, e).threads| == |s.threads| && th'.slots == th.slots && Step(s, e).calls == s.calls
      && (th'.sweep == th.sweep || (th.sweep.InDestructor? && th'.sweep == At(th.sweep.pos + 1)))
  {
    if e.act.Set? && InRange(e.act.k) && s.keys[e.act.k].count != 0 {
      var slots := s.threads[e.tid].slots;
      assert slots[e.act.k := e.act.value] == slots;
    }
  }

  lemma PrefixChangesNoSlot(s: State, t: nat, es: seq<Event>, e: Event)
    requires ChangesNoSlot(s, t, es + [e])
    ensures ChangesNoSlot(s, t, es) && (e.tid == t ==> KeepsSlots(Exec(Step, s, es), e))
  {
    var fs := es + [e];
    assert fs[..|es|] == es && fs[|es|] == e;
    forall i | 0 <= i < |es| && es[i].tid == t ensures KeepsSlots(Exec(Step, s, es[..i]), es[i]) {
      assert fs[..i] == es[..i] && fs[i] == es[i];
    }
  }

  lemma {:induction false} RunKeepsDue(s: State, es: seq<Event>, t: nat, i: nat)
    requires Inv(s) && t < |s.threads| && Passed(s.threads[t]) && i <= KEYS_MAX && EmptyBelow(s.threads[t].slots, i)
    requires ChangesNoSlot(s, t, es)
    ensures var s' := Exec(Step, s, es);
      && Inv(s') && |s'.threads| == |s.threads| && Passed(s'.threads[t]) && EmptyBelow(s'.threads[t].slots, i)
      && MadeAndDue(s', t, i) == MadeAndDue(s, t, i)
  {
    if es != [] {
      var k := |es| - 1;
      var x := Exec(Step, s, es[..k]);
      assert es == es[..k] + [es[k]];
      PrefixChangesNoSlot(s, t, es[..k], es[k]);
      RunKeepsDue(s, es[..k], t, i);
      StepKeepsInv(x, es[k]);
      StepKeepsDue(x, es[k], t, i);
    }
  }

  /** The sweep of t is over: its row is empty, and beside the earlier calls made for it
      there are exactly those that were due. */
  ghost predicate SweptAmid(s: State, t: nat, s': State)
    requires t < |s.threads|
  {
    && |s'.threads| == |s.threads| && s'.threads[t].sweep.NoSweep? && s'.threads[t].stored == 0
    && (forall j :: 0 <= j < KEYS_MAX ==> s'.threads[t].slots[j] == NULL)
    && CallsBy(s'.calls, t) == CallsBy(s.calls, t) + CallsDue(t, s.threads[t].slots, s.keys, 0)
  }

  lemma OverMeansSwept(s: State, t: nat, s': State)
    requires Inv(s') && t < |s.threads| == |s'.threads| && s'.threads[t].sweep.NoSweep? && Passed(s'.threads[t])
    requires MadeAndDue(s', t, 0) == MadeAndDue(s, t, 0)
    ensures SweptAmid(s, t, s')
  {
    AllEmptyStoresNothing(s', t);
    EmptyFromNoCalls(t, s'.threads[t].slots, s'.keys, 0);
  }

  /** The destructor loop in every run.  Whatever the other threads do while the loop runs,
      between its destructor calls and during them, creating, deleting and storing under any
      keys and sweeping rows of their own: if t's own destructors change no slot, then, when
      its sweep is over, every value it had whose key had a destructor has gone to that
      destructor, exactly once and in key order, and every slot is NULL. */
  lemma {:induction false} SweepAmongOthers(s: State, t: nat, es: seq<Event>)
    requires Inv(s) && t < |s.threads| && s.threads[t].sweep == At(0) && ChangesNoSlot(s, t, es)
    ensures |Exec(Step, s, es).threads| == |s.threads|
    ensures Exec(Step, s, es).threads[t].sweep.NoSweep? ==> SweptAmid(s, t, Exec(Step, s, es))
  {
    RunKeepsDue(s, es, t, 0);
    if Exec(Step, s, es).threads[t].sweep.NoSweep? {
      OverMeansSwept(s, t, Exec(Step, s, es));
    }
  }

  lemma ProgressKept(s: State, e: Event, t: nat)
    requires Inv(s) && t < |s.threads| && !(e.tid == t && e.act.Begin?) && e != Event(t, Advance)
    ensures |Step(s, e).threads| == |s.threads| && Step(s, e).threads[t].sweep == s.threads[t].sweep
  {
    if e.tid != t {
      OthersRecordKept(s, e, t);
    }
  }

  /** And it does get over: whatever destructors store and whatever the others do, after at
      most 2 * 4 * 48 + 1 of its own steps. */
  lemma {:induction false} SweepEnds(s: State, t: nat, es: seq<Event>)
    requires Inv(s) && t < |s.threads| && forall i :: 0 <= i < |es| && es[i].tid == t ==> !es[i].act.Begin?
    ensures var s' := Exec(Step, s, es);
      && Inv(s') && |s'.threads| == |s.threads|
      && (s'.threads[t].sweep.NoSweep? || Progress(s'.threads[t].sweep) >= Occurrences(es, Event(t, Advance)))
    ensures Occurrences(es, Event(t, Advance)) > 2 * DESTRUCTOR_ITERATIONS * KEYS_MAX ==>
      Exec(Step, s, es).threads[t].sweep.NoSweep?
  {
    if es != [] {
      var k := |es| - 1;
      var x := Exec(Step, s, es[..k]);
      SweepEnds(s, t, es[..k]);
      StepKeepsInv(x, es[k]);
      if es[k] != Event(t, Advance) {
        ProgressKept(x, es[k], t);
      } else if !x.threads[t].sweep.NoSweep? {
        SweepAdvances(x, t);
      }
    }
    assert ThreadInv(Exec(Step, s, es).threads[t], Exec(Step, s, es).keys);
  }

  // ----- The passes of a sweep -----

  predicate Sweeping(s: State, t: nat) { t < |s.threads| && !s.threads[t].sweep.NoSweep? }

  /** The events by which t's sweep goes over its slot k. */
  function Visits(t: nat, k: nat): (State, Event) -> bool {
    (x: State, e: Event) =>
      e == Event(t, Advance) && t < |x.threads| && x.threads[t].sweep.At?
      && x.threads[t].sweep.pos % KEYS_MAX == k && Sweeping(Step(x, e), t)
  }

  /** How often it has gone over slot k by then. */
  function PassesOver(sweep: Sweep, k: nat): int
    requires k < KEYS_MAX
  {
    match sweep
    case NoSweep => 0
    case At(pos) => (pos + KEYS_MAX - 1 - k) / KEYS_MAX
    case InDestructor(pos) => (pos + KEYS_MAX - k) / KEYS_MAX
  }

  /** A visit leaves the slot empty, and has called the destructor of what it found. */
  lemma VisitServes(s: State, e: Event, t: nat, k: nat)
    requires t < |s.threads| && k < KEYS_MAX && Visits(t, k)(s, e)
    ensures var s', v := Step(s, e), s.threads[t].slots[k];
      && t < |s'.threads| && s'.threads[t].slots == s.threads[t].slots[k := NULL]
      && s'.calls == s.calls + (if v != NULL && s.keys[k].dtor.Some? then [Call(t, k, s.keys[k].dtor.value, v)] else [])
  {
  }

  lemma NextPass(pos: nat, k: nat)
    requires k < KEYS_MAX
    ensures PassesOver(At(pos + 1), k) == PassesOver(At(pos), k) + (if pos % KEYS_MAX == k then 1 else 0)
    ensures PassesOver(InDestructor(pos), k) == PassesOver(At(pos + 1), k)
  {
  }

  lemma SweepStep(s: State, e: Event, t: nat, k: nat)
    requires Sweeping(s, t) && k < KEYS_MAX
    ensures Sweeping(Step(s, e), t) ==>
      PassesOver(Step(s, e).threads[t].sweep, k)
      == PassesOver(s.threads[t].sweep, k) + (if Visits(t, k)(s, e) then 1 else 0)
  {
    if e == Event(t, Advance) {
      NextPass(s.threads[t].sweep.pos, k);
    }
  }

  lemma {:induction false} PassesSoFar(s1: State, t: nat, es: seq<Event>, k: nat)
    requires t < |s1.threads| && s1.threads[t].sweep == At(0) && k < KEYS_MAX
    requires Always(Step, s1, es, x => Sweeping(x, t))
    ensures Sweeping(Exec(Step, s1, es), t)
    ensures Times(Step, s1, es, Visits(t, k)) == PassesOver(Exec(Step, s1, es).threads[t].sweep, k)
  {
    if es == [] {
      assert es[..0] == [];
    } else {
      var n := |es| - 1;
      assert es == es[..n] + [es[n]];
      AlwaysPrefix(Step, s1, es[..n], es[n], x => Sweeping(x, t));
      PassesSoFar(s1, t, es[..n], k);
      SweepStep(Exec(Step, s1, es[..n]), es[n], t, k);
      TimesSnoc(Step, s1, es[..n], es[n], Visits(t, k));
    }
  }

  /** The verdict of a whole sweep, in every run, whatever destructors store: it ends with
      every slot empty, or after it has gone over every slot four times. */
  lemma {:induction false} SweepVerdict(s: State, t: nat, es: seq<Event>, last: Event, k: nat)
    requires Inv(s) && t < |s.threads| && s.threads[t].sweep.NoSweep? && k < KEYS_MAX
    ensures var s1 := Step(s, Event(t, Begin));
      var s' := Step(Exec(Step, s1, es), last);
      Always(Step, s1, es, x => Sweeping(x, t)) && t < |s'.threads| && s'.threads[t].sweep.NoSweep? ==>
        || (forall j :: 0 <= j < KEYS_MAX ==> s'.threads[t].slots[j] == NULL)
        || Times(Step, s1, es, Visits(t, k)) == 4
  {
    var s1 := Step(s, Event(t, Begin));
    var x := Exec(Step, s1, es);
    if Always(Step, s1, es, y => Sweeping(y, t)) && t < |Step(x, last).threads| && !Sweeping(Step(x, last), t) {
      StepKeepsInv(s, Event(t, Begin));
      InvAlong(s1, es);
      PassesSoFar(s1, t, es, k);
      assert ThreadInv(x.threads[t], x.keys);
      if x.threads[t].stored == 0 {
        forall j | 0 <= j < KEYS_MAX ensures x.threads[t].slots[j] == NULL {
          NothingStored(x.threads[t].slots, j);
        }
      }
    }
  }

  // ----- The life of a key -----

  /** A key is allocated by a create that finds it free first, and freed by its own delete,
      while nothing uses it; nothing else does either. */
  lemma KeyLifetime(s: State, e: Event, k: nat)
    requires Inv(s) && k < KEYS_MAX
    ensures s.keys[k].count == 0 && Step(s, e).keys[k].count != 0 ==>
      e.act.Create? && FirstFree(s.keys, 0) == k && Step(s, e).keys[k] == Key(1, e.act.dtor)
    ensures s.keys[k].count != 0 && Step(s, e).keys[k].count == 0 ==>
      e.act.Delete? && e.act.k == k && s.keys[k].count == 1
  {
    FirstFreeIsFree(s.keys, 0);
    if e.tid < |s.threads| {
      KeyInUse(s, e.tid, k);
      var th := s.threads[e.tid];
      assert th.slots[k] != NULL ==> Refs(th, k) > 0;
      assert th.sweep.InDestructor? && th.sweep.pos % KEYS_MAX == k ==> Refs(th, k) > 0;
    }
  }

  lemma KeyInUse(s: State, t: nat, k: nat)
    requires Inv(s) && t < |s.threads| && k < KEYS_MAX
    ensures s.keys[k].count == 0 ==> Refs(s.threads[t], k) == 0
    ensures Refs(s.threads[t], k) > 0 ==> s.keys[k].count >= 2
    ensures s.keys[k].count >= 0
  {
    assert KeyInv(s.keys, s.threads, k);
    SumAtLeast(s.threads, t, RefsTo(k));
    SumNonNegative(s.threads, RefsTo(k));
  }

  /** For as long as a key is allocated, with data or without, its destructor stays. */
  lemma DtorKeptWhileAllocated(s: State, e: Event, k: nat)
    requires k < KEYS_MAX && s.keys[k].count >= 1
    ensures Step(s, e).keys[k].count >= 1 ==> Step(s, e).keys[k].dtor == s.keys[k].dtor
  {
    FirstFreeIsFree(s.keys, 0);
  }

  predicate Allocated(s: State, k: nat) { k < KEYS_MAX && s.keys[k].count >= 1 }

  lemma {:induction false} DtorKeptAlong(s: State, es: seq<Event>, k: nat)
    requires k < KEYS_MAX && Always(Step, s, es, x => Allocated(x, k))
    ensures Exec(Step, s, es).keys[k].dtor == s.keys[k].dtor
  {
    if es != [] {
      var n := |es| - 1;
      assert es == es[..n] + [es[n]];
      AlwaysPrefix(Step, s, es[..n], es[n], x => Allocated(x, k));
      DtorKeptAlong(s, es[..n], k);
      DtorKeptWhileAllocated(Exec(Step, s, es[..n]), es[n], k);
    }
  }

  /** The key that a create hands out keeps the destructor given for as long as it is not
      freed, whatever anybody does. */
  lemma {:induction false} CreatedKeyKeepsDtor(s: State, dtor: Option<nat>, es: seq<Event>)
    requires Inv(s) && CreateResult(s).OK?
    ensures var k, s1 := FirstFree(s.keys, 0), KeyCreate(s, dtor);
      Always(Step, s1, es, x => Allocated(x, k)) ==> Exec(Step, s1, es).keys[k].dtor == dtor
  {
    FirstFreeIsFree(s.keys, 0);
    var k, s1 := FirstFree(s.keys, 0), KeyCreate(s, dtor);
    assert s1.keys[k].dtor == dtor;
    if Always(Step, s1, es, x => Allocated(x, k)) {
      DtorKeptAlong(s1, es, k);
    }
  }

  /** The calls in cs for key k: the one with value v if there is a destructor, else none. */
  predicate OnlyCall(cs: seq<Call>, t: nat, k: nat, dtor: Option<nat>, v: Pointer) {
    && (dtor.Some? ==> Call(t, k, dtor.value, v) in cs)
    && (forall i :: 0 <= i < |cs| && cs[i].key == k ==> dtor.Some? && cs[i] == Call(t, k, dtor.value, v))
    && forall i, j :: 0 <= i < j < |cs| ==> cs[i].key != cs[j].key
  }

  lemma DueForKey(x: State, t: nat, k: nat)
    requires t < |x.threads| && k < KEYS_MAX && x.threads[t].slots[k] != NULL
    ensures OnlyCall(CallsDue(t, x.threads[t].slots, x.keys, 0), t, k, x.keys[k].dtor, x.threads[t].slots[k])
  {
    CallsDueAreExact(t, x.threads[t].slots, x.keys, 0);
  }

  /** A value stored under a created key that has not been freed goes, when its thread ends,
      to the destructor the key was created with, once; if it was created with none, to no
      destructor.  From the create s1 a run leads to x, where t, which has value v under the
      key, begins its sweep; along fs its destructors change no slot, and in y it is over. */
  lemma {:induction false} StoredReachesItsDestructor(s: State, dtor: Option<nat>, es: seq<Event>, x: State,
                                                       t: nat, fs: seq<Event>, y: State)
    requires Inv(s) && CreateResult(s).OK? && x == Exec(Step, KeyCreate(s, dtor), es)
    requires Always(Step, KeyCreate(s, dtor), es, z => Allocated(z, FirstFree(s.keys, 0)))
    requires t < |x.threads| && x.threads[t].sweep.NoSweep?
    requires y == Exec(Step, Step(x, Event(t, Begin)), fs) && t < |y.threads| && y.threads[t].sweep.NoSweep?
    requires ChangesNoSlot(Step(x, Event(t, Begin)), t, fs)
    ensures var k := FirstFree(s.keys, 0);
      k < KEYS_MAX && (x.threads[t].slots[k] != NULL ==>
        exists cs ::
          CallsBy(y.calls, t) == CallsBy(x.calls, t) + cs && OnlyCall(cs, t, k, dtor, x.threads[t].slots[k]))
  {
    var k, s1 := FirstFree(s.keys, 0), KeyCreate(s, dtor);
    FirstFreeIsFree(s.keys, 0);
    TableChange(s, k, Key(1, dtor));
    InvAlong(s1, es);
    CreatedKeyKeepsDtor(s, dtor, es);
    if x.threads[t].slots[k] != NULL {
      SweptByItsDtor(x, t, k, fs, y);
    }
  }

  lemma SweptByItsDtor(x: State, t: nat, k: nat, fs: seq<Event>, y: State)
    requires Inv(x) && t < |x.threads| && x.threads[t].sweep.NoSweep? && k < KEYS_MAX && x.threads[t].slots[k] != NULL
    requires y == Exec(Step, Step(x, Event(t, Begin)), fs) && t < |y.threads| && y.threads[t].sweep.NoSweep?
    requires ChangesNoSlot(Step(x, Event(t, Begin)), t, fs)
    ensures exists cs ::
      CallsBy(y.calls, t) == CallsBy(x.calls, t) + cs && OnlyCall(cs, t, k, x.keys[k].dtor, x.threads[t].slots[k])
  {
    var x1 := Step(x, Event(t, Begin));
    StepKeepsInv(x, Event(t, Begin));
    SweepAmongOthers(x1, t, fs);
    DueForKey(x, t, k);
    var cs := CallsDue(t, x.threads[t].slots, x.keys, 0);
    assert CallsBy(y.calls, t) == CallsBy(x.calls, t) + cs;
  }

  lemma InvAlong(s: State, es: seq<Event>)
    requires Inv(s)
    ensures Inv(Exec(Step, s, es))
  {
    forall x, e | Inv(x) ensures Inv(Step(x, e)) {
      StepKeepsInv(x, e);
    }
    InvariantOfRuns(Step, Inv, s, es);
  }

  // ----- The table itself -----

  /** key_table and the threads' specific data. */
  class KeySystem {
    var key_table: Table
    var threads: seq<Thread>
    var calls: seq<Call>

    function Contents(): State
      reads this
    {
      State(key_table, threads, calls)
    }

    constructor (n: nat)
      ensures Init(Contents()) && |threads| == n && calls == []
    {
      key_table := seq(KEYS_MAX, _ => Key(0, None));
      threads := seq(n, _ => Thread(seq(KEYS_MAX, _ => NULL), 0, NoSweep, 0));
      calls := [];
    }

    method Create(dtor: Option<nat>) returns (key: nat, res: Errno)
      modifies this
      ensures Contents() == KeyCreate(old(Contents()), dtor)
      ensures res == CreateResult(old(Contents())) && (res.OK? ==> key == FirstFree(old(key_table), 0))
    {
      var kix := 0;
      while kix < KEYS_MAX
        invariant kix <= KEYS_MAX && Contents() == old(Contents())
        invariant FirstFree(key_table, 0) == FirstFree(key_table, kix)
      {
        if key_table[kix].count == 0 {
          key_table := key_table[kix := Key(key_table[kix].count + 1, dtor)];
          return kix, OK;
        }
        kix := kix + 1;
      }
      return kix, EAGAIN;
    }

    method Delete(k: int) returns (res: Errno)
      modifies this
      ensures Contents() == KeyDelete(old(Contents()), k)
      ensures res == if InRange(k) then OK else EINVAL
    {
      if !InRange(k) {
        return EINVAL;
      }
      if key_table[k].count == 1 {
        key_table := key_table[k := Key(0, None)];
      }
      res := OK;
    }

    method SetSpecific(me: nat, k: int, value: Pointer) returns (res: Errno)
      requires me < |threads|
      modifies this
      ensures Contents() == SetValue(old(Contents()), me, k, value)
      ensures res == if InRange(k) then OK else EINVAL
    {
      if !InRange(k) {
        return EINVAL;
      }
      res := OK;
      if key_table[k].count == 0 {
        return;
      }
      var th := threads[me];
      if th.slots[k] == NULL {
        if value != NULL {
          th := th.(stored := th.stored + 1);
          key_table := AddRef(key_table, k, 1);
        }
      } else if value == NULL {
        th := th.(stored := th.stored - 1);
        key_table := AddRef(key_table, k, -1);
      }
      threads := threads[me := th.(slots := th.slots[k := value])];
    }

    method GetSpecific(me: nat, k: int) returns (ret: Pointer)
      requires me < |threads|
      ensures ret == GetValue(Contents(), me, k)
    {
      if !InRange(k) {
        return NULL;
      }
      if key_table[k].count != 0 {
        ret := threads[me].slots[k];
      } else {
        ret := NULL;
      }
    }

    /** One event by any thread. */
    method Perform(e: Event)
      modifies this
      ensures Contents() == Step(old(Contents()), e)
    {
      var t := e.tid;
      if t >= |threads| {
        return;
      }
      match e.act
      case Create(dtor) => var _, _ := Create(dtor);
      case Delete(k) => var _ := Delete(k);
      case Set(k, value) => var _ := SetSpecific(t, k, value);
      case Begin =>
        if threads[t].sweep.NoSweep? {
          threads := threads[t := threads[t].(sweep := At(0), made := 0)];
        }
      case Advance =>
        if threads[t].sweep.At? {
          var s := SweepAt(Contents(), t);
          key_table, threads, calls := s.keys, s.threads, s.calls;
        } else if threads[t].sweep.InDestructor? {
          var s := SweepResume(Contents(), t);
          key_table, threads := s.keys, s.threads;
        }
    }

    /** The destructor loop of one thread.  `during[i]` is what happens, in any thread,
        while its i-th destructor call runs; only the sweep itself is not among it.  The
        loop is a run of the machine, and makes at most 4 * 48 calls. */
    method CleanupSpecific(me: nat, during: seq<seq<Event>>) returns (ghost es: seq<Event>, made: nat)
      requires me < |threads| && threads[me].sweep.NoSweep? && Inv(Contents()) && LeaveSweep(me, during)
      modifies this
      ensures Contents() == Exec(Step, old(Contents()), es) && Inv(Contents())
      ensures |threads| == old(|threads|) && threads[me].sweep.NoSweep?
      ensures made == threads[me].made <= DESTRUCTOR_ITERATIONS * KEYS_MAX
      ensures AllQuiet(during) ==> Swept(old(Contents()), me, 0, Contents())
      ensures AllStoreNothing(me, during) ==> SweptAmid(old(Contents()), me, Contents())
      ensures es != [] && es[0] == Event(me, Begin)
      ensures ChangesNoSlot(Step(old(Contents()), es[0]), me, es[1..]) ==> SweptAmid(old(Contents()), me, Contents())
    {
      ghost var s0 := Contents();
      es := CleanupBegin(me, during);
      made := 0;
      ghost var pos := 0;
      var iter, exit := 0, false;
      while iter < DESTRUCTOR_ITERATIONS && !exit
        invariant iter <= DESTRUCTOR_ITERATIONS
        invariant LoopInv(s0, es, Contents(), me, pos, during) && made == threads[me].made
        invariant if exit then threads[me].stored == 0 else pos == iter * KEYS_MAX
      {
        es, pos, made, exit := CleanupIteration(me, during, made, s0, es, iter);
        iter := iter + 1;
      }
      es := CleanupEnd(me, s0, es, during);
    }

    /** One pass over the keys, left early when the row is empty. */
    method CleanupIteration(me: nat, during: seq<seq<Event>>, before: nat, ghost s0: State, ghost es0: seq<Event>,
                            iter: nat)
      returns (ghost es: seq<Event>, ghost pos: nat, made: nat, exit: bool)
      requires LoopInv(s0, es0, Contents(), me, iter * KEYS_MAX, during) && LeaveSweep(me, during)
      requires iter < DESTRUCTOR_ITERATIONS && before == threads[me].made
      modifies this
      ensures LoopInv(s0, es, Contents(), me, pos, during) && made == threads[me].made
      ensures if exit then threads[me].stored == 0 else pos == (iter + 1) * KEYS_MAX
    {
      es, pos, made, exit := es0, iter * KEYS_MAX, before, false;
      var key := 0;
      while key < KEYS_MAX
        invariant key <= KEYS_MAX && pos == iter * KEYS_MAX + key
        invariant LoopInv(s0, es, Contents(), me, pos, during) && made == threads[me].made
      {
        if threads[me].stored == 0 {
          exit := true;
          return;
        }
        NthEvents(me, during, made);
        es := CleanupNext(me, key, Nth(during, made), s0, es, pos, during);
        made := threads[me].made;
        pos := pos + 1;
        key := key + 1;
      }
    }

    method CleanupBegin(me: nat, ghost during: seq<seq<Event>>) returns (ghost es: seq<Event>)
      requires me < |threads| && threads[me].sweep.NoSweep? && Inv(Contents())
      modifies this
      ensures LoopInv(old(Contents()), es, Contents(), me, 0, during) && threads[me].made == 0
    {
      BeginSweep(Contents(), me, during);
      es := [Event(me, Begin)];
      threads := threads[me := threads[me].(sweep := At(0), made := 0)];
    }

    method CleanupEnd(me: nat, ghost s0: State, ghost es: seq<Event>, ghost during: seq<seq<Event>>)
      returns (ghost es': seq<Event>)
      requires me < |threads| && threads[me].sweep.At?
      requires LoopInv(s0, es, Contents(), me, threads[me].sweep.pos, during)
      requires threads[me].stored == 0 || threads[me].sweep.pos == DESTRUCTOR_ITERATIONS * KEYS_MAX
      modifies this
      ensures Contents() == Exec(Step, s0, es') && Inv(Contents())
      ensures |threads| == |s0.threads| && threads[me].sweep.NoSweep?
      ensures threads[me].made == old(threads[me].made) <= DESTRUCTOR_ITERATIONS * KEYS_MAX
      ensures AllQuiet(during) ==> Swept(s0, me, 0, Contents())
      ensures AllStoreNothing(me, during) ==> SweptAmid(s0, me, Contents())
      ensures es' != [] && es'[0] == Event(me, Begin)
      ensures ChangesNoSlot(Step(s0, es'[0]), me, es'[1..]) ==> SweptAmid(s0, me, Contents())
    {
      EndSweep(s0, es, Contents(), me, during);
      es' := es + [Event(me, Advance)];
      threads := threads[me := threads[me].(sweep := NoSweep)];
      assert ThreadInv(threads[me], key_table);
    }

    /** The same round, seen from the whole run so far. */
    method CleanupNext(me: nat, key: nat, events: seq<Event>, ghost s0: State, ghost es: seq<Event>,
                       ghost pos: nat, ghost during: seq<seq<Event>>)
      returns (ghost es': seq<Event>)
      requires LoopInv(s0, es, Contents(), me, pos, during) && threads[me].stored != 0 && LeavesSweep(me, events)
      requires pos < DESTRUCTOR_ITERATIONS * KEYS_MAX && key == pos % KEYS_MAX
      requires (AllQuiet(during) ==> events == []) && (AllStoreNothing(me, during) ==> StoresNothing(me, events))
      modifies this
      ensures LoopInv(s0, es', Contents(), me, pos + 1, during)
    {
      ghost var before := Contents();
      ghost var fs := CleanupKey(me, threads[me].sweep.pos, key, events);
      LoopStep(s0, es, before, me, pos, during, fs, Contents());
      es' := es + fs;
    }

    /** The body of the inner loop, for a row that is not empty. */
    method CleanupKey(me: nat, pos: nat, key: nat, events: seq<Event>) returns (ghost es: seq<Event>)
      requires me < |threads| && threads[me].sweep == At(pos) && Inv(Contents()) && LeavesSweep(me, events)
      requires pos < DESTRUCTOR_ITERATIONS * KEYS_MAX && key == pos % KEYS_MAX && threads[me].stored != 0
      modifies this
      ensures Contents() == Exec(Step, old(Contents()), es) && Inv(Contents())
      ensures |threads| == old(|threads|) && threads[me].sweep == At(pos + 1)
      ensures events == [] ==> Contents() == QuietStep(old(Contents()), me)
      ensures StoresNothing(me, events) ==> StoresNothing(me, es)
    {
      if threads[me].slots[key] == NULL {
        ghost var s0 := Contents();
        es := [Event(me, Advance)];
        ExecOne(Step, s0, Event(me, Advance));
        SweepAtKeepsInv(s0, me);
        threads := threads[me := threads[me].(sweep := At(pos + 1))];
      } else {
        es := CleanupValue(me, pos, key, events);
      }
    }

    /** ... and for a slot that is not empty. */
    method CleanupValue(me: nat, pos: nat, key: nat, events: seq<Event>) returns (ghost es: seq<Event>)
      requires me < |threads| && threads[me].sweep == At(pos) && Inv(Contents()) && LeavesSweep(me, events)
      requires pos < DESTRUCTOR_ITERATIONS * KEYS_MAX && key == pos % KEYS_MAX && threads[me].slots[key] != NULL
      requires threads[me].stored != 0
      modifies this
      ensures Contents() == Exec(Step, old(Contents()), es) && Inv(Contents())
      ensures |threads| == old(|threads|) && threads[me].sweep == At(pos + 1)
      ensures events == [] ==> Contents() == QuietStep(old(Contents()), me)
      ensures StoresNothing(me, events) ==> StoresNothing(me, es)
    {
      ghost var s0 := Contents();
      var th := threads[me];
      es := [Event(me, Advance)];
      ExecOne(Step, s0, Event(me, Advance));
      SweepAtKeepsInv(s0, me);
      var data := th.slots[key];
      th := th.(slots := th.slots[key := NULL], stored := th.stored - 1);
      match key_table[key].dtor {
        case None =>
          threads := threads[me := th.(sweep := At(pos + 1))];
          key_table := AddRef(key_table, key, -1);
        case Some(d) =>
          threads := threads[me := th.(sweep := InDestructor(pos), made := th.made + 1)];
          calls := calls + [Call(me, key, d, data)];
          assert Contents() == SweepAt(s0, me);
          ghost var fs := CallDestructor(me, pos, key, events);
          ExecConcat(Step, s0, es, fs);
          es := es + fs;
      }
    }

    /** The call of a destructor, and giving up its key's reference afterwards. */
    method CallDestructor(me: nat, pos: nat, key: nat, events: seq<Event>) returns (ghost fs: seq<Event>)
      requires me < |threads| && threads[me].sweep == InDestructor(pos) && Inv(Contents()) && LeavesSweep(me, events)
      requires pos < DESTRUCTOR_ITERATIONS * KEYS_MAX && key == pos % KEYS_MAX
      modifies this
      ensures Contents() == Exec(Step, old(Contents()), fs) && Inv(Contents())
      ensures |threads| == old(|threads|) && threads[me].sweep == At(pos + 1)
      ensures events == [] ==> Contents() == SweepResume(old(Contents()), me)
      ensures StoresNothing(me, events) ==> StoresNothing(me, fs)
    {
      ghost var s0 := Contents();
      fs := RunDestructor(me, events);
      ExecSnoc(Step, s0, fs, Event(me, Advance));
      fs := fs + [Event(me, Advance)];
      SweepResumeKeepsInv(Contents(), me);
      threads := threads[me := threads[me].(sweep := At(pos + 1))];
      key_table := AddRef(key_table, key, -1);
    }

    /** What goes on while a destructor runs: the sweep of `me` stays where it is. */
    method RunDestructor(me: nat, events: seq<Event>) returns (ghost fs: seq<Event>)
      requires me < |threads| && Inv(Contents()) && LeavesSweep(me, events)
      modifies this
      ensures fs == events && Contents() == Exec(Step, old(Contents()), fs) && Inv(Contents())
      ensures |threads| == old(|threads|) && threads[me].sweep == old(threads[me].sweep)
      ensures threads[me].made == old(threads[me].made)
    {
      fs := events;
      for i := 0 to |events|
        invariant Contents() == Exec(Step, old(Contents()), events[..i]) && Inv(Contents())
        invariant |threads| == old(|threads|) && threads[me].sweep == old(threads[me].sweep)
        invariant threads[me].made == old(threads[me].made)
      {
        StepKeepsInv(Contents(), events[i]);
        SweepKept(Contents(), events[i], me);
        Perform(events[i]);
        assert events[..i + 1][..i] == events[..i];
      }
      assert events[..|events|] == events;
    }
  }

  /** A sweep whose destructors store nothing has come to key k of the first iteration:
      what remains to be done from here completes what was to be done from the start. */
  ghost predicate QuietSoFar(s0: State, s: State, t: nat, k: nat) {
    && t < |s0.threads| && t < |s.threads| && k <= KEYS_MAX && s.threads[t].sweep == At(k)
    && (forall j :: 0 <= j < k ==> s.threads[t].slots[j] == NULL)
    && forall s' :: Swept(s, t, k, s') ==> Swept(s0, t, 0, s')
  }

  lemma QuietKeyDone(s0: State, s: State, t: nat, k: nat, x: State)
    requires QuietSoFar(s0, s, t, k) && Inv(s) && s.threads[t].stored != 0
    requires k < KEYS_MAX ==> QuietKey(s, t, k, x)
    ensures QuietSoFar(s0, x, t, k + 1)
  {
    if k == KEYS_MAX {
      AllEmptyStoresNothing(s, t);
    } else {
      forall s' | Swept(x, t, k + 1, s') ensures Swept(s0, t, 0, s') {
        SweptOneMore(s, t, k, x, s');
      }
    }
  }

  /** What the nested loops keep: the state is that of a run, and the sweep is at pos. */
  ghost predicate LoopInv(s0: State, es: seq<Event>, s: State, t: nat, pos: nat, during: seq<seq<Event>>) {
    && s == Exec(Step, s0, es) && Inv(s) && t < |s0.threads| == |s.threads|
    && s.threads[t].sweep == At(pos) && pos <= DESTRUCTOR_ITERATIONS * KEYS_MAX
    && (AllQuiet(during) ==> QuietSoFar(s0, s, t, pos))
    && Inv(s0) && s0.threads[t].sweep.NoSweep? && es != [] && es[0] == Event(t, Begin)
    && (AllStoreNothing(t, during) ==> StoresNothing(t, es[1..]))
  }

  lemma BeginSweep(s0: State, t: nat, during: seq<seq<Event>>)
    requires Inv(s0) && t < |s0.threads| && s0.threads[t].sweep.NoSweep?
    ensures LoopInv(s0, [Event(t, Begin)], Step(s0, Event(t, Begin)), t, 0, during)
  {
    ExecOne(Step, s0, Event(t, Begin));
    StepKeepsInv(s0, Event(t, Begin));
  }

  lemma TailOfConcat(es: seq<Event>, fs: seq<Event>)
    requires es != []
    ensures (es + fs)[1..] == es[1..] + fs
  {
  }

  lemma LoopStep(s0: State, es: seq<Event>, s: State, t: nat, pos: nat, during: seq<seq<Event>>,
                 fs: seq<Event>, x: State)
    requires LoopInv(s0, es, s, t, pos, during)
    requires s.threads[t].stored != 0 && pos < DESTRUCTOR_ITERATIONS * KEYS_MAX
    requires x == Exec(Step, s, fs) && Inv(x) && |x.threads| == |s.threads| && x.threads[t].sweep == At(pos + 1)
    requires AllQuiet(during) ==> x == QuietStep(s, t)
    requires AllStoreNothing(t, during) ==> StoresNothing(t, fs)
    ensures LoopInv(s0, es + fs, x, t, pos + 1, during)
  {
    ExecConcat(Step, s0, es, fs);
    if AllQuiet(during) {
      if pos < KEYS_MAX {
        QuietStepIsQuietKey(s, t, pos);
      }
      QuietKeyDone(s0, s, t, pos, x);
    }
    TailOfConcat(es, fs);
  }

  /** A run that begins with the sweep's beginning and in which it ends. */
  lemma WholeSweep(s0: State, t: nat, es: seq<Event>)
    requires Inv(s0) && t < |s0.threads| && s0.threads[t].sweep.NoSweep? && es != [] && es[0] == Event(t, Begin)
    ensures var s' := Exec(Step, s0, es);
      ChangesNoSlot(Step(s0, es[0]), t, es[1..]) && t < |s'.threads| && s'.threads[t].sweep.NoSweep? ==>
        SweptAmid(s0, t, s')
  {
    assert es == [es[0]] + es[1..];
    ExecCons(Step, s0, es[0], es[1..]);
    StepKeepsInv(s0, es[0]);
    if ChangesNoSlot(Step(s0, es[0]), t, es[1..]) {
      SweepAmongOthers(Step(s0, es[0]), t, es[1..]);
    }
  }

  lemma EndSweep(s0: State, es: seq<Event>, s: State, t: nat, during: seq<seq<Event>>)
    requires t < |s.threads| && s.threads[t].sweep.At? && LoopInv(s0, es, s, t, s.threads[t].sweep.pos, during)
    requires s.threads[t].stored == 0 || s.threads[t].sweep.pos == DESTRUCTOR_ITERATIONS * KEYS_MAX
    ensures Exec(Step, s0, es + [Event(t, Advance)]) == SweepAt(s, t) && Inv(SweepAt(s, t))
    ensures AllQuiet(during) ==> Swept(s0, t, 0, SweepAt(s, t))
    ensures AllStoreNothing(t, during) ==> SweptAmid(s0, t, SweepAt(s, t))
    ensures ChangesNoSlot(Step(s0, es[0]), t, (es + [Event(t, Advance)])[1..]) ==> SweptAmid(s0, t, SweepAt(s, t))
  {
    ExecSnoc(Step, s0, es, Event(t, Advance));
    SweepAtKeepsInv(s, t);
    if AllQuiet(during) {
      QuietDone(s0, s, t);
    }
    WholeSweep(s0, t, es + [Event(t, Advance)]);
    if AllStoreNothing(t, during) {
      TailOfConcat(es, [Event(t, Advance)]);
      StoringNothingChangesNoSlot(Step(s0, es[0]), t, (es + [Event(t, Advance)])[1..]);
    }
  }

  /** Where such a sweep ends, at the early exit or after the last key, it is complete. */
  lemma QuietDone(s0: State, s: State, t: nat)
    requires Inv(s) && t < |s.threads| && s.threads[t].sweep.At? && QuietSoFar(s0, s, t, s.threads[t].sweep.pos)
    requires s.threads[t].stored == 0 || s.threads[t].sweep.pos == KEYS_MAX
    ensures Swept(s0, t, 0, SweepAt(s, t))
  {
    if s.threads[t].sweep.pos == KEYS_MAX {
      AllEmptyStoresNothing(s, t);
    }
    QuietExit(s, t, s.threads[t].sweep.pos);
  }

  /** None of the events moves the sweep of thread t. */
  predicate LeavesSweep(t: nat, events: seq<Event>) {
    forall j :: 0 <= j < |events| ==>
      !(events[j].tid == t && (events[j].act.Begin? || events[j].act.Advance?))
  }

  predicate LeaveSweep(t: nat, during: seq<seq<Event>>) {
    forall i :: 0 <= i < |during| ==> LeavesSweep(t, during[i])
  }

  /** Nothing happens during any destructor call. */
  predicate AllQuiet(during: seq<seq<Event>>) { forall i :: 0 <= i < |during| ==> during[i] == [] }

  /** In no destructor call of t does t store anything; the other threads may do so. */
  predicate AllStoreNothing(t: nat, during: seq<seq<Event>>) {
    forall i :: 0 <= i < |during| ==> StoresNothing(t, during[i])
  }

  function Nth(during: seq<seq<Event>>, n: nat): seq<Event> { if n < |during| then during[n] else [] }

  lemma NthEvents(t: nat, during: seq<seq<Event>>, n: nat)
    requires LeaveSweep(t, during)
    ensures LeavesSweep(t, Nth(during, n)) && (AllQuiet(during) ==> Nth(during, n) == [])
    ensures AllStoreNothing(t, during) ==> StoresNothing(t, Nth(during, n))
  {
  }

  lemma SweepKept(s: State, e: Event, t: nat)
    requires t < |s.threads| && !(e.tid == t && (e.act.Begin? || e.act.Advance?))
    ensures |Step(s, e).threads| == |s.threads|
    ensures Step(s, e).threads[t].sweep == s.threads[t].sweep && Step(s, e).threads[t].made == s.threads[t].made
  {
  }
}
