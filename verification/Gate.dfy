/** The EXECUTE_ONCE gate around the library's own initialisation.

    The control word is 0 (not done), 1 (in progress) or 2 (done).  A caller that does not
    read 2 exchanges in a 1, by the atomic exchange whose refinement is proved in Atomics,
    so the exchange is one step here.  A caller whose exchange returns 1 waits for a local
    copy to become 2, which it never reads again. */
module Gate {
  import opened Sums
  import opened Runs

  datatype Pc =
    | Outside
    | Test        // read control
    | Swap        // exchange 1 into control
    | PutBack     // the exchange returned 2: store it again
    | Spin        // the exchange returned 1: wait for the local copy to change
    | Body        // the exchange returned 0: the protected body
    | Done        // body finished, control not yet written

  /** As history: how often the thread has passed the gate. */
  datatype Caller = Caller(pc: Pc, passes: nat)

  /** As history: how many bodies have begun and how many have finished. */
  datatype State = State(control: int, threads: seq<Caller>, begun: nat, finished: nat)

  datatype Act = Call | Go

  datatype Event = Event(tid: nat, act: Act)

  function At(s: State, t: nat, pc: Pc): State
    requires t < |s.threads|
  {
    s.(threads := s.threads[t := s.threads[t].(pc := pc)])
  }

  function Pass(s: State, t: nat): State
    requires t < |s.threads|
  {
    s.(threads := s.threads[t := Caller(Outside, s.threads[t].passes + 1)])
  }

  function Advance(s: State, t: nat): State
    requires t < |s.threads|
  {
    match s.threads[t].pc
    case Test => if s.control == 2 then Pass(s, t) else At(s, t, Swap)
    case Swap =>
      var s' := s.(control := 1);
      if s.control == 2 then At(s', t, PutBack)
      else if s.control == 1 then At(s', t, Spin)
      else At(s', t, Body).(begun := s.begun + 1)
    case PutBack => Pass(s.(control := 2), t)
    case Body => At(s, t, Done).(finished := s.finished + 1)
    case Done => Pass(s.(control := 2), t)
    case _ => s
  }

  function Step(s: State, e: Event): State {
    if e.tid >= |s.threads| then s
    else if s.threads[e.tid].pc.Outside? then if e.act.Call? then At(s, e.tid, Test) else s
    else if e.act.Go? then Advance(s, e.tid)
    else s
  }

  ghost predicate Init(s: State) {
    && s.control == 0 && s.begun == 0 && s.finished == 0
    && forall t :: 0 <= t < |s.threads| ==> s.threads[t] == Caller(Outside, 0)
  }

  // ----- The invariant -----

  function InBody(c: Caller): int { if c.pc.Body? then 1 else 0 }

  /** Has made control 1 and is going to make it 2. */
  function InCharge(c: Caller): int { if c.pc.Body? || c.pc.Done? || c.pc.PutBack? then 1 else 0 }

  function IsOne(control: int): int { if control == 1 then 1 else 0 }

  predicate CallerOk(c: Caller, control: int, finished: nat) {
    && (c.passes > 0 ==> finished > 0)
    && (c.pc.PutBack? || c.pc.Done? ==> finished > 0)
    && (c.pc.PutBack? || c.pc.Spin? || c.pc.Body? || c.pc.Done? ==> control != 0)
  }

  ghost predicate Inv(s: State) {
    && 0 <= s.control <= 2
    && s.begun == (if s.control == 0 then 0 else 1)
    && s.finished + Sum(s.threads, InBody) == s.begun
    && Sum(s.threads, InCharge) == IsOne(s.control)
    && (s.control == 2 ==> s.finished > 0)
    && forall t :: 0 <= t < |s.threads| ==> CallerOk(s.threads[t], s.control, s.finished)
  }

  /** What a step of thread t does, told without the other threads. */
  ghost predicate MoverPost(s: State, t: nat, s': State)
    requires t < |s.threads|
  {
    && |s'.threads| == |s.threads| && s'.threads == s.threads[t := s'.threads[t]]
    && 0 <= s'.control <= 2 && CallerOk(s'.threads[t], s'.control, s'.finished)
    && s'.begun == (if s'.control == 0 then 0 else 1)
    && (s.control != 0 ==> s'.control != 0) && s.finished <= s'.finished
    && s'.finished + InBody(s'.threads[t]) - s'.begun == s.finished + InBody(s.threads[t]) - s.begun
    && InCharge(s'.threads[t]) - InCharge(s.threads[t]) == IsOne(s'.control) - IsOne(s.control)
    && (s'.control == 2 ==> s'.finished > 0)
  }

  lemma AdvanceKeepsMover(s: State, t: nat)
    requires Inv(s) && t < |s.threads|
    ensures MoverPost(s, t, Advance(s, t))
  {
    assert CallerOk(s.threads[t], s.control, s.finished);
    SumAtLeast(s.threads, t, InCharge);
    assert s.threads == s.threads[t := s.threads[t]];
  }

  lemma StepKeepsInv(s: State, e: Event)
    requires Inv(s)
    ensures Inv(Step(s, e))
  {
    var t, s' := e.tid, Step(s, e);
    if t < |s.threads| && s' != s {
      assert CallerOk(s.threads[t], s.control, s.finished);
      if !s.threads[t].pc.Outside? {
        AdvanceKeepsMover(s, t);
      }
      SumUpdate(s.threads, t, s'.threads[t], InBody);
      SumUpdate(s.threads, t, s'.threads[t], InCharge);
      forall u | 0 <= u < |s'.threads| ensures CallerOk(s'.threads[u], s'.control, s'.finished) {
        assert CallerOk(s.threads[u], s.control, s.finished);
      }
    }
  }

  lemma RunInv(s: State, es: seq<Event>)
    requires Init(s)
    ensures Inv(Exec(Step, s, es))
  {
    SumBounds(s.threads, 0, 0, InBody);
    SumBounds(s.threads, 0, 0, InCharge);
    forall x, e | Inv(x) ensures Inv(Step(x, e)) {
      StepKeepsInv(x, e);
    }
    InvariantOfRuns(Step, Inv, s, es);
  }

  // ----- What it promises -----

  /** At most one body ever runs, nobody passes before it has finished, and once it has
      begun control is never 0 again. */
  ghost predicate ExecutedOnce(s: State) {
    && s.begun <= 1
    && (forall t :: 0 <= t < |s.threads| && s.threads[t].passes > 0 ==> s.finished == 1)
    && (forall t :: 0 <= t < |s.threads| && s.threads[t].pc.Body? ==> s.finished == 0)
    && (forall t, u :: 0 <= t < u < |s.threads| ==> !(s.threads[t].pc.Body? && s.threads[u].pc.Body?))
    && (s.control == 0 <==> s.begun == 0)
  }

  lemma ExecutedOnceIn(s: State)
    requires Inv(s)
    ensures ExecutedOnce(s)
  {
    forall t | 0 <= t < |s.threads|
      ensures s.threads[t].passes > 0 ==> s.finished > 0
      ensures s.threads[t].pc.Body? ==> s.finished == 0
    {
      assert CallerOk(s.threads[t], s.control, s.finished);
      SumAtLeast(s.threads, t, InBody);
    }
    SumNonNegative(s.threads, InBody);
    forall t, u | 0 <= t < u < |s.threads| ensures !(s.threads[t].pc.Body? && s.threads[u].pc.Body?) {
      SumAtLeastTwo(s.threads, t, u, InBody);
    }
  }

  lemma BodyRunsOnce(s: State, es: seq<Event>)
    requires Init(s)
    ensures ExecutedOnce(Exec(Step, s, es))
  {
    RunInv(s, es);
    ExecutedOnceIn(Exec(Step, s, es));
  }

  // ----- Who passes -----

  /** A spinning thread spins for ever, whatever the others do. */
  lemma {:induction false} SpinIsForEver(s: State, t: nat, es: seq<Event>)
    requires t < |s.threads| && s.threads[t].pc.Spin?
    ensures t < |Exec(Step, s, es).threads| && Exec(Step, s, es).threads[t] == s.threads[t]
  {
    if es != [] {
      SpinIsForEver(s, t, es[..|es| - 1]);
    }
  }

  ghost predicate PassesIn(s: State, t: nat, es: seq<Event>) {
    t < |s.threads| && t < |Exec(Step, s, es).threads| && Exec(Step, s, es).threads[t].passes > s.threads[t].passes
  }

  /** The wait never re-reads control, so a caller can still pass the gate exactly if its
      exchange does not find a 1 there. */
  lemma PassesIffExchangeMissesOne(s: State, t: nat)
    requires Inv(s) && t < |s.threads| && s.threads[t].pc.Swap?
    ensures (exists es :: PassesIn(Step(s, Event(t, Go)), t, es)) <==> s.control != 1
  {
    var go := Event(t, Go);
    var x := Step(s, go);
    if s.control == 1 {
      forall es ensures !PassesIn(x, t, es) {
        SpinIsForEver(x, t, es);
      }
    } else if s.control == 2 {
      ExecOne(Step, x, go);
      assert PassesIn(x, t, [go]);
    } else {
      ExecOne(Step, x, go);
      ExecSnoc(Step, x, [go], go);
      assert PassesIn(x, t, [go] + [go]);
    }
  }

  /** While control is 1 exactly one caller is in charge of it, and at most two accesses of
      that caller's make it 2. */
  lemma ChargeEnds(s: State) returns (es: seq<Event>, u: nat)
    requires Inv(s) && s.control == 1
    ensures u < |s.threads| && InCharge(s.threads[u]) == 1 && Exec(Step, s, es).control == 2
    ensures Exec(Step, s, es).threads == s.threads[u := s.threads[u].(pc := Outside, passes := s.threads[u].passes + 1)]
    ensures forall t :: 0 <= t < |s.threads| && t != u ==> InCharge(s.threads[t]) == 0
    ensures forall k :: 0 <= k < |es| ==> es[k].tid == u
  {
    u := SumWitness(s.threads, InCharge);
    var go := Event(u, Go);
    ExecOne(Step, s, go);
    es := [go];
    if s.threads[u].pc.Body? {
      ExecSnoc(Step, s, [go], go);
      es := [go] + [go];
    }
    forall t | 0 <= t < |s.threads| && t != u ensures InCharge(s.threads[t]) == 0 {
      SumAtLeastTwo(s.threads, if t < u then t else u, if t < u then u else t, InCharge);
    }
  }

  lemma PassesAlone(s: State, t: nat) returns (es: seq<Event>)
    requires 0 <= s.control <= 2 && s.control != 1 && t < |s.threads| && s.threads[t].pc.Outside?
    ensures PassesIn(s, t, es) && forall k :: 0 <= k < |es| ==> es[k].tid == t
  {
    var call, go := Event(t, Call), Event(t, Go);
    es := [call] + [go];
    ExecOne(Step, s, call);
    ExecSnoc(Step, s, [call], go);
    if s.control == 0 {
      ExecSnoc(Step, s, es, go);
      ExecSnoc(Step, s, es + [go], go);
      ExecSnoc(Step, s, es + [go] + [go], go);
      es := es + [go] + [go] + [go];
    }
  }

  /** So from every reachable state, whatever collisions there have been, a new caller can
      still pass the gate; nobody else has to move but the one in charge. */
  lemma NewCallerCanPass(s: State, t: nat) returns (es: seq<Event>)
    requires Inv(s) && t < |s.threads| && s.threads[t].pc.Outside?
    ensures PassesIn(s, t, es)
    ensures forall k :: 0 <= k < |es| ==>
      es[k].tid == t || (es[k].tid < |s.threads| && InCharge(s.threads[es[k].tid]) == 1)
  {
    if s.control == 1 {
      var fs, u := ChargeEnds(s);
      var gs := PassesAlone(Exec(Step, s, fs), t);
      ExecConcat(Step, s, fs, gs);
      es := fs + gs;
    } else {
      es := PassesAlone(s, t);
    }
  }

  /** Even when the body has finished, the exchange of one late caller can stand in the way
      of another: four events after control is 2, thread u spins for ever. */
  lemma LateCallersCollide(s: State, t: nat, u: nat) returns (es: seq<Event>)
    requires Inv(s) && t < |s.threads| && u < |s.threads| && t != u
    requires s.control == 2 && s.threads[t].pc.Swap? && s.threads[u].pc.Outside?
    ensures |Exec(Step, s, es).threads| == |s.threads| && Exec(Step, s, es).threads[u].pc.Spin?
    ensures Exec(Step, s, es).threads[u].passes == s.threads[u].passes
  {
    var a, b, c := Event(t, Go), Event(u, Call), Event(u, Go);
    es := [a, b, c, c];
    ExecFour(Step, s, a, b, c, c);
  }

  /** And such a state is reached: thread 0 executes the body and passes, while thread 1,
      which read control before that, is about to exchange. */
  lemma LateCallerReached(s: State) returns (es: seq<Event>, x: State)
    requires Init(s) && |s.threads| >= 2
    ensures x == Exec(Step, s, es) && |x.threads| == |s.threads| && x.control == 2 && x.finished == 1
    ensures x.threads[0] == Caller(Outside, 1) && x.threads[1] == Caller(Swap, 0)
  {
    var a, y := BothAtTheGate(s);
    var go0, go1 := Event(0, Go), Event(1, Go);
    var y1 := At(y, 1, Swap);
    var y2 := At(y1, 0, Done).(finished := 1);
    x := Pass(y2.(control := 2), 0);
    es := a + [go1] + [go0] + [go0];
    ExecSnoc(Step, s, a, go1);
    ExecSnoc(Step, s, a + [go1], go0);
    ExecSnoc(Step, s, a + [go1] + [go0], go0);
    assert Step(y, go1) == y1;
    assert Step(y1, go0) == y2;
    assert Step(y2, go0) == x;
  }

  lemma BothAtTheGate(s: State) returns (es: seq<Event>, y: State)
    requires Init(s) && |s.threads| >= 2
    ensures y == Exec(Step, s, es) && |y.threads| == |s.threads| && y.control == 1 && y.finished == 0
    ensures y.threads[0] == Caller(Body, 0) && y.threads[1] == Caller(Test, 0)
  {
    var call0, go0, call1 := Event(0, Call), Event(0, Go), Event(1, Call);
    es := [call0, go0, go0, call1];
    ExecFour(Step, s, call0, go0, go0, call1);
    y := Exec(Step, s, es);
    var x1 := At(s, 0, Test);
    var x2 := At(x1, 0, Swap);
    var x3 := At(x2.(control := 1), 0, Body).(begun := s.begun + 1);
    assert Step(s, call0) == x1;
    assert Step(x1, go0) == x2;
    assert Step(x2, go0) == x3;
    assert Step(x3, call1) == At(x3, 1, Test);
  }

  /** A thread that has passed the gate before calls again, and never returns. */
  ghost predicate SpinsAfterAll(s: State, u: nat) {
    u < |s.threads| && s.threads[u].pc.Spin? && s.threads[u].passes > 0 && s.finished == 1
  }

  lemma PassedThreadHangs(s: State) returns (es: seq<Event>, u: nat)
    requires Init(s) && |s.threads| >= 2
    ensures SpinsAfterAll(Exec(Step, s, es), u)
  {
    u := 0;
    var fs, x := LateCallerReached(s);
    RunInv(s, fs);
    var gs := LateCallersCollide(x, 1, 0);
    es := fs + gs;
    ExecConcat(Step, s, fs, gs);
    RunInv(s, es);
    StillFinished(x, gs);
    ExecutedOnceIn(Exec(Step, s, es));
    SumNonNegative(Exec(Step, s, es).threads, InBody);
  }

  lemma {:induction false} StillFinished(s: State, es: seq<Event>)
    ensures Exec(Step, s, es).finished >= s.finished
  {
    if es != [] {
      StillFinished(s, es[..|es| - 1]);
    }
  }

  /** With one thread, its exchange never finds its own 1. */
  ghost predicate Alone(s: State) {
    && |s.threads| == 1
    && match s.threads[0].pc
       case Outside | Test => s.control != 1
       case Swap => s.control == 0
       case PutBack | Spin => false
       case Body | Done => s.control == 1
  }

  lemma AloneNeverSpins(s: State, es: seq<Event>)
    requires Init(s) && |s.threads| == 1
    ensures Alone(Exec(Step, s, es))
  {
    forall x, e | Alone(x) && 0 <= x.control <= 2 ensures Alone(Step(x, e)) && 0 <= Step(x, e).control <= 2 {
    }
    var inv := (x: State) => Alone(x) && 0 <= x.control <= 2;
    InvariantOfRuns(Step, inv, s, es);
  }

  ghost predicate HangsIn(s: State, es: seq<Event>, u: nat) { Hangs(Exec(Step, s, es), u) }

  ghost predicate HangsLateIn(s: State, es: seq<Event>, u: nat) { SpinsAfterAll(Exec(Step, s, es), u) }

  /** Some run makes a caller wait for ever if and only if two threads use the gate ... */
  lemma HangsIffShared(s: State)
    requires Init(s)
    ensures (exists es, u :: HangsIn(s, es, u)) <==> |s.threads| >= 2
  {
    if |s.threads| >= 2 {
      var es, u := PassedThreadHangs(s);
      assert HangsIn(s, es, u);
    } else {
      forall es, u ensures !HangsIn(s, es, u) {
        NeverHangsAlone(s, es, u);
      }
    }
  }

  /** ... and exactly then even one that has passed the gate before. */
  lemma HangsLateIffShared(s: State)
    requires Init(s)
    ensures (exists es, u :: HangsLateIn(s, es, u)) <==> |s.threads| >= 2
  {
    if |s.threads| >= 2 {
      var es, u := PassedThreadHangs(s);
      assert HangsLateIn(s, es, u);
    } else {
      forall es, u ensures !HangsLateIn(s, es, u) {
        NeverHangsAlone(s, es, u);
      }
    }
  }

  predicate Hangs(s: State, u: nat) { u < |s.threads| && s.threads[u].pc.Spin? }

  lemma NeverHangsAlone(s: State, es: seq<Event>, u: nat)
    requires Init(s) && |s.threads| <= 1
    ensures !Hangs(Exec(Step, s, es), u)
  {
    if |s.threads| == 1 {
      AloneNeverSpins(s, es);
    } else {
      var inv := (x: State) => |x.threads| == 0;
      InvariantOfRuns(Step, inv, s, es);
    }
  }

  /** Once control is 2 and every caller is outside or about to read it ... */
  ghost predicate Settled(s: State) {
    s.control == 2 && forall t :: 0 <= t < |s.threads| ==> s.threads[t].pc.Outside? || s.threads[t].pc.Test?
  }

  /** ... it stays so in every run, and every caller passes at its first access, writing
      nothing. */
  lemma {:induction false} SettledForEver(s: State, es: seq<Event>, t: nat)
    requires Settled(s)
    ensures var x := Exec(Step, s, es);
      && Settled(x)
      && (t < |x.threads| && x.threads[t].pc.Test? ==> Step(x, Event(t, Go)) == Pass(x, t))
  {
    forall x, e | Settled(x) ensures Settled(Step(x, e)) {
    }
    InvariantOfRuns(Step, Settled, s, es);
  }

  // ----- The gate itself -----

  class ExecuteOnce {
    var control: int
    var threads: seq<Caller>
    ghost var begun: nat
    ghost var finished: nat

    ghost function Contents(): State
      reads this
    {
      State(control, threads, begun, finished)
    }

    constructor (n: nat)
      ensures Init(Contents()) && |threads| == n
    {
      control := 0;
      threads := seq(n, _ => Caller(Outside, 0));
      begun, finished := 0, 0;
    }

    method Goto(me: nat, pc: Pc)
      requires me < |threads|
      modifies this
      ensures Contents() == At(old(Contents()), me, pc)
    {
      threads := threads[me := threads[me].(pc := pc)];
    }

    method Leave(me: nat)
      requires me < |threads|
      modifies this
      ensures Contents() == Pass(old(Contents()), me)
    {
      threads := threads[me := Caller(Outside, threads[me].passes + 1)];
    }

    method Enter(me: nat)
      requires me < |threads|
      modifies this
      ensures Contents() == Advance(old(Contents()), me)
    {
      match threads[me].pc
      case Test =>
        if control == 2 {
          Leave(me);
        } else {
          Goto(me, Swap);
        }
      case Swap =>
        var s := control;
        control := 1;
        if s == 2 {
          Goto(me, PutBack);
        } else if s == 1 {
          Goto(me, Spin);
        } else {
          Goto(me, Body);
          begun := begun + 1;
        }
      case PutBack =>
        control := 2;
        Leave(me);
      case Body =>
        Goto(me, Done);
        finished := finished + 1;
      case Done =>
        control := 2;
        Leave(me);
      case _ =>
    }

    method Perform(e: Event)
      modifies this
      ensures Contents() == Step(old(Contents()), e)
    {
      if e.tid >= |threads| {
        return;
      }
      if threads[e.tid].pc.Outside? {
        if e.act.Call? {
          Goto(e.tid, Test);
        }
      } else if e.act.Go? {
        Enter(e.tid);
      }
    }

    /** Any interleaving of any number of callers. */
    method Run(es: seq<Event>)
      modifies this
      ensures Contents() == Exec(Step, old(Contents()), es)
      ensures old(Init(Contents())) ==> ExecutedOnce(Contents())
    {
      ghost var s := Contents();
      for i := 0 to |es|
        invariant Contents() == Exec(Step, s, es[..i])
      {
        Perform(es[i]);
        assert es[..i + 1][..i] == es[..i];
      }
      assert es[..|es|] == es;
      if Init(s) {
        BodyRunsOnce(s, es);
      }
    }
  }
}
