/** Particular runs of the barrier: how a crowd of threads makes the queue refuse units,
    and how a fast thread takes the unit meant for a slow one. */
module BarrierRuns {
  import opened Kernel
  import opened Runs
  import opened Barrier

  /** Nobody is in a control section and no round is half full. */
  predicate Quiet(s: State) {
    s.control == Sema(1, INT_MAX) && s.needed >= 2
  }

  /** Thread t in a control section of its own, at pc, with the counter at c. */
  function Inside(s: State, t: nat, pc: Pc, c: nat): State
    requires t < |s.threads|
  {
    At(s.(control := Sema(0, INT_MAX), count := c, arrivals := s.arrivals + 1), t, pc)
  }

  /** One thread enters, undisturbed, and is counted. */
  lemma Enter(s: State, t: nat) returns (es: seq<Event>)
    requires Quiet(s) && t < |s.threads| && s.threads[t].pc.Ready?
    ensures Exec(Step, s, es) == Inside(s, t, Test, s.count + 1)
  {
    var call, go := Event(t, CallWait), Event(t, Go);
    es := [call] + [go] + [go];
    var x1 := At(s, t, LockControl);
    var x2 := At(s.(control := Sema(0, INT_MAX)), t, Count);
    ExecOne(Step, s, call);
    ExecSnoc(Step, s, [call], go);
    ExecSnoc(Step, s, [call] + [go], go);
    assert Step(s, call) == x1;
    assert Step(x1, go) == x2;
  }

  /** One thread arrives, undisturbed, and is not the last. */
  lemma Arrive(s: State, t: nat) returns (es: seq<Event>, s': State)
    requires Quiet(s) && t < |s.threads| && s.threads[t].pc.Ready? && s.count + 1 < s.needed
    ensures s' == Exec(Step, s, es)
    ensures s' == At(s.(count := s.count + 1, arrivals := s.arrivals + 1), t, QueueWait)
  {
    var go := Event(t, Go);
    var fs := Enter(s, t);
    es := fs + [go] + [go];
    s' := At(s.(count := s.count + 1, arrivals := s.arrivals + 1), t, QueueWait);
    ExecSnoc(Step, s, fs, go);
    ExecSnoc(Step, s, fs + [go], go);
    TestFirst(s, t);
  }

  lemma TestFirst(s: State, t: nat)
    requires Quiet(s) && t < |s.threads| && s.count + 1 < s.needed
    ensures Step(Step(Inside(s, t, Test, s.count + 1), Event(t, Go)), Event(t, Go))
         == At(s.(count := s.count + 1, arrivals := s.arrivals + 1), t, QueueWait)
  {
    assert Step(Inside(s, t, Test, s.count + 1), Event(t, Go)) == Inside(s, t, UnlockFirst, s.count + 1);
  }

  /** The state after one thread arrives, undisturbed, as the last of a round. */
  function Closed(s: State, t: nat): State
    requires t < |s.threads| && s.needed >= 2
  {
    var owed := s.needed - 1;
    var served := s.(count := 0, arrivals := s.arrivals + 1, rounds := s.rounds + 1, serials := s.serials + 1);
    Return(if s.queue.Fits(owed) then served.(queue := s.queue.Signal(owed)) else served.(lost := s.lost + owed),
           t, Serial)
  }

  lemma ArriveLast(s: State, t: nat) returns (es: seq<Event>, s': State)
    requires Quiet(s) && t < |s.threads| && s.threads[t].pc.Ready? && s.count + 1 == s.needed
    ensures s' == Exec(Step, s, es) && s' == Closed(s, t)
  {
    var go := Event(t, Go);
    var fs := Enter(s, t);
    es := fs + [go] + [go] + [go] + [go];
    s' := Closed(s, t);
    ExecSnoc(Step, s, fs, go);
    ExecSnoc(Step, s, fs + [go], go);
    ExecSnoc(Step, s, fs + [go] + [go], go);
    ExecSnoc(Step, s, fs + [go] + [go] + [go], go);
    TestLast(s, t);
    PostLast(s, t);
  }

  lemma TestLast(s: State, t: nat)
    requires Quiet(s) && t < |s.threads| && s.count + 1 == s.needed
    ensures Step(Step(Inside(s, t, Test, s.count + 1), Event(t, Go)), Event(t, Go))
         == Inside(s, t, Post(s.needed - 1), 0).(rounds := s.rounds + 1)
  {
    assert Step(Inside(s, t, Test, s.count + 1), Event(t, Go)) == Inside(s, t, Reset, s.count + 1);
  }

  lemma PostLast(s: State, t: nat)
    requires Quiet(s) && t < |s.threads|
    ensures Step(Step(Inside(s, t, Post(s.needed - 1), 0).(rounds := s.rounds + 1), Event(t, Go)), Event(t, Go))
         == Closed(s, t)
  {
  }

  /** One waiting thread takes a unit and returns. */
  lemma Leave(s: State, t: nat) returns (es: seq<Event>, s': State)
    requires t < |s.threads| && s.threads[t].pc.QueueWait? && s.queue.Has(1)
    ensures s' == Exec(Step, s, es)
    ensures s' == Return(s.(queue := s.queue.Take(1), zeros := s.zeros + 1), t, Zero)
  {
    es := [Event(t, Go)];
    s' := Step(s, es[0]);
    ExecOne(Step, s, es[0]);
  }

  /** Threads 0 .. k-1 arrive. */
  lemma {:induction false} ArriveMany(s: State, k: nat) returns (es: seq<Event>, s': State)
    requires Quiet(s) && k <= |s.threads| && s.count + k < s.needed
    requires forall i :: 0 <= i < k ==> s.threads[i].pc.Ready?
    ensures s' == Exec(Step, s, es) && |s'.threads| == |s.threads|
    ensures s' == s.(count := s.count + k, arrivals := s.arrivals + k, threads := s'.threads)
    ensures forall i :: 0 <= i < |s.threads| ==>
      s'.threads[i] == if i < k then s.threads[i].(pc := QueueWait) else s.threads[i]
  {
    if k == 0 {
      es, s' := [], s;
    } else {
      var fs, x := ArriveMany(s, k - 1);
      var gs;
      gs, s' := Arrive(x, k - 1);
      es := fs + gs;
      ExecConcat(Step, s, fs, gs);
    }
  }

  /** Threads 0 .. k-1 leave. */
  lemma {:induction false} LeaveMany(s: State, k: nat) returns (es: seq<Event>, s': State)
    requires k <= |s.threads| && s.queue.Has(k)
    requires forall i :: 0 <= i < k ==> s.threads[i].pc.QueueWait?
    ensures s' == Exec(Step, s, es) && |s'.threads| == |s.threads|
    ensures s' == s.(queue := s.queue.Take(k), zeros := s.zeros + k, threads := s'.threads)
    ensures forall i :: 0 <= i < |s.threads| ==>
      if i < k then s'.threads[i].pc.Ready? else s'.threads[i] == s.threads[i]
  {
    if k == 0 {
      es, s' := [], s;
    } else {
      var fs, x := LeaveMany(s, k - 1);
      var gs;
      gs, s' := Leave(x, k - 1);
      es := fs + gs;
      ExecConcat(Step, s, fs, gs);
    }
  }

  /** A full round by threads 0 .. needed-3 and x, closed by thread needed-1. */
  lemma Round(s: State, x: nat) returns (es: seq<Event>, s': State)
    requires Quiet(s) && s.count == 0 && s.needed <= |s.threads|
    requires s.needed - 2 <= x < |s.threads| && x != s.needed - 1
    requires forall i :: 0 <= i < s.needed - 2 ==> s.threads[i].pc.Ready?
    requires s.threads[x].pc.Ready? && s.threads[s.needed - 1].pc.Ready?
    ensures s' == Exec(Step, s, es) && |s'.threads| == |s.threads|
    ensures Quiet(s') && s'.needed == s.needed && s'.count == 0
    ensures s.queue.Fits(s.needed - 1) ==>
      s'.queue == Sema(s.queue.count + s.needed - 1, s.queue.max) && s'.lost == s.lost
    ensures !s.queue.Fits(s.needed - 1) ==> s'.lost == s.lost + s.needed - 1
    ensures s'.arrivals == s.arrivals + s.needed
    ensures forall i :: 0 <= i < |s.threads| ==>
      if i < s.needed - 2 || i == x then s'.threads[i].pc.QueueWait?
      else if i == s.needed - 1 then s'.threads[i].pc.Ready?
      else s'.threads[i] == s.threads[i]
  {
    var fs, y := ArriveMany(s, s.needed - 2);
    var gs, z := Arrive(y, x);
    var hs;
    hs, s' := ArriveLast(z, s.needed - 1);
    es := fs + gs + hs;
    ExecConcat(Step, s, fs, gs);
    ExecConcat(Step, s, fs + gs, hs);
  }

  /** With two threads more than the barrier needs, three rounds in which slow threads have
      not yet collected their units overfill the queue, and units are lost. */
  lemma CrowdOverflows(s: State) returns (es: seq<Event>)
    requires Init(s) && s.needed >= 2 && |s.threads| >= s.needed + 2
    ensures Exec(Step, s, es).lost > 0
  {
    var n := s.needed;
    var a, s1 := Round(s, n - 2);
    var b, s2 := LeaveMany(s1, n - 2);
    var c, s3 := Round(s2, n);
    var d, s4 := LeaveMany(s3, n - 2);
    var e, s5 := Round(s4, n + 1);
    es := a + b + c + d + e;
    ExecConcat(Step, s, a, b);
    ExecConcat(Step, s, a + b, c);
    ExecConcat(Step, s, a + b + c, d);
    ExecConcat(Step, s, a + b + c + d, e);
  }

  /** Exactly when the queue can refuse units: a barrier for at least two threads, used by
      at least two threads more than it is for. */
  lemma OverflowIffCrowded(s: State)
    requires Init(s)
    ensures (exists es :: Exec(Step, s, es).lost > 0) <==> s.needed >= 2 && |s.threads| >= s.needed + 2
  {
    if s.needed >= 2 && |s.threads| >= s.needed + 2 {
      var es := CrowdOverflows(s);
    } else {
      forall es: seq<Event> ensures Exec(Step, s, es).lost == 0 {
        FewThreadsNeverOverflow(s, es);
      }
    }
  }

  /** Rounds are not separated per thread.  Thread 0 has arrived but is not yet in the
      queue; thread 1 closes the round, comes back and takes thread 0's unit: it has
      returned twice, thread 0 not once, after three arrivals at a barrier for two. */
  lemma FastThreadTakesTheUnit(s: State) returns (es: seq<Event>, s': State)
    requires Init(s) && s.needed == 2 && |s.threads| == 2
    ensures s' == Exec(Step, s, es) && s'.arrivals == 3 && |s'.threads| == 2
    ensures s'.threads[0] == Thread(QueueWait, NotYet, 0) && s'.threads[1] == Thread(Ready, Zero, 2)
    ensures s'.serials == 1 && s'.zeros == 1 && s'.queue.count == 0
  {
    var a, s1 := Arrive(s, 0);
    var b, s2 := ArriveLast(s1, 1);
    var c, s3 := Arrive(s2, 1);
    var d;
    d, s' := Leave(s3, 1);
    es := a + b + c + d;
    ExecConcat(Step, s, a, b);
    ExecConcat(Step, s, a + b, c);
    ExecConcat(Step, s, a + b + c, d);
  }

  // ----- Overtaking, in general -----

  /** Along fs, from x to y, thread t returns twice while thread u, which was already waiting
      at the barrier in x, has not returned; t's second call has gone through although no
      round was closed since z, before it was made, so before `needed` threads had arrived
      with it; and nothing is left in the queue for u. */
  ghost predicate Overtakes(x: State, fs: seq<Event>, z: State, gs: seq<Event>, y: State, t: nat, u: nat) {
    && z == Exec(Step, x, fs) && y == Exec(Step, z, gs)
    && t < |x.threads| == |z.threads| == |y.threads| && u < |x.threads|
    && Queued(x.threads[u]) == 1 && y.threads[u].returned == x.threads[u].returned
    && y.threads[t].returned == x.threads[t].returned + 2
    && z.threads[t].pc.Ready? && z.threads[t].returned == x.threads[t].returned + 1
    && y.threads[t].pc.Ready? && y.threads[t].result == Zero && y.rounds == z.rounds && y.queue.count == 0
  }

  /** A call that goes through a round not yet closed: t makes and finishes it along gs, is
      not the last, and no round is closed along gs. */
  ghost predicate GoesThroughEarly(z: State, gs: seq<Event>, y: State, t: nat) {
    && y == Exec(Step, z, gs) && t < |z.threads| == |y.threads|
    && z.threads[t].pc.Ready? && y.threads[t].pc.Ready?
    && y.threads[t].returned > z.threads[t].returned && y.threads[t].result == Zero && y.rounds == z.rounds
  }

  /** The run, for every barrier and every sufficient number of threads: all but the last
      arrive; the last closes the round, comes back, and takes a unit; for a barrier for
      more than two, the others of the round but one take theirs in between. */
  lemma LastOvertakesFirst(s: State)
    returns (es: seq<Event>, fs: seq<Event>, gs: seq<Event>, x: State, z: State, y: State)
    requires Init(s) && s.needed >= 2 && |s.threads| >= s.needed
    ensures x == Exec(Step, s, es) && Overtakes(x, fs, z, gs, y, s.needed - 1, s.needed - 2)
    ensures GoesThroughEarly(z, gs, y, s.needed - 1)
  {
    var n := s.needed;
    es, x := ArriveMany(s, n - 1);
    var a, w := ArriveLast(x, n - 1);
    var b;
    b, z := LeaveMany(w, n - 2);
    fs := a + b;
    ExecConcat(Step, x, a, b);
    var c, v := Arrive(z, n - 1);
    var d;
    d, y := Leave(v, n - 1);
    gs := c + d;
    ExecConcat(Step, z, c, d);
  }

  /** Some run lets a call through a round not yet closed if and only if the barrier is for
      at least two threads and at least as many use it. */
  lemma EarlyIffUsable(s: State)
    requires Init(s)
    ensures (exists es, gs, y, t :: GoesThroughEarly(Exec(Step, s, es), gs, y, t))
       <==> s.needed >= 2 && |s.threads| >= s.needed
  {
    if s.needed >= 2 && |s.threads| >= s.needed {
      var es, fs, gs, x, z, y := LastOvertakesFirst(s);
      ExecConcat(Step, s, es, fs);
      assert GoesThroughEarly(Exec(Step, s, es + fs), gs, y, s.needed - 1);
    } else {
      forall es, gs, y, t ensures !GoesThroughEarly(Exec(Step, s, es), gs, y, t) {
        NeverEarly(s, es, gs, y, t);
      }
    }
  }

  lemma NeverEarly(s: State, es: seq<Event>, gs: seq<Event>, y: State, t: nat)
    requires Init(s) && (s.needed == 1 || |s.threads| < s.needed)
    ensures !GoesThroughEarly(Exec(Step, s, es), gs, y, t)
  {
    ExecConcat(Step, s, es, gs);
    if s.needed == 1 {
      OneNeverWaits(s, es + gs);
    } else {
      TooFewNeverReturn(s, es + gs);
    }
  }

  /** And exactly then some run lets one thread overtake another. */
  lemma OvertakingIffUsable(s: State)
    requires Init(s)
    ensures (exists es, fs, z, gs, y, t, u :: Overtakes(Exec(Step, s, es), fs, z, gs, y, t, u))
       <==> s.needed >= 2 && |s.threads| >= s.needed
  {
    if s.needed >= 2 && |s.threads| >= s.needed {
      var es, fs, gs, x, z, y := LastOvertakesFirst(s);
      assert Overtakes(Exec(Step, s, es), fs, z, gs, y, s.needed - 1, s.needed - 2);
    } else {
      forall es, fs, z, gs, y, t, u ensures !Overtakes(Exec(Step, s, es), fs, z, gs, y, t, u) {
        NeverOvertaken(s, es, fs, z, gs, y, t, u);
      }
    }
  }

  lemma NeverOvertaken(s: State, es: seq<Event>, fs: seq<Event>, z: State, gs: seq<Event>, y: State, t: nat, u: nat)
    requires Init(s) && (s.needed == 1 || |s.threads| < s.needed)
    ensures !Overtakes(Exec(Step, s, es), fs, z, gs, y, t, u)
  {
    if Overtakes(Exec(Step, s, es), fs, z, gs, y, t, u) {
      ExecConcat(Step, s, es, fs);
      assert GoesThroughEarly(Exec(Step, s, es + fs), gs, y, t);
      NeverEarly(s, es + fs, gs, y, t);
    }
  }

  /** The weaker sense of overtaking: some thread's calls return twice while another, already
      waiting, does not return. */
  ghost predicate ReturnsTwiceMeanwhile(x: State, fs: seq<Event>, t: nat, u: nat) {
    var y := Exec(Step, x, fs);
    && t < |x.threads| == |y.threads| && u < |x.threads|
    && Queued(x.threads[u]) == 1 && y.threads[u].returned == x.threads[u].returned
    && y.threads[t].returned >= x.threads[t].returned + 2
  }

  /** It too is possible exactly then. */
  lemma TwiceMeanwhileIffUsable(s: State)
    requires Init(s)
    ensures (exists es, fs, t, u :: ReturnsTwiceMeanwhile(Exec(Step, s, es), fs, t, u))
       <==> s.needed >= 2 && |s.threads| >= s.needed
  {
    if s.needed >= 2 && |s.threads| >= s.needed {
      var es, fs, gs, x, z, y := LastOvertakesFirst(s);
      ExecConcat(Step, x, fs, gs);
      assert ReturnsTwiceMeanwhile(Exec(Step, s, es), fs + gs, s.needed - 1, s.needed - 2);
    } else {
      forall es, fs, t, u ensures !ReturnsTwiceMeanwhile(Exec(Step, s, es), fs, t, u) {
        NeverTwiceMeanwhile(s, es, fs, t, u);
      }
    }
  }

  lemma NeverTwiceMeanwhile(s: State, es: seq<Event>, fs: seq<Event>, t: nat, u: nat)
    requires Init(s) && (s.needed == 1 || |s.threads| < s.needed)
    ensures !ReturnsTwiceMeanwhile(Exec(Step, s, es), fs, t, u)
  {
    ExecConcat(Step, s, es, fs);
    if s.needed == 1 {
      OneNeverWaits(s, es);
    } else {
      TooFewNeverReturn(s, es + fs);
    }
  }
}
