/** What a whole call of pthread_barrier_wait does and returns, whatever the other threads
    do between its accesses. */
module BarrierCalls {
  import opened Kernel
  import opened Sums
  import opened Runs
  import opened Barrier

  predicate Busy(s: State, t: nat) { t < |s.threads| && !s.threads[t].pc.Ready? }

  /** The event by which t counts itself as an arrival ... */
  function Arrives(t: nat): (State, Event) -> bool {
    (s: State, e: Event) => e.tid == t && Step(s, e).arrivals == s.arrivals + 1
  }

  /** ... closes a round ... */
  function Closes(t: nat): (State, Event) -> bool {
    (s: State, e: Event) => e.tid == t && Step(s, e).rounds == s.rounds + 1
  }

  /** ... or takes a unit from the queue. */
  function Takes(t: nat): (State, Event) -> bool {
    (s: State, e: Event) => e.tid == t && Step(s, e).queue.count == s.queue.count - 1
  }

  function One(b: bool): nat { if b then 1 else 0 }

  /** What a thread at pc has done of these. */
  predicate HasArrived(pc: Pc) { !pc.Ready? && !pc.LockControl? && !pc.Count? }
  predicate HasClosed(pc: Pc) { pc.Post? || pc.UnlockLast? }

  lemma OneStep(s: State, e: Event, t: nat)
    requires Inv(s) && Busy(s, t)
    ensures var s', pc := Step(s, e), s.threads[t].pc;
      && |s'.threads| == |s.threads|
      && (Busy(s', t) ==>
            && One(HasArrived(s'.threads[t].pc)) == One(HasArrived(pc)) + One(Arrives(t)(s, e))
            && One(HasClosed(s'.threads[t].pc)) == One(HasClosed(pc)) + One(Closes(t)(s, e))
            && !Takes(t)(s, e))
      && (!Busy(s', t) ==>
            && HasArrived(pc) && !Arrives(t)(s, e) && !Closes(t)(s, e)
            && s'.threads[t].returned == s.threads[t].returned + 1
            && (if HasClosed(pc) then s'.threads[t].result.Serial? && !Takes(t)(s, e)
                else s'.threads[t].result.Zero? && Takes(t)(s, e)))
  {
    assert ThreadInv(s, t);
    SumAtLeast(s.threads, t, Controls);
    if e.tid == t && e.act.Go? {
      OwnStep(s, t);
    } else {
      StepKeepsSize(s, e);
    }
  }

  lemma OwnStep(s: State, t: nat)
    requires Inv(s) && Busy(s, t) && s.control.count + Controls(s.threads[t]) <= 1
    ensures var s', pc := Advance(s, t), s.threads[t].pc;
      && |s'.threads| == |s.threads|
      && var pc' := s'.threads[t].pc;
      && s'.arrivals - s.arrivals == One(pc.Count?)
      && s'.rounds - s.rounds == One(pc.Reset?)
      && (s'.queue.count == s.queue.count - 1 <==> pc.QueueWait? && pc'.Ready?)
      && (pc'.Ready? <==> pc.UnlockLast? || (pc.QueueWait? && s.queue.count > 0))
      && (!pc'.Ready? ==> One(HasArrived(pc')) == One(HasArrived(pc)) + One(pc.Count?))
      && (!pc'.Ready? ==> One(HasClosed(pc')) == One(HasClosed(pc)) + One(pc.Reset?))
      && (pc'.Ready? ==> s'.threads[t].returned == s.threads[t].returned + 1)
      && (pc'.Ready? ==> s'.threads[t].result == if pc.UnlockLast? then Serial else Zero)
  {
    assert ThreadInv(s, t);
  }

  /** While t's call goes on along es, from just after it was made. */
  lemma {:induction false} CallSoFar(s1: State, t: nat, es: seq<Event>)
    requires Inv(s1) && t < |s1.threads| && s1.threads[t].pc.LockControl?
    requires Always(Step, s1, es, x => Busy(x, t))
    ensures var x := Exec(Step, s1, es);
      && Inv(x) && Busy(x, t) && x.threads[t].returned == s1.threads[t].returned
      && Times(Step, s1, es, Arrives(t)) == One(HasArrived(x.threads[t].pc))
      && Times(Step, s1, es, Closes(t)) == One(HasClosed(x.threads[t].pc))
      && Times(Step, s1, es, Takes(t)) == 0
  {
    if es != [] {
      var n := |es| - 1;
      var y := Exec(Step, s1, es[..n]);
      assert es == es[..n] + [es[n]];
      AlwaysPrefix(Step, s1, es[..n], es[n], x => Busy(x, t));
      CallSoFar(s1, t, es[..n]);
      OneStep(y, es[n], t);
      StepKeepsInv(y, es[n]);
      BusyKeepsReturned(y, es[n], t);
    }
  }

  lemma BusyKeepsReturned(s: State, e: Event, t: nat)
    requires Busy(s, t) && Busy(Step(s, e), t)
    ensures Step(s, e).threads[t].returned == s.threads[t].returned
  {
  }

  /** What the call has done and returned: it has arrived once; if it returns the serial
      result it has closed a round and taken no unit, and otherwise returns 0, having closed
      none and taken one. */
  ghost predicate Verdict(s1: State, t: nat, es: seq<Event>, s': State)
    requires t < |s1.threads| && t < |s'.threads|
  {
    && s'.threads[t].returned == s1.threads[t].returned + 1
    && Times(Step, s1, es, Arrives(t)) == 1
    && (s'.threads[t].result.Serial? || s'.threads[t].result.Zero?)
    && Times(Step, s1, es, Closes(t)) == One(s'.threads[t].result.Serial?)
    && Times(Step, s1, es, Takes(t)) == One(s'.threads[t].result.Zero?)
  }

  /** The verdict of every call, in every run. */
  lemma {:induction false} CallVerdict(s: State, t: nat, es: seq<Event>, last: Event)
    requires Inv(s) && t < |s.threads| && s.threads[t].pc.Ready?
    ensures var s1 := Step(s, Event(t, CallWait));
      var s' := Step(Exec(Step, s1, es), last);
      Always(Step, s1, es, x => Busy(x, t)) && !Busy(s', t) ==>
        t < |s1.threads| && t < |s'.threads| && Verdict(s1, t, es + [last], s')
  {
    var s1 := Step(s, Event(t, CallWait));
    StepKeepsInv(s, Event(t, CallWait));
    if Always(Step, s1, es, x => Busy(x, t)) {
      CallSoFar(s1, t, es);
      OneStep(Exec(Step, s1, es), last, t);
      TimesSnoc(Step, s1, es, last, Arrives(t));
      TimesSnoc(Step, s1, es, last, Closes(t));
      TimesSnoc(Step, s1, es, last, Takes(t));
    }
  }

  // ----- No call waits without need -----

  function Left(pc: Pc): nat {
    match pc
    case LockControl => 6
    case QueueWait => 1
    case UnlockFirst => 2
    case _ => ControlLeft(pc)
  }

  /** Every access of a call brings it nearer to its end, except that it waits for control
      while another thread has it, and in the queue while the queue is empty. */
  lemma Advances(s: State, t: nat)
    requires Inv(s) && Busy(s, t)
    ensures var s', pc := Step(s, Event(t, Go)), s.threads[t].pc;
      && |s'.threads| == |s.threads|
      && (Left(s'.threads[t].pc) < Left(pc)
          || (s' == s && pc.QueueWait? && s.queue.count == 0)
          || (s' == s && pc.LockControl? && exists u :: 0 <= u < |s.threads| && Controls(s.threads[u]) == 1))
  {
    if s.control.count == 0 {
      var u := SumWitness(s.threads, Controls);
    }
  }

  /** With at most one thread more than the barrier needs: whenever no one is in a control
      section and `needed` wait, one of them returns 0 at its next access. */
  lemma SomebodyReturns(s: State, es: seq<Event>, s': State) returns (t: nat)
    requires Init(s) && |s.threads| <= s.needed + 1 && s' == Exec(Step, s, es)
    requires s'.control.count == 1 && Sum(s'.threads, Queued) >= s'.needed
    ensures Busy(s', t) && !Busy(Step(s', Event(t, Go)), t) && |Step(s', Event(t, Go)).threads| == |s'.threads|
    ensures Step(s', Event(t, Go)).threads[t].result.Zero?
  {
    ParticipantsNeverStuck(s, es, s');
    RunInv(s, es);
    t := SumWitness(s'.threads, Queued);
    SumAtLeast(s'.threads, t, Controls);
  }
}
