/** Runs of a state machine.  A step function takes a state and an event; an event names
    the thread that moves and what it does.  Every interleaving of any number of threads
    is a sequence of events, so a theorem about `Exec` on every sequence of events is a
    theorem about every run. */
module Runs {

  function Exec<S, E>(step: (S, E) -> S, s: S, es: seq<E>): S {
    if es == [] then s else step(Exec(step, s, es[..|es| - 1]), es[|es| - 1])
  }

  /** What the first state has and every step keeps holds after every run. */
  lemma {:induction false} InvariantOfRuns<S(!new), E(!new)>(step: (S, E) -> S, inv: S -> bool, s: S, es: seq<E>)
    requires inv(s)
    requires forall x, e :: inv(x) ==> inv(step(x, e))
    ensures inv(Exec(step, s, es))
  {
    if es != [] {
      InvariantOfRuns(step, inv, s, es[..|es| - 1]);
    }
  }

  /** A run followed by a run is a run. */
  lemma {:induction false} ExecConcat<S, E>(step: (S, E) -> S, s: S, es: seq<E>, fs: seq<E>)
    ensures Exec(step, s, es + fs) == Exec(step, Exec(step, s, es), fs)
  {
    if fs == [] {
      assert es + fs == es;
    } else {
      var k := |fs| - 1;
      ExecConcat(step, s, es, fs[..k]);
      assert (es + fs)[..|es + fs| - 1] == es + fs[..k];
    }
  }

  lemma ExecSnoc<S, E>(step: (S, E) -> S, s: S, es: seq<E>, e: E)
    ensures Exec(step, s, es + [e]) == step(Exec(step, s, es), e)
  {
    assert (es + [e])[..|es|] == es;
  }

  lemma ExecCons<S, E>(step: (S, E) -> S, s: S, e: E, es: seq<E>)
    ensures Exec(step, s, [e] + es) == Exec(step, step(s, e), es)
  {
    ExecConcat(step, s, [e], es);
    assert [e][..0] == [];
  }

  // Short runs, event by event.

  lemma ExecFour<S, E>(step: (S, E) -> S, s: S, a: E, b: E, c: E, d: E)
    ensures Exec(step, s, [a, b, c, d]) == step(step(step(step(s, a), b), c), d)
  {
    ExecSnoc(step, s, [], a);
    ExecSnoc(step, s, [a], b);
    ExecSnoc(step, s, [a, b], c);
    ExecSnoc(step, s, [a, b, c], d);
    assert [] + [a] == [a] && [a] + [b] == [a, b] && [a, b] + [c] == [a, b, c] && [a, b, c] + [d] == [a, b, c, d];
  }

  lemma ExecOne<S, E>(step: (S, E) -> S, s: S, a: E)
    ensures Exec(step, s, [a]) == step(s, a)
  {
    assert [a][..0] == [];
  }

  // ----- Bounded waiting -----

  /** How often event e occurs along es. */
  function Occurrences<E(==)>(es: seq<E>, e: E): nat {
    if es == [] then 0 else Occurrences(es[..|es| - 1], e) + (if es[|es| - 1] == e then 1 else 0)
  }

  /** At its k-th event, which is e, the run leaves what `holds`. */
  ghost predicate LeavesAt<S(!new), E>(step: (S, E) -> S, s: S, es: seq<E>, e: E, holds: S -> bool, k: nat)
    requires k < |es|
  {
    es[k] == e && holds(Exec(step, s, es[..k])) && !holds(step(Exec(step, s, es[..k]), e))
  }

  /** If every e that does not leave what `holds` brings it nearer, and nothing else moves
      it, then it is left within as many e's as it was away, whatever else happens. */
  lemma {:induction false} LeftInTime<S(!new), E(!new)>(step: (S, E) -> S, s: S, es: seq<E>, e: E,
                                                    holds: S -> bool, away: S -> int)
    requires holds(s)
    requires forall x, f :: holds(x) && f != e ==> holds(step(x, f)) && away(step(x, f)) == away(x)
    requires forall x :: holds(x) && holds(step(x, e)) ==> away(step(x, e)) < away(x)
    ensures (exists k :: 0 <= k < |es| && LeavesAt(step, s, es, e, holds, k))
         || (holds(Exec(step, s, es)) && away(Exec(step, s, es)) + Occurrences(es, e) <= away(s))
  {
    if es != [] {
      var n := |es| - 1;
      LeftInTime(step, s, es[..n], e, holds, away);
      if k :| 0 <= k < n && LeavesAt(step, s, es[..n], e, holds, k) {
        assert es[..n][..k] == es[..k];
        assert LeavesAt(step, s, es, e, holds, k);
      } else if es[n] == e && !holds(step(Exec(step, s, es[..n]), e)) {
        assert LeavesAt(step, s, es, e, holds, n);
      }
    }
  }

  // ----- Calls -----

  /** At every point of the run, its two ends included. */
  ghost predicate Always<S(!new), E>(step: (S, E) -> S, s: S, es: seq<E>, p: S -> bool) {
    forall k :: 0 <= k <= |es| ==> p(Exec(step, s, es[..k]))
  }

  lemma AlwaysPrefix<S(!new), E>(step: (S, E) -> S, s: S, es: seq<E>, e: E, p: S -> bool)
    requires Always(step, s, es + [e], p)
    ensures Always(step, s, es, p) && p(Exec(step, s, es)) && p(Exec(step, s, es + [e]))
  {
    var fs := es + [e];
    forall k | 0 <= k <= |es| ensures p(Exec(step, s, es[..k])) {
      assert fs[..k] == es[..k];
    }
    assert es[..|es|] == es && fs[..|fs|] == fs;
  }

  /** What is kept from step to step for as long as a thread is inside a call. */
  lemma {:induction false} KeptInside<S(!new), E(!new)>(step: (S, E) -> S, s: S, es: seq<E>,
                                                     inside: S -> bool, keeps: S -> bool)
    requires keeps(s) && Always(step, s, es, inside)
    requires forall x, e :: keeps(x) && inside(step(x, e)) ==> keeps(step(x, e))
    ensures keeps(Exec(step, s, es))
  {
    if es != [] {
      var n := |es| - 1;
      assert es == es[..n] + [es[n]];
      AlwaysPrefix(step, s, es[..n], es[n], inside);
      KeptInside(step, s, es[..n], inside, keeps);
    }
  }

  /** How many events of the run are of a kind, seen with the state they come in. */
  ghost function Times<S, E>(step: (S, E) -> S, s: S, es: seq<E>, q: (S, E) -> bool): nat {
    if es == [] then 0 else
      var n := |es| - 1;
      Times(step, s, es[..n], q) + (if q(Exec(step, s, es[..n]), es[n]) then 1 else 0)
  }

  lemma TimesSnoc<S, E>(step: (S, E) -> S, s: S, es: seq<E>, e: E, q: (S, E) -> bool)
    ensures Times(step, s, es + [e], q) == Times(step, s, es, q) + (if q(Exec(step, s, es), e) then 1 else 0)
  {
    assert (es + [e])[..|es|] == es;
  }
}
