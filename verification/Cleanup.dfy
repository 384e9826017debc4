/** The stack of clean-up handlers of a thread: a linked list of records that live in the
    blocks between pthread_cleanup_push and pthread_cleanup_pop. */
module Cleanup {

  /** A handler: which routine, with which argument. */
  datatype Handler = Handler(func: nat, arg: nat)

  /** Newest handler first; with the handlers executed so far, oldest first. */
  datatype State = State(stack: seq<Handler>, executed: seq<Handler>)

  function Push(s: State, h: Handler): State { s.(stack := [h] + s.stack) }

  function Pop(s: State, execute: bool): State {
    if s.stack == [] then s
    else State(s.stack[1..], if execute then s.executed + [s.stack[0]] else s.executed)
  }

  function RunAll(s: State): State
    decreases |s.stack|
  {
    if s.stack == [] then s else RunAll(Pop(s, true))
  }

  /** Cancellation executes every handler once, newest first. */
  lemma {:induction false} RunAllIsNewestFirst(s: State)
    ensures RunAll(s) == State([], s.executed + s.stack)
    decreases |s.stack|
  {
    if s.stack == [] {
      assert s.executed + s.stack == s.executed;
    } else {
      RunAllIsNewestFirst(Pop(s, true));
      assert s.executed + [s.stack[0]] + s.stack[1..] == s.executed + s.stack;
    }
  }

  function PushAll(s: State, hs: seq<Handler>): State {
    if hs == [] then s else Push(PushAll(s, hs[..|hs| - 1]), hs[|hs| - 1])
  }

  function Reverse(hs: seq<Handler>): seq<Handler> {
    if hs == [] then [] else [hs[|hs| - 1]] + Reverse(hs[..|hs| - 1])
  }

  lemma {:induction false} PushedStack(s: State, hs: seq<Handler>)
    ensures PushAll(s, hs) == State(Reverse(hs) + s.stack, s.executed)
  {
    if hs == [] {
      assert Reverse(hs) + s.stack == s.stack;
    } else {
      PushedStack(s, hs[..|hs| - 1]);
    }
  }

  /** The k-th handler executed is the k-th last pushed. */
  lemma {:induction false} ReverseAt(hs: seq<Handler>, k: nat)
    requires k < |hs|
    ensures |Reverse(hs)| == |hs| && Reverse(hs)[k] == hs[|hs| - 1 - k]
  {
    var p := hs[..|hs| - 1];
    if k > 0 {
      ReverseAt(p, k - 1);
    } else if p != [] {
      ReverseAt(p, 0);
    }
  }

  /** Handlers pushed and then run by a cancellation are executed in the reverse order,
      before any pushed earlier. */
  lemma LastInFirstOut(s: State, hs: seq<Handler>)
    ensures RunAll(PushAll(s, hs)).executed == s.executed + Reverse(hs) + s.stack
  {
    PushedStack(s, hs);
    RunAllIsNewestFirst(PushAll(s, hs));
    assert s.executed + (Reverse(hs) + s.stack) == s.executed + Reverse(hs) + s.stack;
  }

  // ----- The list itself -----

  /** pthread_cleanup_t */
  class Node {
    var func: nat
    var arg: nat
    var next: Node?

    constructor ()
      ensures next == null
    {
      func, arg, next := 0, 0, null;
    }
  }

  /** The part of a thread's record that holds its handlers. */
  class Handlers {
    var cleanup: Node?
    var executed: seq<Handler>
    ghost var nodes: seq<Node>

    ghost predicate Valid()
      reads this, nodes
    {
      && cleanup == Link(0)
      && (forall i :: 0 <= i < |nodes| ==> nodes[i].next == Link(i + 1))
      && forall i, j :: 0 <= i < j < |nodes| ==> nodes[i] != nodes[j]
    }

    ghost function Link(i: nat): Node?
      reads this
    {
      if i < |nodes| then nodes[i] else null
    }

    ghost function Contents(): State
      reads this, nodes
    {
      var handler := i requires 0 <= i < |nodes| reads this, nodes => Handler(nodes[i].func, nodes[i].arg);
      State(seq(|nodes|, handler), executed)
    }

    constructor ()
      ensures Valid() && Contents() == State([], [])
    {
      cleanup := null;
      executed := [];
      nodes := [];
    }

    /** The record is the block's own, so not on the list yet. */
    method PushRoutine(routine: nat, arg: nat, storage: Node)
      requires Valid() && storage !in nodes
      modifies this, storage
      ensures Valid() && Contents() == Push(old(Contents()), Handler(routine, arg))
      ensures nodes == [storage] + old(nodes)
    {
      storage.func := routine;
      storage.arg := arg;
      storage.next := cleanup;
      cleanup := storage;
      nodes := [storage] + nodes;
      assert forall i :: 0 < i < |nodes| ==> nodes[i] == old(nodes)[i - 1];
      assert Contents().stack[1..] == old(Contents().stack);
    }

    method PopRoutine(execute: bool)
      requires Valid()
      modifies this
      ensures Valid() && Contents() == Pop(old(Contents()), execute)
      ensures nodes == if old(nodes) == [] then [] else old(nodes)[1..]
    {
      var clfunc := cleanup;
      if clfunc == null {
        return;
      }
      cleanup := clfunc.next;
      nodes := nodes[1..];
      if execute {
        executed := executed + [Handler(clfunc.func, clfunc.arg)];
      }
      assert Contents().stack == old(Contents().stack)[1..];
    }

    /** What pthread_testcancel does before it ends the thread. */
    method RunHandlers()
      requires Valid()
      modifies this
      ensures Valid() && Contents() == State([], old(executed) + old(Contents().stack))
    {
      while cleanup != null
        invariant Valid() && RunAll(Contents()) == RunAll(old(Contents()))
        decreases |nodes|
      {
        PopRoutine(true);
      }
      RunAllIsNewestFirst(old(Contents()));
    }
  }
}
