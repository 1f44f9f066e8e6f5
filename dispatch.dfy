/**
 * The accept loop of `BaseServer::startListening` over a finite run of
 * `accept` results: which client sockets reach the callback, and in what order.
 */
module Dispatch {

  /**
   * The client sockets handed to the callback for a run of `accept` results,
   * in order. A negative result is a failed accept: it is logged and calls
   * nothing. Without a callback nothing is called.
   */
  function Dispatched(accepts: seq<int>, hasCallback: bool): seq<int>
    decreases |accepts|
  {
    if accepts == [] then []
    else
      var last := accepts[|accepts| - 1];
      Dispatched(accepts[..|accepts| - 1], hasCallback) + (if hasCallback && last >= 0 then [last] else [])
  }

  /**
   * Serving one run of accepts and then another is serving both in a row: the
   * calls of a longer run extend those of any prefix, so the loop, however far
   * it gets, never revises a call it made.
   */
  lemma {:induction false} DispatchedAppend(a: seq<int>, b: seq<int>, hasCallback: bool)
    ensures Dispatched(a + b, hasCallback) == Dispatched(a, hasCallback) + Dispatched(b, hasCallback)
    decreases |b|
  {
    if b == [] {
      assert a + b == a;
    } else {
      var init := b[..|b| - 1];
      assert (a + b)[..|a + b| - 1] == a + init;
      assert (a + b)[|a + b| - 1] == b[|b| - 1];
      DispatchedAppend(a, init, hasCallback);
    }
  }

  /** A failed accept anywhere in the run changes nothing: no call, and the loop goes on. */
  lemma FailedAcceptIgnored(a: seq<int>, x: int, b: seq<int>, hasCallback: bool)
    requires x < 0
    ensures Dispatched(a + [x] + b, hasCallback) == Dispatched(a + b, hasCallback)
  {
    DispatchedAppend(a + [x], b, hasCallback);
    DispatchedAppend(a, [x], hasCallback);
    DispatchedAppend(a, b, hasCallback);
    assert [x][..0] == [];
  }

  /** Without a callback, no accept calls anything. */
  lemma {:induction false} NoCallbackNoCalls(a: seq<int>)
    ensures Dispatched(a, false) == []
    decreases |a|
  {
    if a != [] {
      NoCallbackNoCalls(a[..|a| - 1]);
    }
  }

  /**
   * With a callback, every successful accept calls it exactly once with its
   * client socket, and a failed accept never does.
   */
  lemma {:induction false} DispatchedExactlyOnce(a: seq<int>)
    ensures forall s :: multiset(Dispatched(a, true))[s] == if s >= 0 then multiset(a)[s] else 0
    decreases |a|
  {
    if a != [] {
      var init := a[..|a| - 1];
      var last := a[|a| - 1];
      DispatchedExactlyOnce(init);
      assert a == init + [last];
      assert multiset(a) == multiset(init) + multiset{last};
    }
  }

  /** Two failed accepts followed by a successful one call the callback once, for that client. */
  lemma TwoFailuresThenSuccess(s: int)
    requires s >= 0
    ensures Dispatched([-1, -1, s], true) == [s]
  {
    assert [-1, -1, s][..2] == [-1, -1];
    assert [-1, -1][..1] == [-1];
    assert [-1][..0] == [];
  }
}
