/**
 * The candidate walk of `BaseServer::sockFromAddrInfo` as a function of the
 * kernel's answers: which calls it makes, which descriptor it returns, and
 * what it leaves open.
 */
module Binder {
  import opened Sockets

  /**
   * The end of a walk: the value left in `sockfd`, whether the walk stopped on
   * a successful bind, and the system calls it made, in order.
   */
  datatype Walked = Walked(fd: int, bound: bool, trace: seq<Event>)

  /** A candidate on which both socket creation and bind succeed. */
  predicate Works(c: Candidate)
  {
    c.socketOk && c.bindOk
  }

  /**
   * The position of the first working candidate at or after `i`, or `|cands|`
   * when there is none: the reference the walk is measured against.
   */
  function FirstWorking(cands: seq<Candidate>, i: nat): (k: nat)
    requires i <= |cands|
    ensures i <= k <= |cands|
    ensures k < |cands| ==> Works(cands[k])
    ensures forall j :: i <= j < k ==> !Works(cands[j])
    decreases |cands| - i
  {
    if i == |cands| || Works(cands[i]) then i else FirstWorking(cands, i + 1)
  }

  /** How many of the candidates got a descriptor from `socket`. */
  function SocketsCreated(cands: seq<Candidate>): nat
  {
    if cands == [] then 0 else (if cands[0].socketOk then 1 else 0) + SocketsCreated(cands[1..])
  }

  /** The calls made on candidate `i` once `socket` has returned `fd >= 0`. */
  function Attempt(i: nat, fd: int, c: Candidate, reuse: bool): seq<Event>
  {
    [Socket(i, fd)] + (if reuse then [SetReuse(i, fd, c.reuseOk)] else []) + [Bind(i, fd, c.bindOk)]
  }

  function Prefixed(pre: seq<Event>, w: Walked): Walked
  {
    w.(trace := pre + w.trace)
  }

  lemma PrefixedTwice(a: seq<Event>, b: seq<Event>, w: Walked)
    ensures Prefixed(a, Prefixed(b, w)) == Prefixed(a + b, w)
  {
    assert a + (b + w.trace) == (a + b) + w.trace;
  }

  /**
   * The walk from candidate `i` on, when the kernel hands out `next` as the
   * next fresh descriptor and `sockfd` currently holds `sockfd`. A failed
   * `socket` leaves -1 in `sockfd`; a failed bind closes the descriptor but
   * leaves it in `sockfd`.
   */
  function Walk(cands: seq<Candidate>, reuse: bool, i: nat, next: nat, sockfd: int): Walked
    requires i <= |cands|
    decreases |cands| - i
  {
    if i == |cands| then
      Walked(sockfd, false, [])
    else if !cands[i].socketOk then
      Prefixed([Socket(i, -1)], Walk(cands, reuse, i + 1, next, -1))
    else if cands[i].bindOk then
      Walked(next, true, Attempt(i, next, cands[i], reuse))
    else
      Prefixed(Attempt(i, next, cands[i], reuse) + [Close(i, next)], Walk(cands, reuse, i + 1, next + 1, next))
  }

  /** One step of the walk, on candidate `i`. */
  lemma WalkStep(cands: seq<Candidate>, reuse: bool, i: nat, next: nat, sockfd: int)
    requires i < |cands|
    ensures !cands[i].socketOk ==>
              Walk(cands, reuse, i, next, sockfd) == Prefixed([Socket(i, -1)], Walk(cands, reuse, i + 1, next, -1))
    ensures cands[i].socketOk && cands[i].bindOk ==>
              Walk(cands, reuse, i, next, sockfd) == Walked(next, true, Attempt(i, next, cands[i], reuse))
    ensures cands[i].socketOk && !cands[i].bindOk ==>
              Walk(cands, reuse, i, next, sockfd)
                == Prefixed(Attempt(i, next, cands[i], reuse) + [Close(i, next)], Walk(cands, reuse, i + 1, next + 1, next))
  {
  }

  /** The whole walk, as `sockFromAddrInfo` starts it. */
  function BindWalk(cands: seq<Candidate>, reuse: bool, next: nat): Walked
  {
    Walk(cands, reuse, 0, next, -1)
  }

  function Range(lo: nat, hi: nat): seq<nat>
    decreases hi - lo
  {
    if lo >= hi then [] else [lo] + Range(lo + 1, hi)
  }

  /** The candidates on which `socket` was called, in call order. */
  function Tried(t: seq<Event>): seq<nat>
  {
    if t == [] then [] else (if t[0].Socket? then [t[0].cand] else []) + Tried(t[1..])
  }

  /** The calls without the `setsockopt` ones. */
  function WithoutReuse(t: seq<Event>): seq<Event>
  {
    if t == [] then [] else (if t[0].SetReuse? then [] else [t[0]]) + WithoutReuse(t[1..])
  }

  /** Every failed bind is followed at once by closing that descriptor. */
  predicate ClosesFailedBinds(t: seq<Event>)
  {
    forall j :: 0 <= j < |t| && t[j].Bind? && !t[j].ok ==> j + 1 < |t| && t[j + 1] == Close(t[j].cand, t[j].fd)
  }

  function Gap(reuse: bool): nat
  {
    if reuse then 2 else 1
  }

  /**
   * `setsockopt` is called only when reuse is requested, and only right after
   * a successful `socket` on the same descriptor; every successful `socket` is
   * followed by exactly that `setsockopt` when reuse is requested, and then by
   * a bind of the same descriptor, whatever `setsockopt` answered.
   */
  predicate ReuseDiscipline(t: seq<Event>, reuse: bool)
  {
    && (forall j :: 0 <= j < |t| && t[j].SetReuse? ==>
          reuse && 0 < j && t[j].fd >= 0 && t[j - 1] == Socket(t[j].cand, t[j].fd))
    && (forall j :: 0 <= j < |t| && t[j].Socket? && t[j].fd >= 0 ==>
          && j + Gap(reuse) < |t|
          && (reuse ==> t[j + 1].SetReuse? && t[j + 1].cand == t[j].cand && t[j + 1].fd == t[j].fd)
          && t[j + Gap(reuse)].Bind? && t[j + Gap(reuse)].cand == t[j].cand && t[j + Gap(reuse)].fd == t[j].fd)
  }

  /** Two candidate lists on which `socket` and `bind` answer alike. */
  predicate SameSocketAndBind(a: seq<Candidate>, b: seq<Candidate>)
  {
    |a| == |b| && forall j :: 0 <= j < |a| ==> a[j].socketOk == b[j].socketOk && a[j].bindOk == b[j].bindOk
  }

  // ---------------------------------------------------------------------------
  // Helpers about traces

  lemma {:induction false} TriedAppend(a: seq<Event>, b: seq<Event>)
    ensures Tried(a + b) == Tried(a) + Tried(b)
    decreases |a|
  {
    if a == [] {
      assert a + b == b;
    } else {
      assert (a + b)[0] == a[0];
      assert (a + b)[1..] == a[1..] + b;
      TriedAppend(a[1..], b);
    }
  }

  lemma {:induction false} WithoutReuseAppend(a: seq<Event>, b: seq<Event>)
    ensures WithoutReuse(a + b) == WithoutReuse(a) + WithoutReuse(b)
    decreases |a|
  {
    if a == [] {
      assert a + b == b;
    } else {
      assert (a + b)[0] == a[0];
      assert (a + b)[1..] == a[1..] + b;
      WithoutReuseAppend(a[1..], b);
    }
  }

  lemma TriedAttempt(i: nat, fd: int, c: Candidate, reuse: bool, rest: seq<Event>)
    ensures Tried(Attempt(i, fd, c, reuse) + rest) == [i] + Tried(rest)
  {
    var a := Attempt(i, fd, c, reuse);
    var mid := if reuse then [SetReuse(i, fd, c.reuseOk)] else [];
    TriedAppend([Socket(i, fd)] + mid, [Bind(i, fd, c.bindOk)]);
    TriedAppend([Socket(i, fd)], mid);
    TriedAppend(a, rest);
    assert Tried([Bind(i, fd, c.bindOk)]) == [] by {
      assert [Bind(i, fd, c.bindOk)][1..] == [];
    }
    assert Tried(mid) == [] by {
      if reuse {
        assert mid[1..] == [];
      }
    }
    assert Tried([Socket(i, fd)]) == [i] by {
      assert [Socket(i, fd)][1..] == [];
    }
  }

  lemma WithoutReuseAttempt(i: nat, fd: int, c: Candidate, reuse: bool)
    ensures WithoutReuse(Attempt(i, fd, c, reuse)) == [Socket(i, fd), Bind(i, fd, c.bindOk)]
  {
    var mid := if reuse then [SetReuse(i, fd, c.reuseOk)] else [];
    WithoutReuseAppend([Socket(i, fd)] + mid, [Bind(i, fd, c.bindOk)]);
    WithoutReuseAppend([Socket(i, fd)], mid);
    assert WithoutReuse([Bind(i, fd, c.bindOk)]) == [Bind(i, fd, c.bindOk)] by {
      assert [Bind(i, fd, c.bindOk)][1..] == [];
    }
    assert WithoutReuse(mid) == [] by {
      if reuse {
        assert mid[1..] == [];
      }
    }
    assert WithoutReuse([Socket(i, fd)]) == [Socket(i, fd)] by {
      assert [Socket(i, fd)][1..] == [];
    }
  }

  lemma ReplayAttempt(open: set<int>, i: nat, fd: int, c: Candidate, reuse: bool)
    requires fd >= 0
    ensures Replay(open, Attempt(i, fd, c, reuse)) == open + {fd}
    ensures Replay(open, Attempt(i, fd, c, reuse) + [Close(i, fd)]) == open + {fd} - {fd}
  {
    var mid := if reuse then [SetReuse(i, fd, c.reuseOk)] else [];
    ReplayAppend(open, [Socket(i, fd)] + mid, [Bind(i, fd, c.bindOk)]);
    ReplayAppend(open, [Socket(i, fd)], mid);
    ReplayOne(open, Socket(i, fd));
    ReplayOne(open + {fd}, Bind(i, fd, c.bindOk));
    if reuse {
      ReplayOne(open + {fd}, SetReuse(i, fd, c.reuseOk));
    }
    ReplayAppend(open, Attempt(i, fd, c, reuse), [Close(i, fd)]);
    ReplayOne(open + {fd}, Close(i, fd));
  }

  lemma ClosesFailedBindsAppend(a: seq<Event>, b: seq<Event>)
    requires ClosesFailedBinds(a) && ClosesFailedBinds(b)
    ensures ClosesFailedBinds(a + b)
  {
    var t := a + b;
    forall j | 0 <= j < |t| && t[j].Bind? && !t[j].ok
      ensures j + 1 < |t| && t[j + 1] == Close(t[j].cand, t[j].fd)
    {
      if j < |a| {
        assert t[j] == a[j] && t[j + 1] == a[j + 1];
      } else {
        assert t[j] == b[j - |a|] && t[j + 1] == b[j + 1 - |a|];
      }
    }
  }

  lemma ReuseOnlyAfterSocketAppend(a: seq<Event>, b: seq<Event>, reuse: bool)
    requires ReuseDiscipline(a, reuse) && ReuseDiscipline(b, reuse)
    ensures var t := a + b;
            forall j :: 0 <= j < |t| && t[j].SetReuse? ==>
              reuse && 0 < j && t[j].fd >= 0 && t[j - 1] == Socket(t[j].cand, t[j].fd)
  {
    var t := a + b;
    forall j | 0 <= j < |t| && t[j].SetReuse?
      ensures reuse && 0 < j && t[j].fd >= 0 && t[j - 1] == Socket(t[j].cand, t[j].fd)
    {
      if j < |a| {
        assert t[j] == a[j] && t[j - 1] == a[j - 1];
      } else {
        assert t[j] == b[j - |a|] && t[j - 1] == b[j - 1 - |a|];
      }
    }
  }

  lemma BindAfterSocketAppend(a: seq<Event>, b: seq<Event>, reuse: bool)
    requires ReuseDiscipline(a, reuse) && ReuseDiscipline(b, reuse)
    ensures var t := a + b;
            forall j :: 0 <= j < |t| && t[j].Socket? && t[j].fd >= 0 ==>
              && j + Gap(reuse) < |t|
              && (reuse ==> t[j + 1].SetReuse? && t[j + 1].cand == t[j].cand && t[j + 1].fd == t[j].fd)
              && t[j + Gap(reuse)].Bind? && t[j + Gap(reuse)].cand == t[j].cand && t[j + Gap(reuse)].fd == t[j].fd
  {
    var t := a + b;
    var g := Gap(reuse);
    forall j | 0 <= j < |t| && t[j].Socket? && t[j].fd >= 0
      ensures && j + g < |t|
              && (reuse ==> t[j + 1].SetReuse? && t[j + 1].cand == t[j].cand && t[j + 1].fd == t[j].fd)
              && t[j + g].Bind? && t[j + g].cand == t[j].cand && t[j + g].fd == t[j].fd
    {
      if j < |a| {
        assert t[j] == a[j] && t[j + g] == a[j + g];
        if reuse {
          assert t[j + 1] == a[j + 1];
        }
      } else {
        var j' := j - |a|;
        assert t[j] == b[j'] && t[j + g] == b[j' + g];
        if reuse {
          assert t[j + 1] == b[j' + 1];
        }
      }
    }
  }

  lemma ReuseDisciplineAppend(a: seq<Event>, b: seq<Event>, reuse: bool)
    requires ReuseDiscipline(a, reuse) && ReuseDiscipline(b, reuse)
    ensures ReuseDiscipline(a + b, reuse)
  {
    ReuseOnlyAfterSocketAppend(a, b, reuse);
    BindAfterSocketAppend(a, b, reuse);
  }

  /** The calls on one candidate whose `socket` succeeded, spelled out. */
  lemma AttemptShape(i: nat, fd: int, c: Candidate, reuse: bool, tail: seq<Event>)
    ensures var t := Attempt(i, fd, c, reuse) + tail;
            && |t| == Gap(reuse) + 1 + |tail|
            && t[0] == Socket(i, fd)
            && (reuse ==> t[1] == SetReuse(i, fd, c.reuseOk))
            && t[Gap(reuse)] == Bind(i, fd, c.bindOk)
            && forall j :: Gap(reuse) < j < |t| ==> t[j] == tail[j - Gap(reuse) - 1]
  {
  }

  lemma AttemptDiscipline(i: nat, fd: int, c: Candidate, reuse: bool, tail: seq<Event>)
    requires fd >= 0
    requires tail == [] || tail == [Close(i, fd)]
    requires !c.bindOk ==> tail == [Close(i, fd)]
    ensures ReuseDiscipline(Attempt(i, fd, c, reuse) + tail, reuse)
    ensures ClosesFailedBinds(Attempt(i, fd, c, reuse) + tail)
  {
    var t := Attempt(i, fd, c, reuse) + tail;
    var g := Gap(reuse);
    AttemptShape(i, fd, c, reuse, tail);
    forall j | 0 <= j < |t| && t[j].SetReuse?
      ensures reuse && 0 < j && t[j].fd >= 0 && t[j - 1] == Socket(t[j].cand, t[j].fd)
    {
      assert j == 1 && reuse;
    }
    forall j | 0 <= j < |t| && t[j].Socket? && t[j].fd >= 0
      ensures && j + g < |t|
              && (reuse ==> t[j + 1].SetReuse? && t[j + 1].cand == t[j].cand && t[j + 1].fd == t[j].fd)
              && t[j + g].Bind? && t[j + g].cand == t[j].cand && t[j + g].fd == t[j].fd
    {
      assert j == 0;
    }
    forall j | 0 <= j < |t| && t[j].Bind? && !t[j].ok
      ensures j + 1 < |t| && t[j + 1] == Close(t[j].cand, t[j].fd)
    {
      assert j == g;
    }
  }

  lemma SocketsCreatedStep(cands: seq<Candidate>, i: nat, k: nat)
    requires i < k <= |cands|
    ensures SocketsCreated(cands[i..k]) == (if cands[i].socketOk then 1 else 0) + SocketsCreated(cands[i + 1..k])
  {
    assert cands[i..k][0] == cands[i] && cands[i..k][1..] == cands[i + 1..k];
  }

  lemma LastPrefixed(pre: seq<Event>, w: Walked)
    requires |w.trace| > 0
    ensures |Prefixed(pre, w).trace| > 0
    ensures Prefixed(pre, w).trace[|Prefixed(pre, w).trace| - 1] == w.trace[|w.trace| - 1]
  {
  }

  lemma {:induction false} WalkBinds(cands: seq<Candidate>, reuse: bool, i: nat, next: nat, sockfd: int)
    requires i <= |cands|
    ensures Walk(cands, reuse, i, next, sockfd).bound <==> FirstWorking(cands, i) < |cands|
    decreases |cands| - i
  {
    if i < |cands| {
      WalkStep(cands, reuse, i, next, sockfd);
      if !cands[i].socketOk {
        WalkBinds(cands, reuse, i + 1, next, -1);
      } else if !cands[i].bindOk {
        WalkBinds(cands, reuse, i + 1, next + 1, next);
      }
    }
  }

  lemma {:induction false} WalkSelects(cands: seq<Candidate>, reuse: bool, i: nat, next: nat, sockfd: int)
    requires i <= |cands|
    requires Walk(cands, reuse, i, next, sockfd).bound
    ensures var w := Walk(cands, reuse, i, next, sockfd);
            var k := FirstWorking(cands, i);
            && k < |cands|
            && |w.trace| > 0 && w.trace[|w.trace| - 1] == Bind(k, w.fd, true)
            && w.fd == next + SocketsCreated(cands[i..k])
    decreases |cands| - i
  {
    WalkBinds(cands, reuse, i, next, sockfd);
    var k := FirstWorking(cands, i);
    WalkStep(cands, reuse, i, next, sockfd);
    if !cands[i].socketOk {
      var rest := Walk(cands, reuse, i + 1, next, -1);
      WalkSelects(cands, reuse, i + 1, next, -1);
      LastPrefixed([Socket(i, -1)], rest);
      SocketsCreatedStep(cands, i, k);
    } else if cands[i].bindOk {
      assert k == i;
    } else {
      var rest := Walk(cands, reuse, i + 1, next + 1, next);
      WalkSelects(cands, reuse, i + 1, next + 1, next);
      LastPrefixed(Attempt(i, next, cands[i], reuse) + [Close(i, next)], rest);
      SocketsCreatedStep(cands, i, k);
    }
  }

  lemma TriedPrefixed(pre: seq<Event>, w: Walked)
    ensures Tried(Prefixed(pre, w).trace) == Tried(pre) + Tried(w.trace)
  {
    TriedAppend(pre, w.trace);
  }

  lemma TriedFailedSocket(i: nat, w: Walked)
    ensures Tried(Prefixed([Socket(i, -1)], w).trace) == [i] + Tried(w.trace)
  {
    TriedPrefixed([Socket(i, -1)], w);
    assert Tried([Socket(i, -1)]) == [i] by {
      assert [Socket(i, -1)][1..] == [];
    }
  }

  lemma TriedFailedBind(i: nat, fd: int, c: Candidate, reuse: bool, w: Walked)
    ensures Tried(Prefixed(Attempt(i, fd, c, reuse) + [Close(i, fd)], w).trace) == [i] + Tried(w.trace)
  {
    var a := Attempt(i, fd, c, reuse);
    TriedPrefixed(a + [Close(i, fd)], w);
    TriedAppend(a, [Close(i, fd)]);
    TriedAttempt(i, fd, c, reuse, []);
    assert a + [] == a;
    assert Tried([Close(i, fd)]) == [] by {
      assert [Close(i, fd)][1..] == [];
    }
  }

  /** The end of the candidates the walk from `i` tries: one past the first working one, or all. */
  function TriedEnd(cands: seq<Candidate>, i: nat): nat
    requires i <= |cands|
  {
    var k := FirstWorking(cands, i);
    if k < |cands| then k + 1 else |cands|
  }

  lemma TriedEndStep(cands: seq<Candidate>, i: nat)
    requires i < |cands| && !Works(cands[i])
    ensures TriedEnd(cands, i) == TriedEnd(cands, i + 1) > i
    ensures Range(i, TriedEnd(cands, i)) == [i] + Range(i + 1, TriedEnd(cands, i + 1))
  {
  }

  lemma {:induction false} WalkTried(cands: seq<Candidate>, reuse: bool, i: nat, next: nat, sockfd: int)
    requires i <= |cands|
    ensures Tried(Walk(cands, reuse, i, next, sockfd).trace) == Range(i, TriedEnd(cands, i))
    decreases |cands| - i
  {
    if i < |cands| {
      var c := cands[i];
      WalkStep(cands, reuse, i, next, sockfd);
      if !c.socketOk {
        TriedEndStep(cands, i);
        WalkTried(cands, reuse, i + 1, next, -1);
        TriedFailedSocket(i, Walk(cands, reuse, i + 1, next, -1));
      } else if c.bindOk {
        TriedAttempt(i, next, c, reuse, []);
        assert Attempt(i, next, c, reuse) + [] == Attempt(i, next, c, reuse);
        assert Range(i, i + 1) == [i] + Range(i + 1, i + 1);
      } else {
        TriedEndStep(cands, i);
        WalkTried(cands, reuse, i + 1, next + 1, next);
        TriedFailedBind(i, next, c, reuse, Walk(cands, reuse, i + 1, next + 1, next));
      }
    }
  }

  /** Every call in `t` is on a candidate between `lo` and `hi`. */
  predicate CandsWithin(t: seq<Event>, lo: nat, hi: int)
  {
    forall e :: e in t ==> lo <= e.cand <= hi
  }

  lemma TouchesPrefixed(pre: seq<Event>, w: Walked, lo: nat, hi: int)
    requires CandsWithin(pre, lo, hi) && CandsWithin(w.trace, lo, hi)
    ensures CandsWithin(Prefixed(pre, w).trace, lo, hi)
  {
  }

  lemma TouchesAttempt(i: nat, fd: int, c: Candidate, reuse: bool)
    ensures CandsWithin(Attempt(i, fd, c, reuse), i, i)
    ensures CandsWithin(Attempt(i, fd, c, reuse) + [Close(i, fd)], i, i)
    ensures CandsWithin([Socket(i, -1)], i, i)
  {
  }

  lemma {:induction false} WalkTouches(cands: seq<Candidate>, reuse: bool, i: nat, next: nat, sockfd: int)
    requires i <= |cands|
    ensures CandsWithin(Walk(cands, reuse, i, next, sockfd).trace, i,
                        if FirstWorking(cands, i) < |cands| then FirstWorking(cands, i) else |cands| - 1)
    decreases |cands| - i
  {
    if i < |cands| {
      var c := cands[i];
      var k := FirstWorking(cands, i);
      var hi := if k < |cands| then k else |cands| - 1;
      WalkStep(cands, reuse, i, next, sockfd);
      TouchesAttempt(i, next, c, reuse);
      if !c.socketOk {
        var rest := Walk(cands, reuse, i + 1, next, -1);
        WalkTouches(cands, reuse, i + 1, next, -1);
        TouchesPrefixed([Socket(i, -1)], rest, i, hi);
      } else if !c.bindOk {
        var rest := Walk(cands, reuse, i + 1, next + 1, next);
        WalkTouches(cands, reuse, i + 1, next + 1, next);
        TouchesPrefixed(Attempt(i, next, c, reuse) + [Close(i, next)], rest, i, hi);
      }
    }
  }

  lemma {:induction false} WalkOpen(cands: seq<Candidate>, reuse: bool, i: nat, next: nat, sockfd: int, open: set<int>)
    requires i <= |cands|
    requires forall x :: x in open ==> x < next
    ensures var w := Walk(cands, reuse, i, next, sockfd);
            && Replay(open, w.trace) == (if w.bound then open + {w.fd} else open)
            && (w.fd == sockfd || w.fd == -1 || w.fd >= next)
            && (w.bound ==> w.fd >= next)
    decreases |cands| - i
  {
    if i == |cands| {
    } else if !cands[i].socketOk {
      var rest := Walk(cands, reuse, i + 1, next, -1);
      WalkOpen(cands, reuse, i + 1, next, -1, open);
      ReplayAppend(open, [Socket(i, -1)], rest.trace);
      ReplayOne(open, Socket(i, -1));
    } else if cands[i].bindOk {
      ReplayAttempt(open, i, next, cands[i], reuse);
    } else {
      var rest := Walk(cands, reuse, i + 1, next + 1, next);
      WalkOpen(cands, reuse, i + 1, next + 1, next, open);
      ReplayAttempt(open, i, next, cands[i], reuse);
      ReplayAppend(open, Attempt(i, next, cands[i], reuse) + [Close(i, next)], rest.trace);
      assert open + {next} - {next} == open;
    }
  }

  lemma DisciplinePrefixed(pre: seq<Event>, w: Walked, reuse: bool)
    requires ClosesFailedBinds(pre) && ReuseDiscipline(pre, reuse)
    requires ClosesFailedBinds(w.trace) && ReuseDiscipline(w.trace, reuse)
    ensures ClosesFailedBinds(Prefixed(pre, w).trace) && ReuseDiscipline(Prefixed(pre, w).trace, reuse)
  {
    ClosesFailedBindsAppend(pre, w.trace);
    ReuseDisciplineAppend(pre, w.trace, reuse);
  }

  lemma FailedSocketDiscipline(i: nat, reuse: bool)
    ensures ClosesFailedBinds([Socket(i, -1)]) && ReuseDiscipline([Socket(i, -1)], reuse)
  {
  }

  lemma {:induction false} WalkDiscipline(cands: seq<Candidate>, reuse: bool, i: nat, next: nat, sockfd: int)
    requires i <= |cands|
    ensures ClosesFailedBinds(Walk(cands, reuse, i, next, sockfd).trace)
    ensures ReuseDiscipline(Walk(cands, reuse, i, next, sockfd).trace, reuse)
    decreases |cands| - i
  {
    if i < |cands| {
      var c := cands[i];
      WalkStep(cands, reuse, i, next, sockfd);
      if !c.socketOk {
        WalkDiscipline(cands, reuse, i + 1, next, -1);
        FailedSocketDiscipline(i, reuse);
        DisciplinePrefixed([Socket(i, -1)], Walk(cands, reuse, i + 1, next, -1), reuse);
      } else if c.bindOk {
        AttemptDiscipline(i, next, c, reuse, []);
        assert Attempt(i, next, c, reuse) + [] == Attempt(i, next, c, reuse);
      } else {
        WalkDiscipline(cands, reuse, i + 1, next + 1, next);
        AttemptDiscipline(i, next, c, reuse, [Close(i, next)]);
        DisciplinePrefixed(Attempt(i, next, c, reuse) + [Close(i, next)], Walk(cands, reuse, i + 1, next + 1, next), reuse);
      }
    }
  }

  lemma {:induction false} WalkIgnoresReuse(a: seq<Candidate>, b: seq<Candidate>, ra: bool, rb: bool,
                                            i: nat, next: nat, sockfd: int)
    requires SameSocketAndBind(a, b) && i <= |a|
    ensures var wa := Walk(a, ra, i, next, sockfd);
            var wb := Walk(b, rb, i, next, sockfd);
            wa.fd == wb.fd && wa.bound == wb.bound && WithoutReuse(wa.trace) == WithoutReuse(wb.trace)
    decreases |a| - i
  {
    if i == |a| {
    } else if !a[i].socketOk {
      var restA := Walk(a, ra, i + 1, next, -1);
      var restB := Walk(b, rb, i + 1, next, -1);
      WalkIgnoresReuse(a, b, ra, rb, i + 1, next, -1);
      WithoutReuseAppend([Socket(i, -1)], restA.trace);
      WithoutReuseAppend([Socket(i, -1)], restB.trace);
    } else {
      WithoutReuseAttempt(i, next, a[i], ra);
      WithoutReuseAttempt(i, next, b[i], rb);
      if !a[i].bindOk {
        var restA := Walk(a, ra, i + 1, next + 1, next);
        var restB := Walk(b, rb, i + 1, next + 1, next);
        WalkIgnoresReuse(a, b, ra, rb, i + 1, next + 1, next);
        WithoutReuseAppend(Attempt(i, next, a[i], ra), [Close(i, next)]);
        WithoutReuseAppend(Attempt(i, next, b[i], rb), [Close(i, next)]);
        WithoutReuseAppend(Attempt(i, next, a[i], ra) + [Close(i, next)], restA.trace);
        WithoutReuseAppend(Attempt(i, next, b[i], rb) + [Close(i, next)], restB.trace);
        assert WithoutReuse([Close(i, next)]) == [Close(i, next)] by {
          assert [Close(i, next)][1..] == [];
        }
      }
    }
  }

  lemma {:induction false} WalkExhausted(cands: seq<Candidate>, reuse: bool, i: nat, next: nat, sockfd: int)
    requires i <= |cands| && FirstWorking(cands, i) == |cands|
    ensures var w := Walk(cands, reuse, i, next, sockfd);
            && !w.bound
            && w.fd == (if i == |cands| then sockfd
                        else if cands[|cands| - 1].socketOk then next + SocketsCreated(cands[i..]) - 1
                        else -1)
            && (i < |cands| && cands[|cands| - 1].socketOk ==> w.fd >= next)
    decreases |cands| - i
  {
    if i == |cands| {
    } else {
      assert cands[i..][0] == cands[i] && cands[i..][1..] == cands[i + 1..];
      if !cands[i].socketOk {
        WalkExhausted(cands, reuse, i + 1, next, -1);
      } else {
        WalkExhausted(cands, reuse, i + 1, next + 1, next);
      }
    }
  }

  // ---------------------------------------------------------------------------
  // Properties of sockFromAddrInfo

  /**
   * The walk binds exactly when some candidate works, and then returns the
   * descriptor created for the first working candidate, in list order, with
   * its successful bind as the last call. `socket` is tried on every
   * candidate up to that one, once each and in order, and no later candidate
   * is touched; without a working candidate every candidate is tried.
   */
  lemma BinderSelectsFirstWorking(cands: seq<Candidate>, reuse: bool, next: nat)
    ensures var w := BindWalk(cands, reuse, next);
            var k := FirstWorking(cands, 0);
            && (w.bound <==> k < |cands|)
            && (w.bound ==> && w.fd == next + SocketsCreated(cands[..k])
                            && |w.trace| > 0 && w.trace[|w.trace| - 1] == Bind(k, w.fd, true))
            && Tried(w.trace) == Range(0, if k < |cands| then k + 1 else |cands|)
            && CandsWithin(w.trace, 0, if k < |cands| then k else |cands| - 1)
  {
    WalkBinds(cands, reuse, 0, next, -1);
    if BindWalk(cands, reuse, next).bound {
      WalkSelects(cands, reuse, 0, next, -1);
    }
    WalkTried(cands, reuse, 0, next, -1);
    WalkTouches(cands, reuse, 0, next, -1);
    assert cands[0..FirstWorking(cands, 0)] == cands[..FirstWorking(cands, 0)];
  }

  /**
   * No descriptor leaks: after the walk the only descriptor it opened that is
   * still open is the returned one, and only when the walk bound it; every
   * failed bind is immediately followed by the close of that descriptor.
   */
  lemma BinderDoesNotLeak(cands: seq<Candidate>, reuse: bool, next: nat)
    ensures var w := BindWalk(cands, reuse, next);
            && Replay({}, w.trace) == (if w.bound then {w.fd} else {})
            && ClosesFailedBinds(w.trace)
  {
    WalkOpen(cands, reuse, 0, next, -1, {});
    WalkDiscipline(cands, reuse, 0, next, -1);
  }

  /** The reuse option is set only when requested, only on a created socket, and never stops the bind. */
  lemma BinderReuseDiscipline(cands: seq<Candidate>, reuse: bool, next: nat)
    ensures ReuseDiscipline(BindWalk(cands, reuse, next).trace, reuse)
  {
    WalkDiscipline(cands, reuse, 0, next, -1);
  }

  /**
   * Given the same answers of `socket` and `bind`, neither the reuse flag nor
   * the answers of `setsockopt` change anything except the `setsockopt` calls:
   * the returned descriptor, whether it is bound and every other call are the
   * same.
   */
  lemma ReuseNeverDecides(a: seq<Candidate>, b: seq<Candidate>, ra: bool, rb: bool, next: nat)
    requires SameSocketAndBind(a, b)
    ensures BindWalk(a, ra, next).fd == BindWalk(b, rb, next).fd
    ensures BindWalk(a, ra, next).bound == BindWalk(b, rb, next).bound
    ensures WithoutReuse(BindWalk(a, ra, next).trace) == WithoutReuse(BindWalk(b, rb, next).trace)
  {
    WalkIgnoresReuse(a, b, ra, rb, 0, next, -1);
  }

  /**
   * When no candidate works, the walk returns -1 for an empty list or when
   * `socket` failed on the last candidate; otherwise it returns the
   * descriptor of the last candidate, which is non-negative and already closed.
   */
  lemma BinderFailureResult(cands: seq<Candidate>, reuse: bool, next: nat)
    requires FirstWorking(cands, 0) == |cands|
    ensures var w := BindWalk(cands, reuse, next);
            && !w.bound
            && w.fd == (if |cands| == 0 || !cands[|cands| - 1].socketOk then -1
                        else next + SocketsCreated(cands) - 1)
            && (w.fd >= 0 <==> |cands| > 0 && cands[|cands| - 1].socketOk)
            && w.fd !in Replay({}, w.trace)
  {
    WalkExhausted(cands, reuse, 0, next, -1);
    WalkOpen(cands, reuse, 0, next, -1, {});
    assert cands[0..] == cands;
  }

  /**
   * The walk as written hands back a closed descriptor: with one candidate
   * whose bind fails it returns that candidate's descriptor, non-negative,
   * although nothing is bound and nothing is left open.
   */
  lemma ClosedDescriptorReturned(next: nat)
    ensures var w := BindWalk([Candidate(true, true, false)], false, next);
            w.fd == next && w.fd >= 0 && !w.bound && Replay({}, w.trace) == {}
  {
    BinderDoesNotLeak([Candidate(true, true, false)], false, next);
  }

  /**
   * The result of the walk with `sockfd` reset to -1 after each close: the
   * fresh descriptor of the first working candidate, or -1 when none works.
   */
  function FixedWalkFd(cands: seq<Candidate>, next: nat): (fd: int)
    ensures fd >= 0 <==> FirstWorking(cands, 0) < |cands|
    ensures fd >= 0 ==> fd >= next
  {
    var k := FirstWorking(cands, 0);
    if k < |cands| then next + SocketsCreated(cands[..k]) else -1
  }
}
