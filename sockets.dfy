/**
 * The part of the operating system the server talks to, reduced to what
 * decides its control flow: the constants it passes to the resolver, what the
 * kernel answers for each resolved candidate address, and the system calls the
 * kernel sees while the server looks for a socket to listen on.
 */
module Sockets {

  // Values of the Linux headers.
  const AF_UNSPEC: int := 0
  const AF_INET: int := 2
  const AF_INET6: int := 10
  const SOCK_STREAM: int := 1
  const AI_PASSIVE: int := 1
  const SOMAXCONN: int := 4096

  /** The parameter type of `run`: a C `unsigned int`. */
  newtype uint32 = x: int | 0 <= x < 0x1_0000_0000

  /** The `addrinfo` hints handed to `getaddrinfo`. */
  datatype Hints = Hints(family: int, socktype: int, flags: int)

  /**
   * One resolved candidate address, described by the kernel's answers to the
   * calls the server makes on it: `socket`, `setsockopt(SO_REUSEADDR)` and `bind`.
   */
  datatype Candidate = Candidate(socketOk: bool, reuseOk: bool, bindOk: bool)

  /** What `getaddrinfo` reports: the candidate list in its own order, or its non-zero error code. */
  datatype Resolution = Resolved(candidates: seq<Candidate>) | GaiError(code: int)

  /** A system call made on a candidate; `cand` is the candidate's position in the list. */
  datatype Event =
    | Socket(cand: nat, fd: int)            // fd is what socket() returned, -1 on failure
    | SetReuse(cand: nat, fd: int, ok: bool)
    | Bind(cand: nat, fd: int, ok: bool)
    | Close(cand: nat, fd: int)

  /** The open descriptors after one system call. */
  function Effect(open: set<int>, e: Event): set<int>
  {
    match e
    case Socket(_, fd) => if fd >= 0 then open + {fd} else open
    case Close(_, fd) => open - {fd}
    case _ => open
  }

  /** The open descriptors after a sequence of system calls, from `open` on. */
  function Replay(open: set<int>, t: seq<Event>): set<int>
    decreases |t|
  {
    if t == [] then open else Replay(Effect(open, t[0]), t[1..])
  }

  lemma {:induction false} ReplayAppend(open: set<int>, a: seq<Event>, b: seq<Event>)
    ensures Replay(open, a + b) == Replay(Replay(open, a), b)
    decreases |a|
  {
    if a == [] {
      assert a + b == b;
    } else {
      assert (a + b)[0] == a[0];
      assert (a + b)[1..] == a[1..] + b;
      ReplayAppend(Effect(open, a[0]), a[1..], b);
    }
  }

  /** Replaying one call is applying its effect. */
  lemma ReplayOne(open: set<int>, e: Event)
    ensures Replay(open, [e]) == Effect(open, e)
  {
    assert [e][1..] == [];
  }
}
