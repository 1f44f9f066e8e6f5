/**
 * `jzj::BaseServer`: a TCP listener configured through fluent setters whose
 * `run` resolves the local addresses for a port, binds the first candidate
 * that accepts a socket, listens, and hands every accepted client to the
 * callback. Every answer of the operating system is an input: the resolver
 * `resolve`, the per-candidate outcomes it returns, the `listen` outcome and
 * the run of `accept` results.
 */
module Server {
  import opened Sockets
  import opened Configuration
  import opened Binder
  import opened Dispatch

  /** Where a run ends the process. */
  datatype Stage = ResolveFailed | NoSocket | ListenFailed

  /** A run either exits the process at a stage, or serves: the listening descriptor and the callback calls. */
  datatype RunOutcome = Exit(stage: Stage) | Serving(listenfd: int, calls: seq<int>)

  /** What `startListening` comes to: a fatal listen failure, or the callback calls of the accept loop. */
  datatype Listening = ListenRefused | Accepting(calls: seq<int>)

  /** The hints `getServerAddrInfo` always passes, whatever family the server was set to. */
  function ServerHints(): Hints
  {
    Hints(AF_UNSPEC, SOCK_STREAM, AI_PASSIVE)
  }

  /**
   * Whether `listen(fd, backlog)` succeeds: the kernel refuses a descriptor
   * that is not open, and otherwise answers as `listen` says.
   */
  predicate ListenAccepted(fd: int, open: set<int>, backlog: int, listen: (int, int) -> bool)
  {
    fd in open && listen(fd, backlog)
  }

  /** What `run(port)` does with configuration `cfg`, for the given answers of the system. */
  function Serve(cfg: ServerConfig, port: uint32, resolve: (Hints, uint32) -> Resolution, next: nat,
                 listen: (int, int) -> bool, accepts: seq<int>): RunOutcome
  {
    match resolve(ServerHints(), port)
    case GaiError(_) => Exit(ResolveFailed)
    case Resolved(cands) =>
      var w := BindWalk(cands, cfg.reuseaddr, next);
      if w.fd < 0 then Exit(NoSocket)
      else if !ListenAccepted(w.fd, Replay({}, w.trace), cfg.backlog, listen) then Exit(ListenFailed)
      else Serving(w.fd, Dispatched(accepts, cfg.acceptCallback.Some?))
  }

  /**
   * `Serve` with the corrected walk of `SockFromAddrInfoFixed`: the same calls,
   * but a walk in which nothing binds yields -1.
   */
  function ServeFixed(cfg: ServerConfig, port: uint32, resolve: (Hints, uint32) -> Resolution, next: nat,
                      listen: (int, int) -> bool, accepts: seq<int>): RunOutcome
  {
    match resolve(ServerHints(), port)
    case GaiError(_) => Exit(ResolveFailed)
    case Resolved(cands) =>
      var fd := FixedWalkFd(cands, next);
      if fd < 0 then Exit(NoSocket)
      else if !ListenAccepted(fd, Replay({}, BindWalk(cands, cfg.reuseaddr, next).trace), cfg.backlog, listen) then Exit(ListenFailed)
      else Serving(fd, Dispatched(accepts, cfg.acceptCallback.Some?))
  }

  class BaseServer {
    var acceptCallback: Option<Handler>
    var backlog: int
    var reuseaddr: bool
    var addrFamily: int

    /** The server's options as a value. */
    function Config(): ServerConfig
      reads this
    {
      ServerConfig(acceptCallback, backlog, reuseaddr, addrFamily)
    }

    constructor()
      ensures Config() == Defaults()
    {
      acceptCallback := None;
      backlog := SOMAXCONN;
      reuseaddr := false;
      addrFamily := AF_UNSPEC;
    }

    method Accept(callback: Option<Handler>) returns (self: BaseServer)
      modifies this
      ensures self == this
      ensures Config() == Apply(old(Config()), SetCallback(callback))
    {
      acceptCallback := callback;
      self := this;
    }

    method Backlog(n: int) returns (self: BaseServer)
      modifies this
      ensures self == this
      ensures Config() == Apply(old(Config()), SetBacklog(n))
    {
      backlog := n;
      self := this;
    }

    method UseIPv4() returns (self: BaseServer)
      modifies this
      ensures self == this
      ensures Config() == Apply(old(Config()), SetIPv4)
    {
      addrFamily := AF_INET;
      self := this;
    }

    method UseIPv6() returns (self: BaseServer)
      modifies this
      ensures self == this
      ensures Config() == Apply(old(Config()), SetIPv6)
    {
      addrFamily := AF_INET6;
      self := this;
    }

    method ReuseAddr() returns (self: BaseServer)
      modifies this
      ensures self == this
      ensures Config() == Apply(old(Config()), SetReuseAddr)
    {
      reuseaddr := true;
      self := this;
    }

    /**
     * Asks the resolver for the passive stream addresses of `port`; the hints
     * do not depend on the configured family. An error is fatal to `run`.
     */
    method GetServerAddrInfo(port: uint32, resolve: (Hints, uint32) -> Resolution) returns (hints: Hints, res: Resolution)
      ensures hints.family == AF_UNSPEC && hints.socktype == SOCK_STREAM && hints.flags == AI_PASSIVE
      ensures res == resolve(hints, port)
    {
      hints := Hints(AF_UNSPEC, SOCK_STREAM, AI_PASSIVE);
      res := resolve(hints, port);
    }

    /**
     * Walks the candidates in order; the kernel hands out fresh descriptors
     * from `next` on. Returns the final value of `sockfd` and the system calls
     * made.
     */
    method SockFromAddrInfo(cands: seq<Candidate>, next: nat) returns (sockfd: int, trace: seq<Event>)
      ensures sockfd == BindWalk(cands, reuseaddr, next).fd
      ensures trace == BindWalk(cands, reuseaddr, next).trace
    {
      sockfd, trace := -1, [];
      var nextFd: nat := next;
      var i := 0;
      while i < |cands|
        invariant i <= |cands|
        invariant BindWalk(cands, reuseaddr, next) == Prefixed(trace, Walk(cands, reuseaddr, i, nextFd, sockfd))
      {
        var p := cands[i];
        WalkStep(cands, reuseaddr, i, nextFd, sockfd);
        ghost var walked := Walk(cands, reuseaddr, i, nextFd, sockfd);
        if p.socketOk {
          sockfd := nextFd;
          nextFd := nextFd + 1;
        } else {
          sockfd := -1;
        }
        // the calls made on this candidate
        var calls := [Socket(i, sockfd)];
        if sockfd >= 0 {
          if reuseaddr {
            calls := calls + [SetReuse(i, sockfd, p.reuseOk)];
          }
          calls := calls + [Bind(i, sockfd, p.bindOk)];
          assert calls == Attempt(i, sockfd, p, reuseaddr);
          if p.bindOk {
            trace := trace + calls;
            break;
          }
          calls := calls + [Close(i, sockfd)];
        }
        assert walked == Prefixed(calls, Walk(cands, reuseaddr, i + 1, nextFd, sockfd));
        PrefixedTwice(trace, calls, Walk(cands, reuseaddr, i + 1, nextFd, sockfd));
        trace := trace + calls;
        i := i + 1;
      }
    }

    /**
     * The walk with `sockfd` reset to -1 after a failed bind is closed: the
     * same calls, and a non-negative result exactly when a candidate works.
     */
    method SockFromAddrInfoFixed(cands: seq<Candidate>, next: nat) returns (sockfd: int, trace: seq<Event>)
      ensures trace == BindWalk(cands, reuseaddr, next).trace
      ensures sockfd == FixedWalkFd(cands, next)
      ensures sockfd >= 0 ==> sockfd in Replay({}, trace)
    {
      sockfd, trace := -1, [];
      var nextFd: nat := next;
      var i := 0;
      ghost var written := -1;
      while i < |cands|
        invariant i <= |cands| && sockfd == -1
        invariant BindWalk(cands, reuseaddr, next) == Prefixed(trace, Walk(cands, reuseaddr, i, nextFd, written))
      {
        var p := cands[i];
        WalkStep(cands, reuseaddr, i, nextFd, written);
        ghost var walked := Walk(cands, reuseaddr, i, nextFd, written);
        if p.socketOk {
          sockfd := nextFd;
          nextFd := nextFd + 1;
        }
        written := sockfd;
        var calls := [Socket(i, sockfd)];
        if sockfd >= 0 {
          if reuseaddr {
            calls := calls + [SetReuse(i, sockfd, p.reuseOk)];
          }
          calls := calls + [Bind(i, sockfd, p.bindOk)];
          assert calls == Attempt(i, sockfd, p, reuseaddr);
          if p.bindOk {
            trace := trace + calls;
            break;
          }
          calls := calls + [Close(i, sockfd)];
          sockfd := -1;
        }
        assert walked == Prefixed(calls, Walk(cands, reuseaddr, i + 1, nextFd, written));
        PrefixedTwice(trace, calls, Walk(cands, reuseaddr, i + 1, nextFd, written));
        trace := trace + calls;
        i := i + 1;
      }
      BinderSelectsFirstWorking(cands, reuseaddr, next);
      BinderDoesNotLeak(cands, reuseaddr, next);
    }

    /**
     * Puts `listenfd` into listening state with the configured backlog, then
     * accepts: each successful accept calls the callback, if one is set, with
     * the client socket; a failed accept is logged and the loop goes on.
     * `open` holds the open descriptors; `accepts` is a finite prefix of the
     * loop's `accept` results.
     */
    method StartListening(listenfd: int, open: set<int>, listen: (int, int) -> bool, accepts: seq<int>)
      returns (outcome: Listening)
      ensures outcome == if ListenAccepted(listenfd, open, backlog, listen)
                         then Accepting(Dispatched(accepts, acceptCallback.Some?))
                         else ListenRefused
    {
      if !ListenAccepted(listenfd, open, backlog, listen) {
        return ListenRefused;
      }
      var calls: seq<int> := [];
      var i := 0;
      while i < |accepts|
        invariant i <= |accepts|
        invariant calls == Dispatched(accepts[..i], acceptCallback.Some?)
      {
        var clientSock := accepts[i];
        if clientSock >= 0 && acceptCallback.Some? {
          calls := calls + [clientSock];
        }
        assert accepts[..i + 1][..i] == accepts[..i];
        i := i + 1;
      }
      assert accepts[..i] == accepts;
      return Accepting(calls);
    }

    /** Resolves, binds, and serves; every fatal path is an `Exit`. */
    method Run(port: uint32, resolve: (Hints, uint32) -> Resolution, next: nat,
               listen: (int, int) -> bool, accepts: seq<int>) returns (outcome: RunOutcome)
      ensures outcome == Serve(Config(), port, resolve, next, listen, accepts)
    {
      var hints, res := GetServerAddrInfo(port, resolve);
      if res.GaiError? {
        return Exit(ResolveFailed);
      }
      var listenfd, trace := SockFromAddrInfo(res.candidates, next);
      if listenfd < 0 {
        return Exit(NoSocket);
      }
      var listening := StartListening(listenfd, Replay({}, trace), listen, accepts);
      match listening
      case ListenRefused => return Exit(ListenFailed);
      case Accepting(calls) => return Serving(listenfd, calls);
    }
  }

  // ---------------------------------------------------------------------------
  // Properties of run

  /** The configured address family has no effect on a run. */
  lemma RunIgnoresFamily(cfg: ServerConfig, family: int, port: uint32, resolve: (Hints, uint32) -> Resolution,
                         next: nat, listen: (int, int) -> bool, accepts: seq<int>)
    ensures Serve(cfg.(addrFamily := family), port, resolve, next, listen, accepts)
         == Serve(cfg, port, resolve, next, listen, accepts)
  {
  }

  /**
   * With a working candidate, a run listens on the descriptor of the first one
   * with the configured backlog; if that succeeds it serves, handing the
   * callback every accepted client in order.
   */
  lemma RunServesFirstWorking(cfg: ServerConfig, port: uint32, resolve: (Hints, uint32) -> Resolution,
                              next: nat, listen: (int, int) -> bool, accepts: seq<int>)
    requires resolve(ServerHints(), port).Resolved?
    requires FirstWorking(resolve(ServerHints(), port).candidates, 0) < |resolve(ServerHints(), port).candidates|
    ensures var cands := resolve(ServerHints(), port).candidates;
            var fd := next + SocketsCreated(cands[..FirstWorking(cands, 0)]);
            Serve(cfg, port, resolve, next, listen, accepts)
              == if listen(fd, cfg.backlog) then Serving(fd, Dispatched(accepts, cfg.acceptCallback.Some?))
                 else Exit(ListenFailed)
  {
    var cands := resolve(ServerHints(), port).candidates;
    BinderSelectsFirstWorking(cands, cfg.reuseaddr, next);
    BinderDoesNotLeak(cands, cfg.reuseaddr, next);
  }

  /**
   * With no working candidate, a run exits at the bind check only when the
   * list is empty or `socket` failed on the last candidate; when the last
   * candidate failed at bind, the closed descriptor passes the check and the
   * run ends at `listen` instead.
   */
  lemma RunWithoutWorkingCandidate(cfg: ServerConfig, port: uint32, resolve: (Hints, uint32) -> Resolution,
                                   next: nat, listen: (int, int) -> bool, accepts: seq<int>)
    requires resolve(ServerHints(), port).Resolved?
    requires FirstWorking(resolve(ServerHints(), port).candidates, 0) == |resolve(ServerHints(), port).candidates|
    ensures var cands := resolve(ServerHints(), port).candidates;
            Serve(cfg, port, resolve, next, listen, accepts)
              == if |cands| == 0 || !cands[|cands| - 1].socketOk then Exit(NoSocket) else Exit(ListenFailed)
  {
    BinderFailureResult(resolve(ServerHints(), port).candidates, cfg.reuseaddr, next);
  }

  /**
   * With the corrected walk, a run exits at its descriptor check exactly when
   * no candidate works; when one does, the run is the one the code as written
   * makes.
   */
  lemma FixedRunExitsWithoutWorkingCandidate(cfg: ServerConfig, port: uint32, resolve: (Hints, uint32) -> Resolution,
                                             next: nat, listen: (int, int) -> bool, accepts: seq<int>)
    requires resolve(ServerHints(), port).Resolved?
    ensures var cands := resolve(ServerHints(), port).candidates;
            ServeFixed(cfg, port, resolve, next, listen, accepts)
              == if FirstWorking(cands, 0) == |cands| then Exit(NoSocket)
                 else Serve(cfg, port, resolve, next, listen, accepts)
  {
    var cands := resolve(ServerHints(), port).candidates;
    if FirstWorking(cands, 0) < |cands| {
      BinderSelectsFirstWorking(cands, cfg.reuseaddr, next);
    }
  }

  /**
   * Given the kernel's answers, the reuse flag has no effect on a run: only
   * the `setsockopt` calls differ, and their answers are only logged.
   */
  lemma RunIgnoresReuse(cfg: ServerConfig, reuse: bool, port: uint32, resolve: (Hints, uint32) -> Resolution,
                        next: nat, listen: (int, int) -> bool, accepts: seq<int>)
    ensures Serve(cfg.(reuseaddr := reuse), port, resolve, next, listen, accepts)
         == Serve(cfg, port, resolve, next, listen, accepts)
  {
    if resolve(ServerHints(), port).Resolved? {
      var cands := resolve(ServerHints(), port).candidates;
      ReuseNeverDecides(cands, cands, reuse, cfg.reuseaddr, next);
      BinderDoesNotLeak(cands, reuse, next);
      BinderDoesNotLeak(cands, cfg.reuseaddr, next);
    }
  }

  /** A resolver error ends the run at the resolution stage, whatever the rest of the system answers. */
  lemma RunResolverErrorIsFatal(cfg: ServerConfig, port: uint32, resolve: (Hints, uint32) -> Resolution,
                                next: nat, listen: (int, int) -> bool, accepts: seq<int>)
    requires resolve(ServerHints(), port).GaiError?
    ensures Serve(cfg, port, resolve, next, listen, accepts) == Exit(ResolveFailed)
  {
  }
}
