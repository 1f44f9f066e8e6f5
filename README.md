# jzj::BaseServer in Dafny

A model of `jzj::BaseServer`, a minimal TCP listener bootstrap. A server is
configured through fluent setters: accept callback, backlog, address reuse and
address family. `run(port)` then does three things in order:

1. It resolves the passive stream addresses of the port.
2. It walks the resolved candidates in order. On each one it creates a socket,
   sets `SO_REUSEADDR` if that was requested, and binds. It stops at the first
   bind that succeeds. A failed bind closes its descriptor before the walk
   moves on.
3. It listens on the bound descriptor and accepts forever. Each accepted
   client goes to the callback, synchronously.

The model has five modules:

- `Sockets` (`sockets.dfy`) is the operating-system side. It holds the
  constants the server passes (Linux values) and what the kernel answers for
  each candidate address (`Candidate(socketOk, reuseOk, bindOk)`). It also
  holds the trace of system calls the walk makes (`Event`) and `Replay`, which
  gives the set of open descriptors after a trace.
- `Configuration` (`configuration.dfy`) is the server's four options as a
  value, `ServerConfig`. It also has the setters as values (`Setter`), and
  chains of setter calls (`ApplyAll`) with what a chain leaves in each field.
- `Binder` (`binder.dfy`) is the candidate walk of `sockFromAddrInfo` as a
  function (`Walk`, `BindWalk`) of the kernel's answers. The lemmas beside it
  cover first-success selection, no leaked descriptors, the reuse option, and
  the result when nothing binds.
- `Dispatch` (`dispatch.dfy`) is the accept loop over a finite run of
  `accept` results (`Dispatched`), with the properties of the callback calls.
- `Server` (`server.dfy`) is the class `BaseServer`. It keeps the fields the
  setters update in place, and has `run`, `getServerAddrInfo`,
  `sockFromAddrInfo` and `startListening` as methods with loops. Each method
  is proved against the functions above. `Serve` is the specification of
  `run`, and the lemmas about a whole run sit beside it.

Every answer of the operating system is an input:

- `getaddrinfo` is the resolver `resolve(hints, port)`.
- The per-candidate answers of `socket`, `setsockopt` and `bind` are the
  fields of `Candidate`.
- `listen` is `listen(fd, backlog)`.
- The accept loop sees a finite sequence of `accept` return values. A negative
  value is a failure.
- `socket` hands out fresh descriptors counted up from `next`.

The kernel refuses `listen` on a descriptor that is not open (EBADF). A fatal
`std::exit` is the value `Exit(stage)`.

Two behaviours of the code are worth noting:

- The resolver hints are always `AF_UNSPEC`. `useIPv4`/`useIPv6` change a
  field that nothing reads (`RunIgnoresFamily`).
- When every candidate fails and the last one failed at bind, the walk does
  not report failure. It returns that candidate's closed descriptor, so `run`
  does not exit at its check (see Findings).

## Model

| member | source | states |
|---|---|---|
| `Server.BaseServer.constructor` | serverstuff/server.hpp:39-43 | a new server has backlog `SOMAXCONN`, reuse off, family `AF_UNSPEC` and no callback |
| `Server.BaseServer.Accept` | serverstuff/server.hpp:58-61 | stores the callback (possibly empty), leaves the other fields unchanged, returns the same object |
| `Server.BaseServer.Backlog` | serverstuff/server.hpp:63-66 | stores the backlog, leaves the other fields unchanged, returns the same object |
| `Server.BaseServer.UseIPv4` | serverstuff/server.hpp:68-71 | sets the family to `AF_INET`, leaves the other fields unchanged, returns the same object |
| `Server.BaseServer.UseIPv6` | serverstuff/server.hpp:73-76 | sets the family to `AF_INET6`, leaves the other fields unchanged, returns the same object |
| `Server.BaseServer.ReuseAddr` | serverstuff/server.hpp:78-81 | turns reuse on, leaves the other fields unchanged, returns the same object |
| `Configuration.SetterWritesOnlyTarget` | serverstuff/server.hpp:58-81 | a setter writes its own field with a value independent of the old state, and no other field |
| `Configuration.SetterIdempotent` | serverstuff/server.hpp:58-81 | calling a setter twice is calling it once (`reuseAddr`, `useIPv4`, `useIPv6` and the others) |
| `Configuration.SettersCommute` | serverstuff/server.hpp:58-81 | setters of different fields can be called in either order |
| `Configuration.ChainKeepsUntouched` | serverstuff/server.hpp:58-81 | in any chain of setter calls, a field no setter targets keeps its value |
| `Configuration.ChainLastSetterWins` | serverstuff/server.hpp:58-81 | in any chain, the last setter of a field decides it; for the family, the last of `useIPv4`/`useIPv6` wins |
| `Configuration.ReuseIsSticky` | serverstuff/server.hpp:78-81 | once reuse is on, no chain of setters turns it off |
| `Server.BaseServer.GetServerAddrInfo` | serverstuff/server.hpp:83-97 | the hints are `AF_UNSPEC`/`SOCK_STREAM`/`AI_PASSIVE` whatever the configured family; the result is the resolver's answer to them |
| `Server.RunIgnoresFamily` | serverstuff/server.hpp:83-91 | a run has the same outcome whatever address family the server was set to |
| `Server.RunIgnoresReuse` | serverstuff/server.hpp:108-115 | given the kernel's answers, a run has the same outcome whether reuse is on or off |
| `Server.RunResolverErrorIsFatal` | serverstuff/server.hpp:91-95 | a resolver error ends the run at the resolution stage, whatever the rest of the system answers |
| `Binder.FirstWorking` | serverstuff/server.hpp:101-133 | the reference search: the position of the first candidate where socket and bind both succeed, or the list length |
| `Server.BaseServer.SockFromAddrInfo` | serverstuff/server.hpp:99-146 | the loop returns exactly the descriptor and makes exactly the calls of the specified walk `BindWalk` |
| `Binder.BinderSelectsFirstWorking` | serverstuff/server.hpp:101-133 | the walk binds iff some candidate works. It then returns the fresh descriptor of the first working candidate, whose bind is the last call. `socket` is tried once on each candidate up to it, in order, and no later candidate is touched |
| `Binder.BinderDoesNotLeak` | serverstuff/server.hpp:131-138 | after the walk, only the returned descriptor is still open, and only when bound; every failed bind is followed at once by its close |
| `Binder.BinderReuseDiscipline` | serverstuff/server.hpp:108-131 | `setsockopt` is called only when reuse is on, only right after a successful `socket`, and every created socket is then bound whatever `setsockopt` answered |
| `Binder.ReuseNeverDecides` | serverstuff/server.hpp:110-115 | given the same answers of `socket` and `bind`, neither the reuse flag nor `setsockopt`'s answers change anything except the `setsockopt` calls: the returned descriptor, whether it is bound and every other call are the same |
| `Binder.BinderFailureResult` | serverstuff/server.hpp:100-145 | with no working candidate the walk returns -1 if the list is empty or the last `socket` failed. Otherwise it returns the last candidate's descriptor, non-negative and already closed |
| `Binder.ClosedDescriptorReturned` | serverstuff/server.hpp:131-145 | one candidate whose bind fails makes the walk return its non-negative descriptor with nothing bound and nothing open |
| `Server.BaseServer.SockFromAddrInfoFixed` | serverstuff/server.hpp:131-145 | with `sockfd` reset after the close, the walk makes the same calls. It returns the fresh descriptor of the first working candidate, still open, or -1 when no candidate works |
| `Binder.FixedWalkFd` | serverstuff/server.hpp:131-145 | the corrected walk's result is non-negative exactly when some candidate works, and is then a fresh descriptor |
| `Server.FixedRunExitsWithoutWorkingCandidate` | serverstuff/server.hpp:47-56 | with the corrected walk, a run exits at its descriptor check exactly when no candidate works, and otherwise runs as the code as written does |
| `Server.BaseServer.StartListening` | serverstuff/server.hpp:148-164 | a refused `listen` (on the configured backlog) is fatal. Otherwise the loop hands the callback exactly the sockets of `Dispatched` |
| `Dispatch.DispatchedAppend` | serverstuff/server.hpp:153-164 | the calls for a longer run of accepts extend those of any prefix, in acceptance order |
| `Dispatch.FailedAcceptIgnored` | serverstuff/server.hpp:156-158 | a failed accept anywhere calls nothing and does not stop the calls that follow |
| `Dispatch.NoCallbackNoCalls` | serverstuff/server.hpp:160-162 | without a callback, no accept calls anything |
| `Dispatch.DispatchedExactlyOnce` | serverstuff/server.hpp:156-163 | with a callback, each successful accept calls it exactly once with its client socket; a failed one never does |
| `Dispatch.TwoFailuresThenSuccess` | serverstuff/server.hpp:153-163 | two failed accepts and then one success call the callback once, with that client |
| `Server.BaseServer.Run` | serverstuff/server.hpp:47-56 | `run` resolves, binds, then listens, exactly as specified by `Serve` |
| `Server.RunServesFirstWorking` | serverstuff/server.hpp:47-56 | with a working candidate, `run` listens on the first working candidate's descriptor with the configured backlog. It then serves the callback every accepted client, or exits if `listen` fails |
| `Server.RunWithoutWorkingCandidate` | serverstuff/server.hpp:47-56 | with no working candidate, `run` exits at its check only for an empty list or a failed last `socket`. Otherwise it passes the closed descriptor to `listen` and exits there |

## Left out

- The system calls themselves (`getaddrinfo`, `freeaddrinfo`, `socket`, `setsockopt`, `bind`, `close`, `listen`, `accept`). Only their answers are modelled, as inputs.
- The contents of an `addrinfo` candidate (family, socket type, protocol, address). A candidate is only the kernel's three answers about it.
- Descriptor numbering: `socket` returns fresh numbers counted up from `next`. POSIX reuses the lowest free number; that changes which number is returned, not which calls are made or whether anything stays open.
- `std::to_string(port)`: the port number is passed to the resolver as it is.
- Diagnostic output (`std::cout`/`std::cerr`, `inet_ntop`, `ntohs`, `strerror`, `gai_strerror`). It does not affect control flow; the `if (p)` tests around it are always true.
- `std::exit`: a fatal path ends the run with the value `Exit(stage)` instead of ending a process.
- The body of the accept callback, which is the caller's code. A callback is an opaque `Handler`, and only the client sockets it is called with are recorded.
- The endless accept loop: the model runs over a finite prefix of `accept` results. `DispatchedAppend` shows that a longer prefix only adds calls.
- The empty destructor, and the demo handler in test/base.cpp (raw I/O of a fixed HTTP reply).
- The effect `SO_REUSEADDR` exists for. The kernel's `bind` answer is an input fixed per candidate, not a function of whether `SO_REUSEADDR` was set and accepted (a bind to an address in TIME_WAIT succeeds only with it). So in the model `reuseAddr` changes only the `setsockopt` calls, never a run's outcome (`RunIgnoresReuse`).
- `SOMAXCONN` is 4096, the value of current Linux headers; older headers define 128.

## Findings

| source | as written | input that shows it | evidently intended | confidence | as-written member | corrected member |
|---|---|---|---|---|---|---|
| serverstuff/server.hpp:135 | After a failed bind, `close(sockfd)` leaves the closed descriptor in `sockfd`. When it was the last candidate, line 145 returns it, and the `listenfd<0` check of `run` (line 50) lets it through to `listen` | a single candidate on which `socket` succeeds and `bind` fails: the walk returns that descriptor (≥ 0), already closed | every candidate failing returns -1, so `run` exits at line 50 | high (not executed) | `Binder.ClosedDescriptorReturned` | `Server.BaseServer.SockFromAddrInfoFixed` |

`Server.BaseServer.Run` follows the code as written and calls
`SockFromAddrInfo`. In that case the run still ends, but at `listen`, with the
listen failure message (`Server.RunWithoutWorkingCandidate`).
`SockFromAddrInfoFixed` is the corrected walk, with its property proved.
`Server.FixedRunExitsWithoutWorkingCandidate` shows that a run using it exits
at line 50 exactly when no candidate works.
