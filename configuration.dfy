/**
 * The options of a `BaseServer` as a value, and the fluent setters that change
 * them one field at a time.
 */
module Configuration {
  import opened Sockets

  datatype Option<+T> = None | Some(value: T)

  /** An accept callback, known only by its identity: its body is the caller's code. */
  datatype Handler = Handler(id: nat)

  /** The four fields of a `BaseServer`; an empty `std::function` is `None`. */
  datatype ServerConfig = ServerConfig(acceptCallback: Option<Handler>, backlog: int, reuseaddr: bool, addrFamily: int)

  /** What the constructor sets. */
  function Defaults(): ServerConfig
  {
    ServerConfig(None, SOMAXCONN, false, AF_UNSPEC)
  }

  datatype Field = CallbackField | BacklogField | ReuseField | FamilyField

  /** One call of a fluent setter. */
  datatype Setter = SetCallback(callback: Option<Handler>) | SetBacklog(n: int) | SetReuseAddr | SetIPv4 | SetIPv6
  {
    /** The field the setter writes. */
    function Target(): Field
    {
      match this
      case SetCallback(_) => CallbackField
      case SetBacklog(_) => BacklogField
      case SetReuseAddr => ReuseField
      case SetIPv4 => FamilyField
      case SetIPv6 => FamilyField
    }
  }

  function Apply(c: ServerConfig, s: Setter): ServerConfig
  {
    match s
    case SetCallback(cb) => c.(acceptCallback := cb)
    case SetBacklog(n) => c.(backlog := n)
    case SetReuseAddr => c.(reuseaddr := true)
    case SetIPv4 => c.(addrFamily := AF_INET)
    case SetIPv6 => c.(addrFamily := AF_INET6)
  }

  /** A chain of setter calls, `server.s0(..).s1(..)...`, applied left to right. */
  function ApplyAll(c: ServerConfig, ss: seq<Setter>): ServerConfig
    decreases |ss|
  {
    if ss == [] then c else Apply(ApplyAll(c, ss[..|ss| - 1]), ss[|ss| - 1])
  }

  /** The two configurations hold the same value in field `f`. */
  predicate Agree(c: ServerConfig, d: ServerConfig, f: Field)
  {
    match f
    case CallbackField => c.acceptCallback == d.acceptCallback
    case BacklogField => c.backlog == d.backlog
    case ReuseField => c.reuseaddr == d.reuseaddr
    case FamilyField => c.addrFamily == d.addrFamily
  }

  /**
   * A setter writes its own field with a value that does not depend on what
   * was there, and leaves every other field unchanged.
   */
  lemma SetterWritesOnlyTarget(c: ServerConfig, d: ServerConfig, s: Setter)
    ensures Agree(Apply(c, s), Apply(d, s), s.Target())
    ensures forall f :: f != s.Target() ==> Agree(Apply(c, s), c, f)
  {
  }

  /** Calling a setter twice with the same argument is calling it once. */
  lemma SetterIdempotent(c: ServerConfig, s: Setter)
    ensures Apply(Apply(c, s), s) == Apply(c, s)
  {
  }

  /** Setters of different fields commute. */
  lemma SettersCommute(c: ServerConfig, s: Setter, t: Setter)
    requires s.Target() != t.Target()
    ensures Apply(Apply(c, s), t) == Apply(Apply(c, t), s)
  {
  }

  /** A field that no setter in the chain targets keeps its value. */
  lemma {:induction false} ChainKeepsUntouched(c: ServerConfig, ss: seq<Setter>, f: Field)
    requires forall k :: 0 <= k < |ss| ==> ss[k].Target() != f
    ensures Agree(ApplyAll(c, ss), c, f)
    decreases |ss|
  {
    if ss != [] {
      var init := ss[..|ss| - 1];
      assert forall k :: 0 <= k < |init| ==> init[k] == ss[k];
      ChainKeepsUntouched(c, init, f);
      SetterWritesOnlyTarget(ApplyAll(c, init), c, ss[|ss| - 1]);
    }
  }

  /**
   * The last setter of a field in the chain decides it: the chain ends with the
   * value that setter writes, whatever came before (for the address family,
   * the last of `useIPv4` and `useIPv6` wins).
   */
  lemma {:induction false} ChainLastSetterWins(c: ServerConfig, ss: seq<Setter>, j: nat)
    requires j < |ss|
    requires forall k :: j < k < |ss| ==> ss[k].Target() != ss[j].Target()
    ensures Agree(ApplyAll(c, ss), Apply(c, ss[j]), ss[j].Target())
    decreases |ss|
  {
    var init := ss[..|ss| - 1];
    var last := ss[|ss| - 1];
    SetterWritesOnlyTarget(ApplyAll(c, init), c, last);
    if j < |ss| - 1 {
      assert forall k :: 0 <= k < |init| ==> init[k] == ss[k];
      ChainLastSetterWins(c, init, j);
    }
  }

  /** Address reuse, once requested, cannot be withdrawn by any chain of setters. */
  lemma {:induction false} ReuseIsSticky(c: ServerConfig, ss: seq<Setter>)
    requires c.reuseaddr
    ensures ApplyAll(c, ss).reuseaddr
    decreases |ss|
  {
    if ss != [] {
      ReuseIsSticky(c, ss[..|ss| - 1]);
    }
  }
}
