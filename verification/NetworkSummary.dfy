/** Endpoint samples of one process: the attribution of a set of endpoints to the packaged local channel. */
module NetworkSummary {
  import opened AsciiCase

  datatype ProcessIdentity = ProcessIdentity(pid: nat, creationToken: string)

  datatype TcpEndpoint = TcpEndpoint(
    owningProcess: nat,
    state: string,
    localAddress: string,
    localPort: nat,
    remoteAddress: string,
    remotePort: nat)

  datatype Category = Loopback | Unspecified | Private | LinkLocal | External | Invalid

  type Key = (nat, string, string, nat, string, nat)

  function KeyOf(e: TcpEndpoint): Key {
    (e.owningProcess, Fold(e.state), Fold(e.localAddress), e.localPort, Fold(e.remoteAddress), e.remotePort)
  }

  /** Two endpoints have the same key exactly when they are the same up to case. */
  lemma KeyMeaning(a: TcpEndpoint, b: TcpEndpoint)
    ensures KeyOf(a) == KeyOf(b)
       <==> && a.owningProcess == b.owningProcess && a.localPort == b.localPort && a.remotePort == b.remotePort
            && SameIgnoringCase(a.state, b.state) && SameIgnoringCase(a.localAddress, b.localAddress)
            && SameIgnoringCase(a.remoteAddress, b.remoteAddress)
  {
    FoldMeaning(a.state, b.state);
    FoldMeaning(a.localAddress, b.localAddress);
    FoldMeaning(a.remoteAddress, b.remoteAddress);
  }

  const TCP_STATES := {"bound", "listen", "established"}

  predicate IsBound(e: TcpEndpoint) { Fold(e.state) == "bound" }
  predicate IsListen(e: TcpEndpoint) { Fold(e.state) == "listen" }
  predicate IsEstablished(e: TcpEndpoint) { Fold(e.state) == "established" }

  predicate IsReversePair(a: TcpEndpoint, b: TcpEndpoint) {
    && Fold(a.localAddress) == Fold(b.remoteAddress) && a.localPort == b.remotePort
    && Fold(a.remoteAddress) == Fold(b.localAddress) && a.remotePort == b.localPort
  }

  /** Each end of the one is the other end of the other. */
  lemma ReverseMeaning(a: TcpEndpoint, b: TcpEndpoint)
    ensures IsReversePair(a, b)
       <==> && a.localPort == b.remotePort && a.remotePort == b.localPort
            && SameIgnoringCase(a.localAddress, b.remoteAddress) && SameIgnoringCase(a.remoteAddress, b.localAddress)
    ensures IsReversePair(a, b) <==> IsReversePair(b, a)
  {
    FoldMeaning(a.localAddress, b.remoteAddress);
    FoldMeaning(a.remoteAddress, b.localAddress);
  }

  function Filter<T>(s: seq<T>, p: T -> bool): seq<T> {
    if s == [] then [] else Filter(s[..|s| - 1], p) + if p(s[|s| - 1]) then [s[|s| - 1]] else []
  }

  datatype SafeCode = Verified | Unattributed | ExternalDetected | IdentityChanged | CleanupFailed

  datatype Summary = Summary(
    unique: nat,
    bound: nat,
    listen: nat,
    established: nat,
    loopback: int,
    external: int,
    unattributed: int,
    flows: nat,
    disappeared: bool,
    pidReused: bool,
    verified: bool,
    code: SafeCode)

  /** What is known of an observed process's endpoints: all in a TCP state, no two with the same key. */
  ghost predicate Observable(endpoints: seq<TcpEndpoint>, pid: nat) {
    && (forall i :: 0 <= i < |endpoints| ==>
          Fold(endpoints[i].state) in TCP_STATES && endpoints[i].owningProcess == pid)
    && (forall i, j :: 0 <= i < j < |endpoints| ==> KeyOf(endpoints[i]) != KeyOf(endpoints[j]))
  }

  /** Both ends of an established connection are loopback addresses. */
  predicate IsLocalConnection(e: TcpEndpoint, classify: string -> Category) {
    IsEstablished(e) && classify(e.localAddress) == Loopback && classify(e.remoteAddress) == Loopback
  }

  /** An established connection with an end that is not loopback, or a listener that is not. */
  predicate IsExternal(e: TcpEndpoint, classify: string -> Category) {
    || (IsEstablished(e) && !IsLocalConnection(e, classify))
    || (IsListen(e) && classify(e.localAddress) != Loopback)
  }

  function Keep<T>(x: T, keep: bool): seq<T> { if keep then [x] else [] }

  function Locals(s: seq<TcpEndpoint>, classify: string -> Category): seq<TcpEndpoint> {
    if s == [] then []
    else Locals(s[..|s| - 1], classify) + Keep(s[|s| - 1], IsLocalConnection(s[|s| - 1], classify))
  }

  function Externals(s: seq<TcpEndpoint>, classify: string -> Category): seq<TcpEndpoint> {
    if s == [] then []
    else Externals(s[..|s| - 1], classify) + Keep(s[|s| - 1], IsExternal(s[|s| - 1], classify))
  }

  /** The packaged channel: the two ends of one loopback connection, which are different ends, and the bound
      socket on one of its ports. */
  ghost predicate IsPackagedChannel(a: TcpEndpoint, b: TcpEndpoint, socket: TcpEndpoint, classify: string -> Category) {
    && IsLocalConnection(a, classify) && IsLocalConnection(b, classify) && IsReversePair(a, b)
    && (Fold(a.localAddress), a.localPort) != (Fold(a.remoteAddress), a.remotePort)
    && IsBound(socket) && socket.localPort in {a.localPort, a.remotePort}
    && classify(socket.localAddress) in {Loopback, Unspecified}
  }

  /** The endpoints are a packaged channel and nothing else. */
  ghost predicate OnlyThePackagedChannel(es: seq<TcpEndpoint>, classify: string -> Category) {
    && |es| == 3
    && (|| IsPackagedChannel(es[0], es[1], es[2], classify)
        || IsPackagedChannel(es[0], es[2], es[1], classify)
        || IsPackagedChannel(es[1], es[2], es[0], classify))
  }

  // ----- What is counted -----

  predicate HasState(e: TcpEndpoint, state: string) { SameIgnoringCase(e.state, state) }

  lemma StateMeaning(e: TcpEndpoint)
    ensures (IsBound(e) <==> HasState(e, "bound")) && (IsListen(e) <==> HasState(e, "listen"))
    ensures IsEstablished(e) <==> HasState(e, "established")
  {
    FoldMeaning(e.state, "bound");
    FoldMeaning(e.state, "listen");
    FoldMeaning(e.state, "established");
    assert Fold("bound") == "bound" && Fold("listen") == "listen" && Fold("established") == "established";
  }

  /** The states that are sampled. */
  lemma TcpStateMeaning(e: TcpEndpoint)
    ensures Fold(e.state) in TCP_STATES <==> HasState(e, "bound") || HasState(e, "listen") || HasState(e, "established")
  {
    StateMeaning(e);
  }

  /** The positions of the endpoints in a state. */
  ghost function InState(es: seq<TcpEndpoint>, state: string): set<int> {
    set i | 0 <= i < |es| && HasState(es[i], state)
  }

  /** The positions of the established endpoints between loopback addresses. */
  ghost function LocalOnes(es: seq<TcpEndpoint>, classify: string -> Category): set<int> {
    set i | 0 <= i < |es| && HasState(es[i], "established")
            && classify(es[i].localAddress) == Loopback && classify(es[i].remoteAddress) == Loopback
  }

  /** The positions of the other established endpoints and of the listeners that are not on a loopback address. */
  ghost function ExternalOnes(es: seq<TcpEndpoint>, classify: string -> Category): set<int> {
    set i | 0 <= i < |es| && LeavesTheMachine(es[i], classify)
  }

  predicate LeavesTheMachine(e: TcpEndpoint, classify: string -> Category) {
    || (HasState(e, "established") && (classify(e.localAddress) != Loopback || classify(e.remoteAddress) != Loopback))
    || (HasState(e, "listen") && classify(e.localAddress) != Loopback)
  }

  ghost function Where(es: seq<TcpEndpoint>, p: TcpEndpoint -> bool): set<int> {
    set i | 0 <= i < |es| && p(es[i])
  }

  lemma WhereStep(es: seq<TcpEndpoint>, p: TcpEndpoint -> bool)
    requires es != []
    ensures |Where(es, p)| == |Where(es[..|es| - 1], p)| + if p(es[|es| - 1]) then 1 else 0
  {
    var n := |es| - 1;
    assert Where(es, p) == Where(es[..n], p) + if p(es[n]) then {n} else {};
  }

  lemma {:induction false} FilterCount(es: seq<TcpEndpoint>, p: TcpEndpoint -> bool)
    ensures |Filter(es, p)| == |Where(es, p)|
  {
    if es != [] {
      FilterCount(es[..|es| - 1], p);
      WhereStep(es, p);
    }
  }

  lemma {:induction false} KeptCount(es: seq<TcpEndpoint>, classify: string -> Category)
    ensures |Locals(es, classify)| == |Where(es, e => IsLocalConnection(e, classify))|
    ensures |Externals(es, classify)| == |Where(es, e => IsExternal(e, classify))|
  {
    if es != [] {
      KeptCount(es[..|es| - 1], classify);
      WhereStep(es, e => IsLocalConnection(e, classify));
      WhereStep(es, e => IsExternal(e, classify));
    }
  }

  lemma CountsMeaning(es: seq<TcpEndpoint>, classify: string -> Category)
    ensures |Filter(es, IsBound)| == |InState(es, "bound")|
    ensures |Filter(es, IsListen)| == |InState(es, "listen")|
    ensures |Filter(es, IsEstablished)| == |InState(es, "established")|
    ensures |Locals(es, classify)| == |LocalOnes(es, classify)|
    ensures |Externals(es, classify)| == |ExternalOnes(es, classify)|
  {
    FilterCount(es, IsBound);
    FilterCount(es, IsListen);
    FilterCount(es, IsEstablished);
    KeptCount(es, classify);
    forall i | 0 <= i < |es|
      ensures (IsBound(es[i]) <==> HasState(es[i], "bound")) && (IsListen(es[i]) <==> HasState(es[i], "listen"))
      ensures IsEstablished(es[i]) <==> HasState(es[i], "established")
    {
      StateMeaning(es[i]);
    }
    assert Where(es, IsBound) == InState(es, "bound");
    assert Where(es, IsListen) == InState(es, "listen");
    assert Where(es, IsEstablished) == InState(es, "established");
    assert Where(es, e => IsLocalConnection(e, classify)) == LocalOnes(es, classify);
    assert Where(es, e => IsExternal(e, classify)) == ExternalOnes(es, classify);
  }

  /** The packaged channel, spelled out. */
  lemma ChannelMeaning(a: TcpEndpoint, b: TcpEndpoint, socket: TcpEndpoint, classify: string -> Category)
    ensures IsPackagedChannel(a, b, socket, classify)
       <==> && HasState(a, "established") && HasState(b, "established") && HasState(socket, "bound")
            && classify(a.localAddress) == Loopback && classify(a.remoteAddress) == Loopback
            && classify(b.localAddress) == Loopback && classify(b.remoteAddress) == Loopback
            && (classify(socket.localAddress) == Loopback || classify(socket.localAddress) == Unspecified)
            && a.localPort == b.remotePort && a.remotePort == b.localPort
            && SameIgnoringCase(a.localAddress, b.remoteAddress) && SameIgnoringCase(a.remoteAddress, b.localAddress)
            && !(a.localPort == a.remotePort && SameIgnoringCase(a.localAddress, a.remoteAddress))
            && (socket.localPort == a.localPort || socket.localPort == a.remotePort)
  {
    StateMeaning(a);
    StateMeaning(b);
    StateMeaning(socket);
    ReverseMeaning(a, b);
    FoldMeaning(a.localAddress, a.remoteAddress);
  }

  // ----- The summary -----

  /** Splits the established endpoints; the count is of those that are not local. */
  method SplitEstablished(established: seq<TcpEndpoint>, classify: string -> Category)
    returns (external: nat, local: seq<TcpEndpoint>)
    requires AllSatisfy(established, IsEstablished)
    ensures local == Locals(established, classify)
    ensures external + |local| == |established|
    ensures external == |Externals(established, classify)|
  {
    external, local := 0, [];
    for i := 0 to |established|
      invariant local == Locals(established[..i], classify)
      invariant external + |local| == i
      invariant external == |Externals(established[..i], classify)|
    {
      assert established[..i + 1][..i] == established[..i];
      var e := established[i];
      if classify(e.localAddress) == Loopback && classify(e.remoteAddress) == Loopback {
        local := local + [e];
      } else {
        external := external + 1;
      }
    }
    assert established[..|established|] == established;
  }

  method CountExternalListeners(listen: seq<TcpEndpoint>, classify: string -> Category) returns (external: nat)
    requires AllSatisfy(listen, IsListen)
    ensures external == |Externals(listen, classify)| <= |listen|
  {
    external := 0;
    for i := 0 to |listen|
      invariant external == |Externals(listen[..i], classify)| <= i
    {
      assert listen[..i + 1][..i] == listen[..i];
      if classify(listen[i].localAddress) != Loopback { external := external + 1; }
    }
    assert listen[..|listen|] == listen;
  }

  ghost predicate AllSatisfy<T>(s: seq<T>, p: T -> bool) {
    forall i :: 0 <= i < |s| ==> p(s[i])
  }

  lemma {:induction false} FilterHolds<T>(s: seq<T>, p: T -> bool)
    ensures AllSatisfy(Filter(s, p), p)
    ensures |Filter(s, p)| <= |s|
  {
    if s != [] { FilterHolds(s[..|s| - 1], p); }
  }

  /** Every endpoint is bound, listening or established, and only one of them. */
  lemma {:induction false} StatesPartition(es: seq<TcpEndpoint>, pid: nat)
    requires Observable(es, pid)
    ensures |Filter(es, IsBound)| + |Filter(es, IsListen)| + |Filter(es, IsEstablished)| == |es|
  {
    if es != [] {
      StatesPartition(es[..|es| - 1], pid);
      assert Fold(es[|es| - 1].state) in TCP_STATES;
      assert "bound"[0] != "listen"[0] && "bound"[0] != "established"[0] && "listen"[0] != "established"[0];
    }
  }

  /** Counts external endpoints among the established and the listening ones alike, and local connections
      among the established ones. */
  lemma {:induction false} SplitByState(es: seq<TcpEndpoint>, classify: string -> Category)
    ensures |Externals(es, classify)|
         == |Externals(Filter(es, IsEstablished), classify)| + |Externals(Filter(es, IsListen), classify)|
    ensures Locals(es, classify) == Locals(Filter(es, IsEstablished), classify)
  {
    if es != [] {
      var last, before := es[|es| - 1], es[..|es| - 1];
      SplitByState(before, classify);
      KeptAppended(Filter(before, IsEstablished), last, classify);
      KeptAppended(Filter(before, IsListen), last, classify);
      StatesExclusive(last);
      if !IsEstablished(last) { assert Filter(es, IsEstablished) == Filter(before, IsEstablished); }
      if !IsListen(last) { assert Filter(es, IsListen) == Filter(before, IsListen); }
    }
  }

  lemma KeptAppended(s: seq<TcpEndpoint>, e: TcpEndpoint, classify: string -> Category)
    ensures Externals(s + [e], classify) == Externals(s, classify) + Keep(e, IsExternal(e, classify))
    ensures Locals(s + [e], classify) == Locals(s, classify) + Keep(e, IsLocalConnection(e, classify))
  {
    assert (s + [e])[..|s|] == s;
  }

  /** The code says "verified" for exactly the endpoints of the packaged channel, observed to the end. */
  method Summarize(endpoints: seq<TcpEndpoint>, pid: nat, classify: string -> Category, exitObserved: bool,
                   postExit: seq<TcpEndpoint>, pidReused: bool) returns (s: Summary)
    requires Observable(endpoints, pid)
    ensures s.unique == |endpoints| == s.bound + s.listen + s.established
    ensures s.bound == |InState(endpoints, "bound")| && s.listen == |InState(endpoints, "listen")|
    ensures s.established == |InState(endpoints, "established")|
    ensures s.external == |ExternalOnes(endpoints, classify)|
    ensures s.loopback == if s.verified then 3 else |LocalOnes(endpoints, classify)|
    ensures s.flows == if OneFlow(endpoints, classify) then 1 else 0
    ensures s.disappeared <==> postExit == [] && !pidReused
    ensures s.external + s.loopback + s.unattributed == s.unique
    ensures s.external >= 0 && s.loopback >= 0 && s.unattributed >= 0
    ensures s.pidReused == pidReused
    ensures s.verified <==> s.code == Verified
    ensures s.code == Verified
       <==> OnlyThePackagedChannel(endpoints, classify) && exitObserved && postExit == [] && !pidReused
    ensures s.code == ExternalDetected <==> s.external > 0
    ensures s.code == IdentityChanged <==> s.external == 0 && pidReused
    ensures s.code == CleanupFailed <==> s.external == 0 && !pidReused && (!exitObserved || postExit != [])
  {
    var bound, listen := Filter(endpoints, IsBound), Filter(endpoints, IsListen);
    var established := Filter(endpoints, IsEstablished);
    StatesPartition(endpoints, pid);
    CountsMeaning(endpoints, classify);
    var disappeared := postExit == [] && !pidReused;
    var external, local, pair, channel := Attribute(endpoints, pid, classify);
    var verified := exitObserved && disappeared && channel;
    var loopback := if verified then 3 else local;
    var unattributed := if verified then 0 else |endpoints| - external - loopback;
    var code := if verified then Verified else Unattributed;
    if external != 0 {
      code := ExternalDetected;
    } else if pidReused {
      code := IdentityChanged;
    } else if !exitObserved || !disappeared {
      code := CleanupFailed;
    }
    s := Summary(|endpoints|, |bound|, |listen|, |established|, loopback, external, unattributed,
                 if pair then 1 else 0, disappeared, pidReused, verified, code);
  }

  /** The local connections are the two ends of one. */
  ghost predicate OneFlow(endpoints: seq<TcpEndpoint>, classify: string -> Category) {
    var local := Locals(endpoints, classify);
    |local| == 2 && IsReversePair(local[0], local[1])
  }

  /** The external endpoints, the local connections, whether those are one reverse pair, and whether the
      endpoints are a packaged channel. */
  method Attribute(endpoints: seq<TcpEndpoint>, pid: nat, classify: string -> Category)
    returns (external: nat, localCount: nat, pair: bool, channel: bool)
    requires Observable(endpoints, pid)
    ensures external == |Externals(endpoints, classify)|
    ensures external + localCount <= |endpoints|
    ensures localCount == |Locals(endpoints, classify)| && (pair <==> OneFlow(endpoints, classify))
    ensures channel <==> OnlyThePackagedChannel(endpoints, classify)
    ensures channel ==> external == 0 && |endpoints| == 3
  {
    var bound, listen := Filter(endpoints, IsBound), Filter(endpoints, IsListen);
    var established := Filter(endpoints, IsEstablished);
    FilterHolds(endpoints, IsListen);
    FilterHolds(endpoints, IsEstablished);
    StatesPartition(endpoints, pid);
    SplitByState(endpoints, classify);
    var externalListeners := CountExternalListeners(listen, classify);
    var local;
    external, local := SplitEstablished(established, classify);
    external, localCount := external + externalListeners, |local|;
    assert local == Locals(endpoints, classify);
    pair := |local| == 2 && IsReversePair(local[0], local[1]);
    var pairPorts := if pair then {local[0].localPort, local[0].remotePort} else {};
    var boundMatches := |bound| == 1 && bound[0].localPort in pairPorts
                        && classify(bound[0].localAddress) in {Loopback, Unspecified};
    channel := |endpoints| == 3 && |listen| == 0 && external == 0 && pair && boundMatches;
    assert channel == ChannelTests(endpoints, classify);
    ChannelIff(endpoints, pid, classify);
  }

  /** The tests made of the filtered lists. */
  ghost predicate ChannelTests(es: seq<TcpEndpoint>, classify: string -> Category) {
    var bound := Filter(es, IsBound);
    var local := Locals(es, classify);
    && |es| == 3 && |Filter(es, IsListen)| == 0 && |Externals(es, classify)| == 0
    && |local| == 2 && IsReversePair(local[0], local[1])
    && |bound| == 1 && bound[0].localPort in {local[0].localPort, local[0].remotePort}
    && classify(bound[0].localAddress) in {Loopback, Unspecified}
  }

  lemma StatesExclusive(e: TcpEndpoint)
    ensures !(IsBound(e) && IsListen(e)) && !(IsBound(e) && IsEstablished(e)) && !(IsListen(e) && IsEstablished(e))
  {
    assert "bound"[0] == 'b' && "listen"[0] == 'l' && "established"[0] == 'e';
  }

  /** Two established endpoints that are each other's reverse are different ends, because their keys differ. */
  lemma ReversePairIsProper(a: TcpEndpoint, b: TcpEndpoint)
    requires IsEstablished(a) && IsEstablished(b) && a.owningProcess == b.owningProcess && KeyOf(a) != KeyOf(b)
    requires IsReversePair(a, b)
    ensures (Fold(a.localAddress), a.localPort) != (Fold(a.remoteAddress), a.remotePort)
  {}

  ghost predicate Positions(i: nat, j: nat, k: nat) {
    (i, j, k) in {(0, 1, 2), (0, 2, 1), (1, 2, 0)}
  }

  lemma StatesOfThree(es: seq<TcpEndpoint>, i: nat, j: nat, k: nat)
    requires |es| == 3 && Positions(i, j, k) && IsBound(es[k]) && IsEstablished(es[i]) && IsEstablished(es[j])
    ensures Filter(es, IsBound) == [es[k]] && Filter(es, IsListen) == [] && Filter(es, IsEstablished) == [es[i], es[j]]
  {
    StatesExclusive(es[0]);
    StatesExclusive(es[1]);
    StatesExclusive(es[2]);
    FilterThree(es, IsBound);
    FilterThree(es, IsListen);
    FilterThree(es, IsEstablished);
  }

  lemma KeptOfThree(es: seq<TcpEndpoint>, classify: string -> Category)
    requires |es| == 3
    ensures Locals(es, classify) == Keep(es[0], IsLocalConnection(es[0], classify))
                                    + Keep(es[1], IsLocalConnection(es[1], classify))
                                    + Keep(es[2], IsLocalConnection(es[2], classify))
    ensures Externals(es, classify) == Keep(es[0], IsExternal(es[0], classify))
                                       + Keep(es[1], IsExternal(es[1], classify))
                                       + Keep(es[2], IsExternal(es[2], classify))
  {
    assert es[..0] == [] && es == es[..2] + [es[2]] && es[..2] == es[..1] + [es[1]] && es[..1] == es[..0] + [es[0]];
    KeptAppended(es[..2], es[2], classify);
    KeptAppended(es[..1], es[1], classify);
    KeptAppended(es[..0], es[0], classify);
  }

  /** The local and the external ones of two established endpoints and a bound one. */
  lemma KeptOfConnection(es: seq<TcpEndpoint>, classify: string -> Category, i: nat, j: nat, k: nat)
    requires |es| == 3 && Positions(i, j, k) && IsBound(es[k]) && IsEstablished(es[i]) && IsEstablished(es[j])
    ensures Externals(es, classify) == [] <==> Locals(es, classify) == [es[i], es[j]]
    ensures IsLocalConnection(es[i], classify) && IsLocalConnection(es[j], classify)
       <==> Locals(es, classify) == [es[i], es[j]]
  {
    StatesExclusive(es[k]);
    StatesExclusive(es[i]);
    StatesExclusive(es[j]);
    KeptOfThree(es, classify);
  }

  lemma ChannelOfConnection(es: seq<TcpEndpoint>, pid: nat, classify: string -> Category, i: nat, j: nat, k: nat)
    requires Observable(es, pid) && |es| == 3 && Positions(i, j, k)
    requires IsBound(es[k]) && IsEstablished(es[i]) && IsEstablished(es[j])
    ensures ChannelTests(es, classify) <==> IsPackagedChannel(es[i], es[j], es[k], classify)
  {
    StatesOfThree(es, i, j, k);
    KeptOfConnection(es, classify, i, j, k);
    if IsReversePair(es[i], es[j]) { ReversePairIsProper(es[i], es[j]); }
  }

  lemma NoChannelWithoutConnection(es: seq<TcpEndpoint>, classify: string -> Category, i: nat, j: nat, k: nat)
    requires |es| == 3 && Positions(i, j, k) && IsBound(es[k]) && !(IsEstablished(es[i]) && IsEstablished(es[j]))
    ensures !ChannelTests(es, classify)
  {
    KeptOfThree(es, classify);
    StatesExclusive(es[k]);
    assert |Locals(es, classify)| <= 1;
  }

  /** The tests on two endpoints and the one that is bound, at position `k` of the three. */
  lemma ChannelCase(es: seq<TcpEndpoint>, pid: nat, classify: string -> Category, i: nat, j: nat, k: nat)
    requires Observable(es, pid) && |es| == 3 && Positions(i, j, k) && IsBound(es[k])
    ensures ChannelTests(es, classify) <==> IsPackagedChannel(es[i], es[j], es[k], classify)
  {
    if IsEstablished(es[i]) && IsEstablished(es[j]) {
      ChannelOfConnection(es, pid, classify, i, j, k);
    } else {
      NoChannelWithoutConnection(es, classify, i, j, k);
    }
  }

  lemma ChannelIff(es: seq<TcpEndpoint>, pid: nat, classify: string -> Category)
    requires Observable(es, pid)
    ensures ChannelTests(es, classify) <==> OnlyThePackagedChannel(es, classify)
  {
    if |es| == 3 {
      if IsBound(es[0]) { ChannelCase(es, pid, classify, 1, 2, 0); }
      if IsBound(es[1]) { ChannelCase(es, pid, classify, 0, 2, 1); }
      if IsBound(es[2]) { ChannelCase(es, pid, classify, 0, 1, 2); }
      FilterThree(es, IsBound);
    }
  }

  lemma FilterThree<T>(es: seq<T>, p: T -> bool)
    requires |es| == 3
    ensures Filter(es, p) == Keep(es[0], p(es[0])) + Keep(es[1], p(es[1])) + Keep(es[2], p(es[2]))
  {
    assert es[..2][..1] == es[..1] && es[..1][..0] == [];
    assert Filter(es[..1], p) == Keep(es[0], p(es[0]));
  }
}
