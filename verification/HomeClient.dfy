/**
  The client of the Home control centre: which node it talks to, and how it fails over. A node list is filtered and
  stably sorted by load; failures beyond a threshold and subscription timeouts move on to the next candidate.
 */
module HomeClients {
  import opened Prelude
  import Text

  const FAILOVER_THRESHOLD: nat := 3

  datatype ClusterNode = ClusterNode(ip: string, port: int, clientCount: int)

  /** A dialled address: the trimmed host and the port. */
  datatype Addr = Addr(host: string, port: int) {
    predicate Dialable() { host != "" && port > 0 }
  }

  function AddrOf(n: ClusterNode): Addr { Addr(Text.Trim(n.ip), n.port) }

  // ---------------------------------------------------------------- normalising a node list

  /** The usable nodes, trimmed, with no negative load, in the order received. */
  function Usable(nodes: seq<ClusterNode>): seq<ClusterNode> {
    if nodes == [] then []
    else
      var n := nodes[0];
      if Text.Trim(n.ip) == "" || n.port <= 0 then Usable(nodes[1..])
      else [ClusterNode(Text.Trim(n.ip), n.port, if n.clientCount < 0 then 0 else n.clientCount)] + Usable(nodes[1..])
  }

  /** A received node as it is kept, if it has an address and a port. */
  function Kept(n: ClusterNode): Option<ClusterNode> {
    if Text.Trim(n.ip) != "" && n.port > 0
    then Some(ClusterNode(Text.Trim(n.ip), n.port, if n.clientCount > 0 then n.clientCount else 0)) else None
  }

  ghost predicate UsableAt(nodes: seq<ClusterNode>, usable: seq<ClusterNode>, at: seq<nat>) {
    && |at| == |usable|
    && (forall j, k | 0 <= j < k < |at| :: at[j] < at[k])
    && (forall k | 0 <= k < |at| :: at[k] < |nodes| && Kept(nodes[at[k]]) == Some(usable[k]))
    && (forall i | 0 <= i < |nodes| && Kept(nodes[i]).Some? :: i in at)
  }

  lemma UsableAppend(nodes: seq<ClusterNode>, last: ClusterNode)
    ensures Usable(nodes + [last]) == Usable(nodes) + match Kept(last) case None => [] case Some(n) => [n]
  {
    if nodes == [] {
      assert nodes + [last] == [last] && [last][1..] == [];
    } else {
      UsableAppend(nodes[1..], last);
      assert (nodes + [last])[0] == nodes[0] && (nodes + [last])[1..] == nodes[1..] + [last];
      if Kept(nodes[0]).Some? {
        Associate([Kept(nodes[0]).value], Usable(nodes[1..]), match Kept(last) case None => [] case Some(n) => [n]);
      }
    }
  }

  lemma OneMoreNode(nodes: seq<ClusterNode>, last: ClusterNode, usable: seq<ClusterNode>, at: seq<nat>)
    requires UsableAt(nodes, usable, at)
    ensures match Kept(last)
            case None => UsableAt(nodes + [last], usable, at)
            case Some(n) => UsableAt(nodes + [last], usable + [n], at + [|nodes|])
  {
    forall i: int | i in at ensures i in at + [|nodes|] {}
  }

  /** The usable nodes are all with an address and a port, in the order received: number k is from position at[k]. */
  lemma {:induction false} UsableInOrder(nodes: seq<ClusterNode>) returns (at: seq<nat>)
    ensures UsableAt(nodes, Usable(nodes), at)
  {
    at := [];
    if nodes != [] {
      var n := |nodes| - 1;
      at := UsableInOrder(nodes[..n]);
      OneMoreNode(nodes[..n], nodes[n], Usable(nodes[..n]), at);
      UsableAppend(nodes[..n], nodes[n]);
      assert nodes[..n] + [nodes[n]] == nodes;
      if Kept(nodes[n]).Some? { at := at + [n]; } else { assert Usable(nodes[..n]) + [] == Usable(nodes[..n]); }
    }
  }

  predicate SortedByLoad(nodes: seq<ClusterNode>) {
    forall i, j | 0 <= i < j < |nodes| :: nodes[i].clientCount <= nodes[j].clientCount
  }

  function WithLoad(nodes: seq<ClusterNode>, load: int): seq<ClusterNode> {
    if nodes == [] then []
    else if nodes[0].clientCount == load then [nodes[0]] + WithLoad(nodes[1..], load)
    else WithLoad(nodes[1..], load)
  }

  /** sorted is nodes in order of load, nodes of equal load in the order they had. */
  ghost predicate StablySorted(nodes: seq<ClusterNode>, sorted: seq<ClusterNode>) {
    SortedByLoad(sorted) && forall load: int :: WithLoad(sorted, load) == WithLoad(nodes, load)
  }

  function InsertByLoad(n: ClusterNode, sorted: seq<ClusterNode>): seq<ClusterNode> {
    if sorted == [] || n.clientCount <= sorted[0].clientCount then [n] + sorted
    else [sorted[0]] + InsertByLoad(n, sorted[1..])
  }

  lemma {:induction false} InsertIsStable(n: ClusterNode, sorted: seq<ClusterNode>, load: int)
    requires SortedByLoad(sorted)
    ensures WithLoad(InsertByLoad(n, sorted), load) == WithLoad([n] + sorted, load)
  {
    if sorted != [] && n.clientCount > sorted[0].clientCount {
      InsertIsStable(n, sorted[1..], load);
      var r := InsertByLoad(n, sorted);
      assert r[1..] == InsertByLoad(n, sorted[1..]);
      assert ([n] + sorted[1..])[1..] == sorted[1..] && ([n] + sorted)[1..] == sorted;
    }
  }

  lemma {:induction false} InsertKeepsSorted(n: ClusterNode, sorted: seq<ClusterNode>)
    requires SortedByLoad(sorted)
    ensures SortedByLoad(InsertByLoad(n, sorted))
    ensures forall m :: m in InsertByLoad(n, sorted) <==> m == n || m in sorted
  {
    if sorted != [] && n.clientCount > sorted[0].clientCount {
      InsertKeepsSorted(n, sorted[1..]);
      var rest := InsertByLoad(n, sorted[1..]);
      assert sorted == [sorted[0]] + sorted[1..];
      forall j | 0 <= j < |rest| ensures sorted[0].clientCount <= rest[j].clientCount { assert rest[j] in rest; }
    }
  }

  /** The stable sort of the standard library, from the back so that equal nodes keep their order. */
  method SortStable(nodes: seq<ClusterNode>) returns (sorted: seq<ClusterNode>)
    ensures StablySorted(nodes, sorted)
  {
    sorted := [];
    var i := |nodes|;
    while i > 0
      invariant 0 <= i <= |nodes| && StablySorted(nodes[i..], sorted)
    {
      i := i - 1;
      assert nodes[i..] == [nodes[i]] + nodes[i + 1..];
      InsertKeepsSorted(nodes[i], sorted);
      forall load: int ensures WithLoad(InsertByLoad(nodes[i], sorted), load) == WithLoad(nodes[i..], load) {
        InsertIsStable(nodes[i], sorted, load);
        assert ([nodes[i]] + sorted)[1..] == sorted && nodes[i..][1..] == nodes[i + 1..];
      }
      sorted := InsertByLoad(nodes[i], sorted);
    }
    assert nodes[0..] == nodes;
  }

  method NormalizeClusterNodes(nodes: seq<ClusterNode>) returns (out: seq<ClusterNode>)
    ensures StablySorted(Usable(nodes), out)
  {
    var usable: seq<ClusterNode> := [];
    for i := 0 to |nodes|
      invariant usable + Usable(nodes[i..]) == Usable(nodes)
    {
      assert nodes[i..][1..] == nodes[i + 1..];
      var ip := Text.Trim(nodes[i].ip);
      if ip == "" || nodes[i].port <= 0 { continue; }
      var load := if nodes[i].clientCount < 0 then 0 else nodes[i].clientCount;
      Associate(usable, [ClusterNode(ip, nodes[i].port, load)], Usable(nodes[i + 1..]));
      usable := usable + [ClusterNode(ip, nodes[i].port, load)];
    }
    assert nodes[|nodes|..] == [] && usable + [] == usable;
    out := SortStable(usable);
  }

  lemma {:induction false} InItsLoadClass(nodes: seq<ClusterNode>, n: ClusterNode)
    ensures n in WithLoad(nodes, n.clientCount) <==> n in nodes
  {
    if nodes != [] {
      InItsLoadClass(nodes[1..], n);
      assert nodes == [nodes[0]] + nodes[1..];
    }
  }

  /** A stably sorted list has the same members, and starts with the first of the least loaded ones. */
  lemma FirstIsLeastLoaded(nodes: seq<ClusterNode>, sorted: seq<ClusterNode>, n: ClusterNode)
    requires StablySorted(nodes, sorted)
    ensures n in sorted <==> n in nodes
    ensures n in nodes ==> sorted != [] && sorted[0].clientCount <= n.clientCount
                           && WithLoad(nodes, sorted[0].clientCount) != []
                           && sorted[0] == WithLoad(nodes, sorted[0].clientCount)[0]
  {
    InItsLoadClass(nodes, n);
    InItsLoadClass(sorted, n);
    if n in nodes {
      var i :| 0 <= i < |sorted| && sorted[i] == n;
      assert WithLoad(sorted, sorted[0].clientCount)[0] == sorted[0];
    }
  }

  // ---------------------------------------------------------------- failover

  /** The first candidate that can be dialled and is not where the client already is. */
  function NextTarget(candidates: seq<Addr>, current: Addr): Option<Addr> {
    if candidates == [] then None
    else if candidates[0].Dialable() && candidates[0] != current then Some(candidates[0])
    else NextTarget(candidates[1..], current)
  }

  lemma {:induction false} NextTargetNoneIffNowhereElse(candidates: seq<Addr>, current: Addr)
    ensures NextTarget(candidates, current) == None
            <==> forall a | a in candidates :: !a.Dialable() || a == current
    ensures NextTarget(candidates, current).Some? ==>
              NextTarget(candidates, current).value in candidates && NextTarget(candidates, current).value.Dialable()
              && NextTarget(candidates, current).value != current
  {
    if candidates != [] {
      NextTargetNoneIffNowhereElse(candidates[1..], current);
      assert candidates == [candidates[0]] + candidates[1..];
    }
  }

  /** Every candidate before the next target is unusable or is where the client already is. */
  lemma {:induction false} NextTargetIsFirst(candidates: seq<Addr>, current: Addr) returns (i: nat)
    requires NextTarget(candidates, current).Some?
    ensures i < |candidates| && NextTarget(candidates, current) == Some(candidates[i]) && candidates[i] != current
    ensures candidates[i].host != "" && candidates[i].port > 0
    ensures forall j | 0 <= j < i :: candidates[j].host == "" || candidates[j].port <= 0 || candidates[j] == current
  {
    if candidates[0].Dialable() && candidates[0] != current {
      i := 0;
    } else {
      var k := NextTargetIsFirst(candidates[1..], current);
      i := k + 1;
      forall j | 0 <= j < i ensures candidates[j].host == "" || candidates[j].port <= 0 || candidates[j] == current {
        if j > 0 { assert candidates[j] == candidates[1..][j - 1]; }
      }
    }
  }

  lemma NextTargetFrom(candidates: seq<Addr>, i: nat, current: Addr)
    requires i < |candidates|
    ensures NextTarget(candidates[i..], current)
            == if candidates[i].Dialable() && candidates[i] != current then Some(candidates[i])
               else NextTarget(candidates[i + 1..], current)
  {
    assert candidates[i..][1..] == candidates[i + 1..];
  }

  /** The addresses of the usable nodes of a received list. */
  ghost function Received(nodes: seq<ClusterNode>): set<Addr> { set n | n in Usable(nodes) :: AddrOf(n) }

  function Addresses(nodes: seq<ClusterNode>): seq<Addr> {
    seq(|nodes|, i requires 0 <= i < |nodes| => AddrOf(nodes[i]))
  }

  class Client {
    const enabled: bool
    const discoveryDisabled: bool
    const seedHost: string
    const seedPort: int
    var host: string
    var port: int
    var cmd: Option<Addr>
    var sub: Option<Addr>
    var clusterNodes: seq<ClusterNode>
    var reconnectFailures: nat
    /** Every address of every node list ever received. */
    ghost var known: set<Addr>

    function Target(): Addr
      reads this
    {
      Addr(Text.Trim(host), port)
    }

    function Seed(): Addr { Addr(seedHost, seedPort) }

    /** What switching to the next node chooses from: the node list, then the seed if it is usable. */
    function Candidates(): seq<Addr>
      reads this
    {
      Addresses(clusterNodes)
      + if Text.Trim(seedHost) != "" && seedPort > 0 then [Addr(Text.Trim(seedHost), seedPort)] else []
    }

    ghost predicate Valid()
      reads this
    {
      // The equation with true makes this one proposition, proved as a whole where it is needed.
      (&& Text.Trim(seedHost) == seedHost
       && reconnectFailures < FAILOVER_THRESHOLD
       && (cmd.Some? ==> cmd.value == Target()) && (sub.Some? ==> sub.value == Target())
       && (Target() == Seed() || Target() in known)
       && (forall n | n in clusterNodes :: AddrOf(n) in known)
       && (discoveryDisabled ==> Target() == Seed() && clusterNodes == [])) == true
    }

    constructor (enabled: bool, discoveryDisabled: bool, host: string, port: int)
      ensures Valid() && Target() == Seed() == Addr(Text.Trim(host), port)
      ensures this.discoveryDisabled == discoveryDisabled && this.enabled == enabled
      ensures reconnectFailures == 0 && clusterNodes == [] && known == {}
    {
      this.enabled, this.discoveryDisabled := enabled, discoveryDisabled;
      this.host, this.port, this.seedHost, this.seedPort := host, port, Text.Trim(host), port;
      cmd, sub, clusterNodes, reconnectFailures, known := None, None, [], 0, {};
      new;
      Text.TrimTwice(host);
    }

    /** Dial what is not dialled yet. Building the options of either connection may fail; a dialled one then stays. */
    method EnsureClients(cmdOptionsOk: bool, subOptionsOk: bool) returns (ok: bool)
      requires Valid()
      modifies `cmd, `sub
      ensures Valid()
      ensures var reachable := enabled && Target().Dialable();
              var cmdOk := reachable && (old(cmd).Some? || cmdOptionsOk);
              && (ok <==> cmdOk && (old(sub).Some? || subOptionsOk))
              && cmd == (if cmdOk then Some(Target()) else old(cmd))
              && sub == (if ok then Some(Target()) else old(sub))
    {
      if !enabled { return false; }
      var addr := Target();
      if !addr.Dialable() { return false; }
      if cmd.None? {
        if !cmdOptionsOk { return false; }
        cmd := Some(addr);
      }
      if sub.None? {
        if !subOptionsOk { return false; }
        sub := Some(addr);
      }
      return true;
    }

    method CloseClients()
      requires Valid()
      modifies `cmd, `sub
      ensures Valid() && cmd == None && sub == None
    {
      cmd, sub := None, None;
    }

    /** Move to a node unless it cannot be dialled or is where the client already is; moving closes the connections. */
    method SwitchToNode(node: Addr) returns (switched: bool)
      requires Valid() && !discoveryDisabled && (node == Seed() || node in known)
      requires Text.Trim(node.host) == node.host
      modifies `host, `port, `cmd, `sub
      ensures Valid()
      ensures switched <==> node.Dialable() && node != old(Target())
      ensures Target() == if switched then node else old(Target())
      ensures if switched then cmd == None && sub == None else cmd == old(cmd) && sub == old(sub)
    {
      if node.host == "" || node.port <= 0 { return false; }
      if Text.Trim(host) == node.host && port == node.port { return false; }
      host, port := node.host, node.port;
      cmd, sub := None, None;
      return true;
    }

    /** The answer of a node-list request, already normalised; the least loaded node becomes the target. */
    method RefreshClusterNodes(nodes: seq<ClusterNode>) returns (switched: bool)
      requires Valid()
      modifies this
      ensures Valid()
      ensures discoveryDisabled || Usable(nodes) == [] ==>
                !switched && Target() == old(Target()) && clusterNodes == old(clusterNodes)
                && reconnectFailures == old(reconnectFailures)
      ensures !discoveryDisabled && Usable(nodes) != [] ==>
                && StablySorted(Usable(nodes), clusterNodes) && reconnectFailures == 0
                && clusterNodes != [] && Target() == AddrOf(clusterNodes[0])
                && (switched <==> Target() != old(Target()))
      ensures known == if discoveryDisabled then old(known) else old(known) + Received(nodes)
      ensures if switched then cmd == None && sub == None else cmd == old(cmd) && sub == old(sub)
    {
      if discoveryDisabled { return false; }
      var normalized := NormalizeClusterNodes(nodes);
      SameMembers(Usable(nodes), normalized);
      if normalized == [] { return false; }
      clusterNodes := normalized;
      known := known + set n | n in normalized :: AddrOf(n);
      reconnectFailures := 0;
      assert normalized[0] in Usable(nodes);
      UsableIsDialable(nodes, normalized[0]);
      switched := SwitchToNode(AddrOf(normalized[0]));
    }

    /** A node list pushed over the subscription only replaces the candidates. */
    method UpdateClusterNodes(nodes: seq<ClusterNode>)
      requires Valid()
      modifies `clusterNodes, `known
      ensures Valid()
      ensures if discoveryDisabled then clusterNodes == old(clusterNodes) else StablySorted(Usable(nodes), clusterNodes)
      ensures known == if discoveryDisabled then old(known) else old(known) + Received(nodes)
    {
      if discoveryDisabled { return; }
      clusterNodes := NormalizeClusterNodes(nodes);
      SameMembers(Usable(nodes), clusterNodes);
      known := known + set n | n in clusterNodes :: AddrOf(n);
    }

    /** Move to the next candidate; no switch is reported exactly when there is nowhere else to go. */
    method SwitchToNextNode() returns (switched: bool)
      requires Valid() && !discoveryDisabled
      modifies `host, `port, `cmd, `sub
      ensures Valid()
      ensures var next := NextTarget(old(Candidates()), old(Target()));
              switched == next.Some? && Target() == if switched then next.value else old(Target())
      ensures !switched <==> forall a | a in old(Candidates()) :: !a.Dialable() || a == old(Target())
      ensures if switched then cmd == None && sub == None else cmd == old(cmd) && sub == old(sub)
    {
      var candidates := Candidates();
      var current := Target();
      NextTargetNoneIffNowhereElse(candidates, current);
      for i := 0 to |candidates|
        invariant Valid() && Target() == current && cmd == old(cmd) && sub == old(sub)
        invariant NextTarget(candidates, current) == NextTarget(candidates[i..], current)
      {
        NextTargetFrom(candidates, i, current);
        var node := candidates[i];
        if node.host == "" || node.port <= 0 { continue; }
        if node == current { continue; }
        CandidateIsKnown(i);
        switched := SwitchToNode(node);
        if switched { return true; }
      }
      assert candidates[|candidates|..] == [];
      return false;
    }

    /** The nodes of the list are tried in their order, and after them the seed, if it has an address and a port. */
    lemma NodesComeBeforeSeed(i: nat)
      requires i < |clusterNodes|
      ensures |Candidates()| == |clusterNodes| + if Text.Trim(seedHost) != "" && seedPort > 0 then 1 else 0
      ensures Candidates()[i] == Addr(Text.Trim(clusterNodes[i].ip), clusterNodes[i].port)
      ensures Text.Trim(seedHost) != "" && seedPort > 0 ==>
                Candidates()[|clusterNodes|] == Addr(Text.Trim(seedHost), seedPort)
    {}

    lemma CandidateIsKnown(i: nat)
      requires Valid() && i < |Candidates()|
      ensures Candidates()[i] == Seed() || Candidates()[i] in known
      ensures Text.Trim(Candidates()[i].host) == Candidates()[i].host
    {
      if i < |clusterNodes| {
        assert clusterNodes[i] in clusterNodes;
        Text.TrimTwice(clusterNodes[i].ip);
      } else {
        Text.TrimTwice(seedHost);
      }
    }

    /** One more failed reconnection; the third in a row, and no earlier one, fails over. */
    method FailoverAfterReconnectFailure() returns (switched: bool)
      requires Valid()
      modifies this
      ensures Valid() && clusterNodes == old(clusterNodes)
      ensures discoveryDisabled ==> !switched && reconnectFailures == 0
      ensures !discoveryDisabled && old(reconnectFailures) < 2 ==>
                !switched && reconnectFailures == old(reconnectFailures) + 1
      ensures !discoveryDisabled && old(reconnectFailures) == 2 ==>
                && reconnectFailures == 0
                && switched == NextTarget(old(Candidates()), old(Target())).Some?
      ensures Target() == if switched then NextTarget(old(Candidates()), old(Target())).value else old(Target())
      ensures if switched then cmd == None && sub == None else cmd == old(cmd) && sub == old(sub)
      ensures known == old(known)
    {
      if discoveryDisabled {
        reconnectFailures := 0;
        return false;
      }
      if reconnectFailures + 1 < FAILOVER_THRESHOLD {
        reconnectFailures := reconnectFailures + 1;
        return false;
      }
      reconnectFailures := 0;
      switched := SwitchToNextNode();
    }

    method FailoverAfterSubscriptionTimeout() returns (switched: bool)
      requires Valid()
      modifies this
      ensures Valid() && clusterNodes == old(clusterNodes) && reconnectFailures == 0
      ensures switched <==> !discoveryDisabled && NextTarget(old(Candidates()), old(Target())).Some?
      ensures Target() == if switched then NextTarget(old(Candidates()), old(Target())).value else old(Target())
      ensures if switched then cmd == None && sub == None else cmd == old(cmd) && sub == old(sub)
      ensures known == old(known)
    {
      reconnectFailures := 0;
      if discoveryDisabled { return false; }
      switched := SwitchToNextNode();
    }

    method ResetReconnectFailures()
      requires Valid()
      modifies `reconnectFailures
      ensures Valid() && reconnectFailures == 0
    {
      reconnectFailures := 0;
    }
  }

  lemma SameMembers(nodes: seq<ClusterNode>, sorted: seq<ClusterNode>)
    requires StablySorted(nodes, sorted)
    ensures forall n :: n in sorted <==> n in nodes
    ensures sorted == [] <==> nodes == []
  {
    forall n { FirstIsLeastLoaded(nodes, sorted, n); }
    if sorted != [] { assert sorted[0] in sorted; }
    if nodes != [] { assert nodes[0] in nodes; }
  }

  lemma {:induction false} UsableIsDialable(nodes: seq<ClusterNode>, n: ClusterNode)
    requires n in Usable(nodes)
    ensures AddrOf(n).Dialable() && Text.Trim(AddrOf(n).host) == AddrOf(n).host
  {
    Text.TrimTwice(nodes[0].ip);
    if n !in Usable(nodes[1..]) {
      assert n.ip == Text.Trim(nodes[0].ip);
    } else {
      UsableIsDialable(nodes[1..], n);
    }
  }
}
