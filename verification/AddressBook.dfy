/** Positional ports and the state-sync address book (internal/fleet/deploy.go:849-939,
    cmd/bombard/discover.go:37-45). */
module AddressBook {
  import opened Wrappers
  import opened Config
  import opened Placements
  import opened FleetModel

  const BASE_HTTP := 9650
  const BASE_STAKING := 9651

  datatype Ports = Ports(http: nat, staking: nat)

  /** Earlier nodes on the host of node i. */
  function Occurrence(nodes: seq<Node>, host: string, i: nat): nat
    requires i <= |nodes|
  {
    if i == 0 then 0 else Occurrence(nodes, host, i - 1) + if nodes[i - 1].host == host then 1 else 0
  }

  function PortsAt(nodes: seq<Node>, i: nat): Ports
    requires i < |nodes|
  {
    var index := Occurrence(nodes, nodes[i].host, i);
    Ports(BASE_HTTP + 2 * index, BASE_STAKING + 2 * index)
  }

  /** Ports by node number; a repeated number keeps its last. */
  function PortMap(nodes: seq<Node>, i: nat): map<nat, Ports>
    requires i <= |nodes|
  {
    if i == 0 then map[] else PortMap(nodes, i - 1)[nodes[i - 1].number := PortsAt(nodes, i - 1)]
  }

  method PortsByNode(nodes: seq<Node>) returns (result: map<nat, Ports>)
    ensures result == PortMap(nodes, |nodes|)
  {
    var occurrences: map<string, nat> := map[];
    result := map[];
    for i := 0 to |nodes|
      invariant result == PortMap(nodes, i)
      invariant forall h :: Get(occurrences, h) == Occurrence(nodes, h, i)
    {
      var index := Get(occurrences, nodes[i].host);
      result := result[nodes[i].number := Ports(BASE_HTTP + 2 * index, BASE_STAKING + 2 * index)];
      ghost var was := occurrences;
      occurrences := occurrences[nodes[i].host := index + 1];
      assert forall h :: h != nodes[i].host ==> Get(occurrences, h) == Get(was, h);
    }
  }

  /** The load generator's copy agrees with the authority on every node. */
  method HttpPortsByNode(nodes: seq<Node>) returns (result: map<nat, nat>)
    ensures result.Keys == PortMap(nodes, |nodes|).Keys
    ensures forall n :: n in result ==> result[n] == PortMap(nodes, |nodes|)[n].http
  {
    var occurrences: map<string, nat> := map[];
    result := map[];
    for i := 0 to |nodes|
      invariant result.Keys == PortMap(nodes, i).Keys
      invariant forall n :: n in result ==> result[n] == PortMap(nodes, i)[n].http
      invariant forall h :: Get(occurrences, h) == Occurrence(nodes, h, i)
    {
      result := result[nodes[i].number := BASE_HTTP + 2 * Get(occurrences, nodes[i].host)];
      ghost var was := occurrences;
      occurrences := occurrences[nodes[i].host := Get(occurrences, nodes[i].host) + 1];
      assert forall h :: h != nodes[i].host ==> Get(occurrences, h) == Get(was, h);
    }
  }

  /** The earlier nodes on a host. */
  ghost function Earlier(nodes: seq<Node>, host: string, i: nat): set<nat>
    requires i <= |nodes|
  {
    set j: nat | j < i && nodes[j].host == host
  }

  /** The counter is how many they are. */
  lemma {:induction false} OccurrenceCounts(nodes: seq<Node>, host: string, i: nat)
    requires i <= |nodes|
    ensures Occurrence(nodes, host, i) == |Earlier(nodes, host, i)|
  {
    if i > 0 {
      OccurrenceCounts(nodes, host, i - 1);
      assert Earlier(nodes, host, i)
          == Earlier(nodes, host, i - 1) + if nodes[i - 1].host == host then {i - 1} else {};
    }
  }

  lemma {:induction false} PortMapAt(nodes: seq<Node>, k: nat, i: nat)
    requires DistinctNumbers(nodes) && i < k <= |nodes|
    ensures nodes[i].number in PortMap(nodes, k) && PortMap(nodes, k)[nodes[i].number] == PortsAt(nodes, i)
    ensures var position := |Earlier(nodes, nodes[i].host, i)|;
            PortsAt(nodes, i) == Ports(9650 + 2 * position, 9651 + 2 * position)
    decreases k
  {
    OccurrenceCounts(nodes, nodes[i].host, i);
    if i < k - 1 { PortMapAt(nodes, k - 1, i); }
  }

  lemma {:induction false} OccurrenceGrows(nodes: seq<Node>, host: string, i: nat, j: nat)
    requires i <= j <= |nodes|
    ensures Occurrence(nodes, host, i) <= Occurrence(nodes, host, j)
    decreases j
  {
    if i < j { OccurrenceGrows(nodes, host, i, j - 1); }
  }

  /** No port is used twice on one host, neither by two nodes nor by one node's two services. */
  lemma {:induction false} PortsNeverCollide(nodes: seq<Node>, i: nat, j: nat)
    requires i < j < |nodes| && nodes[i].host == nodes[j].host
    ensures var a, b := PortsAt(nodes, i), PortsAt(nodes, j);
            a.http != b.http && a.http != b.staking && a.staking != b.http && a.staking != b.staking &&
                a.http != a.staking
  {
    OccurrenceGrows(nodes, nodes[j].host, i + 1, j);
  }

  datatype Address = Address(host: string, port: nat)

  /** The machines a node's book lists. */
  predicate Listed(nodes: seq<Node>, node: Node, up: set<nat>, i: nat)
    requires i < |nodes|
  {
    && nodes[i].number != node.number && nodes[i].role != PChain && nodes[i].number in up
    && ChainOf(nodes[i]) == ChainOf(node)
  }

  /** The listed positions among the first k, in inventory order. */
  function Peers(nodes: seq<Node>, node: Node, up: set<nat>, k: nat): (r: seq<nat>)
    requires k <= |nodes|
    ensures forall i :: 0 <= i < |r| ==> r[i] < k
    ensures forall i, j :: 0 <= i < j < |r| ==> r[i] < r[j]
  {
    if k == 0 then [] else
      Peers(nodes, node, up, k - 1) + (if Listed(nodes, node, up, k - 1) then [k - 1] else [])
  }

  /** A peer list names exactly the machines a book lists. */
  lemma {:induction false} PeersExact(nodes: seq<Node>, node: Node, up: set<nat>, k: nat)
    requires k <= |nodes|
    ensures forall i: nat :: i < k ==>
              (i in Peers(nodes, node, up, k) <==>
               nodes[i].number != node.number && nodes[i].role != PChain && nodes[i].number in up
               && ChainOf(nodes[i]) == ChainOf(node))
  {
    hide EffectiveChain;
    if k > 0 { PeersExact(nodes, node, up, k - 1); }
  }

  /** Entry k of both lists is the k-th peer's: its address and the NodeID placed on it. */
  ghost predicate IsBook(nodes: seq<Node>, peers: seq<nat>, ports: map<nat, Ports>, placed: Assignment,
                         ips: seq<Address>, ids: seq<string>)
  {
    && |ips| == |ids| == |peers|
    && forall k :: 0 <= k < |peers| ==>
         && peers[k] < |nodes| && nodes[peers[k]].number in ports && nodes[peers[k]].number in placed
         && ips[k] == Address(nodes[peers[k]].host, ports[nodes[peers[k]].number].staking)
         && ids[k] == placed[nodes[peers[k]].number]
  }

  method StateSyncPeers(node: Node, nodes: seq<Node>, placed: Assignment, ports: map<nat, Ports>, up: set<nat>)
    returns (ips: seq<Address>, ids: seq<string>)
    requires forall i :: 0 <= i < |nodes| ==> nodes[i].number in ports && (nodes[i].role != PChain ==>
               nodes[i].number in placed)
    ensures IsBook(nodes, Peers(nodes, node, up, |nodes|), ports, placed, ips, ids)
  {
    hide EffectiveChain;
    ips, ids := [], [];
    for i := 0 to |nodes|
      invariant IsBook(nodes, Peers(nodes, node, up, i), ports, placed, ips, ids)
    {
      var peer := nodes[i];
      if peer.number == node.number || peer.role == PChain || peer.number !in up { continue; }
      if ChainOf(peer) != ChainOf(node) { continue; }
      ips := ips + [Address(peer.host, ports[peer.number].staking)];
      ids := ids + [placed[peer.number]];
    }
  }

  /** Every address in a book is distinct, and so is every NodeID. */
  lemma {:induction false} BookDistinct(nodes: seq<Node>, node: Node, up: set<nat>, placed: Assignment,
                                        ips: seq<Address>, ids: seq<string>)
    requires DistinctNumbers(nodes) && InjectiveOn(placed)
    requires IsBook(nodes, Peers(nodes, node, up, |nodes|), PortMap(nodes, |nodes|), placed, ips, ids)
    ensures forall i, j :: 0 <= i < j < |ips| ==> ips[i] != ips[j] && ids[i] != ids[j]
  {
    var who := Peers(nodes, node, up, |nodes|);
    hide PortMap, Peers, PortsAt;
    forall i, j | 0 <= i < j < |who| ensures ips[i] != ips[j] && ids[i] != ids[j] {
      PortMapAt(nodes, |nodes|, who[i]);
      PortMapAt(nodes, |nodes|, who[j]);
      if nodes[who[i]].host == nodes[who[j]].host { PortsNeverCollide(nodes, who[i], who[j]); }
    }
  }

  /** intendedUp: the enabled machines that answered, adjusted by the command's own effect. */
  method IntendedUp(l1: seq<nat>, enabled: set<nat>, bringingUp: seq<nat>, takingDown: seq<nat>) returns (up: set<nat>)
    ensures forall n :: n in up <==> n in bringingUp || (n !in takingDown && n in l1 && n in enabled)
  {
    up := {};
    for i := 0 to |l1|
      invariant forall n :: n in up <==> n in l1[..i] && n in enabled
    {
      if l1[i] in enabled { up := up + {l1[i]}; }
    }
    assert l1[..|l1|] == l1;
    for i := 0 to |takingDown|
      invariant forall n :: n in up <==> n in l1 && n in enabled && n !in takingDown[..i]
    {
      up := up - {takingDown[i]};
    }
    assert takingDown[..|takingDown|] == takingDown;
    for i := 0 to |bringingUp|
      invariant forall n :: n in up <==> n in bringingUp[..i] || (n in l1 && n in enabled && n !in takingDown)
    {
      up := up + {bringingUp[i]};
    }
    assert bringingUp[..|bringingUp|] == bringingUp;
  }

  /** The command's intent for a machine. */
  predicate Intended(inv: Inventory, enabled: set<nat>, bringingUp: seq<nat>, takingDown: seq<nat>, n: nat) {
    n in bringingUp || (n !in takingDown && n in L1Numbers(inv.nodes) && n in enabled)
  }

  /** A machine's whole book, for any valid placement and any probe answers. */
  method Render(inv: Inventory, p: Placement, node: Node, enabled: set<nat>, bringingUp: seq<nat>, takingDown: seq<nat>)
    returns (ips: seq<Address>, ids: seq<string>, up: set<nat>)
    requires IsValid(p, inv.public, inv.nodes) && DistinctNodeIDs(inv.public)
    ensures forall n :: n in up <==> Intended(inv, enabled, bringingUp, takingDown, n)
    ensures IsBook(inv.nodes, Peers(inv.nodes, node, up, |inv.nodes|), PortMap(inv.nodes, |inv.nodes|),
                   Assigned(inv, p), ips, ids)
    ensures forall i, j :: 0 <= i < j < |ips| ==> ips[i] != ips[j] && ids[i] != ids[j]
    ensures var peers := Peers(inv.nodes, node, up, |inv.nodes|);
            |ids| == |peers| && forall k :: 0 <= k < |ids| ==> PlacedID(inv, p, inv.nodes[peers[k]].number, ids[k])
  {
    AssignedInjective(inv, p);
    AssignedPlaced(inv, p);
    ValidIsBijective(p, inv.public, inv.nodes);
    hide IsValid, FitsAll, Injective, DistinctNodeIDs, Assigned, IsBook, PortMap, InjectiveOn, Peers;
    up := IntendedUp(L1Numbers(inv.nodes), enabled, bringingUp, takingDown);
    var ports := PortsByNode(inv.nodes);
    forall i | 0 <= i < |inv.nodes|
      ensures inv.nodes[i].number in ports
      ensures inv.nodes[i].role != PChain ==> inv.nodes[i].number in Assigned(inv, p)
    {
      PortMapAt(inv.nodes, |inv.nodes|, i);
      if inv.nodes[i].role != PChain { L1Listed(inv.nodes, i); }
    }
    ips, ids := StateSyncPeers(node, inv.nodes, Assigned(inv, p), ports, up);
    BookDistinct(inv.nodes, node, up, Assigned(inv, p), ips, ids);
    BookIDs(inv.nodes, Peers(inv.nodes, node, up, |inv.nodes|), ports, Assigned(inv, p), ips, ids);
  }

  lemma {:induction false} BookIDs(nodes: seq<Node>, peers: seq<nat>, ports: map<nat, Ports>, placed: Assignment,
                                   ips: seq<Address>, ids: seq<string>)
    requires IsBook(nodes, peers, ports, placed, ips, ids)
    ensures |ids| == |peers| && forall k :: 0 <= k < |ids| ==>
              peers[k] < |nodes| && nodes[peers[k]].number in placed && ids[k] == placed[nodes[peers[k]].number]
  {
  }
}
