/** The machine-to-identity assignment (internal/placement, internal/fleet/place.go):
    what a legal placement is, what one move does to it, and which placements moves reach. */
module Placements {
  import opened Wrappers
  import opened Config
  import opened Sets
  import Identity

  datatype PublicNode = PublicNode(
    identity: string, node: nat, role: Role, chain: string,
    nodeID: string, weight: nat, explicitWeight: bool, signer: Option<bool>)
  {
    /** signer is None when absent, otherwise whether the proof of possession verifies. */
    function ChainName(): string { EffectiveChain(role, chain) }
  }

  /** Node number to identity letter: deployment/placement.json. */
  type Placement = map<nat, string>

  datatype PlacementError =
    | WrongCount | Unassigned(node: nat) | UnknownIdentity(node: nat) | WrongRole(node: nat)
    | WrongChain(node: nat) | NotMovable(node: nat) | Duplicate(node: nat)

  datatype PlaceError =
    | BadName | NoSuchIdentity | IdentityNotMovable | NoSuchNode | NotAValidatorMachine
    | CrossesChains | NotPlaced | NodeUnassigned

  /** Manifest records by identity letter; a repeated letter keeps its last record. */
  function ByIdentity(public: seq<PublicNode>): map<string, PublicNode> {
    if public == [] then map[]
    else ByIdentity(public[..|public| - 1])[public[|public| - 1].identity := public[|public| - 1]]
  }

  lemma {:induction false} ByIdentitySound(public: seq<PublicNode>)
    ensures |ByIdentity(public)| <= |public|
    ensures forall s :: s in ByIdentity(public) ==>
              ByIdentity(public)[s] in public && ByIdentity(public)[s].identity == s
  {
    if public != [] {
      ByIdentitySound(public[..|public| - 1]);
    }
  }

  ghost predicate DistinctLetters(public: seq<PublicNode>) {
    forall i, j :: 0 <= i < j < |public| ==> public[i].identity != public[j].identity
  }

  /** With distinct letters the lookup finds each record under its own letter. */
  lemma {:induction false} ByIdentityAt(public: seq<PublicNode>, r: PublicNode)
    requires DistinctLetters(public) && r in public
    ensures r.identity in ByIdentity(public) && ByIdentity(public)[r.identity] == r
  {
    ByIdentitySound(public);
    AllListed(public, r);
    var s := ByIdentity(public)[r.identity];
    var i :| 0 <= i < |public| && public[i] == r;
    var j :| 0 <= j < |public| && public[j] == s;
    assert i == j;
  }

  lemma {:induction false} AllListed(public: seq<PublicNode>, r: PublicNode)
    requires r in public
    ensures r.identity in ByIdentity(public)
  {
    if r != public[|public| - 1] { AllListed(public[..|public| - 1], r); }
  }

  /** What one machine's assignment must satisfy. */
  predicate Fits(letter: string, records: map<string, PublicNode>, node: Node) {
    && letter in records
    && records[letter].role == node.role
    && records[letter].ChainName() == ChainOf(node)
    && (node.role != Validator ==> records[letter].node == node.number)
  }

  /** Every machine is assigned an identity that fits it. */
  ghost predicate FitsAll(p: Placement, records: map<string, PublicNode>, nodes: seq<Node>) {
    forall i :: 0 <= i < |nodes| ==> nodes[i].number in p && Fits(p[nodes[i].number], records, nodes[i])
  }

  ghost predicate NoRepeat(p: Placement, nodes: seq<Node>)
    requires forall i :: 0 <= i < |nodes| ==> nodes[i].number in p
  {
    forall i, j :: 0 <= i < j < |nodes| ==> p[nodes[i].number] != p[nodes[j].number]
  }

  /** A complete assignment, no identity used twice, every identity fitting its machine. */
  ghost predicate IsValid(p: Placement, public: seq<PublicNode>, nodes: seq<Node>) {
    && |p| == |nodes|
    && FitsAll(p, ByIdentity(public), nodes)
    && NoRepeat(p, nodes)
  }

  /** A valid placement puts on each machine a manifest record of the machine's role and chain, and on
      one that is no validator the record whose home it is. */
  lemma {:induction false} ValidPlaced(p: Placement, public: seq<PublicNode>, nodes: seq<Node>, i: nat)
    requires IsValid(p, public, nodes) && i < |nodes|
    ensures nodes[i].number in p
            && exists r :: r in public && r.identity == p[nodes[i].number] && r.role == nodes[i].role
                           && r.ChainName() == ChainOf(nodes[i])
                           && (nodes[i].role != Validator ==> r.node == nodes[i].number)
  {
    ByIdentitySound(public);
    assert Fits(p[nodes[i].number], ByIdentity(public), nodes[i]);
    assert ByIdentity(public)[p[nodes[i].number]] in public;
  }

  function Numbers(nodes: seq<Node>): set<nat> {
    set i | 0 <= i < |nodes| :: nodes[i].number
  }

  lemma {:induction false} DistinctNumbersCount(nodes: seq<Node>)
    requires DistinctNumbers(nodes)
    ensures |Numbers(nodes)| == |nodes|
  {
    if nodes != [] {
      var init := nodes[..|nodes| - 1];
      var last := nodes[|nodes| - 1].number;
      DistinctNumbersCount(init);
      assert Numbers(nodes) == Numbers(init) + {last} by {
        forall n | n in Numbers(nodes) ensures n in Numbers(init) + {last} {
          var i :| 0 <= i < |nodes| && nodes[i].number == n;
          if i < |init| { assert init[i].number == n; }
        }
        forall n | n in Numbers(init) ensures n in Numbers(nodes) {
          var i :| 0 <= i < |init| && init[i].number == n;
          assert nodes[i].number == n;
        }
      }
      assert last !in Numbers(init);
    }
  }

  ghost predicate Injective(p: Placement) {
    forall m, n :: m in p && n in p && m != n ==> p[m] != p[n]
  }

  /** A valid placement assigns exactly the inventory's machines, and never an identity twice:
      the count test and the loop over the inventory leave no room for a stray entry. */
  lemma {:induction false} ValidIsBijective(p: Placement, public: seq<PublicNode>, nodes: seq<Node>)
    ensures IsValid(p, public, nodes) <==>
            && DistinctNumbers(nodes) && p.Keys == Numbers(nodes)
            && Injective(p) && FitsAll(p, ByIdentity(public), nodes)
  {
    assert |p.Keys| == |p|;
    if IsValid(p, public, nodes) {
      DistinctNumbersCount(nodes);
      SubsetOfSameSize(Numbers(nodes), p.Keys);
      forall m, n | m in p && n in p && m != n ensures p[m] != p[n] {
        var i, j := NodeIndex(nodes, m), NodeIndex(nodes, n);
      }
    } else if DistinctNumbers(nodes) && p.Keys == Numbers(nodes) {
      DistinctNumbersCount(nodes);
    }
  }

  ghost function NodeIndex(nodes: seq<Node>, number: nat): (i: nat)
    requires number in Numbers(nodes)
    ensures i < |nodes| && nodes[i].number == number
  {
    var i :| 0 <= i < |nodes| && nodes[i].number == number;
    i
  }

  /** The source's loop over the inventory with its `seen` map. */
  method Validate(value: Placement, public: seq<PublicNode>, nodes: seq<Node>)
    returns (r: Result<(), PlacementError>)
    ensures r.Ok? <==> IsValid(value, public, nodes)
  {
    if |value| != |nodes| {
      return Err(WrongCount);
    }
    r := ValidateEach(value, ByIdentity(public), nodes);
  }

  method ValidateEach(value: Placement, records: map<string, PublicNode>, nodes: seq<Node>)
    returns (r: Result<(), PlacementError>)
    ensures r.Ok? <==> FitsAll(value, records, nodes) && NoRepeat(value, nodes)
  {
    hide EffectiveChain;
    var seen: map<string, nat> := map[];
    ghost var at: map<string, nat> := map[];
    for k := 0 to |nodes|
      invariant forall i :: 0 <= i < k ==> nodes[i].number in value && Fits(value[nodes[i].number], records, nodes[i])
      invariant forall i :: 0 <= i < k ==> value[nodes[i].number] in at && at[value[nodes[i].number]] == i
      invariant at.Keys == seen.Keys
      invariant forall s :: s in at ==> at[s] < k && value[nodes[at[s]].number] == s
    {
      var node := nodes[k];
      if node.number !in value {
        return Err(Unassigned(node.number));
      }
      var letter := value[node.number];
      if letter !in records {
        return Err(UnknownIdentity(node.number));
      }
      var role := records[letter].role;
      if role != node.role {
        return Err(WrongRole(node.number));
      }
      if records[letter].ChainName() != ChainOf(node) {
        return Err(WrongChain(node.number));
      }
      if role != Validator && records[letter].node != node.number {
        return Err(NotMovable(node.number));
      }
      if letter in seen {
        assert value[nodes[at[letter]].number] == value[nodes[k].number];
        return Err(Duplicate(node.number));
      }
      seen, at := seen[letter := node.number], at[letter := k];
    }
    return Ok(());
  }

  /** The initial bijection, straight from the generated manifest. */
  method Default(public: seq<PublicNode>) returns (p: Placement)
    ensures p == DefaultOf(public)
  {
    p := map[];
    for k := 0 to |public|
      invariant p == DefaultOf(public[..k])
    {
      assert public[..k + 1][..k] == public[..k];
      p := p[public[k].node := public[k].identity];
    }
    assert public[..|public|] == public;
  }

  ghost function DefaultOf(public: seq<PublicNode>): Placement {
    if public == [] then map[]
    else DefaultOf(public[..|public| - 1])[public[|public| - 1].node := public[|public| - 1].identity]
  }

  /** The identities a placement uses. */
  ghost function Range(p: Placement): set<string> {
    set n | n in p :: p[n]
  }

  /** The machine that runs a given identity; unique when the placement is injective. */
  ghost function NodeOf(p: Placement, letter: string): (r: Option<nat>)
    ensures r.Some? ==> r.value in p && p[r.value] == letter
    ensures r.None? <==> letter !in Range(p)
  {
    if exists n :: n in p && p[n] == letter then
      var n :| n in p && p[n] == letter;
      Some(n)
    else None
  }

  /** The machine record with a given number, if the inventory has one. */
  function FindNode(nodes: seq<Node>, number: nat): (r: Option<Node>)
    ensures r.Some? ==> r.value in nodes && r.value.number == number
    ensures r.None? <==> number !in Numbers(nodes)
  {
    if nodes == [] then None
    else if nodes[0].number == number then
      assert number in Numbers(nodes);
      Some(nodes[0])
    else
      var rest := FindNode(nodes[1..], number);
      assert number in Numbers(nodes) <==> number in Numbers(nodes[1..]) by {
        forall i | 0 <= i < |nodes| && nodes[i].number == number
          ensures number in Numbers(nodes[1..])
        {
          assert nodes[1..][i - 1].number == number;
        }
        forall i | 0 <= i < |nodes[1..]| && nodes[1..][i].number == number
          ensures number in Numbers(nodes)
        {
          assert nodes[i + 1].number == number;
        }
      }
      rest
  }

  datatype Inventory = Inventory(nodes: seq<Node>, public: seq<PublicNode>)

  /** The pure half of place: check the request, answer the next placement. Moving an
      identity onto a machine swaps it with whatever that machine held. */
  ghost function PlanPlace(inv: Inventory, p: Placement, letter: string, node: nat): Result<Placement, PlaceError>
  {
    var records := ByIdentity(inv.public);
    var machine := FindNode(inv.nodes, node);
    var source := NodeOf(p, letter);
    if Identity.IndexOf(letter).Err? then Err(BadName)
    else if letter !in records then Err(NoSuchIdentity)
    else if records[letter].role != Validator then Err(IdentityNotMovable)
    else if machine.None? then Err(NoSuchNode)
    else if machine.value.role != Validator then Err(NotAValidatorMachine)
    else if records[letter].ChainName() != ChainOf(machine.value) then Err(CrossesChains)
    else if source.None? then Err(NotPlaced)
    else if node !in p then Err(NodeUnassigned)
    else if source.value == node then Ok(p)
    else Ok(p[node := letter][source.value := p[node]])
  }

  /** NodeOf as the source does it: scan the map until the identity turns up. */
  method FindIdentity(p: Placement, letter: string) returns (r: Option<nat>)
    ensures r.Some? ==> r.value in p && p[r.value] == letter
    ensures r.None? <==> letter !in Range(p)
  {
    var rest := p.Keys;
    while rest != {}
      invariant rest <= p.Keys
      invariant forall n :: n in p && n !in rest ==> p[n] != letter
      decreases |rest|
    {
      var n :| n in rest;
      if p[n] == letter {
        return Some(n);
      }
      rest := rest - {n};
    }
    return None;
  }

  /** planPlace on an inventory whose placement was validated at load. */
  method Plan(inv: Inventory, p: Placement, letter: string, node: nat) returns (r: Result<Placement, PlaceError>)
    requires IsValid(p, inv.public, inv.nodes)
    ensures r == PlanPlace(inv, p, letter, node)
  {
    var index := Identity.Index(letter);
    if index.Err? {
      return Err(BadName);
    }
    var records := ByIdentity(inv.public);
    if letter !in records {
      return Err(NoSuchIdentity);
    }
    if records[letter].role != Validator {
      return Err(IdentityNotMovable);
    }
    var machine := FindNode(inv.nodes, node);
    if machine.None? {
      return Err(NoSuchNode);
    }
    if machine.value.role != Validator {
      return Err(NotAValidatorMachine);
    }
    if records[letter].ChainName() != ChainOf(machine.value) {
      return Err(CrossesChains);
    }
    var source := FindIdentity(p, letter);
    if source.None? {
      return Err(NotPlaced);
    }
    if node !in p {
      return Err(NodeUnassigned);
    }
    ValidIsBijective(p, inv.public, inv.nodes);
    if source.value == node {
      return Ok(p);
    }
    return Ok(p[node := letter][source.value := p[node]]);
  }

  ghost function Swap(p: Placement, a: nat, b: nat): Placement
    requires a in p && b in p
  {
    p[a := p[b]][b := p[a]]
  }

  lemma {:induction false} SwapKeepsInjective(p: Placement, a: nat, b: nat)
    requires Injective(p) && a in p && b in p
    ensures Injective(Swap(p, a, b)) && Swap(p, a, b).Keys == p.Keys
  {
    var q := Swap(p, a, b);
    forall m, n | m in q && n in q && m != n ensures q[m] != q[n] {
      var m' := if m == a then b else if m == b then a else m;
      var n' := if n == a then b else if n == b then a else n;
      assert q[m] == p[m'] && q[n] == p[n'] && m' != n';
    }
  }

  /** What a successful plan is: the swap of two validator machines of one chain. */
  lemma {:induction false} PlanPlaceSwaps(inv: Inventory, p: Placement, letter: string, node: nat)
    requires IsValid(p, inv.public, inv.nodes)
    requires PlanPlace(inv, p, letter, node).Ok?
    ensures node in p && letter in Range(p)
    ensures var source := NodeOf(p, letter);
            source.Some? && p[source.value] == letter
            && PlanPlace(inv, p, letter, node).value == Swap(p, node, source.value)
  {
    var source := NodeOf(p, letter).value;
    assert source == node ==> Swap(p, node, source) == p;
  }

  lemma {:induction false} SwapKeepsFit(inv: Inventory, p: Placement, node: nat, source: nat)
    requires DistinctNumbers(inv.nodes) && FitsAll(p, ByIdentity(inv.public), inv.nodes)
    requires node in p && source in p && p.Keys == Numbers(inv.nodes)
    requires FindNode(inv.nodes, node).Some? && FindNode(inv.nodes, node).value.role == Validator
    requires p[source] in ByIdentity(inv.public) && ByIdentity(inv.public)[p[source]].role == Validator
    requires ByIdentity(inv.public)[p[source]].ChainName() == ChainOf(FindNode(inv.nodes, node).value)
    ensures FitsAll(Swap(p, node, source), ByIdentity(inv.public), inv.nodes)
  {
    hide ByIdentity;
    var records := ByIdentity(inv.public);
    var q := Swap(p, node, source);
    var a, b := NodeIndex(inv.nodes, source), NodeIndex(inv.nodes, node);
    assert Fits(p[source], records, inv.nodes[a]) && Fits(p[node], records, inv.nodes[b]);
    assert FindNode(inv.nodes, node).value == inv.nodes[b];
    forall i | 0 <= i < |inv.nodes|
      ensures inv.nodes[i].number in q && Fits(q[inv.nodes[i].number], records, inv.nodes[i])
    {
      assert Fits(p[inv.nodes[i].number], records, inv.nodes[i]);
    }
  }

  /** A planned move keeps the placement valid, puts the identity where it was asked for and
      changes at most the two machines it swaps. So Place's own Validate call never refuses. */
  lemma {:induction false} PlanPlaceKeepsValid(inv: Inventory, p: Placement, letter: string, node: nat)
    requires IsValid(p, inv.public, inv.nodes)
    requires PlanPlace(inv, p, letter, node).Ok?
    ensures var next := PlanPlace(inv, p, letter, node).value;
            && IsValid(next, inv.public, inv.nodes)
            && next.Keys == p.Keys && node in next && next[node] == letter
            && forall m :: m in p && p[m] != letter && m != node ==> next[m] == p[m]
  {
    ValidIsBijective(p, inv.public, inv.nodes);
    PlanPlaceSwaps(inv, p, letter, node);
    var source := NodeOf(p, letter).value;
    SwapKeepsInjective(p, node, source);
    SwapKeepsFit(inv, p, node, source);
    ValidIsBijective(Swap(p, node, source), inv.public, inv.nodes);
  }

  ghost function MachineOf(nodes: seq<Node>, number: nat): Node
    requires number in Numbers(nodes)
  {
    nodes[NodeIndex(nodes, number)]
  }

  /** When a move is accepted: exactly when a validator identity that some machine runs is
      asked onto a validator machine of the same chain. */
  lemma {:induction false} PlanPlaceAccepts(inv: Inventory, p: Placement, letter: string, node: nat)
    requires IsValid(p, inv.public, inv.nodes) && Identity.IndexOf(letter).Ok?
    requires p.Keys == Numbers(inv.nodes)
    ensures PlanPlace(inv, p, letter, node).Ok? <==>
            && node in p && NodeOf(p, letter).Some?
            && var source := MachineOf(inv.nodes, NodeOf(p, letter).value);
               var target := MachineOf(inv.nodes, node);
               source.role == target.role == Validator && ChainOf(source) == ChainOf(target)
  {
    hide ByIdentity;
    ValidIsBijective(p, inv.public, inv.nodes);
    if node in p && NodeOf(p, letter).Some? {
      var source := MachineOf(inv.nodes, NodeOf(p, letter).value);
      assert Fits(p[source.number], ByIdentity(inv.public), source);
      assert FindNode(inv.nodes, node).value == MachineOf(inv.nodes, node);
    }
  }

  /** Moves undo themselves: placing the displaced identity back restores the placement. */
  lemma {:induction false} PlanPlaceUndo(inv: Inventory, p: Placement, letter: string, node: nat)
    requires IsValid(p, inv.public, inv.nodes)
    requires PlanPlace(inv, p, letter, node).Ok? && Identity.IndexOf(p[node]).Ok?
    ensures PlanPlace(inv, PlanPlace(inv, p, letter, node).value, p[node], node) == Ok(p)
  {
    ValidIsBijective(p, inv.public, inv.nodes);
    PlanPlaceSwaps(inv, p, letter, node);
    PlanPlaceKeepsValid(inv, p, letter, node);
    var source := NodeOf(p, letter).value;
    var next := Swap(p, node, source);
    ValidIsBijective(next, inv.public, inv.nodes);
    PlanPlaceAccepts(inv, p, letter, node);
    assert next[source] == p[node];
    PlanPlaceAccepts(inv, next, p[node], node);
    PlanPlaceSwaps(inv, next, p[node], node);
    assert Swap(next, node, source) == p;
  }
}
