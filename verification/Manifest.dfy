/** The public manifest (internal/creation/public.go): its producer NewPublic, its validator
    Public.Validate, and why the first always satisfies the second. */
module Manifest {
  import opened Wrappers
  import opened Config
  import opened Loader
  import opened Placements
  import Identity
  import StateKeys
  import Reachability
  import FleetModel
  import Creation

  const HIGH_VALIDATOR_COUNT := 3
  const HIGH_WEIGHT := 100000
  const LOW_WEIGHT := 1000
  const MANAGER_WEIGHT := 1000
  const ORACLE_WEIGHT := 1000

  datatype Manager = Manager(identity: string, nodeID: string, weight: nat, signer: Option<bool>)
  datatype Public = Public(genesisAddress: string, feederAddress: string,
                           nodes: seq<PublicNode>, managers: seq<Manager>)

  /** A generated identity; the proof is present exactly for validators. */
  datatype Generated = Generated(name: string, number: nat, role: Role, chain: string,
                                 nodeID: string, proof: Option<bool>)

  function LadderWeight(index: nat): nat { if index < HIGH_VALIDATOR_COUNT then HIGH_WEIGHT else LOW_WEIGHT }

  // ------------------------------------------------------------------------------------------
  // Validate

  /** A record as the inventory's structural rules see it; the weight stands for the explicit flag. */
  function View(n: PublicNode): Node { Node(n.node, "", n.role, n.ChainName(), if n.explicitWeight then 1 else 0) }

  function ViewAll(nodes: seq<PublicNode>): seq<Node> {
    seq(|nodes|, i requires 0 <= i < |nodes| => View(nodes[i]))
  }

  /** Earlier validators of the chain that took a ladder slot. */
  function LadderBefore(nodes: seq<PublicNode>, i: nat, chain: string): nat
    requires i <= |nodes|
  {
    if i == 0 then 0
    else LadderBefore(nodes, i - 1, chain)
         + if nodes[i - 1].role == Validator && !nodes[i - 1].explicitWeight &&
             nodes[i - 1].ChainName() == chain then 1 else 0
  }

  predicate ChainRule(n: PublicNode) {
    n.chain != "" ==> StateKeys.ValidChainName(n.chain) && n.role != PChain && n.chain != StateKeys.MANAGEMENT
  }

  predicate RoleRule(n: PublicNode, ladder: nat) {
    match n.role
    case Validator =>
      && n.signer == Some(true)
      && (if n.explicitWeight then n.weight != 0
          else if n.ChainName() == ORACLE_CHAIN then n.weight == ORACLE_WEIGHT
          else n.weight == LadderWeight(ladder))
    case OracleValidator => false
    case OracleRPC => false
    case _ => n.weight == 0 && !n.explicitWeight && n.signer.None?
  }

  ghost predicate RecordOk(nodes: seq<PublicNode>, i: nat)
    requires i < |nodes|
  {
    && nodes[i].identity == Identity.NameOf(i)
    && nodes[i].node > (if i == 0 then 0 else nodes[i - 1].node)
    && ChainRule(nodes[i]) && RoleRule(nodes[i], LadderBefore(nodes, i, nodes[i].ChainName()))
  }

  ghost predicate ManagerOk(managers: seq<Manager>, i: nat)
    requires i < |managers|
  {
    managers[i].identity == Identity.NameOf(i) && managers[i].weight == MANAGER_WEIGHT &&
        managers[i].signer == Some(true)
  }

  function NodeIDs(p: Public): seq<string> {
    seq(|p.nodes| + |p.managers|, i requires 0 <= i < |p.nodes| + |p.managers| =>
      if i < |p.nodes| then p.nodes[i].nodeID else p.managers[i - |p.nodes|].nodeID)
  }

  ghost predicate AllDistinct(s: seq<string>) {
    forall i, j :: 0 <= i < j < |s| ==> s[i] != s[j]
  }

  predicate HexDigit(c: char) { '0' <= c <= '9' || 'a' <= c <= 'f' || 'A' <= c <= 'F' }

  /** An EVM address: 40 hexadecimal digits, with or without the prefix. */
  predicate IsHexAddress(s: string) {
    var digits := if |s| >= 2 && s[0] == '0' && (s[1] == 'x' || s[1] == 'X') then s[2..] else s;
    |digits| == 40 && forall i :: 0 <= i < 40 ==> HexDigit(digits[i])
  }

  /** How a NodeID string parses; the encoding itself is abstract. */
  type Parser = string -> Option<nat>

  /** Every string parses, each to its own NodeID. */
  ghost predicate DistinctParsed(s: seq<string>, parse: Parser) {
    && (forall i :: 0 <= i < |s| ==> parse(s[i]).Some?)
    && forall i, j :: 0 <= i < j < |s| ==> parse(s[i]) != parse(s[j])
  }

  /** The manifests Validate accepts. */
  ghost predicate ValidPublic(p: Public, parse: Parser) {
    && IsHexAddress(p.genesisAddress) && IsHexAddress(p.feederAddress)
    && (forall i :: 0 <= i < |p.nodes| ==> RecordOk(p.nodes, i))
    && DistinctParsed(NodeIDs(p), parse)
    && OnePChain(ViewAll(p.nodes)) && ChainsServed(ViewAll(p.nodes)) && AllOrNone(ViewAll(p.nodes))
    && (|p.managers| == 1 || |p.managers| == 4)
    && (forall i :: 0 <= i < |p.managers| ==> ManagerOk(p.managers, i))
  }

  datatype ManifestError =
    | BadAddress | NoNodes | Mixed | BadNode(index: nat) | BadShape
    | BadManagerCount | BadManager(index: nat) | BadNodeID(index: nat)

  /** A named chain must fit the naming rule, and is never the P-chain node's or "management". */
  method CheckChain(n: PublicNode) returns (ok: bool)
    ensures ok <==> ChainRule(n)
  {
    if n.chain != "" {
      if !StateKeys.ValidChainName(n.chain) { return false; }
      if n.role == PChain { return false; }
      if n.chain == "management" { return false; }
    }
    return true;
  }

  /** The weight, explicit flag and signer that a role allows. */
  method CheckRole(n: PublicNode, ladder: nat) returns (ok: bool)
    ensures ok <==> RoleRule(n, ladder)
  {
    hide EffectiveChain;
    match n.role {
      case Validator =>
        if n.explicitWeight {
          if n.weight == 0 { return false; }
        } else if n.ChainName() == ORACLE_CHAIN {
          if n.weight != 1000 { return false; }
        } else {
          var expected := 1000;
          if ladder < 3 { expected := 100000; }
          if n.weight != expected { return false; }
        }
        if n.signer.None? { return false; }
        return n.signer.value;
      case RPC => return n.weight == 0 && !n.explicitWeight && n.signer.None?;
      case Archive => return n.weight == 0 && !n.explicitWeight && n.signer.None?;
      case PChain => return n.weight == 0 && !n.explicitWeight && n.signer.None?;
      case _ => return false;
    }
  }

  method CheckRecords(nodes: seq<PublicNode>) returns (bad: Option<nat>)
    ensures bad.None? <==> forall i :: 0 <= i < |nodes| ==> RecordOk(nodes, i)
  {
    hide ChainRule, EffectiveChain, LadderWeight, RoleRule, RecordOk, Identity.NameOf;
    var ladder: map<string, nat> := map[];
    var previous: nat := 0;
    for i := 0 to |nodes|
      invariant forall j :: 0 <= j < i ==> RecordOk(nodes, j)
      invariant previous == if i == 0 then 0 else nodes[i - 1].node
      invariant forall c :: c != ORACLE_CHAIN ==> Get(ladder, c) == LadderBefore(nodes, i, c)
    {
      var n := nodes[i];
      var chain := n.ChainName();
      var expected := Identity.Name(i);
      RecordRule(nodes, i);
      OracleIgnoresLadder(n, Get(ladder, chain), LadderBefore(nodes, i, chain));
      if n.identity != expected || n.node <= previous {
        return Some(i);
      }
      var chainOk := CheckChain(n);
      var roleOk := CheckRole(n, Get(ladder, chain));
      if !chainOk || !roleOk {
        return Some(i);
      }
      previous := n.node;
      if n.role == Validator && !n.explicitWeight && chain != ORACLE_CHAIN {
        ghost var was := ladder;
        ladder := ladder[chain := Get(ladder, chain) + 1];
        assert forall c :: c != chain ==> Get(ladder, c) == Get(was, c);
      }
    }
    return None;
  }

  lemma {:induction false} RecordRule(nodes: seq<PublicNode>, i: nat)
    requires i < |nodes|
    ensures RecordOk(nodes, i) <==>
            && nodes[i].identity == Identity.NameOf(i)
            && nodes[i].node > (if i == 0 then 0 else nodes[i - 1].node)
            && ChainRule(nodes[i]) && RoleRule(nodes[i], LadderBefore(nodes, i, nodes[i].ChainName()))
  {
  }

  lemma {:induction false} OracleIgnoresLadder(n: PublicNode, a: nat, b: nat)
    ensures n.ChainName() == ORACLE_CHAIN ==> (RoleRule(n, a) <==> RoleRule(n, b))
  {
  }

  method CheckNodeIDs(s: seq<string>, parse: Parser) returns (bad: Option<nat>)
    ensures bad.None? <==> DistinctParsed(s, parse)
  {
    var seen: set<nat> := {};
    for i := 0 to |s|
      invariant forall x :: x in seen <==> exists j :: 0 <= j < i && parse(s[j]) == Some(x)
      invariant DistinctParsed(s[..i], parse)
    {
      var id := parse(s[i]);
      if id.None? { return Some(i); }
      if id.value in seen {
        ghost var j :| 0 <= j < i && parse(s[j]) == Some(id.value);
        return Some(i);
      }
      seen := seen + {id.value};
    }
    assert s[..|s|] == s;
    return None;
  }

  /** Public.Validate accepts exactly the valid manifests. */
  method Validate(p: Public, parse: Parser) returns (r: Option<ManifestError>)
    ensures r.None? <==> ValidPublic(p, parse)
  {
    hide OnePChain, ChainsServed, AllOrNone, RecordOk, ManagerOk, DistinctParsed, NodeIDs, IsHexAddress;
    if !IsHexAddress(p.genesisAddress) || !IsHexAddress(p.feederAddress) { return Some(BadAddress); }
    if p.nodes == [] {
      NoNodesNoPChain();
      return Some(NoNodes);
    }
    var views := ViewAll(p.nodes);
    var uniform := WeightsUniform(views);
    if !uniform { return Some(Mixed); }
    var bad := CheckRecords(p.nodes);
    if bad.Some? { return Some(BadNode(bad.value)); }
    ViewsShaped(p.nodes);
    var pchains := CountPChain(views);
    if pchains != 1 { return Some(BadShape); }
    var unserved := CheckChains(views);
    if unserved.Some? { return Some(BadShape); }
    if |p.managers| != 1 && |p.managers| != 4 { return Some(BadManagerCount); }
    for i := 0 to |p.managers|
      invariant forall j :: 0 <= j < i ==> ManagerOk(p.managers, j)
    {
      var expected := Identity.Name(i);
      var m := p.managers[i];
      ManagerRule(p.managers, i);
      if m.identity != expected || m.weight != MANAGER_WEIGHT || m.signer != Some(true) { return Some(BadManager(i)); }
    }
    var unparsed := CheckNodeIDs(NodeIDs(p), parse);
    if unparsed.Some? { return Some(BadNodeID(unparsed.value)); }
    return None;
  }

  lemma {:induction false} ManagerRule(managers: seq<Manager>, i: nat)
    requires i < |managers|
    ensures ManagerOk(managers, i) <==>
            managers[i].identity == Identity.NameOf(i) && managers[i].weight == MANAGER_WEIGHT &&
                managers[i].signer == Some(true)
  {
  }

  lemma {:induction false} NoNodesNoPChain()
    ensures !OnePChain(ViewAll([]))
  {
  }

  lemma {:induction false} NumbersRise(nodes: seq<PublicNode>, i: nat, j: nat)
    requires forall k :: 0 <= k < |nodes| ==> RecordOk(nodes, k)
    requires i < j < |nodes|
    ensures 0 < nodes[i].node < nodes[j].node
    decreases j
  {
    hide ChainRule, RoleRule, LadderBefore, Identity.NameOf;
    assert RecordOk(nodes, j) && RecordOk(nodes, i);
    if i < j - 1 { NumbersRise(nodes, i, j - 1); }
  }

  lemma {:induction false} ViewsShaped(nodes: seq<PublicNode>)
    requires forall i :: 0 <= i < |nodes| ==> RecordOk(nodes, i)
    ensures DistinctNumbers(ViewAll(nodes))
    ensures forall i :: 0 <= i < |nodes| && ViewAll(nodes)[i].role == PChain ==> ViewAll(nodes)[i].chain == ""
  {
    hide RoleRule, LadderBefore, Identity.NameOf, StateKeys.ValidChainName;
    forall i, j | 0 <= i < j < |nodes| ensures nodes[i].node != nodes[j].node { NumbersRise(nodes, i, j); }
    forall i | 0 <= i < |nodes| && nodes[i].role == PChain ensures View(nodes[i]).chain == "" {
      assert RecordOk(nodes, i);
    }
  }

  // ------------------------------------------------------------------------------------------
  // What validation guarantees the other components

  lemma {:induction false} NamesDiffer(i: nat, j: nat)
    requires i != j
    ensures Identity.NameOf(i) != Identity.NameOf(j)
  {
    hide Identity.NameOf, Identity.Value;
    assert Identity.Value(Identity.NameOf(i)) == i + 1 && Identity.Value(Identity.NameOf(j)) == j + 1;
  }

  /** A valid manifest has the letters, numbers and NodeIDs that placement relies on. */
  lemma {:induction false} ValidIsSound(p: Public, parse: Parser)
    requires ValidPublic(p, parse) && |p.nodes| <= Identity.MAX_INT
    ensures Reachability.SoundManifest(p.nodes) && FleetModel.DistinctNodeIDs(p.nodes)
  {
    hide OnePChain, ChainsServed, AllOrNone, RecordOk, ManagerOk, Identity.NameOf, Identity.IndexOf, DistinctParsed;
    hide NodeIDs, FleetModel.DistinctNodeIDs, IsHexAddress;
    forall i, j | 0 <= i < j < |p.nodes|
      ensures p.nodes[i].identity != p.nodes[j].identity && p.nodes[i].node != p.nodes[j].node
    {
      RecordRule(p.nodes, i);
      RecordRule(p.nodes, j);
      NamesDiffer(i, j);
      NumbersRise(p.nodes, i, j);
    }
    forall i | 0 <= i < |p.nodes| ensures Identity.IndexOf(p.nodes[i].identity).Ok? {
      RecordRule(p.nodes, i);
      Identity.NameIndexInverse(i, "");
    }
    DistinctIDs(p, parse);
  }

  lemma {:induction false} DistinctIDs(p: Public, parse: Parser)
    requires DistinctParsed(NodeIDs(p), parse)
    ensures FleetModel.DistinctNodeIDs(p.nodes)
  {
    var records := ByIdentity(p.nodes);
    ByIdentitySound(p.nodes);
    hide ByIdentity;
    forall s, t | s in records && t in records && s != t ensures records[s].nodeID != records[t].nodeID {
      var i :| 0 <= i < |p.nodes| && p.nodes[i] == records[s];
      var j :| 0 <= j < |p.nodes| && p.nodes[j] == records[t];
      assert NodeIDs(p)[i] == p.nodes[i].nodeID && NodeIDs(p)[j] == p.nodes[j].nodeID;
    }
  }

  /** The labels are exactly management and the chains some record is on. */
  lemma {:induction false} CreationLabelsExact(p: Public, parse: Parser, chains: seq<string>, c: string)
    requires ValidPublic(p, parse)
    requires forall c :: c in chains <==>
               c != "" && c != ORACLE_CHAIN && exists i :: 0 <= i < |p.nodes| && p.nodes[i].ChainName() == c
    ensures c in Creation.Labels(HasRole(ViewAll(p.nodes), Validator, ORACLE_CHAIN), chains)
            <==> c == "management" || (c != "" && exists i :: 0 <= i < |p.nodes| && p.nodes[i].ChainName() == c)
  {
    hide OnePChain, AllOrNone, RecordOk, ManagerOk, DistinctParsed, IsHexAddress, EffectiveChain;
    var views := ViewAll(p.nodes);
    if i :| 0 <= i < |p.nodes| && p.nodes[i].ChainName() == ORACLE_CHAIN {
      assert views[i] in views && views[i].chain == ORACLE_CHAIN;
    }
    if HasRole(views, Validator, ORACLE_CHAIN) {
      var i :| 0 <= i < |views| && views[i].role == Validator && views[i].chain == ORACLE_CHAIN;
      assert p.nodes[i].ChainName() == ORACLE_CHAIN;
    }
  }

  /** Every NodeID of a valid manifest parses, and no two of its nodes and managers share one. */
  lemma {:induction false} ValidNodeIDs(p: Public, parse: Parser)
    requires ValidPublic(p, parse)
    ensures forall n :: n in p.nodes ==> parse(n.nodeID).Some?
    ensures forall m :: m in p.managers ==> parse(m.nodeID).Some?
    ensures forall i, j :: 0 <= i < j < |p.nodes| ==> parse(p.nodes[i].nodeID) != parse(p.nodes[j].nodeID)
    ensures forall i, j :: 0 <= i < j < |p.managers| ==> parse(p.managers[i].nodeID) != parse(p.managers[j].nodeID)
    ensures forall i, j :: 0 <= i < |p.nodes| && 0 <= j < |p.managers| ==>
              parse(p.nodes[i].nodeID) != parse(p.managers[j].nodeID)
  {
    hide OnePChain, ChainsServed, AllOrNone, RecordOk, ManagerOk, IsHexAddress;
    var ids, n := NodeIDs(p), |p.nodes|;
    assert forall i :: 0 <= i < n ==> ids[i] == p.nodes[i].nodeID;
    assert forall j :: 0 <= j < |p.managers| ==> ids[n + j] == p.managers[j].nodeID;
    hide NodeIDs;
  }

  /** Creation's label list is well formed for every valid manifest, whatever the chain order. */
  lemma {:induction false} CreationLabelsValid(p: Public, parse: Parser, chains: seq<string>)
    requires ValidPublic(p, parse) && AllDistinct(chains)
    requires forall c :: c in chains <==>
               c != "" && c != ORACLE_CHAIN && exists i :: 0 <= i < |p.nodes| && p.nodes[i].ChainName() == c
    ensures Creation.ValidLabels(Creation.Labels(HasRole(ViewAll(p.nodes), Validator, ORACLE_CHAIN), chains))
  {
    hide OnePChain, ChainsServed, AllOrNone, RecordOk, ManagerOk, Identity.NameOf, HasRole, StateKeys.ValidL1;
    forall c | c in chains ensures StateKeys.ValidL1(c) && c != StateKeys.MANAGEMENT && c != StateKeys.ORACLE {
      var i :| 0 <= i < |p.nodes| && p.nodes[i].ChainName() == c;
      RecordRule(p.nodes, i);
      ChainIsLabel(p.nodes[i]);
    }
    var oracle := HasRole(ViewAll(p.nodes), Validator, ORACLE_CHAIN);
    hide ValidPublic;
    LabelsFrom(oracle, chains);
  }

  lemma {:induction false} ChainIsLabel(n: PublicNode)
    requires ChainRule(n)
    ensures n.ChainName() == "" || (StateKeys.ValidL1(n.ChainName()) && n.ChainName() != StateKeys.MANAGEMENT)
  {
  }

  lemma {:induction false} LabelsFrom(oracle: bool, chains: seq<string>)
    requires AllDistinct(chains)
    requires forall c :: c in chains ==> StateKeys.ValidL1(c) && c != StateKeys.MANAGEMENT && c != StateKeys.ORACLE
    ensures Creation.ValidLabels(Creation.Labels(oracle, chains))
  {
    assert StateKeys.ValidL1(StateKeys.MANAGEMENT) && StateKeys.ValidL1(StateKeys.ORACLE);
    assert StateKeys.MANAGEMENT != StateKeys.ORACLE;
    hide StateKeys.ValidL1;
    assert forall k :: 0 <= k < |chains| ==> chains[k] in chains;
  }

  // ------------------------------------------------------------------------------------------
  // NewPublic

  /** The explicit weight tags, by node number. */
  function Tags(nodes: seq<Node>): map<nat, nat> {
    if nodes == [] then map[]
    else
      var rest := Tags(nodes[..|nodes| - 1]);
      var last := nodes[|nodes| - 1];
      if last.weight > 0 then rest[last.number := last.weight] else rest
  }

  /** Earlier validators of the chain, tagged or not. */
  function ValidatorsBefore(g: seq<Generated>, i: nat, chain: string): nat
    requires i <= |g|
  {
    if i == 0 then 0
    else ValidatorsBefore(g, i - 1, chain)
         + if g[i - 1].role == Validator && EffectiveChain(g[i - 1].role, g[i - 1].chain) == chain then 1 else 0
  }

  function DefaultWeight(g: seq<Generated>, i: nat): nat
    requires i < |g|
  {
    var chain := EffectiveChain(g[i].role, g[i].chain);
    if g[i].role != Validator then 0
    else if chain == ORACLE_CHAIN then ORACLE_WEIGHT
    else LadderWeight(ValidatorsBefore(g, i, chain))
  }

  function RecordAt(g: seq<Generated>, tags: map<nat, nat>, i: nat): PublicNode
    requires i < |g|
  {
    var chain := EffectiveChain(g[i].role, g[i].chain);
    var tagged := g[i].number in tags;
    PublicNode(g[i].name, g[i].number, g[i].role,
               if chain != EffectiveChain(g[i].role, "") then chain else "",
               g[i].nodeID, if tagged then tags[g[i].number] else DefaultWeight(g, i), tagged, g[i].proof)
  }

  function ManagerAt(g: Generated): Manager { Manager(g.name, g.nodeID, MANAGER_WEIGHT, g.proof) }

  /** The two EVM addresses, genesis and feeder. */
  datatype Addresses = Addresses(genesis: string, feeder: string)

  function PublicOf(g: seq<Generated>, managers: seq<Generated>, nodes: seq<Node>, a: Addresses): Public {
    Public(a.genesis, a.feeder,
           seq(|g|, i requires 0 <= i < |g| => RecordAt(g, Tags(nodes), i)),
           seq(|managers|, i requires 0 <= i < |managers| => ManagerAt(managers[i])))
  }

  method TagMap(nodes: seq<Node>) returns (tags: map<nat, nat>)
    ensures tags == Tags(nodes)
  {
    tags := map[];
    for i := 0 to |nodes|
      invariant tags == Tags(nodes[..i])
    {
      assert nodes[..i + 1][..i] == nodes[..i];
      if nodes[i].weight > 0 { tags := tags[nodes[i].number := nodes[i].weight]; }
    }
    assert nodes[..|nodes|] == nodes;
  }

  method NewPublic(g: seq<Generated>, managers: seq<Generated>, nodes: seq<Node>, a: Addresses) returns (p: Public)
    ensures p == PublicOf(g, managers, nodes, a)
    ensures p.genesisAddress == a.genesis && p.feederAddress == a.feeder
    ensures |p.nodes| == |g| && forall i :: 0 <= i < |g| ==>
              p.nodes[i].identity == g[i].name && p.nodes[i].node == g[i].number && p.nodes[i].role == g[i].role
              && p.nodes[i].nodeID == g[i].nodeID && p.nodes[i].signer == g[i].proof
    ensures |p.managers| == |managers| && forall i :: 0 <= i < |managers| ==>
              p.managers[i] == Manager(managers[i].name, managers[i].nodeID, 1000, managers[i].proof)
  {
    hide EffectiveChain, LadderWeight;
    var tags := TagMap(nodes);
    hide Tags;
    var records: seq<PublicNode> := [];
    var index: map<string, nat> := map[];
    for i := 0 to |g|
      invariant |records| == i && forall j :: 0 <= j < i ==> records[j] == RecordAt(g, tags, j)
      invariant forall c :: c != ORACLE_CHAIN ==> Get(index, c) == ValidatorsBefore(g, i, c)
    {
      var chain := EffectiveChain(g[i].role, g[i].chain);
      var record := PublicNode(g[i].name, g[i].number, g[i].role, "", g[i].nodeID, 0, false, g[i].proof);
      if chain != EffectiveChain(g[i].role, "") { record := record.(chain := chain); }
      if g[i].role == Validator {
        if chain == ORACLE_CHAIN {
          record := record.(weight := ORACLE_WEIGHT);
        } else {
          record := record.(weight := LadderWeight(Get(index, chain)));
          ghost var was := index;
          index := index[chain := Get(index, chain) + 1];
          assert forall c :: c != chain ==> Get(index, c) == Get(was, c);
        }
      }
      if g[i].number in tags { record := record.(weight := tags[g[i].number], explicitWeight := true); }
      records := records + [record];
    }
    p := Public(a.genesis, a.feeder, records,
                seq(|managers|, i requires 0 <= i < |managers| => ManagerAt(managers[i])));
  }

  // ------------------------------------------------------------------------------------------
  // NewPublic satisfies Validate

  /** What key generation makes of an inventory: names by position, a proof per validator. */
  ghost predicate GeneratedFrom(g: seq<Generated>, nodes: seq<Node>) {
    && |g| == |nodes|
    && forall i :: 0 <= i < |g| ==>
         && g[i].name == Identity.NameOf(i) && g[i].number == nodes[i].number && g[i].role == nodes[i].role
         && g[i].chain == ChainOf(nodes[i])
         && g[i].proof == if nodes[i].role == Validator then Some(true) else None
  }

  ghost predicate GeneratedManagers(g: seq<Generated>) {
    && (|g| == 1 || |g| == 4)
    && forall i :: 0 <= i < |g| ==> g[i].name == Identity.NameOf(i) && g[i].proof == Some(true)
  }

  lemma {:induction false} TagsExact(nodes: seq<Node>, k: nat)
    requires k <= |nodes| && DistinctNumbers(nodes)
    ensures forall x :: x in Tags(nodes[..k]) <==> exists i :: 0 <= i < k && nodes[i].number == x && nodes[i].weight > 0
    ensures forall i :: 0 <= i < k && nodes[i].weight > 0 ==>
              nodes[i].number in Tags(nodes[..k]) && Tags(nodes[..k])[nodes[i].number] == nodes[i].weight
  {
    if k > 0 {
      TagsExact(nodes, k - 1);
      assert nodes[..k][..k - 1] == nodes[..k - 1];
    }
  }

  /** A record keeps the inventory's role, number, chain (through the elided field) and tag. */
  ghost predicate Keeps(r: PublicNode, n: Node) {
    r.role == n.role && r.node == n.number && r.ChainName() == n.chain && (r.explicitWeight <==> n.weight > 0)
  }

  lemma {:induction false} ElidedChain(role: Role, chain: string)
    ensures EffectiveChain(role, if chain != EffectiveChain(role, "") then chain else "") == EffectiveChain(role, chain)
    ensures EffectiveChain(role, EffectiveChain(role, chain)) == EffectiveChain(role, chain)
  {
  }

  lemma {:induction false} ShapedRole(n: Node)
    requires WellShaped(n)
    ensures n.role != OracleValidator && n.role != OracleRPC && (n.role == PChain <==> n.chain == "")
  {
    hide StateKeys.ValidChainName;
  }

  lemma {:induction false} ShapedChain(n: Node)
    requires WellShaped(n)
    ensures ChainOf(n) == n.chain
  {
  }

  lemma {:induction false} RecordKeeps(g: seq<Generated>, nodes: seq<Node>, i: nat)
    requires Accepted(nodes) && GeneratedFrom(g, nodes) && i < |nodes|
    ensures Keeps(RecordAt(g, Tags(nodes), i), nodes[i])
    ensures EffectiveChain(g[i].role, g[i].chain) == nodes[i].chain
    ensures RecordAt(g, Tags(nodes), i).chain == if nodes[i].chain == "main" then "" else nodes[i].chain
    ensures RecordAt(g, Tags(nodes), i).weight == if nodes[i].weight > 0 then nodes[i].weight else DefaultWeight(g, i)
  {
    hide OnePChain, ChainsServed, AllOrNone, WellShaped, Identity.NameOf, EffectiveChain, DefaultWeight;
    assert nodes[i] in nodes;
    ShapedChain(nodes[i]);
    ChainDefaults(nodes[i].chain);
    ShapedRole(nodes[i]);
    ElidedChain(nodes[i].role, nodes[i].chain);
    assert nodes[..|nodes|] == nodes;
    TagsExact(nodes, |nodes|);
    hide Tags;
    assert forall k :: 0 <= k < |nodes| && nodes[k].number == nodes[i].number ==> k == i;
  }

  ghost predicate BuiltWith(records: seq<PublicNode>, g: seq<Generated>, tags: map<nat, nat>) {
    |records| == |g| && forall i :: 0 <= i < |g| ==> records[i] == RecordAt(g, tags, i)
  }

  /** The earlier validators of a chain. */
  ghost function EarlierValidators(g: seq<Generated>, i: nat, chain: string): set<nat>
    requires i <= |g|
  {
    set j: nat | j < i && g[j].role == Validator && EffectiveChain(g[j].role, g[j].chain) == chain
  }

  lemma {:induction false} ValidatorsCounted(g: seq<Generated>, i: nat, chain: string)
    requires i <= |g|
    ensures ValidatorsBefore(g, i, chain) == |EarlierValidators(g, i, chain)|
  {
    hide EffectiveChain;
    if i > 0 {
      ValidatorsCounted(g, i - 1, chain);
      var here := g[i - 1].role == Validator && EffectiveChain(g[i - 1].role, g[i - 1].chain) == chain;
      assert EarlierValidators(g, i, chain) == EarlierValidators(g, i - 1, chain) + if here then {i - 1} else {};
    }
  }

  /** The weight an inventory's node gets: its tag; else 1000 on the oracle chain, 100000 for a chain's
      first three validators and 1000 for the rest; and none for other roles. */
  lemma {:induction false} RecordWeight(g: seq<Generated>, nodes: seq<Node>, i: nat)
    requires Accepted(nodes) && GeneratedFrom(g, nodes) && i < |nodes|
    ensures RecordAt(g, Tags(nodes), i).weight ==
            if nodes[i].weight > 0 then nodes[i].weight
            else if nodes[i].role != Validator then 0
            else if nodes[i].chain == "oracle" then 1000
            else if |EarlierValidators(g, i, nodes[i].chain)| < 3 then 100000
            else 1000
  {
    RecordKeeps(g, nodes, i);
    ValidatorsCounted(g, i, nodes[i].chain);
    hide Accepted, RecordAt, Tags, EffectiveChain, ValidatorsBefore;
  }

  /** The producer's counter and the validator's agree at a default-weight validator, because its
      whole chain is then untagged. */
  lemma {:induction false} LaddersAgree(records: seq<PublicNode>, g: seq<Generated>, nodes: seq<Node>, i: nat,
                                        chain: string)
    requires Accepted(nodes) && GeneratedFrom(g, nodes) && BuiltWith(records, g, Tags(nodes)) && i <= |nodes|
    requires forall n :: n in nodes && n.role == Validator && n.chain == chain ==> n.weight == 0
    ensures LadderBefore(records, i, chain) == ValidatorsBefore(g, i, chain)
  {
    hide Accepted, Identity.NameOf, EffectiveChain, Tags, RecordAt;
    if i > 0 {
      LaddersAgree(records, g, nodes, i - 1, chain);
      RecordKeeps(g, nodes, i - 1);
      assert nodes[i - 1] in nodes;
    }
  }

  lemma {:induction false} RecordPasses(records: seq<PublicNode>, g: seq<Generated>, nodes: seq<Node>, i: nat)
    requires Accepted(nodes) && GeneratedFrom(g, nodes) && BuiltWith(records, g, Tags(nodes)) && i < |nodes|
    ensures RecordOk(records, i)
  {
    hide OnePChain, ChainsServed, Identity.NameOf, EffectiveChain, Tags, LadderBefore, ValidatorsBefore, RoleRule;
    hide ChainRule, LadderWeight;
    RecordKeeps(g, nodes, i);
    if i > 0 { RecordKeeps(g, nodes, i - 1); }
    assert nodes[i] in nodes && WellShaped(nodes[i]);
    hide WellShaped;
    if nodes[i].role == Validator && nodes[i].weight == 0 {
      LaddersAgree(records, g, nodes, i, nodes[i].chain);
    }
    hide Accepted;
    RecordChainRule(records[i], nodes[i]);
    RecordRoleRule(records[i], nodes[i], g, i, LadderBefore(records, i, nodes[i].chain));
  }

  lemma {:induction false} RecordChainRule(r: PublicNode, n: Node)
    requires WellShaped(n) && Keeps(r, n)
    ensures ChainRule(r)
  {
    hide StateKeys.ValidChainName;
  }

  lemma {:induction false} RecordRoleRule(r: PublicNode, n: Node, g: seq<Generated>, i: nat, ladder: nat)
    requires WellShaped(n) && Keeps(r, n) && i < |g| && g[i].role == n.role &&
               EffectiveChain(g[i].role, g[i].chain) == n.chain
    requires r.signer == if n.role == Validator then Some(true) else None
    requires r.weight == if n.weight > 0 then n.weight else DefaultWeight(g, i)
    requires n.role == Validator && n.weight == 0 ==> ladder == ValidatorsBefore(g, i, n.chain)
    ensures RoleRule(r, ladder)
  {
    hide StateKeys.ValidChainName, EffectiveChain, ValidatorsBefore, LadderWeight;
  }

  /** The views agree with the nodes on what the structural rules look at. */
  ghost predicate Mirrors(views: seq<Node>, nodes: seq<Node>) {
    |nodes| == |views| && forall i :: 0 <= i < |nodes| ==> Mirror(views[i], nodes[i])
  }

  ghost predicate Mirror(v: Node, n: Node) {
    v.role == n.role && v.number == n.number && v.chain == n.chain && v.host == ""
    && v.weight == if n.weight > 0 then 1 else 0
  }

  lemma {:induction false} RoleCarries(nodes: seq<Node>, views: seq<Node>, role: Role, chain: string)
    requires Mirrors(views, nodes) && HasRole(nodes, role, chain)
    ensures HasRole(views, role, chain)
  {
    var i :| 0 <= i < |nodes| && nodes[i].role == role && nodes[i].chain == chain;
    assert Mirror(views[i], nodes[i]);
  }

  lemma {:induction false} ViewHasNode(nodes: seq<Node>, views: seq<Node>, v: Node) returns (n: Node)
    requires Mirrors(views, nodes) && v in views
    ensures n in nodes && Mirror(v, n)
  {
    var i :| 0 <= i < |views| && views[i] == v;
    n := nodes[i];
  }

  /** Structural rules carry over to the records' views. */
  lemma {:induction false} StructureCarries(nodes: seq<Node>, views: seq<Node>)
    requires Mirrors(views, nodes) && Accepted(nodes)
    ensures OnePChain(views) && ChainsServed(views) && AllOrNone(views)
  {
    hide WellShaped, Increasing, HasRole, Mirrors;
    RoleCarries(nodes, views, PChain, "");
    forall m, n | m in views && n in views
      ensures m.role == PChain && n.role == PChain ==> m == n
      ensures m.role == Validator && n.role == Validator && m.chain == n.chain ==> (m.weight > 0 <==> n.weight > 0)
    {
      var a := ViewHasNode(nodes, views, m);
      var b := ViewHasNode(nodes, views, n);
    }
    forall n | n in views && n.chain != ""
      ensures HasRole(views, Validator, n.chain) && (n.chain == ORACLE_CHAIN ==> HasRole(views, RPC, ORACLE_CHAIN))
    {
      var a := ViewHasNode(nodes, views, n);
      RoleCarries(nodes, views, Validator, n.chain);
      if n.chain == ORACLE_CHAIN { RoleCarries(nodes, views, RPC, ORACLE_CHAIN); }
    }
  }

  /** Every manifest generated from an accepted inventory, with distinct NodeIDs, is valid. */
  lemma {:induction false} NewPublicIsValid(g: seq<Generated>, managers: seq<Generated>, nodes: seq<Node>, a: Addresses,
                                             parse: Parser)
    requires Accepted(nodes) && GeneratedFrom(g, nodes) && GeneratedManagers(managers)
    requires IsHexAddress(a.genesis) && IsHexAddress(a.feeder) &&
               DistinctParsed(NodeIDs(PublicOf(g, managers, nodes, a)), parse)
    ensures ValidPublic(PublicOf(g, managers, nodes, a), parse)
  {
    hide Accepted, RecordOk, Identity.NameOf, Tags, RecordAt, EffectiveChain, DistinctParsed, NodeIDs, IsHexAddress;
    var p := PublicOf(g, managers, nodes, a);
    forall i | 0 <= i < |p.nodes| ensures RecordOk(p.nodes, i) {
      RecordPasses(p.nodes, g, nodes, i);
    }
    forall i | 0 <= i < |p.nodes| ensures Mirror(ViewAll(p.nodes)[i], nodes[i]) {
      RecordKeeps(g, nodes, i);
    }
    StructureCarries(nodes, ViewAll(p.nodes));
    hide OnePChain, ChainsServed, AllOrNone;
  }

  // ------------------------------------------------------------------------------------------
  // Mixed chains

  /** A validator of the chain with or without a weight tag. */
  predicate OnChain(g: seq<Generated>, tags: map<nat, nat>, chain: string, tagged: bool, i: nat)
    requires i < |g|
  {
    g[i].role == Validator && EffectiveChain(g[i].role, g[i].chain) == chain && (g[i].number in tags) == tagged
  }

  /** The validator would expect another ladder weight than the producer wrote. */
  ghost predicate Misweighed(records: seq<PublicNode>, g: seq<Generated>, tags: map<nat, nat>, chain: string, i: nat)
    requires |records| == |g| && i < |g|
  {
    OnChain(g, tags, chain, false, i) && records[i].weight != LadderWeight(LadderBefore(records, i, chain))
  }

  lemma {:induction false} CountersStep(records: seq<PublicNode>, g: seq<Generated>, tags: map<nat, nat>,
                                        chain: string, i: nat)
    requires BuiltWith(records, g, tags) && i < |g|
    ensures LadderBefore(records, i + 1, chain)
            == LadderBefore(records, i, chain) + if OnChain(g, tags, chain, false, i) then 1 else 0
    ensures ValidatorsBefore(g, i + 1, chain)
            == ValidatorsBefore(g, i, chain)
               + if OnChain(g, tags, chain, false, i) || OnChain(g, tags, chain, true, i) then 1 else 0
    ensures OnChain(g, tags, chain, false, i) && chain != ORACLE_CHAIN ==>
              records[i].weight == LadderWeight(ValidatorsBefore(g, i, chain))
  {
    hide EffectiveChain;
    ElidedChain(g[i].role, g[i].chain);
  }

  /** A tagged validator among the chain's first three. */
  ghost predicate EarlyTag(g: seq<Generated>, tags: map<nat, nat>, chain: string, i: nat)
    requires i < |g|
  {
    OnChain(g, tags, chain, true, i) && ValidatorsBefore(g, i, chain) < HIGH_VALIDATOR_COUNT
  }

  /** An untagged validator after the chain's first three. */
  ghost predicate LateDefault(g: seq<Generated>, tags: map<nat, nat>, chain: string, i: nat)
    requires i < |g|
  {
    OnChain(g, tags, chain, false, i) && ValidatorsBefore(g, i, chain) >= HIGH_VALIDATOR_COUNT
  }

  /** The validator's counter never leads. */
  lemma {:induction false} LadderBehind(records: seq<PublicNode>, g: seq<Generated>, tags: map<nat, nat>,
                                        chain: string, i: nat)
    requires BuiltWith(records, g, tags) && i <= |g|
    ensures LadderBefore(records, i, chain) <= ValidatorsBefore(g, i, chain)
  {
    if i > 0 {
      CountersStep(records, g, tags, chain, i - 1);
      hide LadderBefore, ValidatorsBefore, OnChain, BuiltWith;
      LadderBehind(records, g, tags, chain, i - 1);
    }
  }

  /** Without a tag among the first three the two agree on the ladder. */
  lemma {:induction false} CountersAgree(records: seq<PublicNode>, g: seq<Generated>, tags: map<nat, nat>,
                                         chain: string, i: nat)
    requires BuiltWith(records, g, tags) && i <= |g|
    requires forall j :: 0 <= j < i ==> !EarlyTag(g, tags, chain, j)
    ensures var l, v := LadderBefore(records, i, chain), ValidatorsBefore(g, i, chain);
            if v < HIGH_VALIDATOR_COUNT then l == v else l >= HIGH_VALIDATOR_COUNT
  {
    if i > 0 {
      CountersStep(records, g, tags, chain, i - 1);
      assert !EarlyTag(g, tags, chain, i - 1);
      hide LadderBefore, ValidatorsBefore, OnChain, BuiltWith;
      CountersAgree(records, g, tags, chain, i - 1);
    }
  }

  function Passed(j: nat, i: nat): nat { if j < i then 1 else 0 }

  /** With a tag at j among the first three, the validator's counter stays below three until the
      first late default. */
  lemma {:induction false} CounterLags(records: seq<PublicNode>, g: seq<Generated>, tags: map<nat, nat>,
                                       chain: string, j: nat, i: nat)
    requires BuiltWith(records, g, tags) && i <= |g| && j < |g| && EarlyTag(g, tags, chain, j)
    requires forall k :: 0 <= k < i ==> !LateDefault(g, tags, chain, k)
    ensures LadderBefore(records, i, chain) + Passed(j, i) <= ValidatorsBefore(g, i, chain)
    ensures LadderBefore(records, i, chain) + Passed(j, i) <= HIGH_VALIDATOR_COUNT
  {
    assert |records| == |g|;
    hide LadderBefore, ValidatorsBefore, BuiltWith, OnChain, LateDefault, EarlyTag;
    if i == 0 {
      CountersBegin(records, g, chain);
    } else {
      CounterLags(records, g, tags, chain, j, i - 1);
      LagStep(records, g, tags, chain, j, i - 1);
      LagArithmetic(LadderBefore(records, i - 1, chain), ValidatorsBefore(g, i - 1, chain),
                    LadderBefore(records, i, chain), ValidatorsBefore(g, i, chain), j, i - 1);
    }
  }

  lemma {:induction false} CountersBegin(records: seq<PublicNode>, g: seq<Generated>, chain: string)
    ensures LadderBefore(records, 0, chain) == 0 && ValidatorsBefore(g, 0, chain) == 0
  {
  }

  lemma {:induction false} LagArithmetic(l: nat, v: nat, m: nat, w: nat, j: nat, k: nat)
    requires l + Passed(j, k) <= v && l + Passed(j, k) <= HIGH_VALIDATOR_COUNT
    requires (m == l || m == l + 1) && (w == v || w == v + 1)
    requires m == l + 1 ==> w == v + 1 && v < HIGH_VALIDATOR_COUNT && j != k
    requires j == k ==> w == v + 1 && v < HIGH_VALIDATOR_COUNT
    ensures m + Passed(j, k + 1) <= w && m + Passed(j, k + 1) <= HIGH_VALIDATOR_COUNT
  {
  }

  /** One record moves both counters, the producer's alone, or neither. */
  lemma {:induction false} LagStep(records: seq<PublicNode>, g: seq<Generated>, tags: map<nat, nat>,
                                   chain: string, j: nat, k: nat)
    requires BuiltWith(records, g, tags) && k < |g| && j < |g| && EarlyTag(g, tags, chain, j)
    requires !LateDefault(g, tags, chain, k)
    ensures var l, v := LadderBefore(records, k, chain), ValidatorsBefore(g, k, chain);
            var m, w := LadderBefore(records, k + 1, chain), ValidatorsBefore(g, k + 1, chain);
            && (m == l + 1 ==> w == v + 1 && v < HIGH_VALIDATOR_COUNT && j != k)
            && (m == l || m == l + 1) && (w == v || w == v + 1)
            && (j == k ==> w == v + 1 && v < HIGH_VALIDATOR_COUNT)
  {
    CountersStep(records, g, tags, chain, k);
    hide LadderBefore, ValidatorsBefore, BuiltWith;
  }

  /** Validators are counted in order. */
  lemma {:induction false} ValidatorsGrow(g: seq<Generated>, chain: string, i: nat, j: nat)
    requires i <= j <= |g|
    ensures ValidatorsBefore(g, i, chain) <= ValidatorsBefore(g, j, chain)
  {
    if i < j { ValidatorsGrow(g, chain, i, j - 1); }
  }

  /** A mix of tagged and untagged validators gives some record a weight its validator refuses if and
      only if one of the chain's first three validators is tagged and an untagged one comes after
      them. */
  lemma {:induction false} MixedWeightsExact(records: seq<PublicNode>, g: seq<Generated>, tags: map<nat, nat>,
                                             chain: string)
    requires BuiltWith(records, g, tags) && chain != ORACLE_CHAIN
    ensures (exists i :: 0 <= i < |g| && Misweighed(records, g, tags, chain, i))
            <==> (exists j :: 0 <= j < |g| && EarlyTag(g, tags, chain, j)) && (exists i ::
                0 <= i < |g| && LateDefault(g, tags, chain, i))
  {
    if i :| 0 <= i < |g| && Misweighed(records, g, tags, chain, i) {
      CountersStep(records, g, tags, chain, i);
      LadderBehind(records, g, tags, chain, i);
      if forall j :: 0 <= j < |g| ==> !EarlyTag(g, tags, chain, j) { CountersAgree(records, g, tags, chain, i); }
      assert LateDefault(g, tags, chain, i);
    }
    if (exists j :: 0 <= j < |g| && EarlyTag(g, tags, chain, j)) && (exists i ::
        0 <= i < |g| && LateDefault(g, tags, chain, i)) {
      var j :| 0 <= j < |g| && EarlyTag(g, tags, chain, j);
      var i := FirstLate(g, tags, chain);
      CounterLags(records, g, tags, chain, j, i);
      CountersStep(records, g, tags, chain, i);
      if i <= j { ValidatorsGrow(g, chain, i, j); }
      assert Misweighed(records, g, tags, chain, i);
    }
  }

  lemma {:induction false} FirstLate(g: seq<Generated>, tags: map<nat, nat>, chain: string) returns (i: nat)
    requires exists k :: 0 <= k < |g| && LateDefault(g, tags, chain, k)
    ensures i < |g| && LateDefault(g, tags, chain, i) && forall k :: 0 <= k < i ==> !LateDefault(g, tags, chain, k)
  {
    i := 0;
    while !LateDefault(g, tags, chain, i)
      invariant i < |g| && forall k :: 0 <= k < i ==> !LateDefault(g, tags, chain, k)
      decreases |g| - i
    {
      i := i + 1;
    }
  }

  // ------------------------------------------------------------------------------------------
  // The default placement

  lemma {:induction false} DefaultAt(public: seq<PublicNode>, i: nat)
    requires Reachability.SoundManifest(public) && i < |public|
    ensures public[i].node in DefaultOf(public) && DefaultOf(public)[public[i].node] == public[i].identity
    ensures public[i].identity in ByIdentity(public) && ByIdentity(public)[public[i].identity] == public[i]
  {
    ByIdentityAt(public, public[i]);
    if i < |public| - 1 {
      var rest := public[..|public| - 1];
      DefaultAt(rest, i);
      assert rest[i] == public[i];
    }
  }

  lemma {:induction false} DefaultSize(public: seq<PublicNode>)
    requires Reachability.SoundManifest(public)
    ensures |DefaultOf(public)| == |public|
    ensures forall n :: n in DefaultOf(public) ==> exists i :: 0 <= i < |public| && public[i].node == n
  {
    if public != [] {
      var rest, last := public[..|public| - 1], public[|public| - 1];
      DefaultSize(rest);
      assert forall i :: 0 <= i < |rest| ==> rest[i] == public[i];
      assert last.node !in DefaultOf(rest);
    }
  }

  /** A sound manifest that keeps to an inventory has a legal default placement. */
  lemma {:induction false} DefaultFits(records: seq<PublicNode>, nodes: seq<Node>)
    requires Reachability.SoundManifest(records) && |records| == |nodes|
    requires forall i :: 0 <= i < |nodes| ==> Keeps(records[i], nodes[i]) && ChainOf(nodes[i]) == nodes[i].chain
    ensures IsValid(DefaultOf(records), records, nodes)
  {
    DefaultSize(records);
    hide DefaultOf, ByIdentity, EffectiveChain, Fits, Keeps;
    forall i | 0 <= i < |nodes|
      ensures nodes[i].number in DefaultOf(records) && DefaultOf(records)[nodes[i].number] == records[i].identity
      ensures Fits(records[i].identity, ByIdentity(records), nodes[i])
    {
      DefaultFitsAt(records, nodes[i], i);
    }
  }

  lemma {:induction false} DefaultFitsAt(records: seq<PublicNode>, node: Node, i: nat)
    requires Reachability.SoundManifest(records) && i < |records| && Keeps(records[i], node) &&
               ChainOf(node) == node.chain
    ensures node.number in DefaultOf(records) && DefaultOf(records)[node.number] == records[i].identity
    ensures Fits(records[i].identity, ByIdentity(records), node)
  {
    DefaultAt(records, i);
    hide DefaultOf, ByIdentity, EffectiveChain, Reachability.SoundManifest;
  }

  /** The default placement of a generated manifest is a legal placement of its inventory. */
  lemma {:induction false} DefaultIsValid(g: seq<Generated>, managers: seq<Generated>, nodes: seq<Node>, a: Addresses,
                                             parse: Parser)
    requires Accepted(nodes) && GeneratedFrom(g, nodes) && GeneratedManagers(managers) && |nodes| <= Identity.MAX_INT
    requires IsHexAddress(a.genesis) && IsHexAddress(a.feeder) &&
               DistinctParsed(NodeIDs(PublicOf(g, managers, nodes, a)), parse)
    ensures var public := PublicOf(g, managers, nodes, a).nodes;
            IsValid(DefaultOf(public), public, nodes)
  {
    hide Accepted, ValidPublic, Reachability.SoundManifest, Tags, RecordAt, EffectiveChain, DistinctParsed, NodeIDs;
    hide IsHexAddress, IsValid, Keeps;
    var p := PublicOf(g, managers, nodes, a);
    NewPublicIsValid(g, managers, nodes, a, parse);
    ValidIsSound(p, parse);
    forall i | 0 <= i < |nodes| ensures Keeps(p.nodes[i], nodes[i]) && ChainOf(nodes[i]) == nodes[i].chain {
      RecordKeeps(g, nodes, i);
      AcceptedChain(nodes, i);
    }
    DefaultFits(p.nodes, nodes);
  }

  lemma {:induction false} AcceptedChain(nodes: seq<Node>, i: nat)
    requires Accepted(nodes) && i < |nodes|
    ensures ChainOf(nodes[i]) == nodes[i].chain
  {
    hide OnePChain, ChainsServed, AllOrNone, WellShaped, EffectiveChain;
    assert nodes[i] in nodes;
    ShapedChain(nodes[i]);
  }
}
