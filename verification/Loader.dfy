/** The inventory loader after parsing (internal/config/config.go:361-565): which lists of
    nodes.ini lines are accepted, and the node list they make. */
module Loader {
  import opened Wrappers
  import opened Config
  import StateKeys

  /** One parsed line; chain is "" and weight None when the tag is absent. */
  datatype Line = Line(number: int, host: string, role: Role, chain: string, weight: Option<nat>)

  datatype LoadError =
    | BadLine(index: nat) | DuplicateNumber(index: nat) | WrongPChainCount(count: nat)
    | NoValidator(chain: string) | NoOracleRPC | MixedWeights

  const DEFAULT_NAME := "default"

  predicate LineOk(l: Line) {
    && l.number > 0 && l.host != "" && (l.chain != "" ==> StateKeys.ValidChainName(l.chain))
    && (match l.role
        case PChain => l.chain == ""
        case OracleValidator => l.chain == "" || l.chain == ORACLE_CHAIN
        case OracleRPC => l.chain == "" || l.chain == ORACLE_CHAIN
        case _ => l.chain != StateKeys.MANAGEMENT && l.chain != DEFAULT_NAME)
    && (l.weight.Some? ==> l.weight.value > 0 && (l.role == Validator || l.role == OracleValidator))
  }

  /** Legacy roles become the generic role on the oracle chain; an absent chain becomes main. */
  function Normalize(l: Line): Node
    requires l.number > 0
  {
    var weight := if l.weight.Some? then l.weight.value else 0;
    match l.role
    case PChain => Node(l.number, l.host, PChain, "", weight)
    case OracleValidator => Node(l.number, l.host, Validator, ORACLE_CHAIN, weight)
    case OracleRPC => Node(l.number, l.host, RPC, ORACLE_CHAIN, weight)
    case _ => Node(l.number, l.host, l.role, if l.chain == "" then MAIN_CHAIN else l.chain, weight)
  }

  /** What a line says of its node: number and host as written, the written weight or none, the legacy
      roles read as the oracle chain's, and a chain as written or else main, but none for the P-chain. */
  ghost predicate Describes(l: Line, n: Node) {
    && n.number == l.number && n.host == l.host
    && (if l.weight.Some? then n.weight == l.weight.value else n.weight == 0)
    && (l.role == Validator || l.role == OracleValidator <==> n.role == Validator)
    && (l.role == RPC || l.role == OracleRPC <==> n.role == RPC)
    && (l.role == PChain <==> n.role == PChain) && (l.role == Archive <==> n.role == Archive)
    && (l.role == OracleValidator || l.role == OracleRPC ==> n.chain == "oracle")
    && (l.role == PChain ==> n.chain == "")
    && (l.role != PChain && l.role != OracleValidator && l.role != OracleRPC ==>
          n.chain == if l.chain != "" then l.chain else "main")
  }

  ghost predicate Loaded(l: Line, nodes: seq<Node>) { exists n :: n in nodes && Describes(l, n) }

  ghost predicate Declared(lines: seq<Line>, n: Node) { exists i :: 0 <= i < |lines| && Describes(lines[i], n) }

  /** What every loaded node satisfies. */
  predicate WellShaped(n: Node) {
    && n.number > 0 && n.role != OracleValidator && n.role != OracleRPC
    && (n.role == PChain <==> n.chain == "")
    && (n.role != PChain ==>
          StateKeys.ValidChainName(n.chain) && n.chain != StateKeys.MANAGEMENT && n.chain != DEFAULT_NAME)
    && (n.role != Validator ==> n.weight == 0)
  }

  predicate HasRole(nodes: seq<Node>, role: Role, chain: string) {
    exists i :: 0 <= i < |nodes| && nodes[i].role == role && nodes[i].chain == chain
  }

  ghost predicate OnePChain(nodes: seq<Node>) {
    && HasRole(nodes, PChain, "")
    && forall m, n :: m in nodes && n in nodes && m.role == PChain && n.role == PChain ==> m == n
  }

  ghost predicate ChainsServed(nodes: seq<Node>) {
    forall n :: n in nodes && n.chain != "" ==>
      HasRole(nodes, Validator, n.chain) && (n.chain == ORACLE_CHAIN ==> HasRole(nodes, RPC, ORACLE_CHAIN))
  }

  /** A chain sets explicit weights on all of its validators or on none. */
  ghost predicate AllOrNone(nodes: seq<Node>) {
    forall m, n :: m in nodes && n in nodes && m.role == Validator && n.role == Validator && m.chain == n.chain ==>
      (m.weight > 0 <==> n.weight > 0)
  }

  /** The structural rules together. */
  ghost predicate Structured(nodes: seq<Node>) { OnePChain(nodes) && ChainsServed(nodes) && AllOrNone(nodes) }

  ghost predicate Increasing(nodes: seq<Node>) {
    forall i, j :: 0 <= i < j < |nodes| ==> nodes[i].number < nodes[j].number
  }

  /** The inventories the rest of the kit ever sees. */
  ghost predicate Accepted(nodes: seq<Node>) {
    && (forall n :: n in nodes ==> WellShaped(n)) && Increasing(nodes)
    && OnePChain(nodes) && ChainsServed(nodes) && AllOrNone(nodes)
  }

  ghost predicate LinesOk(lines: seq<Line>) {
    && (forall i :: 0 <= i < |lines| ==> LineOk(lines[i]))
    && forall i, j :: 0 <= i < j < |lines| ==> lines[i].number != lines[j].number
  }

  function NormalizeAll(lines: seq<Line>): seq<Node>
    requires forall i :: 0 <= i < |lines| ==> lines[i].number > 0
  {
    seq(|lines|, i requires 0 <= i < |lines| => Normalize(lines[i]))
  }

  ghost predicate SameNodes(a: seq<Node>, b: seq<Node>) {
    |a| == |b| && forall n :: n in a <==> n in b
  }

  lemma {:induction false} NormalizeShapes(l: Line)
    requires LineOk(l)
    ensures WellShaped(Normalize(l))
  {
  }

  /** The structural rules do not depend on the order of the lines. */
  lemma {:induction false} SameStructure(a: seq<Node>, b: seq<Node>)
    requires SameNodes(a, b)
    ensures OnePChain(a) ==> OnePChain(b)
    ensures ChainsServed(a) ==> ChainsServed(b)
    ensures AllOrNone(a) ==> AllOrNone(b)
  {
    forall role, chain | HasRole(a, role, chain) ensures HasRole(b, role, chain) {
      var i :| 0 <= i < |a| && a[i].role == role && a[i].chain == chain;
      assert a[i] in b;
    }
  }

  /** One line: the checks in the loader's order, and the node it declares. */
  method ParseLine(l: Line) returns (r: Option<Node>)
    ensures r.Some? <==> LineOk(l)
    ensures r.Some? ==> r.value == Normalize(l)
  {
    if l.number <= 0 || l.host == "" { return None; }
    if l.chain != "" && !StateKeys.ValidChainName(l.chain) { return None; }
    var role, chain := l.role, l.chain;
    match l.role {
      case PChain =>
        if chain != "" { return None; }
      case OracleValidator =>
        if chain != "" && chain != "oracle" { return None; }
        role, chain := Validator, "oracle";
      case OracleRPC =>
        if chain != "" && chain != "oracle" { return None; }
        role, chain := RPC, "oracle";
      case _ =>
        if chain == "" { chain := "main"; }
        if chain == "management" || chain == "default" { return None; }
    }
    var weight := 0;
    if l.weight.Some? {
      if role != Validator || l.weight.value == 0 { return None; }
      weight := l.weight.value;
    }
    return Some(Node(l.number, l.host, role, chain, weight));
  }

  method LoadNodes(lines: seq<Line>) returns (r: Result<seq<Node>, LoadError>)
    ensures r.Ok? <==> LinesOk(lines) && Structured(NormalizeAll(lines))
    ensures r.Ok? ==> Accepted(r.value) && SameNodes(NormalizeAll(lines), r.value)
    ensures r.Ok? ==> |r.value| == |lines|
    ensures r.Ok? ==> forall i :: 0 <= i < |lines| ==> Loaded(lines[i], r.value)
    ensures r.Ok? ==> forall n :: n in r.value ==> Declared(lines, n)
  {
    hide OnePChain, ChainsServed, AllOrNone, LineOk, WellShaped, Normalize, Describes;
    hide Loaded, Declared;
    var nodes := [];
    var seen: set<int> := {};
    for i := 0 to |lines|
      invariant |nodes| == i && forall j :: 0 <= j < i ==>
                  LineOk(lines[j]) && lines[j].number > 0 && nodes[j] == Normalize(lines[j])
      invariant forall j, k :: 0 <= j < k < i ==> lines[j].number != lines[k].number
      invariant forall x :: x in seen <==> exists j :: 0 <= j < i && lines[j].number == x
    {
      var node := ParseLine(lines[i]);
      if node.None? { return Err(BadLine(i)); }
      if lines[i].number in seen { return Err(DuplicateNumber(i)); }
      LineNumber(lines[i]);
      seen := seen + {lines[i].number};
      nodes := nodes + [node.value];
    }
    assert nodes == NormalizeAll(lines);
    forall j | 0 <= j < |nodes|
      ensures WellShaped(nodes[j]) && nodes[j].number == lines[j].number
      ensures nodes[j].role == PChain ==> nodes[j].chain == ""
    {
      NormalizeShapes(lines[j]);
      LineNumber(lines[j]);
      PChainChain(nodes[j]);
    }
    assert DistinctNumbers(nodes);
    var count := CountPChain(nodes);
    if count != 1 { return Err(WrongPChainCount(count)); }
    var unserved := CheckChains(nodes);
    if unserved.Some? { return Err(unserved.value); }
    var sorted := SortByNumber(nodes);
    SameStructure(nodes, sorted);
    SameStructure(sorted, nodes);
    var uniform := WeightsUniform(sorted);
    if !uniform { return Err(MixedWeights); }
    AllDescribed(lines, nodes, sorted);
    return Ok(sorted);
  }

  lemma {:induction false} AllDescribed(lines: seq<Line>, nodes: seq<Node>, sorted: seq<Node>)
    requires |nodes| == |lines| && SameNodes(nodes, sorted)
    requires forall j :: 0 <= j < |lines| ==> LineOk(lines[j]) && lines[j].number > 0 && nodes[j] == Normalize(lines[j])
    ensures forall i :: 0 <= i < |lines| ==> Loaded(lines[i], sorted)
    ensures forall n :: n in sorted ==> Declared(lines, n)
  {
    hide LineOk, Normalize, Describes;
    forall i | 0 <= i < |lines| ensures Loaded(lines[i], sorted) {
      LineDescribes(lines[i]);
      assert nodes[i] in nodes && nodes[i] in sorted && Describes(lines[i], nodes[i]);
    }
    forall n | n in sorted ensures Declared(lines, n) {
      var i :| 0 <= i < |nodes| && nodes[i] == n;
      LineDescribes(lines[i]);
    }
  }

  lemma {:induction false} LineDescribes(l: Line)
    requires LineOk(l)
    ensures Describes(l, Normalize(l))
  {
  }

  lemma {:induction false} LineNumber(l: Line)
    ensures LineOk(l) ==> l.number > 0 && Normalize(l).number == l.number
  {
  }

  method CountPChain(nodes: seq<Node>) returns (count: nat)
    requires DistinctNumbers(nodes) && forall j :: 0 <= j < |nodes| && nodes[j].role == PChain ==> nodes[j].chain == ""
    ensures count == 1 <==> OnePChain(nodes)
  {
    count := 0;
    ghost var first, second := 0, 0;
    for i := 0 to |nodes|
      invariant count == 0 ==> forall j :: 0 <= j < i ==> nodes[j].role != PChain
      invariant count >= 1 ==> first < i && nodes[first].role == PChain
      invariant count == 1 ==> forall j :: 0 <= j < i && nodes[j].role == PChain ==> j == first
      invariant count >= 2 ==> first < second < i && nodes[second].role == PChain
    {
      if nodes[i].role == PChain {
        if count == 0 { first := i; } else if count == 1 { second := i; }
        count := count + 1;
      }
    }
    if count >= 2 { assert nodes[first] in nodes && nodes[second] in nodes; }
  }

  lemma {:induction false} PChainChain(n: Node)
    ensures WellShaped(n) && n.role == PChain ==> n.chain == ""
  {
  }

  /** Each declared chain has a validator, and the oracle chain an rpc node. */
  method CheckChains(nodes: seq<Node>) returns (r: Option<LoadError>)
    ensures r.None? <==> ChainsServed(nodes)
  {
    var validators: map<string, nat>, rpcs: map<string, nat> := map[], map[];
    for i := 0 to |nodes|
      invariant forall c :: Get(validators, c) > 0 <==> HasRole(nodes[..i], Validator, c)
      invariant forall c :: Get(rpcs, c) > 0 <==> HasRole(nodes[..i], RPC, c)
    {
      var chain := nodes[i].chain;
      HasRoleStep(nodes, i);
      hide HasRole;
      if nodes[i].role == Validator {
        ghost var was := validators;
        validators := validators[chain := Get(validators, chain) + 1];
        assert forall c :: c != chain ==> Get(validators, c) == Get(was, c);
      } else if nodes[i].role == RPC {
        ghost var was := rpcs;
        rpcs := rpcs[chain := Get(rpcs, chain) + 1];
        assert forall c :: c != chain ==> Get(rpcs, c) == Get(was, c);
      }
    }
    assert nodes[..|nodes|] == nodes;
    hide HasRole;
    for i := 0 to |nodes|
      invariant forall j :: 0 <= j < i && nodes[j].chain != "" ==>
                  HasRole(nodes, Validator, nodes[j].chain) && (nodes[j].chain == ORACLE_CHAIN ==>
                      HasRole(nodes, RPC, ORACLE_CHAIN))
    {
      var chain := nodes[i].chain;
      if chain != "" {
        assert nodes[i] in nodes;
        if Get(validators, chain) == 0 { return Some(NoValidator(chain)); }
        if chain == ORACLE_CHAIN && Get(rpcs, chain) < 1 { return Some(NoOracleRPC); }
      }
    }
    return None;
  }

  lemma {:induction false} HasRoleStep(nodes: seq<Node>, i: nat)
    requires i < |nodes|
    ensures forall role, c :: HasRole(nodes[..i + 1], role, c) <==>
                              HasRole(nodes[..i], role, c) || (nodes[i].role == role && nodes[i].chain == c)
  {
    var a, b := nodes[..i], nodes[..i + 1];
    assert forall j :: 0 <= j < i ==> a[j] == b[j];
    assert b[i] == nodes[i];
    forall role, c ensures HasRole(b, role, c) <==>
        HasRole(a, role, c) || (nodes[i].role == role && nodes[i].chain == c) {
      if HasRole(a, role, c) {
        var j :| 0 <= j < |a| && a[j].role == role && a[j].chain == c;
        assert b[j].role == role && b[j].chain == c;
      }
    }
  }

  /** validateWeightConsistency. */
  method WeightsUniform(nodes: seq<Node>) returns (ok: bool)
    ensures ok <==> AllOrNone(nodes)
  {
    var explicit, defaulted: set<string> := {}, {};
    for i := 0 to |nodes|
      invariant forall c :: c in explicit <==>
                  exists j :: 0 <= j < i && nodes[j].role == Validator && nodes[j].chain == c && nodes[j].weight > 0
      invariant forall c :: c in defaulted <==>
                  exists j :: 0 <= j < i && nodes[j].role == Validator && nodes[j].chain == c && nodes[j].weight == 0
    {
      if nodes[i].role == Validator {
        if nodes[i].weight > 0 { explicit := explicit + {nodes[i].chain}; }
        else { defaulted := defaulted + {nodes[i].chain}; }
      }
    }
    ok := explicit * defaulted == {};
    if !ok {
      ghost var c :| c in explicit && c in defaulted;
      ghost var j :| 0 <= j < |nodes| && nodes[j].role == Validator && nodes[j].chain == c && nodes[j].weight > 0;
      ghost var k :| 0 <= k < |nodes| && nodes[k].role == Validator && nodes[k].chain == c && nodes[k].weight == 0;
      assert nodes[j] in nodes && nodes[k] in nodes;
    } else {
      forall m, n | m in nodes && n in nodes && m.role == Validator && n.role == Validator && m.chain == n.chain
        ensures m.weight > 0 <==> n.weight > 0
      {
        var j :| 0 <= j < |nodes| && nodes[j] == m;
        var k :| 0 <= k < |nodes| && nodes[k] == n;
        assert m.weight > 0 ==> m.chain in explicit;
        assert n.weight > 0 ==> n.chain in explicit;
        assert m.weight == 0 ==> m.chain in defaulted;
        assert n.weight == 0 ==> n.chain in defaulted;
        assert m.chain !in explicit * defaulted;
      }
    }
  }

  method SortByNumber(nodes: seq<Node>) returns (sorted: seq<Node>)
    requires DistinctNumbers(nodes)
    ensures Increasing(sorted) && SameNodes(nodes, sorted)
  {
    sorted := [];
    for i := 0 to |nodes|
      invariant Increasing(sorted) && SameNodes(nodes[..i], sorted)
    {
      var k := 0;
      while k < |sorted| && sorted[k].number < nodes[i].number
        invariant k <= |sorted| && forall j :: 0 <= j < k ==> sorted[j].number < nodes[i].number
      {
        k := k + 1;
      }
      forall j | 0 <= j < |sorted| ensures sorted[j].number != nodes[i].number {
        assert sorted[j] in nodes[..i];
      }
      sorted := InsertAt(sorted, k, nodes[i]);
      assert nodes[..i + 1] == nodes[..i] + [nodes[i]];
    }
    assert nodes[..|nodes|] == nodes;
  }

  function InsertAt(sorted: seq<Node>, k: nat, n: Node): (r: seq<Node>)
    requires k <= |sorted| && Increasing(sorted)
    requires forall j :: 0 <= j < k ==> sorted[j].number < n.number
    requires k < |sorted| ==> n.number < sorted[k].number
    ensures Increasing(r) && |r| == |sorted| + 1 && forall x :: x in r <==> x in sorted || x == n
  {
    var r := sorted[..k] + [n] + sorted[k..];
    assert sorted == sorted[..k] + sorted[k..];
    assert forall j :: k <= j < |sorted| ==> n.number < sorted[j].number;
    r
  }
}
