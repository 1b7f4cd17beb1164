/** Which placements a sequence of single place commands can reach
    (internal/fleet/place.go:167-225). */
module Reachability {
  import opened Wrappers
  import opened Config
  import opened Placements
  import opened Sets
  import Identity

  /** What Public.Validate guarantees of a manifest's records: letters and node numbers are
      pairwise distinct and every letter is a parseable name. */
  ghost predicate SoundManifest(public: seq<PublicNode>) {
    && DistinctLetters(public)
    && (forall i, j :: 0 <= i < j < |public| ==> public[i].node != public[j].node)
    && (forall i :: 0 <= i < |public| ==> Identity.IndexOf(public[i].identity).Ok?)
  }

  /** The manifest and the inventory list the same number of machines. */
  ghost predicate SameMachines(inv: Inventory) {
    SoundManifest(inv.public) && DistinctNumbers(inv.nodes) && |inv.public| == |inv.nodes|
  }

  lemma {:induction false} InjectiveCount(p: Placement)
    requires Injective(p)
    ensures |Range(p)| == |p|
    decreases |p|
  {
    if p.Keys != {} {
      var n := Pick(p.Keys);
      var q := p - {n};
      assert q.Keys == p.Keys - {n};
      assert forall m :: m in q ==> q[m] == p[m];
      InjectiveCount(q);
      assert Range(p) == Range(q) + {p[n]} by {
        forall s | s in Range(p) ensures s in Range(q) + {p[n]} {
          var m :| m in p && p[m] == s;
          if m != n { assert q[m] == s; }
        }
        forall s | s in Range(q) ensures s in Range(p) {
          var m :| m in q && q[m] == s;
          assert p[m] == s;
        }
      }
      assert p[n] !in Range(q);
    } else {
      assert Range(p) == {};
    }
  }

  /** With as many records as machines, a valid placement uses every identity. */
  lemma {:induction false} EveryIdentityPlaced(inv: Inventory, p: Placement)
    requires SameMachines(inv) && IsValid(p, inv.public, inv.nodes)
    ensures Range(p) == ByIdentity(inv.public).Keys
  {
    ValidIsBijective(p, inv.public, inv.nodes);
    ByIdentitySound(inv.public);
    InjectiveCount(p);
    var records := ByIdentity(inv.public);
    forall s | s in Range(p) ensures s in records {
      var n :| n in p && p[n] == s;
      assert Fits(p[n], records, MachineOf(inv.nodes, n));
    }
    assert |records.Keys| == |records|;
    SubsetSize(Range(p), records.Keys);
    SubsetOfSameSize(Range(p), records.Keys);
  }

  /** Two identities that share a home are one identity. */
  lemma {:induction false} SameHome(public: seq<PublicNode>, s: string, t: string)
    requires SoundManifest(public) && s in ByIdentity(public) && t in ByIdentity(public)
    requires ByIdentity(public)[s].node == ByIdentity(public)[t].node
    ensures s == t
  {
    ByIdentitySound(public);
    var a, b := ByIdentity(public)[s], ByIdentity(public)[t];
    var i :| 0 <= i < |public| && public[i] == a;
    var j :| 0 <= j < |public| && public[j] == b;
    assert i == j;
  }

  lemma {:induction false} LettersParse(public: seq<PublicNode>, s: string)
    requires SoundManifest(public) && s in ByIdentity(public)
    ensures Identity.IndexOf(s).Ok?
  {
    ByIdentitySound(public);
    var i :| 0 <= i < |public| && public[i] == ByIdentity(public)[s];
    assert public[i].identity == s;
  }

  lemma {:induction false} ValidKeys(inv: Inventory, p: Placement)
    requires IsValid(p, inv.public, inv.nodes)
    ensures p.Keys == Numbers(inv.nodes)
  {
    ValidIsBijective(p, inv.public, inv.nodes);
  }

  lemma {:induction false} MachineFits(inv: Inventory, p: Placement, n: nat)
    requires IsValid(p, inv.public, inv.nodes) && n in Numbers(inv.nodes)
    ensures n in p && Fits(p[n], ByIdentity(inv.public), MachineOf(inv.nodes, n))
  {
    var i := NodeIndex(inv.nodes, n);
    assert Fits(p[inv.nodes[i].number], ByIdentity(inv.public), inv.nodes[i]);
  }

  /** A machine that is not a validator's runs the same identity in every valid placement. */
  lemma {:induction false} HomesAgree(inv: Inventory, p: Placement, q: Placement, n: nat)
    requires SameMachines(inv)
    requires IsValid(p, inv.public, inv.nodes) && IsValid(q, inv.public, inv.nodes)
    requires n in Numbers(inv.nodes) && MachineOf(inv.nodes, n).role != Validator
    ensures n in p && n in q && p[n] == q[n]
  {
    MachineFits(inv, p, n);
    MachineFits(inv, q, n);
    SameHome(inv.public, p[n], q[n]);
  }

  /** Machine numbers of the validator machines, in inventory order. */
  ghost function ValidatorNumbers(nodes: seq<Node>): seq<nat> {
    if nodes == [] then []
    else ValidatorNumbers(nodes[..|nodes| - 1])
         + (if nodes[|nodes| - 1].role == Validator then [nodes[|nodes| - 1].number] else [])
  }

  lemma {:induction false} ValidatorNumbersSound(nodes: seq<Node>)
    requires DistinctNumbers(nodes)
    ensures forall n :: n in ValidatorNumbers(nodes) <==>
              n in Numbers(nodes) && MachineOf(nodes, n).role == Validator
  {
    var vs := ValidatorNumbers(nodes);
    forall i | 0 <= i < |nodes|
      ensures nodes[i].number in vs <==> nodes[i].role == Validator
    {
      ListedIffValidator(nodes, i);
    }
    forall n | n in vs ensures n in Numbers(nodes) {
      ListedIsNumber(nodes, n);
    }
    forall n | n in Numbers(nodes)
      ensures n in vs <==> MachineOf(nodes, n).role == Validator
    {
      var i := NodeIndex(nodes, n);
    }
  }

  lemma {:induction false} ListedIsNumber(nodes: seq<Node>, n: nat)
    requires n in ValidatorNumbers(nodes)
    ensures n in Numbers(nodes)
  {
    var init, last := nodes[..|nodes| - 1], nodes[|nodes| - 1];
    if n in ValidatorNumbers(init) {
      ListedIsNumber(init, n);
      assert nodes[NodeIndex(init, n)].number == n;
    } else {
      assert last.number == n;
    }
  }

  lemma {:induction false} ListedIffValidator(nodes: seq<Node>, i: nat)
    requires DistinctNumbers(nodes) && i < |nodes|
    ensures nodes[i].number in ValidatorNumbers(nodes) <==> nodes[i].role == Validator
  {
    var init, last := nodes[..|nodes| - 1], nodes[|nodes| - 1];
    if i < |init| {
      ListedIffValidator(init, i);
    } else if last.number in ValidatorNumbers(init) {
      ListedIsNumber(init, last.number);
    }
  }

  /** One accepted place command. */
  ghost predicate OneMove(inv: Inventory, p: Placement, q: Placement) {
    exists letter, node :: PlanPlace(inv, p, letter, node) == Ok(q)
  }

  ghost predicate IsPath(inv: Inventory, path: seq<Placement>) {
    && |path| >= 1
    && (forall i :: 0 <= i < |path| ==> IsValid(path[i], inv.public, inv.nodes))
    && (forall i :: 0 <= i < |path| - 1 ==> OneMove(inv, path[i], path[i + 1]))
  }

  /** p and q agree everywhere except possibly on vs[k..]. */
  ghost predicate AgreeUpTo(p: Placement, q: Placement, vs: seq<nat>, k: nat)
    requires k <= |vs|
  {
    p.Keys == q.Keys && forall n :: n in p && n !in vs[k..] ==> p[n] == q[n]
  }

  /** Two valid placements that agree on all machines but one are equal. */
  lemma {:induction false} LastAgrees(inv: Inventory, p: Placement, q: Placement, m: nat)
    requires SameMachines(inv)
    requires IsValid(p, inv.public, inv.nodes) && IsValid(q, inv.public, inv.nodes)
    requires p.Keys == q.Keys && forall n :: n in p && n != m ==> p[n] == q[n]
    ensures p == q
  {
    ValidIsBijective(q, inv.public, inv.nodes);
    EveryIdentityPlaced(inv, p);
    EveryIdentityPlaced(inv, q);
    OneDifference(p, q, m);
  }

  lemma {:induction false} OneDifference(p: Placement, q: Placement, m: nat)
    requires p.Keys == q.Keys && Range(p) == Range(q) && Injective(q)
    requires forall n :: n in p && n != m ==> p[n] == q[n]
    ensures p == q
  {
    assert m in q ==> q[m] in Range(q);
    assert forall n :: n in p ==> p[n] == q[n];
  }

  /** The place command that puts q's identity onto m is accepted at p. */
  lemma {:induction false} MoveAccepted(inv: Inventory, p: Placement, q: Placement, m: nat)
    requires SameMachines(inv)
    requires IsValid(p, inv.public, inv.nodes) && IsValid(q, inv.public, inv.nodes)
    requires m in Numbers(inv.nodes) && MachineOf(inv.nodes, m).role == Validator
    ensures m in q && PlanPlace(inv, p, q[m], m).Ok?
  {
    hide IsValid, SoundManifest, DistinctNumbers, PlanPlace, ByIdentity;
    ValidKeys(inv, p);
    ValidKeys(inv, q);
    EveryIdentityPlaced(inv, p);
    EveryIdentityPlaced(inv, q);
    var letter := q[m];
    assert letter in Range(q);
    var source := NodeOf(p, letter).value;
    MachineFits(inv, q, m);
    MachineFits(inv, p, source);
    LettersParse(inv.public, letter);
    PlanPlaceAccepts(inv, p, letter, m);
  }

  lemma {:induction false} ReachFrom(inv: Inventory, p: Placement, q: Placement, k: nat) returns (path: seq<Placement>)
    requires SameMachines(inv)
    requires IsValid(p, inv.public, inv.nodes) && IsValid(q, inv.public, inv.nodes)
    requires k <= |ValidatorNumbers(inv.nodes)|
    requires AgreeUpTo(p, q, ValidatorNumbers(inv.nodes), k)
    ensures IsPath(inv, path) && path[0] == p && path[|path| - 1] == q
    ensures |path| == 1 || |path| - 1 <= |ValidatorNumbers(inv.nodes)| - k - 1
    decreases |ValidatorNumbers(inv.nodes)| - k
  {
    hide IsValid, ValidatorNumbers, AgreeUpTo, SameMachines, OneMove;
    var vs := ValidatorNumbers(inv.nodes);
    if k + 1 >= |vs| {
      AtMostOneLeft(inv, p, q, vs, k);
      return [p];
    }
    var next := SettleOne(inv, p, q, k);
    path := ReachFrom(inv, next, q, k + 1);
    if next != p {
      PrependMove(inv, p, path);
      path := [p] + path;
    }
  }

  /** At most one move settles machine vs[k]. */
  lemma {:induction false} SettleOne(inv: Inventory, p: Placement, q: Placement, k: nat) returns (next: Placement)
    requires SameMachines(inv)
    requires IsValid(p, inv.public, inv.nodes) && IsValid(q, inv.public, inv.nodes)
    requires k < |ValidatorNumbers(inv.nodes)|
    requires AgreeUpTo(p, q, ValidatorNumbers(inv.nodes), k)
    ensures IsValid(next, inv.public, inv.nodes) && OneMove(inv, p, next)
    ensures AgreeUpTo(next, q, ValidatorNumbers(inv.nodes), k + 1)
  {
    var m := ValidatorNumbers(inv.nodes)[k];
    ValidatorNumbersSound(inv.nodes);
    assert m in ValidatorNumbers(inv.nodes);
    MoveAccepted(inv, p, q, m);
    MoveKeepsAgreement(inv, p, q, k);
    next := PlanPlace(inv, p, q[m], m).value;
    assert PlanPlace(inv, p, q[m], m) == Ok(next);
  }

  lemma {:induction false} AtMostOneLeft(inv: Inventory, p: Placement, q: Placement, vs: seq<nat>, k: nat)
    requires SameMachines(inv)
    requires IsValid(p, inv.public, inv.nodes) && IsValid(q, inv.public, inv.nodes)
    requires k <= |vs| <= k + 1 && AgreeUpTo(p, q, vs, k)
    ensures p == q
  {
    if k == |vs| {
      assert vs[k..] == [];
      assert forall n :: n in p ==> p[n] == q[n];
    } else {
      assert vs[k..] == [vs[k]];
      LastAgrees(inv, p, q, vs[k]);
    }
  }

  lemma {:induction false} PrependMove(inv: Inventory, p: Placement, rest: seq<Placement>)
    requires IsValid(p, inv.public, inv.nodes) && IsPath(inv, rest)
    requires OneMove(inv, p, rest[0])
    ensures IsPath(inv, [p] + rest)
  {
    var path := [p] + rest;
    forall i | 0 <= i < |path| - 1 ensures OneMove(inv, path[i], path[i + 1]) {
      if i > 0 {
        assert OneMove(inv, rest[i - 1], rest[i - 1 + 1]);
      }
    }
  }

  /** Putting q's identity on vs[k] disturbs none of the machines already settled. */
  lemma {:induction false} MoveKeepsAgreement(inv: Inventory, p: Placement, q: Placement, k: nat)
    requires SameMachines(inv)
    requires IsValid(p, inv.public, inv.nodes) && IsValid(q, inv.public, inv.nodes)
    requires k < |ValidatorNumbers(inv.nodes)|
    requires AgreeUpTo(p, q, ValidatorNumbers(inv.nodes), k)
    requires ValidatorNumbers(inv.nodes)[k] in q
    requires PlanPlace(inv, p, q[ValidatorNumbers(inv.nodes)[k]], ValidatorNumbers(inv.nodes)[k]).Ok?
    ensures var m := ValidatorNumbers(inv.nodes)[k];
            && IsValid(PlanPlace(inv, p, q[m], m).value, inv.public, inv.nodes)
            && AgreeUpTo(PlanPlace(inv, p, q[m], m).value, q, ValidatorNumbers(inv.nodes), k + 1)
  {
    var vs := ValidatorNumbers(inv.nodes);
    var m := vs[k];
    ValidIsBijective(q, inv.public, inv.nodes);
    PlanPlaceKeepsValid(inv, p, q[m], m);
    var next := PlanPlace(inv, p, q[m], m).value;
    forall n | n in next && n !in vs[k + 1..] ensures next[n] == q[n] {
      if n != m {
        assert n !in vs[k..];
        assert p[n] == q[n] != q[m];
      }
    }
  }

  /** Every valid placement reaches every other by at most v - 1 place commands, where v is the
      number of validator machines, and every placement on the way is valid. */
  lemma {:induction false} EveryPlacementReachable(inv: Inventory, p: Placement,
                                                   q: Placement) returns (path: seq<Placement>)
    requires SameMachines(inv)
    requires IsValid(p, inv.public, inv.nodes) && IsValid(q, inv.public, inv.nodes)
    ensures IsPath(inv, path) && path[0] == p && path[|path| - 1] == q
    ensures |path| == 1 || |path| - 1 <= |ValidatorNumbers(inv.nodes)| - 1
  {
    ValidIsBijective(p, inv.public, inv.nodes);
    ValidIsBijective(q, inv.public, inv.nodes);
    ValidatorNumbersSound(inv.nodes);
    var vs := ValidatorNumbers(inv.nodes);
    forall n | n in p && n !in vs[0..] ensures p[n] == q[n] {
      assert vs[0..] == vs;
      HomesAgree(inv, p, q, n);
    }
    path := ReachFrom(inv, p, q, 0);
  }
}
