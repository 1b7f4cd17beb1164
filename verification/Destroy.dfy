/** Teardown (internal/destroy/destroy.go, internal/weights/report.go:184-301): read the active
    validators of every named L1, then disable them, the management chain's last. */
module Destroy {
  import opened StateKeys
  import opened NetworkEnv
  import opened Creation

  /** The part of the P-chain that destroy reads and changes: each subnet's validation IDs and
      each validation's remaining balance. */
  datatype PChain = PChain(members: map<ID, seq<nat>>, balances: map<nat, nat>)

  function MembersOf(p: PChain, subnet: ID): seq<nat> { if subnet in p.members then p.members[subnet] else [] }

  function Balance(p: PChain, v: nat): nat { if v in p.balances then p.balances[v] else 0 }

  /** A DisableL1ValidatorTx returns the whole remaining balance. */
  function Disable(p: PChain, v: nat): PChain { p.(balances := p.balances[v := 0]) }

  datatype Validator = Validator(l1: string, validation: nat, balance: nat)

  // ------------------------------------------------------------------------------------------
  // Which L1s are read

  /** The subnet coverage of fetch. */
  ghost predicate IsTarget(d: Deployment, l1: string, subnet: ID) {
    || (l1 == MANAGEMENT && subnet == d.management.subnet && subnet != 0)
    || (l1 == ORACLE && subnet == d.oracle.subnet && subnet != 0)
    || (l1 == MAIN && subnet == d.main.subnet && subnet != 0)
    || (l1 in d.chains && subnet == d.chains[l1].subnet)
  }

  /** At a crash point, the L1s read are exactly the converted ones, under their accepted subnets. */
  lemma {:induction false} TargetsExact(d: Deployment, steps: seq<Step>, labels: seq<string>, l1: string, subnet: ID)
    requires ValidLabels(labels) && Follows(steps, labels) && Names(d, steps, labels)
    ensures IsTarget(d, l1, subnet)
            <==> exists i ::
                   0 <= i < |labels| && labels[i] == l1 && Converted(steps, i) && subnet == AcceptedID(steps, i, Subnet)
  {
    hide ValidL1;
    if l1 in labels {
      var i :| 0 <= i < |labels| && labels[i] == l1;
      assert NamesL1(d, labels[i], steps, i);
      if Converted(steps, i) { assert Fits(steps, labels, 3 * i); }
    }
  }

  /** destroy's "nothing to reclaim" exit. */
  predicate NothingToReclaim(d: Deployment) { d.main.subnet == 0 && d.management.subnet == 0 }

  /** It is taken exactly when no conversion was saved. */
  lemma {:induction false} EarlyExitExact(d: Deployment, steps: seq<Step>, labels: seq<string>)
    requires ValidLabels(labels) && Follows(steps, labels) && Names(d, steps, labels)
    ensures NothingToReclaim(d) <==> forall i :: 0 <= i < |labels| ==> !Converted(steps, i)
  {
    hide ValidL1;
    assert NamesL1(d, labels[0], steps, 0);
    if Converted(steps, 0) { assert Fits(steps, labels, 0); }
    if MAIN in labels {
      var i :| 0 <= i < |labels| && labels[i] == MAIN;
      assert NamesL1(d, labels[i], steps, i);
    }
  }

  /** So for every content a creation run gave the file. */
  lemma {:induction false} EveryContentExits(c: Creator, i: nat, d: Deployment)
    requires c.Valid() && i < |c.disks| && Loaded(c.disks[i], d)
    ensures i <= |c.accepted|
    ensures NothingToReclaim(d) <==> forall k :: 0 <= k < |c.labels| ==> !Converted(c.accepted[..i], k)
  {
    EveryContentLoads(c, i, _ => false);
    hide Records, Follows, Names, Loaded;
    EarlyExitExact(d, c.accepted[..i], c.labels);
  }

  /** On an arbitrary deployment the exit passes over nothing if and only if it is not taken, or
      neither the oracle nor an additional chain is named. */
  lemma {:induction false} ExitHidesNothingExact(d: Deployment)
    ensures (NothingToReclaim(d) ==> forall l1, subnet :: !IsTarget(d, l1, subnet))
            <==> !NothingToReclaim(d) || (d.oracle.subnet == 0 && d.chains == map[])
  {
    if NothingToReclaim(d) {
      if d.oracle.subnet != 0 { assert IsTarget(d, ORACLE, d.oracle.subnet); }
      if d.chains != map[] {
        var name :| name in d.chains;
        assert IsTarget(d, name, d.chains[name].subnet);
      }
    }
  }

  const ORACLE_ONLY: Env :=
    map["NETWORK" := Text("fuji"), "ORACLE_CONVERT_TX_ID" := Id(9),
        "ORACLE_CHAIN_ID" := Id(8), "ORACLE_SUBNET_ID" := Id(7)]

  /** A file that loads for destroy and on which the exit passes over the oracle's deposit: it
      records an oracle conversion without a management one, which no creation run does. */
  lemma {:induction false} ForeignFileCanHide(isHex: string -> bool) returns (d: Deployment)
    ensures Loads(ORACLE_ONLY, "fuji", false, isHex) && Loaded(ORACLE_ONLY, d)
    ensures NothingToReclaim(d) && IsTarget(d, ORACLE, 7)
    ensures forall steps: seq<Step>, labels: seq<string>, texts: map<string, string> ::
              texts.Keys == TEXT_KEYS && ValidLabels(labels) && Follows(steps, labels) ==>
                  !Records(ORACLE_ONLY, steps, labels, texts)
  {
    d := Deployment(NO_DEPLOYMENT, 0, ChainDeployment(7, 8), NO_DEPLOYMENT, map[], "");
    OracleOnlyLoads(d, isHex);
    hide Records, Follows, ValidLabels, Loads, Loaded, KeyOf;
    KeysSpelled();
    hide TEXT_KEYS;
    forall steps: seq<Step>, labels: seq<string>, texts: map<string, string>
      | texts.Keys == TEXT_KEYS && ValidLabels(labels) && Follows(steps, labels)
      ensures !Records(ORACLE_ONLY, steps, labels, texts)
    {
      if Records(ORACLE_ONLY, steps, labels, texts) { ManagementFirst(ORACLE_ONLY, steps, labels, texts); }
    }
  }

  lemma {:induction false} OracleOnlyLoads(d: Deployment, isHex: string -> bool)
    requires d == Deployment(NO_DEPLOYMENT, 0, ChainDeployment(7, 8), NO_DEPLOYMENT, map[], "")
    ensures Loads(ORACLE_ONLY, "fuji", false, isHex) && Loaded(ORACLE_ONLY, d)
  {
    KeysSpelled();
    forall name ensures !Dynamic(ORACLE_ONLY, name) { NoDynamicKey(name); }
    hide DerivedKey, KeyOf, Dynamic;
  }

  lemma {:induction false} NoDynamicKey(name: string)
    ensures !Dynamic(ORACLE_ONLY, name)
  {
    if |name| >= 1 {
      KeysSpelled();
      DerivedKeysApart(name, Convert, ORACLE, Convert);
      DerivedKeysApart(name, Convert, ORACLE, ChainID);
      DerivedKeysApart(name, Convert, ORACLE, Subnet);
    }
  }

  /** A creation run records the oracle's conversion only after the management chain's. */
  lemma {:induction false} ManagementFirst(env: Env, steps: seq<Step>, labels: seq<string>, texts: map<string, string>)
    requires texts.Keys == TEXT_KEYS && ValidLabels(labels) && Follows(steps, labels)
    requires Records(env, steps, labels, texts) && Recorded(env, KeyOf(ORACLE, Convert))
    ensures Recorded(env, KeyOf(MANAGEMENT, Convert))
  {
    hide KeyOf, Recorded, Records, Follows, Whole, ValidL1;
    hide TEXT_KEYS;
    RecordedL1(env, steps, labels, texts, 0);
    if ORACLE in labels {
      var i :| 0 <= i < |labels| && labels[i] == ORACLE;
      RecordedL1(env, steps, labels, texts, i);
    } else {
      OracleIsL1();
      UnplannedL1(env, steps, labels, texts, ORACLE);
    }
  }

  lemma {:induction false} OracleIsL1()
    ensures ValidL1(ORACLE)
  {
  }

  /** A row of the report: an active validation of a target. */
  ghost predicate IsRow(d: Deployment, p: PChain, v: Validator) {
    exists subnet :: IsTarget(d, v.l1, subnet) && v.validation in MembersOf(p, subnet)
                     && v.balance == Balance(p, v.validation) && v.balance > 0
  }

  /** Each subnet lists a validation once, no two subnets share one, and the targets have different
      subnets. */
  ghost predicate Tidy(d: Deployment, p: PChain) {
    && (forall s :: NoDuplicates(MembersOf(p, s)))
    && (forall s, t, v :: v in MembersOf(p, s) && v in MembersOf(p, t) ==> s == t)
    && (forall name :: name in d.chains ==> !IsFixed(name))
    && (forall a, b, s :: IsTarget(d, a, s) && IsTarget(d, b, s) ==> a == b)
  }

  ghost predicate NoDuplicates(s: seq<nat>) {
    forall i, j :: 0 <= i < j < |s| ==> s[i] != s[j]
  }

  ghost predicate EachOnce(rows: seq<Validator>) {
    forall i, j :: 0 <= i < j < |rows| ==> rows[i].validation != rows[j].validation
  }

  /** fetchValidators. */
  method FetchValidators(p: PChain, l1: string, subnet: ID) returns (rows: seq<Validator>)
    ensures forall v :: v in rows <==>
                        v.l1 == l1 && v.validation in MembersOf(p, subnet) && v.balance == Balance(p, v.validation) &&
                            v.balance > 0
    ensures NoDuplicates(MembersOf(p, subnet)) ==> EachOnce(rows)
  {
    rows := [];
    var members := MembersOf(p, subnet);
    for i := 0 to |members|
      invariant forall v :: v in rows <==>
                            v.l1 == l1 && v.validation in members[..i] && v.balance == Balance(p, v.validation) &&
                                v.balance > 0
      invariant NoDuplicates(members) ==> EachOnce(rows)
    {
      assert forall k :: 0 <= k < |rows| ==> rows[k] in rows;
      if Balance(p, members[i]) != 0 { rows := rows + [Validator(l1, members[i], Balance(p, members[i]))]; }
    }
    assert members[..|members|] == members;
  }

  /** An active validation of one of the targets in `seen`. */
  ghost predicate IsRowOf(p: PChain, seen: set<(string, ID)>, v: Validator) {
    exists subnet :: (v.l1, subnet) in seen && v.validation in MembersOf(p, subnet)
                     && v.balance == Balance(p, v.validation) && v.balance > 0
  }

  /** The rows read so far. */
  ghost predicate RowsOf(rows: seq<Validator>, d: Deployment, p: PChain, seen: set<(string, ID)>) {
    && (forall l1, subnet :: (l1, subnet) in seen ==> IsTarget(d, l1, subnet))
    && (forall v :: v in rows <==> IsRowOf(p, seen, v))
    && (Tidy(d, p) ==> EachOnce(rows))
  }

  lemma {:induction false} RowsGrow(rows: seq<Validator>, more: seq<Validator>, d: Deployment, p: PChain,
                                    seen: set<(string, ID)>, l1: string, subnet: ID)
    requires RowsOf(rows, d, p, seen) && IsTarget(d, l1, subnet) && (Tidy(d, p) ==> (l1, subnet) !in seen)
    requires forall v :: v in more <==>
                         v.l1 == l1 && v.validation in MembersOf(p, subnet) && v.balance == Balance(p, v.validation) &&
                             v.balance > 0
    requires NoDuplicates(MembersOf(p, subnet)) ==> EachOnce(more)
    ensures RowsOf(rows + more, d, p, seen + {(l1, subnet)})
  {
    hide IsTarget, MembersOf, Balance, NoDuplicates;
    if Tidy(d, p) {
      forall i, j | 0 <= i < |rows| && 0 <= j < |more| ensures rows[i].validation != more[j].validation {
        RowsApart(rows, d, p, seen, l1, subnet, rows[i], more[j].validation);
      }
      hide Tidy, IsRowOf;
      JoinOnce(rows, more);
    }
    hide Tidy, EachOnce;
    forall v ensures v in rows + more <==> IsRowOf(p, seen + {(l1, subnet)}, v) {
    }
  }

  lemma {:induction false} RowsApart(rows: seq<Validator>, d: Deployment, p: PChain, seen: set<(string, ID)>,
                                     l1: string, subnet: ID, row: Validator, v: nat)
    requires RowsOf(rows, d, p, seen) && IsTarget(d, l1, subnet) && Tidy(d, p) && (l1, subnet) !in seen
    requires row in rows && v in MembersOf(p, subnet)
    ensures row.validation != v
  {
    hide IsTarget, MembersOf, Balance, NoDuplicates, EachOnce;
  }

  lemma {:induction false} JoinOnce(rows: seq<Validator>, more: seq<Validator>)
    requires EachOnce(rows) && EachOnce(more)
    requires forall i, j :: 0 <= i < |rows| && 0 <= j < |more| ==> rows[i].validation != more[j].validation
    ensures EachOnce(rows + more)
  {
  }

  /** fetch: the rows of every target and of nothing else, each validation once when the P-chain's
      own lists are tidy. */
  method Fetch(d: Deployment, p: PChain) returns (rows: seq<Validator>)
    ensures forall v :: v in rows <==> IsRow(d, p, v)
    ensures Tidy(d, p) ==> EachOnce(rows)
  {
    hide MembersOf, Balance, EachOnce, NoDuplicates, IsRow, IsRowOf;
    rows := [];
    ghost var seen: set<(string, ID)> := {};
    NoRows(d, p);
    if d.management.subnet != 0 {
      rows := AddRows(d, p, rows, seen, MANAGEMENT, d.management.subnet);
      seen := seen + {(MANAGEMENT, d.management.subnet)};
    }
    if d.oracle.subnet != 0 {
      rows := AddRows(d, p, rows, seen, ORACLE, d.oracle.subnet);
      seen := seen + {(ORACLE, d.oracle.subnet)};
    }
    if d.main.subnet != 0 {
      rows := AddRows(d, p, rows, seen, MAIN, d.main.subnet);
      seen := seen + {(MAIN, d.main.subnet)};
    }
    ghost var named := seen;
    var todo := d.chains.Keys;
    while todo != {}
      invariant todo <= d.chains.Keys && RowsOf(rows, d, p, seen)
      invariant forall l1, s :: (l1, s) in seen <==>
                                (l1, s) in named || (l1 in d.chains && l1 !in todo && s == d.chains[l1].subnet)
    {
      hide RowsOf;
      var name :| name in todo;
      todo := todo - {name};
      rows := AddRows(d, p, rows, seen, name, d.chains[name].subnet);
      seen := seen + {(name, d.chains[name].subnet)};
    }
    AllRows(rows, d, p, seen);
  }

  method AddRows(d: Deployment, p: PChain, rows: seq<Validator>, ghost seen: set<(string, ID)>, l1: string, subnet: ID)
    returns (all: seq<Validator>)
    requires RowsOf(rows, d, p, seen) && IsTarget(d, l1, subnet) && (Tidy(d, p) ==> (l1, subnet) !in seen)
    ensures RowsOf(all, d, p, seen + {(l1, subnet)})
  {
    hide RowsOf, IsTarget, Tidy, MembersOf, Balance;
    var more := FetchValidators(p, l1, subnet);
    RowsGrow(rows, more, d, p, seen, l1, subnet);
    all := rows + more;
  }

  lemma {:induction false} NoRows(d: Deployment, p: PChain)
    ensures RowsOf([], d, p, {})
  {
  }

  lemma {:induction false} AllRows(rows: seq<Validator>, d: Deployment, p: PChain, seen: set<(string, ID)>)
    requires RowsOf(rows, d, p, seen)
    requires forall l1: string, subnet: ID :: IsTarget(d, l1, subnet) <==> (l1, subnet) in seen
    ensures forall v :: v in rows <==> IsRow(d, p, v)
    ensures Tidy(d, p) ==> EachOnce(rows)
  {
    hide IsTarget, MembersOf, Balance, Tidy, EachOnce;
    forall v ensures IsRowOf(p, seen, v) <==> IsRow(d, p, v) {
    }
  }

  // ------------------------------------------------------------------------------------------
  // The order of reclaiming

  /** The rows with a balance on one side of the management line, in their order. */
  function Side(rows: seq<Validator>, management: bool): seq<Validator> {
    if rows == [] then [] else
      var rest := rows[..|rows| - 1];
      var last := rows[|rows| - 1];
      if (last.l1 == MANAGEMENT) == management && last.balance > 0 then Side(rest, management) + [last]
      else Side(rest, management)
  }

  lemma {:induction false} SideMembers(rows: seq<Validator>, management: bool)
    ensures forall v :: v in Side(rows, management) <==>
              v in rows && (v.l1 == MANAGEMENT) == management && v.balance > 0
  {
    if rows != [] {
      SideMembers(rows[..|rows| - 1], management);
      assert rows == rows[..|rows| - 1] + [rows[|rows| - 1]];
    }
  }

  lemma {:induction false} SideStep(rows: seq<Validator>, i: nat, management: bool)
    requires i < |rows|
    ensures Side(rows[..i + 1], management)
            == if (rows[i].l1 == MANAGEMENT) == management &&
                rows[i].balance > 0 then Side(rows[..i], management) + [rows[i]]
               else Side(rows[..i], management)
  {
    assert rows[..i + 1][..i] == rows[..i];
  }

  function Active(rows: seq<Validator>): multiset<Validator> {
    if rows == [] then multiset{} else
      var last := rows[|rows| - 1];
      Active(rows[..|rows| - 1]) + if last.balance > 0 then multiset{last} else multiset{}
  }

  /** The two sides together are a permutation of the rows with a balance. */
  lemma {:induction false} SidesAreActive(rows: seq<Validator>)
    ensures multiset(Side(rows, false) + Side(rows, true)) == Active(rows)
  {
    if rows != [] { SidesAreActive(rows[..|rows| - 1]); }
  }

  ghost predicate ManagementLast(ordered: seq<Validator>) {
    forall i, j :: 0 <= i < j < |ordered| && ordered[i].l1 == MANAGEMENT ==> ordered[j].l1 == MANAGEMENT
  }

  /** reclaimableMainBeforeManagement: a permutation of the rows with a balance, management last,
      each side in the report's order. */
  method ReclaimOrder(rows: seq<Validator>) returns (ordered: seq<Validator>)
    ensures multiset(ordered) == Active(rows)
    ensures ManagementLast(ordered)
    ensures ordered == Side(rows, false) + Side(rows, true)
    ensures forall v :: v in ordered <==> v in rows && v.balance > 0
  {
    ordered := [];
    hide ManagementLast;
    hide Active, Side;
    assert Side([], false) == [] && Side([], true) == [] by { SideEmpty(); }
    for i := 0 to |rows|
      invariant ordered == Side(rows[..i], false)
    {
      SideStep(rows, i, false);
      if rows[i].l1 != MANAGEMENT && rows[i].balance > 0 { ordered := ordered + [rows[i]]; }
    }
    assert rows[..|rows|] == rows;
    for i := 0 to |rows|
      invariant ordered == Side(rows, false) + Side(rows[..i], true)
    {
      SideStep(rows, i, true);
      if rows[i].l1 == MANAGEMENT && rows[i].balance > 0 { ordered := ordered + [rows[i]]; }
    }
    SidesAreActive(rows);
    SidesInOrder(rows);
    SideMembers(rows, false);
    SideMembers(rows, true);
  }

  lemma {:induction false} SideEmpty()
    ensures Side([], false) == [] && Side([], true) == []
  {
  }

  lemma {:induction false} SidesInOrder(rows: seq<Validator>)
    ensures ManagementLast(Side(rows, false) + Side(rows, true))
  {
    var first, second := Side(rows, false), Side(rows, true);
    SideMembers(rows, false);
    SideMembers(rows, true);
    hide Side;
    var ordered := first + second;
    forall i, j | 0 <= i < j < |ordered| && ordered[i].l1 == MANAGEMENT ensures ordered[j].l1 == MANAGEMENT {
      assert ordered[j] == second[j - |first|] && second[j - |first|] in second;
    }
  }

  // ------------------------------------------------------------------------------------------
  // Disabling

  ghost predicate Among(rows: seq<Validator>, v: nat) {
    exists i :: 0 <= i < |rows| && rows[i].validation == v
  }

  ghost predicate OnlyDisables(p: PChain, q: PChain, gone: seq<Validator>) {
    q.members == p.members && forall v :: Balance(q, v) == if Among(gone, v) then 0 else Balance(p, v)
  }

  /** execute: one transaction per validator, stopping at the first that fails; `fails` says which
      validations' transactions do. */
  method Execute(p: PChain, ordered: seq<Validator>, fails: nat -> bool) returns (q: PChain, done: nat, ok: bool)
    ensures done <= |ordered| && (ok <==> done == |ordered|)
    ensures OnlyDisables(p, q, ordered[..done])
    ensures forall i :: 0 <= i < done ==> !fails(ordered[i].validation)
    ensures done < |ordered| ==> fails(ordered[done].validation)
  {
    q, done, ok := p, 0, true;
    while done < |ordered|
      invariant done <= |ordered| && ok
      invariant OnlyDisables(p, q, ordered[..done])
      invariant forall i :: 0 <= i < done ==> !fails(ordered[i].validation)
    {
      if fails(ordered[done].validation) { return q, done, false; }
      ghost var was := q;
      q := Disable(q, ordered[done].validation);
      done := done + 1;
      DisableOne(p, was, q, ordered, done - 1);
    }
  }

  lemma {:induction false} DisableOne(p: PChain, q: PChain, r: PChain, ordered: seq<Validator>, n: nat)
    requires n < |ordered| && OnlyDisables(p, q, ordered[..n]) && r == Disable(q, ordered[n].validation)
    ensures OnlyDisables(p, r, ordered[..n + 1])
  {
    var more := ordered[..n + 1];
    assert more[..n] == ordered[..n];
    forall v ensures Among(more, v) <==> Among(ordered[..n], v) || v == ordered[n].validation {
      if Among(ordered[..n], v) {
        var i :| 0 <= i < n && ordered[..n][i].validation == v;
        assert more[i].validation == v;
      }
      if v == ordered[n].validation { assert more[n].validation == v; }
    }
  }

  /** Every validator of a target has been paid back. */
  ghost predicate Reclaimed(d: Deployment, p: PChain) {
    forall l1, subnet, v :: IsTarget(d, l1, subnet) && v in MembersOf(p, subnet) ==> Balance(p, v) == 0
  }

  /** Every validator of a managed L1 has been paid back. */
  ghost predicate ManagedReclaimed(d: Deployment, p: PChain) {
    forall l1, subnet, v :: IsTarget(d, l1, subnet) && l1 != MANAGEMENT && v in MembersOf(p, subnet) ==>
        Balance(p, v) == 0
  }

  /** The ownership preflight, before any transaction. */
  method AllOwned(ordered: seq<Validator>, owned: set<nat>) returns (all: bool)
    ensures all <==> forall v :: v in ordered ==> v.validation in owned
  {
    for i := 0 to |ordered|
      invariant forall v :: v in ordered[..i] ==> v.validation in owned
    {
      if ordered[i].validation !in owned { return false; }
    }
    return true;
  }

  /** Run. Whatever fails on the way: balances only go to zero, only those of the named L1s, the
      management chain's only once every managed L1 is paid back; and success means all are. */
  method Run(d: Deployment, p: PChain, owned: set<nat>, fails: nat -> bool)
    returns (q: PChain, disabled: seq<Validator>, ok: bool)
    ensures ok <==> NothingToReclaim(d) || forall v :: IsRow(d, p, v) ==> v.validation in owned && !fails(v.validation)
    ensures OnlyDisables(p, q, disabled)
    ensures forall v :: v in disabled ==> IsRow(d, p, v) && v.validation in owned
    ensures ok && !NothingToReclaim(d) ==> Reclaimed(d, q)
    ensures NothingToReclaim(d) ==> ok && disabled == []
    ensures (exists v :: v in disabled && v.l1 == MANAGEMENT) ==> ManagedReclaimed(d, q)
  {
    q, disabled, ok := p, [], true;
    if NothingToReclaim(d) { return; }
    hide IsTarget, MembersOf;
    var rows := Fetch(d, p);
    var ordered := ReclaimOrder(rows);
    hide Balance, Side, Active;
    var mine := AllOwned(ordered, owned);
    if !mine { return p, [], false; }
    var done;
    q, done, ok := Execute(p, ordered, fails);
    disabled := ordered[..done];
    AfterExecute(d, p, q, ordered, done);
  }

  /** What a prefix of the reclaim order leaves. */
  lemma {:induction false} AfterExecute(d: Deployment, p: PChain, q: PChain, ordered: seq<Validator>, done: nat)
    requires forall v :: v in ordered <==> IsRow(d, p, v)
    requires done <= |ordered| && ManagementLast(ordered) && OnlyDisables(p, q, ordered[..done])
    ensures done == |ordered| ==> Reclaimed(d, q)
    ensures (exists v :: v in ordered[..done] && v.l1 == MANAGEMENT) ==> ManagedReclaimed(d, q)
  {
    hide IsTarget, Balance;
    assert forall subnet :: MembersOf(q, subnet) == MembersOf(p, subnet);
    hide MembersOf;
    if done == |ordered| {
      forall l1, subnet, v | IsTarget(d, l1, subnet) && v in MembersOf(q, subnet) ensures Balance(q, v) == 0 {
        Paid(d, p, q, ordered, done, done, l1, subnet, v);
      }
    }
    if m :| 0 <= m < done && ordered[..done][m].l1 == MANAGEMENT {
      forall l1, subnet, w | IsTarget(d, l1, subnet) && l1 != MANAGEMENT && w in MembersOf(q, subnet)
        ensures Balance(q, w) == 0
      {
        Paid(d, p, q, ordered, done, m, l1, subnet, w);
      }
    }
  }

  /** A validator whose row comes before position m, or that has no row, is paid back. */
  lemma {:induction false} Paid(d: Deployment, p: PChain, q: PChain, ordered: seq<Validator>, done: nat, m: nat,
                                l1: string, subnet: ID, v: nat)
    requires forall w :: w in ordered <==> IsRow(d, p, w)
    requires m <= done <= |ordered| && ManagementLast(ordered) && OnlyDisables(p, q, ordered[..done])
    requires m == |ordered| || (ordered[m].l1 == MANAGEMENT && l1 != MANAGEMENT)
    requires IsTarget(d, l1, subnet) && v in MembersOf(p, subnet)
    ensures Balance(q, v) == 0
  {
    hide IsTarget, MembersOf, Balance;
    if Balance(p, v) > 0 {
      var row := Validator(l1, v, Balance(p, v));
      assert IsRow(d, p, row);
      var i :| 0 <= i < |ordered| && ordered[i] == row;
      assert i < m;
      assert ordered[..done][i].validation == v;
    }
  }

  lemma {:induction false} RowsActive(d: Deployment, p: PChain)
    ensures forall v :: IsRow(d, p, v) ==> Balance(p, v.validation) > 0
  {
  }

  /** Load and run, from any file creation left behind: success pays back every validator of every
      L1 whose conversion was saved, and nothing outside those L1s is touched. */
  method DestroyCreation(env: Env, texts: map<string, string>, p: PChain, owned: set<nat>, fails: nat -> bool,
                         isHex: string -> bool, ghost steps: seq<Step>, ghost labels: seq<string>)
    returns (q: PChain, ok: bool)
    requires texts.Keys == TEXT_KEYS && Records(env, steps, labels, texts) && Follows(steps, labels) &&
               ValidLabels(labels)
    ensures q.members == p.members
    ensures (forall v :: Balance(p, v) > 0 ==> v in owned && !fails(v)) ==> ok
    ensures ok ==> forall i, v ::
              0 <= i < |labels| && Converted(steps, i) && v in MembersOf(p, AcceptedID(steps, i, Subnet)) ==>
                     Balance(q, v) == 0
    ensures forall v :: Balance(q, v) != Balance(p, v) ==>
              Balance(q, v) == 0
              && exists i :: 0 <= i < |labels| && Converted(steps, i) && v in MembersOf(p, AcceptedID(steps, i, Subnet))
  {
    hide Records, Follows, ValidLabels, Loads, Loaded, Names;
    EveryCrashPointLoads(env, steps, labels, texts, isHex);
    var r := LoadDeployment(env, texts["NETWORK"], false, isHex);
    var d := r.value;
    CrashPointNames(env, steps, labels, texts, d);
    EarlyExitExact(d, steps, labels);
    var disabled;
    q, disabled, ok := Run(d, p, owned, fails);
    RowsActive(d, p);
    hide TEXT_KEYS;
    hide NothingToReclaim, IsTarget, AcceptedID, Balance;
    assert forall subnet :: MembersOf(q, subnet) == MembersOf(p, subnet);
    hide MembersOf;
    if ok {
      forall i, v | 0 <= i < |labels| && Converted(steps, i) && v in MembersOf(p, AcceptedID(steps, i, Subnet))
        ensures Balance(q, v) == 0
      {
        TargetsExact(d, steps, labels, labels[i], AcceptedID(steps, i, Subnet));
      }
    }
    forall v | Balance(q, v) != Balance(p, v)
      ensures exists i :: 0 <= i < |labels| && Converted(steps, i) && v in MembersOf(p, AcceptedID(steps, i, Subnet))
    {
      var k :| 0 <= k < |disabled| && disabled[k].validation == v;
      assert disabled[k] in disabled;
      var subnet :| IsTarget(d, disabled[k].l1, subnet) && v in MembersOf(p, subnet);
      TargetsExact(d, steps, labels, disabled[k].l1, subnet);
    }
  }

  /** The same for the file a creation run leaves when it stops: the last content it saved. */
  method DestroyStopped(c: Creator, env: Env, p: PChain, owned: set<nat>, fails: nat -> bool,
                        isHex: string -> bool) returns (q: PChain, ok: bool)
    requires c.Valid() && c.disks != [] && env == c.disks[|c.disks| - 1]
    ensures |c.disks| - 1 <= |c.accepted| && q.members == p.members
    ensures (forall v :: Balance(p, v) > 0 ==> v in owned && !fails(v)) ==> ok
    ensures var saved := c.accepted[..|c.disks| - 1];
            ok ==> forall i, v ::
                     0 <= i < |c.labels| && Converted(saved, i) && v in MembersOf(p, AcceptedID(saved, i, Subnet)) ==>
                     Balance(q, v) == 0
    ensures var saved := c.accepted[..|c.disks| - 1];
            forall v :: Balance(q, v) != Balance(p, v) ==>
              Balance(q, v) == 0
              && exists i ::
                   0 <= i < |c.labels| && Converted(saved, i) && v in MembersOf(p, AcceptedID(saved, i, Subnet))
  {
    EveryContentLoads(c, |c.disks| - 1, isHex);
    hide Records, Follows, ValidLabels, Balance, MembersOf;
    q, ok := DestroyCreation(env, c.texts, p, owned, fails, isHex, c.accepted[..|c.disks| - 1], c.labels);
  }
}
