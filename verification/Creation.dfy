/** Creation as a crash-prone protocol (internal/creation/create.go:398-627): a fixed sequence of
    transactions, the state saved after each acceptance. */
module Creation {
  import opened Wrappers
  import opened StateKeys
  import opened NetworkEnv

  /** What a transaction names: a chain its subnet; a conversion its subnet and the management
      chain whose contract manages it. */
  datatype Tx = CreateSubnet | CreateChain(chainSubnet: ID) | ConvertToL1(l1Subnet: ID, managerChain: ID)

  /** An accepted transaction. */
  datatype Step = Step(l1: string, kind: Kind, id: ID, tx: Tx)

  function KindAt(p: nat): Kind {
    if p % 3 == 0 then Subnet else if p % 3 == 1 then ChainID else Convert
  }

  function Position(k: Kind): nat {
    match k case Subnet => 0 case ChainID => 1 case Convert => 2
  }

  /** The L1s in creation order: management, the oracle when declared, then main and the rest. */
  function Labels(hasOracle: bool, evmChains: seq<string>): seq<string> {
    [MANAGEMENT] + (if hasOracle then [ORACLE] else []) + evmChains
  }

  /** The manifest's guarantee: valid names, pairwise distinct, "management" reserved. */
  ghost predicate ValidLabels(labels: seq<string>) {
    && |labels| >= 1 && labels[0] == MANAGEMENT
    && (forall i :: 0 <= i < |labels| ==> ValidL1(labels[i]))
    && (forall i, j :: 0 <= i < j < |labels| ==> labels[i] != labels[j])
  }

  function ExpectedTx(steps: seq<Step>, p: nat): Tx
    requires p < |steps|
  {
    match KindAt(p)
    case Subnet => CreateSubnet
    case ChainID => CreateChain(steps[p - 1].id)
    case Convert => ConvertToL1(steps[p - 2].id, steps[1].id)
  }

  /** An accepted sequence is a prefix of the plan: step p is transaction p % 3 of L1 p / 3, with
      the IDs of that L1's own earlier steps and the management chain's. */
  ghost predicate Follows(steps: seq<Step>, labels: seq<string>) {
    && |steps| <= 3 * |labels|
    && forall p :: 0 <= p < |steps| ==> Fits(steps, labels, p)
  }

  ghost predicate Fits(steps: seq<Step>, labels: seq<string>, p: nat)
    requires p < |steps| <= 3 * |labels|
  {
    && steps[p].l1 == labels[p / 3] && steps[p].kind == KindAt(p) && steps[p].id != 0
    && steps[p].tx == ExpectedTx(steps, p)
  }

  /** L1 i's conversion is among the steps. */
  predicate Converted(steps: seq<Step>, i: nat) { 3 * i + 3 <= |steps| }

  /** The ID the steps accepted for transaction k of L1 i. */
  function AcceptedID(steps: seq<Step>, i: nat, k: Kind): ID {
    if 3 * i + Position(k) < |steps| then steps[3 * i + Position(k)].id else 0
  }

  /** A file that records exactly the accepted steps. */
  ghost predicate Records(env: Env, steps: seq<Step>, labels: seq<string>, texts: map<string, string>)
    requires texts.Keys == TEXT_KEYS
  {
    && (forall i, k :: 0 <= i < |labels| ==> Lookup(env, KeyOf(labels[i], k)) == Written(AcceptedID(steps, i, k)))
    && (forall l1, k :: ValidL1(l1) && l1 !in labels ==> KeyOf(l1, k) !in env)
    && (forall key :: key in TEXT_KEYS ==>
          Lookup(env, key) == if texts[key] == "" then None else Some(Text(texts[key])))
    && OnlyKnownKeys(env)
  }

  /** The in-memory state after the steps. */
  ghost predicate Reflects(s: State, steps: seq<Step>, labels: seq<string>) {
    && (forall i, k :: 0 <= i < |labels| ==> IdOf(RecordOf(s, labels[i]), k) == AcceptedID(steps, i, k))
    && (forall l1, k :: l1 !in labels ==> IdOf(RecordOf(s, l1), k) == 0)
  }

  lemma {:induction false} SavedRecords(env: Env, s: State, steps: seq<Step>, labels: seq<string>)
    requires ValidState(s) && ValidLabels(labels)
    requires SavedFile(env, s) && Reflects(s, steps, labels)
    ensures Records(env, steps, labels, s.texts)
  {
    hide KeyOf, ValidL1, RecordOf, AcceptedID;
    hide TEXT_KEYS;
  }

  /** The L1s the steps converted, in order. */
  ghost function Conversions(steps: seq<Step>): seq<string> {
    if steps == [] then []
    else
      var last := steps[|steps| - 1];
      Conversions(steps[..|steps| - 1]) + if last.kind == Convert then [last.l1] else []
  }

  /** A complete run converts the labels in order. */
  lemma {:induction false} ConversionsAre(steps: seq<Step>, labels: seq<string>, n: nat)
    requires Follows(steps, labels) && |steps| == 3 * n
    ensures Conversions(steps) == labels[..n]
  {
    if n > 0 {
      var m := 3 * n;
      FollowsPrefix(steps, labels, m - 3);
      ConversionsAre(steps[..m - 3], labels, n - 1);
      LastThree(steps, labels, n);
      assert steps[..m - 1][..m - 2] == steps[..m - 2] && steps[..m - 2][..m - 3] == steps[..m - 3];
      assert Conversions(steps[..m - 2]) == Conversions(steps[..m - 3]);
      assert Conversions(steps[..m - 1]) == Conversions(steps[..m - 2]);
      assert Conversions(steps) == Conversions(steps[..m - 1]) + [labels[n - 1]];
    }
  }

  lemma {:induction false} LastThree(steps: seq<Step>, labels: seq<string>, n: nat)
    requires Follows(steps, labels) && |steps| == 3 * n && n > 0
    ensures steps[3 * n - 3].kind == Subnet && steps[3 * n - 2].kind == ChainID && steps[3 * n - 1].kind == Convert
    ensures steps[3 * n - 1].l1 == labels[n - 1]
  {
    assert Fits(steps, labels, 3 * n - 3) && Fits(steps, labels, 3 * n - 2) && Fits(steps, labels, 3 * n - 1);
  }

  class Creator {
    const hasOracle: bool
    const evmChains: seq<string>
    const labels: seq<string>
    /** Whether the k-th transaction, or the k-th write of the file, fails. */
    const issueFails: nat -> bool
    const saveFails: nat -> bool
    const texts: map<string, string>
    var state: State
    /** Every content network.env has had, oldest first; the file is empty before the first save. */
    var disks: seq<Env>
    var accepted: seq<Step>

    /** Crash safety: content number i records exactly the first i accepted transactions, and at
        most one accepted transaction is unsaved. */
    ghost predicate Valid()
      reads this
    {
      && labels == Labels(hasOracle, evmChains) && ValidLabels(labels) && texts.Keys == TEXT_KEYS
      && ValidState(state) && state.texts == texts
      && Follows(accepted, labels) && Reflects(state, accepted, labels)
      && |disks| <= |accepted| + 1 && (disks == [] ==> accepted == []) && |accepted| <= |disks|
      && forall i :: 0 <= i < |disks| ==> Records(disks[i], accepted[..i], labels, texts)
    }

    ghost predicate Saved() reads this { |disks| == |accepted| + 1 }

    constructor (hasOracle: bool, evmChains: seq<string>, texts: map<string, string>,
                 issueFails: nat -> bool, saveFails: nat -> bool)
      requires ValidLabels(Labels(hasOracle, evmChains)) && texts.Keys == TEXT_KEYS
      ensures Valid() && disks == [] && accepted == []
      ensures this.hasOracle == hasOracle && this.evmChains == evmChains && this.texts == texts
      ensures this.issueFails == issueFails && this.saveFails == saveFails
    {
      this.hasOracle, this.evmChains := hasOracle, evmChains;
      this.issueFails, this.saveFails := issueFails, saveFails;
      this.labels := Labels(hasOracle, evmChains);
      this.texts := texts;
      state := State(NO_RECORD, NO_RECORD, NO_RECORD, map[], texts);
      disks := [];
      accepted := [];
    }

    /** Write, then rename over the old file: a failed save leaves the old content. */
    method SaveState() returns (ok: bool)
      requires Valid() && |disks| == |accepted|
      modifies this`disks
      ensures Valid() && (ok ==> Saved())
      ensures if ok then |disks| == |old(disks)| + 1 && disks[..|old(disks)|] == old(disks) else disks == old(disks)
      ensures ok <==> !saveFails(|old(disks)|)
    {
      hide Records, Reflects, SavedFile;
      hide ValidLabels;
      var env := Save(state);
      ok := !saveFails(|disks|);
      if ok {
        SavedRecords(env, state, accepted, labels);
        assert accepted[..|accepted|] == accepted;
        disks := disks + [env];
      }
    }

    ghost predicate NothingFails() { forall k: nat :: !issueFails(k) && !saveFails(k) }

    lemma {:induction false} RoomToSave()
      ensures NothingFails() ==> !saveFails(0)
    {
    }

    /** One accepted transaction, entered in the L1's record, then saved. */
    method Accept(i: nat, kind: Kind, tx: Tx, record: ChainRecord) returns (ok: bool, next: ChainRecord)
      requires Valid() && Saved()
      requires i < |labels| && |accepted| == 3 * i + Position(kind)
      requires record == RecordOf(state, labels[i])
      requires tx == match kind
                     case Subnet => CreateSubnet
                     case ChainID => CreateChain(record.subnet)
                     case Convert => ConvertToL1(record.subnet, state.management.chainID)
      modifies this
      ensures Valid() && |accepted| >= |old(accepted)| && accepted[..|old(accepted)|] == old(accepted)
      ensures |disks| >= |old(disks)| && disks[..|old(disks)|] == old(disks)
      ensures ok ==> Saved() && |accepted| == |old(accepted)| + 1
      ensures ok ==> next == RecordOf(state, labels[i])
      ensures ok <==> !issueFails(|old(accepted)|) && !saveFails(|old(disks)|)
    {
      hide Records;
      next := record;
      if issueFails(|accepted|) { return false, record; }
      var id: ID := *;
      if id == 0 { id := 1; }
      next := match kind
        case Subnet => record.(subnet := id)
        case ChainID => record.(chainID := id)
        case Convert => record.(convert := id);
      ghost var before := accepted;
      StepFollows(accepted, labels, Step(labels[i], kind, id, tx), i, state);
      StepReflects(state, accepted, labels, Step(labels[i], kind, id, tx), i, next);
      state := WithRecord(state, labels[i], next);
      accepted := accepted + [Step(labels[i], kind, id, tx)];
      forall j | 0 <= j < |disks| ensures accepted[..j] == before[..j] {
      }
      ok := SaveState();
    }

    /** Subnet, chain, conversion of one L1. */
    method CreateL1(i: nat) returns (ok: bool)
      requires Valid() && Saved() && i < |labels| && |accepted| == 3 * i
      modifies this
      ensures Valid() && |accepted| >= |old(accepted)| && accepted[..|old(accepted)|] == old(accepted)
      ensures |disks| >= |old(disks)| && disks[..|old(disks)|] == old(disks)
      ensures ok ==> Saved() && |accepted| == 3 * i + 3
      ensures NothingFails() ==> ok
    {
      hide Records, Follows;
      hide ValidLabels, RecordOf;
      FreshRecord(state, accepted, labels, i);
      var record := NO_RECORD;
      ok, record := Accept(i, Subnet, CreateSubnet, record);
      if !ok { return; }
      ok, record := Accept(i, ChainID, CreateChain(record.subnet), record);
      if !ok { return; }
      ok, record := Accept(i, Convert, ConvertToL1(record.subnet, state.management.chainID), record);
    }

    /** create: whichever transaction or save fails, every content the file had is crash-safe. */
    method Create() returns (ok: bool)
      requires Valid() && disks == [] && accepted == []
      modifies this
      ensures Valid()
      ensures ok ==> Saved() && |accepted| == 3 * |labels|
      ensures ok ==>
                var converted, first := Conversions(accepted), if hasOracle then 2 else 1;
                && |converted| == first + |evmChains| && converted[0] == "management"
                && (hasOracle ==> converted[1] == "oracle")
                && forall k :: 0 <= k < |evmChains| ==> converted[first + k] == evmChains[k]
      ensures NothingFails() ==> ok
    {
      hide Records, Follows, Conversions, NothingFails;
      hide ValidLabels;
      RoomToSave();
      ok := SaveState();
      if !ok { return; }
      for i := 0 to |labels|
        invariant Valid() && Saved() && |accepted| == 3 * i && ok
        invariant NothingFails() ==> ok
      {
        ok := CreateL1(i);
        if !ok { return; }
      }
      ConversionsAre(accepted, labels, |labels|);
      assert labels[..|labels|] == labels;
    }
  }

  lemma {:induction false} FreshRecord(s: State, steps: seq<Step>, labels: seq<string>, i: nat)
    requires Reflects(s, steps, labels) && i < |labels| && |steps| <= 3 * i
    ensures RecordOf(s, labels[i]) == NO_RECORD
  {
    hide RecordOf;
    assert IdOf(RecordOf(s, labels[i]), Subnet) == 0;
    assert IdOf(RecordOf(s, labels[i]), ChainID) == 0;
    assert IdOf(RecordOf(s, labels[i]), Convert) == 0;
  }

  lemma {:induction false} StepFollows(steps: seq<Step>, labels: seq<string>, s: Step, i: nat, state: State)
    requires Follows(steps, labels) && ValidLabels(labels) && i < |labels| && Reflects(state, steps, labels)
    requires |steps| == 3 * i + Position(s.kind) && s.l1 == labels[i] && s.id != 0
    requires var record := RecordOf(state, labels[i]);
             s.tx == match s.kind
                     case Subnet => CreateSubnet
                     case ChainID => CreateChain(record.subnet)
                     case Convert => ConvertToL1(record.subnet, state.management.chainID)
    ensures Follows(steps + [s], labels)
  {
    hide RecordOf;
    hide Follows, ValidL1;
    assert IdOf(RecordOf(state, labels[i]), Subnet) == AcceptedID(steps, i, Subnet);
    assert IdOf(RecordOf(state, labels[0]), ChainID) == AcceptedID(steps, 0, ChainID);
    Management(state);
    FollowsOn(steps, labels, s, i);
  }

  lemma {:induction false} FollowsOn(steps: seq<Step>, labels: seq<string>, s: Step, i: nat)
    requires Follows(steps, labels) && i < |labels|
    requires |steps| == 3 * i + Position(s.kind) && s.l1 == labels[i] && s.id != 0
    requires s.tx == match s.kind
                     case Subnet => CreateSubnet
                     case ChainID => CreateChain(AcceptedID(steps, i, Subnet))
                     case Convert => ConvertToL1(AcceptedID(steps, i, Subnet), AcceptedID(steps, 0, ChainID))
    ensures Follows(steps + [s], labels)
  {
    FitsLast(steps, labels, s, i);
    hide Fits;
    forall p | 0 <= p < |steps| ensures Fits(steps + [s], labels, p) {
      FitsStable(steps, labels, s, p);
    }
  }

  lemma {:induction false} FitsLast(steps: seq<Step>, labels: seq<string>, s: Step, i: nat)
    requires i < |labels| && |steps| == 3 * i + Position(s.kind) && s.l1 == labels[i] && s.id != 0
    requires s.tx == match s.kind
                     case Subnet => CreateSubnet
                     case ChainID => CreateChain(AcceptedID(steps, i, Subnet))
                     case Convert => ConvertToL1(AcceptedID(steps, i, Subnet), AcceptedID(steps, 0, ChainID))
    ensures Fits(steps + [s], labels, |steps|)
  {
    assert |steps| / 3 == i && KindAt(|steps|) == s.kind;
  }

  lemma {:induction false} FitsStable(steps: seq<Step>, labels: seq<string>, s: Step, p: nat)
    requires p < |steps| < 3 * |labels| && Fits(steps, labels, p)
    ensures Fits(steps + [s], labels, p)
  {
  }

  lemma {:induction false} Management(s: State)
    ensures RecordOf(s, MANAGEMENT) == s.management
  {
  }

  lemma {:induction false} RecordAfter(s: State, l1: string, r: ChainRecord, b: string)
    ensures RecordOf(WithRecord(s, l1, r), b) == if b == l1 then r else RecordOf(s, b)
  {
  }

  lemma {:induction false} StepReflects(state: State, steps: seq<Step>, labels: seq<string>, s: Step, i: nat,
                                        next: ChainRecord)
    requires ValidLabels(labels) && ValidState(state) && Reflects(state, steps, labels)
    requires i < |labels| && |steps| == 3 * i + Position(s.kind) && s.l1 == labels[i]
    requires forall k :: IdOf(next, k) == if k == s.kind then s.id else IdOf(RecordOf(state, labels[i]), k)
    ensures ValidState(WithRecord(state, labels[i], next))
    ensures Reflects(WithRecord(state, labels[i], next), steps + [s], labels)
  {
    var after := WithRecord(state, labels[i], next);
    var more := steps + [s];
    assert ValidState(after);
    hide RecordOf, WithRecord, ValidL1;
    forall j, k | 0 <= j < |labels| ensures IdOf(RecordOf(after, labels[j]), k) == AcceptedID(more, j, k) {
      RecordAfter(state, labels[i], next, labels[j]);
      assert IdOf(RecordOf(state, labels[j]), k) == AcceptedID(steps, j, k);
    }
    forall l1, k | l1 !in labels ensures IdOf(RecordOf(after, l1), k) == 0 {
      RecordAfter(state, labels[i], next, l1);
    }
  }

  // ------------------------------------------------------------------------------------------
  // What destroy makes of any crash point

  /** The deployment names L1 i exactly when it converted, with its accepted IDs. */
  ghost predicate Names(d: Deployment, steps: seq<Step>, labels: seq<string>) {
    && (forall i :: 0 <= i < |labels| ==> NamesL1(d, labels[i], steps, i))
    && (ORACLE !in labels ==> d.oracle == NO_DEPLOYMENT)
    && (MAIN !in labels ==> d.main == NO_DEPLOYMENT)
    && (forall name :: name in d.chains ==> name in labels && !IsFixed(name))
  }

  ghost predicate NamesL1(d: Deployment, l1: string, steps: seq<Step>, i: nat) {
    var ids := ChainDeployment(AcceptedID(steps, i, Subnet), AcceptedID(steps, i, ChainID));
    if l1 == MANAGEMENT then d.management == (if Converted(steps, i) then ids else NO_DEPLOYMENT)
    else if l1 == MAIN then d.main == (if Converted(steps, i) then ids else NO_DEPLOYMENT)
    else if l1 == ORACLE then d.oracle == (if Converted(steps, i) then ids else NO_DEPLOYMENT)
    else (l1 in d.chains <==> Converted(steps, i)) && (l1 in d.chains ==> d.chains[l1] == ids)
  }

  /** What the file says of one planned L1. */
  lemma {:induction false} RecordedL1(env: Env, steps: seq<Step>, labels: seq<string>, texts: map<string, string>,
                                      i: nat)
    requires texts.Keys == TEXT_KEYS && Records(env, steps, labels, texts) && Follows(steps, labels) && i < |labels|
    ensures Recorded(env, KeyOf(labels[i], Convert)) <==> Converted(steps, i)
    ensures Converted(steps, i) ==> Whole(env, labels[i])
                                    && Deployed(env, labels[i])
                                       == ChainDeployment(AcceptedID(steps, i, Subnet), AcceptedID(steps, i, ChainID))
  {
    hide KeyOf, OnlyKnownKeys;
    hide TEXT_KEYS;
    var l1 := labels[i];
    assert Lookup(env, KeyOf(l1, Subnet)) == Written(AcceptedID(steps, i, Subnet));
    assert Lookup(env, KeyOf(l1, ChainID)) == Written(AcceptedID(steps, i, ChainID));
    assert Lookup(env, KeyOf(l1, Convert)) == Written(AcceptedID(steps, i, Convert));
    if Converted(steps, i) {
      assert Fits(steps, labels, 3 * i) && Fits(steps, labels, 3 * i + 1) && Fits(steps, labels, 3 * i + 2);
    }
  }

  /** A dynamic key of the file belongs to a planned L1 that converted. */
  lemma {:induction false} DynamicL1(env: Env, steps: seq<Step>, labels: seq<string>, texts: map<string, string>,
                                     name: string) returns (i: nat)
    requires texts.Keys == TEXT_KEYS && Records(env, steps, labels, texts) && Follows(steps, labels) &&
               ValidLabels(labels)
    requires Dynamic(env, name)
    ensures i < |labels| && labels[i] == name && !IsFixed(name) && Converted(steps, i)
  {
    hide KeyOf, DerivedKey, AllNameChars, Follows;
    hide TEXT_KEYS;
    var key := DerivedKey(name, Convert);
    DerivedKeysApart(name, Convert, MAIN, Convert);
    assert IsIDKey(key);
    var l1, k :| ValidL1(l1) && key == KeyOf(l1, k);
    if IsFixed(l1) { DerivedKeysApart(name, Convert, l1, k); }
    DerivedKeyIs(l1, k);
    DerivedKeysInjective(name, Convert, l1, k);
    assert name in labels;
    i :| 0 <= i < |labels| && labels[i] == name;
    RecordedL1(env, steps, labels, texts, i);
    DerivedKeyIs(name, Convert);
  }

  lemma {:induction false} DerivedKeyIs(l1: string, k: Kind)
    ensures !IsFixed(l1) ==> KeyOf(l1, k) == DerivedKey(l1, k)
  {
  }

  lemma {:induction false} UnplannedL1(env: Env, steps: seq<Step>, labels: seq<string>, texts: map<string, string>,
                                       l1: string)
    requires texts.Keys == TEXT_KEYS && Records(env, steps, labels, texts) && ValidL1(l1) && l1 !in labels
    ensures !Recorded(env, KeyOf(l1, Convert))
  {
  }

  /** Every saved content loads for destroy. */
  lemma {:induction false} EveryCrashPointLoads(env: Env, steps: seq<Step>, labels: seq<string>,
                                                texts: map<string, string>, isHex: string -> bool)
    requires texts.Keys == TEXT_KEYS && Records(env, steps, labels, texts) && Follows(steps, labels) &&
               ValidLabels(labels)
    ensures Loads(env, texts["NETWORK"], false, isHex)
  {
    hide KeyOf, DerivedKey, Dynamic, DerivedWhole, Whole, Follows, Recorded, ValidL1;
    forall l1 | l1 == MANAGEMENT || l1 == ORACLE || l1 == MAIN
      ensures Recorded(env, KeyOf(l1, Convert)) ==> Whole(env, l1)
    {
      FixedLoads(env, steps, labels, texts, l1);
    }
    forall name | Dynamic(env, name) ensures DerivedWhole(env, name) {
      var i := DynamicL1(env, steps, labels, texts, name);
      DerivedLoads(env, steps, labels, texts, i);
    }
    assert Lookup(env, "NETWORK") == if texts["NETWORK"] == "" then None else Some(Text(texts["NETWORK"]));
  }

  lemma {:induction false} FixedLoads(env: Env, steps: seq<Step>, labels: seq<string>, texts: map<string, string>,
                                      l1: string)
    requires texts.Keys == TEXT_KEYS && Records(env, steps, labels, texts) && Follows(steps, labels)
    requires IsFixed(l1)
    ensures Recorded(env, KeyOf(l1, Convert)) ==> Whole(env, l1)
  {
    hide KeyOf, Follows, Records, Whole, Recorded;
    hide TEXT_KEYS;
    if l1 in labels {
      var i :| 0 <= i < |labels| && labels[i] == l1;
      RecordedL1(env, steps, labels, texts, i);
    } else {
      UnplannedL1(env, steps, labels, texts, l1);
    }
  }

  lemma {:induction false} DerivedLoads(env: Env, steps: seq<Step>, labels: seq<string>, texts: map<string, string>,
                                        i: nat)
    requires texts.Keys == TEXT_KEYS && Records(env, steps, labels, texts) && Follows(steps, labels)
    requires i < |labels| && !IsFixed(labels[i])
    ensures Converted(steps, i) ==>
              && DerivedWhole(env, labels[i])
              && DerivedDeployed(env, labels[i])
                 == ChainDeployment(AcceptedID(steps, i, Subnet), AcceptedID(steps, i, ChainID))
  {
    hide KeyOf, DerivedKey, Follows, Records;
    hide TEXT_KEYS;
    RecordedL1(env, steps, labels, texts, i);
    DerivedKeyIs(labels[i], Subnet);
    DerivedKeyIs(labels[i], ChainID);
    DerivedKeyIs(labels[i], Convert);
  }

  /** What loads names exactly the L1s converted so far, with their accepted subnet and chain IDs. */
  lemma {:induction false} CrashPointNames(env: Env, steps: seq<Step>, labels: seq<string>,
                                           texts: map<string, string>, d: Deployment)
    requires texts.Keys == TEXT_KEYS && Records(env, steps, labels, texts) && Follows(steps, labels) &&
               ValidLabels(labels)
    requires Loaded(env, d)
    ensures Names(d, steps, labels)
  {
    hide KeyOf, DerivedKey, Dynamic, DerivedWhole, Whole, Follows, Records, Recorded, AcceptedID, AllNameChars;
    hide TEXT_KEYS;
    forall i | 0 <= i < |labels| ensures NamesL1(d, labels[i], steps, i) {
      RecordedL1(env, steps, labels, texts, i);
      if !IsFixed(labels[i]) {
        DerivedLoads(env, steps, labels, texts, i);
        PlannedDynamic(env, steps, labels, texts, i);
      }
    }
    if ORACLE !in labels { UnplannedL1(env, steps, labels, texts, ORACLE); }
    if MAIN !in labels { UnplannedL1(env, steps, labels, texts, MAIN); }
    forall name | name in d.chains ensures name in labels && !IsFixed(name) {
      var i := DynamicL1(env, steps, labels, texts, name);
    }
  }

  lemma {:induction false} PlannedDynamic(env: Env, steps: seq<Step>, labels: seq<string>,
                                          texts: map<string, string>, i: nat)
    requires texts.Keys == TEXT_KEYS && Records(env, steps, labels, texts) && Follows(steps, labels) &&
               ValidLabels(labels)
    requires i < |labels| && !IsFixed(labels[i])
    ensures Dynamic(env, labels[i]) <==> Converted(steps, i)
  {
    hide KeyOf, DerivedKey, Follows, Records, AllNameChars;
    hide TEXT_KEYS;
    RecordedL1(env, steps, labels, texts, i);
    DerivedKeyIs(labels[i], Convert);
  }

  lemma {:induction false} FollowsPrefix(steps: seq<Step>, labels: seq<string>, n: nat)
    requires Follows(steps, labels) && n <= |steps|
    ensures Follows(steps[..n], labels)
  {
    forall p | 0 <= p < n ensures Fits(steps[..n], labels, p) {
      assert Fits(steps, labels, p);
    }
  }

  /** Every content that a creation run gave the file, wherever it stopped, loads for destroy and
      names exactly the L1s converted by the transactions accepted before that save. */
  lemma {:induction false} EveryContentLoads(c: Creator, i: nat, isHex: string -> bool)
    requires c.Valid() && i < |c.disks|
    ensures Loads(c.disks[i], c.texts["NETWORK"], false, isHex)
    ensures forall d :: Loaded(c.disks[i], d) ==> Names(d, c.accepted[..i], c.labels)
    ensures i <= |c.accepted| && Follows(c.accepted[..i], c.labels)
    ensures Records(c.disks[i], c.accepted[..i], c.labels, c.texts)
  {
    hide Follows, Loads, Loaded, Names, Reflects, ValidLabels;
    FollowsPrefix(c.accepted, c.labels, i);
    EveryCrashPointLoads(c.disks[i], c.accepted[..i], c.labels, c.texts, isHex);
    forall d | Loaded(c.disks[i], d) ensures Names(d, c.accepted[..i], c.labels) {
      CrashPointNames(c.disks[i], c.accepted[..i], c.labels, c.texts, d);
    }
  }

  /** The complete load, which every other command uses, accepts exactly the crash points after
      the main conversion. */
  lemma {:induction false} CompleteLoadExact(env: Env, steps: seq<Step>, labels: seq<string>,
                                             texts: map<string, string>, isHex: string -> bool)
    requires texts.Keys == TEXT_KEYS && Records(env, steps, labels, texts) && Follows(steps, labels) &&
               ValidLabels(labels)
    requires isHex(texts["MANAGER_ADDRESS"]) && !isHex("")
    ensures Loads(env, texts["NETWORK"], true, isHex)
            <==> exists i :: 0 <= i < |labels| && labels[i] == MAIN && Converted(steps, i)
  {
    var network := texts["NETWORK"];
    hide Records, Follows, ValidLabels, Loads, Converted;
    hide TEXT_KEYS;
    if Loads(env, network, true, isHex) {
      LoadedMainConverted(env, steps, labels, texts, isHex);
    }
    if i :| 0 <= i < |labels| && labels[i] == MAIN && Converted(steps, i) {
      ConvertedMainLoads(env, steps, labels, texts, isHex, i);
    }
  }

  lemma {:induction false} LoadedMainConverted(env: Env, steps: seq<Step>, labels: seq<string>,
                                               texts: map<string, string>,
                                               isHex: string -> bool)
    requires texts.Keys == TEXT_KEYS && Records(env, steps, labels, texts) && Follows(steps, labels)
    requires Loads(env, texts["NETWORK"], true, isHex)
    ensures exists i :: 0 <= i < |labels| && labels[i] == MAIN && Converted(steps, i)
  {
    WholeRecorded(env, MAIN);
    MainIsL1();
    hide KeyOf, Dynamic, DerivedWhole, Whole, Follows, Recorded, ValidL1, Records;
    hide TEXT_KEYS;
    if MAIN in labels {
      var i :| 0 <= i < |labels| && labels[i] == MAIN;
      RecordedL1(env, steps, labels, texts, i);
    } else {
      UnplannedL1(env, steps, labels, texts, MAIN);
    }
  }

  lemma {:induction false} ConvertedMainLoads(env: Env, steps: seq<Step>, labels: seq<string>,
                                              texts: map<string, string>,
                                              isHex: string -> bool, i: nat)
    requires texts.Keys == TEXT_KEYS && Records(env, steps, labels, texts) && Follows(steps, labels) &&
               ValidLabels(labels)
    requires isHex(texts["MANAGER_ADDRESS"]) && !isHex("")
    requires i < |labels| && labels[i] == MAIN && Converted(steps, i)
    ensures Loads(env, texts["NETWORK"], true, isHex)
  {
    EveryCrashPointLoads(env, steps, labels, texts, isHex);
    assert Lookup(env, "MANAGER_ADDRESS") == Some(Text(texts["MANAGER_ADDRESS"]));
    hide KeyOf, Dynamic, DerivedWhole, Whole, Follows, Recorded, ValidL1, Records;
    hide TEXT_KEYS;
    RecordedL1(env, steps, labels, texts, 0);
    RecordedL1(env, steps, labels, texts, i);
  }

  lemma {:induction false} MainIsL1()
    ensures ValidL1(MAIN)
  {
  }
}
