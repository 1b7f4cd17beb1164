/** network.env: what State.Save writes (internal/creation/state.go:104-143) and what
    loadDeployment reads back (internal/weights/report.go:103-182). */
module NetworkEnv {
  import opened Wrappers
  import opened StateKeys

  /** A transaction ID; 0 is ids.Empty. */
  type ID = nat

  datatype ChainRecord = ChainRecord(subnet: ID, chainID: ID, convert: ID)

  const NO_RECORD := ChainRecord(0, 0, 0)

  function IdOf(r: ChainRecord, k: Kind): ID {
    match k case Subnet => r.subnet case ChainID => r.chainID case Convert => r.convert
  }

  /** The creation state: management, oracle and main in named fields, every other chain by name. */
  datatype State = State(management: ChainRecord, oracle: ChainRecord, main: ChainRecord,
                         chains: map<string, ChainRecord>, texts: map<string, string>)

  ghost predicate ValidState(s: State) {
    s.texts.Keys == TEXT_KEYS && forall n :: n in s.chains ==> ValidChainName(n) && !IsFixed(n)
  }

  function RecordOf(s: State, l1: string): ChainRecord {
    if l1 == MANAGEMENT then s.management
    else if l1 == MAIN then s.main
    else if l1 == ORACLE then s.oracle
    else if l1 in s.chains then s.chains[l1] else NO_RECORD
  }

  /** setRecord, with the management and oracle fields alongside. */
  function WithRecord(s: State, l1: string, r: ChainRecord): State {
    if l1 == MANAGEMENT then s.(management := r)
    else if l1 == MAIN then s.(main := r)
    else if l1 == ORACLE then s.(oracle := r)
    else s.(chains := s.chains[l1 := r])
  }

  /** A field's value: an ID's encoding, or any other text. */
  datatype Value = Id(id: ID) | Text(text: string)

  type Env = map<string, Value>

  function Lookup(env: Env, key: string): Option<Value> {
    if key in env then Some(env[key]) else None
  }

  /** The value a non-empty ID is written as; an empty one is not written. */
  function Written(id: ID): Option<Value> {
    if id == 0 then None else Some(Id(id))
  }

  ghost predicate IsIDKey(key: string) {
    exists l1, k :: ValidL1(l1) && key == KeyOf(l1, k)
  }

  ghost predicate OnlyKnownKeys(env: Env) {
    forall key :: key in env ==> key in TEXT_KEYS || IsIDKey(key)
  }

  /** What a saved file says: each L1's IDs under its own keys, the texts, nothing else. */
  ghost predicate SavedFile(env: Env, s: State)
    requires ValidState(s)
  {
    && (forall l1, k :: ValidL1(l1) ==> Lookup(env, KeyOf(l1, k)) == Written(IdOf(RecordOf(s, l1), k)))
    && (forall key :: key in TEXT_KEYS ==>
          Lookup(env, key) == if s.texts[key] == "" then None else Some(Text(s.texts[key])))
    && OnlyKnownKeys(env)
  }

  function Put(env: Env, key: string, id: ID): Env {
    if id == 0 then env else env[key := Id(id)]
  }

  function PutRecord(env: Env, l1: string, r: ChainRecord): Env {
    Put(Put(Put(env, KeyOf(l1, Subnet), r.subnet), KeyOf(l1, ChainID), r.chainID), KeyOf(l1, Convert), r.convert)
  }

  lemma {:induction false} PutRecordAt(env: Env, l1: string, r: ChainRecord, b: string, k: Kind)
    requires ValidL1(l1) && ValidL1(b)
    ensures Lookup(PutRecord(env, l1, r), KeyOf(b, k))
            == if b == l1 && IdOf(r, k) != 0 then Written(IdOf(r, k)) else Lookup(env, KeyOf(b, k))
  {
    hide KeyOf, ValidL1;
    KeysInjective(l1, Subnet, b, k);
    KeysInjective(l1, ChainID, b, k);
    KeysInjective(l1, Convert, b, k);
    KeysInjective(l1, Subnet, l1, ChainID);
    KeysInjective(l1, Subnet, l1, Convert);
    KeysInjective(l1, ChainID, l1, Convert);
  }

  lemma {:induction false} PutRecordFrame(env: Env, l1: string, r: ChainRecord)
    requires ValidL1(l1) && OnlyKnownKeys(env)
    ensures OnlyKnownKeys(PutRecord(env, l1, r))
    ensures forall key :: key in TEXT_KEYS ==> Lookup(PutRecord(env, l1, r), key) == Lookup(env, key)
  {
    hide KeyOf, ValidL1;
    KeysInjective(l1, Subnet, l1, Subnet);
    KeysInjective(l1, ChainID, l1, ChainID);
    KeysInjective(l1, Convert, l1, Convert);
    hide TEXT_KEYS;
    assert IsIDKey(KeyOf(l1, Subnet)) && IsIDKey(KeyOf(l1, ChainID)) && IsIDKey(KeyOf(l1, Convert));
  }

  /** A file that holds the records of the L1s in `done` and no text. */
  ghost predicate Partly(env: Env, s: State, done: set<string>) {
    && (forall l1, k :: ValidL1(l1) ==>
          Lookup(env, KeyOf(l1, k)) == if l1 in done then Written(IdOf(RecordOf(s, l1), k)) else None)
    && (forall key :: key in TEXT_KEYS ==> key !in env)
    && OnlyKnownKeys(env)
  }

  lemma {:induction false} PutOne(env: Env, s: State, done: set<string>, l1: string)
    requires Partly(env, s, done) && ValidL1(l1) && l1 !in done
    ensures Partly(PutRecord(env, l1, RecordOf(s, l1)), s, done + {l1})
  {
    hide KeyOf, ValidL1, PutRecord, RecordOf;
    hide TEXT_KEYS;
    var next := PutRecord(env, l1, RecordOf(s, l1));
    PutRecordFrame(env, l1, RecordOf(s, l1));
    forall b, k | ValidL1(b)
      ensures Lookup(next, KeyOf(b, k)) == if b in done + {l1} then Written(IdOf(RecordOf(s, b), k)) else None
    {
      PutRecordAt(env, l1, RecordOf(s, l1), b, k);
    }
    assert forall key :: key in TEXT_KEYS ==> Lookup(next, key) == Lookup(env, key);
  }

  method Save(s: State) returns (env: Env)
    requires ValidState(s)
    ensures SavedFile(env, s)
  {
    hide KeyOf, PutRecord;
    env := PutRecord(map[], MANAGEMENT, s.management);
    PutOne(map[], s, {}, MANAGEMENT);
    PutOne(env, s, {MANAGEMENT}, ORACLE);
    env := PutRecord(env, ORACLE, s.oracle);
    PutOne(env, s, {MANAGEMENT} + {ORACLE}, MAIN);
    env := PutRecord(env, MAIN, s.main);
    ghost var fixed := {MANAGEMENT} + {ORACLE} + {MAIN};
    var todo := s.chains.Keys;
    while todo != {}
      invariant todo <= s.chains.Keys
      invariant Partly(env, s, fixed + (s.chains.Keys - todo))
    {
      hide Partly;
      var name :| name in todo;
      PutOne(env, s, fixed + (s.chains.Keys - todo), name);
      env := PutRecord(env, name, s.chains[name]);
      assert fixed + (s.chains.Keys - todo) + {name} == fixed + (s.chains.Keys - (todo - {name}));
      todo := todo - {name};
    }
    ghost var ids := env;
    var texts := map key | key in TEXT_KEYS && s.texts[key] != "" :: Text(s.texts[key]);
    env := env + texts;
    SavedWhole(ids, s, texts);
  }

  lemma {:induction false} SavedWhole(ids: Env, s: State, texts: Env)
    requires ValidState(s)
    requires Partly(ids, s, {MANAGEMENT} + {ORACLE} + {MAIN} + (s.chains.Keys - {}))
    requires texts == map key | key in TEXT_KEYS && s.texts[key] != "" :: Text(s.texts[key])
    ensures SavedFile(ids + texts, s)
  {
    hide KeyOf, ValidL1;
    hide TEXT_KEYS;
    forall l1, k | ValidL1(l1)
      ensures Lookup(ids + texts, KeyOf(l1, k)) == Written(IdOf(RecordOf(s, l1), k))
    {
      KeysInjective(l1, k, l1, k);
    }
  }

  // ------------------------------------------------------------------------------------------

  datatype ChainDeployment = ChainDeployment(subnet: ID, chainID: ID)

  const NO_DEPLOYMENT := ChainDeployment(0, 0)

  datatype Deployment = Deployment(management: ChainDeployment, managementConvert: ID, oracle: ChainDeployment,
                                   main: ChainDeployment, chains: map<string, ChainDeployment>, managerAddress: string)

  datatype LoadError = WrongNetwork | Missing(key: string) | Invalid(key: string) | Incomplete | NotHex

  /** A field that is present and not blank. */
  predicate Recorded(env: Env, key: string) { key in env && env[key] != Text("") }

  predicate HasID(env: Env, key: string) { key in env && env[key].Id? }

  /** requiredID. */
  function RequiredID(env: Env, key: string): (r: Result<ID, LoadError>)
    ensures r.Ok? <==> HasID(env, key)
    ensures r.Ok? ==> env[key] == Id(r.value)
  {
    if !Recorded(env, key) then Err(Missing(key))
    else match env[key] case Id(id) => Ok(id) case Text(_) => Err(Invalid(key))
  }

  predicate Whole(env: Env, l1: string) {
    HasID(env, KeyOf(l1, Subnet)) && HasID(env, KeyOf(l1, ChainID)) && HasID(env, KeyOf(l1, Convert))
  }

  predicate DerivedWhole(env: Env, name: string) {
    HasID(env, DerivedKey(name, Subnet)) && HasID(env, DerivedKey(name, ChainID)) &&
        HasID(env, DerivedKey(name, Convert))
  }

  function Deployed(env: Env, l1: string): ChainDeployment
    requires Whole(env, l1)
  {
    ChainDeployment(env[KeyOf(l1, Subnet)].id, env[KeyOf(l1, ChainID)].id)
  }

  function DerivedDeployed(env: Env, name: string): ChainDeployment
    requires DerivedWhole(env, name)
  {
    ChainDeployment(env[DerivedKey(name, Subnet)].id, env[DerivedKey(name, ChainID)].id)
  }

  ghost predicate Dynamic(env: Env, name: string) {
    |name| >= 1 && AllNameChars(name) && Recorded(env, DerivedKey(name, Convert))
  }

  function TextAt(env: Env, key: string): string {
    if key in env && env[key].Text? then env[key].text else ""
  }

  /** Whether the file loads: the network matches, whatever recorded its conversion recorded all
      three IDs, and a complete load also needs the main and management conversions and the
      validator-manager address. */
  ghost predicate Loads(env: Env, network: string, complete: bool, isHex: string -> bool) {
    && TextAt(env, "NETWORK") == network
    && (Recorded(env, KeyOf(MANAGEMENT, Convert)) || complete ==> Whole(env, MANAGEMENT))
    && (Recorded(env, KeyOf(ORACLE, Convert)) ==> Whole(env, ORACLE))
    && (Recorded(env, KeyOf(MAIN, Convert)) || complete ==> Whole(env, MAIN))
    && (forall name :: Dynamic(env, name) ==> DerivedWhole(env, name))
    && (complete ==> isHex(TextAt(env, "MANAGER_ADDRESS")))
  }

  /** One named L1 of a loaded deployment: present exactly when its conversion is recorded. */
  ghost predicate Named(env: Env, l1: string, d: ChainDeployment) {
    if Recorded(env, KeyOf(l1, Convert)) then Whole(env, l1) && d == Deployed(env, l1) else d == NO_DEPLOYMENT
  }

  ghost predicate Loaded(env: Env, d: Deployment) {
    && Named(env, MANAGEMENT, d.management) && Named(env, ORACLE, d.oracle) && Named(env, MAIN, d.main)
    && (if Recorded(env, KeyOf(MANAGEMENT, Convert))
        then Lookup(env, KeyOf(MANAGEMENT, Convert)) == Some(Id(d.managementConvert))
        else d.managementConvert == 0)
    && (forall name :: name in d.chains <==> Dynamic(env, name))
    && (forall name :: name in d.chains ==> DerivedWhole(env, name) && d.chains[name] == DerivedDeployed(env, name))
  }

  method LoadNamed(env: Env, l1: string, required: bool) returns (r: Result<ChainDeployment, LoadError>)
    ensures r.Ok? <==> (Recorded(env, KeyOf(l1, Convert)) || required ==> Whole(env, l1))
    ensures r.Ok? ==> Named(env, l1, r.value)
  {
    hide KeyOf;
    if !Recorded(env, KeyOf(l1, Convert)) && !required { return Ok(NO_DEPLOYMENT); }
    var convert := RequiredID(env, KeyOf(l1, Convert));
    if convert.Err? { return Err(convert.error); }
    var chain := RequiredID(env, KeyOf(l1, ChainID));
    if chain.Err? { return Err(chain.error); }
    var subnet := RequiredID(env, KeyOf(l1, Subnet));
    if subnet.Err? { return Err(subnet.error); }
    return Ok(ChainDeployment(subnet.value, chain.value));
  }

  /** The loop over the dynamic keys, visited in any order. */
  method LoadChains(env: Env) returns (r: Result<map<string, ChainDeployment>, LoadError>)
    ensures r.Ok? <==> forall name :: Dynamic(env, name) ==> DerivedWhole(env, name)
    ensures r.Ok? ==> forall name :: name in r.value <==> Dynamic(env, name)
    ensures r.Ok? ==> forall name :: name in r.value ==>
              DerivedWhole(env, name) && r.value[name] == DerivedDeployed(env, name)
  {
    hide DerivedKey, AllNameChars, MatchConvert;
    var chains: map<string, ChainDeployment> := map[];
    var todo := env.Keys;
    while todo != {}
      invariant todo <= env.Keys
      invariant forall name :: name in chains <==> Dynamic(env, name) && DerivedKey(name, Convert) !in todo
      invariant forall name :: name in chains ==> DerivedWhole(env, name) && chains[name] == DerivedDeployed(env, name)
    {
      var key :| key in todo;
      todo := todo - {key};
      MatchExact(key);
      var m := MatchConvert(key);
      if m.None? || env[key] == Text("") {
        assert forall name :: Dynamic(env, name) ==> DerivedKey(name, Convert) != key;
        continue;
      }
      var name := ChainNameFromKey(m.value);
      assert Dynamic(env, name);
      var convert := RequiredID(env, key);
      if convert.Err? { return Err(convert.error); }
      FragmentKeys(key);
      var chain := RequiredID(env, "CHAIN_" + m.value + "_ID");
      if chain.Err? { assert !DerivedWhole(env, name); return Err(chain.error); }
      var subnet := RequiredID(env, "SUBNET_" + m.value + "_ID");
      if subnet.Err? { assert !DerivedWhole(env, name); return Err(subnet.error); }
      forall other | Dynamic(env, other) && DerivedKey(other, Convert) == key ensures other == name {
        DerivedKeysInjective(other, Convert, name, Convert);
      }
      chains := chains[name := ChainDeployment(subnet.value, chain.value)];
    }
    return Ok(chains);
  }

  /** The other two keys spelled from a matched fragment are the name's own. */
  lemma {:induction false} FragmentKeys(key: string)
    requires MatchConvert(key).Some?
    ensures var f := MatchConvert(key).value; var name := ChainNameFromKey(f);
            "CHAIN_" + f + "_ID" == DerivedKey(name, ChainID) && "SUBNET_" + f + "_ID" == DerivedKey(name, Subnet)
  {
    KeyNameInverse(MatchConvert(key).value);
  }

  /** loadDeployment: LoadDeployment is the complete form, LoadDeploymentForDestroy the other. */
  method LoadDeployment(env: Env, network: string, complete: bool, isHex: string -> bool)
    returns (r: Result<Deployment, LoadError>)
    ensures r.Ok? <==> Loads(env, network, complete, isHex)
    ensures r.Ok? ==> Loaded(env, r.value)
    ensures r.Ok? ==> r.value.managerAddress == if complete then TextAt(env, "MANAGER_ADDRESS") else ""
  {
    hide KeyOf, DerivedKey, Dynamic, DerivedWhole, Whole;
    if TextAt(env, "NETWORK") != network { return Err(WrongNetwork); }
    if complete && !Recorded(env, KeyOf(MAIN, Convert)) {
      WholeRecorded(env, MAIN);
      return Err(Incomplete);
    }
    var management := LoadNamed(env, MANAGEMENT, complete);
    if management.Err? { return Err(management.error); }
    var oracle := LoadNamed(env, ORACLE, false);
    if oracle.Err? { return Err(oracle.error); }
    var main := LoadNamed(env, MAIN, complete);
    WholeRecorded(env, MANAGEMENT);
    if main.Err? { return Err(main.error); }
    var chains := LoadChains(env);
    if chains.Err? { return Err(chains.error); }
    if complete && !isHex(TextAt(env, "MANAGER_ADDRESS")) { return Err(NotHex); }
    var convert := match RequiredID(env, KeyOf(MANAGEMENT, Convert)) case Ok(id) => id case Err(_) => 0;
    return Ok(Deployment(management.value, convert, oracle.value, main.value, chains.value,
                         if complete then TextAt(env, "MANAGER_ADDRESS") else ""));
  }

  lemma {:induction false} WholeRecorded(env: Env, l1: string)
    ensures Whole(env, l1) ==> Recorded(env, KeyOf(l1, Convert)) && HasID(env, KeyOf(l1, Convert))
  {
  }
}
