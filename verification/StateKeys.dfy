/** The network.env key scheme (internal/creation/state.go:46-67, internal/weights/report.go:47-55):
    which key records which ID of which L1, and how a key gives the chain name back. */
module StateKeys {
  import opened Wrappers

  datatype Kind = Subnet | ChainID | Convert

  const MANAGEMENT := "management"
  const MAIN := "main"
  const ORACLE := "oracle"

  predicate NameChar(c: char) { 'a' <= c <= 'z' || '0' <= c <= '9' || c == '-' }
  predicate FragmentChar(c: char) { 'A' <= c <= 'Z' || '0' <= c <= '9' || c == '_' }

  predicate AllNameChars(s: string) { forall i :: 0 <= i < |s| ==> NameChar(s[i]) }
  predicate AllFragmentChars(s: string) { forall i :: 0 <= i < |s| ==> FragmentChar(s[i]) }

  /** The inventory's chain naming rule. */
  predicate ValidChainName(s: string) { 1 <= |s| <= 20 && AllNameChars(s) }

  function UpChar(c: char): char {
    if 'a' <= c <= 'z' then (c as int - 32) as char else if c == '-' then '_' else c
  }

  function DownChar(c: char): char {
    if 'A' <= c <= 'Z' then (c as int + 32) as char else if c == '_' then '-' else c
  }

  /** ChainKey and chainNameFromKey. */
  function ChainKey(name: string): (f: string)
    ensures |f| == |name|
  {
    seq(|name|, i requires 0 <= i < |name| => UpChar(name[i]))
  }

  function ChainNameFromKey(fragment: string): (n: string)
    ensures |n| == |fragment|
  {
    seq(|fragment|, i requires 0 <= i < |fragment| => DownChar(fragment[i]))
  }

  /** The two are inverse bijections between names and key fragments. */
  lemma {:induction false} KeyNameInverse(s: string)
    ensures AllNameChars(s) ==> AllFragmentChars(ChainKey(s)) && ChainNameFromKey(ChainKey(s)) == s
    ensures AllFragmentChars(s) ==> AllNameChars(ChainNameFromKey(s)) && ChainKey(ChainNameFromKey(s)) == s
  {
  }

  /** The derived key of an additional chain. */
  function DerivedKey(name: string, kind: Kind): string {
    match kind
    case Subnet => "SUBNET_" + ChainKey(name) + "_ID"
    case ChainID => "CHAIN_" + ChainKey(name) + "_ID"
    case Convert => "CONVERT_" + ChainKey(name) + "_TX_ID"
  }

  /** StateChainKeys, with the management chain's keys alongside. */
  function KeyOf(l1: string, kind: Kind): string {
    if l1 == MANAGEMENT then
      (match kind
       case Subnet => "MANAGER_SUBNET_ID" case ChainID => "MANAGER_CHAIN_ID" case Convert => "MANAGER_CONVERT_TX_ID")
    else if l1 == MAIN then
      (match kind case Subnet => "SUBNET_ID" case ChainID => "CHAIN_ID" case Convert => "CONVERT_TX_ID")
    else if l1 == ORACLE then
      (match kind
       case Subnet => "ORACLE_SUBNET_ID" case ChainID => "ORACLE_CHAIN_ID" case Convert => "ORACLE_CONVERT_TX_ID")
    else DerivedKey(l1, kind)
  }

  predicate IsFixed(l1: string) { l1 == MANAGEMENT || l1 == MAIN || l1 == ORACLE }

  /** The L1 labels a deployment can record; the inventory reserves "management". */
  predicate ValidL1(l1: string) { IsFixed(l1) || ValidChainName(l1) }

  const TEXT_KEYS: set<string> :=
    {"NETWORK", "MANAGER_ADDRESS", "GENESIS_EVM_ADDRESS", "FEEDER_EVM_ADDRESS", "ORACLE_AGGREGATOR_ADDRESS",
     "ORACLE_RECEIVER_ADDRESS", "ORACLE_PRICEFEED_ADDRESS", "ORACLE_PRICEFEED_AGGREGATOR_ADDRESS"}

  /** What the first letters and the length of a key tell. */
  lemma {:induction false} DerivedKeyShape(name: string, kind: Kind)
    requires |name| >= 1
    ensures var k := DerivedKey(name, kind);
            match kind
            case Subnet => |k| == |name| + 10 && k[0] == 'S' && k[7..|k| - 3] == ChainKey(name)
            case ChainID => |k| == |name| + 9 && k[0] == 'C' && k[1] == 'H' && k[6..|k| - 3] == ChainKey(name)
            case Convert => |k| == |name| + 14 && k[0] == 'C' && k[1] == 'O' && k[8..|k| - 6] == ChainKey(name)
                            && k[..8] == "CONVERT_" && k[|k| - 6..] == "_TX_ID"
  {
  }

  lemma {:induction false} DerivedKeysInjective(a: string, j: Kind, b: string, k: Kind)
    requires |a| >= 1 && |b| >= 1 && AllNameChars(a) && AllNameChars(b)
    requires DerivedKey(a, j) == DerivedKey(b, k)
    ensures a == b && j == k
  {
    hide DerivedKey;
    DerivedKeyShape(a, j);
    DerivedKeyShape(b, k);
    KeyNameInverse(a);
    KeyNameInverse(b);
  }

  /** No derived key is one of the fixed ones or a text field's. */
  lemma {:induction false} DerivedKeysApart(a: string, j: Kind, l1: string, k: Kind)
    requires |a| >= 1 && IsFixed(l1)
    ensures DerivedKey(a, j) != KeyOf(l1, k) && DerivedKey(a, j) !in TEXT_KEYS
  {
    hide DerivedKey;
    DerivedKeyShape(a, j);
  }

  lemma {:induction false} FixedKeysApart(a: string, j: Kind, b: string, k: Kind)
    requires IsFixed(a) && IsFixed(b)
    ensures KeyOf(a, j) == KeyOf(b, k) ==> a == b && j == k
    ensures KeyOf(a, j) !in TEXT_KEYS
  {
    var s, t := KeyOf(a, j), KeyOf(b, k);
    assert |s| != |t| || s[0] != t[0] || (a == b && j == k);
  }

  /** The keys as the file spells them. */
  lemma {:induction false} KeysSpelled()
    ensures KeyOf("management", Subnet) == "MANAGER_SUBNET_ID" && KeyOf("management", ChainID) == "MANAGER_CHAIN_ID"
    ensures KeyOf("management", Convert) == "MANAGER_CONVERT_TX_ID"
    ensures KeyOf("main", Subnet) == "SUBNET_ID" && KeyOf("main", ChainID) == "CHAIN_ID"
    ensures KeyOf("main", Convert) == "CONVERT_TX_ID"
    ensures KeyOf("oracle", Subnet) == "ORACLE_SUBNET_ID" && KeyOf("oracle", ChainID) == "ORACLE_CHAIN_ID"
    ensures KeyOf("oracle", Convert) == "ORACLE_CONVERT_TX_ID"
    ensures KeyOf("risk-2", Subnet) == "SUBNET_RISK_2_ID" && KeyOf("risk-2", ChainID) == "CHAIN_RISK_2_ID"
    ensures KeyOf("risk-2", Convert) == "CONVERT_RISK_2_TX_ID"
  {
    assert ChainKey("risk-2") == "RISK_2";
  }

  /** Per-L1 keys never collide with each other or with the other fields. */
  lemma {:induction false} KeysInjective(a: string, j: Kind, b: string, k: Kind)
    requires ValidL1(a) && ValidL1(b)
    ensures KeyOf(a, j) == KeyOf(b, k) ==> a == b && j == k
    ensures KeyOf(a, j) !in TEXT_KEYS
  {
    hide DerivedKey;
    if !IsFixed(a) { DerivedKeysApart(a, j, MAIN, k); }
    if IsFixed(a) && IsFixed(b) {
      FixedKeysApart(a, j, b, k);
    } else if IsFixed(a) {
      FixedKeysApart(a, j, a, j);
      DerivedKeysApart(b, k, a, j);
    } else if IsFixed(b) {
      DerivedKeysApart(a, j, b, k);
    } else if KeyOf(a, j) == KeyOf(b, k) {
      DerivedKeysInjective(a, j, b, k);
    }
  }

  /** convertKeyPattern: the fragment of a CONVERT_<NAME>_TX_ID key. */
  function MatchConvert(key: string): (r: Option<string>)
  {
    if |key| >= 15 && key[..8] == "CONVERT_" && key[|key| - 6..] == "_TX_ID" && AllFragmentChars(key[8..|key| - 6])
    then Some(key[8..|key| - 6]) else None
  }

  /** The pattern recognises exactly the derived convert keys, and yields their name back; the
      fixed keys and text fields never match. */
  lemma {:induction false} MatchExact(key: string)
    ensures MatchConvert(key).Some? <==>
              exists name :: |name| >= 1 && AllNameChars(name) && key == DerivedKey(name, Convert)
    ensures MatchConvert(key).Some? ==>
              var name := ChainNameFromKey(MatchConvert(key).value);
              |name| >= 1 && AllNameChars(name) && key == DerivedKey(name, Convert)
  {
    if MatchConvert(key).Some? {
      var f := MatchConvert(key).value;
      KeyNameInverse(f);
      assert key == key[..8] + f + key[|key| - 6..];
    }
    if name :| |name| >= 1 && AllNameChars(name) && key == DerivedKey(name, Convert) {
      KeyNameInverse(name);
      DerivedKeyShape(name, Convert);
    }
  }
}
