/** Inventory records (internal/config): the machines of nodes.ini after parsing. */
module Config {

  /** The last two are the legacy spellings that the loaders normalize away. */
  datatype Role = Validator | RPC | PChain | Archive | OracleValidator | OracleRPC

  datatype Node = Node(number: nat, host: string, role: Role, chain: string, weight: nat)

  const MAIN_CHAIN := "main"
  const ORACLE_CHAIN := "oracle"

  /** The chain a role serves when the recorded chain may be empty. */
  function EffectiveChain(role: Role, chain: string): (c: string)
  {
    if chain != "" then chain
    else match role
      case OracleValidator => ORACLE_CHAIN
      case OracleRPC => ORACLE_CHAIN
      case PChain => ""
      case _ => MAIN_CHAIN
  }

  /** A named chain is the one served; without a name the legacy oracle roles serve the oracle chain,
      the P-chain node none, and every other role main. */
  lemma {:induction false} ChainDefaults(chain: string)
    ensures chain != "" ==> forall role :: EffectiveChain(role, chain) == chain
    ensures EffectiveChain(Validator, "") == EffectiveChain(RPC, "") == EffectiveChain(Archive, "") == "main"
    ensures EffectiveChain(OracleValidator, "") == EffectiveChain(OracleRPC, "") == "oracle"
    ensures EffectiveChain(PChain, "") == ""
  {
  }

  function ChainOf(node: Node): string {
    EffectiveChain(node.role, node.chain)
  }

  /** Node numbers are pairwise distinct: the loader rejects a repeated number. */
  ghost predicate DistinctNumbers(nodes: seq<Node>) {
    forall i, j :: 0 <= i < j < |nodes| ==> nodes[i].number != nodes[j].number
  }
}
