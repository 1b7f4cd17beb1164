/** Locating the block of a conversion transaction (internal/setweight/setweight.go:269-313, and
    its twin apps/settlement-feed/internal/oraclerelay/epoch.go:50-88, statement for statement
    the same search). */
module Conversion {
  import opened Wrappers

  /** A P-chain block: no timestamp before the Banff format, and its transaction IDs. */
  datatype Block = Block(time: Option<int>, txs: seq<nat>)

  /** Blocks 0..tip, with non-decreasing times and unstamped blocks only at the front. */
  ghost predicate Chronological(blocks: seq<Block>) {
    forall i, j :: 0 <= i < j < |blocks| ==>
      blocks[i].time.None? || (blocks[j].time.Some? && blocks[i].time.value <= blocks[j].time.value)
  }

  predicate Early(b: Block, at: int) { b.time.None? || b.time.value < at }

  /** Stamped at the conversion second and holding the transaction. */
  predicate Hit(b: Block, at: int, tx: nat) { b.time == Some(at) && tx in b.txs }

  /** The least height whose block is a hit, or nothing when no block is. */
  ghost predicate IsAnswer(blocks: seq<Block>, at: int, tx: nat, r: Option<nat>) {
    match r
    case Some(h) => h < |blocks| && Hit(blocks[h], at, tx) && forall i :: 0 <= i < h ==> !Hit(blocks[i], at, tx)
    case None => forall i :: 0 <= i < |blocks| ==> !Hit(blocks[i], at, tx)
  }

  ghost function Pow2(n: nat): nat { if n == 0 then 1 else 2 * Pow2(n - 1) }

  lemma {:induction false} Pow2Grows(n: nat)
    ensures Pow2(n) >= 1
  {
    if n > 0 { Pow2Grows(n - 1); }
  }

  /** Binary search to the first block not before the conversion second. `depth` bounds the number
      of blocks it reads: any depth with 2^depth > tip is enough. */
  method FirstNotBefore(blocks: seq<Block>, at: int, ghost depth: nat) returns (low: nat, ghost probes: nat)
    requires |blocks| > 0 && Chronological(blocks) && |blocks| <= Pow2(depth)
    ensures low < |blocks| && probes <= depth
    ensures forall i :: 0 <= i < low ==> Early(blocks[i], at)
    ensures low < |blocks| - 1 ==> !Early(blocks[low], at)
  {
    low, probes := 0, 0;
    var high := |blocks| - 1;
    ghost var left := depth;
    while low < high
      invariant 0 <= low <= high < |blocks|
      invariant forall i :: 0 <= i < low ==> Early(blocks[i], at)
      invariant high < |blocks| - 1 ==> !Early(blocks[high], at)
      invariant probes + left == depth && high - low < Pow2(left)
      decreases high - low
    {
      var mid := low + (high - low) / 2;
      probes, left := probes + 1, left - 1;
      if Early(blocks[mid], at) {
        low := mid + 1;
      } else {
        high := mid;
      }
    }
  }

  /** The search and the scan of the second it lands on. Answers the least height, up to the tip,
      whose block is stamped at the second and holds the transaction; fails exactly when no block
      does. */
  method FindConversionHeight(blocks: seq<Block>, at: int, tx: nat, ghost depth: nat)
    returns (r: Option<nat>, ghost probes: nat)
    requires |blocks| > 0 && Chronological(blocks) && |blocks| <= Pow2(depth)
    ensures IsAnswer(blocks, at, tx, r)
    ensures probes <= depth
  {
    var low;
    low, probes := FirstNotBefore(blocks, at, depth);
    var height := low;
    while true
      invariant low <= height < |blocks|
      invariant forall i :: 0 <= i < height ==> !Hit(blocks[i], at, tx)
      decreases |blocks| - height
    {
      if blocks[height].time != Some(at) {
        NothingLater(blocks, at, tx, low, height);
        return None, probes;
      }
      for k := 0 to |blocks[height].txs|
        invariant tx !in blocks[height].txs[..k]
      {
        if blocks[height].txs[k] == tx {
          return Some(height), probes;
        }
        assert blocks[height].txs[..k + 1] == blocks[height].txs[..k] + [blocks[height].txs[k]];
      }
      assert blocks[height].txs[..|blocks[height].txs|] == blocks[height].txs;
      if height == |blocks| - 1 {
        return None, probes;
      }
      height := height + 1;
    }
  }

  /** Once the scan leaves the conversion second, no later block can be in it. */
  lemma {:induction false} NothingLater(blocks: seq<Block>, at: int, tx: nat, low: nat, height: nat)
    requires Chronological(blocks) && low <= height < |blocks| && blocks[height].time != Some(at)
    requires low < |blocks| - 1 ==> !Early(blocks[low], at)
    ensures forall i :: height <= i < |blocks| ==> !Hit(blocks[i], at, tx)
  {
    if height < |blocks| - 1 {
      assert !Early(blocks[height], at) by {
        if low < height { assert blocks[low].time.Some?; }
      }
    }
  }

  /** Two answers that both meet the specification are the same, so the two copies of the search
      agree on every chain. */
  lemma {:induction false} AnswerUnique(blocks: seq<Block>, at: int, tx: nat, r: Option<nat>, q: Option<nat>)
    requires IsAnswer(blocks, at, tx, r) && IsAnswer(blocks, at, tx, q)
    ensures r == q
  {
    if r.Some? && q.Some? {
      assert !(r.value < q.value) && !(q.value < r.value);
    }
  }
}
