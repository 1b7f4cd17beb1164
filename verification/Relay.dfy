/** The Warp price relay (apps/settlement-feed/internal/oraclerelay/relay.go): sequence gate,
    opportunistic batching, one delivery transaction per batch. */
module Relay {
  import opened Wrappers
  import opened Words
  import opened Predicate

  const MAX_BATCH: nat := 16
  /** One subscription log: it decodes to a submission or it is malformed, which is fatal. The
      payload's sequence number is a uint256 of which the gate keeps the low 64 bits. */
  datatype Log = Submission(asset: nat, seq256: nat, unsigned: seq<byte>) | Malformed

  /** The sequence number the gate compares. */
  function SeqOf(log: Log): nat
    requires log.Submission?
  {
    log.seq256 % TWO_64
  }

  /** Highest sequence number let through per asset; an absent asset counts as 0. */
  type Gate = map<nat, nat>

  function Latest(g: Gate, asset: nat): nat {
    if asset in g then g[asset] else 0
  }

  ghost predicate AllDecode(logs: seq<Log>) {
    forall i :: 0 <= i < |logs| ==> logs[i].Submission?
  }

  /** The gate after a stream, and what it lets through, one log at a time. */
  ghost function GateAfter(g: Gate, logs: seq<Log>): Gate
    requires AllDecode(logs)
  {
    if logs == [] then g
    else
      var before := GateAfter(g, logs[..|logs| - 1]);
      var last := logs[|logs| - 1];
      if SeqOf(last) <= Latest(before, last.asset) then before else before[last.asset := SeqOf(last)]
  }

  ghost function Passed(g: Gate, logs: seq<Log>): (r: seq<Log>)
    requires AllDecode(logs)
    ensures AllDecode(r)
  {
    if logs == [] then []
    else
      var last := logs[|logs| - 1];
      Passed(g, logs[..|logs| - 1])
      + (if SeqOf(last) <= Latest(GateAfter(g, logs[..|logs| - 1]), last.asset) then [] else [last])
  }

  lemma {:induction false} FilterStep(g: Gate, logs: seq<Log>, log: Log)
    requires AllDecode(logs) && log.Submission?
    ensures AllDecode(logs + [log])
    ensures var now := GateAfter(g, logs);
            var fresher := SeqOf(log) > Latest(now, log.asset);
            && GateAfter(g, logs + [log]) == (if fresher then now[log.asset := SeqOf(log)] else now)
            && Passed(g, logs + [log]) == Passed(g, logs) + (if fresher then [log] else [])
  {
    hide SeqOf;
    assert (logs + [log])[..|logs|] == logs;
  }

  /** The filter splits over concatenation: batching boundaries do not matter. */
  lemma {:induction false} FilterSplits(g: Gate, a: seq<Log>, b: seq<Log>)
    requires AllDecode(a) && AllDecode(b)
    ensures AllDecode(a + b)
    ensures GateAfter(g, a + b) == GateAfter(GateAfter(g, a), b)
    ensures Passed(g, a + b) == Passed(g, a) + Passed(GateAfter(g, a), b)
  {
    hide GateAfter, Passed, SeqOf, Latest;
    if b == [] {
      assert a + b == a;
      FilterNothing(GateAfter(g, a));
    } else {
      var init, last := b[..|b| - 1], b[|b| - 1];
      FilterSplits(g, a, init);
      FilterStep(g, a + init, last);
      FilterStep(GateAfter(g, a), init, last);
      assert init + [last] == b && (a + init) + [last] == a + b;
    }
  }

  /** Log k is a strict record high: above zero and above every earlier log of its asset. */
  ghost predicate RecordHigh(logs: seq<Log>, k: nat)
    requires AllDecode(logs) && k < |logs|
  {
    SeqOf(logs[k]) > 0 && forall i :: 0 <= i < k && logs[i].asset == logs[k].asset ==> SeqOf(logs[i]) < SeqOf(logs[k])
  }

  /** From an empty gate, the remembered value is the greatest sequence number seen. */
  lemma {:induction false} GateIsMaximum(logs: seq<Log>, asset: nat)
    requires AllDecode(logs)
    ensures forall i :: 0 <= i < |logs| && logs[i].asset == asset ==>
              SeqOf(logs[i]) <= Latest(GateAfter(map[], logs), asset)
    ensures Latest(GateAfter(map[], logs), asset) == 0
            || exists i ::
                 0 <= i < |logs| && logs[i].asset == asset && SeqOf(logs[i]) == Latest(GateAfter(map[], logs), asset)
  {
    if logs != [] {
      var init, last := logs[..|logs| - 1], logs[|logs| - 1];
      GateIsMaximum(init, asset);
      if Latest(GateAfter(map[], init), asset) != 0 {
        var i :| 0 <= i < |init| && init[i].asset == asset && SeqOf(init[i]) == Latest(GateAfter(map[], init), asset);
        assert logs[i] == init[i];
      }
      assert logs[|logs| - 1] == last;
    }
  }

  /** The positions of the record highs, in order. */
  ghost function Records(logs: seq<Log>): seq<Log>
    requires AllDecode(logs)
  {
    if logs == [] then []
    else Records(logs[..|logs| - 1]) + (if RecordHigh(logs, |logs| - 1) then [logs[|logs| - 1]] else [])
  }

  /** What the gate lets through a fresh relay is exactly the strict record highs, in order. */
  lemma {:induction false} PassedAreRecords(logs: seq<Log>)
    requires AllDecode(logs)
    ensures Passed(map[], logs) == Records(logs)
  {
    if logs != [] {
      var init, last := logs[..|logs| - 1], logs[|logs| - 1];
      PassedAreRecords(init);
      GateIsMaximum(init, last.asset);
      var top := Latest(GateAfter(map[], init), last.asset);
      if RecordHigh(logs, |init|) {
        if top != 0 {
          var i :| 0 <= i < |init| && init[i].asset == last.asset && SeqOf(init[i]) == top;
          assert SeqOf(logs[i]) < SeqOf(last);
        }
      } else if SeqOf(last) > 0 {
        var i :| 0 <= i < |init| && logs[i].asset == last.asset && SeqOf(logs[i]) >= SeqOf(last);
        assert init[i] == logs[i];
      }
    }
  }

  ghost function Concat(batches: seq<seq<Log>>): seq<Log> {
    if batches == [] then [] else Concat(batches[..|batches| - 1]) + batches[|batches| - 1]
  }

  lemma {:induction false} ConcatAppend(batches: seq<seq<Log>>, batch: seq<Log>)
    ensures Concat(batches + [batch]) == Concat(batches) + batch
  {
    assert (batches + [batch])[..|batches|] == batches;
  }

  lemma {:induction false} FilterNothing(g: Gate)
    ensures Passed(g, []) == [] && GateAfter(g, []) == g
  {
  }

  lemma {:induction false} EmptyStream()
    ensures Concat([]) == Passed(map[], []) == [] && GateAfter(map[], []) == map[]
  {
  }

  /** The freshness gate object. */
  class FreshnessGate {
    var latestSeq: Gate

    constructor ()
      ensures latestSeq == map[]
    {
      latestSeq := map[];
    }

    method Fresher(asset: nat, sequence: nat) returns (fresh': bool)
      modifies this
      ensures fresh' <==> sequence > Latest(old(latestSeq), asset)
      ensures latestSeq == if fresh' then old(latestSeq)[asset := sequence] else old(latestSeq)
    {
      if sequence <= (if asset in latestSeq then latestSeq[asset] else 0) {
        return false;
      }
      latestSeq := latestSeq[asset := sequence];
      return true;
    }

    /** collectBatch: the triggering log plus whatever is buffered, up to 16 survivors, never
        waiting. `stream[pos..]` is what the subscription will yield, and `ready(j)` says whether
        log j is already buffered when it is polled for. A log that does not decode ends the relay. */
    method CollectBatch(stream: seq<Log>, pos: nat,
                        ready: nat -> bool) returns (batch: seq<Log>, next: nat, fatal: bool)
      requires pos < |stream|
      modifies this
      ensures pos < next <= |stream| && |batch| <= MAX_BATCH
      ensures forall j :: pos < j < next ==> ready(j)
      ensures !fatal && next < |stream| && |batch| < MAX_BATCH ==> !ready(next)
      ensures fatal <==> !AllDecode(stream[pos..next])
      ensures fatal ==> AllDecode(stream[pos..next - 1]) && batch == Passed(old(latestSeq), stream[pos..next - 1])
      ensures !fatal ==> batch == Passed(old(latestSeq), stream[pos..next])
      ensures !fatal ==> latestSeq == GateAfter(old(latestSeq), stream[pos..next])
    {
      hide SeqOf, GateAfter, Passed, Latest;
      FilterNothing(latestSeq);
      batch, next := [], pos;
      var more := true;
      while more
        invariant pos <= next <= |stream| && (more ==> next < |stream|) && (!more ==> pos < next)
        invariant |batch| <= MAX_BATCH && (more ==> |batch| < MAX_BATCH)
        invariant forall j :: pos < j < next || (j == next && more && pos < j) ==> ready(j)
        invariant !more && next < |stream| && |batch| < MAX_BATCH ==> !ready(next)
        invariant AllDecode(stream[pos..next])
        invariant batch == Passed(old(latestSeq), stream[pos..next])
        invariant latestSeq == GateAfter(old(latestSeq), stream[pos..next])
        decreases |stream| - next, more
      {
        var log := stream[next];
        assert stream[pos..next + 1] == stream[pos..next] + [log];
        if log.Malformed? {
          assert stream[pos..next + 1][next - pos] == log;
          return batch, next + 1, true;
        }
        FilterStep(old(latestSeq), stream[pos..next], log);
        next := next + 1;
        var ok := Fresher(log.asset, SeqOf(log));
        if ok {
          batch := batch + [log];
        }
        more := |batch| < MAX_BATCH && next < |stream| && ready(next);
      }
      return batch, next, false;
    }
  }

  /** A delivery transaction: one access-list tuple per message, in message order. */
  datatype Delivery = Delivery(nonce: nat, messages: seq<Log>, tuples: seq<seq<Chunk>>)

  datatype DeliveryError = Cancelled | Refused

  /** The bytes of a signed Warp message; the encoding proper is abstracted to concatenation. */
  function SignedBytes(unsigned: seq<byte>, signature: seq<byte>): seq<byte> { unsigned + signature }

  /** Tuple i carries message i under some signature. */
  ghost predicate Carries(tuple: seq<Chunk>, message: Log)
    requires message.Submission?
  {
    exists signature :: CarriesUnder(tuple, message, signature)
  }

  ghost predicate CarriesUnder(tuple: seq<Chunk>, message: Log, signature: seq<byte>)
    requires message.Submission?
  {
    Packs(SignedBytes(message.unsigned, signature), tuple)
  }

  lemma {:induction false} CarriedBy(tuple: seq<Chunk>, message: Log, signature: seq<byte>)
    requires message.Submission? && CarriesUnder(tuple, message, signature)
    ensures Carries(tuple, message)
  {
  }

  ghost predicate WellFormed(d: Delivery) {
    && 0 < |d.messages| == |d.tuples| <= MAX_BATCH && AllDecode(d.messages)
    && forall i :: 0 <= i < |d.messages| ==> Carries(d.tuples[i], d.messages[i])
  }

  /** deliverBatch: sign each message in order, pack each into its own tuple, send once. `failure` is
      how signing or sending goes wrong, if it does; the nonce moves on only when the send succeeded. */
  method DeliverBatch(batch: seq<Log>, nonce: nat, failure: Option<DeliveryError>)
    returns (r: Result<Delivery, DeliveryError>, nonce': nat)
    requires AllDecode(batch) && 0 < |batch| <= MAX_BATCH
    ensures r.Ok? <==> failure.None?
    ensures r.Ok? ==> WellFormed(r.value) && r.value.messages == batch && r.value.nonce == nonce && nonce' == nonce + 1
    ensures r.Err? ==> failure == Some(r.error) && nonce' == nonce
  {
    nonce' := nonce;
    var tuples: seq<seq<Chunk>> := [];
    for i := 0 to |batch|
      invariant |tuples| == i && nonce' == nonce
      invariant forall k :: 0 <= k < i ==> Carries(tuples[k], batch[k])
    {
      var signed: bool := *;
      if !signed && failure.Some? {
        return Err(failure.value), nonce;
      }
      var signature: seq<byte> := *;
      var tuple := PackPredicate(SignedBytes(batch[i].unsigned, signature));
      CarriedBy(tuple, batch[i], signature);
      tuples := tuples + [tuple];
    }
    if failure.Some? {
      return Err(failure.value), nonce;
    }
    return Ok(Delivery(nonce, batch, tuples)), nonce + 1;
  }

  /** A tuple yields its message's signed bytes back. */
  method ReadTuple(tuple: seq<Chunk>, message: Log) returns (bytes: seq<byte>)
    requires message.Submission? && Carries(tuple, message)
    ensures message.unsigned <= bytes
  {
    var r := UnpackPredicate(tuple);
    ghost var signature :| CarriesUnder(tuple, message, signature);
    assert r.Ok?;
    bytes := r.value;
    PackingUnique(bytes, SignedBytes(message.unsigned, signature), tuple, tuple);
  }

  /** The relay loop over one subscription. `ready` says which logs are buffered when polled for,
      `ends` before which logs a confirmation failure, the end of the subscription or the context is
      noticed, and `failures` how each delivery goes. Of the results, `batches` are the non-empty
      batches collected, `read` how much of the stream went into them, and sent[i] which batch
      delivery i carries. However the channel was buffered, the batches concatenate to the
      one-at-a-time filter of what was read: the strict record highs. */
  method RelayLoop(stream: seq<Log>, ready: nat -> bool, ends: nat -> bool, failures: nat -> Option<DeliveryError>,
                   startNonce: nat)
    returns (batches: seq<seq<Log>>, deliveries: seq<Delivery>, sent: seq<nat>, read: nat)
    ensures read <= |stream| && AllDecode(stream[..read])
    ensures Concat(batches) == Records(stream[..read])
    ensures forall i :: 0 <= i < |batches| ==> 0 < |batches[i]| <= MAX_BATCH
    ensures forall i :: 0 <= i < |deliveries| ==> WellFormed(deliveries[i]) && deliveries[i].nonce == startNonce + i
    ensures Carrying(deliveries, batches, sent)
    ensures forall j: nat :: j < |batches| ==> (j in sent <==> failures(j).None?)
    ensures read < |stream| ==> ends(read) || !AllDecode(stream) || LastRefused(batches, failures)
    ensures forall j: nat :: j + 1 < |batches| ==> failures(j) != Some(Refused)
  {
    hide GateAfter, Passed, Records, Concat, WellFormed;
    EmptyStream();
    var gate := new FreshnessGate();
    var nonce := startNonce;
    batches, deliveries, sent, read := [], [], [], 0;
    while read < |stream|
      invariant fresh(gate) && read <= |stream| && AllDecode(stream[..read])
      invariant Concat(batches) == Passed(map[], stream[..read]) && gate.latestSeq == GateAfter(map[], stream[..read])
      invariant forall i :: 0 <= i < |batches| ==> 0 < |batches[i]| <= MAX_BATCH
      invariant nonce == startNonce + |deliveries|
      invariant forall i :: 0 <= i < |deliveries| ==> WellFormed(deliveries[i]) && deliveries[i].nonce == startNonce + i
      invariant Carrying(deliveries, batches, sent)
      invariant forall j: nat :: j < |batches| ==> (j in sent <==> failures(j).None?) && failures(j) != Some(Refused)
    {
      if ends(read) {
        break;
      }
      var batch, next, fatal := gate.CollectBatch(stream, read, ready);
      if fatal {
        break;
      }
      FilterSplits(map[], stream[..read], stream[read..next]);
      assert stream[..read] + stream[read..next] == stream[..next];
      read := next;
      if batch == [] {
        assert Concat(batches) + [] == Concat(batches);
        continue;
      }
      ConcatAppend(batches, batch);
      var failure := failures(|batches|);
      batches := batches + [batch];
      var item, moved := DeliverBatch(batch, nonce, failure);
      nonce := moved;
      if item.Ok? {
        deliveries := deliveries + [item.value];
        sent := sent + [|batches| - 1];
      } else if item.error.Refused? {
        break;
      }
    }
    PassedAreRecords(stream[..read]);
  }

  /** The last batch could not be delivered, which is fatal. */
  ghost predicate LastRefused(batches: seq<seq<Log>>, failures: nat -> Option<DeliveryError>) {
    batches != [] && failures(|batches| - 1) == Some(Refused)
  }

  /** The deliveries carry a subsequence of the batches, in order. */
  ghost predicate Carrying(deliveries: seq<Delivery>, batches: seq<seq<Log>>, sent: seq<nat>) {
    && |sent| == |deliveries|
    && (forall i, j :: 0 <= i < j < |sent| ==> sent[i] < sent[j])
    && forall i :: 0 <= i < |sent| ==> sent[i] < |batches| && deliveries[i].messages == batches[sent[i]]
  }

  // ------------------------------------------------------------------------------------------
  // The truncated sequence number

  /** Record highs of the whole uint256. */
  ghost predicate TrueHigh(logs: seq<Log>, k: nat)
    requires AllDecode(logs) && k < |logs|
  {
    logs[k].seq256 > 0 && forall i :: 0 <= i < k && logs[i].asset == logs[k].asset ==> logs[i].seq256 < logs[k].seq256
  }

  ghost function TrueRecords(logs: seq<Log>): seq<Log>
    requires AllDecode(logs)
  {
    if logs == [] then []
    else TrueRecords(logs[..|logs| - 1]) + (if TrueHigh(logs, |logs| - 1) then [logs[|logs| - 1]] else [])
  }

  ghost predicate UpTo(logs: seq<Log>, bound: nat) {
    AllDecode(logs) && forall i :: 0 <= i < |logs| ==> logs[i].seq256 <= bound
  }

  lemma {:induction false} SmallNumbersAgree(logs: seq<Log>, bound: nat)
    requires UpTo(logs, bound) && bound < TWO_64
    ensures Records(logs) == TrueRecords(logs)
  {
    if logs != [] {
      SmallNumbersAgree(logs[..|logs| - 1], bound);
      assert forall i :: 0 <= i < |logs| ==> SeqOf(logs[i]) == logs[i].seq256;
      assert RecordHigh(logs, |logs| - 1) <==> TrueHigh(logs, |logs| - 1);
    }
  }

  /** The relay passes exactly the record highs of the whole numbers, on every stream with numbers up
      to a bound, if and only if the bound is below 2^64. */
  lemma {:induction false} TruncationExact(bound: nat)
    ensures (forall logs :: UpTo(logs, bound) ==> Passed(map[], logs) == TrueRecords(logs)) <==> bound < TWO_64
  {
    if bound < TWO_64 {
      forall logs | UpTo(logs, bound) ensures Passed(map[], logs) == TrueRecords(logs) {
        PassedAreRecords(logs);
        SmallNumbersAgree(logs, bound);
      }
    } else {
      var logs := [Submission(0, TWO_64, [])];
      assert UpTo(logs, bound);
      PassedAreRecords(logs);
      assert logs[..0] == [] && !RecordHigh(logs, 0) && TrueHigh(logs, 0);
      assert Records(logs) == [] && TrueRecords(logs) == logs;
    }
  }
}
