/** ACP-118 signature collection (apps/settlement-feed/internal/oraclerelay/p2psign.go): request
    IDs, the response mux, and the reply loop that stops at a 67% quorum. */
module Signing {
  import opened Wrappers
  import opened Words
  import opened Sets

  const TWO_32: nat := 0x1_0000_0000
  const TWO_31: nat := 0x8000_0000
  const QUORUM_NUMERATOR: nat := 67
  const QUORUM_DENOMINATOR: nat := 100

  // ----- request IDs

  /** The k-th ID handed out (k >= 1): the counter advances by 2 modulo 2^32, then bit 0 is set. */
  function RequestID(k: nat): (id: nat)
    ensures id < TWO_32 && id % 2 == 1
  {
    var counter := (2 * k) % TWO_32;
    counter + 1
  }

  /** Two IDs are equal exactly when a multiple of 2^31 requests lies between them; in particular
      any 2^31 consecutive IDs are pairwise distinct. */
  lemma {:induction false} RequestIDsDistinct(i: nat, j: nat)
    requires i <= j
    ensures RequestID(i) == RequestID(j) <==> (j - i) % TWO_31 == 0
  {
    RequestIDIs(i);
    RequestIDIs(j);
    hide RequestID;
    SameResidue(i, j);
  }

  lemma {:induction false} RequestIDIs(k: nat)
    ensures RequestID(k) == 2 * (k % TWO_31) + 1
  {
    assert 2 * k == (k / TWO_31) * TWO_32 + 2 * (k % TWO_31);
  }

  lemma {:induction false} SameResidue(i: nat, j: nat)
    requires i <= j
    ensures i % TWO_31 == j % TWO_31 <==> (j - i) % TWO_31 == 0
  {
    var x, y := i % TWO_31, j % TWO_31;
    assert j - i == (j / TWO_31 - i / TWO_31) * TWO_31 + (y - x);
  }

  // ----- the response mux

  /** A reply channel: its capacity, how many request IDs were registered on it, replies taken
      from the waiters map but not yet sent, and replies buffered or already received. */
  datatype Channel = Channel(capacity: nat, registered: nat, inHand: nat, buffered: nat, received: nat)

  datatype Mux = Mux(waiters: map<nat, nat>, channels: map<nat, Channel>)

  datatype MuxStep =
    | Open(channel: nat, capacity: nat)
    | Expect(id: nat, channel: nat)
    | Forget(id: nat)
    | DeliverTake(id: nat)
    | DeliverSend(channel: nat)
    | Receive(channel: nat)

  /** A Sign call opens a channel with room for every peer and registers at most one ID a peer. */
  predicate MuxEnabled(m: Mux, step: MuxStep) {
    match step
    case Open(c, _) => c !in m.channels
    case Expect(_, c) => c in m.channels && m.channels[c].registered < m.channels[c].capacity
    case Forget(_) => true
    case DeliverTake(_) => true
    case DeliverSend(c) => c in m.channels && m.channels[c].inHand > 0
    case Receive(c) => c in m.channels && m.channels[c].buffered > 0
  }

  function MuxNext(m: Mux, step: MuxStep): Mux
    requires MuxEnabled(m, step)
  {
    match step
    case Open(c, capacity) => m.(channels := m.channels[c := Channel(capacity, 0, 0, 0, 0)])
    case Expect(id, c) =>
      Mux(m.waiters[id := c], m.channels[c := m.channels[c].(registered := m.channels[c].registered + 1)])
    case Forget(id) => m.(waiters := m.waiters - {id})
    case DeliverTake(id) =>
      if id in m.waiters && m.waiters[id] in m.channels then
        var c := m.waiters[id];
        Mux(m.waiters - {id}, m.channels[c := m.channels[c].(inHand := m.channels[c].inHand + 1)])
      else m.(waiters := m.waiters - {id})
    case DeliverSend(c) =>
      var ch := m.channels[c];
      m.(channels := m.channels[c := ch.(inHand := ch.inHand - 1, buffered := ch.buffered + 1)])
    case Receive(c) =>
      var ch := m.channels[c];
      m.(channels := m.channels[c := ch.(buffered := ch.buffered - 1, received := ch.received + 1)])
  }

  ghost function WaitersOf(m: Mux, c: nat): set<nat> {
    set id | id in m.waiters && m.waiters[id] == c
  }

  /** Each registration yields at most one reply: waiting, in hand, buffered or received. */
  ghost predicate MuxInv(m: Mux) { forall c :: c in m.channels ==> ChannelSound(m, c) }

  ghost predicate ChannelSound(m: Mux, c: nat)
    requires c in m.channels
  {
    var ch := m.channels[c];
    |WaitersOf(m, c)| + ch.inHand + ch.buffered + ch.received <= ch.registered <= ch.capacity
  }

  ghost predicate NoStrays(m: Mux) {
    forall id :: id in m.waiters ==> m.waiters[id] in m.channels
  }

  /** Who waits on a channel changes only with the channel's own IDs. */
  lemma {:induction false} WaitersAfter(m: Mux, step: MuxStep, c: nat)
    requires NoStrays(m) && MuxEnabled(m, step)
    ensures var a, b := WaitersOf(m, c), WaitersOf(MuxNext(m, step), c);
            match step
            case Open(o, _) => b == a && (c == o ==> b == {})
            case Expect(id, e) => b <= if c == e then a + {id} else a
            case Forget(_) => b <= a
            case DeliverTake(id) => b == a - {id}
            case _ => b == a
  {
  }

  lemma {:induction false} NoStraysKept(m: Mux, step: MuxStep)
    requires NoStrays(m) && MuxEnabled(m, step)
    ensures NoStrays(MuxNext(m, step))
  {
  }

  lemma {:induction false} ChannelKept(m: Mux, step: MuxStep, c: nat)
    requires MuxInv(m) && NoStrays(m) && MuxEnabled(m, step) && c in MuxNext(m, step).channels
    ensures ChannelSound(MuxNext(m, step), c)
  {
    var t := MuxNext(m, step);
    WaitersAfter(m, step, c);
    if c in m.channels { assert ChannelSound(m, c); }
    hide WaitersOf, MuxInv;
    match step
    case Expect(id, e) => SubsetSize(WaitersOf(t, c), if c == e then WaitersOf(m, c) + {id} else WaitersOf(m, c));
    case Forget(id) => SubsetSize(WaitersOf(t, c), WaitersOf(m, c));
    case DeliverTake(id) => TakenOne(m, id, c);
    case _ =>
  }

  lemma {:induction false} MuxStepKeepsInv(m: Mux, step: MuxStep)
    requires MuxInv(m) && NoStrays(m) && MuxEnabled(m, step)
    ensures MuxInv(MuxNext(m, step)) && NoStrays(MuxNext(m, step))
  {
    NoStraysKept(m, step);
    hide MuxNext, MuxEnabled, ChannelSound, NoStrays;
    forall c | c in MuxNext(m, step).channels ensures ChannelSound(MuxNext(m, step), c) {
      ChannelKept(m, step, c);
    }
  }

  lemma {:induction false} TakenOne(m: Mux, id: nat, c: nat)
    ensures |WaitersOf(m, c) - {id}| == |WaitersOf(m, c)| - if id in m.waiters && m.waiters[id] == c then 1 else 0
  {
  }

  ghost predicate IsMuxRun(states: seq<Mux>, steps: seq<MuxStep>) {
    && |states| == |steps| + 1 && states[0] == Mux(map[], map[])
    && forall i :: 0 <= i < |steps| ==> MuxEnabled(states[i], steps[i]) && states[i + 1] == MuxNext(states[i], steps[i])
  }

  /** The channel an ID is registered on after the first n steps: by its last registration, if neither
      a withdrawal nor a delivery of the ID came later. */
  ghost function WaitingOn(steps: seq<MuxStep>, n: nat, id: nat): Option<nat>
    requires n <= |steps|
  {
    if n == 0 then None
    else match steps[n - 1]
      case Expect(i, c) => if i == id then Some(c) else WaitingOn(steps, n - 1, id)
      case Forget(i) => if i == id then None else WaitingOn(steps, n - 1, id)
      case DeliverTake(i) => if i == id then None else WaitingOn(steps, n - 1, id)
      case _ => WaitingOn(steps, n - 1, id)
  }

  lemma {:induction false} WaitersExact(states: seq<Mux>, steps: seq<MuxStep>, k: nat, id: nat)
    requires IsMuxRun(states, steps) && k < |states|
    ensures WaitingOn(steps, k, id) == if id in states[k].waiters then Some(states[k].waiters[id]) else None
  {
    if k > 0 {
      WaitersExact(states, steps, k - 1, id);
      assert MuxEnabled(states[k - 1], steps[k - 1]) && states[k] == MuxNext(states[k - 1], steps[k - 1]);
      hide IsMuxRun;
    }
  }

  /** A reply goes to the channel its ID was registered on; one for an ID that is not waiting, late or
      duplicate, is dropped. */
  lemma {:induction false} RepliesRouted(states: seq<Mux>, steps: seq<MuxStep>, k: nat)
    requires IsMuxRun(states, steps) && k < |steps| && steps[k].DeliverTake?
    ensures var m, t, c := states[k], states[k + 1], WaitingOn(steps, k, steps[k].id);
            if c.Some?
            then c.value in m.channels
                 && t.channels == m.channels[c.value := m.channels[c.value].(inHand := m.channels[c.value].inHand + 1)]
            else t.channels == m.channels
  {
    WaitersExact(states, steps, k, steps[k].id);
    MuxRunInv(states, steps, k);
    assert states[k + 1] == MuxNext(states[k], steps[k]);
    hide IsMuxRun;
  }

  lemma {:induction false} MuxRunInv(states: seq<Mux>, steps: seq<MuxStep>, k: nat)
    requires IsMuxRun(states, steps) && k < |states|
    ensures MuxInv(states[k]) && NoStrays(states[k])
  {
    if k > 0 {
      hide MuxNext;
      MuxRunInv(states, steps, k - 1);
      MuxStepKeepsInv(states[k - 1], steps[k - 1]);
    }
  }

  /** In any order, subset or duplication of inbound messages, whoever holds a reply for a channel
      finds room in it: delivery never blocks, even after the Sign call has gone. */
  lemma {:induction false} DeliveryNeverBlocks(states: seq<Mux>, steps: seq<MuxStep>, k: nat, c: nat)
    requires IsMuxRun(states, steps) && k < |states|
    requires c in states[k].channels && states[k].channels[c].inHand > 0
    ensures states[k].channels[c].buffered < states[k].channels[c].capacity
  {
    MuxRunInv(states, steps, k);
    assert ChannelSound(states[k], c);
  }

  // ----- weights

  ghost function WeightUpTo(s: set<nat>, weights: seq<nat>, n: nat): nat
    requires n <= |weights|
  {
    if n == 0 then 0 else WeightUpTo(s, weights, n - 1) + (if n - 1 in s then weights[n - 1] else 0)
  }

  /** The stake behind a set of canonical indexes, each counted once. */
  ghost function Weight(s: set<nat>, weights: seq<nat>): nat { WeightUpTo(s, weights, |weights|) }

  lemma {:induction false} WeightAdds(s: set<nat>, i: nat, weights: seq<nat>, n: nat)
    requires i !in s && n <= |weights|
    ensures WeightUpTo(s + {i}, weights, n) == WeightUpTo(s, weights, n) + (if i < n then weights[i] else 0)
  {
    if n > 0 {
      WeightAdds(s, i, weights, n - 1);
    }
  }

  ghost function SumUpTo(weights: seq<nat>, n: nat): nat
    requires n <= |weights|
  {
    if n == 0 then 0 else SumUpTo(weights, n - 1) + weights[n - 1]
  }

  lemma {:induction false} WeightWithinTotal(s: set<nat>, weights: seq<nat>, n: nat)
    requires n <= |weights|
    ensures WeightUpTo(s, weights, n) <= SumUpTo(weights, n)
  {
    if n > 0 {
      WeightWithinTotal(s, weights, n - 1);
    }
  }

  // ----- the reply loop

  /** A reply body: an error or empty answer, bytes that do not decode, or a parsed signature with
      the verdict of verifying it against the registered key. */
  datatype Body = Refusal | Undecodable | Signature(sig: nat, verifies: bool)

  datatype Event = Cancel | Timeout | Reply(node: nat, body: Body)

  datatype SignError =
    | Unreachable | Cancelled | TimedOut | Refused | BadReply | BadSignature | NothingToAggregate | LocalQuorum

  /** The canonical set: weights by index, and the index of each connected node. */
  datatype WarpSet = WarpSet(weights: seq<nat>, indexOf: map<nat, nat>)

  ghost function Total(w: WarpSet): nat { SumUpTo(w.weights, |w.weights|) }

  ghost predicate ValidSet(w: WarpSet) {
    && (forall n :: n in w.indexOf ==> w.indexOf[n] < |w.weights|)
    && Total(w) < TWO_64
  }

  predicate Quorum(signed: nat, total: nat) { signed * QUORUM_DENOMINATOR >= total * QUORUM_NUMERATOR }

  /** The loop's own test, in wrapping uint64 arithmetic. */
  predicate LoopDone(signed: nat, total: nat) {
    !(Mul64(signed, QUORUM_DENOMINATOR) < Mul64(total, QUORUM_NUMERATOR))
  }

  /** The wrapping test is the true quorum for every possible signed weight if and only if the total
      weight times 100 fits a uint64. */
  lemma {:induction false} LoopTestExact(total: nat)
    requires total < TWO_64
    ensures (forall w :: 0 <= w <= total ==> (LoopDone(w, total) <==> Quorum(w, total)))
            <==> total * QUORUM_DENOMINATOR < TWO_64
  {
    if total * QUORUM_DENOMINATOR < TWO_64 {
      forall w | 0 <= w <= total ensures LoopDone(w, total) <==> Quorum(w, total) {
        SmallTotal(w, total);
      }
    } else {
      var w := LoopTestFails(total);
      assert !(LoopDone(w, total) <==> Quorum(w, total));
    }
  }

  lemma {:induction false} SmallTotal(w: nat, total: nat)
    requires w <= total && total * QUORUM_DENOMINATOR < TWO_64
    ensures LoopDone(w, total) <==> Quorum(w, total)
  {
    assert w * QUORUM_DENOMINATOR < TWO_64 && total * QUORUM_NUMERATOR < TWO_64;
  }

  /** Past that bound some signed weight is judged wrongly. */
  lemma {:induction false} LoopTestFails(total: nat) returns (w: nat)
    requires total < TWO_64 <= total * QUORUM_DENOMINATOR
    ensures w <= total && !(LoopDone(w, total) <==> Quorum(w, total))
  {
    var r := Mul64(total, QUORUM_NUMERATOR);
    if total * QUORUM_NUMERATOR < TWO_64 {
      // the true threshold is compared with a wrapped product: full weight is refused
      assert Mul64(total, QUORUM_DENOMINATOR) == total * QUORUM_DENOMINATOR - TWO_64;
      w := total;
    } else if r <= TWO_64 - 16 {
      // the threshold wrapped: a weight under 1% passes
      w := (r + 99) / 100;
      assert r <= w * QUORUM_DENOMINATOR < TWO_64;
      assert Mul64(w, QUORUM_DENOMINATOR) == w * QUORUM_DENOMINATOR;
    } else {
      // the threshold wrapped to one of the top values, which two neighbours cannot both reach
      assert Quorum(total, total) && Quorum(total - 1, total);
      NeighboursApart(total - 1);
      w := if LoopDone(total, total) then total - 1 else total;
    }
  }

  /** With 67 odd, the wrapped threshold is zero only for an empty set. */
  lemma {:induction false} ZeroThreshold(total: nat)
    requires total < TWO_64
    ensures LoopDone(0, total) <==> total == 0
    ensures total == 0 ==> forall w :: LoopDone(w, total)
  {
    // 17345445920055250027 * 67 == 1 + 63 * 2^64
    var k := total * QUORUM_NUMERATOR / TWO_64;
    if Mul64(total, QUORUM_NUMERATOR) == 0 {
      assert total * QUORUM_NUMERATOR == k * TWO_64;
      assert total == TWO_64 * (17345445920055250027 * k - 63 * total);
    }
  }

  lemma {:induction false} NeighboursApart(v: nat)
    ensures Mul64(v, QUORUM_DENOMINATOR) <= TWO_64 - 16 || Mul64(v + 1, QUORUM_DENOMINATOR) <= TWO_64 - 16
  {
    var x, y := Mul64(v, QUORUM_DENOMINATOR), Mul64(v + 1, QUORUM_DENOMINATOR);
    var k := v * QUORUM_DENOMINATOR / TWO_64;
    assert (v + 1) * QUORUM_DENOMINATOR == k * TWO_64 + (x + 100);
    assert y == x + 100 || y == x + 100 - TWO_64;
  }

  predicate Verified(w: WarpSet, e: Event) {
    e.Reply? && e.node in w.indexOf && e.body.Signature? && e.body.verifies
  }

  /** Distinct canonical indexes with a verified signature among the replies. */
  ghost function Signers(w: WarpSet, events: seq<Event>): set<nat> {
    set i | 0 <= i < |events| && Verified(w, events[i]) :: w.indexOf[events[i].node]
  }

  lemma {:induction false} SignersGrow(w: WarpSet, events: seq<Event>, k: nat)
    requires k < |events|
    ensures Signers(w, events[..k + 1]) ==
            Signers(w, events[..k]) + (if Verified(w, events[k]) then {w.indexOf[events[k].node]} else {})
  {
    var a, b := events[..k], events[..k + 1];
    assert forall i :: 0 <= i < k ==> a[i] == b[i] == events[i];
    forall x | x in Signers(w, a) ensures x in Signers(w, b) {
      var i :| 0 <= i < |a| && Verified(w, a[i]) && w.indexOf[a[i].node] == x;
      assert Verified(w, b[i]);
    }
    if Verified(w, events[k]) {
      assert Verified(w, b[k]);
    }
    forall x | x in Signers(w, b) && !(Verified(w, events[k]) && x == w.indexOf[events[k].node])
      ensures x in Signers(w, a)
    {
      var i :| 0 <= i < |b| && Verified(w, b[i]) && w.indexOf[b[i].node] == x;
      assert i < k && Verified(w, a[i]);
    }
  }

  /** The reply loop of Sign and the local verification behind it. `outstanding` requests were
      sent; `events` is whatever arrives on the reply channel, the timer and the context, in any
      order; running out of events is the timer firing. */
  method Sign(w: WarpSet, total: nat, outstanding: nat, events: seq<Event>)
    returns (r: Result<map<nat, nat>, SignError>, consumed: nat)
    requires ValidSet(w) && total == Total(w)
    ensures consumed <= outstanding && consumed <= |events|
    ensures r == Err(NothingToAggregate) <==> total == 0
    ensures r.Ok? ==> && r.value != map[] && r.value.Keys == Signers(w, events[..consumed])
                      && Quorum(Weight(r.value.Keys, w.weights), total)
                      && forall i :: i in r.value ==> Backed(w, events[..consumed], i, r.value[i])
    ensures total * QUORUM_DENOMINATOR < TWO_64 ==>
              && r != Err(LocalQuorum)
              && (r.Ok? && consumed > 0 ==> !Quorum(Weight(Signers(w, events[..consumed - 1]), w.weights), total))
              && (r == Err(Unreachable) || r == Err(TimedOut) || r == Err(Cancelled) ==>
                    !Quorum(Weight(Signers(w, events[..consumed]), w.weights), total))
    ensures forall i :: 0 <= i < consumed ==> events[i].Reply?
    ensures r == Err(TimedOut) ==> consumed == |events| || events[consumed].Timeout?
    ensures r == Err(Cancelled) ==> consumed < |events| && events[consumed].Cancel?
    ensures forall i :: 0 <= i < consumed && Fatal(w, events, i).Some? ==>
              i == consumed - 1 && r == Err(Fatal(w, events, i).value)
    ensures r == Err(Unreachable) ==> consumed == outstanding
    ensures r == Err(Refused) || r == Err(BadReply) || r == Err(BadSignature) ==>
              && 0 < consumed && events[consumed - 1].Reply? && events[consumed - 1].node in w.indexOf
              && (r == Err(Refused) <==> events[consumed - 1].body.Refusal?)
              && !Verified(w, events[consumed - 1])
  {
    hide LoopDone, Quorum, Weight, Signers, Fatal;
    var signatures: map<nat, nat> := map[];
    var signed := 0;
    var left := outstanding;
    consumed := 0;
    NobodySigned(w, events);
    ZeroThreshold(total);
    while !LoopDone(signed, total)
      invariant consumed + left == outstanding && consumed <= |events|
      invariant total == 0 ==> signatures == map[]
      invariant forall i :: 0 <= i < consumed ==> events[i].Reply? && Fatal(w, events, i).None?
      invariant signatures.Keys == Signers(w, events[..consumed])
      invariant signed == Weight(signatures.Keys, w.weights)
      invariant forall i :: i in signatures ==> Backed(w, events[..consumed], i, signatures[i])
      invariant consumed > 0 ==> !LoopDone(Weight(Signers(w, events[..consumed - 1]), w.weights), total)
      decreases left
    {
      LoopTestMeans(w, Signers(w, events[..consumed]), total);
      if left == 0 {
        return Err(Unreachable), consumed;
      }
      if consumed == |events| || events[consumed].Timeout? {
        return Err(TimedOut), consumed;
      }
      if events[consumed].Cancel? {
        return Err(Cancelled), consumed;
      }
      var reply := events[consumed];
      FatalCases(w, events, consumed);
      left := left - 1;
      consumed := consumed + 1;
      SignersGrow(w, events, consumed - 1);
      BackedGrows(w, events, consumed - 1, signatures);
      if reply.node !in w.indexOf {
        continue;
      }
      if reply.body.Refusal? {
        return Err(Refused), consumed;
      }
      var index := w.indexOf[reply.node];
      if index in signatures {
        continue;
      }
      if reply.body.Undecodable? {
        return Err(BadReply), consumed;
      }
      if !reply.body.verifies {
        return Err(BadSignature), consumed;
      }
      WeightGrows(w, signatures.Keys, index);
      assert events[..consumed][consumed - 1] == reply;
      signatures := signatures[index := reply.body.sig];
      signed := (signed + w.weights[index]) % TWO_64;
    }
    LoopTestMeans(w, Signers(w, events[..consumed]), total);
    if consumed > 0 {
      LoopTestMeans(w, Signers(w, events[..consumed - 1]), total);
    }
    if signatures == map[] {
      assert signatures.Keys == {};
      return Err(NothingToAggregate), consumed;
    }
    if !Quorum(signed, total) {
      return Err(LocalQuorum), consumed;
    }
    return Ok(signatures), consumed;
  }

  /** What a reply does to the call: a refusal of a known node ends it, and so does a reply of a known
      node that does not decode or verify, unless its index has signed already. */
  ghost function Fatal(w: WarpSet, events: seq<Event>, i: nat): Option<SignError>
    requires i < |events|
  {
    var e := events[i];
    if !e.Reply? || e.node !in w.indexOf then None
    else if e.body.Refusal? then Some(Refused)
    else if w.indexOf[e.node] in Signers(w, events[..i]) then None
    else if e.body.Undecodable? then Some(BadReply)
    else if !e.body.verifies then Some(BadSignature)
    else None
  }

  lemma {:induction false} FatalCases(w: WarpSet, events: seq<Event>, i: nat)
    requires i < |events| && events[i].Reply?
    ensures var e := events[i];
            Fatal(w, events, i) ==
            if e.node !in w.indexOf then None
            else if e.body.Refusal? then Some(Refused)
            else if w.indexOf[e.node] in Signers(w, events[..i]) then None
            else if e.body.Undecodable? then Some(BadReply)
            else if !e.body.verifies then Some(BadSignature)
            else None
  {
  }

  /** Some reply carried this verified signature for this canonical index. */
  ghost predicate Backed(w: WarpSet, events: seq<Event>, index: nat, sig: nat) {
    exists j ::
      0 <= j < |events| && Verified(w, events[j]) && w.indexOf[events[j].node] == index && events[j].body.sig == sig
  }

  lemma {:induction false} BackedGrows(w: WarpSet, events: seq<Event>, k: nat, signatures: map<nat, nat>)
    requires k < |events| && forall i :: i in signatures ==> Backed(w, events[..k], i, signatures[i])
    ensures forall i :: i in signatures ==> Backed(w, events[..k + 1], i, signatures[i])
  {
    forall i | i in signatures ensures Backed(w, events[..k + 1], i, signatures[i]) {
      var j :| 0 <= j < k && Verified(w, events[..k][j]) && w.indexOf[events[..k][j].node] == i &&
          events[..k][j].body.sig == signatures[i];
      assert events[..k + 1][j] == events[..k][j];
    }
  }

  lemma {:induction false} NobodySigned(w: WarpSet, events: seq<Event>)
    ensures Signers(w, events[..0]) == {} && Weight({}, w.weights) == 0
  {
    ZeroWeight(w.weights, |w.weights|);
  }

  lemma {:induction false} ZeroWeight(weights: seq<nat>, n: nat)
    requires n <= |weights|
    ensures WeightUpTo({}, weights, n) == 0
  {
    if n > 0 { ZeroWeight(weights, n - 1); }
  }

  /** Adding a new signer adds its weight, and the running uint64 sum does not wrap. */
  lemma {:induction false} WeightGrows(w: WarpSet, s: set<nat>, i: nat)
    requires ValidSet(w) && i !in s && i < |w.weights|
    ensures Weight(s + {i}, w.weights) == Weight(s, w.weights) + w.weights[i] < TWO_64
  {
    WeightAdds(s, i, w.weights, |w.weights|);
    WeightWithinTotal(s + {i}, w.weights, |w.weights|);
  }

  lemma {:induction false} LoopTestMeans(w: WarpSet, s: set<nat>, total: nat)
    requires total == Total(w) && ValidSet(w)
    ensures total * QUORUM_DENOMINATOR < TWO_64 ==>
              (LoopDone(Weight(s, w.weights), total) <==> Quorum(Weight(s, w.weights), total))
  {
    WeightWithinTotal(s, w.weights, |w.weights|);
    hide LoopDone, Quorum;
    if total * QUORUM_DENOMINATOR < TWO_64 {
      SmallTotal(Weight(s, w.weights), total);
    }
  }
}
