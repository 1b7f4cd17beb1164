/** The load generator's tracker (cmd/bombard/main.go:53-167): in-flight transactions by nonce
    and by hash, and the counters the issuer's cap is computed from. */
module Trackers {
  import opened Wrappers
  import opened Words

  /** Signing is deterministic, so a transaction's hash is an injective function of its nonce;
      other people's transactions have foreign hashes. */
  datatype Hash = TxHash(nonce: nat) | ForeignHash(id: nat)

  datatype TxState = TxState(signed: nat, firstSend: int, lastSend: int, resubmits: nat)

  function Resent(st: TxState, now: int): TxState { st.(lastSend := now, resubmits := st.resubmits + 1) }

  type Inflight = map<nat, TxState>
  type ByHash = map<Hash, nat>

  /** The two maps as the other threads see them: the nonces in flight, and nonces by hash. */
  datatype Books = Books(inflight: set<nat>, byHash: ByHash)

  const EMPTY := Books({}, map[])

  /** The hash map is the exact inverse of the in-flight map. */
  ghost predicate Inverse(b: Books) {
    && (forall h :: h in b.byHash <==> h.TxHash? && h.nonce in b.inflight)
    && (forall h :: h in b.byHash ==> b.byHash[h] == h.nonce)
  }

  function Registered(b: Books, nonce: nat): Books {
    Books(b.inflight + {nonce}, b.byHash[TxHash(nonce) := nonce])
  }

  function Removed(b: Books, hash: Hash): Books {
    if hash in b.byHash then Books(b.inflight - {b.byHash[hash]}, b.byHash - {hash}) else b
  }

  /** The in-flight value of three loaded counters. */
  function InFlightOf(issued: nat, mined: nat, dropped: nat): nat {
    Sub64(Sub64(issued, mined), dropped)
  }

  class Tracker {
    var inflight: Inflight
    var byHash: ByHash
    var issued: nat
    var mined: nat
    var resent: nat
    var dropped: nat
    var latencies: seq<nat>

    ghost predicate Valid()
      reads this
    {
      Inverse(View()) && forall n :: n in inflight ==> inflight[n].signed == n
    }

    ghost function View(): Books
      reads this
    {
      Books(inflight.Keys, byHash)
    }

    constructor ()
      ensures Valid() && View() == EMPTY && issued == mined == resent == dropped == 0 && latencies == []
    {
      inflight, byHash := map[], map[];
      issued, mined, resent, dropped, latencies := 0, 0, 0, 0, [];
    }

    method Register(nonce: nat, st: TxState)
      requires Valid() && st.signed == nonce
      modifies this`inflight, this`byHash
      ensures Valid() && inflight == old(inflight)[nonce := st] && View() == Registered(old(View()), nonce)
    {
      inflight := inflight[nonce := st];
      byHash := byHash[TxHash(st.signed) := nonce];
    }

    /** The locked half of onMined. A hash we do not know is ignored; a known one always has an
        in-flight entry, so the state it reads is never missing. */
    method TakeMined(hash: Hash, observedAt: int) returns (found: bool)
      requires Valid()
      modifies this`inflight, this`byHash, this`latencies
      ensures Valid()
      ensures found <==> hash.TxHash? && hash.nonce in old(inflight)
      ensures View() == Removed(old(View()), hash)
      ensures found ==> && inflight == old(inflight) - {hash.nonce}
                        && latencies == old(latencies)
                             + [if observedAt < old(inflight)[hash.nonce].firstSend then 0
                                else observedAt - old(inflight)[hash.nonce].firstSend]
      ensures !found ==> inflight == old(inflight) && latencies == old(latencies)
    {
      if hash !in byHash {
        return false;
      }
      var nonce := byHash[hash];
      var st := inflight[nonce];
      inflight := inflight - {nonce};
      byHash := byHash - {hash};
      var total := observedAt - st.firstSend;
      if total < 0 {
        total := 0;
      }
      latencies := latencies + [total];
      return true;
    }

    /** The unlocked half of onMined. */
    method CountMined()
      modifies this`mined
      ensures mined == old(mined) + 1
    {
      mined := mined + 1;
    }

    /** Exact whenever the counters it reads are consistent. */
    method InFlight() returns (n: nat)
      ensures n == InFlightOf(issued, mined, dropped)
      ensures mined + dropped <= issued && issued - mined - dropped < TWO_64 ==> n == issued - mined - dropped
    {
      n := InFlightOf(issued, mined, dropped);
    }

    method LowestInflightNonce() returns (r: Option<nat>)
      ensures r.None? <==> inflight == map[]
      ensures r.Some? ==> r.value in inflight && forall n :: n in inflight ==> r.value <= n
    {
      r := None;
      var rest := inflight.Keys;
      while rest != {}
        invariant rest <= inflight.Keys
        invariant r.None? <==> rest == inflight.Keys
        invariant r.Some? ==> r.value in inflight && r.value !in rest
        invariant r.Some? ==> forall n :: n in inflight && n !in rest ==> r.value <= n
        decreases |rest|
      {
        var n :| n in rest;
        rest := rest - {n};
        if r.None? || n < r.value {
          r := Some(n);
        }
      }
    }

    /** Abandon everything in flight and account for it as dropped. */
    method DropInflight() returns (n: nat)
      requires Valid()
      modifies this`inflight, this`byHash, this`dropped
      ensures Valid() && n == |old(View()).inflight| && View() == EMPTY && dropped == old(dropped) + n
    {
      n := |inflight|;
      assert n == |inflight.Keys|;
      inflight, byHash := map[], map[];
      dropped := dropped + n;
    }

    /** Stamp and return every transaction whose last send is at least `interval` old. */
    method DueForResubmit(interval: nat, now: int) returns (out: seq<nat>)
      requires Valid()
      modifies this`inflight, this`resent
      ensures Valid() && View() == old(View()) && resent == old(resent) + |out|
      ensures forall i, j :: 0 <= i < j < |out| ==> out[i] != out[j]
      ensures forall n :: n in out <==> n in old(inflight) && now - old(inflight)[n].lastSend >= interval
      ensures forall n :: n in inflight ==>
                inflight[n] == if n in out then Resent(old(inflight)[n], now) else old(inflight)[n]
      ensures forall n :: n in out ==>
                inflight[n].lastSend == now && inflight[n].resubmits == old(inflight)[n].resubmits + 1
                && inflight[n].signed == n && inflight[n].firstSend == old(inflight)[n].firstSend
    {
      out := [];
      var rest := inflight.Keys;
      while rest != {}
        invariant rest <= inflight.Keys == old(inflight).Keys && Valid() && resent == old(resent)
        invariant View() == old(View())
        invariant forall i, j :: 0 <= i < j < |out| ==> out[i] != out[j]
        invariant forall n :: n in out <==>
                    n in old(inflight) && n !in rest && now - old(inflight)[n].lastSend >= interval
        invariant forall n :: n in inflight ==>
                    inflight[n] == if n in out then Resent(old(inflight)[n], now) else old(inflight)[n]
        decreases |rest|
      {
        var n :| n in rest;
        rest := rest - {n};
        var st := inflight[n];
        if now - st.lastSend >= interval {
          inflight := inflight[n := Resent(st, now)];
          out := out + [st.signed];
        }
      }
      resent := resent + |out|;
    }
  }
}
