/** Ingress routing of the load generator: which endpoints broadcast sends to
    (cmd/bombard/sender.go, cmd/bombard/main.go:190-232). */
module Ingress {
  import opened Wrappers

  const DROP_BEHIND: nat := 200
  const REJOIN_WITHIN: nat := 50
  const AT_TIP_WITHIN: nat := 25

  datatype Endpoint = Endpoint(url: string, healthy: bool, atTip: bool, active: bool)

  // ------------------------------------------------------------------------------------------
  // What one endpoint's readings say

  /** In rotation: every reading over the drop line was followed by one within the rejoin line. */
  ghost predicate Recovered(readings: seq<nat>) {
    forall k :: 0 <= k < |readings| && readings[k] > DROP_BEHIND ==> RejoinedAfter(readings, k)
  }

  ghost predicate RejoinedAfter(readings: seq<nat>, k: nat) {
    exists j :: k < j < |readings| && readings[j] <= REJOIN_WITHIN
  }

  /** The switch of the tick. */
  function Switch(healthy: bool, behind: nat): bool {
    if healthy && behind > DROP_BEHIND then false
    else if !healthy && behind <= REJOIN_WITHIN then true
    else healthy
  }

  /** The hysteresis keeps to the readings. */
  lemma {:induction false} SwitchKeeps(healthy: bool, readings: seq<nat>, behind: nat)
    requires healthy <==> Recovered(readings)
    ensures Switch(healthy, behind) <==> Recovered(readings + [behind])
  {
    var more := readings + [behind];
    var n := |readings|;
    assert more[n] == behind;
    if behind <= REJOIN_WITHIN {
      forall k | 0 <= k < |more| && more[k] > DROP_BEHIND ensures RejoinedAfter(more, k) {
        assert k < n && more[n] <= REJOIN_WITHIN;
      }
    } else if behind > DROP_BEHIND {
      assert !RejoinedAfter(more, n);
    } else {
      forall k | 0 <= k < n ensures RejoinedAfter(more, k) <==> RejoinedAfter(readings, k) {
        if RejoinedAfter(readings, k) {
          var j :| k < j < n && readings[j] <= REJOIN_WITHIN;
          assert more[j] == readings[j];
        }
        if RejoinedAfter(more, k) {
          var j :| k < j < |more| && more[j] <= REJOIN_WITHIN;
          assert readings[j] == more[j];
        }
      }
      if Recovered(readings) {
        forall k | 0 <= k < |more| && more[k] > DROP_BEHIND ensures RejoinedAfter(more, k) {
          assert readings[k] == more[k];
        }
      }
      if Recovered(more) {
        forall k | 0 <= k < n && readings[k] > DROP_BEHIND ensures RejoinedAfter(readings, k) {
          assert more[k] == readings[k];
        }
      }
    }
  }

  /** At tip by the last reading, or not measured yet. */
  ghost predicate Near(readings: seq<nat>) {
    readings == [] || readings[|readings| - 1] <= AT_TIP_WITHIN
  }

  /** At tip implies in rotation. */
  lemma {:induction false} NearRecovered(readings: seq<nat>)
    requires Near(readings)
    ensures Recovered(readings)
  {
    forall k | 0 <= k < |readings| && readings[k] > DROP_BEHIND ensures RejoinedAfter(readings, k) {
      assert readings[|readings| - 1] <= REJOIN_WITHIN;
    }
  }

  // ------------------------------------------------------------------------------------------
  // The send pool

  predicate AnyActiveAtTip(nodes: seq<Endpoint>) { exists i :: 0 <= i < |nodes| && nodes[i].active && nodes[i].atTip }
  predicate AnyAtTip(nodes: seq<Endpoint>) { exists i :: 0 <= i < |nodes| && nodes[i].atTip }
  predicate AnyHealthy(nodes: seq<Endpoint>) { exists i :: 0 <= i < |nodes| && nodes[i].healthy }

  /** One of the four priority classes: non-empty, and the highest that is. */
  ghost predicate IsPool(nodes: seq<Endpoint>, pool: seq<nat>) {
    && (forall i :: i in pool ==> i < |nodes|)
    && (if AnyActiveAtTip(nodes) then forall i: nat :: i < |nodes| ==> (i in pool <==>
         nodes[i].active && nodes[i].atTip)
        else if AnyAtTip(nodes) then forall i: nat :: i < |nodes| ==> (i in pool <==> nodes[i].atTip)
        else if AnyHealthy(nodes) then forall i: nat :: i < |nodes| ==> (i in pool <==> nodes[i].healthy)
        else forall i: nat :: i < |nodes| ==> i in pool)
  }

  /** Ingress never hard-stops: whatever the flags, the pool is not empty. */
  lemma {:induction false} PoolNotEmpty(nodes: seq<Endpoint>, pool: seq<nat>)
    requires IsPool(nodes, pool) && nodes != []
    ensures pool != []
  {
    var i: nat := 0;
    if AnyActiveAtTip(nodes) { i :| 0 <= i < |nodes| && nodes[i].active && nodes[i].atTip; }
    else if AnyAtTip(nodes) { i :| 0 <= i < |nodes| && nodes[i].atTip; }
    else if AnyHealthy(nodes) { i :| 0 <= i < |nodes| && nodes[i].healthy; }
    assert i in pool;
  }

  /** Which endpoints a list of wanted URLs selects; an empty list or one that matches nothing
      selects all. */
  ghost predicate Wanted(nodes: seq<Endpoint>, want: seq<string>, i: nat)
    requires i < |nodes|
  {
    want == [] || nodes[i].url in want || forall j :: 0 <= j < |nodes| ==> nodes[j].url !in want
  }

  class Broadcaster {
    var nodes: seq<Endpoint>
    /** The content last acted on; None is the initial sentinel. */
    var last: Option<seq<string>>
    /** Per endpoint, how far behind the furthest-ahead one each measuring tick found it. */
    ghost var readings: seq<seq<nat>>

    /** What holds after every tick of any run. */
    ghost predicate Valid()
      reads this
    {
      && nodes != [] && |readings| == |nodes|
      && (forall i :: 0 <= i < |nodes| ==>
            (nodes[i].healthy <==> Recovered(readings[i])) && (nodes[i].atTip <==> Near(readings[i])))
      && AnyAtTip(nodes)
      && (forall i :: 0 <= i < |nodes| ==>
            (nodes[i].active <==> last.None? || Wanted(nodes, last.value, i)))
    }

    /** newBroadcaster; no usable endpoint is an error there. */
    constructor (urls: seq<string>)
      requires urls != []
      ensures Valid() && |nodes| == |urls| && forall i :: 0 <= i < |nodes| ==>
                nodes[i].url == urls[i] && readings[i] == []
    {
      nodes := seq(|urls|, i requires 0 <= i < |urls| => Endpoint(urls[i], true, true, true));
      last := None;
      readings := seq(|urls|, i => []);
      new;
      assert nodes[0].atTip;
    }

    /** One tick of monitorIngress: an endpoint that does not answer counts as height 0, and a tick
        that reaches nothing leaves the routing unchanged. */
    method Tick(answers: seq<Option<nat>>)
      requires Valid() && |answers| == |nodes|
      modifies this`nodes, this`readings
      ensures Valid() && |nodes| == |old(nodes)|
      ensures (forall i :: 0 <= i < |answers| ==> Height(answers[i]) == 0) ==>
                nodes == old(nodes) && readings == old(readings)
      ensures (exists i :: 0 <= i < |answers| && Height(answers[i]) > 0) ==>
                exists top: nat :: IsTop(answers, top) && Measured(readings, old(readings), answers, top)
      ensures forall i :: 0 <= i < |nodes| ==>
                nodes[i].url == old(nodes)[i].url && nodes[i].active == old(nodes)[i].active
    {
      hide Recovered, Near, Wanted, Measured;
      var top, best := FindTop(answers);
      if top == 0 { return; }
      ghost var before, was := nodes, readings;
      for i := 0 to |answers|
        invariant |nodes| == |readings| == |before|
        invariant forall j :: 0 <= j < i ==>
                    && (nodes[j].healthy <==> Recovered(readings[j])) && (nodes[j].atTip <==> Near(readings[j]))
                    && readings[j] == was[j] + [top - Height(answers[j])]
        invariant forall j :: i <= j < |nodes| ==> nodes[j] == before[j] && readings[j] == was[j]
        invariant forall j :: 0 <= j < |nodes| ==> nodes[j].url == before[j].url && nodes[j].active == before[j].active
      {
        var behind: nat := top - Height(answers[i]);
        SwitchKeeps(nodes[i].healthy, readings[i], behind);
        NearLast(readings[i], behind);
        nodes := nodes[i := nodes[i].(healthy := Switch(nodes[i].healthy, behind), atTip := behind <= AT_TIP_WITHIN)];
        readings := readings[i := readings[i] + [behind]];
      }
      NearLast(was[best], 0);
      assert nodes[best].atTip;
      assert IsTop(answers, top);
      AllMeasured(readings, was, answers, top);
      SameWanted(before, nodes, last);
    }

    /** One tick of watchActiveRPCs. */
    method ReadActive(content: seq<string>)
      requires Valid()
      modifies this`nodes, this`last
      ensures Valid() && last == Some(content) && |nodes| == |old(nodes)|
      ensures forall i :: 0 <= i < |nodes| ==> nodes[i] == old(nodes)[i].(active := Wanted(old(nodes), content, i))
    {
      hide Recovered, Near;
      ghost var before := nodes;
      if last == Some(content) {
        return;
      }
      last := Some(content);
      var matched := false;
      for i := 0 to |nodes|
        invariant matched <==> exists j :: 0 <= j < i && nodes[j].url in content
      {
        if nodes[i].url in content { matched := true; }
      }
      for i := 0 to |nodes|
        invariant |nodes| == |before| && last == Some(content)
        invariant forall j :: 0 <= j < i ==> nodes[j] == before[j].(active := Wanted(before, content, j))
        invariant forall j :: i <= j < |nodes| ==> nodes[j] == before[j]
      {
        nodes := nodes[i := nodes[i].(active := content == [] || !matched || nodes[i].url in content)];
      }
      SameWanted(before, nodes, last);
      assert AnyAtTip(nodes) by {
        var k :| 0 <= k < |before| && before[k].atTip;
        assert nodes[k].atTip;
      }
    }

    /** broadcast's choice of pool, on the flags as they stand: at the end of any tick only at-tip
        endpoints, only active ones when any qualify, never none. */
    method Pool() returns (pool: seq<nat>)
      requires nodes != []
      ensures IsPool(nodes, pool) && pool != []
      ensures Valid() ==> forall i :: i in pool ==> nodes[i].atTip && nodes[i].healthy
      ensures Valid() && AnyActiveAtTip(nodes) ==> forall i :: i in pool ==> nodes[i].active
    {
      hide Recovered, Near, Wanted;
      var activeAtTip, anyAtTip, anyHealthy := false, false, false;
      for i := 0 to |nodes|
        invariant activeAtTip <==> exists j :: 0 <= j < i && nodes[j].active && nodes[j].atTip
        invariant anyAtTip <==> exists j :: 0 <= j < i && nodes[j].atTip
        invariant anyHealthy <==> exists j :: 0 <= j < i && nodes[j].healthy
      {
        if nodes[i].atTip {
          anyAtTip := true;
          if nodes[i].active { activeAtTip := true; }
        }
        if nodes[i].healthy { anyHealthy := true; }
      }
      pool := [];
      for i := 0 to |nodes|
        invariant forall j :: j in pool ==> j < i
        invariant forall j: nat :: j < i ==>
                    (j in pool <==> Eligible(nodes[j], activeAtTip, anyAtTip, anyHealthy))
      {
        if Eligible(nodes[i], activeAtTip, anyAtTip, anyHealthy) { pool := pool + [i]; }
      }
      PoolNotEmpty(nodes, pool);
      if Valid() {
        forall i | i in pool ensures nodes[i].atTip && nodes[i].healthy {
          NearRecovered(readings[i]);
        }
      }
    }
  }

  predicate Eligible(n: Endpoint, activeAtTip: bool, anyAtTip: bool, anyHealthy: bool) {
    if activeAtTip then n.active && n.atTip
    else if anyAtTip then n.atTip
    else if anyHealthy then n.healthy
    else true
  }

  function Height(answer: Option<nat>): nat { if answer.Some? then answer.value else 0 }

  /** Each endpoint got one reading: how far behind the top its answer was, no answer counting as 0. */
  ghost predicate Measured(now: seq<seq<nat>>, before: seq<seq<nat>>, answers: seq<Option<nat>>, top: nat) {
    |now| == |before| == |answers| && forall i :: 0 <= i < |now| ==>
      now[i] == before[i] + [top - if answers[i].Some? then answers[i].value else 0]
  }

  lemma {:induction false} AllMeasured(now: seq<seq<nat>>, before: seq<seq<nat>>, answers: seq<Option<nat>>, top: nat)
    requires |now| == |before| == |answers|
    requires forall i :: 0 <= i < |now| ==>
               Height(answers[i]) <= top && now[i] == before[i] + [top - Height(answers[i])]
    ensures Measured(now, before, answers, top)
  {
  }

  ghost predicate IsTop(answers: seq<Option<nat>>, top: nat) {
    && (forall i :: 0 <= i < |answers| ==> Height(answers[i]) <= top)
    && exists i :: 0 <= i < |answers| && Height(answers[i]) == top
  }

  /** The furthest-ahead height, 0 when nothing answered. */
  method FindTop(answers: seq<Option<nat>>) returns (top: nat, best: nat)
    ensures forall i :: 0 <= i < |answers| ==> Height(answers[i]) <= top
    ensures top > 0 ==> best < |answers| && Height(answers[best]) == top
  {
    top, best := 0, 0;
    for i := 0 to |answers|
      invariant forall j :: 0 <= j < i ==> Height(answers[j]) <= top
      invariant top > 0 ==> best < |answers| && Height(answers[best]) == top
    {
      if Height(answers[i]) > top { top, best := Height(answers[i]), i; }
    }
  }

  lemma {:induction false} NearLast(readings: seq<nat>, behind: nat)
    ensures Near(readings + [behind]) <==> behind <= AT_TIP_WITHIN
  {
  }

  lemma {:induction false} SameWanted(before: seq<Endpoint>, nodes: seq<Endpoint>, last: Option<seq<string>>)
    requires |before| == |nodes| && forall i :: 0 <= i < |nodes| ==> nodes[i].url == before[i].url
    ensures last.Some? ==> forall i :: 0 <= i < |nodes| ==> (Wanted(nodes, last.value, i) <==>
              Wanted(before, last.value, i))
  {
  }
}
