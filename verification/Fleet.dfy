/** The placement and lifecycle commands (internal/fleet/place.go, lifecycle.go, deploy.go) as
    methods over one fleet object. Each remote action may fail at any machine, having done some
    of its work; `history` records every machine state ever passed through, so a claim about
    history is a claim about whole runs and not only about a command's end. */
module Fleets {
  import opened Wrappers
  import opened Placements
  import opened FleetModel

  datatype Command =
    | PlaceCommand(letter: string, node: nat)
    | StartAllCommand
    | StopCommand(selectors: seq<nat>)
    | DestroyCommand(selectors: seq<nat>)
    | DeployCommand
    | CrashEvent(node: nat)
    | ReloadEvent(node: nat)

  ghost predicate Extends(h0: seq<Machines>, h1: seq<Machines>) {
    |h0| <= |h1| && h1[..|h0|] == h0
  }

  lemma {:induction false} ExtendsTransitive(h0: seq<Machines>, h1: seq<Machines>, h2: seq<Machines>)
    requires Extends(h0, h1) && Extends(h1, h2)
    ensures Extends(h0, h2)
  {
    assert h2[..|h0|] == h2[..|h1|][..|h0|];
  }

  function ToSet(s: seq<nat>): set<nat> { set n | n in s }

  ghost predicate Distinct(s: seq<nat>) {
    forall i, j :: 0 <= i < j < |s| ==> s[i] != s[j]
  }

  /** Node numbers named by selectors, in inventory order; no selector means every candidate,
      and a selector that names no candidate is an error. */
  function SelectNodes(candidates: seq<nat>, selectors: seq<nat>): (r: Option<seq<nat>>)
    ensures r.Some? ==> ToSet(r.value) == if selectors == [] then ToSet(candidates) else ToSet(selectors)
    ensures r.Some? ==> ToSet(r.value) <= ToSet(candidates)
    ensures r.Some? && Distinct(candidates) ==> Distinct(r.value)
    ensures r.None? <==> candidates == [] || exists s :: s in selectors && s !in candidates
  {
    if candidates == [] then None
    else if selectors == [] then Some(candidates)
    else if exists s :: s in selectors && s !in candidates then None
    else Some(Keep(candidates, ToSet(selectors)))
  }

  function Keep(candidates: seq<nat>, chosen: set<nat>): (r: seq<nat>)
    ensures forall n :: n in r <==> n in candidates && n in chosen
    ensures Distinct(candidates) ==> Distinct(r)
  {
    if candidates == [] then []
    else
      var last := candidates[|candidates| - 1];
      assert candidates == candidates[..|candidates| - 1] + [last];
      Keep(candidates[..|candidates| - 1], chosen) + (if last in chosen then [last] else [])
  }

  /** The selection keeps inventory order: entry k is candidate at[k]. */
  lemma {:induction false} SelectInOrder(candidates: seq<nat>, selectors: seq<nat>) returns (at: seq<nat>)
    requires SelectNodes(candidates, selectors).Some?
    ensures var r := SelectNodes(candidates, selectors).value;
            && |at| == |r| && Ascending(at)
            && (forall k :: 0 <= k < |at| ==> at[k] < |candidates| && candidates[at[k]] == r[k])
            && forall i: nat :: i < |candidates| ==> (i in at <==> selectors == [] || candidates[i] in selectors)
  {
    at := KeepInOrder(candidates, if selectors == [] then ToSet(candidates) else ToSet(selectors));
    if selectors == [] { KeepAll(candidates, ToSet(candidates)); }
  }

  lemma {:induction false} SelectGives(candidates: seq<nat>, selectors: seq<nat>)
    ensures var r := SelectNodes(candidates, selectors);
            r.Some? ==> ToSet(r.value) == (if selectors == [] then ToSet(candidates) else ToSet(selectors))
                        && ToSet(r.value) <= ToSet(candidates) && (Distinct(candidates) ==> Distinct(r.value))
  {
  }

  /** Selecting fails exactly on an empty fleet or an unknown number. */
  lemma {:induction false} SelectExact(candidates: seq<nat>, selectors: seq<nat>)
    ensures SelectNodes(candidates, selectors).Some? <==>
            ToSet(candidates) != {} && (selectors == [] || ToSet(selectors) <= ToSet(candidates))
  {
    hide Keep;
    if candidates != [] { assert candidates[0] in ToSet(candidates); }
    if ToSet(selectors) <= ToSet(candidates) {
      forall s | s in selectors ensures s in candidates { assert s in ToSet(selectors); }
    }
  }

  lemma {:induction false} KeepStep(candidates: seq<nat>, chosen: set<nat>)
    requires candidates != []
    ensures var init, last := candidates[..|candidates| - 1], candidates[|candidates| - 1];
            Keep(candidates, chosen) == Keep(init, chosen) + if last in chosen then [last] else []
  {
  }

  lemma {:induction false} KeepInOrder(candidates: seq<nat>, chosen: set<nat>) returns (at: seq<nat>)
    ensures |at| == |Keep(candidates, chosen)| && Ascending(at)
    ensures forall k :: 0 <= k < |at| ==> at[k] < |candidates| && candidates[at[k]] == Keep(candidates, chosen)[k]
    ensures forall i: nat :: i < |candidates| ==> (i in at <==> candidates[i] in chosen)
  {
    at := [];
    hide Distinct;
    if candidates != [] {
      KeepStep(candidates, chosen);
      hide Keep;
      at := KeepInOrder(candidates[..|candidates| - 1], chosen);
      if candidates[|candidates| - 1] in chosen {
        AscendingOn(at, |candidates| - 1);
        at := at + [|candidates| - 1];
      }
    }
  }

  lemma {:induction false} KeepAll(candidates: seq<nat>, chosen: set<nat>)
    requires forall n :: n in candidates ==> n in chosen
    ensures Keep(candidates, chosen) == candidates
  {
    hide Distinct;
    if candidates != [] {
      KeepStep(candidates, chosen);
      hide Keep;
      var init, last := candidates[..|candidates| - 1], candidates[|candidates| - 1];
      assert candidates == init + [last];
      KeepAll(init, chosen);
    }
  }

  /** Target i is next: the earlier ones are done, everything else is as it was. */
  ghost predicate Reached(action: Action, targets: seq<nat>, i: nat, id: Assignment, before: Machines, now: Machines)
    requires i <= |targets|
  {
    && now.Keys == before.Keys && (forall n :: n in before && n !in targets[..i] ==> now[n] == before[n])
    && forall n :: n in before && n in id && n in targets[..i] ==> Effect(action, id[n], before[n], now[n], true)
  }

  lemma {:induction false} ReachedStart(action: Action, targets: seq<nat>, id: Assignment, before: Machines)
    ensures Reached(action, targets, 0, id, before, before)
  {
  }

  lemma {:induction false} ReachedStep(action: Action, targets: seq<nat>, i: nat, id: Assignment, before: Machines,
                                       now: Machines, next: Machines, ok: bool)
    requires Distinct(targets) && i < |targets| && ToSet(targets) <= id.Keys
    requires Reached(action, targets, i, id, before, now) && targets[i] in now && next.Keys == now.Keys
    requires next == now[targets[i] := next[targets[i]]]
    requires targets[i] in id && Effect(action, id[targets[i]], now[targets[i]], next[targets[i]], ok)
    ensures Between(action, ToSet(targets), id, before, next)
    ensures ok ==> Reached(action, targets, i + 1, id, before, next)
  {
    NextIsNew(targets, i);
    hide Effect, Distinct;
    assert forall n :: n != targets[i] && n in now ==> next[n] == now[n];
    PrefixInSet(targets, i + 1);
    hide ToSet;
  }

  lemma {:induction false} PrefixInSet(targets: seq<nat>, i: nat)
    requires i <= |targets|
    ensures forall n :: n in targets[..i] ==> n in ToSet(targets)
  {
  }

  lemma {:induction false} NextIsNew(targets: seq<nat>, i: nat)
    requires Distinct(targets) && i < |targets|
    ensures targets[i] !in targets[..i]
    ensures forall n :: n in targets[..i + 1] <==> n in targets[..i] || n == targets[i]
  {
    assert targets[..i + 1] == targets[..i] + [targets[i]];
  }

  lemma {:induction false} ReachedEnd(action: Action, targets: seq<nat>, id: Assignment, before: Machines,
                                      now: Machines)
    requires ToSet(targets) <= id.Keys && Reached(action, targets, |targets|, id, before, now)
    ensures Between(action, ToSet(targets), id, before, now) && Done(action, ToSet(targets), id, before, now)
  {
    hide Effect;
    assert targets[..|targets|] == targets;
    assert forall n :: n in targets <==> n in ToSet(targets);
    hide ToSet;
  }

  lemma {:induction false} GateKillSince(h: seq<Machines>, from: nat, before: Machines, chosen: set<nat>,
                                         id: Assignment)
    requires chosen <= before.Keys && chosen <= id.Keys && BetweenSince(h, from, KillUnit, chosen, id, before)
    ensures GateSince(h, from, before, chosen)
  {
    hide Between, DataGate;
    forall k | from <= k < |h| ensures h[k].Keys == before.Keys && DataGate(before, h[k], chosen) {
      BetweenKeys(KillUnit, chosen, id, before, h[k]);
      GateWhileKilling(chosen, id, before, h[k]);
    }
  }

  lemma {:induction false} GateRemoveSince(middle: seq<Machines>, h: seq<Machines>, from: nat, before: Machines,
                                           killed: Machines, chosen: set<nat>, id: Assignment)
    requires chosen <= before.Keys && chosen <= id.Keys && Extends(middle, h) && GateSince(middle, from, before, chosen)
    requires Done(KillUnit, chosen, id, before, killed) && BetweenSince(h, |middle|, RemoveData, chosen, id, killed)
    ensures GateSince(h, from, before, chosen)
  {
    hide Between, DataGate, Done;
    forall k | from <= k < |h| ensures h[k].Keys == before.Keys && DataGate(before, h[k], chosen) {
      if k < |middle| {
        assert h[..|middle|][k] == middle[k];
      } else {
        BetweenKeys(RemoveData, chosen, id, killed, h[k]);
        DoneKeys(KillUnit, chosen, id, before, killed);
        GateWhileRemoving(chosen, id, before, killed, h[k]);
      }
    }
  }

  lemma {:induction false} BetweenKeys(action: Action, targets: set<nat>, id: Assignment, before: Machines,
                                       now: Machines)
    requires targets <= id.Keys && Between(action, targets, id, before, now)
    ensures now.Keys == before.Keys
  {
  }

  lemma {:induction false} DoneKeys(action: Action, targets: set<nat>, id: Assignment, before: Machines, now: Machines)
    requires targets <= id.Keys && Done(action, targets, id, before, now)
    ensures now.Keys == before.Keys
  {
  }

  lemma {:induction false} ChosenGone(chosen: set<nat>, id: Assignment, before: Machines, killed: Machines,
                                      now: Machines, ok: bool)
    requires chosen <= before.Keys && chosen <= id.Keys && Done(KillUnit, chosen, id, before, killed)
    requires ok ==> Done(RemoveData, chosen, id, killed, now)
    ensures ok ==> forall n :: n in chosen ==> n in now && !now[n].running && !now[n].data
  {
  }

  ghost predicate ExclusiveSince(h: seq<Machines>, from: nat) {
    forall k :: from <= k < |h| ==> Exclusive(h[k])
  }

  ghost predicate GateSince(h: seq<Machines>, from: nat, before: Machines, chosen: set<nat>)
    requires chosen <= before.Keys
  {
    forall k :: from <= k < |h| ==> h[k].Keys == before.Keys && DataGate(before, h[k], chosen)
  }

  /** Every state recorded from position `from` on is safe. */
  ghost predicate SafeSince(h: seq<Machines>, from: nat, id: Assignment) {
    forall k :: from <= k < |h| ==> Safe(h[k], id)
  }

  ghost predicate UndisturbedSince(h: seq<Machines>, from: nat, before: Machines, id: Assignment) {
    forall k :: from <= k < |h| ==> Undisturbed(before, h[k], id)
  }

  ghost predicate BetweenSince(h: seq<Machines>, from: nat, action: Action, targets: set<nat>, id: Assignment,
                               before: Machines)
    requires targets <= id.Keys
  {
    forall k :: from <= k < |h| ==> Between(action, targets, id, before, h[k])
  }

  /** A phase that starts nothing adds only safe states. */
  lemma {:induction false} QuietSince(h: seq<Machines>, start: nat, from: nat, action: Action, targets: set<nat>,
                                      id: Assignment, before: Machines)
    requires targets <= id.Keys && !Starts(action) && BetweenSince(h, from, action, targets, id, before)
    requires from <= |h| && start <= from && SafeSince(h[..from], start, id) && Safe(before, id)
    requires action.InstallIdentity? ==> forall n :: n in before && n in targets ==> !Serves(before[n], id[n])
    ensures SafeSince(h, start, id)
  {
    forall k | start <= k < |h| ensures Safe(h[k], id) {
      if k < from {
        assert h[..from][k] == h[k];
      } else {
        QuietPhaseKeepsSafe(action, targets, id, before, h[k]);
      }
    }
  }

  lemma {:induction false} StartSince(h: seq<Machines>, start: nat, from: nat, action: Action, targets: set<nat>,
                                      id: Assignment, before: Machines)
    requires targets <= id.Keys && Starts(action) && BetweenSince(h, from, action, targets, id, before)
    requires from <= |h| && start <= from && SafeSince(h[..from], start, id) && Safe(before, id)
    requires InjectiveOn(id) && ReadyToStart(before, targets, id)
    ensures SafeSince(h, start, id)
  {
    forall k | start <= k < |h| ensures Safe(h[k], id) {
      if k < from {
        assert h[..from][k] == h[k];
      } else {
        StartPhaseKeepsSafe(action, targets, id, before, h[k]);
      }
    }
  }

  lemma {:induction false} UndisturbedPhaseSince(h: seq<Machines>, start: nat, from: nat, action: Action,
                                                 targets: set<nat>, id: Assignment, before: Machines, mid: Machines)
    requires targets <= id.Keys && BetweenSince(h, from, action, targets, id, mid)
    requires from <= |h| && start <= from && UndisturbedSince(h[..from], start, before, id) &&
               Undisturbed(before, mid, id)
    requires action in {InstallConfig, InstallIdentity, StopUnit, StartUnit}
    requires !action.InstallConfig? ==> forall n :: n in before && n in targets ==> Wanting(before[n], id[n])
    ensures UndisturbedSince(h, start, before, id)
  {
    forall k | start <= k < |h| ensures Undisturbed(before, h[k], id) {
      if k < from {
        assert h[..from][k] == h[k];
      } else {
        UndisturbedPhase(action, targets, id, before, mid, h[k]);
      }
    }
  }

  lemma {:induction false} ExclusiveJoin(h0: seq<Machines>, h1: seq<Machines>, from: nat, id: Assignment)
    requires from <= |h0| && Extends(h0, h1) && ExclusiveSince(h0, from) && SafeSince(h1, |h0|, id)
    ensures ExclusiveSince(h1, from)
  {
    forall k | from <= k < |h1| ensures Exclusive(h1[k]) {
      if k < |h0| {
        assert h1[..|h0|][k] == h0[k];
      }
    }
  }

  lemma {:induction false} UndisturbedJoin(h0: seq<Machines>, h1: seq<Machines>, from: nat, before: Machines,
                                           mid: Machines, id: Assignment)
    requires from <= |h0| && Extends(h0, h1) && Undisturbed(before, mid, id)
    requires UndisturbedSince(h0, from, before, id) && UndisturbedSince(h1, |h0|, mid, id)
    ensures UndisturbedSince(h1, from, before, id)
  {
    forall k | from <= k < |h1| ensures Undisturbed(before, h1[k], id) {
      if k < |h0| {
        assert h1[..|h0|][k] == h0[k];
      } else {
        UndisturbedTransitive(before, mid, h1[k], id);
      }
    }
  }

  lemma {:induction false} NotServing(restart: seq<nat>, id: Assignment, ms: Machines)
    requires ms.Keys == id.Keys && forall n :: n in restart <==> n in ms && Wanting(ms[n], id[n])
    ensures ToSet(restart) <= id.Keys && forall n :: n in restart ==> !Serves(ms[n], id[n])
  {
  }

  lemma {:induction false} UndisturbedStart(h: seq<Machines>, before: Machines, id: Assignment)
    ensures Undisturbed(before, before, id) && UndisturbedSince(h, |h|, before, id)
  {
  }

  lemma {:induction false} SafeStart(h: seq<Machines>, id: Assignment)
    ensures SafeSince(h, |h|, id)
  {
  }

  lemma {:induction false} SafeIsExclusive(h: seq<Machines>, from: nat, id: Assignment)
    requires SafeSince(h, from, id)
    ensures ExclusiveSince(h, from)
  {
    forall k | from <= k < |h| ensures Exclusive(h[k]) {
      assert Safe(h[k], id);
    }
  }

  /** Machines outside `targets` are as they were in every state from position `from` on. */
  ghost predicate OthersSince(h: seq<Machines>, from: nat, targets: set<nat>, before: Machines) {
    forall k, n :: from <= k < |h| && n in before && n !in targets ==> n in h[k] && h[k][n] == before[n]
  }

  /** The chosen machines that a start may touch: not serving their identity, or not answering. */
  ghost function Unserved(ms: Machines, id: Assignment, chosen: set<nat>, silent: set<nat>): set<nat>
    requires chosen <= ms.Keys && chosen <= id.Keys
  {
    set n | n in chosen && (!Serves(ms[n], id[n]) || n in silent)
  }

  lemma {:induction false} ExtendsGrow(h0: seq<Machines>, h1: seq<Machines>)
    requires Extends(h0, h1)
    ensures |h0| <= |h1|
  {
  }

  lemma {:induction false} CalmOn(faults: Faults, from: nat, later: nat)
    requires from <= later
    ensures Calm(faults, from) ==> Calm(faults, later)
  {
  }

  lemma {:induction false} DataStart(ms: Machines)
    ensures DataKept(ms, ms)
  {
  }

  lemma {:induction false} ReadyMeans(id: Assignment)
    ensures forall m, x :: Ready(m, x) ==>
              m.running && m.runtime == x && m.key == Some(m.runtime) && m.enabled
  {
  }

  lemma {:induction false} ReadyServes(id: Assignment)
    ensures forall m, x :: Ready(m, x) ==> Serves(m, x)
  {
  }

  lemma {:induction false} ExtendsSelf(h: seq<Machines>)
    ensures Extends(h, h)
  {
  }

  /** The machines a place command is about: the one named, and whichever holds the letter. */
  ghost function Moved(p: Placement, letter: string, node: nat): set<nat> {
    {node} + set n | n in p && p[n] == letter
  }

  /** The others keep their assignment, so a reconcile at the new one leaves them alone. */
  lemma {:induction false} OthersKeepAssignment(inv: Inventory, p: Placement, letter: string, node: nat, n: nat)
    requires IsValid(p, inv.public, inv.nodes) && PlanPlace(inv, p, letter, node).Ok?
    requires n !in Moved(p, letter, node)
    ensures var q := PlanPlace(inv, p, letter, node).value;
            (n in Assigned(inv, q) <==> n in Assigned(inv, p))
            && (n in Assigned(inv, p) ==> Assigned(inv, q)[n] == Assigned(inv, p)[n])
  {
    PlanPlaceSwaps(inv, p, letter, node);
    hide IsValid, PlanPlace, ByIdentity;
  }

  lemma {:induction false} IsolatedMove(inv: Inventory, p: Placement, letter: string, node: nat, ms: Machines,
                                        now: Machines)
    requires IsValid(p, inv.public, inv.nodes) && PlanPlace(inv, p, letter, node).Ok?
    requires ms.Keys == Assigned(inv, p).Keys && Converged(ms, Assigned(inv, p))
    requires Undisturbed(ms, now, Assigned(inv, PlanPlace(inv, p, letter, node).value))
    ensures forall n :: n in ms && n !in Moved(p, letter, node) ==> n in now && now[n] == ms[n]
  {
    hide IsValid, PlanPlace, Assigned, Wanting, Moved;
    forall n | n in ms && n !in Moved(p, letter, node) ensures n in now && now[n] == ms[n] {
      OthersKeepAssignment(inv, p, letter, node, n);
    }
  }

  lemma {:induction false} IsolatedMoveSince(inv: Inventory, p: Placement, letter: string, node: nat, ms: Machines,
                                             h: seq<Machines>, from: nat)
    requires IsValid(p, inv.public, inv.nodes) && PlanPlace(inv, p, letter, node).Ok?
    requires ms.Keys == Assigned(inv, p).Keys && Converged(ms, Assigned(inv, p))
    requires UndisturbedSince(h, from, ms, Assigned(inv, PlanPlace(inv, p, letter, node).value))
    ensures OthersSince(h, from, Moved(p, letter, node), ms)
  {
    hide IsValid, PlanPlace, Assigned, Converged, Undisturbed, Moved;
    forall k | from <= k < |h|
      ensures forall n :: n in ms && n !in Moved(p, letter, node) ==> n in h[k] && h[k][n] == ms[n]
    {
      IsolatedMove(inv, p, letter, node, ms, h[k]);
    }
  }

  /** On the whole fleet the plan is empty exactly when it has converged. */
  lemma {:induction false} PlanOfFleet(l1: seq<nat>, id: Assignment, ms: Machines, probes: map<nat, Probe>)
    requires Distinct(l1) && ToSet(l1) == ms.Keys == id.Keys
    requires forall n :: n in l1 ==> n in probes && probes[n] == ProbeOf(ms[n])
    ensures var plan := PlanApply(l1, id, probes);
            && plan.Ok? && Distinct(plan.value) && (plan.value == [] <==> Converged(ms, id))
            && forall n :: n in plan.value <==> n in ms && Wanting(ms[n], id[n])
  {
    assert forall n :: n in l1 <==> n in ToSet(l1);
    PlanApplyExact(l1, id, ms, probes);
    hide PlanApply, Wanting, ProbeOf;
    var plan := PlanApply(l1, id, probes).value;
    if plan != [] { assert plan[0] in plan; }
  }

  lemma {:induction false} NoneListed(s: seq<nat>)
    ensures s == [] <==> ToSet(s) == {}
  {
    if s != [] { assert s[0] in ToSet(s); }
  }

  lemma {:induction false} UnservedOnly(ms: Machines, id: Assignment, chosen: set<nat>, silent: set<nat>)
    requires chosen <= ms.Keys && chosen <= id.Keys
    ensures Unserved(ms, id, chosen, silent) <= chosen
    ensures forall n :: n in chosen && n !in Unserved(ms, id, chosen, silent) ==> Serves(ms[n], id[n])
  {
  }

  lemma {:induction false} OthersStart(h: seq<Machines>, before: Machines, targets: set<nat>)
    ensures OthersSince(h, |h|, targets, before)
  {
  }

  /** A phase over targets adds only states in which the others are as before it. */
  lemma {:induction false} OthersPhase(h0: seq<Machines>, h1: seq<Machines>, from: nat, action: Action,
                                       targets: set<nat>, id: Assignment, before: Machines, mid: Machines)
    requires targets <= id.Keys && from <= |h0| && Extends(h0, h1) && OthersSince(h0, from, targets, before)
    requires BetweenSince(h1, |h0|, action, targets, id, mid) && mid.Keys == before.Keys
    requires forall n :: n in before && n !in targets ==> mid[n] == before[n]
    ensures OthersSince(h1, from, targets, before)
  {
    hide Effect;
    forall k, n | from <= k < |h1| && n in before && n !in targets ensures n in h1[k] && h1[k][n] == before[n] {
      if k < |h0| {
        assert h1[..|h0|][k] == h0[k];
      } else {
        assert Between(action, targets, id, mid, h1[k]);
      }
    }
  }

  lemma {:induction false} SafeExclusive(ms: Machines, id: Assignment)
    requires Safe(ms, id)
    ensures Exclusive(ms)
  {
  }

  lemma {:induction false} ExtendsAt(h0: seq<Machines>, h1: seq<Machines>)
    requires Extends(h0, h1)
    ensures |h0| <= |h1| && (|h0| > 0 ==> h1[|h0| - 1] == h0[|h0| - 1])
  {
    assert |h0| > 0 ==> h1[..|h0|][|h0| - 1] == h1[|h0| - 1];
  }

  lemma {:induction false} FleetFacts(inv: Inventory, p: Placement)
    requires IsValid(p, inv.public, inv.nodes) && DistinctNodeIDs(inv.public)
    ensures InjectiveOn(Assigned(inv, p))
    ensures Assigned(inv, p).Keys == L1Set(inv.nodes) == ToSet(L1Numbers(inv.nodes))
    ensures Distinct(L1Numbers(inv.nodes))
  {
    AssignedInjective(inv, p);
    ValidIsBijective(p, inv.public, inv.nodes);
    L1NumbersDistinct(inv.nodes);
  }

  /** What fails, by how many remote actions came before it: an action, the probes of a command, or
      writing placement.json. */
  datatype Faults = Faults(act: nat -> bool, probe: nat -> bool, save: nat -> bool)

  /** Nothing fails from then on. */
  ghost predicate Calm(faults: Faults, from: nat) {
    forall k: nat :: k >= from ==> !faults.act(k) && !faults.probe(k) && !faults.save(k)
  }

  /** Every machine that is up runs the NodeID of a manifest record placed on it. */
  ghost predicate RunPlaced(inv: Inventory, p: Placement, ms: Machines) {
    forall n :: n in ms && ms[n].running ==> PlacedID(inv, p, n, ms[n].runtime)
  }

  lemma {:induction false} ServingPlaced(inv: Inventory, p: Placement, ms: Machines, chosen: set<nat>)
    requires IsValid(p, inv.public, inv.nodes) && chosen <= ms.Keys && chosen <= Assigned(inv, p).Keys
    requires forall n :: n in chosen ==> Serves(ms[n], Assigned(inv, p)[n])
    ensures forall n :: n in chosen ==> PlacedID(inv, p, n, ms[n].runtime)
  {
    AssignedPlaced(inv, p);
    hide IsValid, Assigned, PlacedID;
  }

  lemma {:induction false} ConvergedPlaced(inv: Inventory, p: Placement, ms: Machines)
    requires IsValid(p, inv.public, inv.nodes) && ms.Keys == Assigned(inv, p).Keys && Converged(ms, Assigned(inv, p))
    ensures RunPlaced(inv, p, ms)
  {
    AssignedPlaced(inv, p);
    hide IsValid, Assigned, PlacedID;
  }

  class Fleet {
    const inv: Inventory
    const faults: Faults
    var placement: Placement
    var machines: Machines
    /** The machine states after each remote action and each crash, the first one included. */
    var history: seq<Machines>

    ghost predicate Valid()
      reads this
    {
      && IsValid(placement, inv.public, inv.nodes) && DistinctNodeIDs(inv.public)
      && machines.Keys == L1Set(inv.nodes)
      && |history| > 0 && history[|history| - 1] == machines
    }

    ghost function Id(): Assignment
      reads this`placement
    {
      Assigned(inv, placement)
    }

    /** A fresh fleet: nothing running, no keys installed. */
    constructor (inv: Inventory, placement: Placement, faults: Faults)
      requires IsValid(placement, inv.public, inv.nodes) && DistinctNodeIDs(inv.public)
      ensures Valid() && Safe(machines, Id())
      ensures this.inv == inv && this.faults == faults && this.placement == placement && history == [machines]
    {
      this.inv, this.placement, this.faults := inv, placement, faults;
      var idle := map n | n in L1Set(inv.nodes) :: Machine(false, "", None, false, false);
      this.machines := idle;
      this.history := [idle];
    }

    /** One remote action on one machine. */
    method Act(action: Action, id: string, n: nat) returns (ok: bool)
      requires n in machines
      modifies this`machines, this`history
      ensures machines.Keys == old(machines.Keys) && machines == old(machines)[n := machines[n]]
      ensures Effect(action, id, old(machines[n]), machines[n], ok)
      ensures history == old(history) + [machines]
      ensures ok <==> !faults.act(|old(history)|)
    {
      ok := !faults.act(|history|);
      var after: Machine := *;
      if !Effect(action, id, machines[n], after, ok) {
        after := if ok then Carried(action, id, machines[n]) else machines[n];
      }
      machines := machines[n := after];
      history := history + [machines];
    }

    /** Run one action machine by machine, aborting at the first failure. */
    method Phase(action: Action, targets: seq<nat>, id: Assignment) returns (ok: bool)
      requires Distinct(targets) && ToSet(targets) <= machines.Keys && ToSet(targets) <= id.Keys
      requires |history| > 0 && history[|history| - 1] == machines
      modifies this`machines, this`history
      ensures Extends(old(history), history) && |history| > 0 && history[|history| - 1] == machines
      ensures Between(action, ToSet(targets), id, old(machines), machines)
      ensures BetweenSince(history, |old(history)|, action, ToSet(targets), id, old(machines))
      ensures ok ==> Done(action, ToSet(targets), id, old(machines), machines)
      ensures Calm(faults, |old(history)|) ==> ok
    {
      hide Between, Done, Effect, Reached, Distinct;
      ghost var before := machines;
      ReachedStart(action, targets, id, before);
      for i := 0 to |targets|
        invariant machines.Keys == before.Keys
        invariant Extends(old(history), history) && |history| > 0 && history[|history| - 1] == machines
        invariant Reached(action, targets, i, id, before, machines)
        invariant BetweenSince(history, |old(history)|, action, ToSet(targets), id, before)
      {
        assert targets[i] in ToSet(targets);
        ghost var now := machines;
        ok := Act(action, id[targets[i]], targets[i]);
        ReachedStep(action, targets, i, id, before, now, machines, ok);
        ExtendsGrow(old(history), history);
        if !ok {
          return;
        }
      }
      ReachedEnd(action, targets, id, before, machines);
      ok := true;
    }

    /** A phase inside a command that began after history `past`; when `guard` holds the
        command has passed only through safe states, and this phase adds only safe ones. */
    method SafePhase(action: Action, targets: seq<nat>, id: Assignment, ghost past: seq<Machines>,
                     ghost guard: bool) returns (ok: bool)
      requires Distinct(targets) && ToSet(targets) <= machines.Keys && ToSet(targets) <= id.Keys
      requires Extends(past, history) && |history| > 0 && history[|history| - 1] == machines
      requires guard ==> Safe(machines, id) && SafeSince(history, |past|, id)
      requires guard && action.InstallIdentity? ==> forall n :: n in targets ==> !Serves(machines[n], id[n])
      requires guard && Starts(action) ==> InjectiveOn(id) && ReadyToStart(machines, ToSet(targets), id)
      modifies this`machines, this`history
      ensures Extends(old(history), history) && Extends(past, history)
      ensures |history| > 0 && history[|history| - 1] == machines
      ensures Between(action, ToSet(targets), id, old(machines), machines)
      ensures BetweenSince(history, |old(history)|, action, ToSet(targets), id, old(machines))
      ensures machines.Keys == old(machines).Keys
      ensures forall n :: n in machines && n !in targets ==> machines[n] == old(machines)[n]
      ensures ok ==> Done(action, ToSet(targets), id, old(machines), machines)
      ensures guard ==> Safe(machines, id) && SafeSince(history, |past|, id)
      ensures Calm(faults, |past|) ==> ok
      ensures !action.RemoveData? ==> forall d :: DataKept(d, old(machines)) ==> DataKept(d, machines)
    {
      ok := Phase(action, targets, id);
      ExtendsTransitive(past, old(history), history);
      if !action.RemoveData? { DataPhase(action, ToSet(targets), id, old(machines), machines); }
      ExtendsGrow(past, old(history));
      if guard {
        if Starts(action) {
          StartSince(history, |past|, |old(history)|, action, ToSet(targets), id, old(machines));
          StartPhaseKeepsSafe(action, ToSet(targets), id, old(machines), machines);
        } else {
          QuietSince(history, |past|, |old(history)|, action, ToSet(targets), id, old(machines));
          QuietPhaseKeepsSafe(action, ToSet(targets), id, old(machines), machines);
        }
      }
    }

    /** One phase of a reconcile that began in `before` after history `past`. */
    method RestartPhase(action: Action, targets: seq<nat>, id: Assignment, ghost before: Machines,
                        ghost past: seq<Machines>, ghost guard: bool) returns (ok: bool)
      requires action in {InstallConfig, InstallIdentity, StopUnit, StartUnit}
      requires Distinct(targets) && ToSet(targets) <= machines.Keys && ToSet(targets) <= id.Keys
      requires Extends(past, history) && |history| > 0 && history[|history| - 1] == machines
      requires guard ==> Safe(machines, id) && SafeSince(history, |past|, id)
      requires guard && action.InstallIdentity? ==> forall n :: n in targets ==> !Serves(machines[n], id[n])
      requires guard && Starts(action) ==> InjectiveOn(id) && ReadyToStart(machines, ToSet(targets), id)
      requires Undisturbed(before, machines, id) && UndisturbedSince(history, |past|, before, id)
      requires !action.InstallConfig? ==> forall n :: n in targets && n in before ==> Wanting(before[n], id[n])
      modifies this`machines, this`history
      ensures Extends(old(history), history) && Extends(past, history)
      ensures |history| > 0 && history[|history| - 1] == machines
      ensures Between(action, ToSet(targets), id, old(machines), machines)
      ensures ok ==> Done(action, ToSet(targets), id, old(machines), machines)
      ensures guard ==> Safe(machines, id) && SafeSince(history, |past|, id)
      ensures Undisturbed(before, machines, id) && UndisturbedSince(history, |past|, before, id)
      ensures Calm(faults, |past|) ==> ok
    {
      ok := SafePhase(action, targets, id, past, guard);
      UndisturbedPhaseSince(history, |past|, |old(history)|, action, ToSet(targets), id, before, old(machines));
      UndisturbedPhase(action, ToSet(targets), id, before, old(machines), machines);
    }

    /** The phases of a reconcile: the address book everywhere, then identity, stop and start on
        the machines the plan names. */
    method ApplyPlan(l1: seq<nat>, restart: seq<nat>, id: Assignment) returns (ok: bool)
      requires Distinct(l1) && Distinct(restart) && InjectiveOn(id)
      requires ToSet(l1) == machines.Keys == id.Keys
      requires forall n :: n in restart <==> n in machines && Wanting(machines[n], id[n])
      requires |history| > 0 && history[|history| - 1] == machines
      modifies this`machines, this`history
      ensures Extends(old(history), history) && |history| > 0 && history[|history| - 1] == machines
      ensures machines.Keys == old(machines).Keys
      ensures Safe(old(machines), id) ==> Safe(machines, id) && SafeSince(history, |old(history)|, id)
      ensures Undisturbed(old(machines), machines, id) && UndisturbedSince(history, |old(history)|, old(machines), id)
      ensures ok ==> Converged(machines, id)
      ensures Calm(faults, |old(history)|) ==> ok
    {
      hide Safe, SafeSince, Undisturbed, UndisturbedSince, Effect, Between, Done, Wanting, Serves, Distinct;
      hide Converged, ReadyToStart, Extends, Calm, DataKept;
      ghost var before, past, guard := machines, history, Safe(machines, id);
      UndisturbedStart(past, before, id);
      SafeStart(past, id);
      ghost var targets := ToSet(restart);
      NotServing(restart, id, before);
      ok := RestartPhase(InstallConfig, l1, id, before, past, guard);
      if !ok { return; }
      ConfigChangesNothing(ToSet(l1), id, before, machines);
      ok := RestartPhase(InstallIdentity, restart, id, before, past, guard);
      if !ok { return; }
      ghost var keyed := machines;
      ok := RestartPhase(StopUnit, restart, id, before, past, guard);
      if !ok { return; }
      ghost var stopped := machines;
      PlanReady(targets, id, before, keyed, stopped);
      ok := RestartPhase(StartUnit, restart, id, before, past, guard);
      if ok {
        PlanConverges(targets, id, before, stopped, machines);
      }
    }

    /** Ask every machine for its service state and runtime NodeID; any silence is an error. */
    method ProbeAll(l1: seq<nat>) returns (r: Option<map<nat, Probe>>)
      requires forall n :: n in l1 ==> n in machines
      ensures r.Some? ==> forall n :: n in l1 ==> n in r.value && r.value[n] == ProbeOf(machines[n])
      ensures !faults.probe(|history|) ==> r.Some?
    {
      var probes: map<nat, Probe> := map[];
      for i := 0 to |l1|
        invariant forall n :: n in l1[..i] ==> n in probes && probes[n] == ProbeOf(machines[n])
      {
        var silent: bool := *;
        if silent && faults.probe(|history|) {
          return None;
        }
        assert l1[i] in l1;
        probes := probes[l1[i] := ProbeOf(machines[l1[i]])];
        assert l1[..i + 1] == l1[..i] + [l1[i]];
      }
      assert l1[..|l1|] == l1;
      return Some(probes);
    }

    /** reconcilePlacement: probe every machine, plan, and restart what is wrong. */
    method Reconcile() returns (ok: bool)
      requires Valid()
      modifies this`machines, this`history
      ensures Valid() && Extends(old(history), history)
      ensures Safe(old(machines), Id()) ==> Safe(machines, Id()) && SafeSince(history, |old(history)|, Id())
      ensures Undisturbed(old(machines), machines, Id()) &&
                UndisturbedSince(history, |old(history)|, old(machines), Id())
      ensures ok ==> Converged(machines, Id()) && RunPlaced(inv, placement, machines)
      ensures Converged(old(machines), Id()) ==> machines == old(machines) && history == old(history)
      ensures Calm(faults, |old(history)|) ==> ok
    {
      hide IsValid, DistinctNodeIDs, L1Numbers, Assigned, Safe, SafeSince, Undisturbed, UndisturbedSince, Converged;
      hide Extends, Distinct, InjectiveOn, PlanApply, Wanting, ProbeOf;
      FleetFacts(inv, placement);
      var id, l1 := Assigned(inv, placement), L1Numbers(inv.nodes);
      UndisturbedStart(history, machines, id);
      SafeStart(history, id);
      ExtendsSelf(history);
      var probes := ProbeAll(l1);
      if probes.None? {
        return false;
      }
      PlanOfFleet(l1, id, machines, probes.value);
      var plan := PlanApply(l1, id, probes.value);
      if plan.Err? {
        return false;
      }
      if plan.value == [] {
        ConvergedPlaced(inv, placement, machines);
        return true;
      }
      ok := ApplyPlan(l1, plan.value, id);
      if ok { ConvergedPlaced(inv, placement, machines); }
    }

    /** Plan the swap, validate it and publish placement.json; on a converged fleet the new
        placement endangers nothing. */
    method WritePlacement(letter: string, node: nat) returns (written: bool)
      requires Valid() && Converged(machines, Id())
      modifies this`placement
      ensures Valid()
      ensures if written then PlanPlace(inv, old(placement), letter, node) == Ok(placement)
                              && node in placement && placement[node] == letter
              else placement == old(placement)
      ensures written <==> PlanPlace(inv, old(placement), letter, node).Ok? && !faults.save(|history|)
      ensures Safe(machines, old(Id())) ==> Safe(machines, Id())
    {
      hide IsValid, PlanPlace, DistinctNodeIDs, L1Numbers, Assigned, Converged, Safe, InjectiveOn, Distinct;
      var next := Plan(inv, placement, letter, node);
      if next.Err? {
        return false;
      }
      PlanPlaceKeepsValid(inv, placement, letter, node);
      var refused := Validate(next.value, inv.public, inv.nodes);
      if refused.Err? {
        return false;
      }
      if faults.save(|history|) {
        return false;
      }
      ghost var id := Id();
      FleetFacts(inv, placement);
      if Safe(machines, id) { NewPlacementKeepsSafe(machines, id, Assigned(inv, next.value)); }
      placement := next.value;
      return true;
    }

    /** fleet place: reconcile, write one swap, reconcile. On a converged fleet this is one isolated
        transition: no machine but the two it swaps is touched, in any state. */
    method Place(letter: string, node: nat) returns (ok: bool)
      requires Valid()
      modifies this
      ensures Valid() && Extends(old(history), history)
      ensures placement == old(placement) || PlanPlace(inv, old(placement), letter, node) == Ok(placement)
      ensures Safe(old(machines), old(Id())) ==> Safe(machines, Id()) && ExclusiveSince(history, |old(history)|)
      ensures placement != old(placement) ==>
                exists k :: |old(history)| - 1 <= k < |history| && Converged(history[k], old(Id()))
      ensures ok ==> && PlanPlace(inv, old(placement), letter, node) == Ok(placement)
                     && node in placement && placement[node] == letter
                     && Converged(machines, Id()) && RunPlaced(inv, placement, machines)
      ensures Calm(faults, |old(history)|) ==> (ok <==> PlanPlace(inv, old(placement), letter, node).Ok?)
      ensures Converged(old(machines), old(Id())) ==>
                var moved := Moved(old(placement), letter, node);
                OthersSince(history, |old(history)|, moved, old(machines))
                && forall n :: n in old(machines) && n !in moved ==> n in machines && machines[n] == old(machines)[n]
    {
      OthersStart(history, machines, Moved(placement, letter, node));
      hide OthersSince, Moved;
      hide IsValid, PlanPlace, DistinctNodeIDs, L1Numbers, Assigned, Undisturbed, UndisturbedSince, Converged, Safe;
      hide RunPlaced, SafeSince, ExclusiveSince, Extends, InjectiveOn, Distinct, L1Set, ToSet, FindNode, NodeOf, Swap;
      ghost var id := Id();
      ok := Reconcile();
      ExtendsAt(old(history), history);
      if Safe(old(machines), id) { SafeIsExclusive(history, |old(history)|, id); }
      if !ok {
        return;
      }
      ghost var middle := history;
      var current := placement;
      var written := WritePlacement(letter, node);
      if !written {
        return false;
      }
      if placement == current {
        return true;
      }
      CalmOn(faults, |old(history)|, |middle|);
      assert Converged(history[|middle| - 1], id);
      FleetFacts(inv, current);
      ghost var now := machines;
      ok := Reconcile();
      IsolatedMove(inv, current, letter, node, now, machines);
      IsolatedMoveSince(inv, current, letter, node, now, history, |middle|);
      ExtendsAt(middle, history);
      ExtendsTransitive(old(history), middle, history);
      if Safe(old(machines), id) { ExclusiveJoin(middle, history, |old(history)|, Id()); }
    }

    /** Any number of failing reconciles followed by one that succeeds. Whatever was enabled at
        the start ends up serving its assigned identity, and nothing that was already right or
        deliberately down is touched on the way. */
    method ReconcileUntil(attempts: nat) returns (ok: bool)
      requires Valid()
      modifies this`machines, this`history
      ensures Valid() && Extends(old(history), history)
      ensures Undisturbed(old(machines), machines, Id()) &&
                UndisturbedSince(history, |old(history)|, old(machines), Id())
      ensures ok ==> Converged(machines, Id()) && RunPlaced(inv, placement, machines)
      ensures attempts > 0 && Calm(faults, |old(history)|) ==> ok
      ensures ok ==> forall n :: n in machines && n in Id() && old(machines)[n].enabled ==> Serves(machines[n], Id()[n])
    {
      hide IsValid, DistinctNodeIDs, L1Numbers, Assigned, Exclusive, KeysFresh, RunPlaced;
      ok := false;
      ghost var before := machines;
      for i := 0 to attempts
        invariant Valid() && Extends(old(history), history)
        invariant Undisturbed(before, machines, Id()) && UndisturbedSince(history, |old(history)|, before, Id())
        invariant ok ==> Converged(machines, Id()) && RunPlaced(inv, placement, machines)
        invariant i > 0 && Calm(faults, |old(history)|) ==> ok
      {
        ghost var past, now := history, machines;
        CalmOn(faults, |old(history)|, |history|);
        ok := Reconcile();
        ExtendsTransitive(old(history), past, history);
        UndisturbedTransitive(before, now, machines, Id());
        UndisturbedJoin(past, history, |old(history)|, before, now, Id());
        if ok {
          break;
        }
      }
    }

    /** The machines that selectors name; none names all. */
    ghost function Chosen(selectors: seq<nat>): set<nat>
      reads this
    {
      if selectors == [] then machines.Keys else ToSet(selectors)
    }

    /** fleet start on the selected machines: stop, re-key, configure and start whatever does not
        already serve its assigned identity. `silent` are the machines whose API does not answer;
        an active one of those is restarted. A machine that serves its identity and answers is left
        alone in every state, and an unknown selector touches nothing. */
    method Start(selectors: seq<nat>, silent: set<nat>) returns (ok: bool)
      requires Valid()
      modifies this`machines, this`history
      ensures Valid() && Extends(old(history), history)
      ensures !(old(Chosen(selectors)) <= Id().Keys) ==> !ok && machines == old(machines) && history == old(history)
      ensures forall n :: n in machines && n !in old(Chosen(selectors)) ==> machines[n] == old(machines)[n]
      ensures old(Chosen(selectors)) <= Id().Keys ==>
                OthersSince(history, |old(history)|, Unserved(old(machines), Id(), old(Chosen(selectors)), silent),
                            old(machines))
      ensures old(Chosen(selectors)) <= Id().Keys
              && Unserved(old(machines), Id(), old(Chosen(selectors)), silent) == {} ==>
                machines == old(machines) && history == old(history)
      ensures old(Chosen(selectors)) <= Id().Keys && Safe(old(machines), Id())
              && Clear(old(machines), old(Chosen(selectors)), Id()) ==>
                Safe(machines, Id()) && SafeSince(history, |old(history)|, Id())
      ensures ok ==> forall n :: n in old(Chosen(selectors)) ==> n in machines && Serves(machines[n], Id()[n])
                                                                 && PlacedID(inv, placement, n, machines[n].runtime)
      ensures ok && old(Chosen(selectors)) <= Id().Keys ==>
                forall n :: n in Unserved(old(machines), Id(), old(Chosen(selectors)), silent) ==>
                  n in machines && machines[n].key == Some(machines[n].runtime) && machines[n].enabled
      ensures ok && Exclusive(old(machines)) ==>
                (Exclusive(machines) <==> Clear(old(machines), old(Chosen(selectors)), Id()))
      ensures DataKept(old(machines), machines)
      ensures Calm(faults, |old(history)|) ==>
                (ok <==> machines.Keys != {} && old(Chosen(selectors)) <= machines.Keys)
    {
      hide IsValid, DistinctNodeIDs, L1Numbers, Assigned, Safe, SafeSince, OthersSince, Unserved, Serves, Clear;
      hide Extends, Exclusive, Distinct, Ready, DataKept, PlacedID, Calm, InjectiveOn, L1Set, SelectNodes;
      SelectGives(L1Numbers(inv.nodes), selectors);
      DataStart(machines);
      FleetFacts(inv, placement);
      SafeStart(history, Id());
      ExtendsSelf(history);
      ghost var chosen := Chosen(selectors);
      OthersStart(history, machines, if chosen <= Id().Keys then Unserved(machines, Id(), chosen, silent) else {});
      SelectExact(L1Numbers(inv.nodes), selectors);
      var choice := SelectNodes(L1Numbers(inv.nodes), selectors);
      if choice.None? {
        return false;
      }
      assert ToSet(choice.value) == chosen;
      ok := StartChosen(choice.value, Assigned(inv, placement), silent);
      if ok {
        ServingPlaced(inv, placement, machines, chosen);
        ReadyMeans(Id());
      }
    }

    method StartChosen(selected: seq<nat>, id: Assignment, silent: set<nat>) returns (ok: bool)
      requires machines.Keys == id.Keys && InjectiveOn(id) && Distinct(selected) && ToSet(selected) <= id.Keys
      requires |history| > 0 && history[|history| - 1] == machines
      modifies this`machines, this`history
      ensures Extends(old(history), history) && |history| > 0 && history[|history| - 1] == machines
      ensures machines.Keys == old(machines).Keys
      ensures var touched := Unserved(old(machines), id, ToSet(selected), silent);
              && OthersSince(history, |old(history)|, touched, old(machines))
              && (forall n :: n in machines && n !in touched ==> machines[n] == old(machines)[n])
              && (touched == {} ==> machines == old(machines) && history == old(history))
      ensures forall n :: n in machines && n !in ToSet(selected) ==> machines[n] == old(machines)[n]
      ensures Safe(old(machines), id) && Clear(old(machines), ToSet(selected), id) ==>
                Safe(machines, id) && SafeSince(history, |old(history)|, id)
      ensures ok ==> forall n :: n in ToSet(selected) ==> n in machines && Serves(machines[n], id[n])
      ensures ok ==> forall n :: n in Unserved(old(machines), id, ToSet(selected), silent) ==>
                       n in machines && Ready(machines[n], id[n])
      ensures ok && Exclusive(old(machines)) ==> (Exclusive(machines) <==> Clear(old(machines), ToSet(selected), id))
      ensures DataKept(old(machines), machines)
      ensures Calm(faults, |old(history)|) ==> ok
    {
      DataStart(machines);
      hide Ready, DataKept;
      hide Safe, SafeSince, OthersSince, Unserved, Serves, Clear, Extends, Exclusive, Distinct, InjectiveOn;
      ghost var chosen := ToSet(selected);
      SafeStart(history, id);
      ExtendsSelf(history);
      OthersStart(history, machines, Unserved(machines, id, chosen, silent));
      UnservedOnly(machines, id, chosen, silent);
      var converge: Option<seq<nat>> := ConvergeList(selected, id, silent);
      if converge.None? {
        return false;
      }
      NoneListed(converge.value);
      if converge.value == [] {
        ok := true;
      } else {
        ok := StartPhases(selected, converge.value, id);
      }
      if ok && Exclusive(old(machines)) {
        StartExclusiveIffClear(chosen, id, old(machines), machines);
      }
    }

    /** Probe the selected machines; the answer lists exactly those that need a restart. */
    method ConvergeList(selected: seq<nat>, id: Assignment, silent: set<nat>) returns (r: Option<seq<nat>>)
      requires Distinct(selected) && ToSet(selected) <= machines.Keys && ToSet(selected) <= id.Keys
      ensures r.Some? ==> Distinct(r.value) && ToSet(r.value) == Unserved(machines, id, ToSet(selected), silent)
      ensures !faults.probe(|history|) ==> r.Some?
    {
      var converge: seq<nat> := [];
      for i := 0 to |selected|
        invariant Distinct(converge)
        invariant forall n :: n in converge <==>
                              n in selected[..i] && (!Serves(machines[n], id[n]) || n in silent)
      {
        var n := selected[i];
        assert n in ToSet(selected) && selected[..i + 1] == selected[..i] + [n];
        var unreachable: bool := *;
        if unreachable && faults.probe(|history|) {
          return None;
        }
        if !(machines[n].running && n !in silent && machines[n].runtime == id[n]) {
          converge := converge + [n];
        }
      }
      assert selected[..|selected|] == selected;
      return Some(converge);
    }

    method StartPhases(selected: seq<nat>, converge: seq<nat>, id: Assignment) returns (ok: bool)
      requires machines.Keys == id.Keys && InjectiveOn(id) && Distinct(converge)
      requires ToSet(converge) <= ToSet(selected) <= id.Keys
      requires forall n :: n in selected && n !in converge ==> Serves(machines[n], id[n])
      requires |history| > 0 && history[|history| - 1] == machines
      modifies this`machines, this`history
      ensures Extends(old(history), history) && |history| > 0 && history[|history| - 1] == machines
      ensures machines.Keys == old(machines).Keys
      ensures forall n :: n in machines && n !in converge ==> machines[n] == old(machines)[n]
      ensures OthersSince(history, |old(history)|, ToSet(converge), old(machines))
      ensures Safe(old(machines), id) && Clear(old(machines), ToSet(selected), id) ==>
                Safe(machines, id) && SafeSince(history, |old(history)|, id)
      ensures ok ==> forall n :: n in selected ==> n in machines && Serves(machines[n], id[n])
      ensures ok ==> forall n :: n in converge ==> n in machines && Ready(machines[n], id[n])
      ensures DataKept(old(machines), machines)
      ensures Calm(faults, |old(history)|) ==> ok
    {
      hide Safe, SafeSince, Clear, Effect, Between, Done, BetweenSince, Distinct, ReadyToStart, Extends, Serves;
      hide InjectiveOn, OthersSince, Ready, DataKept, Calm;
      ghost var before, past := machines, history;
      ghost var guard := Safe(machines, id) && Clear(machines, ToSet(selected), id);
      ghost var targets := ToSet(converge);
      OthersStart(past, before, targets);
      DataStart(before);
      ReadyServes(id);
      ghost var reached, now := history, machines;
      ok := SafePhase(StopUnit, converge, id, past, guard);
      OthersPhase(reached, history, |past|, StopUnit, targets, id, before, now);
      if !ok { return; }
      reached, now := history, machines;
      ghost var stopped := machines;
      if guard { StoppedServeNothing(targets, id, before, stopped); }
      ok := SafePhase(InstallIdentity, converge, id, past, guard);
      OthersPhase(reached, history, |past|, InstallIdentity, targets, id, before, now);
      if !ok { return; }
      reached, now := history, machines;
      if guard { ConvergeListReady(ToSet(selected), targets, id, before, stopped, machines); }
      ghost var keyed := machines;
      ok := SafePhase(InstallConfig, converge, id, past, guard);
      OthersPhase(reached, history, |past|, InstallConfig, targets, id, before, now);
      if !ok { return; }
      reached, now := history, machines;
      ConfigChangesNothing(targets, id, keyed, machines);
      ok := SafePhase(EnableAndStart, converge, id, past, guard);
      OthersPhase(reached, history, |past|, EnableAndStart, targets, id, before, now);
      if ok { StartServes(targets, id, before, stopped, keyed, machines); }
    }

    /** fleet stop: disable and stop the selected machines. */
    method Stop(selectors: seq<nat>) returns (ok: bool)
      requires Valid()
      modifies this`machines, this`history
      ensures Valid() && Extends(old(history), history)
      ensures Safe(old(machines), Id()) ==> Safe(machines, Id()) && SafeSince(history, |old(history)|, Id())
      ensures selectors != [] ==> forall n :: n in machines && n !in selectors ==> machines[n] == old(machines)[n]
      ensures ok ==> forall n :: n in machines && (selectors == [] || n in selectors) ==>
                       machines[n] == old(machines)[n].(running := false, enabled := false)
      ensures Calm(faults, |old(history)|) ==>
                (ok <==> machines.Keys != {} && old(Chosen(selectors)) <= machines.Keys)
    {
      hide IsValid, DistinctNodeIDs, L1Numbers, Assigned, KeysFresh, Safe;
      FleetFacts(inv, placement);
      var id := Assigned(inv, placement);
      SelectExact(L1Numbers(inv.nodes), selectors);
      var choice := SelectNodes(L1Numbers(inv.nodes), selectors);
      if choice.None? {
        return false;
      }
      ok := SafePhase(DisableAndStop, choice.value, id, history, Safe(machines, id));
      assert ToSet(choice.value) == if selectors == [] then machines.Keys else ToSet(selectors);
      assert forall n :: n in choice.value <==> n in ToSet(choice.value);
    }

    /** fleet destroy: kill every named machine, then delete chain data; naming none is refused. */
    method Destroy(selectors: seq<nat>) returns (ok: bool)
      requires Valid()
      modifies this`machines, this`history
      ensures Valid() && Extends(old(history), history)
      ensures Safe(old(machines), Id()) ==> Safe(machines, Id()) && SafeSince(history, |old(history)|, Id())
      ensures forall n :: n in machines && n !in selectors ==> machines[n] == old(machines)[n]
      ensures selectors == [] ==> !ok && machines == old(machines)
      ensures ok ==> forall n :: n in selectors ==> n in machines && !machines[n].running && !machines[n].data
      ensures ToSet(selectors) <= machines.Keys ==> GateSince(history, |old(history)|, old(machines), ToSet(selectors))
      ensures Calm(faults, |old(history)|) ==> (ok <==> selectors != [] && ToSet(selectors) <= machines.Keys)
    {
      hide IsValid, DistinctNodeIDs, L1Numbers, Assigned, KeysFresh, DataGate;
      if selectors == [] {
        return false;
      }
      FleetFacts(inv, placement);
      var id := Assigned(inv, placement);
      SelectExact(L1Numbers(inv.nodes), selectors);
      NoneListed(selectors);
      var choice := SelectNodes(L1Numbers(inv.nodes), selectors);
      if choice.None? {
        return false;
      }
      assert ToSet(choice.value) == ToSet(selectors);
      assert forall n :: n in choice.value <==> n in ToSet(choice.value);
      ok := DestroyPhases(choice.value, id);
    }

    method DestroyPhases(chosen: seq<nat>, id: Assignment) returns (ok: bool)
      requires Distinct(chosen) && ToSet(chosen) <= machines.Keys && ToSet(chosen) <= id.Keys
      requires |history| > 0 && history[|history| - 1] == machines
      modifies this`machines, this`history
      ensures Extends(old(history), history) && |history| > 0 && history[|history| - 1] == machines
      ensures machines.Keys == old(machines).Keys
      ensures Safe(old(machines), id) ==> Safe(machines, id) && SafeSince(history, |old(history)|, id)
      ensures forall n :: n in machines && n !in chosen ==> machines[n] == old(machines)[n]
      ensures ok ==> forall n :: n in chosen ==> !machines[n].running && !machines[n].data
      ensures GateSince(history, |old(history)|, old(machines), ToSet(chosen))
      ensures Calm(faults, |old(history)|) ==> ok
    {
      ghost var before, past, guard, targets := machines, history, Safe(machines, id), ToSet(chosen);
      hide Safe, SafeSince, BetweenSince, GateSince, Extends, Effect, Distinct, Calm, DataKept;
      ok := SafePhase(KillUnit, chosen, id, past, guard);
      GateKillSince(history, |past|, before, targets, id);
      if !ok {
        return;
      }
      ghost var middle, killed := history, machines;
      ok := SafePhase(RemoveData, chosen, id, past, guard);
      GateRemoveSince(middle, history, |past|, before, killed, targets, id);
      ChosenGone(targets, id, before, killed, machines, ok);
    }

    /** A whole-fleet deploy of the L1 machines, phase by phase. */
    method Deploy() returns (ok: bool)
      requires Valid()
      modifies this`machines, this`history
      ensures Valid() && Extends(old(history), history)
      ensures Safe(old(machines), Id()) ==> Safe(machines, Id()) && SafeSince(history, |old(history)|, Id())
      ensures ok ==> forall n :: n in machines ==>
                machines[n].running && machines[n].key == Some(machines[n].runtime) && machines[n].enabled
                && PlacedID(inv, placement, n, machines[n].runtime)
      ensures DataKept(old(machines), machines)
      ensures Calm(faults, |old(history)|) ==> ok
    {
      hide IsValid, DistinctNodeIDs, L1Numbers, Assigned, Safe, SafeSince, PlacedID;
      FleetFacts(inv, placement);
      AssignedPlaced(inv, placement);
      ok := DeployPhases(L1Numbers(inv.nodes), Assigned(inv, placement));
      ReadyMeans(Id());
    }

    method DeployPhases(l1: seq<nat>, id: Assignment) returns (ok: bool)
      requires Distinct(l1) && ToSet(l1) == machines.Keys == id.Keys && InjectiveOn(id)
      requires |history| > 0 && history[|history| - 1] == machines
      modifies this`machines, this`history
      ensures Extends(old(history), history) && |history| > 0 && history[|history| - 1] == machines
      ensures machines.Keys == old(machines).Keys
      ensures Safe(old(machines), id) ==> Safe(machines, id) && SafeSince(history, |old(history)|, id)
      ensures ok ==> forall n :: n in machines ==> Ready(machines[n], id[n])
      ensures DataKept(old(machines), machines)
      ensures Calm(faults, |old(history)|) ==> ok
    {
      hide Safe, SafeSince, Effect, Between, Done, BetweenSince, Distinct, InjectiveOn, ReadyToStart, Extends, Serves;
      hide Ready, DataKept, Calm;
      DataStart(machines);
      ghost var before, past, guard := machines, history, Safe(machines, id);
      ok := SafePhase(StopUnit, l1, id, past, guard);
      if !ok { return; }
      ghost var stopped := machines;
      ok := SafePhase(InstallPackage, l1, id, past, guard);
      if !ok { return; }
      PackageChangesNothing(id.Keys, id, stopped, machines);
      ok := SafePhase(InstallUnit, l1, id, past, guard);
      if !ok { return; }
      ghost var unit := machines;
      UnitsAreDown(id, before, stopped, unit);
      ok := SafePhase(InstallIdentity, l1, id, past, guard);
      if !ok { return; }
      DeployReady(id, before, stopped, unit, machines);
      ok := BringUp(l1, id, past, guard);
    }

    /** The last two phases of a deploy, on machines that are down with their keys installed. */
    method BringUp(l1: seq<nat>, id: Assignment, ghost past: seq<Machines>, ghost guard: bool) returns (ok: bool)
      requires Distinct(l1) && ToSet(l1) == machines.Keys == id.Keys && InjectiveOn(id)
      requires Extends(past, history) && |history| > 0 && history[|history| - 1] == machines
      requires guard ==> Safe(machines, id) && SafeSince(history, |past|, id)
      requires ReadyToStart(machines, id.Keys, id) && forall n :: n in machines ==> machines[n].enabled
      modifies this`machines, this`history
      ensures Extends(past, history)
      ensures |history| > 0 && history[|history| - 1] == machines
      ensures machines.Keys == old(machines).Keys
      ensures guard ==> Safe(machines, id) && SafeSince(history, |past|, id)
      ensures ok ==> forall n :: n in machines ==> Ready(machines[n], id[n])
      ensures forall d :: DataKept(d, old(machines)) ==> DataKept(d, machines)
      ensures Calm(faults, |past|) ==> ok
    {
      hide Safe, SafeSince, Effect, Between, Done, BetweenSince, Distinct, InjectiveOn, ReadyToStart, Extends;
      hide Ready, DataKept;
      hide Calm;
      ghost var keyed := machines;
      ok := SafePhase(StartUnit, l1, id, past, guard);
      if !ok { return; }
      ghost var up := machines;
      ok := SafePhase(AwaitReady, l1, id, past, guard);
      if ok { DeployServes(id, keyed, up, machines); }
    }

    /** Any sequence of commands, each failing wherever it may, with crashes and clear reloads in
        between: no two running machines ever serve the same identity. */
    method Run(commands: seq<Command>)
      requires Valid() && Safe(machines, Id())
      modifies this
      ensures Valid() && Safe(machines, Id())
      ensures Extends(old(history), history) && ExclusiveSince(history, |old(history)|)
    {
      hide IsValid, DistinctNodeIDs, L1Numbers, Assigned, Exclusive, KeysFresh, SafeSince, UndisturbedSince;
      hide Undisturbed, Converged, DataGate, GateSince;
      for i := 0 to |commands|
        invariant Valid() && Safe(machines, Id())
        invariant Extends(old(history), history) && ExclusiveSince(history, |old(history)|)
      {
        ghost var past := history;
        RunOne(commands[i]);
        ExtendsTransitive(old(history), past, history);
        assert forall k :: |old(history)| <= k < |past| ==> history[k] == past[k];
      }
    }

    method RunOne(command: Command)
      requires Valid() && Safe(machines, Id())
      modifies this
      ensures Valid() && Safe(machines, Id())
      ensures Extends(old(history), history) && ExclusiveSince(history, |old(history)|)
    {
      hide IsValid, DistinctNodeIDs, L1Numbers, Assigned, UndisturbedSince, Undisturbed, Converged, DataGate;
      hide GateSince, PlanPlace;
      match command {
        case PlaceCommand(letter, node) => var _ := Place(letter, node);
        case StartAllCommand =>
          var silent: set<nat> := *;
          var _ := Start([], silent);
        case StopCommand(selectors) => var _ := Stop(selectors);
        case DestroyCommand(selectors) => var _ := Destroy(selectors);
        case DeployCommand => var _ := Deploy();
        case CrashEvent(node) => Crash(node);
        case ReloadEvent(node) => Reload(node);
      }
    }

    /** A process dies and stays down. */
    method Crash(node: nat)
      requires Valid() && Safe(machines, Id())
      modifies this`machines, this`history
      ensures Valid() && Safe(machines, Id())
      ensures machines == if node in old(machines) then old(machines)[node := old(machines)[node].(running := false)]
                          else old(machines)
      ensures Extends(old(history), history) && ExclusiveSince(history, |old(history)|)
    {
      hide IsValid, DistinctNodeIDs, L1Numbers, Assigned;
      if node in machines {
        machines := machines[node := machines[node].(running := false)];
        history := history + [machines];
      }
    }

    /** A running process dies and systemd restarts it: it loads the key on disk. The event is
        confined to clear reloads, which are exactly the ones that keep exclusion. */
    method Reload(node: nat)
      requires Valid() && Safe(machines, Id())
      modifies this`machines, this`history
      ensures Valid() && Safe(machines, Id())
      ensures if node in old(machines) && old(machines)[node].running && ReloadClear(old(machines), node)
              then machines == old(machines)[node := Reloaded(old(machines)[node])] else machines == old(machines)
      ensures Extends(old(history), history) && ExclusiveSince(history, |old(history)|)
    {
      hide IsValid, DistinctNodeIDs, L1Numbers, Assigned, Safe, ReloadClear, Reloaded;
      if node in machines && machines[node].running && ReloadClear(machines, node) {
        ReloadKeepsSafe(machines, Id(), node);
        machines := machines[node := Reloaded(machines[node])];
        history := history + [machines];
        SafeExclusive(machines, Id());
      }
    }
  }
}
