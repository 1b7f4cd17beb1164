/** Machines, remote actions and what one action may leave behind (internal/fleet).
    Everything here is a value; the commands that drive it are in Fleet.dfy. */
module FleetModel {
  import opened Wrappers
  import opened Config
  import opened Placements

  /** One L1 machine. `runtime` is the NodeID its process loaded at start, `key` the NodeID of
      the staking key now on disk (None while a key install is half done), `enabled` systemd's
      boot intent, `data` whether its chain data is intact. */
  datatype Machine = Machine(running: bool, runtime: string, key: Option<string>, enabled: bool, data: bool)

  type Machines = map<nat, Machine>

  /** Node number to the NodeID the placement assigns. */
  type Assignment = map<nat, string>

  datatype Action =
    | StopUnit | DisableAndStop | KillUnit | RemoveData | InstallIdentity
    | InstallConfig | InstallPackage | InstallUnit | StartUnit | EnableAndStart | AwaitReady

  /** Starting loads the key on disk; an already running process keeps what it loaded, and a
      process with no key on disk does not come up. */
  function Started(m: Machine): Machine {
    if m.running || m.key.None? then m else m.(running := true, runtime := m.key.value)
  }

  /** What a machine may look like after an action over ssh. A failed action may have done
      nothing, all of its work, or any prefix of it; a kill's disable is best effort even when
      the command succeeds, because only the final inactivity test decides. */
  predicate Effect(action: Action, id: string, before: Machine, after: Machine, ok: bool) {
    match action
    case StopUnit => after == before.(running := false) || (!ok && after == before)
    case DisableAndStop =>
      after == before.(enabled := false, running := false)
      || (!ok && (after == before || after == before.(enabled := false)))
    case KillUnit =>
      after == before.(running := false) || after == before.(running := false, enabled := false)
      || (!ok && (after == before || after == before.(enabled := false)))
    case RemoveData => after == before.(data := false) || (!ok && after == before)
    case InstallIdentity =>
      after == before.(key := Some(id)) || (!ok && (after == before || after == before.(key := None)))
    case InstallUnit => after == before.(enabled := true) || (!ok && after == before)
    case StartUnit => after == Started(before) || (!ok && after == before)
    case EnableAndStart =>
      after == Started(before.(enabled := true))
      || (!ok && (after == before || after == before.(enabled := true)))
    case _ => after == before
  }

  /** The full effect of a successful action. */
  function Carried(action: Action, id: string, before: Machine): (after: Machine)
    ensures Effect(action, id, before, after, true)
  {
    match action
    case StopUnit => before.(running := false)
    case DisableAndStop => before.(enabled := false, running := false)
    case KillUnit => before.(running := false, enabled := false)
    case RemoveData => before.(data := false)
    case InstallIdentity => before.(key := Some(id))
    case InstallUnit => before.(enabled := true)
    case StartUnit => Started(before)
    case EnableAndStart => Started(before.(enabled := true))
    case _ => before
  }

  predicate Starts(action: Action) { action.StartUnit? || action.EnableAndStart? }

  /** `now` is a state some run of one phase over `targets` can pass through from `before`. */
  ghost predicate Between(action: Action, targets: set<nat>, id: Assignment, before: Machines, now: Machines)
    requires targets <= id.Keys
  {
    && now.Keys == before.Keys
    && (forall n :: n in before && n !in targets ==> now[n] == before[n])
    && (forall n :: n in before && n in targets ==>
          now[n] == before[n] || Effect(action, id[n], before[n], now[n], false)
          || Effect(action, id[n], before[n], now[n], true))
  }

  /** The phase finished: every target was acted on successfully. */
  ghost predicate Done(action: Action, targets: set<nat>, id: Assignment, before: Machines, now: Machines)
    requires targets <= id.Keys
  {
    Between(action, targets, id, before, now)
    && forall n :: n in before && n in targets ==> Effect(action, id[n], before[n], now[n], true)
  }

  predicate Serves(m: Machine, id: string) { m.running && m.runtime == id }

  /** Serving, with the key on disk and meant to be up. */
  predicate Ready(m: Machine, id: string) { Serves(m, id) && m.key == Some(id) && m.enabled }

  /** No two running machines serve the same NodeID. */
  ghost predicate Exclusive(ms: Machines) {
    forall a, b :: a in ms && b in ms && a != b && ms[a].running && ms[b].running ==>
      ms[a].runtime != ms[b].runtime
  }

  /** A machine serving its assigned identity holds that identity's key on disk, so a crash
      that makes systemd reload the key changes nothing. */
  ghost predicate KeysFresh(ms: Machines, id: Assignment) {
    forall n :: n in ms && n in id && Serves(ms[n], id[n]) ==> ms[n].key == Some(id[n])
  }

  ghost predicate Safe(ms: Machines, id: Assignment) {
    Exclusive(ms) && KeysFresh(ms, id)
  }

  ghost predicate InjectiveOn(id: Assignment) {
    forall a, b :: a in id && b in id && a != b ==> id[a] != id[b]
  }

  /** No running machine outside `chosen` serves an identity assigned inside it. */
  ghost predicate Clear(ms: Machines, chosen: set<nat>, id: Assignment)
    requires chosen <= id.Keys
  {
    forall n, t :: n in ms && n !in chosen && t in chosen && ms[n].running ==> ms[n].runtime != id[t]
  }

  /** The targets are down with their assigned key installed, and nobody else serves those keys. */
  ghost predicate ReadyToStart(ms: Machines, targets: set<nat>, id: Assignment)
    requires targets <= id.Keys
  {
    Clear(ms, targets, id)
    && forall n :: n in ms && n in targets ==> !ms[n].running && ms[n].key == Some(id[n])
  }

  /** A phase that starts nothing leaves every running process what it was. */
  lemma {:induction false} QuietPhase(action: Action, targets: set<nat>, id: Assignment, before: Machines,
                                      now: Machines)
    requires targets <= id.Keys && !Starts(action) && Between(action, targets, id, before, now)
    ensures forall n :: n in now && now[n].running ==> before[n].running && now[n].runtime == before[n].runtime
    ensures !action.InstallIdentity? ==> forall n :: n in now ==> now[n].key == before[n].key
  {
  }

  lemma {:induction false} QuietPhaseKeepsSafe(action: Action, targets: set<nat>, id: Assignment, before: Machines,
                                               now: Machines)
    requires targets <= id.Keys && !Starts(action) && Between(action, targets, id, before, now)
    requires Safe(before, id)
    requires action.InstallIdentity? ==> forall n :: n in before && n in targets ==> !Serves(before[n], id[n])
    ensures Safe(now, id)
  {
    QuietPhase(action, targets, id, before, now);
  }

  /** Every state of a start phase is safe once all its targets were stopped and re-keyed. */
  lemma {:induction false} StartPhaseKeepsSafe(action: Action, targets: set<nat>, id: Assignment, before: Machines,
                                               now: Machines)
    requires targets <= id.Keys && Starts(action) && Between(action, targets, id, before, now)
    requires Safe(before, id) && InjectiveOn(id) && ReadyToStart(before, targets, id)
    ensures Safe(now, id)
  {
    forall n | n in now && n in targets
      ensures now[n].running ==> now[n].runtime == id[n] && now[n].key == Some(id[n])
    {
    }
    assert Exclusive(now) by {
      forall a, b | a in now && b in now && a != b && now[a].running && now[b].running
        ensures now[a].runtime != now[b].runtime
      {
        if a in targets && b in targets {
          assert id[a] != id[b];
        }
      }
    }
  }

  /** Identities are pairwise distinct NodeIDs: Public.Validate rejects a duplicate. */
  ghost predicate DistinctNodeIDs(public: seq<PublicNode>) {
    forall s, t :: s in ByIdentity(public) && t in ByIdentity(public) && s != t ==>
      ByIdentity(public)[s].nodeID != ByIdentity(public)[t].nodeID
  }

  /** Every validator, RPC and archive machine in inventory order, never the P-chain machine. */
  function L1Numbers(nodes: seq<Node>): (r: seq<nat>)
    ensures forall n :: n in r ==> n in Numbers(nodes)
  {
    if nodes == [] then []
    else
      var last := nodes[|nodes| - 1];
      assert last.number in Numbers(nodes);
      assert Numbers(nodes[..|nodes| - 1]) <= Numbers(nodes);
      L1Numbers(nodes[..|nodes| - 1]) + (if last.role == PChain then [] else [last.number])
  }

  /** It lists every machine but the P-chain's, in inventory order: entry k is machine at[k]. */
  lemma {:induction false} L1NumbersExact(nodes: seq<Node>) returns (at: seq<nat>)
    ensures |at| == |L1Numbers(nodes)| && Ascending(at)
    ensures forall k :: 0 <= k < |at| ==> at[k] < |nodes| && nodes[at[k]].number == L1Numbers(nodes)[k]
    ensures forall i: nat :: i < |nodes| ==> (i in at <==> nodes[i].role != PChain)
  {
    at := [];
    if nodes != [] {
      L1NumbersStep(nodes);
      hide L1Numbers;
      at := L1NumbersExact(nodes[..|nodes| - 1]);
      if nodes[|nodes| - 1].role != PChain {
        AscendingOn(at, |nodes| - 1);
        at := at + [|nodes| - 1];
      }
    }
  }

  lemma {:induction false} L1NumbersStep(nodes: seq<Node>)
    requires nodes != []
    ensures var init, last := nodes[..|nodes| - 1], nodes[|nodes| - 1];
            L1Numbers(nodes) == L1Numbers(init) + if last.role == PChain then [] else [last.number]
  {
  }

  ghost predicate Ascending(at: seq<nat>) { forall i, j :: 0 <= i < j < |at| ==> at[i] < at[j] }

  lemma {:induction false} AscendingOn(at: seq<nat>, n: nat)
    requires Ascending(at) && forall k :: 0 <= k < |at| ==> at[k] < n
    ensures Ascending(at + [n])
    ensures forall i :: i in at + [n] <==> i in at || i == n
  {
  }

  function L1Set(nodes: seq<Node>): set<nat> {
    set n | n in L1Numbers(nodes)
  }

  /** The NodeID the placement assigns to each L1 machine. */
  function Assigned(inv: Inventory, p: Placement): Assignment {
    var records := ByIdentity(inv.public);
    map n | n in L1Set(inv.nodes) && n in p && p[n] in records :: records[p[n]].nodeID
  }

  lemma {:induction false} L1NumbersDistinct(nodes: seq<Node>)
    requires DistinctNumbers(nodes)
    ensures forall i, j :: 0 <= i < j < |L1Numbers(nodes)| ==> L1Numbers(nodes)[i] != L1Numbers(nodes)[j]
  {
    if nodes != [] {
      var init, last := nodes[..|nodes| - 1], nodes[|nodes| - 1];
      L1NumbersDistinct(init);
      assert last.number !in Numbers(init);
    }
  }

  /** A valid placement assigns every L1 machine its own NodeID. */
  lemma {:induction false} AssignedInjective(inv: Inventory, p: Placement)
    requires IsValid(p, inv.public, inv.nodes) && DistinctNodeIDs(inv.public)
    ensures Assigned(inv, p).Keys == L1Set(inv.nodes)
    ensures InjectiveOn(Assigned(inv, p))
  {
    ValidIsBijective(p, inv.public, inv.nodes);
    forall n | n in L1Set(inv.nodes) ensures n in p && p[n] in ByIdentity(inv.public) {
      var i := NodeIndex(inv.nodes, n);
      assert Fits(p[inv.nodes[i].number], ByIdentity(inv.public), inv.nodes[i]);
    }
  }

  /** nodeID is that of a manifest record whose letter is placed on machine n. */
  ghost predicate PlacedID(inv: Inventory, p: Placement, n: nat, nodeID: string) {
    n in p && exists r :: r in inv.public && r.identity == p[n] && r.nodeID == nodeID
  }

  /** Every L1 machine is assigned the NodeID of the record placed on it. */
  lemma {:induction false} AssignedPlaced(inv: Inventory, p: Placement)
    requires IsValid(p, inv.public, inv.nodes)
    ensures forall n :: n in Assigned(inv, p) ==> PlacedID(inv, p, n, Assigned(inv, p)[n])
  {
    ByIdentitySound(inv.public);
    forall n | n in Assigned(inv, p) ensures PlacedID(inv, p, n, Assigned(inv, p)[n]) {
      assert ByIdentity(inv.public)[p[n]] in inv.public;
    }
  }

  /** With distinct letters that record is the only one: machine n is assigned the NodeID of any
      record whose letter it holds. */
  lemma {:induction false} AssignedExact(inv: Inventory, p: Placement, i: nat, r: PublicNode)
    requires IsValid(p, inv.public, inv.nodes) && DistinctNodeIDs(inv.public) && DistinctLetters(inv.public)
    requires i < |inv.nodes| && inv.nodes[i].role != PChain
    requires r in inv.public && inv.nodes[i].number in p && r.identity == p[inv.nodes[i].number]
    ensures inv.nodes[i].number in Assigned(inv, p) && Assigned(inv, p)[inv.nodes[i].number] == r.nodeID
  {
    AssignedInjective(inv, p);
    ByIdentityAt(inv.public, r);
    L1Listed(inv.nodes, i);
  }

  lemma {:induction false} L1Listed(nodes: seq<Node>, i: nat)
    requires i < |nodes| && nodes[i].role != PChain
    ensures nodes[i].number in L1Numbers(nodes)
  {
    L1NumbersStep(nodes);
    hide L1Numbers;
    if i < |nodes| - 1 {
      assert nodes[..|nodes| - 1][i] == nodes[i];
      L1Listed(nodes[..|nodes| - 1], i);
    }
  }

  /** What reconcile observes of one machine; nodeID is None when the service is not active or
      reported none. */
  datatype Probe = Probe(active: bool, enabled: bool, nodeID: Option<string>)

  datatype PlanError = NotProbed(node: nat) | NoAssignment(node: nat) | NoRuntimeID(node: nat)

  /** The pure half of reconcile: which machines must be restarted. */
  function PlanApply(nodes: seq<nat>, id: Assignment, probes: map<nat, Probe>): (r: Result<seq<nat>, PlanError>)
  {
    if nodes == [] then Ok([])
    else
      var rest := PlanApply(nodes[..|nodes| - 1], id, probes);
      var n := nodes[|nodes| - 1];
      if rest.Err? then rest
      else if n !in probes then Err(NotProbed(n))
      else if n !in id then Err(NoAssignment(n))
      else if probes[n].active && probes[n].nodeID.None? then Err(NoRuntimeID(n))
      else if probes[n].active && probes[n].nodeID == Some(id[n]) then rest
      else if probes[n].active || probes[n].enabled then Ok(rest.value + [n])
      else rest
  }

  function ProbeOf(m: Machine): Probe {
    Probe(m.running, m.enabled, if m.running then Some(m.runtime) else None)
  }

  /** Not serving its identity, and not deliberately down. */
  predicate Wanting(m: Machine, id: string) {
    !Serves(m, id) && (m.running || m.enabled)
  }

  /** On truthful probes the plan lists exactly the machines that are up with the wrong identity
      or enabled but down, each once, and it cannot fail. */
  lemma {:induction false} PlanApplyExact(nodes: seq<nat>, id: Assignment, ms: Machines, probes: map<nat, Probe>)
    requires forall n :: n in nodes ==> n in ms && n in id && n in probes && probes[n] == ProbeOf(ms[n])
    requires forall i, j :: 0 <= i < j < |nodes| ==> nodes[i] != nodes[j]
    ensures PlanApply(nodes, id, probes).Ok?
    ensures forall n :: n in PlanApply(nodes, id, probes).value <==> n in nodes && Wanting(ms[n], id[n])
    ensures var r := PlanApply(nodes, id, probes).value;
            forall i, j :: 0 <= i < j < |r| ==> r[i] != r[j]
  {
    if nodes != [] {
      var init, last := nodes[..|nodes| - 1], nodes[|nodes| - 1];
      PlanApplyExact(init, id, ms, probes);
      assert nodes == init + [last];
      assert last !in init;
    }
  }

  /** Whatever the probes say, planning fails exactly on a machine that was not probed, has no
      assignment, or is active without a runtime NodeID. */
  lemma {:induction false} PlanApplyFails(nodes: seq<nat>, id: Assignment, probes: map<nat, Probe>)
    ensures PlanApply(nodes, id, probes).Err? <==>
            exists n :: n in nodes && (n !in probes || n !in id || (probes[n].active && probes[n].nodeID.None?))
  {
    if nodes != [] {
      var init, last := nodes[..|nodes| - 1], nodes[|nodes| - 1];
      PlanApplyFails(init, id, probes);
      assert nodes == init + [last];
    }
  }

  /** Chain data is as it was. */
  ghost predicate DataKept(before: Machines, now: Machines) {
    now.Keys == before.Keys && forall n :: n in before ==> now[n].data == before[n].data
  }

  lemma {:induction false} DataPhase(action: Action, targets: set<nat>, id: Assignment, before: Machines, now: Machines)
    requires targets <= id.Keys && Between(action, targets, id, before, now) && !action.RemoveData?
    ensures DataKept(before, now)
  {
  }

  /** Every machine that is up or meant to be up serves its assigned identity. */
  ghost predicate Converged(ms: Machines, id: Assignment) {
    forall n :: n in ms && n in id ==> !Wanting(ms[n], id[n])
  }

  /** What a reconcile may never disturb: machines already right, machines deliberately down,
      anyone's boot intent and chain data. */
  ghost predicate Undisturbed(before: Machines, now: Machines, id: Assignment) {
    && now.Keys == before.Keys
    && (forall n :: n in before && n in id && !Wanting(before[n], id[n]) ==> now[n] == before[n])
    && (forall n :: n in before ==> now[n].enabled == before[n].enabled && now[n].data == before[n].data)
  }

  lemma {:induction false} UndisturbedPhase(action: Action, targets: set<nat>, id: Assignment, before: Machines,
                                            mid: Machines, now: Machines)
    requires targets <= id.Keys && Undisturbed(before, mid, id) && Between(action, targets, id, mid, now)
    requires action in {InstallConfig, InstallIdentity, StopUnit, StartUnit}
    requires !action.InstallConfig? ==> forall n :: n in before && n in targets ==> Wanting(before[n], id[n])
    ensures Undisturbed(before, now, id)
  {
  }

  /** Once every machine the plan names is re-keyed and stopped, they are ready to start: whoever
      still runs serves its own identity, which no target is assigned. */
  lemma {:induction false} PlanReady(targets: set<nat>, id: Assignment, before: Machines, keyed: Machines,
                                     stopped: Machines)
    requires InjectiveOn(id) && before.Keys == id.Keys && targets <= id.Keys
    requires forall n :: n in targets <==> n in before && Wanting(before[n], id[n])
    requires Done(InstallIdentity, targets, id, before, keyed) && Done(StopUnit, targets, id, keyed, stopped)
    ensures ReadyToStart(stopped, targets, id)
  {
    forall n | n in stopped && n in targets ensures !stopped[n].running && stopped[n].key == Some(id[n]) {
      assert Effect(InstallIdentity, id[n], before[n], keyed[n], true) &&
               Effect(StopUnit, id[n], keyed[n], stopped[n], true);
    }
    hide Effect;
    forall n, t | n in stopped && n !in targets && t in targets && stopped[n].running
      ensures stopped[n].runtime != id[t]
    {
      assert stopped[n] == before[n] && Serves(before[n], id[n]);
    }
  }

  lemma {:induction false} PlanConverges(targets: set<nat>, id: Assignment, before: Machines, stopped: Machines,
                                         now: Machines)
    requires before.Keys == id.Keys && targets <= id.Keys && ReadyToStart(stopped, targets, id)
    requires forall n :: n in targets <==> n in before && Wanting(before[n], id[n])
    requires forall n :: n in before && n !in targets ==> n in stopped && stopped[n] == before[n]
    requires stopped.Keys == before.Keys && Done(StartUnit, targets, id, stopped, now)
    ensures Converged(now, id)
  {
    forall n | n in now && n in id ensures !Wanting(now[n], id[n]) {
      if n in targets {
        assert Serves(now[n], id[n]);
      }
    }
  }

  /** When the fleet has converged, a new placement may be written without endangering it: every
      running machine holds the key of what it runs, whatever it is assigned next. */
  lemma {:induction false} NewPlacementKeepsSafe(ms: Machines, id: Assignment, next: Assignment)
    requires ms.Keys == id.Keys && Converged(ms, id) && Safe(ms, id)
    ensures Safe(ms, next)
  {
    forall n | n in ms && n in next && Serves(ms[n], next[n]) ensures ms[n].key == Some(next[n]) {
      assert Serves(ms[n], id[n]);
    }
  }

  /** systemd restarting a crashed process: it loads the key on disk. */
  function Reloaded(m: Machine): Machine {
    if m.running && m.key.Some? then m.(runtime := m.key.value) else m.(running := false)
  }

  /** No other running machine serves the key that machine n has on disk. */
  predicate ReloadClear(ms: Machines, n: nat)
    requires n in ms
  {
    forall b :: b in ms && b != n && ms[b].running ==> ms[n].key != Some(ms[b].runtime)
  }

  /** A crash and reload keeps exclusion if and only if it is clear. */
  lemma {:induction false} ReloadExact(ms: Machines, n: nat)
    requires n in ms && ms[n].running && Exclusive(ms)
    ensures Exclusive(ms[n := Reloaded(ms[n])]) <==> ReloadClear(ms, n)
  {
    var now := ms[n := Reloaded(ms[n])];
    if Exclusive(now) && ms[n].key.Some? {
      forall b | b in ms && b != n && ms[b].running ensures ms[n].key != Some(ms[b].runtime) {
        assert now[b] == ms[b] && now[n] == Reloaded(ms[n]);
        assert now[b].runtime != now[n].runtime;
      }
    }
  }

  lemma {:induction false} ReloadKeepsSafe(ms: Machines, id: Assignment, n: nat)
    requires n in ms && ms[n].running && Safe(ms, id) && ReloadClear(ms, n)
    ensures Safe(ms[n := Reloaded(ms[n])], id)
  {
    ReloadExact(ms, n);
  }

  /** The reload of a machine serving its assigned identity is clear, and changes nothing; so on a
      converged fleet every reload is. */
  lemma {:induction false} ReloadHarmless(ms: Machines, id: Assignment, n: nat)
    requires n in ms && n in id && Serves(ms[n], id[n]) && Safe(ms, id)
    ensures Reloaded(ms[n]) == ms[n] && ReloadClear(ms, n)
  {
  }

  /** An identity phase that stops after its first machine leaves a safe fleet on which one reload
      is not clear: node 1 still runs "b" but now holds the key of "a", which node 2 serves. */
  lemma {:induction false} InterruptedIdentityCanCollide() returns (id: Assignment, before: Machines, now: Machines)
    ensures InjectiveOn(id) && id.Keys == before.Keys == {1, 2} && Safe(before, id)
    ensures Between(InstallIdentity, {1, 2}, id, before, now) && Safe(now, id)
    ensures now[1].running && !ReloadClear(now, 1) && !Exclusive(now[1 := Reloaded(now[1])])
  {
    id := map[1 := "a", 2 := "b"];
    before := map[1 := Machine(true, "b", Some("b"), true, true), 2 := Machine(true, "a", Some("a"), true, true)];
    now := before[1 := before[1].(key := Some("a"))];
    assert Effect(InstallIdentity, id[1], before[1], now[1], true);
    var after := now[1 := Reloaded(now[1])];
    assert after[1].running && after[2].running && after[1].runtime == after[2].runtime;
  }

  /** Serving the assigned identity outside the converge list and being clear of the chosen set
      leaves nobody in the converge list's way. */
  lemma {:induction false} ConvergeListReady(chosen: set<nat>, converge: set<nat>, id: Assignment, before: Machines,
                                             stopped: Machines, keyed: Machines)
    requires InjectiveOn(id) && before.Keys == id.Keys && converge <= chosen <= id.Keys
    requires Clear(before, chosen, id)
    requires forall n :: n in chosen && n !in converge && n in before ==> Serves(before[n], id[n])
    requires Done(StopUnit, converge, id, before, stopped) && Done(InstallIdentity, converge, id, stopped, keyed)
    ensures ReadyToStart(keyed, converge, id)
  {
    forall n, t | n in keyed && n !in converge && t in converge && keyed[n].running
      ensures keyed[n].runtime != id[t]
    {
      assert keyed[n] == before[n];
    }
  }

  /** After a start of `chosen` succeeded, the fleet is exclusive if and only if it was clear
      of `chosen` to begin with. */
  lemma {:induction false} StartExclusiveIffClear(chosen: set<nat>, id: Assignment, before: Machines, now: Machines)
    requires before.Keys == now.Keys == id.Keys && chosen <= id.Keys && InjectiveOn(id) && Exclusive(before)
    requires forall n :: n in now && n !in chosen ==> now[n] == before[n]
    requires forall n :: n in chosen ==> Serves(now[n], id[n])
    ensures Exclusive(now) <==> Clear(before, chosen, id)
  {
    if Exclusive(now) {
      forall n, t | n in before && n !in chosen && t in chosen && before[n].running
        ensures before[n].runtime != id[t]
      {
        assert now[n] == before[n] && Serves(now[t], id[t]);
      }
    }
    if Clear(before, chosen, id) {
      forall a, b | a in now && b in now && a != b && now[a].running && now[b].running
        ensures now[a].runtime != now[b].runtime
      {
        if a in chosen && b in chosen {
          assert id[a] != id[b];
        }
      }
    }
  }

  lemma {:induction false} UndisturbedTransitive(a: Machines, b: Machines, c: Machines, id: Assignment)
    requires Undisturbed(a, b, id) && Undisturbed(b, c, id)
    ensures Undisturbed(a, c, id)
  {
  }

  /** Stop, re-key and start in that order make every target serve its assigned identity. */
  lemma {:induction false} StartServes(targets: set<nat>, id: Assignment, before: Machines, stopped: Machines,
                                       keyed: Machines, now: Machines)
    requires targets <= id.Keys && targets <= before.Keys
    requires Done(StopUnit, targets, id, before, stopped) && Done(InstallIdentity, targets, id, stopped, keyed)
    requires Done(EnableAndStart, targets, id, keyed, now)
    ensures forall n :: n in targets ==> n in now && Ready(now[n], id[n])
  {
    forall n | n in targets ensures n in now && Ready(now[n], id[n]) {
      assert !keyed[n].running && keyed[n].key == Some(id[n]);
    }
  }

  lemma {:induction false} StoppedServeNothing(targets: set<nat>, id: Assignment, before: Machines, stopped: Machines)
    requires targets <= id.Keys && Done(StopUnit, targets, id, before, stopped)
    ensures forall n :: n in stopped && n in targets ==> !stopped[n].running
    ensures forall n :: n in stopped && n in targets ==> !Serves(stopped[n], id[n])
  {
  }

  lemma {:induction false} PackageChangesNothing(targets: set<nat>, id: Assignment, before: Machines, now: Machines)
    requires targets <= id.Keys && Between(InstallPackage, targets, id, before, now)
    ensures now == before
  {
  }

  lemma {:induction false} UnitsAreDown(id: Assignment, before: Machines, stopped: Machines, unit: Machines)
    requires Done(StopUnit, id.Keys, id, before, stopped) && Between(InstallUnit, id.Keys, id, stopped, unit)
    requires before.Keys == id.Keys
    ensures forall n :: n in unit ==> !unit[n].running
    ensures forall n :: n in unit && n in id ==> !Serves(unit[n], id[n])
  {
    QuietPhase(InstallUnit, id.Keys, id, stopped, unit);
  }

  /** One machine that is down with its key installed, through start and readiness. */
  lemma {:induction false} DeployOne(id: string, keyed: Machine, up: Machine, now: Machine)
    requires !keyed.running && keyed.key == Some(id) && keyed.enabled
    requires Effect(StartUnit, id, keyed, up, true) && Effect(AwaitReady, id, up, now, true)
    ensures Ready(now, id)
  {
  }

  lemma {:induction false} DeployServes(id: Assignment, keyed: Machines, up: Machines, now: Machines)
    requires keyed.Keys == id.Keys && ReadyToStart(keyed, id.Keys, id) && forall n :: n in keyed ==> keyed[n].enabled
    requires Done(StartUnit, id.Keys, id, keyed, up) && Done(AwaitReady, id.Keys, id, up, now)
    ensures forall n :: n in now ==> Ready(now[n], id[n])
  {
    hide Effect;
    forall n | n in now ensures Ready(now[n], id[n]) {
      DeployOne(id[n], keyed[n], up[n], now[n]);
    }
  }

  lemma {:induction false} ConfigChangesNothing(targets: set<nat>, id: Assignment, before: Machines, now: Machines)
    requires targets <= id.Keys && Between(InstallConfig, targets, id, before, now)
    ensures now == before
  {
  }

  /** Chain data is gone from some chosen machine only while every chosen machine is down. */
  ghost predicate DataGate(before: Machines, now: Machines, chosen: set<nat>)
    requires chosen <= before.Keys && chosen <= now.Keys
  {
    forall a, b :: a in chosen && b in chosen && now[a].data != before[a].data ==> !now[b].running
  }

  /** A whole-fleet deploy stops everything before it re-keys and starts anything. */
  lemma {:induction false} DeployReady(id: Assignment, before: Machines, stopped: Machines, unit: Machines,
                                       keyed: Machines)
    requires before.Keys == id.Keys
    requires Done(StopUnit, id.Keys, id, before, stopped) && Done(InstallUnit, id.Keys, id, stopped, unit)
    requires Done(InstallIdentity, id.Keys, id, unit, keyed)
    ensures ReadyToStart(keyed, id.Keys, id) && forall n :: n in keyed ==> keyed[n].enabled
  {
    hide Effect;
    forall n | n in id ensures !keyed[n].running && keyed[n].key == Some(id[n]) && keyed[n].enabled {
      StoppedAndKeyed(id[n], before[n], stopped[n], unit[n], keyed[n]);
    }
  }

  lemma {:induction false} StoppedAndKeyed(id: string, before: Machine, stopped: Machine, unit: Machine, keyed: Machine)
    requires Effect(StopUnit, id, before, stopped, true) && Effect(InstallUnit, id, stopped, unit, true)
    requires Effect(InstallIdentity, id, unit, keyed, true)
    ensures !keyed.running && keyed.key == Some(id) && keyed.enabled
  {
  }

  lemma {:induction false} GateWhileKilling(chosen: set<nat>, id: Assignment, before: Machines, now: Machines)
    requires chosen <= id.Keys && chosen <= before.Keys && Between(KillUnit, chosen, id, before, now)
    ensures DataGate(before, now, chosen)
  {
  }

  lemma {:induction false} GateWhileRemoving(chosen: set<nat>, id: Assignment, before: Machines, killed: Machines,
                                             now: Machines)
    requires chosen <= id.Keys && chosen <= before.Keys && Done(KillUnit, chosen, id, before, killed)
    requires Between(RemoveData, chosen, id, killed, now)
    ensures DataGate(before, now, chosen)
  {
    QuietPhase(RemoveData, chosen, id, killed, now);
  }

  /** A partial start does break exclusion when it is not clear of its selection: node 2, not
      selected, still serves "y" when node 1 is started with it. */
  lemma {:induction false} PartialStartCanCollide() returns (id: Assignment, before: Machines, stopped: Machines,
                                                  keyed: Machines, now: Machines)
    ensures InjectiveOn(id) && id.Keys == before.Keys == {1, 2} && Exclusive(before)
    ensures Done(StopUnit, {1}, id, before, stopped) && Done(InstallIdentity, {1}, id, stopped, keyed)
    ensures Done(EnableAndStart, {1}, id, keyed, now) && !Exclusive(now)
  {
    id := map[1 := "y", 2 := "x"];
    var two := Machine(true, "y", Some("y"), true, true);
    before := map[1 := Machine(false, "", None, true, true), 2 := two];
    stopped := before;
    keyed := before[1 := Machine(false, "", Some("y"), true, true)];
    now := before[1 := Machine(true, "y", Some("y"), true, true)];
    assert 1 in now && 2 in now && now[1].runtime == now[2].runtime;
  }

  /** Convergence needs the boot intent: a machine that runs the wrong identity while disabled,
      once stopped by an interrupted reconcile, counts as deliberately down ever after. */
  lemma {:induction false} DisabledMachineStranded(before: Machine, id: string)
    requires before.running && before.runtime != id && !before.enabled
    ensures Wanting(before, id)
    ensures forall keyed, stopped ::
              (Effect(InstallIdentity, id, before, keyed, true) && Effect(StopUnit, id, keyed, stopped, true)) ==>
                (!Wanting(stopped, id) && !stopped.running)
  {
  }
}
