/** The append-only upgrade history of one chain and its distribution
    (internal/fleet/upgrade.go). */
module Upgrade {
  import opened Wrappers

  datatype Account = Account(code: string, storage: map<string, string>)
  datatype StateUpgrade = StateUpgrade(timestamp: int, accounts: map<string, Account>)

  /** An upgrade file; precompile entries pass through as raw text. */
  datatype Upgrades = Upgrades(states: seq<StateUpgrade>, precompiles: seq<string>)

  // ------------------------------------------------------------------------------------------
  // Explicit zeros

  function Lower(c: char): char { if 'A' <= c <= 'Z' then (c as int + 32) as char else c }

  function LowerAll(s: string): (r: string)
    ensures |r| == |s|
  {
    seq(|s|, i requires 0 <= i < |s| => Lower(s[i]))
  }

  function Digits(value: string): string {
    var s := LowerAll(value);
    if |s| >= 2 && s[..2] == "0x" then s[2..] else s
  }

  predicate ZeroSlot(value: string) {
    var d := Digits(value);
    forall i :: 0 <= i < |d| ==> d[i] == '0'
  }

  predicate IsHex(s: string) { forall i :: 0 <= i < |s| ==> '0' <= s[i] <= '9' || 'a' <= s[i] <= 'f' }

  /** The number a string of lowercase hexadecimal digits denotes. */
  function HexValue(s: string): nat
    requires IsHex(s)
  {
    if s == "" then 0
    else
      var c := s[|s| - 1];
      16 * HexValue(s[..|s| - 1]) + (if c <= '9' then c as nat - '0' as nat else c as nat - 'a' as nat + 10)
  }

  lemma {:induction false} HexZero(s: string)
    requires IsHex(s)
    ensures HexValue(s) == 0 <==> forall i :: 0 <= i < |s| ==> s[i] == '0'
  {
    if s != "" {
      HexZero(s[..|s| - 1]);
      assert s == s[..|s| - 1] + [s[|s| - 1]];
    }
  }

  /** The textual test finds exactly the values that denote zero. */
  lemma {:induction false} ZeroSlotExact(value: string)
    requires IsHex(Digits(value))
    ensures ZeroSlot(value) <==> HexValue(Digits(value)) == 0
  {
    HexZero(Digits(value));
  }

  // ------------------------------------------------------------------------------------------
  // Validation

  /** An account that sets something, and nothing to an explicit zero. */
  predicate CleanAccount(a: Account) {
    && a.code != "0x" && (a.code == "" ==> a.storage != map[])
    && forall slot :: slot in a.storage ==> !ZeroSlot(a.storage[slot])
  }

  predicate Clean(u: StateUpgrade) {
    u.accounts != map[] && forall address :: address in u.accounts ==> CleanAccount(u.accounts[address])
  }

  ghost predicate Acceptable(f: Upgrades, now: int) {
    && (f.states != [] || f.precompiles != [])
    && forall i :: 0 <= i < |f.states| ==> f.states[i].timestamp > now && Clean(f.states[i])
  }

  datatype UpgradeError =
    | Empty | NotInFuture(index: nat) | Unclean(index: nat) | NotAfter(timestamp: int, recorded: int)

  method CheckAccount(a: Account) returns (ok: bool)
    ensures ok <==> CleanAccount(a)
  {
    hide ZeroSlot;
    if (a.code == "" || a.code == "0x") && |a.storage| == 0 { return false; }
    if a.code == "0x" { return false; }
    var slots := a.storage.Keys;
    while slots != {}
      invariant slots <= a.storage.Keys
      invariant forall s :: s in a.storage && s !in slots ==> !ZeroSlot(a.storage[s])
    {
      var s :| s in slots;
      if ZeroSlot(a.storage[s]) { return false; }
      slots := slots - {s};
    }
    return true;
  }

  method CheckStateUpgrade(u: StateUpgrade) returns (ok: bool)
    ensures ok <==> Clean(u)
  {
    hide CleanAccount;
    if |u.accounts| == 0 { return false; }
    var addresses := u.accounts.Keys;
    while addresses != {}
      invariant addresses <= u.accounts.Keys
      invariant forall a :: a in u.accounts && a !in addresses ==> CleanAccount(u.accounts[a])
    {
      var a :| a in addresses;
      var ok' := CheckAccount(u.accounts[a]);
      if !ok' { return false; }
      addresses := addresses - {a};
    }
    return true;
  }

  /** validateUpgradeContents accepts exactly the fragments that activate in the future and set no
      explicit zero. */
  method ValidateContents(f: Upgrades, now: int) returns (r: Option<UpgradeError>)
    ensures r.None? <==> Acceptable(f, now)
  {
    hide Clean;
    if |f.states| == 0 && |f.precompiles| == 0 { return Some(Empty); }
    for i := 0 to |f.states|
      invariant forall j :: 0 <= j < i ==> f.states[j].timestamp > now && Clean(f.states[j])
    {
      if f.states[i].timestamp <= now { return Some(NotInFuture(i)); }
      var ok := CheckStateUpgrade(f.states[i]);
      if !ok { return Some(Unclean(i)); }
    }
    return None;
  }

  // ------------------------------------------------------------------------------------------
  // Merging

  ghost predicate AllAfter(old_: seq<StateUpgrade>, new_: seq<StateUpgrade>) {
    forall i, j :: 0 <= i < |old_| && 0 <= j < |new_| ==> old_[i].timestamp < new_[j].timestamp
  }

  function Append(existing: Option<Upgrades>, f: Upgrades): Upgrades {
    match existing
    case None => f
    case Some(h) => Upgrades(h.states + f.states, h.precompiles + f.precompiles)
  }

  ghost predicate Mergeable(existing: Option<Upgrades>, f: Upgrades, now: int) {
    Acceptable(f, now) && (existing.Some? ==> AllAfter(existing.value.states, f.states))
  }

  /** mergeUpgrades. */
  method Merge(existing: Option<Upgrades>, f: Upgrades, now: int) returns (r: Result<Upgrades, UpgradeError>)
    ensures r.Ok? <==> Mergeable(existing, f, now)
    ensures r.Ok? ==> r.value == Append(existing, f)
    ensures r.Ok? && existing.None? ==> r.value == f
    ensures r.Ok? && existing.Some? ==>
              r.value.states == existing.value.states + f.states
              && r.value.precompiles == existing.value.precompiles + f.precompiles
  {
    hide Acceptable;
    var invalid := ValidateContents(f, now);
    if invalid.Some? { return Err(invalid.value); }
    if existing.Some? {
      var h := existing.value;
      for i := 0 to |h.states|
        invariant AllAfter(h.states[..i], f.states)
      {
        for j := 0 to |f.states|
          invariant forall k :: 0 <= k < j ==> h.states[i].timestamp < f.states[k].timestamp
        {
          if f.states[j].timestamp <= h.states[i].timestamp {
            return Err(NotAfter(f.states[j].timestamp, h.states[i].timestamp));
          }
        }
      }
      assert h.states[..|h.states|] == h.states;
    }
    return Ok(Append(existing, f));
  }

  /** The history the accepted fragments make, oldest first. */
  function History(fragments: seq<Upgrades>): (h: Option<Upgrades>)
    ensures h.Some? <==> fragments != []
  {
    if fragments == [] then None
    else Some(Append(History(fragments[..|fragments| - 1]), fragments[|fragments| - 1]))
  }

  /** Every fragment was mergeable, at some time, into the history before it. */
  ghost predicate AcceptedRun(fragments: seq<Upgrades>) {
    fragments == [] ||
    (AcceptedRun(fragments[..|fragments| - 1])
     && OnceMergeable(History(fragments[..|fragments| - 1]), fragments[|fragments| - 1]))
  }

  ghost predicate OnceMergeable(existing: Option<Upgrades>, f: Upgrades) {
    exists now: int :: Mergeable(existing, f, now)
  }

  function StatesOf(h: Option<Upgrades>): seq<StateUpgrade> { if h.Some? then h.value.states else [] }
  function PrecompilesOf(h: Option<Upgrades>): seq<string> { if h.Some? then h.value.precompiles else [] }

  ghost function AllStates(fragments: seq<Upgrades>): seq<StateUpgrade> {
    if fragments == [] then [] else AllStates(fragments[..|fragments| - 1]) + fragments[|fragments| - 1].states
  }

  ghost function AllPrecompiles(fragments: seq<Upgrades>): seq<string> {
    if fragments == [] then []
    else AllPrecompiles(fragments[..|fragments| - 1]) + fragments[|fragments| - 1].precompiles
  }

  /** Nothing is lost, changed or reordered: each list of the history is the accepted fragments' lists,
      one after another. */
  lemma {:induction false} HistoryWhole(fragments: seq<Upgrades>)
    ensures StatesOf(History(fragments)) == AllStates(fragments)
    ensures PrecompilesOf(History(fragments)) == AllPrecompiles(fragments)
  {
    if fragments != [] { HistoryWhole(fragments[..|fragments| - 1]); }
  }

  /** An upgrade file whose two lists end with a fragment's own entries. */
  ghost predicate EndsWith(h: Upgrades, f: Upgrades) {
    && |f.states| <= |h.states| && h.states[|h.states| - |f.states|..] == f.states
    && |f.precompiles| <= |h.precompiles| && h.precompiles[|h.precompiles| - |f.precompiles|..] == f.precompiles
  }

  ghost predicate Extends(h: Option<Upgrades>, g: Option<Upgrades>) {
    && StatesOf(h) <= StatesOf(g)
    && PrecompilesOf(h) <= PrecompilesOf(g)
  }

  /** Append-only: every earlier history is a prefix of every later one. */
  lemma {:induction false} HistoryGrows(fragments: seq<Upgrades>, n: nat)
    requires n <= |fragments|
    ensures Extends(History(fragments[..n]), History(fragments))
  {
    if n == |fragments| {
      assert fragments[..n] == fragments;
    } else {
      var prior := fragments[..|fragments| - 1];
      HistoryGrows(prior, n);
      assert prior[..n] == fragments[..n];
    }
  }

  ghost predicate FragmentsInOrder(fragments: seq<Upgrades>) {
    forall i, j :: 0 <= i < j < |fragments| ==> AllAfter(fragments[i].states, fragments[j].states)
  }

  lemma {:induction false} InHistory(fragments: seq<Upgrades>, i: nat, k: nat)
    requires i < |fragments| && k < |fragments[i].states|
    ensures fragments[i].states[k] in StatesOf(History(fragments))
  {
    if i < |fragments| - 1 { InHistory(fragments[..|fragments| - 1], i, k); }
  }

  /** A later fragment's state upgrades activate strictly after all earlier ones. */
  lemma {:induction false} RunInOrder(fragments: seq<Upgrades>)
    requires AcceptedRun(fragments)
    ensures FragmentsInOrder(fragments)
  {
    if fragments != [] {
      var prior, last := fragments[..|fragments| - 1], fragments[|fragments| - 1];
      RunInOrder(prior);
      forall i, j | 0 <= i < j < |fragments| ensures AllAfter(fragments[i].states, fragments[j].states) {
        if j < |fragments| - 1 {
          assert prior[i] == fragments[i] && prior[j] == fragments[j];
        } else {
          var now: int :| Mergeable(History(prior), last, now);
          forall k, m | 0 <= k < |fragments[i].states| && 0 <= m < |last.states|
            ensures fragments[i].states[k].timestamp < last.states[m].timestamp
          {
            InHistory(prior, i, k);
          }
        }
      }
    }
  }

  ghost predicate Sorted(s: seq<StateUpgrade>) {
    forall i, j :: 0 <= i < j < |s| ==> s[i].timestamp <= s[j].timestamp
  }

  /** So the history is sorted exactly when each fragment is. */
  lemma {:induction false} HistorySortedExact(fragments: seq<Upgrades>)
    requires AcceptedRun(fragments)
    ensures Sorted(StatesOf(History(fragments))) <==> forall i :: 0 <= i < |fragments| ==> Sorted(fragments[i].states)
  {
    if fragments != [] {
      var prior, last := fragments[..|fragments| - 1], fragments[|fragments| - 1];
      HistorySortedExact(prior);
      var h := StatesOf(History(prior));
      var now: int :| Mergeable(History(prior), last, now);
      JoinSorted(h, last.states);
      hide Sorted, AllAfter;
      hide Mergeable, AcceptedRun;
      assert forall i :: 0 <= i < |prior| ==> prior[i] == fragments[i];
    }
  }

  lemma {:induction false} JoinSorted(a: seq<StateUpgrade>, b: seq<StateUpgrade>)
    requires AllAfter(a, b)
    ensures Sorted(a + b) <==> Sorted(a) && Sorted(b)
  {
    var s := a + b;
    if Sorted(s) {
      forall i, j | 0 <= i < j < |b| ensures b[i].timestamp <= b[j].timestamp {
        assert s[|a| + i] == b[i] && s[|a| + j] == b[j];
      }
      forall i, j | 0 <= i < j < |a| ensures a[i].timestamp <= a[j].timestamp {
        assert s[i] == a[i] && s[j] == a[j];
      }
    }
  }

  /** No explicit zero ever enters the history. */
  lemma {:induction false} HistoryClean(fragments: seq<Upgrades>)
    requires AcceptedRun(fragments)
    ensures forall u :: u in StatesOf(History(fragments)) ==> Clean(u)
  {
    hide Clean;
    if fragments != [] {
      HistoryClean(fragments[..|fragments| - 1]);
    }
  }

  /** What clean means to a node: some account, each with code or storage, no empty code, and no slot
      whose value is the number zero. */
  lemma {:induction false} CleanMeans(u: StateUpgrade, address: string, slot: string)
    requires Clean(u)
    ensures u.accounts != map[]
    ensures address in u.accounts ==>
              u.accounts[address].code != "0x"
              && (u.accounts[address].code != "" || u.accounts[address].storage != map[])
    ensures address in u.accounts && slot in u.accounts[address].storage
            && IsHex(Digits(u.accounts[address].storage[slot])) ==>
              HexValue(Digits(u.accounts[address].storage[slot])) != 0
  {
    assert address in u.accounts ==> CleanAccount(u.accounts[address]);
    if address in u.accounts && slot in u.accounts[address].storage
       && IsHex(Digits(u.accounts[address].storage[slot]))
    {
      ZeroSlotExact(u.accounts[address].storage[slot]);
    }
  }

  /** Offering a recorded fragment again is refused exactly when it carries a state upgrade; one
      of precompile upgrades alone is appended a second time. */
  lemma {:induction false} RerunExact(existing: Option<Upgrades>, f: Upgrades, now: int, later: int)
    requires Mergeable(existing, f, now) && Acceptable(f, later)
    ensures Mergeable(Some(Append(existing, f)), f, later) <==> f.states == []
  {
    var h := Append(existing, f).states;
    if f.states != [] {
      assert h[|h| - |f.states|] == f.states[0];
    }
  }

  // ------------------------------------------------------------------------------------------
  // Push, then restart one by one

  /** A machine of the chain: the installed file, whether the process is up, and what it loaded. */
  datatype Machine = Machine(file: Option<Upgrades>, running: bool, loaded: Option<Upgrades>)
  type Machines = map<nat, Machine>

  /** At most one machine that ran before the command is down. */
  ghost predicate OneDown(before: Machines, m: Machines, targets: seq<nat>) {
    forall a, b :: a in targets && b in targets && a != b && a in m && b in m && a in before && b in before ==>
      !(before[a].running && before[b].running && !m[a].running && !m[b].running)
  }

  ghost predicate Untouched(before: Machines, m: Machines) {
    m.Keys == before.Keys && forall n :: n in m ==> m[n].running == before[n].running && m[n].loaded == before[n].loaded
  }

  ghost predicate AllPushed(m: Machines, targets: seq<nat>, h: Upgrades) {
    forall n :: n in targets ==> n in m && m[n].file == Some(h)
  }

  /** A state the command may pass through. */
  ghost predicate Careful(before: Machines, m: Machines, targets: seq<nat>, h: Upgrades) {
    && m.Keys == before.Keys && OneDown(before, m, targets)
    && (Untouched(before, m) || AllPushed(m, targets, h))
    && forall n :: n in m && n !in targets ==> m[n] == before[n]
  }

  /** The rolling restart has reached position i: earlier targets run the new history, later ones
      are as they were. */
  ghost predicate Rolled(before: Machines, m: Machines, targets: seq<nat>, h: Upgrades, i: nat)
    requires i <= |targets|
  {
    && m.Keys == before.Keys && AllPushed(m, targets, h)
    && (forall k :: 0 <= k < i ==> targets[k] in m && m[targets[k]].running && m[targets[k]].loaded == Some(h))
    && (forall k :: i <= k < |targets| ==> targets[k] in m && m[targets[k]].running == before[targets[k]].running
                                           && m[targets[k]].loaded == before[targets[k]].loaded)
    && forall n :: n in m && n !in targets ==> m[n] == before[n]
  }

  ghost predicate DistinctTargets(targets: seq<nat>) {
    forall i, j :: 0 <= i < j < |targets| ==> targets[i] != targets[j]
  }

  /** What fails: writing the history, and per machine the push, stop, start and readiness steps. */
  datatype Failures =
    Failures(write: bool, push: nat -> bool, stop: nat -> bool, start: nat -> bool, ready: nat -> bool)

  predicate Restarts(fails: Failures, n: nat) { !fails.stop(n) && !fails.start(n) && !fails.ready(n) }

  class Upgrader {
    /** deployment/upgrades.json, and the fragments it was made of. */
    var canonical: Option<Upgrades>
    ghost var fragments: seq<Upgrades>
    var machines: Machines
    ghost var trace: seq<Machines>

    ghost predicate Valid()
      reads this
    {
      canonical == History(fragments) && AcceptedRun(fragments)
    }

    ghost predicate CarefulSince(from: nat, before: Machines, targets: seq<nat>, h: Upgrades)
      reads this
    {
      forall k :: from <= k < |trace| ==> Careful(before, trace[k], targets, h)
    }

    constructor (machines: Machines)
      ensures Valid() && fragments == [] && this.machines == machines && trace == []
    {
      canonical, fragments := None, [];
      this.machines, trace := machines, [];
    }

    /** phaseParallel: every target is attempted, and any may fail with or without effect. */
    method Push(targets: seq<nat>, h: Upgrades, fails: Failures) returns (ok: bool)
      requires forall n :: n in targets ==> n in machines
      modifies this`machines, this`trace
      ensures |trace| >= |old(trace)| && trace[..|old(trace)|] == old(trace)
      ensures CarefulSince(|old(trace)|, old(machines), targets, h)
      ensures Untouched(old(machines), machines)
      ensures forall n :: n in machines && n !in targets ==> machines[n] == old(machines)[n]
      ensures ok ==> AllPushed(machines, targets, h)
      ensures ok <==> forall n :: n in targets ==> !fails.push(n)
    {
      ghost var before := machines;
      hide Careful;
      ok := true;
      for i := 0 to |targets|
        invariant |trace| >= |old(trace)| && trace[..|old(trace)|] == old(trace)
        invariant CarefulSince(|old(trace)|, before, targets, h)
        invariant Untouched(before, machines)
        invariant forall n :: n in machines && n !in targets ==> machines[n] == before[n]
        invariant ok ==> AllPushed(machines, targets[..i], h)
        invariant ok <==> forall n :: n in targets[..i] ==> !fails.push(n)
      {
        var success := !fails.push(targets[i]);
        var effect: bool := *;
        assert targets[..i + 1] == targets[..i] + [targets[i]];
        if effect || success {
          machines := machines[targets[i] := machines[targets[i]].(file := Some(h))];
          UntouchedCareful(before, machines, targets, h);
          trace := trace + [machines];
        }
        ok := ok && success;
      }
      assert targets[..|targets|] == targets;
    }

    /** Stop, start and wait for one target, each step failing with or without effect. */
    method Restart(targets: seq<nat>, i: nat, h: Upgrades, fails: Failures, ghost before: Machines) returns (ok: bool)
      requires i < |targets| && DistinctTargets(targets) && Rolled(before, machines, targets, h, i)
      modifies this`machines, this`trace
      ensures |trace| >= |old(trace)| && trace[..|old(trace)|] == old(trace)
      ensures CarefulSince(|old(trace)|, before, targets, h)
      ensures ok ==> Rolled(before, machines, targets, h, i + 1)
      ensures ok <==> Restarts(fails, targets[i])
    {
      var n := targets[i];
      RolledCareful(before, machines, targets, h, i, machines[n].(running := false));
      RolledCareful(before, machines, targets, h, i, Machine(machines[n].file, true, machines[n].file));
      RolledNext(before, machines, targets, h, i, Machine(machines[n].file, true, machines[n].file));
      hide Careful, Rolled;
      ghost var start := machines;
      var effect: bool, success: bool := *, !fails.stop(n);
      if effect || success {
        machines := machines[n := machines[n].(running := false)];
        trace := trace + [machines];
      }
      if !success { return false; }
      effect, success := *, !fails.start(n);
      if effect || success {
        machines := machines[n := Machine(machines[n].file, true, machines[n].file)];
        assert machines == start[n := Machine(start[n].file, true, start[n].file)];
        trace := trace + [machines];
      }
      if !success { return false; }
      ok := !fails.ready(n);
    }

    /** UpgradeChain. A refused or unrecorded fragment changes nothing; a recorded one extends the
        history whatever fails later; no process is restarted before every target holds the full
        history; and targets go down one at a time. */
    method UpgradeChain(f: Upgrades, now: int, targets: seq<nat>, fails: Failures) returns (ok: bool)
      requires Valid() && DistinctTargets(targets) && forall n :: n in targets ==> n in machines
      modifies this
      ensures Valid()
      ensures || (Mergeable(old(canonical), f, now) && fragments == old(fragments) + [f])
              || (!ok && fragments == old(fragments) && canonical == old(canonical) && machines == old(machines) &&
                   trace == old(trace))
      ensures Extends(old(canonical), canonical)
      ensures |trace| >= |old(trace)| && trace[..|old(trace)|] == old(trace)
      ensures canonical.Some? ==> CarefulSince(|old(trace)|, old(machines), targets, canonical.value)
      ensures ok ==> canonical.Some? && Rolled(old(machines), machines, targets, canonical.value, |targets|)
      ensures ok ==> forall n :: n in targets ==>
                n in machines && machines[n].file.Some? && EndsWith(machines[n].file.value, f)
                && machines[n].running && machines[n].loaded == machines[n].file
      ensures ok <==> Mergeable(old(canonical), f, now) && !fails.write
                      && forall n :: n in targets ==> !fails.push(n) && Restarts(fails, n)
    {
      hide Careful, Rolled, Mergeable;
      var merged := Merge(canonical, f, now);
      if merged.Err? { return false; }
      if fails.write { return false; }
      ghost var before := machines;
      RunNext(fragments, f, now);
      HistoryGrows(fragments + [f], |fragments|);
      assert (fragments + [f])[..|fragments|] == fragments;
      canonical := Some(merged.value);
      fragments := fragments + [f];
      ok := Push(targets, merged.value, fails);
      if !ok { return; }
      PushedRolled(before, machines, targets, merged.value);
      for i := 0 to |targets|
        invariant Valid() && canonical == Some(merged.value) && fragments == old(fragments) + [f] && ok
        invariant |trace| >= |old(trace)| && trace[..|old(trace)|] == old(trace)
        invariant CarefulSince(|old(trace)|, before, targets, merged.value)
        invariant Rolled(before, machines, targets, merged.value, i)
        invariant forall k :: 0 <= k < i ==> Restarts(fails, targets[k])
      {
        ghost var reached := |trace|;
        ghost var earlier := trace;
        ok := Restart(targets, i, merged.value, fails, before);
        assert forall k :: 0 <= k < reached ==> trace[..reached][k] == trace[k] && earlier[k] == trace[k];
        assert trace[..|old(trace)|] == earlier[..|old(trace)|];
        if !ok {
          assert targets[i] in targets;
          return;
        }
      }
      RolledEnds(before, machines, targets, merged.value, old(canonical), f);
    }
  }

  lemma {:induction false} RolledEnds(before: Machines, m: Machines, targets: seq<nat>, h: Upgrades,
                                      existing: Option<Upgrades>, f: Upgrades)
    requires Rolled(before, m, targets, h, |targets|)
    requires if existing.None? then h == f
             else h.states == existing.value.states + f.states
                  && h.precompiles == existing.value.precompiles + f.precompiles
    ensures forall n :: n in targets ==>
              n in m && m[n].file.Some? && EndsWith(m[n].file.value, f) && m[n].running && m[n].loaded == m[n].file
  {
    assert EndsWith(h, f);
    hide EndsWith;
    forall n | n in targets ensures n in m && m[n].file == Some(h) && m[n].running && m[n].loaded == Some(h) {
      var k :| 0 <= k < |targets| && targets[k] == n;
    }
  }

  lemma {:induction false} RunNext(fragments: seq<Upgrades>, f: Upgrades, now: int)
    requires AcceptedRun(fragments) && Mergeable(History(fragments), f, now)
    ensures AcceptedRun(fragments + [f]) && History(fragments + [f]) == Some(Append(History(fragments), f))
  {
    assert (fragments + [f])[..|fragments|] == fragments;
  }

  lemma {:induction false} UntouchedCareful(before: Machines, m: Machines, targets: seq<nat>, h: Upgrades)
    requires Untouched(before, m) && forall n :: n in m && n !in targets ==> m[n] == before[n]
    ensures Careful(before, m, targets, h)
  {
  }

  lemma {:induction false} PushedRolled(before: Machines, m: Machines, targets: seq<nat>, h: Upgrades)
    requires Untouched(before, m) && AllPushed(m, targets, h)
    requires forall n :: n in m && n !in targets ==> m[n] == before[n]
    ensures Rolled(before, m, targets, h, 0)
  {
    assert forall k :: 0 <= k < |targets| ==> targets[k] in targets;
  }

  lemma {:induction false} RolledCareful(before: Machines, m: Machines, targets: seq<nat>, h: Upgrades, i: nat,
                                         next: Machine)
    requires i < |targets| && Rolled(before, m, targets, h, i) && next.file == m[targets[i]].file
    ensures Careful(before, m[targets[i] := next], targets, h)
  {
    assert targets[i] in targets;
    var q := m[targets[i] := next];
    forall a | a in targets && a in q && a in before && a != targets[i] && before[a].running ensures q[a].running {
      var k :| 0 <= k < |targets| && targets[k] == a;
    }
  }

  lemma {:induction false} RolledNext(before: Machines, m: Machines, targets: seq<nat>, h: Upgrades, i: nat,
                                      next: Machine)
    requires i < |targets| && DistinctTargets(targets) && Rolled(before, m, targets, h, i)
    requires next == Machine(m[targets[i]].file, true, m[targets[i]].file)
    ensures Rolled(before, m[targets[i] := next], targets, h, i + 1)
  {
    assert targets[i] in targets;
  }
}
