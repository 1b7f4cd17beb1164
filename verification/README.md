# A verified model of the benchmark kit's stateful cores

The kit runs a fleet of Avalanche L1 machines, loads it with transactions, relays prices between
its chains, and creates and destroys the L1s it needs. This project models the parts of it that
carry real state and proves what those parts are for:

- **Fleet** (`Placement`, `Reachability`, `FleetModel`, `Fleet`, `AddressBook`): machines, the
  identities placed on them, and the place, start, stop, destroy and deploy commands as methods on
  one `Fleet` object. Which actions fail is an input, and one that fails may have done nothing, part
  or all of its work; the field `history` records every machine state passed through, so each claim
  about it is a claim about whole runs. The central one: no two running machines ever serve one identity.
- **Load generator** (`Tracker`, `Bombard`, `Ingress`): the issuer, workers, watchers, resubmitter
  and monitor as one interleaving state machine, with the tracker's own methods beside it, and the
  health-checked send pool.
- **Warp relay** (`Relay`, `Signing`, `Predicate`): the freshness gate with opportunistic batching,
  signature collection to a 67% quorum, and the access-list predicate codec.
- **Creation and teardown** (`StateKeys`, `NetworkEnv`, `Creation`, `Destroy`): the transaction
  sequence with a save after each acceptance, and what destroy makes of every prefix of it.
- **Inventory and manifest** (`Config`, `Loader`, `Identity`, `Manifest`): the accepted inventories,
  the generated manifest, its validator, and the link to what placement relies on.
- **Smaller algorithms** (`Conversion`, `Upgrade`): the conversion-block search and the append-only
  upgrade history with its push-then-restart distribution.

`dafny verify dfyconfig.toml` checks everything. Every lemma switches automatic induction off, so
each inductive step is in its body.

## Where the code and its comments part

- The issuer's saturation branch (`cmd/bombard/main.go:572-576`) is dead: the channel holds as many
  nonces as the cap allows (`Bombard.NeverSaturated`).
- The issuer's own in-flight read is always exact. A reader on another thread loads the three
  counters one after another, and its value is exact if and only if the work counted between its
  loads, together with a send not counted yet, is no more than what its first load left uncounted
  (`Bombard.OutsideReadExact`); otherwise it wraps (`Bombard.OutsideReadCanWrap`,
  `Bombard.SlowReadCanWrap`).
- A start with selectors is safe exactly when no unselected running machine serves an identity
  assigned inside the selection (`FleetModel.StartExclusiveIffClear`, `FleetModel.PartialStartCanCollide`).
- A crashed process that systemd restarts loads the key on disk. That keeps exclusion if and only if
  no other running machine serves that key (`FleetModel.ReloadExact`); between the identity and stop
  phases, or after a reconcile that failed there, a reload can break it
  (`FleetModel.InterruptedIdentityCanCollide`). On a converged fleet no reload can.
- A machine that runs a wrong identity while disabled, once stopped by an interrupted reconcile,
  counts as deliberately down from then on (`FleetModel.DisabledMachineStranded`); the convergence
  claims are about enabled or running machines.
- The signer's loop test multiplies in uint64; over all uint64 totals it is the true quorum for every
  signed weight exactly when total weight times 100 fits (`Signing.LoopTestExact`).
- All-or-none weights are more than the ladder needs: a mixed chain's manifest breaks it exactly when
  one of the chain's first three validators is tagged and an untagged one comes after them
  (`Manifest.MixedWeightsExact`).
- The comment at `internal/fleet/upgrade.go:211-213` says that a rerun after a failed push converges
  from the history. A rerun of the same fragment is refused if it holds a state upgrade, and appended
  a second time if it holds precompile upgrades only (`Upgrade.RerunExact`).
- Destroy's early exit looks at the main and management L1s only. That is exact on every file a
  creation leaves behind (`Destroy.EveryContentExits`). On an arbitrary deployment it passes over
  nothing if and only if it is not taken, or no oracle and no additional chain is named
  (`Destroy.ExitHidesNothingExact`, `Destroy.ForeignFileCanHide`).
- The relay keeps the low 64 bits of a uint256 sequence number (`relay.go:337`); "record high" is
  about those. It passes the record highs of the whole numbers on all streams up to a bound exactly
  when the bound is below 2^64 (`Relay.TruncationExact`).

## Model

| member | source | states |
|---|---|---|
| Config.ChainDefaults | internal/config/config.go:103-115 | The chain each role serves, named or not |
| Identity.Name | internal/identity/identity.go:70-79 | The loop yields the one lowercase string whose bijective base-26 value is index + 1 |
| Identity.Index | internal/identity/identity.go:81-98 | Accepts exactly the non-empty lowercase strings whose value fits an int, and says why it refuses the others |
| Identity.NameIndexInverse | internal/identity/identity.go:70-98 | Name and Index are mutually inverse on all representable indexes and all accepted strings |
| Identity.NamesIncreasing | internal/identity/identity.go:70-79 | A smaller index has a name that is earlier in length-then-alphabetical order, and conversely |
| Identity.ValueInjective | internal/identity/identity.go:81-98 | No two lowercase strings have one base-26 value |
| Placements.Default | internal/placement/placement.go:27-33 | Builds the map from each record's home to its letter |
| Placements.Validate | internal/placement/placement.go:78-127 | Accepts exactly the valid placements: the right count, every machine fitted, no letter twice |
| Placements.ValidIsBijective | internal/placement/placement.go:78-127 | Valid means: an injection from exactly the inventory's distinct machines to identities that fit them |
| Placements.ValidPlaced | internal/placement/placement.go:78-127 | Each machine holds a manifest record of its own role and chain, and one that is no validator the record whose home it is |
| Placements.ByIdentityAt | internal/fleet/inventory.go:76-78 | With distinct letters the lookup by letter finds each record itself |
| Placements.NodeOf | internal/placement/placement.go:140-147 | Finds a machine with the letter if and only if one holds it |
| Placements.Plan | internal/fleet/place.go:167-225 | The command's checks and new map are the specified plan, error cases included |
| Placements.PlanPlaceSwaps | internal/fleet/place.go:167-225 | An accepted plan is a transposition of two machines' identities |
| Placements.PlanPlaceKeepsValid | internal/fleet/place.go:36-68 | An accepted plan on a valid placement is valid, puts the letter on the machine and moves only those two |
| Placements.PlanPlaceAccepts | internal/fleet/place.go:167-225 | Any validator identity and validator machine of one chain are accepted |
| Placements.PlanPlaceUndo | internal/fleet/place.go:167-225 | Placing the displaced identity back restores the placement |
| Reachability.EveryIdentityPlaced | internal/placement/placement.go:78-127 | With equal lists of machines, a valid placement uses every identity of the manifest |
| Reachability.HomesAgree | internal/placement/placement.go:78-127 | A machine that is no validator runs the same identity under every valid placement |
| Reachability.EveryPlacementReachable | internal/fleet/place.go:167-225 | Any valid placement reaches any other in at most v - 1 accepted moves through valid placements |
| FleetModel.L1NumbersExact | internal/fleet/inventory.go:147-155 | Lists every machine but the P-chain's, each once, in inventory order |
| FleetModel.AssignedInjective | internal/fleet/inventory.go:120-145 | A valid placement assigns exactly the L1 machines, no two the same NodeID |
| FleetModel.AssignedPlaced | internal/fleet/inventory.go:120-130 | What a machine is assigned is the NodeID of a manifest record placed on it |
| FleetModel.AssignedExact | internal/fleet/inventory.go:120-130 | With distinct letters, machine n is assigned the NodeID of every record whose letter it holds |
| FleetModel.PlanApplyExact | internal/fleet/place.go:238-272 | On truthful probes the restart list is exactly the machines up with a wrong identity or enabled but down, each once, never an error |
| FleetModel.PlanApplyFails | internal/fleet/place.go:238-272 | On any probes planning fails exactly on a machine not probed, not assigned, or active without a runtime NodeID |
| FleetModel.StartPhaseKeepsSafe | internal/fleet/place.go:76-163 | Every state a start phase can pass through is exclusive once its targets were stopped and re-keyed |
| FleetModel.QuietPhaseKeepsSafe | internal/fleet/deploy.go:499-515 | A phase that starts nothing keeps exclusion in every state, whichever machine it fails at |
| FleetModel.PlanReady | internal/fleet/place.go:238-272 | After re-keying and stopping what the plan names, nobody serves a target's identity |
| FleetModel.PlanConverges | internal/fleet/place.go:76-163 | A finished restart leaves every enabled or running machine on its own identity |
| FleetModel.NewPlacementKeepsSafe | internal/fleet/place.go:36-68 | Writing a new placement over a converged fleet keeps it safe |
| FleetModel.ReloadExact | internal/fleet/place.go:76-163 | A crash and key reload keeps exclusion if and only if no other running machine serves the key on disk |
| FleetModel.ReloadHarmless | internal/fleet/place.go:76-163 | A correct machine survives a crash and reload unchanged, and such a reload is always clear |
| FleetModel.InterruptedIdentityCanCollide | internal/fleet/place.go:76-163 | A fleet left by an interrupted identity phase on which one reload makes two machines serve one identity |
| FleetModel.StartExclusiveIffClear | internal/fleet/lifecycle.go:144-197 | A successful start keeps exclusion if and only if nobody unselected served an identity assigned in the selection |
| FleetModel.PartialStartCanCollide | internal/fleet/lifecycle.go:144-197 | A concrete partial start after which two machines serve one identity |
| FleetModel.DisabledMachineStranded | internal/fleet/place.go:238-272 | A disabled mismatched machine, once stopped, is never planned again |
| FleetModel.DeployServes | internal/fleet/deploy.go:186-299 | A finished whole-fleet deploy has every machine serving its identity, with its key on disk, enabled |
| FleetModel.GateWhileRemoving | internal/fleet/lifecycle.go:341-348 | Chain data goes only while every chosen machine is down |
| Fleets.SelectNodes | internal/fleet/lifecycle.go:25-76 | Selects exactly the named candidates, each once; an error exactly for an unknown number or an empty fleet |
| Fleets.SelectInOrder | internal/fleet/lifecycle.go:67-75 | The selection keeps inventory order |
| Fleets.Fleet.Phase | internal/fleet/deploy.go:499-515 | Every state of an aborting phase is a partial effect on its targets only; success means every target done |
| Fleets.Fleet.ApplyPlan | internal/fleet/place.go:76-163 | The restart keeps exclusion in every state, disturbs no correct or deliberately-down machine, and converges on success |
| Fleets.Fleet.Reconcile | internal/fleet/place.go:76-163 | As above from live probes; on a converged fleet it restarts nothing; success leaves every machine that is up on the NodeID of a record placed on it; and it succeeds if nothing fails |
| Fleets.Fleet.ReconcileUntil | internal/fleet/place.go:76-163 | After any number of interrupted reconciles a successful one has every enabled machine on its identity, matched ones undisturbed throughout |
| Fleets.Fleet.WritePlacement | internal/fleet/place.go:36-68 | The new placement is written exactly when the plan is accepted and the write succeeds |
| Fleets.Fleet.Place | internal/fleet/place.go:36-68 | Reconcile, write, reconcile: exclusion in every state; the placement changes only by the plan and only on a converged fleet, where no machine but the two it swaps is touched in any state; success puts the letter on the machine and leaves every machine that is up on the NodeID of its placed record; and if nothing fails it succeeds exactly when the plan is accepted |
| Fleets.Fleet.Start | internal/fleet/lifecycle.go:144-197 | Only named machines change, and of those only ones not serving their identity or not answering, in any state; repeating it is a no-op; success means every named machine runs the NodeID of its placed record, and each one touched is enabled with its key on disk; chain data is kept; exclusion holds throughout under the clear condition on the named machines, and after success exactly under it; if nothing fails it succeeds exactly on known machines |
| Fleets.Fleet.ConvergeList | internal/fleet/lifecycle.go:199-239 | The restart list is exactly the selected machines that do not serve their identity or do not answer |
| Fleets.Fleet.Stop | internal/fleet/lifecycle.go:282-292 | Exclusion throughout; success means the selection is down and disabled; others untouched; if nothing fails it succeeds exactly on known machines |
| Fleets.Fleet.Destroy | internal/fleet/lifecycle.go:302-346 | Exclusion throughout, no selector refused without effect, and data removed only when every selected machine is down; if nothing fails it succeeds exactly on known machines |
| Fleets.Fleet.Deploy | internal/fleet/deploy.go:218-299 | Exclusion throughout; success means every machine up, enabled and on the NodeID of its placed record; chain data is kept; it succeeds if nothing fails |
| Fleets.Fleet.Crash | internal/fleet/place.go:76-163 | A process that dies takes its machine down and nothing else, and keeps exclusion |
| Fleets.Fleet.Reload | internal/fleet/place.go:76-163 | A clear reload loads the key on disk and keeps exclusion |
| Fleets.Fleet.Run | internal/fleet/lifecycle.go:115-197 | Any sequence of commands, crashes and clear reloads, with any failures, passes through exclusive states only |
| AddressBook.PortsByNode | internal/fleet/deploy.go:930-939 | The map the positional rule defines |
| AddressBook.HttpPortsByNode | cmd/bombard/discover.go:37-45 | Agrees with the fleet's HTTP ports on every node of every inventory |
| AddressBook.OccurrenceCounts | internal/fleet/deploy.go:930-939 | The counter is the number of earlier nodes on the host |
| AddressBook.PortMapAt | internal/fleet/deploy.go:930-939 | Each node's ports are 9650 and 9651 plus twice the number of earlier nodes on its host |
| AddressBook.PortsNeverCollide | internal/fleet/deploy.go:930-939 | No two services on one host share a port |
| AddressBook.PeersExact | internal/fleet/deploy.go:849-870 | The peers are exactly the other up L1 machines of the node's chain |
| AddressBook.StateSyncPeers | internal/fleet/deploy.go:849-870 | Entry k of both lists names the k-th peer: its own address and the NodeID placed on it |
| AddressBook.IntendedUp | internal/fleet/deploy.go:882-916 | Up means brought up by the command, or enabled and answering and not taken down by it |
| AddressBook.BookDistinct | internal/fleet/deploy.go:849-870 | No address and no NodeID appears twice in a book |
| AddressBook.Render | internal/fleet/lifecycle.go:252-281 | The whole book for any valid placement, any probe answers and any command effect; ID k is the NodeID of a record placed on peer k |
| Trackers.Tracker.Register | cmd/bombard/main.go:86-91 | Adds the nonce and its hash by the same specification function as the state machine's step, keeping the hash map the inverse |
| Trackers.Tracker.TakeMined | cmd/bombard/main.go:93-112 | A known hash always finds its in-flight entry, and removes exactly that one, as the state machine's step does |
| Trackers.Tracker.InFlight | cmd/bombard/main.go:117-119 | The wrapping subtraction is exact whenever the counters are consistent |
| Trackers.Tracker.LowestInflightNonce | cmd/bombard/main.go:124-137 | The minimum of the in-flight nonces, none exactly when there are none |
| Trackers.Tracker.DropInflight | cmd/bombard/main.go:142-150 | Empties both maps and counts every dropped entry |
| Trackers.Tracker.DueForResubmit | cmd/bombard/main.go:154-167 | Returns exactly the transactions whose last send is old enough, each once, and restamps only those |
| Bombard.RunInvariant | cmd/bombard/main.go:523-691 | In every state of every interleaving: sends equal mined, mined but uncounted, dropped, in flight, queued or held, and lost; the hash map is the inverse; the cap, token bounds and consecutiveness hold |
| Bombard.StepKeepsConserved | cmd/bombard/main.go:86-150 | No step of any thread loses or duplicates a send |
| Bombard.StepKeepsHashes | cmd/bombard/main.go:86-150 | The hash map stays the exact inverse of the in-flight map |
| Bombard.IssuerReadExact | cmd/bombard/main.go:546-577 | The issuer's own two subtractions never wrap and lie within the cap |
| Bombard.StepKeepsCap | cmd/bombard/main.go:546-577 | Issued minus mined minus dropped never exceeds the cap although the counters are read one at a time |
| Bombard.StepKeepsConsecutive | cmd/bombard/main.go:523-579 | The nonces released since the last resync or the start are consecutive |
| Bombard.NonceTracked | cmd/bombard/main.go:540-573 | From the step list alone: the next nonce is the start nonce, or the frontier last requested before the tick of the last resync, plus the nonces counted since |
| Bombard.TickResyncsExactly | cmd/bombard/main.go:546-556 | A tick resyncs exactly when a request was raised and not answered since |
| Bombard.ResyncExact | cmd/bombard/main.go:546-556 | A resync jumps to that frontier, drops everything in flight by count, empties both maps, takes the tokens and answers the request |
| Bombard.TickExact | cmd/bombard/main.go:558-577 | Tokens accrue up to the burst; a check passes exactly when a token is left and the true in-flight value read is under the cap; the nonce sent is the one the step list determines |
| Bombard.QueueTracked | cmd/bombard/main.go:670-691 | Workers take exactly the nonces sent, in the order sent |
| Bombard.NeverSaturated | cmd/bombard/main.go:563-577 | A passed check always finds room in the channel |
| Bombard.RateBound | cmd/bombard/main.go:523-579 | Over any span at most burst plus rate times elapsed nonces are released |
| Bombard.NoOverwriteBeforeResync | cmd/bombard/main.go:670-691 | Before the first resync no registration overwrites another, so only signing failures are lost |
| Bombard.OutsideReadExact | cmd/bombard/main.go:117-119 | The condition, over the three separate loads of any run, under which an outside read is the true difference; in particular when nothing was sent that the first load missed |
| Bombard.SnapshotExact | cmd/bombard/main.go:117-119 | Read at one instant the difference is negative exactly when the one uncounted send is settled and nothing else is outstanding |
| Bombard.OutsideReadCanWrap | cmd/bombard/main.go:612-613 | A run in which an instantaneous outside read wraps to 2^64 - 1 |
| Bombard.SlowReadCanWrap | cmd/bombard/main.go:612-613 | A run in which a slow outside read wraps while a send is still queued |
| Ingress.SwitchKeeps | cmd/bombard/sender.go:216-224 | The hysteresis means: every reading over 200 behind was followed by one within 50 |
| Ingress.NearRecovered | cmd/bombard/sender.go:190-235 | At tip implies in rotation |
| Ingress.PoolNotEmpty | cmd/bombard/sender.go:135-182 | Whatever the flags, some endpoint is sent to |
| Ingress.Broadcaster.Tick | cmd/bombard/sender.go:190-235 | After every tick of any run an endpoint is at tip and the flags say what the readings say; an unanswered tick changes nothing |
| Ingress.Broadcaster.ReadActive | cmd/bombard/main.go:190-226 | Exactly the named endpoints become active, or all when none is named or matched |
| Ingress.Broadcaster.Pool | cmd/bombard/sender.go:135-182 | Non-empty and the highest non-empty priority class; after a tick only at-tip ones, only active ones when any qualify |
| Relay.FreshnessGate.Fresher | apps/settlement-feed/internal/oraclerelay/relay.go:304-310 | Passes exactly a strictly higher sequence number and remembers it |
| Relay.FreshnessGate.CollectBatch | apps/settlement-feed/internal/oraclerelay/relay.go:327-391 | A batch is the one-at-a-time filter of the logs it consumed, at most 16, and only buffered logs were waited on |
| Relay.FilterSplits | apps/settlement-feed/internal/oraclerelay/relay.go:366-391 | The filter does not depend on where batches are cut |
| Relay.GateIsMaximum | apps/settlement-feed/internal/oraclerelay/relay.go:292-310 | The gate holds the greatest number seen per asset |
| Relay.PassedAreRecords | apps/settlement-feed/internal/oraclerelay/relay.go:292-310 | What passes is exactly the strict record highs above zero, in order |
| Relay.DeliverBatch | apps/settlement-feed/internal/oraclerelay/relay.go:396-463 | Succeeds exactly when signing and sending do; predicate tuple i carries message i; the nonce advances exactly on success |
| Relay.ReadTuple | apps/settlement-feed/internal/oraclerelay/relay.go:396-463 | A delivered tuple unpacks to its own message's signed bytes |
| Relay.RelayLoop | apps/settlement-feed/internal/oraclerelay/relay.go:198-235 | For every stream, buffering, early end and delivery failure the batches concatenate to the record highs read; the deliveries are exactly the batches that did not fail, in order, under consecutive nonces; and the loop stops before the end only at an end, a malformed log or a fatal delivery |
| Relay.TruncationExact | apps/settlement-feed/internal/oraclerelay/relay.go:327-345 | The relay passes exactly the record highs of the whole sequence numbers, on all streams with numbers up to a bound, if and only if the bound is below 2^64 |
| Signing.RequestIDsDistinct | apps/settlement-feed/internal/oraclerelay/p2psign.go:164-241 | Two request IDs are equal exactly when a multiple of 2^31 requests lies between them |
| Signing.MuxRunInv | apps/settlement-feed/internal/oraclerelay/p2psign.go:53-82 | In every interleaving each request ID accounts for at most one reply |
| Signing.WaitersExact | apps/settlement-feed/internal/oraclerelay/p2psign.go:62-82 | An ID waits on the channel of its last registration unless it was withdrawn or delivered since |
| Signing.RepliesRouted | apps/settlement-feed/internal/oraclerelay/p2psign.go:74-82 | A reply goes to the channel its ID waits on; a late or repeated one is dropped |
| Signing.DeliveryNeverBlocks | apps/settlement-feed/internal/oraclerelay/p2psign.go:53-82 | Whoever holds a reply finds room in its channel |
| Signing.LoopTestExact | apps/settlement-feed/internal/oraclerelay/p2psign.go:203-206 | Over all uint64 totals the loop test is the true quorum for every signed weight if and only if total weight times 100 fits |
| Signing.Sign | apps/settlement-feed/internal/oraclerelay/p2psign.go:164-273 | Consumes only replies, at most one per request; the weight is over the distinct indexes with verified signatures; success only at the quorum; a refusal of a known node, or a reply of one that does not decode or verify before its index signed, ends the call with exactly that error; running out, timing out or being cancelled only below the quorum, and the last two only on the event itself; a set of no weight is an error |
| Signing.SignersGrow | apps/settlement-feed/internal/oraclerelay/p2psign.go:164-241 | A reply adds exactly its canonical index, and only when its signature verifies |
| Signing.WeightGrows | apps/settlement-feed/internal/oraclerelay/p2psign.go:164-241 | A new signer adds its weight and the running sum does not wrap |
| Predicate.PackPredicate | apps/settlement-feed/internal/oraclerelay/predicate.go:26-37 | The chunks are message, delimiter, zeros, and not one chunk more |
| Predicate.UnpackPredicate | apps/settlement-feed/internal/oraclerelay/predicate.go:41-59 | Accepts exactly the packings and yields the message packed |
| Predicate.PackingUnique | apps/settlement-feed/internal/oraclerelay/predicate.go:26-59 | One packing per message and one message per packing |
| Predicate.RoundTrip | apps/settlement-feed/internal/oraclerelay/predicate.go:26-59 | Every message comes back, trailing zeros and multiples of 32 included |
| Conversion.FirstNotBefore | internal/setweight/setweight.go:269-290 | Finds the first block not before the conversion second in at most ceil(log2(tip + 1)) reads |
| Conversion.FindConversionHeight | internal/setweight/setweight.go:269-313 | The least height stamped at the conversion second that holds the transaction; fails exactly when there is none |
| Conversion.AnswerUnique | apps/settlement-feed/internal/oraclerelay/epoch.go:50-88 | Any two searches meeting the specification agree, so the twin does |
| StateKeys.KeyNameInverse | internal/weights/report.go:53-55 | Chain names and key fragments are in bijection |
| StateKeys.KeysInjective | internal/creation/state.go:49-67 | Per-chain keys never collide with each other, with the fixed keys or with the other fields |
| StateKeys.KeysSpelled | internal/creation/state.go:46-67 | The keys of the fixed L1s and of an additional chain as the file spells them |
| StateKeys.MatchExact | internal/weights/report.go:47-55 | The pattern recognises exactly the derived conversion keys and yields their name |
| NetworkEnv.Save | internal/creation/state.go:104-143 | The file records each L1's non-empty IDs under its own keys, the texts, and nothing else |
| NetworkEnv.LoadChains | internal/weights/report.go:149-174 | In any key order, succeeds exactly when every recorded conversion has its IDs, and names exactly those chains |
| NetworkEnv.LoadDeployment | internal/weights/report.go:92-182 | Accepts exactly the stated files in either mode, and the deployment names exactly the recorded conversions |
| Creation.Creator.SaveState | internal/creation/state.go:104-143 | A failed save leaves the file as it was |
| Creation.Creator.Accept | internal/creation/create.go:410-453 | At most one accepted transaction is ever unsaved, and file content i records exactly the first i |
| Creation.Creator.Create | internal/creation/create.go:423-627 | Wherever it stops, every content the file had is a prefix of the planned transactions, each naming its own L1's subnet and the management chain; success converts exactly management, the oracle when declared, and every other chain, in that order; and it succeeds if no transaction or save fails |
| Creation.EveryCrashPointLoads | internal/weights/report.go:92-182 | A file that records any prefix of the sequence loads for destroy |
| Creation.EveryContentLoads | internal/creation/create.go:423-627 | Every content a creation run gave the file, wherever it stopped, loads for destroy and names exactly the L1s converted by then |
| Creation.CrashPointNames | internal/weights/report.go:103-182 | What loads names exactly the L1s converted so far, with their accepted IDs |
| Creation.CompleteLoadExact | internal/weights/report.go:84-121 | The load every other command uses accepts exactly the crash points after the main conversion |
| Destroy.TargetsExact | internal/weights/report.go:207-243 | At a crash point the L1s read are exactly the converted ones, under their accepted subnets |
| Destroy.EarlyExitExact | internal/destroy/destroy.go:28-31 | "Nothing to reclaim" is said exactly when no conversion was saved |
| Destroy.EveryContentExits | internal/destroy/destroy.go:28-31 | So for every content a creation run gave the file |
| Destroy.ExitHidesNothingExact | internal/destroy/destroy.go:28-31 | On any deployment the exit passes over nothing if and only if it is not taken, or no oracle and no additional chain is named |
| Destroy.ForeignFileCanHide | internal/destroy/destroy.go:28-31 | A file that loads for destroy and on which the exit passes over a deposit; no creation run records it |
| Destroy.Fetch | internal/weights/report.go:184-301 | The rows are exactly the active validators of the named L1s, each once when no validation is listed under two subnets and no subnet is named twice |
| Destroy.ReclaimOrder | internal/destroy/destroy.go:75-91 | A permutation of the rows with a balance, the management chain's last, order kept on each side |
| Destroy.SidesAreActive | internal/destroy/destroy.go:75-91 | No row with a balance is lost or doubled by the split |
| Destroy.Execute | internal/destroy/destroy.go:101-110 | Disables the order up to the first transaction that fails |
| Destroy.Run | internal/destroy/destroy.go:22-73 | Touches only owned active validators of named L1s; management only once every managed L1 is paid back; success means all are, and happens exactly when every row is owned and no transaction fails |
| Destroy.DestroyCreation | internal/destroy/destroy.go:22-110 | From a file that records any prefix, success pays back every validator of every saved conversion and nothing else changes |
| Destroy.DestroyStopped | internal/destroy/destroy.go:22-110 | The same for the file any stopped creation run left behind |
| Loader.LoadNodes | internal/config/config.go:361-532 | Accepts exactly the well-formed lines with distinct numbers that meet the structural rules, and returns one node per line, as the line describes it, in number order |
| Loader.ParseLine | internal/config/config.go:397-459 | Accepts exactly the well-formed lines and yields the node that the specification describes |
| Loader.CountPChain | internal/config/config.go:465-504 | One exactly when there is a single P-chain node |
| Loader.CheckChains | internal/config/config.go:465-527 | Passes exactly when each declared chain has a validator and the oracle chain an rpc node |
| Loader.WeightsUniform | internal/config/config.go:540-565 | Passes exactly when each chain's validators are all tagged or all untagged |
| Loader.SameStructure | internal/config/config.go:465-532 | The structural rules do not depend on line order |
| Manifest.Validate | internal/creation/public.go:183-363 | Accepts exactly the valid manifests: address syntax, parseable and distinct NodeIDs, positions, weights, signers and structure |
| Manifest.CheckRole | internal/creation/public.go:246-296 | Accepts exactly the weight, explicit flag and signer the role and ladder position allow |
| Manifest.NewPublic | internal/creation/public.go:70-130 | The addresses, and each record's identity, number, role, NodeID and signer, are the generated ones; managers weigh 1000 |
| Manifest.RecordKeeps | internal/creation/public.go:70-130 | A record keeps role, number and tag, and its elided chain resolves back to the inventory's |
| Manifest.RecordWeight | internal/creation/public.go:85-118 | A node weighs its tag; else 1000 on the oracle chain, 100000 as one of its chain's first three validators, 1000 after them, and nothing in another role |
| Manifest.LaddersAgree | internal/creation/public.go:70-130 | On an untagged chain the producer's ladder counter equals the validator's |
| Manifest.MixedWeightsExact | internal/creation/public.go:337-363 | A mixed chain gets a weight its validator refuses if and only if one of its first three validators is tagged and an untagged one comes after them |
| Manifest.NewPublicIsValid | internal/creation/public.go:183-332 | Every manifest generated from an accepted inventory passes validation |
| Manifest.ValidIsSound | internal/creation/public.go:183-332 | A valid manifest has the distinct letters, numbers and NodeIDs that placement relies on |
| Manifest.ValidNodeIDs | internal/creation/public.go:196-330 | Every NodeID parses and no two nodes or managers share one |
| Manifest.CreationLabelsValid | internal/creation/create.go:354-359 | A valid manifest gives creation distinct, well-formed L1 labels |
| Manifest.CreationLabelsExact | internal/creation/create.go:354-359 | They are exactly management and the chains some record of the manifest is on |
| Manifest.DefaultIsValid | internal/placement/placement.go:27-127 | The default placement of a generated manifest is valid for its inventory |
| Upgrade.ZeroSlotExact | internal/fleet/upgrade.go:62-68 | The textual test finds exactly the values that denote zero |
| Upgrade.ValidateContents | internal/fleet/upgrade.go:36-74 | Accepts exactly the fragments that activate in the future and set no explicit zero |
| Upgrade.Merge | internal/fleet/upgrade.go:121-159 | Succeeds exactly when the fragment is acceptable and activates after everything recorded; each list is then the existing one followed by the fragment's |
| Upgrade.HistoryWhole | internal/fleet/upgrade.go:113-159 | Each list of the history is the accepted fragments' lists, one after another |
| Upgrade.HistoryGrows | internal/fleet/upgrade.go:113-159 | Every earlier history is a prefix of every later one |
| Upgrade.RunInOrder | internal/fleet/upgrade.go:113-159 | Later fragments activate strictly after all earlier ones |
| Upgrade.HistorySortedExact | internal/fleet/upgrade.go:113-159 | The history is sorted if and only if each fragment is |
| Upgrade.HistoryClean | internal/fleet/upgrade.go:36-74 | Only clean state upgrades ever enter the history |
| Upgrade.CleanMeans | internal/fleet/upgrade.go:51-72 | Clean means some account, each with code or storage, no empty code and no slot whose value is the number zero |
| Upgrade.RerunExact | internal/fleet/upgrade.go:113-159 | A recorded fragment offered again is refused exactly when it holds a state upgrade |
| Upgrade.Upgrader.Push | internal/fleet/upgrade.go:223-243 | No process is disturbed; success, which is exactly that no push fails, means every target holds the full history |
| Upgrade.Upgrader.UpgradeChain | internal/fleet/upgrade.go:170-262 | No process changes before every target holds the full history, and at most one target is down at a time, whatever fails; success, which is exactly acceptance with no failing step, leaves every target running a file that ends with the fragment's own entries |

## Left out

- Fleet actions: an action takes effect no later than it reports, and a successful start means running with the key on disk.
- Fleets.Fleet.Run: crashes and reloads happen between commands, and a reload that is not clear is left out, because exactly those break exclusion; one inside a command is not modelled.
- Fleets.SelectNodes: takes node numbers; splitting selectors at commas and the errors for blank, dc= and non-numeric ones are not modelled.
- User-level layout: its probe never reports "enabled", so the convergence claims are for the systemd layout.
- Rolling deploys, deploys with selectors, UpgradeChain and the P-chain flows as steps of a fleet run; UpgradeChain is modelled on its own with restarts that keep the identity.
- Fleets.Fleet: renders no configuration; the address book is modelled on its own and has no effect on identities.
- Node numbers: negative numbers in a manifest or placement, which both validators refuse, are outside the model's natural numbers.
- Bombard: nonce and counter wrap at 2^64, the stall thresholds of the nonce monitor (it may request a resync at any time), block-read failures, and the resubmitter's network effect.
- Bombard.RunInvariant: tokens are real numbers, not floating point.
- Ingress: queue capacity and drops, and flags read in the middle of a tick; the pool claim for those is only that it is never empty.
- Relay: gas, fees, confirmation of deliveries and metrics; Warp, ABI and BLS encodings are abstract, and a signed message is its bytes followed by a signature.
- Signing: the parse and verify verdicts of a reply are inputs; the p2p network and the timer are any order, subset and end of replies.
- Conversion: the epoch gate after the search (internal/setweight/setweight.go:332-405) waits on ACP-181 sealing rules outside the repository.
- NetworkEnv: the text format, trimming of values and the encoding of IDs; an ID's value and any other text are distinct.
- Creation: genesis files, wallets and issuance retries; an issued transaction is accepted once with a non-empty ID or fails, and one accepted just before a failed save is not in the file. The order of the other chains (main first, then by name) is an input.
- Destroy: the sort of the report's rows, fee price, stale-height retries, and the preflight's owner fields (a validator is owned or not).
- Manifest: key generation and the NodeID encoding (a parser is a parameter); distinct NodeIDs and verifying proofs are hypotheses, and NodeIDs and structural counts are checked after the per-record checks.
- Loader: reading and splitting lines, and the shape warnings.
- Upgrade: JSON decoding and the warning about short notice.
- AddressBook: the joined string form, and hosts that are aliases of one another.
- Top-up, fee floors, the price walk, status tables and monitoring are not modelled.
