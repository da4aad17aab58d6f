# Numen in Dafny

A model of the consensus-critical logic of Numen, a Substrate chain with proof of work, GRANDPA
finality and an EVM that moved from Frontier to pallet-revive, with proofs of what that logic keeps.
`dafny verify dfyconfig.toml` checks all of it.

The eight parts:

- **Mesh.** The icosphere a miner sculpts (`Mesh`, `MeshCount`, `Icosphere`). Coordinates are of any
  type; indices, the midpoint cache and the level loop are as in the source.
- **Token proxy.** The assembler that writes the proxy's bytecode (`ProxyCode`), a small EVM to run
  it on (`Bytes`, `Evm`), and the run of the code for every input (`ProxyRun`, `ProxySpec`).
- **Fork choice.** Ancestry and the finality check (`BlockTree`), total difficulty and the best block
  over runs of imports and finalizations (`ForkChoice`).
- **Difficulty.** ASERT in its own integer widths and the saturating formula it refines (`Asert`,
  `AsertLaws`), and the block hook with its moving anchor (`Difficulty`).
- **Validators.** The life cycle as steps on a state (`Validator`), the pallet that performs them with
  loops over its storage (`ValidatorPallet`), the invariant (`ValidatorSafety`) and what follows over
  whole runs (`ValidatorLaws`).
- **Mining tasks.** The queue shared by concurrent submitters, as a class and as a state machine over
  atomic sections (`MiningQueue`).
- **Claims and nonces.** The accounts (`Ledger`), claims of Frontier accounts (`Claims`), replay
  protection over every run (`Nonces`), and the code that updates the accounts (`ClaimsPallet`).
- **Reward.** The halving reward and its cap (`Reward`).

Code that updates state is a class or a method with loops; each is proved equal to a function of the
old state, and the laws are proved about that function. Calls of pallets that fail leave no trace,
as the runtime's storage layer rolls them back.

## What the model takes as given

- Hashes are opaque. A block hash names one block. The accounts Frontier keeps addresses at, those
  pallet-revive resolves them to, and all others are disjoint, and nobody holds the key of a Frontier
  account.
- `verify`, the callee of the token proxy, the midpoint of two vertices, session keys, identity, free
  balances at `lock`, and the outcome of a block import are parameters.
- System: an account is reaped, nonce and all, with its last provider; a signed transaction needs a
  provider and the exact nonce. Balances: a free balance is one provider, a reserve or a freeze one
  consumer; what may be withdrawn is the free balance less what is frozen beyond the reserve, or less
  the existential deposit if that is more and has to stay. Vesting: linear, finished schedules dropped
  on every write. `set_lock` with zero removes the lock. `TotalDifficulty` saturates at 256 bits.
- The validator pallet's hook runs in every block. `ExitReleases` alone takes the renewal interval as
  positive and shorter than the lock duration, and an exit before the last lock duration in which
  32-bit block numbers saturate; all other validator laws hold of every configuration and every run.

## Where code and comments differ

- pallets/reward/src/lib.rs:6 gives the emission as `2 * InitialReward * HalvingInterval`. Truncated
  halvings and the missing height zero make it strictly less; `Reward.EmissionCap` has the exact cap.
- consensus/sc-consensus-pow/src/worker.rs:127-128 reads an unchanged version as an unchanged task. The
  version is incremented after the queue's lock is released, so that needs a moment when no write awaits
  its increment: `MiningQueue.SameVersion` has the exact condition and `MiningQueue.VersionLags` the run
  that breaks the remark.
- pallets/validator/src/lib.rs:348 says that releasing a lock clears liveness entries. The code keeps
  them: `ValidatorLaws.ReleasedStillMarked` has a run, `ValidatorLaws.MarksStay` says that a mark is gone
  after a release precisely if there was none, and that the next boundary clears it. The offline counter
  is right nevertheless (`ValidatorSafety.BoundaryCount`).
- A halflife does not always double or halve the ASERT target: rounding down loses a bit ahead of
  schedule, saturation one behind it, and truncation toward zero a 65536th of the exponent next to it.
  `AsertLaws.ExactOffsets` has the offsets at which it does for every anchor, `AsertLaws.OneHalflife` the
  condition for each anchor, `AsertLaws.UncleanStepBreaksDoubling` a block for which it does not.
- pallets/evm-claims/src/lib.rs:239-241 says an account that was empty can spend exactly what the old one
  held. Before the fee that is so precisely if no more than the existential deposit is still vesting
  (`Claims.EmptyAccountPaysInFull`); `Claims.VestingIsNotSpendable` has a state with more.

## Model

| member | source | states |
|---|---|---|
| `Icosphere.BaseClosed` | consensus/obj-asteroid/src/icosphere.rs:30-35 | The twenty base faces are a closed, consistently oriented surface on twelve vertices |
| `Mesh.ReverseIsInAnotherFace` | consensus/obj-asteroid/src/icosphere.rs:29-35 | On a closed surface the reverse of every directed edge lies in exactly one face, another one |
| `Mesh.SubdivisionCloses` | consensus/obj-asteroid/src/icosphere.rs:60-69 | Splitting every face at shared midpoints gives a closed surface again: directed edges unique, reverses present, no two faces on the same corners |
| `MeshCount.EdgeCount` | consensus/obj-asteroid/src/icosphere.rs:37-70 | A closed surface has exactly three edges for every two faces |
| `Icosphere.GetMid` | consensus/obj-asteroid/src/icosphere.rs:42-58 | One vertex per edge key, reused on a hit; earlier vertices and cache entries stay; the 32-bit index does not wrap |
| `Icosphere.SplitFace` | consensus/obj-asteroid/src/icosphere.rs:60-68 | A face becomes its four children on the cached midpoints, in the source's order |
| `Icosphere.Subdivide` | consensus/obj-asteroid/src/icosphere.rs:37-70 | One level: a closed surface again, four times the faces, a cache of exactly 3F/2 entries each at the midpoint of its edge, one new vertex per entry, each halfway between two earlier ones |
| `Icosphere.Icosphere` | consensus/obj-asteroid/src/icosphere.rs:17-73 | After n levels: closed, 20*4^n faces, 10*4^n + 2 vertices, V - E + F = 2; every vertex past the twelfth halfway between two earlier ones; each level leads to the next by welded, placed midpoints and the four-way split, from the base to the result; for every n whose vertices have 32-bit indices |
| `ProxyCode.Assembler.Land` | runtime/src/balances_erc20.rs:514-520 | Patches all given jumps to the current end, as a 16-bit number, and places a JUMPDEST there |
| `ProxyCode.PatchedReadsBack` | runtime/src/balances_erc20.rs:508-520 | Every open jump that is landed reads back as the landing place, and no byte outside the open slots changes |
| `ProxyCode.PatchCompareAll` | runtime/src/balances_erc20.rs:476-492 | Landing the collected jumps fills in every comparison and nothing else |
| `ProxyCode.EmitComparisons` | runtime/src/balances_erc20.rs:476-484 | One comparison per selector, with the positions of their open targets |
| `ProxyCode.BlocksInBytes` | runtime/src/balances_erc20.rs:470-545 | The blocks of the layout as the literal bytes an EVM reads |
| `ProxyCode.ProxyCode` | runtime/src/balances_erc20.rs:470-505 | The appended and patched code is the layout with all targets in place, for any selectors whose targets fit 16 bits |
| `ProxySpec.PrecompileAddress` | runtime/src/balances_erc20.rs:44-53 | The precompile's slot address is 0x08020000, and the four pushed bytes denote it |
| `ProxySpec.AssembledIsPlaced` | runtime/src/balances_erc20.rs:522-545 | A program's encoding decodes to that program wherever it stands in the code |
| `ProxySpec.LayoutReady` | runtime/src/balances_erc20.rs:470-520 | In the layout every block stands at its place and every jump target is a valid JUMPDEST, not push data |
| `Evm.OneEnd` | runtime/src/balances_erc20.rs:470-505 | A run has one end, however many steps are taken |
| `ProxyRun.StoredSelector` | runtime/src/balances_erc20.rs:487-489 | The shifted and stored deposit selector reads back as its four bytes |
| `ProxyRun.SelectorOf` | runtime/src/balances_erc20.rs:475 | The loaded word shifted right is the number of the first four calldata bytes |
| `ProxySpec.FromCompare` | runtime/src/balances_erc20.rs:476-484 | From any comparison on, the run ends as the remaining selectors decide |
| `ProxySpec.FromCall` | runtime/src/balances_erc20.rs:495-503 | From the call on, the run makes one DELEGATECALL and ends with exactly its answer, success or revert |
| `ProxySpec.ProxyMeetsSpec` | runtime/src/balances_erc20.rs:470-520 | For every calldata and every callee: exactly one DELEGATECALL to the precompile, with the calldata if its selector is known and the deposit selector otherwise, and the answer returned or reverted with as it came |
| `BlockTree.AncestorIsWalked` | consensus/sc-consensus-pow/src/lib.rs:157-207 | A block is an ancestor precisely if the walk down to its number ends at it |
| `BlockTree.FinalityConflicts` | consensus/sc-consensus-pow/src/lib.rs:157-207 | Both walking loops compute the walk, with the missing header as the error |
| `BlockTree.ConflictsIsExact` | consensus/sc-consensus-pow/src/lib.rs:146-207 | A block, known or new, conflicts precisely if it is neither an ancestor nor a descendant of the finalized block nor that block |
| `ForkChoice.Origin` | consensus/sc-consensus-pow/src/lib.rs:134-144 | The genesis state satisfies the invariant |
| `ForkChoice.Client.ReadTotal` | consensus/sc-consensus-pow/src/lib.rs:136-143 | Along every run what is read is the saturated work on the path from genesis, and zero for an unknown block |
| `ForkChoice.Client.ImportBlock` | consensus/sc-consensus-pow/src/lib.rs:357-451 | The import is the step of the model, with or without a preset choice; it succeeds precisely if the block fits and does not tie with genesis unasked, and a failed one changes nothing |
| `ForkChoice.ImportExactly` | consensus/sc-consensus-pow/src/lib.rs:412-450 | Every block that fits is stored with the saturated work on its path, heavier or not, and becomes the best precisely if it is in line with finality and has more work; only a workless block on genesis is refused |
| `ForkChoice.ImportSound` | consensus/sc-consensus-pow/src/lib.rs:412-447 | An import, new or repeated, keeps the best block above finality and ahead of every block in line with it |
| `ForkChoice.FinalizeSound` | consensus/sc-consensus-pow/src/lib.rs:412-447 | Advancing finality along the best chain keeps it so |
| `ForkChoice.BestIsBest` | consensus/sc-consensus-pow/src/lib.rs:412-447 | After every run the best block is at or above the finalized one, no block in line with finality has more total difficulty, and ties keep the first seen |
| `ForkChoice.FinalityStays` | consensus/sc-consensus-pow/src/lib.rs:412-447 | A block once finalized is at or below the finalized and the best block ever after |
| `ForkChoice.TotalIsPathSum` | consensus/sc-consensus-pow/src/lib.rs:412-416 | A stored total is the sum of the difficulties from genesis, saturated |
| `Asert.FracFactor` | pallets/difficulty/src/asert.rs:67-77 | The cubic factor lies in [1, 2) in 16-bit fixed point, with no overflow on the way |
| `AsertLaws.FactorIsCubic` | pallets/difficulty/src/asert.rs:61-77 | The factor is the cubic with coefficients 45426, 15736 and 3638 from below, by less than the six floors it is computed with |
| `AsertLaws.HalfwayFactor` | pallets/difficulty/src/asert.rs:61-77 | Half a halflife behind schedule the factor, and the target of a unit anchor, is 92637 |
| `Asert.ComputeNextTarget` | pallets/difficulty/src/asert.rs:41-121 | The target is at least one and every intermediate value fits the source's type |
| `Asert.FitsHeadroom` | pallets/difficulty/src/asert.rs:99-106 | A shift that passes the headroom test does not overflow |
| `Asert.OverflowsHeadroom` | pallets/difficulty/src/asert.rs:99-106 | A shift that fails it would |
| `Asert.ComputeIsTarget` | pallets/difficulty/src/asert.rs:41-121 | All paths together equal max(1, min(MAX, floor(q * 2^int))), precisely if the anchor is at least one or the integer exponent below 256 |
| `AsertLaws.ComputeMonotone` | pallets/difficulty/src/asert.rs:41-121 | For every anchor, zero too, the target never falls as time grows and never rises as height grows, across all seams |
| `AsertLaws.OnSchedule` | pallets/difficulty/src/asert.rs:41-121 | On schedule the target is the anchor |
| `AsertLaws.DoublesBehind` | pallets/difficulty/src/asert.rs:41-121 | At or behind schedule the target one halflife later is min(MAX, 2 * target), for every anchor |
| `AsertLaws.HalvesAhead` | pallets/difficulty/src/asert.rs:41-121 | At or ahead of schedule the target one halflife earlier is max(1, target / 2), for every anchor |
| `AsertLaws.ExactOffsets` | pallets/difficulty/src/asert.rs:41-121 | A halflife doubles the target of every anchor precisely at or behind schedule, and halves it for every anchor precisely ahead of schedule on a whole exponent step or one that leaves the factor unchanged |
| `AsertLaws.DoublingLaw` | pallets/difficulty/src/asert.rs:41-121 | One unit more of the exponent doubles the saturated target, precisely if the exponent is not negative or the highest bit the shift drops from the scaled anchor is clear and some bit stays |
| `AsertLaws.HalvingLaw` | pallets/difficulty/src/asert.rs:41-121 | One unit less halves it, precisely if the exponent is negative or the scaled anchor has headroom for one more doubling |
| `AsertLaws.ExponentStep` | pallets/difficulty/src/asert.rs:41-45 | One halflife moves the exponent by one whole unit, and by one 65536th less precisely on a step that is not clean |
| `AsertLaws.OneHalflife` | pallets/difficulty/src/asert.rs:41-121 | For one anchor: one halflife later doubles and one earlier halves the computed target exactly if a condition on the bits of anchor times factor holds |
| `AsertLaws.UncleanLaw` | pallets/difficulty/src/asert.rs:41-121 | On a step that truncation leaves one 65536th short, doubling and halving are decided by the two products of the anchor, before saturation |
| `AsertLaws.UncleanStepBreaksDoubling` | pallets/difficulty/src/asert.rs:41-121 | A concrete block whose target one halflife later is not min(MAX, 2 * target) |
| `Difficulty.Pallet.constructor` | pallets/difficulty/src/lib.rs:135-142 | Genesis sets the difficulty and the anchor target it stands for |
| `Difficulty.Pallet.OnFinalize` | pallets/difficulty/src/lib.rs:160-228 | The hook is the step of the model: first anchor, skipped blocks, new difficulty, re-anchoring |
| `Difficulty.Pallet.RealtimeDifficulty` | pallets/difficulty/src/lib.rs:243-264 | The runtime call computes the model's value without changing state |
| `Difficulty.RecordsInverse` | pallets/difficulty/src/lib.rs:160-264 | With an anchor, the block records and the runtime call returns the number of times the target of the formula goes into the maximum |
| `Difficulty.GenesisInverse` | pallets/difficulty/src/lib.rs:135-142 | Genesis records its difficulty and anchors the target that goes into the maximum that often |
| `Difficulty.AnchorMoves` | pallets/difficulty/src/lib.rs:160-228 | The first block with a timestamp is the anchor; later a block becomes it, with its own target, precisely if it comes more than the threshold after its parent; otherwise the anchor stays |
| `Difficulty.RunSound` | pallets/difficulty/src/lib.rs:160-228 | Along every run the anchor is not ahead of the chain and its target not zero |
| `Difficulty.RealtimeIsRecorded` | pallets/difficulty/src/lib.rs:160-264 | In every reachable state with an anchor, what is computed from the parent for a timestamp is what the child records |
| `Difficulty.AnchorStays` | pallets/difficulty/src/lib.rs:160-228 | A set anchor stays set |
| `Difficulty.NoMemory` | pallets/difficulty/src/lib.rs:160-228 | Between breaks the difficulty depends on the anchor and the block's own height and time only |
| `Difficulty.RecoveryHoldsDifficulty` | pallets/difficulty/src/lib.rs:160-228 | After a break every block on schedule with the recovery block has its difficulty |
| `Difficulty.LaterIsNoHarder` | pallets/difficulty/src/lib.rs:243-264 | A later timestamp never asks for more difficulty |
| `ValidatorPallet.Pallet.constructor` | pallets/validator/src/lib.rs:226-251 | Genesis seats the distinct initial accounts without stake, exempt and Active |
| `ValidatorSafety.GenesisSeats` | pallets/validator/src/lib.rs:226-251 | Exactly the initial accounts are seated, in order, Active, exempt and without stake, and handed to the session layer |
| `ValidatorPallet.Pallet.OnInitialize` | pallets/validator/src/lib.rs:322-375 | The scan and its two passes release precisely the expired locks and renew precisely the due ones, in any map order |
| `ValidatorLaws.BeginExactly` | pallets/validator/src/lib.rs:322-375 | A block releases precisely the expired locks and renews precisely the Active ones whose term is an interval or more short of a full duration |
| `ValidatorPallet.Pallet.Lock` | pallets/validator/src/lib.rs:391-475 | All refusals in order, the binding amount and expiry, and no trace of a refused call |
| `ValidatorLaws.JoinExactly` | pallets/validator/src/lib.rs:391-475 | An account is queued precisely if it is new to queue and seats, there is room, it has keys and identity, its cooldown is over and it holds the stake; it is then Active behind exactly that stake, and a refusal changes nothing |
| `ValidatorLaws.RefusalIsTrue` | pallets/validator/src/lib.rs:394-444 | A refusal gives a reason that holds |
| `ValidatorPallet.Pallet.RequestExit` | pallets/validator/src/lib.rs:487-508 | An Active account leaves the queue and stops renewing; others are refused |
| `ValidatorLaws.ExitExactly` | pallets/validator/src/lib.rs:487-508 | Precisely an Active account can exit; it leaves the queue, and seats, stake and everybody else stay |
| `ValidatorPallet.Pallet.KickValidator` | pallets/validator/src/lib.rs:608-631 | An Active account becomes Kicked, cools down and loses its offline marks; any other is left alone |
| `ValidatorPallet.Pallet.ProcessEquivocations` | pallets/validator/src/lib.rs:643-654 | Precisely the flagged Active accounts are kicked, in any order |
| `ValidatorPallet.Pallet.ProcessOfflineCounters` | pallets/validator/src/lib.rs:660-708 | Counters, kicks and marks of all seated accounts at once, independent of their order |
| `ValidatorPallet.CountedNext` | pallets/validator/src/lib.rs:664-704 | Looking at one more account changes that account only |
| `ValidatorPallet.Pallet.FillSeats` | pallets/validator/src/lib.rs:748-767 | Active seats are kept in order and the queue is drained candidate by candidate |
| `ValidatorPallet.Pallet.StartSession` | pallets/validator/src/lib.rs:721-793 | The boundary is the step of the model, and what it returns is what the session layer holds from then on |
| `ValidatorSafety.AdmitExactly` | pallets/validator/src/lib.rs:748-767 | With room for all, no push fails and the full-set drop never fires: exactly the Active candidates with keys are seated, exactly those without are dropped |
| `ValidatorSafety.JudgedLocks` | pallets/validator/src/lib.rs:608-708 | Which locks the verdicts of a boundary change, and how |
| `ValidatorSafety.BoundaryIs` | pallets/validator/src/lib.rs:721-793 | The boundary in closed form |
| `ValidatorSafety.SeatedAreActive` | pallets/validator/src/lib.rs:721-793 | Right after a boundary the seated accounts are exactly the Active ones and the queue is empty |
| `ValidatorSafety.BoundaryCount` | pallets/validator/src/lib.rs:660-708 | The offline counter of a seated account is its streak of reported sessions, and zero for anybody else |
| `ValidatorSafety.BoundarySound` | pallets/validator/src/lib.rs:721-793 | A boundary keeps the whole invariant |
| `ValidatorSafety.EveryRun` | pallets/validator/src/lib.rs:226-793 | Over every run: queue and seats without duplicates, disjoint and within the maximum; every Active account in one, no Kicked account in either; counters equal streaks; the session set equals the seated set if that has members |
| `ValidatorLaws.StakeNeverFreedEarly` | pallets/validator/src/lib.rs:322-475 | Once a record has an amount and an expiry, the currency lock holds at least that amount in every later state before that block |
| `ValidatorLaws.JoinStakes` | pallets/validator/src/lib.rs:426-467 | A successful lock queues the account behind a lock it can afford, no less than before, no less than the stake unless exempt, for no less than the duration |
| `ValidatorLaws.ExitReleases` | pallets/validator/src/lib.rs:322-508 | Over every run: an exit at b without rejoining keeps the stake up to one block in (b + LockDuration - RenewInterval, b + LockDuration] and frees it from then on |
| `ValidatorLaws.KickedExactly` | pallets/validator/src/lib.rs:579-708 | An Active account is kicked at a boundary precisely if it was flagged for equivocation or its offline streak reaches the threshold |
| `ValidatorLaws.ReportsCount` | pallets/validator/src/lib.rs:555-600 | A report before the boundary has its effect at it: a kick for equivocation, one more session in the offline streak of a seated account |
| `ValidatorLaws.MarksStay` | pallets/validator/src/lib.rs:347-355 | A block keeps exactly the offline marks and counters there were, released accounts included, and the next boundary leaves no offline or equivocation mark |
| `ValidatorLaws.ReleasedStillMarked` | pallets/validator/src/lib.rs:347-355 | A run in which an account that exited and was reported is released with its mark in place |
| `ValidatorLaws.KickedOnlyThere` | pallets/validator/src/lib.rs:608-631 | Nobody becomes Kicked elsewhere or without having been Active, and the cooldown starts with it |
| `ValidatorLaws.NoLockInCooldown` | pallets/validator/src/lib.rs:418-424 | After a kick at b no lock by that account succeeds at or before b + RejoinCooldownPeriod |
| `ValidatorLaws.SessionNeverEmpties` | pallets/validator/src/lib.rs:769-799 | The set handed to the session layer, once it has members, always has some |
| `MiningQueue.MiningHandle.OnBuild` | consensus/sc-consensus-pow/src/worker.rs:106-123 | A build joins those on its head or replaces those on another, the newest 256 stay, the version moves |
| `MiningQueue.NewestIsLast` | consensus/sc-consensus-pow/src/worker.rs:106-117 | The newest build is always stored, last |
| `MiningQueue.MiningHandle.OnMajorSyncing` | consensus/sc-consensus-pow/src/worker.rs:101-104 | The queue is cleared and the version moves |
| `MiningQueue.MiningHandle.Lookup` | consensus/sc-consensus-pow/src/worker.rs:155-161 | The metadata of the first build for a pre-hash, if any |
| `MiningQueue.MiningHandle.Take` | consensus/sc-consensus-pow/src/worker.rs:181-190 | That build is removed and returned; without one nothing changes |
| `MiningQueue.MiningHandle.Submit` | consensus/sc-consensus-pow/src/worker.rs:154-228 | An undisturbed submission: queue, number of increments and result |
| `MiningQueue.AloneSucceeds` | consensus/sc-consensus-pow/src/worker.rs:154-228 | An undisturbed submission succeeds precisely if the first build for its pre-hash is there, the seal is valid for it and the import takes it |
| `MiningQueue.AloneIsCompleted` | consensus/sc-consensus-pow/src/worker.rs:154-228 | The atomic sections, with no other step in between, are the undisturbed submission |
| `MiningQueue.OldestLeavesFirst` | consensus/sc-consensus-pow/src/worker.rs:113-116 | A build on the same head pushes out another precisely if the queue is full and that one is the oldest |
| `MiningQueue.EveryInterleaving` | consensus/sc-consensus-pow/src/worker.rs:101-228 | In every interleaving: one head, at most 256 builds in order, no build imported twice, only seals verified for the pre-hash (and for the very metadata if pre-hashes determine them), and `true` exactly for imported blocks |
| `MiningQueue.SameVersion` | consensus/sc-consensus-pow/src/worker.rs:125-131 | With equal versions the queue was not written precisely if as many writes await their increment as before |
| `MiningQueue.VersionLags` | consensus/sc-consensus-pow/src/worker.rs:125-131 | Equal versions with different tasks, while an increment is to come |
| `ClaimsPallet.Accounts.PinAll` | runtime/src/migrations/frontier.rs:195-207 | Every account with a nonce gets one provider, in any map order |
| `ClaimsPallet.Accounts.Carry` | pallets/evm-claims/src/lib.rs:220-231 | The nonce is raised to the old account's, with a provider if it leaves zero, and returned |
| `ClaimsPallet.Accounts.Lift` | pallets/evm-claims/src/lib.rs:208-215 | Only an Ethereum signer with nonce zero is lifted |
| `ClaimsPallet.Accounts.CheckNonce` | runtime/src/check_nonce.rs:75-110 | Lift, check, count and pin; a rejected transaction changes nothing |
| `Nonces.AcceptsExactly` | runtime/src/check_nonce.rs:75-110 | A transaction is accepted precisely at the signer's nonce, or at the one its address reached under Frontier if it has none yet, from an account that something keeps or that nonce will; the nonce then counts and a first one adds one provider |
| `ClaimsPallet.Accounts.RemoveSchedules` | pallets/evm-claims/src/lib.rs:251-254 | The removal loop ends with no schedule and no vesting lock |
| `ClaimsPallet.Accounts.AddAll` | pallets/evm-claims/src/lib.rs:261-271 | Unfinished schedules are added in order until a slot is missing |
| `ClaimsPallet.Accounts.MoveFunds` | pallets/evm-claims/src/lib.rs:242-273 | The move of balance and schedules, with both failures |
| `ClaimsPallet.Accounts.MoveAccount` | pallets/evm-claims/src/lib.rs:188-203 | Nonce, funds if nothing binds them, and the end of the old account |
| `ClaimsPallet.Accounts.ClaimAddress` | pallets/evm-claims/src/lib.rs:93-101 | The fee is fixed before the move and paid after it; a failed claim changes nothing |
| `Ledger.LiveSum` | pallets/evm-claims/src/lib.rs:261-264 | Schedules dropped as finished lock nothing at any later block |
| `Claims.ClaimConserves` | pallets/evm-claims/src/lib.rs:93-101 | The new account gains what the old one held, plus a deposit if it was empty, less a fee within what the old one could spend; otherwise nobody's funds change |
| `Claims.ClaimKeepsVesting` | pallets/evm-claims/src/lib.rs:242-273 | At every later block both accounts together have as much locked by vesting as before |
| `Claims.AuthorizedClaim` | pallets/evm-claims/src/lib.rs:105-126 | An authorized claim never lacks a slot, and fails precisely if something consumes an old account that only its funds keep |
| `Claims.AuthorizedExactly` | pallets/evm-claims/src/lib.rs:105-126 | A claim is authorized precisely if the schedules fit and there is a nonce to raise or unbound funds of which more than the fee can be spent |
| `Claims.AuthorizedGains` | pallets/evm-claims/src/lib.rs:105-126 | An authorized claim that succeeds brings the new account a higher nonce or more funds |
| `Claims.ClaimOnce` | pallets/evm-claims/src/lib.rs:93-126 | Right after a claim there is nothing left to claim |
| `Claims.EmptyAccountPaysInFull` | pallets/evm-claims/src/lib.rs:129-159 | An account that was empty pays the whole fee, the full claim fee if the old one could spend it, can spend at least what the old one could less the fee, and all the old one held less the fee precisely if no more than the deposit is still vesting |
| `Claims.FeeTaken` | pallets/evm-claims/src/lib.rs:129-159 | The fee is the claim fee or what the old account can spend, and is taken as far as the deposit and locks of the new account leave room |
| `Claims.VestingIsNotSpendable` | pallets/evm-claims/src/lib.rs:239-273 | A claim of ten with five vesting, after which the new account cannot spend what the old one held |
| `Claims.ClaimTouchesOnly` | pallets/evm-claims/src/lib.rs:188-203 | Nobody else's account or schedules change |
| `Claims.OldAccountGoes` | pallets/evm-claims/src/lib.rs:197-200 | Once its funds are over, the old account is gone unless something else consumes it |
| `Claims.ClaimKeepsSane` | pallets/evm-claims/src/lib.rs:242-273 | A claim keeps what the next one relies on: balances at or above the deposit, vesting locks that cover their schedules |
| `Nonces.RunSane` | pallets/evm-claims/src/lib.rs:242-273 | Along every run whose blocks do not go back and whose other pallets keep vesting locks up, everybody is as a claim relies on |
| `Nonces.EveryClaim` | pallets/evm-claims/src/lib.rs:93-126 | Every claim along every such run from the migration on conserves funds and vesting, leaves nothing to claim, and has its slots if it was authorized |
| `Nonces.PinnedSound` | runtime/src/migrations/frontier.rs:195-207 | After the migration every nonce has a provider of its own |
| `Nonces.MoveLegacyStep` | pallets/evm-claims/src/lib.rs:188-231 | What moving an old account does to every nonce and provider count |
| `Nonces.SignSound` | runtime/src/check_nonce.rs:75-110 | A signed transaction keeps the invariant and no nonce falls |
| `Nonces.NoReplay` | runtime/src/check_nonce.rs:75-110 | Over every run from the migration on: no signer's nonce falls, no (signer, nonce) is accepted twice, each signer is pinned exactly once, and no Ethereum signer is accepted below the nonce its address reached under Frontier |
| `Reward.BlockReward` | pallets/reward/src/lib.rs:86-95 | The halving loop computes floor(R / 2^(n/H)) |
| `Reward.EmissionCap` | pallets/reward/src/lib.rs:83-95 | Heights 1 to N mint at most H*(2R - popcount(R)) - R, exactly that once emission has ended, and less than 2*R*H |
| `Reward.HalvingsClosed` | pallets/reward/src/lib.rs:86-95 | R and all its halvings sum to 2R less one per set bit |
| `Reward.Pallet.OnFinalize` | pallets/reward/src/lib.rs:72-79 | The author, if any, is credited the reward, if any |
| `Reward.PaysAuthor` | pallets/reward/src/lib.rs:72-95 | A block pays its author, if the account exists or the reward opens it, exactly floor(R / 2^(n/H)) and mints exactly that; nobody else is paid |
| `Reward.ChainCap` | pallets/reward/src/lib.rs:72-95 | No chain of blocks, whoever its authors, mints past the cap |

## Left out

- Perlin noise, sculpting, the random generator and the spectral scan: floating point and an outside crate; vertex coordinates stay opaque.
- The accuracy of the cubic fit of 2^x that pallets/difficulty/src/asert.rs:10 mentions: a statement about reals that nothing in the repository relies on.
- Hashing, signatures and codecs: opaque, injective where a property needs it.
- Inherents, seal checks and header verification around the fork choice: they only decide which imports happen, and the runs range over all of them.
- The import lock of the mining handle: it only rules out interleavings, and the laws hold for all of them.
- Wrap-around of the version counter and of nonces: both would need more steps than a chain can take.
- Gas and the stack limit of the EVM: the code makes no loop, and its cost is the callee's.
- Equivocators that exit before the boundary: the source does not kick them, and no law says so.
- Accounts kept by sufficient references: only providers and consumers are counted.
- Contract code and storage in the migration, token allowances, governance, identity, fees and RPC: tables and plumbing.
- ForkChoice.Client.ImportBlock: runs use no preset fork choice, because a preset one is the caller's decision and bypasses the rule.
- ClaimsPallet.Accounts.MoveAccount: says nothing of the state after a failure, because the caller rolls it back.
- ClaimsPallet.Accounts.MoveFunds: says nothing of the state after a failure, because the caller rolls it back.
