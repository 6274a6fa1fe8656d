# Tower BFT vote tower — a Dafny model

This project models the vote tower of a Solana validator's consensus component
(`src/choreo/tower/fd_tower.c`). A tower is a stack of votes `{slot, conf}`, bottom to top.
A vote for `slot` with confirmation count `conf` locks the validator out of other forks until
slot `slot + 2^conf`. The tower also keeps a root slot, the staked vote accounts of the
current epoch and their total stake.

The model covers:

- **Lockout rules** (module `Lockout`):
  - when a vote expires (`lockout_expiration_slot`);
  - `simulate_vote`, which pops expired votes off the top but stops at the first unexpired one;
  - what `fd_tower_vote` does to the tower: pop, double the lockouts of the consecutive run at
    the top, push `{slot, 1}`;
  - `fd_tower_lockout_check` as written and as intended;
  - the depth guard of `fd_tower_threshold_check`.
- **The cluster's view** (module `Cluster`): landed votes from the vote account turned into
  tower votes, and `fd_tower_cluster_cmp`.
- **Stake** (module `Stake`): the filter and sums of `fd_tower_epoch_update`.
- **Threshold stake** (module `Threshold`): the stake-summing loop of `fd_tower_threshold_check`.
- **Tower-sync encoding** (module `TowerSync`): vote slots as offsets from the root, and the
  prefix sums that decode them.
- **The tower object** (module `TowerState`, class `Tower`): the fields that the source updates
  in place (`votes`, `root`, `vote_accs`, `total_stake`) and the methods that change them.
  These are `fd_tower_vote`, `tower_votes_from_landed_votes`, `fd_tower_cluster_sync` and
  `fd_tower_epoch_update`. `fd_tower_threshold_check` and `fd_tower_to_tower_sync` are methods
  that leave the tower unchanged; the latter fills the caller's `CompactVoteStateUpdate`.

Conventions:

- `ulong` is a subset type of `nat` below 2^64. Every `ulong` sum or difference that can wrap is
  reduced modulo 2^64 explicitly. This covers the expiration slot, the total stake, the threshold
  stake and the tower-sync offsets.
- `1UL << conf` is undefined in C for `conf >= 64`, so every operation that computes an
  expiration slot requires all confirmation counts below 64 (`AllShiftable`).
  `Lockout.VotedShiftable` shows that voting keeps this true while the tower stays below 63 votes.
- The two deques (`fd_tower_votes`, `fd_tower_vote_accs`) are `seq` fields. Their capacities
  (`votesMax`, `accsMax`) are constructor parameters, because the header that fixes them
  (`fd_tower.h`) is not part of this model. A push past capacity is undefined behaviour in the
  source, so it becomes a precondition. For the same reason `ToTowerSync` requires fewer than
  2^16 votes: the source casts the vote count to `ushort` (`lockouts_len`), so a larger tower
  would get a truncated scratch allocation and the loop would write past its end.
- The model follows the build without `FD_TOWER_USE_HANDHOLDING`: those optional fatal checks
  are not modelled. Reading the tail of an empty deque dereferences NULL in that build, so
  non-empty towers are required where the source peeks at the tail.
- Ghost (the fork tree) is abstracted to its root slot and an ancestry predicate
  `isDescendant(slot, ancestor)`, both passed in as parameters.
- Vote accounts that cannot be loaded appear as `None` in the `towers` parameter of
  `ThresholdCheck`.

## Model

| member | source | states |
|---|---|---|
| `Lockout.ExpirationSlot` | src/choreo/tower/fd_tower.c:12-16 | the expiration slot is `slot + 2^conf`, or that sum minus 2^64 when it wraps; it lies above the vote's slot exactly when the sum does not wrap |
| `Lockout.Unexpired` | src/choreo/tower/fd_tower.c:70-84 | the surviving votes are a prefix of the tower; if any survive, the top survivor has not expired; every popped vote has expired (so popping stops at the first unexpired vote even if votes below it expired) |
| `Lockout.SimulateVote` | src/choreo/tower/fd_tower.c:69-84 | the loop returns one more than the number of surviving votes, a value in `[1, cnt+1]` |
| `Lockout.DoubleLockouts` | src/choreo/tower/fd_tower.c:739-750 | the doubling pass keeps the tower's length and every slot; each vote is either unchanged or has its confirmation count increased by exactly one |
| `Lockout.DoubleLockoutsAt` | src/choreo/tower/fd_tower.c:741-750 | the i-th vote from the top is incremented if and only if votes 1..i from the top have counts 1..i; otherwise it is unchanged, and so is every vote below the first mismatch |
| `Lockout.Voted` | src/choreo/tower/fd_tower.c:727-754 | after a vote, the tower height equals the simulated count; the surviving votes keep their slots and order; the new top is `{slot, 1}` |
| `Lockout.VoteResult` | src/choreo/tower/fd_tower.c:690-697 | the tower is unchanged when the latest vote is already for `slot`; in every case the new top vote is for `slot` |
| `Lockout.VotedShiftable` | src/choreo/tower/fd_tower.c:741-754 | if the surviving tower has fewer than 63 votes, voting leaves every confirmation count below 64, so later expiration slots stay defined |
| `Lockout.LockoutCheckAsWritten` | src/choreo/tower/fd_tower.c:236-277 | the check passes exactly when the storage at indices `cnt`, …, 1 holds votes on the fork (at or below the ghost root, or ancestors of the fork slot); `cnt` is the number of surviving votes |
| `Lockout.LockoutCheckAsWrittenMissesBottomVote` | src/choreo/tower/fd_tower.c:250-261 | for one unexpired vote that is not an ancestor of the fork, the as-written check never reads that vote; with zeroed storage past the tail it passes |
| `Lockout.LockoutCheck` | src/choreo/tower/fd_tower.c:247-276 | intended check: passes exactly when every vote that survives a simulated vote for the fork slot is on that fork |
| `Lockout.ThresholdVoteIndex` | src/choreo/tower/fd_tower.c:324-334 | no threshold vote exactly when the simulated tower is shallower than 8; otherwise the threshold vote is 8 below the simulated top and is a surviving vote |
| `Cluster.FromLanded` | src/choreo/tower/fd_tower.c:86-99 | one tower vote per landed vote, in order, with the landed slot and `conf = confirmation_count` |
| `Cluster.FromLandedAppend` | src/choreo/tower/fd_tower.c:89-98 | converting landed votes one push at a time is the same as converting them all: conversion distributes over concatenation |
| `Cluster.ClusterCmp` | src/choreo/tower/fd_tower.c:757-780 | result is 0, 1 or -1 exactly when the latest local vote slot is equal to, greater than or less than the latest landed vote slot |
| `Cluster.SyncedComparesEqual` | src/choreo/tower/fd_tower.c:831-841 | a tower just replaced by the cluster's votes compares equal to the cluster |
| `Cluster.VotedCompares` | src/choreo/tower/fd_tower.c:777-779 | after voting for `slot`, the comparison with the cluster is decided by `slot` alone |
| `Stake.Staked` | src/choreo/tower/fd_tower.c:593-597 | the accounts added are never more than the entries, and every one has positive stake |
| `Stake.StakedKeepsTotal` | src/choreo/tower/fd_tower.c:593-598 | dropping zero-stake entries does not change the stake sum |
| `Stake.StakedAppend` | src/choreo/tower/fd_tower.c:579-597 | filtering commutes with concatenation, so tracked accounts keep the stake map's iteration order |
| `Stake.RunningStakeIsSum` | src/choreo/tower/fd_tower.c:577-599 | the `ulong` running total `total_stake` equals the exact sum of all stakes reduced modulo 2^64 |
| `Stake.TrackedStakeIsTotal` | src/choreo/tower/fd_tower.c:577-599 | the accounts an epoch update tracks carry, modulo 2^64, the whole total stake it computes |
| `Stake.StakedMembership` | src/choreo/tower/fd_tower.c:593-596 | an account is tracked if and only if its entry is in the map with positive stake |
| `Threshold.CheckSupport` | src/choreo/tower/fd_tower.c:346-404 | an account supports the threshold vote exactly when its vote state loaded and is non-empty, its simulated tower is at least 8 deep, and its threshold vote slot is at or above ours |
| `Threshold.ThresholdStake` | src/choreo/tower/fd_tower.c:338-403 | the stake of the supporting accounts, added up in order without wrap-around; it has no contract of its own: the two lemmas below say what it equals and how large it can be |
| `Threshold.SupportingStake` | src/choreo/tower/fd_tower.c:338-403 | the loop's `ulong` total `threshold_stake` is the supporting stake reduced modulo 2^64 |
| `Threshold.ThresholdStakeIsSupportingStake` | src/choreo/tower/fd_tower.c:338-403 | adding each account's stake when it supports our threshold vote gives the total stake of exactly the supporting accounts |
| `Threshold.SupportingAccsSound` | src/choreo/tower/fd_tower.c:346-402 | every account counted is a tracked vote account that supports our threshold vote |
| `Threshold.SupportingAccsComplete` | src/choreo/tower/fd_tower.c:346-402 | every tracked vote account that supports our threshold vote is counted |
| `Threshold.ThresholdStakeBounded` | src/choreo/tower/fd_tower.c:338-406 | the threshold stake never exceeds the tracked accounts' total stake |
| `Threshold.ThresholdStakeAntitone` | src/choreo/tower/fd_tower.c:397-403 | a higher threshold slot of ours never gains support |
| `TowerSync.LockoutOffsets` | src/choreo/tower/fd_tower.c:911-923 | one lockout per vote; what the offsets and counts mean is stated by the three lemmas below |
| `TowerSync.ReplayLockoutOffsets` | src/choreo/tower/fd_tower.c:911-926 | prefix sums of the offsets from the root (mod 2^64) recover every vote slot; the confirmation counts come back modulo 256 |
| `TowerSync.ReplayLockoutOffsetsExactly` | src/choreo/tower/fd_tower.c:919-923 | with confirmation counts below 256, decoding the offsets gives back the tower exactly |
| `TowerSync.AscendingOffsetsExact` | src/choreo/tower/fd_tower.c:918-920 | for slots that never decrease and start at or above the root, no offset wraps: each is the exact slot difference, and the root plus the first i+1 offsets equals vote i's slot |
| `TowerState.Tower.constructor` | src/choreo/tower/fd_tower.c:122-133 | a new tower is zeroed: root 0, both deques empty, total stake 0 |
| `TowerState.Tower.Vote` | src/choreo/tower/fd_tower.c:686-755 | the new tower is `VoteResult(old tower, slot)`; the root and vote accounts are unchanged |
| `TowerState.Tower.PopTo` | src/choreo/tower/fd_tower.c:733-737 | the pop loop leaves exactly the bottom `cnt` votes |
| `TowerState.Tower.DoubleTopLockouts` | src/choreo/tower/fd_tower.c:739-750 | the in-place reverse loop with `prev_conf` produces `DoubleLockouts` of the old votes |
| `TowerState.Tower.PushLandedVotes` | src/choreo/tower/fd_tower.c:86-99 | the votes become the old votes followed by the converted landed votes |
| `TowerState.Tower.ClusterSync` | src/choreo/tower/fd_tower.c:819-842 | if the latest landed vote slot is nonzero, the votes become exactly the converted landed votes and the root becomes the cluster's root; otherwise the tower is untouched |
| `TowerState.Tower.EpochUpdate` | src/choreo/tower/fd_tower.c:573-601 | positive-stake accounts are appended after the existing ones; the total stake is the sum of all stakes mod 2^64; starting from no accounts, the tracked accounts' stake sums to the total |
| `TowerState.Tower.ThresholdCheck` | src/choreo/tower/fd_tower.c:320-415 | passes when the simulated tower is shallower than 8; otherwise the result is the ratio test applied to the supporting stake (mod 2^64) and the total stake |
| `TowerState.Tower.ToTowerSync` | src/choreo/tower/fd_tower.c:899-927 | fails exactly when some vote slot is below the root; otherwise the payload gets the root, the clock, `lockouts_len` = number of votes and the offset encoding; the hash is written only if the tower is non-empty |

## Left out

- `print` and `fd_tower_print`: they only produce `printf` output.
- `fd_tower_new`, `fd_tower_join`, `fd_tower_leave`, `fd_tower_delete`: shared-memory layout and alignment checks. The constructor models only the zeroed state that `fd_tower_new` leaves.
- `fd_tower_init`, `fd_tower_cluster_query`, `fd_tower_fork_update`: these call into the account manager, the blockstore and ghost, which are not part of this model. The cluster's vote state is a parameter wherever the source would query it.
- `fd_tower_switch_check`: a walk over ghost's tree followed by a floating-point ratio compared with 0.38.
- `TowerState.Tower.ThresholdCheck`: the final `threshold_pct > 2/3` comparison is done in floating point, so it is the abstract parameter `exceeds`.
- `fd_tower_best_fork_select`, `fd_tower_reset_fork_select`, `fd_tower_vote_fork_select`, `is_stale`: lookups in ghost and in the fork frontier, which are not part of this model.
- Logging (`FD_LOG_*`) and the optional `FD_TOWER_USE_HANDHOLDING` checks. Among them is the double-vote trap in `fd_tower_vote`, which stops the process.
- The commented-out code inside `fd_tower_vote_fork_select` (after its `return`) and after `fd_tower_cluster_sync`: it is not live code.
- `TowerState.Tower.ToTowerSync`: says nothing about the payload when a vote slot is below the root, because the source's `FD_TEST` aborts the process there.
- `TowerState.Tower.ToTowerSync`: the source stores the timestamp as a pointer to a local variable (`&ts`), which dangles once the function returns. The model stores the wall-clock value, which is passed in as a parameter.
- `Lockout.LockoutCheckAsWritten`: the deque template (`fd_tower.h`) is not part of this model. The model assumes that `peek_index` does no bounds check, and it leaves the content of the storage just past the tail open as the parameter `pastTail`. If `peek_index` instead returns NULL past the tail, as `peek_tail` does on an empty deque, the as-written check dereferences NULL there.
- `VoteAcc.addr`: the source stores a pointer into the epoch bank's vote-account map (`&curr->elem.key`), so the address aliases that map's entry. The model stores the key by value; no modelled operation reads the address.
- `TowerState.Tower.EpochUpdate`: it appends to `vote_accs` without clearing it, exactly as the source does. A second call therefore tracks accounts twice.
- `TowerSync.LockoutOffsets`: its own contract states only the length. Stating the decoded slots on the function itself made the proofs of `ToTowerSync` too expensive, so `ReplayLockoutOffsets`, `ReplayLockoutOffsetsExactly` and `AscendingOffsetsExact` state them instead.
- `Threshold.ThresholdStake`: it has no contract of its own, because a bound stated on the function made the loop proof too expensive. `ThresholdStakeIsSupportingStake` and `ThresholdStakeBounded` state what it equals and bound it.

## Findings

| source | as written | input that shows it | evidently intended | confidence | as-written member | corrected member |
|---|---|---|---|---|---|---|
| src/choreo/tower/fd_tower.c:250-251 | `peek_index(tower->votes, cnt--)` visits indices `cnt`, …, 1. Index `cnt` is past the tail whenever no vote expired, and index 0 is never checked | one vote `{slot 10, conf 1}`, fork slot 11 that does not descend from slot 10, ghost root 0. The vote does not expire (12 ≥ 11), yet the check never reads it: it reads index 1, past the tail, and either passes (zeroed storage there) or dereferences NULL, depending on the deque template | check indices `cnt-1`, …, 0, i.e. every surviving vote | high (not executed) | `Lockout.LockoutCheckAsWritten`, with `Lockout.LockoutCheckAsWrittenMissesBottomVote` | `Lockout.LockoutCheck` |
