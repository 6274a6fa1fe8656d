/** The stake side of fd_tower_threshold_check: how much stake has a threshold vote at or
    above ours, each vote account's tower being read back from its vote state. */
module Threshold {
  import opened TowerTypes
  import opened Lockout
  import opened Cluster
  import opened Stake

  /** The vote states read back for the tracked accounts (None when the account was not found)
      fit a vote deque of `votesMax` and only hold legal shift amounts. */
  predicate LoadableTowers(towers: seq<Option<ClusterTower>>, votesMax: nat)
  {
    ShiftableTowers(towers) &&
    forall i :: 0 <= i < |towers| && towers[i].Some? ==> |towers[i].value.votes| <= votesMax
  }

  /** Every vote state that was found only holds legal shift amounts. */
  predicate ShiftableTowers(towers: seq<Option<ClusterTower>>)
  {
    forall i :: 0 <= i < |towers| && towers[i].Some? ==> AllShiftable(FromLanded(towers[i].value.votes))
  }

  /** A vote account supports our threshold vote at `ourSlot` when its vote state was found and is
      non-empty, its own tower is THRESHOLD_DEPTH deep after simulating a vote for `forkSlot`,
      and its threshold vote's slot is at or above ours. */
  predicate Supports(tower: Option<ClusterTower>, forkSlot: ulong, ourSlot: ulong)
    requires tower.Some? ==> AllShiftable(FromLanded(tower.value.votes))
  {
    tower.Some? && tower.value.votes != [] &&
    var theirs := FromLanded(tower.value.votes);
    var idx := ThresholdVoteIndex(theirs, forkSlot);
    idx.Some? && theirs[idx.value].slot >= ourSlot
  }

  /** The body of fd_tower_threshold_check's loop over vote accounts: skip an account whose vote
      state is missing or empty, simulate the vote on its tower, and compare threshold votes. */
  method CheckSupport(tower: Option<ClusterTower>, forkSlot: ulong, ourSlot: ulong) returns (supports: bool)
    requires tower.Some? ==> AllShiftable(FromLanded(tower.value.votes))
    ensures supports == Supports(tower, forkSlot, ourSlot)
  {
    supports := false;
    if tower.Some? && tower.value.votes != [] {
      var theirs := FromLanded(tower.value.votes);
      var cnt := SimulateVote(theirs, forkSlot);
      supports := cnt >= THRESHOLD_DEPTH && theirs[cnt - THRESHOLD_DEPTH].slot >= ourSlot;
    }
  }

  /** Total stake of the supporting vote accounts, in order (unbounded). */
  function ThresholdStake(accs: seq<VoteAcc>, towers: seq<Option<ClusterTower>>,
                          forkSlot: ulong, ourSlot: ulong): nat
    requires |towers| == |accs|
    requires ShiftableTowers(towers)
    decreases |accs|
  {
    if accs == [] then 0
    else
      var n := |accs| - 1;
      ThresholdStake(accs[..n], towers[..n], forkSlot, ourSlot) +
        if Supports(towers[n], forkSlot, ourSlot) then accs[n].stake else 0
  }

  /** Loop step: one more account adds its stake exactly when it supports our threshold vote. */
  lemma ThresholdStakeStep(accs: seq<VoteAcc>, towers: seq<Option<ClusterTower>>,
                           forkSlot: ulong, ourSlot: ulong, i: nat)
    requires |towers| == |accs|
    requires ShiftableTowers(towers)
    requires i < |accs|
    ensures ThresholdStake(accs[..i + 1], towers[..i + 1], forkSlot, ourSlot) ==
      ThresholdStake(accs[..i], towers[..i], forkSlot, ourSlot) +
        if Supports(towers[i], forkSlot, ourSlot) then accs[i].stake else 0
    ensures Supports(towers[i], forkSlot, ourSlot) ==>
      ThresholdStake(accs[..i + 1], towers[..i + 1], forkSlot, ourSlot) % ULONG_LIMIT ==
        (ThresholdStake(accs[..i], towers[..i], forkSlot, ourSlot) % ULONG_LIMIT + accs[i].stake) % ULONG_LIMIT
  {
    assert accs[..i + 1][..i] == accs[..i];
    assert towers[..i + 1][..i] == towers[..i];
    AddMod(ThresholdStake(accs[..i], towers[..i], forkSlot, ourSlot), accs[i].stake);
  }

  /** The stake-summing loop of fd_tower_threshold_check: the supporting stake in `ulong`
      arithmetic. */
  method SupportingStake(accs: seq<VoteAcc>, towers: seq<Option<ClusterTower>>,
                         forkSlot: ulong, ourSlot: ulong) returns (stake: ulong)
    requires |towers| == |accs|
    requires ShiftableTowers(towers)
    ensures stake == ThresholdStake(accs, towers, forkSlot, ourSlot) % ULONG_LIMIT
  {
    stake := 0;
    var i := 0;
    while i < |accs|
      invariant 0 <= i <= |accs|
      invariant ShiftableTowers(towers[..i])
      invariant stake == ThresholdStake(accs[..i], towers[..i], forkSlot, ourSlot) % ULONG_LIMIT
    {
      ThresholdStakeStep(accs, towers, forkSlot, ourSlot, i);
      assert ShiftableTowers(towers[..i + 1]);
      var supports := CheckSupport(towers[i], forkSlot, ourSlot);
      if supports {
        stake := (stake + accs[i].stake) % ULONG_LIMIT;
      }
      i := i + 1;
    }
    assert accs[..|accs|] == accs;
    assert towers[..|towers|] == towers;
  }

  /** The vote accounts that support our threshold vote, in order. */
  function SupportingAccs(accs: seq<VoteAcc>, towers: seq<Option<ClusterTower>>,
                          forkSlot: ulong, ourSlot: ulong): (r: seq<VoteAcc>)
    requires |towers| == |accs|
    requires ShiftableTowers(towers)
    ensures |r| <= |accs|
    decreases |accs|
  {
    if accs == [] then []
    else
      var n := |accs| - 1;
      SupportingAccs(accs[..n], towers[..n], forkSlot, ourSlot) + if Supports(towers[n], forkSlot, ourSlot) then [accs[n]] else []
  }

  /** Every account in SupportingAccs is a tracked account that supports our threshold vote. */
  lemma {:induction false} SupportingAccsSound(accs: seq<VoteAcc>, towers: seq<Option<ClusterTower>>,
                                               forkSlot: ulong, ourSlot: ulong, a: VoteAcc)
    requires |towers| == |accs|
    requires ShiftableTowers(towers)
    requires a in SupportingAccs(accs, towers, forkSlot, ourSlot)
    ensures exists i :: 0 <= i < |accs| && accs[i] == a && Supports(towers[i], forkSlot, ourSlot)
    decreases |accs|
  {
    var n := |accs| - 1;
    if a in SupportingAccs(accs[..n], towers[..n], forkSlot, ourSlot) {
      SupportingAccsSound(accs[..n], towers[..n], forkSlot, ourSlot, a);
      var i :| 0 <= i < n && accs[..n][i] == a && Supports(towers[..n][i], forkSlot, ourSlot);
      assert accs[i] == a && towers[i] == towers[..n][i];
    } else {
      assert accs[n] == a && Supports(towers[n], forkSlot, ourSlot);
    }
  }

  /** Every supporting account is among SupportingAccs. */
  lemma {:induction false} SupportingAccsComplete(accs: seq<VoteAcc>, towers: seq<Option<ClusterTower>>,
                                                  forkSlot: ulong, ourSlot: ulong, i: nat)
    requires |towers| == |accs|
    requires ShiftableTowers(towers)
    requires i < |accs| && Supports(towers[i], forkSlot, ourSlot)
    ensures accs[i] in SupportingAccs(accs, towers, forkSlot, ourSlot)
    decreases |accs|
  {
    var n := |accs| - 1;
    if i < n {
      assert accs[..n][i] == accs[i] && towers[..n][i] == towers[i];
      SupportingAccsComplete(accs[..n], towers[..n], forkSlot, ourSlot, i);
    }
  }

  /** The threshold stake is the stake of the supporting accounts: summing conditionally is
      filtering and then summing. */
  lemma {:induction false} ThresholdStakeIsSupportingStake(accs: seq<VoteAcc>, towers: seq<Option<ClusterTower>>,
                                                           forkSlot: ulong, ourSlot: ulong)
    requires |towers| == |accs|
    requires ShiftableTowers(towers)
    ensures ThresholdStake(accs, towers, forkSlot, ourSlot) ==
      AccsStake(SupportingAccs(accs, towers, forkSlot, ourSlot))
    decreases |accs|
  {
    if accs != [] {
      var n := |accs| - 1;
      ThresholdStakeIsSupportingStake(accs[..n], towers[..n], forkSlot, ourSlot);
      AccsStakeAppend(SupportingAccs(accs[..n], towers[..n], forkSlot, ourSlot),
                      if Supports(towers[n], forkSlot, ourSlot) then [accs[n]] else []);
    }
  }

  /** The threshold stake never exceeds the tracked accounts' total stake. */
  lemma {:induction false} ThresholdStakeBounded(accs: seq<VoteAcc>, towers: seq<Option<ClusterTower>>,
                                                 forkSlot: ulong, ourSlot: ulong)
    requires |towers| == |accs|
    requires ShiftableTowers(towers)
    ensures ThresholdStake(accs, towers, forkSlot, ourSlot) <= AccsStake(accs)
    decreases |accs|
  {
    if accs != [] {
      var n := |accs| - 1;
      ThresholdStakeBounded(accs[..n], towers[..n], forkSlot, ourSlot);
    }
  }

  /** Raising our threshold slot can only lose support. */
  lemma {:induction false} ThresholdStakeAntitone(accs: seq<VoteAcc>, towers: seq<Option<ClusterTower>>,
                                                  forkSlot: ulong, lo: ulong, hi: ulong)
    requires |towers| == |accs|
    requires ShiftableTowers(towers)
    requires lo <= hi
    ensures ThresholdStake(accs, towers, forkSlot, hi) <= ThresholdStake(accs, towers, forkSlot, lo)
    decreases |accs|
  {
    if accs != [] {
      var n := |accs| - 1;
      ThresholdStakeAntitone(accs[..n], towers[..n], forkSlot, lo, hi);
    }
  }
}
