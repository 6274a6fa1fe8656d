/** fd_tower_t: our vote tower (a deque of votes, bottom to top), its root, and the staked
    vote accounts of the current epoch with their total stake. */
module TowerState {
  import opened TowerTypes
  import opened Lockout
  import opened Cluster
  import opened Stake
  import opened Threshold
  import opened TowerSync

  class Tower {
    var root: ulong
    var votes: seq<Vote>
    var voteAccs: seq<VoteAcc>
    var totalStake: ulong
    /** Capacities of the two deques. */
    const votesMax: ulong
    const accsMax: nat

    ghost predicate Valid()
      reads this
    {
      |votes| <= votesMax && |voteAccs| <= accsMax
    }

    /** fd_tower_new: zeroed memory with two empty deques. */
    constructor (votesMax: ulong, accsMax: nat)
      ensures Valid() && this.votesMax == votesMax && this.accsMax == accsMax
      ensures root == 0 && votes == [] && voteAccs == [] && totalStake == 0
    {
      this.votesMax := votesMax;
      this.accsMax := accsMax;
      root := 0;
      votes := [];
      voteAccs := [];
      totalStake := 0;
    }

    /** fd_tower_vote: vote for `slot`. Nothing changes when the latest vote is already for
        `slot`; otherwise expired votes are popped, the top run's lockouts doubled and
        {slot, 1} pushed. */
    method Vote(slot: ulong)
      requires Valid()
      requires AllShiftable(votes)
      requires !(votes != [] && votes[|votes| - 1].slot == slot) ==>
        |Unexpired(votes, slot)| < votesMax
      modifies this
      ensures Valid()
      ensures votes == VoteResult(old(votes), slot)
      ensures root == old(root) && voteAccs == old(voteAccs) && totalStake == old(totalStake)
    {
      if votes != [] && votes[|votes| - 1].slot == slot {
        return;
      }

      var cnt := Lockout.SimulateVote(votes, slot);
      cnt := cnt - 1;
      PopTo(cnt);
      assert votes == Unexpired(old(votes), slot);
      DoubleTopLockouts();
      votes := votes + [TowerTypes.Vote(slot, 1)];
      assert votes == Voted(old(votes), slot);
    }

    /** The pop loop of fd_tower_vote: pop votes off the top until `cnt` are left. */
    method PopTo(cnt: nat)
      requires cnt <= |votes|
      modifies this
      ensures votes == old(votes)[..cnt]
      ensures root == old(root) && voteAccs == old(voteAccs) && totalStake == old(totalStake)
    {
      while |votes| > cnt
        invariant cnt <= |votes| <= |old(votes)|
        invariant votes == old(votes)[..|votes|]
        invariant root == old(root) && voteAccs == old(voteAccs) && totalStake == old(totalStake)
      {
        votes := votes[..|votes| - 1];
      }
    }

    /** The lockout-doubling loop of fd_tower_vote: walk down from the top, incrementing each
        vote's confirmation count while the counts read 1, 2, ... from the top. */
    method DoubleTopLockouts()
      requires |votes| < votesMax
      modifies this
      ensures votes == DoubleLockouts(old(votes))
      ensures root == old(root) && voteAccs == old(voteAccs) && totalStake == old(totalStake)
    {
      ghost var u := votes;
      var prevConf := 0;
      var i := |votes|;
      while i > 0
        invariant 0 <= i <= |u| == |votes|
        invariant prevConf == |u| - i
        invariant votes[..i] == u[..i]
        invariant forall j :: i <= j < |u| ==> votes[j].slot == u[j].slot && votes[j].conf == u[j].conf + 1
        invariant forall t :: 1 <= t <= |u| - i ==> FromTop(u, t).conf == t
        invariant root == old(root) && voteAccs == old(voteAccs) && totalStake == old(totalStake)
      {
        if votes[i - 1].conf != prevConf + 1 {
          break;
        }
        assert FromTop(u, |u| - i + 1) == u[i - 1];
        votes := votes[i - 1 := votes[i - 1].(conf := votes[i - 1].conf + 1)];
        prevConf := prevConf + 1;
        i := i - 1;
      }
      assert i > 0 ==> FromTop(u, |u| - i + 1) == u[i - 1];
      RunUnique(u, |u| - i);
    }

    /** tower_votes_from_landed_votes: push the landed votes onto the tower, in order. */
    method PushLandedVotes(landed: seq<LandedVote>)
      requires Valid()
      requires |votes| + |landed| <= votesMax
      modifies this
      ensures Valid()
      ensures votes == old(votes) + FromLanded(landed)
      ensures root == old(root) && voteAccs == old(voteAccs) && totalStake == old(totalStake)
    {
      var i := 0;
      while i < |landed|
        invariant 0 <= i <= |landed|
        invariant votes == old(votes) + FromLanded(landed[..i])
        invariant root == old(root) && voteAccs == old(voteAccs) && totalStake == old(totalStake)
      {
        assert landed[..i + 1][..i] == landed[..i];
        votes := votes + [ToVote(landed[i])];
        i := i + 1;
      }
      assert landed[..|landed|] == landed;
    }

    /** fd_tower_cluster_sync: when the cluster's latest landed vote is for a nonzero slot,
        replace our votes by the cluster's and our root by its root; otherwise do nothing. */
    method ClusterSync(cluster: ClusterTower)
      requires Valid()
      requires cluster.votes != []
      requires cluster.votes[|cluster.votes| - 1].lockout.slot != 0 ==> |cluster.votes| <= votesMax
      modifies this
      ensures Valid()
      ensures cluster.votes[|cluster.votes| - 1].lockout.slot != 0 ==>
        votes == FromLanded(cluster.votes) && root == cluster.rootSlot
      ensures cluster.votes[|cluster.votes| - 1].lockout.slot == 0 ==>
        votes == old(votes) && root == old(root)
      ensures voteAccs == old(voteAccs) && totalStake == old(totalStake)
    {
      var latest := cluster.votes[|cluster.votes| - 1];
      if latest.lockout.slot != 0 {
        votes := [];
        PushLandedVotes(cluster.votes);
        root := cluster.rootSlot;
      }
    }

    /** fd_tower_epoch_update: append the accounts with positive stake, in the stake map's
        order, after the existing ones, and set the total stake to the sum of every entry's
        stake, in `ulong` arithmetic. */
    method EpochUpdate(entries: seq<StakeEntry>)
      requires Valid()
      requires |voteAccs| + |Staked(entries)| <= accsMax
      modifies this
      ensures Valid()
      ensures voteAccs == old(voteAccs) + Staked(entries)
      ensures totalStake == StakeSum(entries) % ULONG_LIMIT
      ensures old(voteAccs) == [] ==> AccsStake(voteAccs) % ULONG_LIMIT == totalStake
      ensures votes == old(votes) && root == old(root)
    {
      var total: ulong := 0;
      var i := 0;
      while i < |entries|
        invariant 0 <= i <= |entries|
        invariant voteAccs == old(voteAccs) + Staked(entries[..i])
        invariant total == RunningStake(entries[..i])
        invariant votes == old(votes) && root == old(root)
      {
        var e := entries[i];
        StakeStep(entries, i);
        if e.stake > 0 {
          voteAccs := voteAccs + [AsVoteAcc(e)];
        }
        total := (total + e.stake) % ULONG_LIMIT;
        i := i + 1;
      }
      assert entries[..|entries|] == entries;
      RunningStakeIsSum(entries);
      if old(voteAccs) == [] {
        TrackedFromEmpty(old(voteAccs), entries);
      }
      totalStake := total;
    }

    /** fd_tower_threshold_check: passes at once when our simulated tower is shallower than
        THRESHOLD_DEPTH; otherwise decided by `exceeds` (the floating-point stake ratio test)
        on the supporting stake, summed in `ulong` arithmetic, and the total stake. */
    method ThresholdCheck(forkSlot: ulong, towers: seq<Option<ClusterTower>>,
                          exceeds: (ulong, ulong) -> bool)
      returns (ok: bool)
      requires AllShiftable(votes)
      requires |towers| == |voteAccs|
      requires LoadableTowers(towers, votesMax)
      ensures ThresholdVoteIndex(votes, forkSlot).None? ==> ok
      ensures ThresholdVoteIndex(votes, forkSlot).Some? ==>
        var ourSlot := votes[ThresholdVoteIndex(votes, forkSlot).value].slot;
        ok == exceeds(ThresholdStake(voteAccs, towers, forkSlot, ourSlot) % ULONG_LIMIT, totalStake)
    {
      var cnt := Lockout.SimulateVote(votes, forkSlot);
      if cnt < THRESHOLD_DEPTH {
        return true;
      }
      var ourSlot := votes[cnt - THRESHOLD_DEPTH].slot;

      var stake := SupportingStake(voteAccs, towers, forkSlot, ourSlot);
      ok := exceeds(stake, totalStake);
    }

    /** fd_tower_to_tower_sync: fill the caller's tower-sync payload with our root, the wall
        clock, and one lockout offset per vote. Fails (the source aborts) when a vote slot is
        below the root. The bank hash is copied once per vote, so not at all for an empty tower. */
    method ToTowerSync(bankHash: Hash, wallclock: int, sync: CompactVoteStateUpdate) returns (ok: bool)
      requires |votes| < USHORT_LIMIT
      modifies sync
      ensures ok <==> forall i :: 0 <= i < |votes| ==> votes[i].slot >= root
      ensures ok ==> sync.root == root && sync.timestamp == wallclock && sync.lockoutsLen == |votes|
      ensures ok ==> fresh(sync.lockouts) && sync.lockouts[..] == LockoutOffsets(root, votes)
      ensures ok ==> sync.hash == if votes == [] then old(sync.hash) else bankHash
    {
      sync.root := root;
      sync.timestamp := wallclock;
      sync.lockoutsLen := |votes| % USHORT_LIMIT;
      var lockouts := new LockoutOffset[sync.lockoutsLen];
      sync.lockouts := lockouts;

      var i := 0;
      var currSlot := sync.root;
      while i < |votes|
        invariant 0 <= i <= |votes|
        invariant sync.root == root && sync.timestamp == wallclock && sync.lockoutsLen == |votes|
        invariant sync.lockouts == lockouts && lockouts.Length == |votes|
        invariant currSlot == if i == 0 then root else votes[i - 1].slot
        invariant forall j :: 0 <= j < i ==> votes[j].slot >= root
        invariant forall j :: 0 <= j < i ==> lockouts[j] == LockoutOffsets(root, votes)[j]
        invariant sync.hash == if i == 0 then old(sync.hash) else bankHash
      {
        var vote := votes[i];
        if vote.slot < sync.root {
          return false;
        }
        var offset := SubWrap(vote.slot, currSlot);
        currSlot := vote.slot;
        lockouts[i] := LockoutOffset(offset, vote.conf % UCHAR_LIMIT);
        sync.hash := bankHash;
        i := i + 1;
      }
      return true;
    }
  }
}
