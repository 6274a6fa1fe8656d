/** The cluster's view of our tower: votes that landed in our vote account, how they map
    onto tower votes, and how our latest vote compares with the cluster's. */
module Cluster {
  import opened TowerTypes
  import opened Lockout

  function ToVote(landed: LandedVote): Vote
  {
    Vote(landed.lockout.slot, landed.lockout.confirmationCount)
  }

  /** tower_votes_from_landed_votes: the landed votes as tower votes, one for one, in order,
      with the confirmation count as `conf`. */
  function FromLanded(landed: seq<LandedVote>): (r: seq<Vote>)
    ensures |r| == |landed|
    ensures forall i :: 0 <= i < |landed| ==>
      r[i].slot == landed[i].lockout.slot && r[i].conf == landed[i].lockout.confirmationCount
    decreases |landed|
  {
    if landed == [] then []
    else FromLanded(landed[..|landed| - 1]) + [ToVote(landed[|landed| - 1])]
  }

  /** Converting a concatenation converts each part. */
  lemma {:induction false} FromLandedAppend(a: seq<LandedVote>, b: seq<LandedVote>)
    ensures FromLanded(a + b) == FromLanded(a) + FromLanded(b)
    decreases |b|
  {
    if b == [] {
      assert a + b == a;
    } else {
      assert (a + b)[..|a + b| - 1] == a + b[..|b| - 1];
      FromLandedAppend(a, b[..|b| - 1]);
    }
  }

  /** fd_tower_cluster_cmp: 0, 1 or -1 as our latest vote slot is equal to, greater than or
      less than the cluster's latest landed vote slot. */
  function ClusterCmp(local: seq<Vote>, landed: seq<LandedVote>): (r: int)
    requires local != [] && landed != []
    ensures -1 <= r <= 1
    ensures r == 0 <==> local[|local| - 1].slot == landed[|landed| - 1].lockout.slot
    ensures r == 1 <==> local[|local| - 1].slot > landed[|landed| - 1].lockout.slot
    ensures r == -1 <==> local[|local| - 1].slot < landed[|landed| - 1].lockout.slot
  {
    var localSlot := local[|local| - 1].slot;
    var clusterSlot := landed[|landed| - 1].lockout.slot;
    if localSlot == clusterSlot then 0 else if localSlot > clusterSlot then 1 else -1
  }

  /** A tower just replaced by the cluster's view compares equal to it. */
  lemma SyncedComparesEqual(landed: seq<LandedVote>)
    requires landed != []
    ensures ClusterCmp(FromLanded(landed), landed) == 0
  {
  }

  /** After voting for `slot`, the comparison is decided by `slot` alone: the tower's latest
      vote is for `slot` whether the vote was pushed or was already there. */
  lemma VotedCompares(votes: seq<Vote>, slot: ulong, landed: seq<LandedVote>)
    requires AllShiftable(votes)
    requires !(votes != [] && votes[|votes| - 1].slot == slot) ==> |Unexpired(votes, slot)| < ULONG_LIMIT - 1
    requires landed != []
    ensures var c := landed[|landed| - 1].lockout.slot;
      ClusterCmp(VoteResult(votes, slot), landed) == (if slot == c then 0 else if slot > c then 1 else -1)
  {
  }
}
