/** Stake bookkeeping of fd_tower_epoch_update: the epoch's total stake and the staked
    vote accounts the tower tracks, in the stake map's iteration order. */
module Stake {
  import opened TowerTypes

  /** Sum of every entry's stake, zero stakes included (unbounded). */
  function StakeSum(entries: seq<StakeEntry>): nat
    decreases |entries|
  {
    if entries == [] then 0
    else StakeSum(entries[..|entries| - 1]) + entries[|entries| - 1].stake
  }

  /** Sum of the tracked vote accounts' stakes (unbounded). */
  function AccsStake(accs: seq<VoteAcc>): nat
    decreases |accs|
  {
    if accs == [] then 0
    else AccsStake(accs[..|accs| - 1]) + accs[|accs| - 1].stake
  }

  /** Reducing a running sum modulo 2^64 at every step gives the same result as reducing once. */
  lemma AddMod(a: nat, b: nat)
    ensures (a % ULONG_LIMIT + b) % ULONG_LIMIT == (a + b) % ULONG_LIMIT
  {
    var q := a / ULONG_LIMIT;
    var r := a % ULONG_LIMIT;
    assert a == q * ULONG_LIMIT + r;
    assert (q * ULONG_LIMIT + r + b) % ULONG_LIMIT == (r + b) % ULONG_LIMIT;
  }

  /** The running `ulong` total of the entries' stakes, as fd_tower_epoch_update adds them up. */
  function RunningStake(entries: seq<StakeEntry>): ulong
    decreases |entries|
  {
    if entries == [] then 0
    else (RunningStake(entries[..|entries| - 1]) + entries[|entries| - 1].stake) % ULONG_LIMIT
  }

  /** The running `ulong` total is the exact total reduced modulo 2^64. */
  lemma {:induction false} RunningStakeIsSum(entries: seq<StakeEntry>)
    ensures RunningStake(entries) == StakeSum(entries) % ULONG_LIMIT
    decreases |entries|
  {
    if entries != [] {
      var init := entries[..|entries| - 1];
      RunningStakeIsSum(init);
      AddMod(StakeSum(init), entries[|entries| - 1].stake);
    }
  }

  function AsVoteAcc(e: StakeEntry): VoteAcc
  {
    VoteAcc(e.key, e.stake)
  }

  /** The vote accounts fd_tower_epoch_update appends: entries with positive stake, in order. */
  function Staked(entries: seq<StakeEntry>): (r: seq<VoteAcc>)
    ensures |r| <= |entries|
    ensures forall i :: 0 <= i < |r| ==> r[i].stake > 0
    decreases |entries|
  {
    if entries == [] then []
    else
      var e := entries[|entries| - 1];
      Staked(entries[..|entries| - 1]) + if e.stake > 0 then [AsVoteAcc(e)] else []
  }

  /** Loop step of fd_tower_epoch_update: one more entry adds its stake to the sum, and is
      tracked when its stake is positive. */
  lemma StakeStep(entries: seq<StakeEntry>, i: nat)
    requires i < |entries|
    ensures RunningStake(entries[..i + 1]) == (RunningStake(entries[..i]) + entries[i].stake) % ULONG_LIMIT
    ensures Staked(entries[..i + 1]) ==
      Staked(entries[..i]) + if entries[i].stake > 0 then [AsVoteAcc(entries[i])] else []
  {
    assert entries[..i + 1][..i] == entries[..i];
  }

  /** Dropping the zero-stake entries does not change the total. */
  lemma {:induction false} StakedKeepsTotal(entries: seq<StakeEntry>)
    ensures AccsStake(Staked(entries)) == StakeSum(entries)
    decreases |entries|
  {
    if entries != [] {
      var init := entries[..|entries| - 1];
      var e := entries[|entries| - 1];
      StakedKeepsTotal(init);
      AccsStakeAppend(Staked(init), if e.stake > 0 then [AsVoteAcc(e)] else []);
    }
  }

  /** The accounts an epoch update tracks carry the whole total stake, in `ulong` arithmetic. */
  lemma TrackedStakeIsTotal(entries: seq<StakeEntry>)
    ensures AccsStake(Staked(entries)) % ULONG_LIMIT == StakeSum(entries) % ULONG_LIMIT
  {
    StakedKeepsTotal(entries);
  }

  /** TrackedStakeIsTotal for a deque that held no accounts before the update. */
  lemma TrackedFromEmpty(accs: seq<VoteAcc>, entries: seq<StakeEntry>)
    requires accs == []
    ensures AccsStake(accs + Staked(entries)) % ULONG_LIMIT == StakeSum(entries) % ULONG_LIMIT
  {
    assert accs + Staked(entries) == Staked(entries);
    TrackedStakeIsTotal(entries);
  }

  lemma {:induction false} AccsStakeAppend(a: seq<VoteAcc>, b: seq<VoteAcc>)
    ensures AccsStake(a + b) == AccsStake(a) + AccsStake(b)
    decreases |b|
  {
    if b != [] {
      assert (a + b)[..|a + b| - 1] == a + b[..|b| - 1];
      AccsStakeAppend(a, b[..|b| - 1]);
    } else {
      assert a + b == a;
    }
  }

  /** Filtering commutes with concatenation, so the accounts keep the map's iteration order. */
  lemma {:induction false} StakedAppend(a: seq<StakeEntry>, b: seq<StakeEntry>)
    ensures Staked(a + b) == Staked(a) + Staked(b)
    decreases |b|
  {
    if b == [] {
      assert a + b == a;
    } else {
      assert (a + b)[..|a + b| - 1] == a + b[..|b| - 1];
      StakedAppend(a, b[..|b| - 1]);
    }
  }

  /** An account is tracked exactly when its entry is in the map with positive stake. */
  lemma {:induction false} StakedMembership(entries: seq<StakeEntry>, acc: VoteAcc)
    ensures acc in Staked(entries) <==> acc.stake > 0 && StakeEntry(acc.addr, acc.stake) in entries
    decreases |entries|
  {
    if entries != [] {
      var init := entries[..|entries| - 1];
      StakedMembership(init, acc);
      assert entries == init + [entries[|entries| - 1]];
    }
  }
}
