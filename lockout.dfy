/** Tower BFT lockout rules over a tower's votes (bottom to top): when a vote expires,
    what voting does to the tower, and the lockout and threshold-depth checks. */
module Lockout {
  import opened TowerTypes

  const THRESHOLD_DEPTH: nat := 8

  /** lockout_expiration_slot: `slot + (1UL << conf)` in `ulong` arithmetic, which wraps. */
  function ExpirationSlot(v: Vote): (r: ulong)
    requires v.conf < 64
    ensures r == v.slot + Pow2(v.conf) || r + ULONG_LIMIT == v.slot + Pow2(v.conf)
    ensures r > v.slot <==> v.slot + Pow2(v.conf) < ULONG_LIMIT
  {
    Pow2Below(v.conf);
    (v.slot + Pow2(v.conf)) % ULONG_LIMIT
  }

  /** A vote is expired at `slot` when its lockout ends strictly before `slot`. */
  predicate Expired(v: Vote, slot: ulong)
    requires v.conf < 64
  {
    ExpirationSlot(v) < slot
  }

  /** The votes left after popping expired votes off the top, stopping at the first
      unexpired one even if votes below it have expired. */
  function Unexpired(votes: seq<Vote>, slot: ulong): (r: seq<Vote>)
    requires AllShiftable(votes)
    ensures r <= votes
    ensures r != [] ==> !Expired(r[|r| - 1], slot)
    ensures forall i :: |r| <= i < |votes| ==> Expired(votes[i], slot)
    decreases |votes|
  {
    if votes == [] then []
    else if !Expired(votes[|votes| - 1], slot) then votes
    else Unexpired(votes[..|votes| - 1], slot)
  }

  /** simulate_vote: the height the tower would have after voting for `slot`. */
  method SimulateVote(votes: seq<Vote>, slot: ulong) returns (cnt: nat)
    requires AllShiftable(votes)
    ensures cnt == |Unexpired(votes, slot)| + 1
    ensures 1 <= cnt <= |votes| + 1
  {
    cnt := |votes|;
    assert votes[..cnt] == votes;
    while cnt > 0
      invariant cnt <= |votes|
      invariant Unexpired(votes[..cnt], slot) == Unexpired(votes, slot)
    {
      if ExpirationSlot(votes[cnt - 1]) >= slot {
        UnexpiredStep(votes, slot, cnt);
        break;
      }
      UnexpiredStep(votes, slot, cnt);
      cnt := cnt - 1;
    }
    cnt := cnt + 1;
  }

  /** One step of the pop loop: the prefix of height `cnt` is kept whole when its top vote is
      unexpired, and loses that vote otherwise. */
  lemma UnexpiredStep(votes: seq<Vote>, slot: ulong, cnt: nat)
    requires AllShiftable(votes)
    requires 0 < cnt <= |votes|
    ensures !Expired(votes[cnt - 1], slot) ==> Unexpired(votes[..cnt], slot) == votes[..cnt]
    ensures Expired(votes[cnt - 1], slot) ==>
      Unexpired(votes[..cnt], slot) == Unexpired(votes[..cnt - 1], slot)
  {
    assert votes[..cnt][..cnt - 1] == votes[..cnt - 1];
  }

  /** The i-th vote from the top of the tower, 1-based. */
  function FromTop(votes: seq<Vote>, i: nat): Vote
    requires 1 <= i <= |votes|
  {
    votes[|votes| - i]
  }

  /** Length of the run at the top of the tower whose confirmation counts read j, j+1, ...
      counting positions from the top (1-based). */
  function RunFrom(votes: seq<Vote>, j: nat): (k: nat)
    requires 1 <= j <= |votes| + 1
    ensures j - 1 <= k <= |votes|
    ensures forall i :: j <= i <= k ==> FromTop(votes, i).conf == i
    ensures k < |votes| ==> FromTop(votes, k + 1).conf != k + 1
    decreases |votes| - j + 1
  {
    if j <= |votes| && FromTop(votes, j).conf == j then RunFrom(votes, j + 1) else j - 1
  }

  /** The number of top votes whose confirmation counts read 1, 2, ..., k from the top down. */
  function ConsecutiveRun(votes: seq<Vote>): nat
  {
    RunFrom(votes, 1)
  }

  /** The run at the top is the longest one: any k with the run property and a mismatch
      (or the bottom) right below it is the run length. */
  lemma RunUnique(votes: seq<Vote>, k: nat)
    requires k <= |votes|
    requires forall i :: 1 <= i <= k ==> FromTop(votes, i).conf == i
    requires k < |votes| ==> FromTop(votes, k + 1).conf != k + 1
    ensures ConsecutiveRun(votes) == k
  {
  }

  /** The lockout-doubling pass of fd_tower_vote: increment the confirmation count of each
      vote of the top run, leave the rest as they are. */
  function DoubleLockouts(votes: seq<Vote>): (r: seq<Vote>)
    requires |votes| < ULONG_LIMIT - 1
    ensures |r| == |votes|
    ensures forall i :: 0 <= i < |votes| ==> r[i].slot == votes[i].slot
    ensures forall i :: 0 <= i < |votes| ==>
      r[i] == votes[i] || r[i].conf == votes[i].conf + 1
  {
    var k := ConsecutiveRun(votes);
    seq(|votes|, i requires 0 <= i < |votes| =>
      if i >= |votes| - k then
        assert FromTop(votes, |votes| - i).conf == |votes| - i;
        votes[i].(conf := votes[i].conf + 1)
      else votes[i])
  }

  /** Walking down from the top, the i-th vote (1-based) has its confirmation count
      incremented exactly when the votes 1..i from the top read 1..i; otherwise it is unchanged. */
  lemma DoubleLockoutsAt(votes: seq<Vote>, i: nat)
    requires |votes| < ULONG_LIMIT - 1
    requires 1 <= i <= |votes|
    ensures var r := DoubleLockouts(votes);
      (forall j :: 1 <= j <= i ==> FromTop(votes, j).conf == j) <==>
        FromTop(r, i).conf == FromTop(votes, i).conf + 1
    ensures var r := DoubleLockouts(votes);
      !(forall j :: 1 <= j <= i ==> FromTop(votes, j).conf == j) ==> FromTop(r, i) == FromTop(votes, i)
  {
    var k := ConsecutiveRun(votes);
    if i > k {
      assert FromTop(votes, k + 1).conf != k + 1;
    }
  }

  /** The tower after fd_tower_vote for a slot other than the latest vote's: expired votes
      popped, the top run's lockouts doubled, then {slot, 1} pushed. */
  function Voted(votes: seq<Vote>, slot: ulong): (r: seq<Vote>)
    requires AllShiftable(votes)
    requires |Unexpired(votes, slot)| < ULONG_LIMIT - 1
    ensures |r| == |Unexpired(votes, slot)| + 1
    ensures r[|r| - 1] == Vote(slot, 1)
    ensures forall i :: 0 <= i < |r| - 1 ==> r[i].slot == votes[i].slot
  {
    DoubleLockouts(Unexpired(votes, slot)) + [Vote(slot, 1)]
  }

  /** fd_tower_vote on a tower: nothing changes when the latest vote is already for `slot`. */
  function VoteResult(votes: seq<Vote>, slot: ulong): (r: seq<Vote>)
    requires AllShiftable(votes)
    requires !(votes != [] && votes[|votes| - 1].slot == slot) ==> |Unexpired(votes, slot)| < ULONG_LIMIT - 1
    ensures r != [] && r[|r| - 1].slot == slot
    ensures votes != [] && votes[|votes| - 1].slot == slot ==> r == votes
  {
    if votes != [] && votes[|votes| - 1].slot == slot then votes else Voted(votes, slot)
  }

  /** Voting keeps every shift amount legal while the surviving tower is below 63 votes:
      a doubled count is at most the run length plus one. */
  lemma VotedShiftable(votes: seq<Vote>, slot: ulong)
    requires AllShiftable(votes)
    requires |Unexpired(votes, slot)| < 63
    ensures AllShiftable(Voted(votes, slot))
  {
    var u := Unexpired(votes, slot);
    var d := DoubleLockouts(u);
    var r := Voted(votes, slot);
    forall i | 0 <= i < |r|
      ensures r[i].conf < 64
    {
      if i < |u| {
        DoubleLockoutsAt(u, |u| - i);
        if d[i] != u[i] {
          assert FromTop(u, |u| - i).conf == |u| - i;
        }
      }
    }
  }

  /** A previous vote does not lock `forkSlot` out when it is at or below the ghost root
      (ancestry no longer known) or `forkSlot` descends from it. */
  predicate OnFork(v: Vote, forkSlot: ulong, ghostRoot: ulong, isDescendant: (ulong, ulong) -> bool)
  {
    !(v.slot > ghostRoot && !isDescendant(forkSlot, v.slot))
  }

  /** fd_tower_votes_peek_index: the deque's storage at logical index i. The deque template is
      not part of this model; it is assumed to do no bounds check, so index |votes| reads the
      storage just past the tail, whose content `pastTail` the model does not track. */
  function PeekIndex(votes: seq<Vote>, i: nat, pastTail: Vote): Vote
    requires i <= |votes|
  {
    if i < |votes| then votes[i] else pastTail
  }

  /** fd_tower_lockout_check as written: visits indices cnt, cnt-1, ..., 1 where cnt is the
      number of votes left after simulating a vote for `forkSlot`. */
  method LockoutCheckAsWritten(votes: seq<Vote>, forkSlot: ulong, ghostRoot: ulong,
                               isDescendant: (ulong, ulong) -> bool, pastTail: Vote)
    returns (ok: bool)
    requires AllShiftable(votes)
    ensures var cnt := |Unexpired(votes, forkSlot)|;
      ok <==> forall i :: 1 <= i <= cnt ==>
        OnFork(PeekIndex(votes, i, pastTail), forkSlot, ghostRoot, isDescendant)
  {
    var cnt := SimulateVote(votes, forkSlot);
    cnt := cnt - 1;
    ghost var top := cnt;
    while cnt > 0
      invariant cnt <= top
      invariant forall i :: cnt < i <= top ==>
        OnFork(PeekIndex(votes, i, pastTail), forkSlot, ghostRoot, isDescendant)
    {
      var vote := PeekIndex(votes, cnt, pastTail);
      cnt := cnt - 1;
      if vote.slot > ghostRoot && !isDescendant(forkSlot, vote.slot) {
        return false;
      }
    }
    return true;
  }

  /** The as-written check never reads the bottom surviving vote, so it can pass a fork that
      this vote locks out. Here one unexpired vote for slot 10 (lockout until 12) is not an
      ancestor of fork slot 11, and the zeroed storage past the tail is on every fork. */
  lemma LockoutCheckAsWrittenMissesBottomVote()
    ensures var votes := [Vote(10, 1)];
      var isDescendant := (s: ulong, a: ulong) => false;
      |Unexpired(votes, 11)| == 1 &&
      !OnFork(votes[0], 11, 0, isDescendant) &&
      (forall i :: 1 <= i <= |Unexpired(votes, 11)| ==>
         OnFork(PeekIndex(votes, i, Vote(0, 0)), 11, 0, isDescendant))
  {
    var votes := [Vote(10, 1)];
    assert ExpirationSlot(votes[0]) == 12;
    assert Unexpired(votes, 11) == votes;
  }

  /** fd_tower_lockout_check as intended: `forkSlot` is not locked out exactly when every
      vote that survives a simulated vote for it is on the fork. */
  method LockoutCheck(votes: seq<Vote>, forkSlot: ulong, ghostRoot: ulong,
                      isDescendant: (ulong, ulong) -> bool)
    returns (ok: bool)
    requires AllShiftable(votes)
    ensures var cnt := |Unexpired(votes, forkSlot)|;
      ok <==> forall i :: 0 <= i < cnt ==> OnFork(votes[i], forkSlot, ghostRoot, isDescendant)
  {
    var cnt := SimulateVote(votes, forkSlot);
    cnt := cnt - 1;
    ghost var top := cnt;
    while cnt > 0
      invariant cnt <= top
      invariant forall i :: cnt <= i < top ==> OnFork(votes[i], forkSlot, ghostRoot, isDescendant)
    {
      cnt := cnt - 1;
      var vote := votes[cnt];
      if vote.slot > ghostRoot && !isDescendant(forkSlot, vote.slot) {
        return false;
      }
    }
    return true;
  }

  /** The depth guard of fd_tower_threshold_check: None when the simulated tower is shallower
      than THRESHOLD_DEPTH (the check passes at once), otherwise the index of the vote
      THRESHOLD_DEPTH below the simulated top, which is always a surviving vote. */
  function ThresholdVoteIndex(votes: seq<Vote>, slot: ulong): (r: Option<nat>)
    requires AllShiftable(votes)
    ensures r.None? <==> |Unexpired(votes, slot)| + 1 < THRESHOLD_DEPTH
    ensures r.Some? ==> r.value + THRESHOLD_DEPTH == |Unexpired(votes, slot)| + 1
    ensures r.Some? ==> r.value < |Unexpired(votes, slot)| <= |votes|
  {
    var cnt := |Unexpired(votes, slot)| + 1;
    if cnt < THRESHOLD_DEPTH then None else Some(cnt - THRESHOLD_DEPTH)
  }
}
