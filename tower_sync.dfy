/** The compact tower-sync vote transaction payload: each vote slot is sent as an offset from
    the previous vote's slot (the root for the first vote), with its confirmation count. */
module TowerSync {
  import opened TowerTypes

  /** `a - b` in `ulong` arithmetic. */
  function SubWrap(a: ulong, b: ulong): ulong
  {
    (a - b) % ULONG_LIMIT
  }

  /** `a + b` in `ulong` arithmetic. */
  function AddWrap(a: ulong, b: ulong): ulong
  {
    (a + b) % ULONG_LIMIT
  }

  /** Adding back a wrapped difference recovers the minuend. */
  lemma AddSubWrap(prev: ulong, slot: ulong)
    ensures AddWrap(prev, SubWrap(slot, prev)) == slot
    ensures slot >= prev ==> SubWrap(slot, prev) == slot - prev
  {
    if slot >= prev {
      assert SubWrap(slot, prev) == slot - prev;
    } else {
      assert SubWrap(slot, prev) == slot - prev + ULONG_LIMIT;
      assert prev + SubWrap(slot, prev) == slot + ULONG_LIMIT;
    }
  }

  /** The slot a vote's offset is taken from: the root for the first vote, else the previous vote's. */
  function PrevSlot(root: ulong, votes: seq<Vote>, i: nat): ulong
    requires i < |votes|
  {
    if i == 0 then root else votes[i - 1].slot
  }

  /** The lockouts fd_tower_to_tower_sync writes: wrapped slot differences, and each vote's
      `conf` cast to `uchar`. */
  function LockoutOffsets(root: ulong, votes: seq<Vote>): (r: seq<LockoutOffset>)
    ensures |r| == |votes|
  {
    seq(|votes|, i requires 0 <= i < |votes| =>
      LockoutOffset(SubWrap(votes[i].slot, PrevSlot(root, votes, i)), votes[i].conf % UCHAR_LIMIT))
  }

  /** The receiving side: prefix sums of the offsets from the root give back the vote slots. */
  function Replay(prev: ulong, offsets: seq<LockoutOffset>): (r: seq<Vote>)
    ensures |r| == |offsets|
    decreases |offsets|
  {
    if offsets == [] then []
    else
      var s := AddWrap(prev, offsets[0].offset);
      [Vote(s, offsets[0].confirmationCount)] + Replay(s, offsets[1..])
  }

  /** Replaying the offsets from the root recovers every vote slot, and every confirmation
      count modulo 256 (so exactly, for counts below 256). */
  lemma {:induction false} ReplayLockoutOffsets(root: ulong, votes: seq<Vote>)
    ensures var r := Replay(root, LockoutOffsets(root, votes));
      |r| == |votes| &&
      forall i :: 0 <= i < |votes| ==> r[i] == Vote(votes[i].slot, votes[i].conf % UCHAR_LIMIT)
    decreases |votes|
  {
    if votes != [] {
      var offsets := LockoutOffsets(root, votes);
      var s := votes[0].slot;
      AddSubWrap(root, s);
      assert offsets[1..] == LockoutOffsets(s, votes[1..]);
      ReplayLockoutOffsets(s, votes[1..]);
      var r := Replay(root, offsets);
      assert r == [Vote(s, votes[0].conf % UCHAR_LIMIT)] + Replay(s, offsets[1..]);
      forall i | 0 <= i < |votes|
        ensures r[i] == Vote(votes[i].slot, votes[i].conf % UCHAR_LIMIT)
      {
        if i > 0 {
          assert r[i] == Replay(s, offsets[1..])[i - 1];
        }
      }
    }
  }

  /** Confirmation counts below 256 survive the `uchar` cast, so the encoding round-trips. */
  lemma ReplayLockoutOffsetsExactly(root: ulong, votes: seq<Vote>)
    requires forall i :: 0 <= i < |votes| ==> votes[i].conf < UCHAR_LIMIT
    ensures Replay(root, LockoutOffsets(root, votes)) == votes
  {
    ReplayLockoutOffsets(root, votes);
  }

  /** Votes whose slots are non-decreasing and at least the root. */
  predicate AscendingFrom(root: ulong, votes: seq<Vote>)
  {
    forall i :: 0 <= i < |votes| ==> PrevSlot(root, votes, i) <= votes[i].slot
  }

  /** Sum of the offsets, without wrap-around. */
  function OffsetSum(offsets: seq<LockoutOffset>): nat
    decreases |offsets|
  {
    if offsets == [] then 0 else OffsetSum(offsets[..|offsets| - 1]) + offsets[|offsets| - 1].offset
  }

  /** For ascending votes no offset wraps: each offset is the exact slot difference, and the
      root plus the first i+1 offsets is exactly the i-th vote slot. */
  lemma {:induction false} AscendingOffsetsExact(root: ulong, votes: seq<Vote>, i: nat)
    requires AscendingFrom(root, votes)
    requires i < |votes|
    ensures LockoutOffsets(root, votes)[i].offset == votes[i].slot - PrevSlot(root, votes, i)
    ensures root + OffsetSum(LockoutOffsets(root, votes)[..i + 1]) == votes[i].slot
  {
    var offsets := LockoutOffsets(root, votes);
    AddSubWrap(PrevSlot(root, votes, i), votes[i].slot);
    assert offsets[..i + 1][..i] == offsets[..i];
    if i > 0 {
      AscendingOffsetsExact(root, votes, i - 1);
    }
  }

  /** fd_compact_vote_state_update_t, the caller-owned output of fd_tower_to_tower_sync. */
  class CompactVoteStateUpdate {
    var root: ulong
    var timestamp: int
    var lockoutsLen: nat
    var lockouts: array<LockoutOffset>
    var hash: Hash

    constructor (hash: Hash)
      ensures this.hash == hash && lockoutsLen == 0 && lockouts.Length == 0
    {
      root := 0;
      timestamp := 0;
      lockoutsLen := 0;
      lockouts := new LockoutOffset[0];
      this.hash := hash;
    }
  }
}
