/** Values shared by the tower model: C `ulong`/`uint`/`uchar` widths, a vote on the
    tower, the vote program's landed votes, and the epoch's stake entries. */
module TowerTypes {

  const ULONG_LIMIT: nat := 0x1_0000_0000_0000_0000
  const UINT_LIMIT: nat := 0x1_0000_0000
  const USHORT_LIMIT: nat := 0x1_0000
  const UCHAR_LIMIT: nat := 0x100

  /** C `ulong`: 64-bit unsigned. Arithmetic that can wrap is reduced modulo ULONG_LIMIT explicitly. */
  type ulong = x: nat | x < 0x1_0000_0000_0000_0000
  /** C `uint` (the vote program's `confirmation_count`). */
  type uint = x: nat | x < UINT_LIMIT
  /** C `uchar`. */
  type uchar = x: nat | x < 0x100

  datatype Option<T> = None | Some(value: T)

  /** A 32-byte public key (vote account address or node identity). */
  datatype Pubkey = Pubkey(bytes: seq<uchar>)

  /** A bank hash. */
  datatype Hash = Hash(bytes: seq<uchar>)

  /** fd_tower_vote_t: a vote for `slot`, locked out for 2^conf slots. */
  datatype Vote = Vote(slot: ulong, conf: ulong)

  /** The vote program's lockout, as stored in a vote account. */
  datatype VoteLockout = VoteLockout(slot: ulong, confirmationCount: uint)

  /** fd_landed_vote_t: a lockout plus the latency with which it landed. */
  datatype LandedVote = LandedVote(latency: uchar, lockout: VoteLockout)

  /** The vote state read back from a vote account: its landed votes (bottom to top) and its root. */
  datatype ClusterTower = ClusterTower(votes: seq<LandedVote>, hasRootSlot: bool, rootSlot: ulong)

  /** One entry of the epoch bank's vote-accounts map, in the map's iteration order. */
  datatype StakeEntry = StakeEntry(key: Pubkey, stake: ulong)

  /** fd_tower_vote_acc_t: a staked vote account the tower tracks. */
  datatype VoteAcc = VoteAcc(addr: Pubkey, stake: ulong)

  /** fd_lockout_offset_t: a vote slot as an offset from the previous one, and its confirmation count. */
  datatype LockoutOffset = LockoutOffset(offset: ulong, confirmationCount: uchar)

  /** Every vote's confirmation count is a legal shift amount for `1UL << conf`. */
  predicate AllShiftable(votes: seq<Vote>)
  {
    forall i :: 0 <= i < |votes| ==> votes[i].conf < 64
  }

  function Pow2(n: nat): (r: nat)
    ensures r >= 1
  {
    if n == 0 then 1 else 2 * Pow2(n - 1)
  }

  lemma {:induction false} Pow2Add(a: nat, b: nat)
    ensures Pow2(a + b) == Pow2(a) * Pow2(b)
  {
    if a > 0 {
      Pow2Add(a - 1, b);
    }
  }

  lemma Pow2At64()
    ensures Pow2(64) == ULONG_LIMIT
  {
    assert Pow2(4) == 16;
    Pow2Add(4, 4);
    Pow2Add(8, 8);
    Pow2Add(16, 16);
    Pow2Add(32, 32);
  }

  lemma {:induction false} Pow2Monotone(a: nat, b: nat)
    requires a <= b
    ensures Pow2(a) <= Pow2(b)
  {
    if a < b {
      Pow2Monotone(a, b - 1);
    }
  }

  /** 2^n fits a `ulong` for every legal shift amount, and so does 2^(n+1) below the top bit. */
  lemma Pow2Below(n: nat)
    requires n < 64
    ensures Pow2(n) < ULONG_LIMIT
    ensures n < 63 ==> 2 * Pow2(n) < ULONG_LIMIT
  {
    Pow2At64();
    Pow2Monotone(n, 63);
    if n < 63 {
      Pow2Monotone(n + 1, 63);
    }
  }
}
