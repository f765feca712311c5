/** The pointers of a data queue and how the resident blocks tile its buffer. */
module RingLayout {
  import opened Blocks

  /** `filled` is signed: draining can push it below zero. */
  datatype Ring = Ring(size: nat, rp: int, wp: int, fillEnd: int, filled: int) {

    predicate HaveData() { !(wp == rp && fillEnd == 0) }

    /** Contiguous bytes at the write pointer, header included. */
    function Available(): int {
      if wp > rp then size - wp
      else if wp == rp then (if fillEnd != 0 then 0 else size - wp)
      else rp - wp
    }

    /** What the public query reports: payload bytes a writer may ask for. */
    function Reported(): int {
      var avail := if wp == rp && fillEnd == 0 then size else Available();
      if avail >= HEAD then avail - HEAD else 0
    }

    /** Turns back to offset 0 when `need` bytes do not fit behind `wp`. */
    function Wrapped(need: int): Ring {
      if Available() < need && fillEnd == 0 then
        var r := if wp == rp then this.(wp := 0, rp := 0) else this;
        r.(fillEnd := r.wp, wp := 0)
      else this
    }

    function Committed(need: int): Ring { this.(wp := wp + need, filled := filled + need) }

    /** Where the next unread block is looked up. */
    function Current(): int {
      if filled <= wp then wp - filled else wp + fillEnd - filled
    }

    function Taken(need: int): Ring { this.(filled := filled - need) }

    function Freed(need: int): Ring {
      if fillEnd != 0 && rp + need >= fillEnd then this.(fillEnd := 0, rp := 0)
      else this.(rp := rp + need)
    }

    function ResidentBytes(): int {
      if fillEnd == 0 then wp - rp else fillEnd - rp + wp
    }

    /** Where the low blocks begin. */
    function LowStart(): int { if fillEnd == 0 then rp else 0 }

    /** Where draining every resident block ends. */
    function Drained(): Ring {
      this.(rp := wp, fillEnd := 0, filled := filled - ResidentBytes())
    }
  }

  /** The resident blocks, oldest first: `high` in front of `fillEnd`, `low` in front of `wp`.
      The first `taken` of them are read-locked. */
  datatype Residents = Residents(high: seq<Block>, low: seq<Block>, taken: nat) {
    function All(): seq<Block> { high + low }

    function Locked(): seq<Block>
      requires taken <= |All()|
    { All()[..taken] }

    function Unread(): seq<Block>
      requires taken <= |All()|
    { All()[taken..] }

    function Wrapped(r: Ring, need: int): Residents {
      if r.Available() < need && r.fillEnd == 0 then Residents(low, [], taken) else this
    }

    function Committed(p: Block): Residents { this.(low := low + [p]) }

    function Taken(): Residents { this.(taken := taken + 1) }

    function Freed(): Residents
      requires All() != []
    {
      var t := if taken == 0 then 0 else taken - 1;
      if high == [] then Residents([], low[1..], t) else Residents(high[1..], low, t)
    }
  }

  const NO_BLOCKS := Residents([], [], 0)

  /** Resident blocks tile [rp, wp), or [rp, fillEnd) followed by [0, wp); `filled` is the
      byte total of the unread ones. */
  ghost predicate Tiled(r: Ring, b: Residents) {
    && b.taken <= |b.All()|
    && r.filled == FootprintSum(b.Unread())
    && 0 <= r.rp <= r.size
    && 0 <= r.wp <= r.size
    && 0 <= r.fillEnd <= r.size
    && if r.fillEnd == 0 then
         b.high == [] && r.rp + FootprintSum(b.low) == r.wp
       else
         && b.high != [] && r.rp + FootprintSum(b.high) == r.fillEnd
         && FootprintSum(b.low) == r.wp <= r.rp
  }

  /** Offset of the header of resident block k. */
  ghost function Offset(r: Ring, b: Residents, k: nat): int
    requires k <= |b.All()|
  {
    if k < |b.high| then r.rp + FootprintSum(b.high[..k])
    else r.LowStart() + FootprintSum(b.low[..k - |b.high|])
  }

  /** A payload and where it begins. */
  datatype Located = Located(at: int, block: Block)

  /** The resident payloads in their places. */
  ghost function Places(r: Ring, b: Residents): (ps: seq<Located>)
    ensures |ps| == |b.All()|
  {
    seq(|b.All()|, k requires 0 <= k < |b.All()| => Located(Offset(r, b, k) + HEAD, b.All()[k]))
  }

  lemma FootprintSumZero(bs: seq<Block>)
    ensures FootprintSum(bs) == 0 <==> bs == []
  {
  }

  lemma HaveDataIffResident(r: Ring, b: Residents)
    requires Tiled(r, b)
    ensures r.HaveData() <==> b.All() != []
    ensures r.ResidentBytes() == FootprintSum(b.All())
  {
    FootprintSumConcat(b.high, b.low);
    FootprintSumZero(b.low);
  }

  lemma WrapKeepsTiling(r: Ring, b: Residents, need: int)
    requires Tiled(r, b)
    ensures Tiled(r.Wrapped(need), b.Wrapped(r, need))
    ensures b.Wrapped(r, need).All() == b.All()
  {
    FootprintSumZero(b.low);
    assert b.Wrapped(r, need).All() == b.All();
  }

  lemma CommitKeepsTiling(r: Ring, b: Residents, p: Block)
    requires Tiled(r, b) && r.Available() >= Footprint(p)
    ensures Tiled(r.Committed(Footprint(p)), b.Committed(p))
    ensures b.Committed(p).All() == b.All() + [p]
    ensures b.Committed(p).Locked() == b.Locked()
    ensures b.Committed(p).Unread() == b.Unread() + [p]
  {
    assert b.Committed(p).All() == b.All() + [p];
    assert b.Committed(p).Unread() == b.Unread() + [p];
    FootprintSumConcat(b.low, [p]);
    FootprintSumConcat(b.Unread(), [p]);
  }

  lemma TakeKeepsTiling(r: Ring, b: Residents)
    requires Tiled(r, b) && b.Unread() != []
    ensures Tiled(r.Taken(Footprint(b.Unread()[0])), b.Taken())
    ensures b.Taken().Locked() == b.Locked() + [b.Unread()[0]]
    ensures b.Taken().Unread() == b.Unread()[1..]
  {
  }

  /** Freeing the oldest resident block keeps the tiling exactly when it had been read-locked. */
  lemma FreeKeepsTilingIff(r: Ring, b: Residents)
    requires Tiled(r, b) && b.All() != []
    ensures b.Freed().All() == b.All()[1..]
    ensures Tiled(r.Freed(Footprint(b.All()[0])), b.Freed()) <==> b.taken > 0
    ensures b.taken > 0 ==> b.Freed().Locked() == b.Locked()[1..] && b.Freed().Unread() == b.Unread()
  {
    assert b.Freed().All() == b.All()[1..];
    FootprintSumZero(b.low);
    if b.high != [] {
      FootprintSumZero(b.high[1..]);
    }
    if b.taken > 0 {
      assert b.Freed().Unread() == b.Unread();
    }
  }

  /** The recomputed read position is the header of the oldest unread block, however many
      blocks are read-locked. */
  lemma CurrentIsOldestUnread(r: Ring, b: Residents)
    requires Tiled(r, b) && b.Unread() != []
    ensures r.Current() == Offset(r, b, b.taken)
  {
    var n := |b.high|;
    if b.taken < n {
      assert b.Unread() == b.high[b.taken..] + b.low;
      FootprintSumConcat(b.high[b.taken..], b.low);
      FootprintSumSplit(b.high, b.taken);
      FootprintSumZero(b.high[b.taken..]);
    } else {
      assert b.Unread() == b.low[b.taken - n..];
      FootprintSumSplit(b.low, b.taken - n);
    }
  }

  /** Block k ends where block k + 1 begins, or at `fillEnd` for the last one before the turn. */
  lemma BlockInBuffer(r: Ring, b: Residents, k: nat)
    requires Tiled(r, b) && k < |b.All()|
    ensures 0 <= Offset(r, b, k)
    ensures var e := Offset(r, b, k) + Footprint(b.All()[k]);
      if k + 1 == |b.high| then e == r.fillEnd else e == Offset(r, b, k + 1)
    ensures Offset(r, b, k) + Footprint(b.All()[k]) <= r.size
  {
    if k < |b.high| {
      FootprintSumSplit(b.high, k);
      assert b.high[..|b.high|] == b.high;
    } else {
      FootprintSumSplit(b.low, k - |b.high|);
    }
  }

  /** No block is larger than the buffer, and one as large as it can only be the oldest. */
  lemma FullBlockIsOldest(r: Ring, b: Residents)
    requires Tiled(r, b)
    ensures forall k :: 0 <= k < |b.All()| ==> Footprint(b.All()[k]) <= r.size
    ensures forall k :: 0 < k < |b.All()| ==> Footprint(b.All()[k]) < r.size
  {
    forall k: nat | k < |b.All()|
      ensures Footprint(b.All()[k]) <= r.size
      ensures k > 0 ==> Footprint(b.All()[k]) < r.size
    {
      BlockInBuffer(r, b, k);
      if k > 0 {
        BlockInBuffer(r, b, k - 1);
      }
    }
  }

  /** Oldest blocks come first, so the header at `rp` is the oldest resident block's. */
  lemma OldestAtReadPointer(r: Ring, b: Residents)
    requires Tiled(r, b) && b.All() != []
    ensures Offset(r, b, 0) == r.rp
  {
  }

  /** The bytes a writer may use never meet a resident block, read-locked ones included. */
  lemma ReservationDisjoint(r: Ring, b: Residents, need: nat, k: nat)
    requires Tiled(r, b) && need <= r.Available() && k < |b.All()|
    ensures r.wp + need <= r.size
    ensures r.wp + need <= Offset(r, b, k) || Offset(r, b, k) + Footprint(b.All()[k]) <= r.wp
  {
    BlockInBuffer(r, b, k);
    if k < |b.high| {
      FootprintSumSplit(b.high, k);
    } else {
      FootprintSumSplit(b.low, k - |b.high|);
    }
  }

  /** No reader step moves the write pointer or shrinks the space behind it. */
  lemma ReaderKeepsSpace(r: Ring, b: Residents, n: int)
    requires Tiled(r, b)
    ensures r.Taken(n).wp == r.wp && r.Taken(n).Available() == r.Available()
    ensures r.Drained().wp == r.wp && r.Drained().Available() >= r.Available()
    ensures b.All() != [] ==>
      var r' := r.Freed(Footprint(b.All()[0])); r'.wp == r.wp && r'.Available() >= r.Available()
  {
    if b.All() != [] && b.high != [] {
      FootprintSumZero(b.high[1..]);
    }
  }

  /** A drained queue admits any request that fits the buffer, wherever the pointers stopped. */
  lemma EmptyAdmits(r: Ring, b: Residents, need: nat)
    requires Tiled(r, b) && b.All() == [] && need <= r.size
    ensures r.Wrapped(need).Available() >= need
  {
  }

  /** Exactly when a request is granted without waiting: into an empty queue, behind the write
      pointer, in front of the oldest block after a turn, or between the two after an earlier turn. */
  lemma GrantedIff(r: Ring, b: Residents, need: nat)
    requires Tiled(r, b) && 0 < need <= r.size
    ensures r.Wrapped(need).Available() >= need <==>
            || b.All() == []
            || (r.fillEnd == 0 && (need <= r.size - r.wp || need <= r.rp))
            || (r.fillEnd != 0 && need <= r.rp - r.wp)
  {
    HaveDataIffResident(r, b);
  }

  /** The writer turns back exactly when no turn is pending and the bytes up to the buffer's end do
      not suffice; an empty queue starts afresh. */
  lemma TurnsIff(r: Ring, b: Residents, need: nat)
    requires Tiled(r, b) && 0 < need
    ensures r.Wrapped(need)
         == if r.fillEnd != 0 || need <= r.size - r.wp then r
            else if b.All() == [] then Ring(r.size, 0, 0, 0, r.filled)
            else Ring(r.size, r.rp, 0, r.wp, r.filled)
  {
    HaveDataIffResident(r, b);
  }

  /** What the public query reports: the bytes in one piece behind the write pointer, all of them in
      an empty queue, less a header. */
  lemma ReportedIs(r: Ring, b: Residents)
    requires Tiled(r, b)
    ensures var room := if b.All() == [] then r.size else if r.fillEnd == 0 then r.size - r.wp else r.rp - r.wp;
      0 <= room <= r.size && r.Reported() == if room >= 4 then room - 4 else 0
  {
    HaveDataIffResident(r, b);
  }

  /** The public query never promises what a reservation would wait for. */
  lemma ReportedIsSound(r: Ring, b: Residents, n: nat)
    requires Tiled(r, b) && 1 <= n <= r.Reported()
    ensures n + HEAD <= r.size && r.Wrapped(n + HEAD).Available() >= n + HEAD
  {
    HaveDataIffResident(r, b);
    assert n + HEAD <= r.size;
    hide FootprintSum, Tiled, Ring.Wrapped;
    GrantedIff(r, b, n + HEAD);
  }

  /** Without n >= 1 the promise is false: a full queue reports 0, yet asking for 0 waits. */
  lemma ReportedZeroOnFullQueue()
    ensures var r, b := Ring(5, 0, 0, 5, 5), Residents([[7]], [], 0);
      Tiled(r, b) && 0 <= r.Reported() && r.Wrapped(0 + HEAD).Available() < 0 + HEAD
  {
    var b := Residents([[7]], [], 0);
    assert b.All() == [[7]] && b.Unread() == [[7]];
  }

  /** Draining leaves an empty, consistent queue exactly when nothing is read-locked; otherwise
      `filled` ends at minus the bytes that were read-locked. */
  lemma DrainKeepsTilingIff(r: Ring, b: Residents)
    requires Tiled(r, b)
    ensures Tiled(r.Drained(), NO_BLOCKS) <==> b.taken == 0
    ensures r.Drained().filled == 0 - FootprintSum(b.Locked())
  {
    HaveDataIffResident(r, b);
    FootprintSumSplit(b.All(), b.taken);
    FootprintSumZero(b.Locked());
  }

  // ----- payloads stay where they are -----

  lemma WrapKeepsPlaces(r: Ring, b: Residents, need: int)
    requires Tiled(r, b)
    ensures Places(r.Wrapped(need), b.Wrapped(r, need)) == Places(r, b)
  {
    WrapKeepsTiling(r, b, need);
    FootprintSumZero(b.low);
    hide FootprintSum;
    var r', b' := r.Wrapped(need), b.Wrapped(r, need);
    forall k: nat | k < |b.All()| ensures Offset(r', b', k) == Offset(r, b, k) {
    }
  }

  lemma CommitAddsPlace(r: Ring, b: Residents, p: Block)
    requires Tiled(r, b) && r.Available() >= Footprint(p)
    ensures Places(r.Committed(Footprint(p)), b.Committed(p)) == Places(r, b) + [Located(r.wp + HEAD, p)]
  {
    hide FootprintSum, Tiled, Offset, Ring.Available;
    CommitKeepsTiling(r, b, p);
    forall k: nat | k <= |b.All()| {
      CommittedOffset(r, b, p, k);
    }
  }

  lemma CommittedOffset(r: Ring, b: Residents, p: Block, k: nat)
    requires Tiled(r, b) && k <= |b.All()|
    ensures k <= |b.Committed(p).All()|
    ensures Offset(r.Committed(Footprint(p)), b.Committed(p), k) == if k < |b.All()| then Offset(r, b, k) else r.wp
  {
    hide FootprintSum;
    if k >= |b.high| {
      assert b.Committed(p).low[..k - |b.high|] == b.low[..k - |b.high|];
      assert b.low[..|b.low|] == b.low;
    }
  }

  lemma TakeKeepsPlaces(r: Ring, b: Residents, n: int)
    ensures Places(r.Taken(n), b.Taken()) == Places(r, b)
  {
    hide FootprintSum;
    forall k: nat | k < |b.All()| ensures Offset(r.Taken(n), b.Taken(), k) == Offset(r, b, k) {
    }
  }

  lemma FreeDropsPlace(r: Ring, b: Residents)
    requires Tiled(r, b) && b.All() != []
    ensures Places(r.Freed(Footprint(b.All()[0])), b.Freed()) == Places(r, b)[1..]
  {
    hide FootprintSum, Tiled, Offset, Ring.Freed, Residents.Freed, Residents.All;
    FreeKeepsTilingIff(r, b);
    var r', b' := r.Freed(Footprint(b.All()[0])), b.Freed();
    forall k: nat | k + 1 < |b.All()| ensures Offset(r', b', k) == Offset(r, b, k + 1) {
      FreedOffset(r, b, k);
    }
  }

  lemma FreedOffset(r: Ring, b: Residents, k: nat)
    requires Tiled(r, b) && k + 1 < |b.All()|
    ensures Offset(r.Freed(Footprint(b.All()[0])), b.Freed(), k) == Offset(r, b, k + 1)
  {
    if b.high == [] {
      assert b.low[..k + 1][1..] == b.low[1..][..k];
    } else {
      FootprintSumZero(b.high[1..]);
      if k + 1 < |b.high| {
        assert b.high[..k + 1][1..] == b.high[1..][..k];
      }
    }
  }
}
