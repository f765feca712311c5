/** The data queue as a value: every operation as one critical section, runs of one writer and
    one reader, and the first-in first-out theorem over all legal runs. */
module DataQueueModel {
  import opened Blocks
  import opened RingLayout

  datatype Queue = Queue(buf: seq<byte>, ring: Ring)

  /** What one operation returns or does; payloads come with their place in the buffer. `Trap` is
      the deliberate crash on a bad header, or an access outside the buffer. */
  datatype Outcome =
    | Granted                // reservation handed out
    | MustWait               // reservation does not fit yet
    | Refused                // larger than the whole buffer
    | Written
    | Sent(placed: Located)
    | Aborted
    | Rejected               // commit larger than what is available
    | Read(placed: Located)
    | Empty                  // nothing unread
    | Released(placed: Located)
    | Nothing                // unlock on an empty queue
    | DrainedAll
    | Quit                   // the queue is being shut down
    | Trap

  function Store(buf: seq<byte>, at: nat, s: seq<byte>): (r: seq<byte>)
    requires at + |s| <= |buf|
    ensures |r| == |buf| && r[at..at + |s|] == s && r[..at] == buf[..at] && r[at + |s|..] == buf[at + |s|..]
  {
    buf[..at] + s + buf[at + |s|..]
  }

  /** The block whose header is at `at`, if a header and its payload are there. */
  predicate BlockAt(buf: seq<byte>, at: int) {
    && 0 <= at <= |buf| - HEAD
    && HEAD <= Decode32(buf[at..at + HEAD]) <= |buf| - at
  }

  function SizeAt(buf: seq<byte>, at: int): (n: nat)
    requires BlockAt(buf, at)
    ensures 0 <= at && HEAD <= n <= |buf| - at
  { Decode32(buf[at..at + HEAD]) }

  function PayloadAt(buf: seq<byte>, at: int): Block
    requires BlockAt(buf, at)
  { buf[at + HEAD..at + SizeAt(buf, at)] }

  function PlacedAt(buf: seq<byte>, at: int): Located
    requires BlockAt(buf, at)
  { Located(at + HEAD, PayloadAt(buf, at)) }

  // ----- operations, each under the queue lock -----

  /** One pass of the reservation loop. */
  function Reserve(q: Queue, n: nat): (Queue, Outcome) {
    if n + HEAD > q.ring.size then (q, Refused)
    else
      var r := q.ring.Wrapped(n + HEAD);
      (q.(ring := r), if r.Available() >= n + HEAD then Granted else MustWait)
  }

  predicate CanWrite(q: Queue, off: nat, data: seq<byte>) {
    0 <= q.ring.wp && q.ring.wp + HEAD + off + |data| <= |q.buf|
  }

  /** The writer fills reserved memory, without the lock. */
  function Write(q: Queue, off: nat, data: seq<byte>): (Queue, Outcome) {
    if CanWrite(q, off, data) then (q.(buf := Store(q.buf, q.ring.wp + HEAD + off, data)), Written) else (q, Trap)
  }

  /** Commits m bytes; m == 0 aborts. */
  function Send(q: Queue, m: nat): (Queue, Outcome) {
    if m == 0 then (q, Aborted)
    else if q.ring.Available() < m + HEAD then (q, Rejected)
    else if !CanWrite(q, m, []) then (q, Trap)
    else
      (Queue(Store(q.buf, q.ring.wp, Encode32(m + HEAD)), q.ring.Committed(m + HEAD)),
       Sent(Located(q.ring.wp + HEAD, q.buf[q.ring.wp + HEAD..q.ring.wp + HEAD + m])))
  }

  function Lock(q: Queue): (Queue, Outcome) {
    if q.ring.filled == 0 then (q, Empty)
    else
      var at := q.ring.Current();
      if BlockAt(q.buf, at) then (q.(ring := q.ring.Taken(SizeAt(q.buf, at))), Read(PlacedAt(q.buf, at))) else (q, Trap)
  }

  function Unlock(q: Queue): (Queue, Outcome) {
    if !q.ring.HaveData() then (q, Nothing)
    else if BlockAt(q.buf, q.ring.rp) then
      (q.(ring := q.ring.Freed(SizeAt(q.buf, q.ring.rp))), Released(PlacedAt(q.buf, q.ring.rp)))
    else (q, Trap)
  }

  /** Only a block as large as the whole buffer meets the crash guard of the drain loop. */
  predicate DrainTraps(q: Queue) {
    q.ring.HaveData() && (BlockAt(q.buf, q.ring.rp) ==> SizeAt(q.buf, q.ring.rp) >= q.ring.size)
  }

  function ConsumeAll(q: Queue): (Queue, Outcome) {
    if DrainTraps(q) then (q, Trap) else (q.(ring := q.ring.Drained()), DrainedAll)
  }

  // ----- representation -----

  /** The buffer holds exactly the images of the resident blocks where the pointers say. */
  ghost predicate Holds(q: Queue, b: Residents) {
    && |q.buf| == q.ring.size <= INT_MAX
    && Tiled(q.ring, b)
    && (q.ring.fillEnd != 0 ==> Laid(q.buf, q.ring.rp, q.ring.fillEnd, b.high))
    && Laid(q.buf, q.ring.LowStart(), q.ring.wp, b.low)
  }

  /** No byte is touched, the write pointer stays, and the space behind it does not shrink. */
  predicate SameSpace(q: Queue, q': Queue) {
    q'.buf == q.buf && q'.ring.wp == q.ring.wp && q'.ring.Available() >= q.ring.Available()
    && q'.ring.size == q.ring.size
  }

  function Fresh(buf: seq<byte>): (q: Queue) {
    Queue(buf, Ring(|buf|, 0, 0, 0, 0))
  }

  lemma FreshHolds(buf: seq<byte>)
    requires |buf| <= INT_MAX
    ensures Holds(Fresh(buf), NO_BLOCKS)
  {
  }

  lemma StoreFrame(buf: seq<byte>, at: nat, s: seq<byte>, lo: nat, hi: nat)
    requires at + |s| <= |buf| && lo <= hi <= |buf| && (hi <= at || at + |s| <= lo)
    ensures Store(buf, at, s)[lo..hi] == buf[lo..hi]
    ensures forall i :: lo <= i < hi ==> Store(buf, at, s)[i] == buf[i]
  {
    forall i | lo <= i < hi ensures Store(buf, at, s)[i] == buf[i] {
    }
  }

  /** A store beside laid blocks leaves them alone. */
  lemma LaidStore(buf: seq<byte>, at: nat, s: seq<byte>, lo: nat, hi: nat, bs: seq<Block>)
    requires Laid(buf, lo, hi, bs) && lo <= hi
    requires at + |s| <= |buf| && (hi <= at || at + |s| <= lo)
    ensures Laid(Store(buf, at, s), lo, hi, bs)
  {
    LaidLength(buf, lo, hi, bs);
    StoreFrame(buf, at, s, lo, hi);
    LaidFrame(buf, Store(buf, at, s), lo, hi, bs);
  }

  /** Storing a header behind laid blocks makes the bytes after it one more block. */
  lemma LaidSend(buf: seq<byte>, lo: nat, wp: nat, bs: seq<Block>, p: Block)
    requires Laid(buf, lo, wp, bs) && lo <= wp && wp + Footprint(p) <= |buf|
    requires buf[wp + HEAD..wp + Footprint(p)] == p
    ensures Laid(Store(buf, wp, Encode32(Footprint(p))), lo, wp + Footprint(p), bs + [p])
  {
    var buf' := Store(buf, wp, Encode32(Footprint(p)));
    LaidStore(buf, wp, Encode32(Footprint(p)), lo, wp, bs);
    StoreFrame(buf, wp, Encode32(Footprint(p)), wp + HEAD, wp + Footprint(p));
    assert Laid(buf', wp + Footprint(p), wp + Footprint(p), []);
    LaidAppend(buf', lo, wp, bs, p);
  }

  lemma LaidFirst(q: Queue, at: nat, hi: nat, bs: seq<Block>)
    requires Laid(q.buf, at, hi, bs) && bs != [] && |q.buf| <= INT_MAX
    ensures BlockAt(q.buf, at) && SizeAt(q.buf, at) == Footprint(bs[0]) && PayloadAt(q.buf, at) == bs[0]
  {
    DecodeEncode32(Footprint(bs[0]));
  }

  /** Every resident block is found whole behind its header. */
  lemma BlockFound(q: Queue, b: Residents, k: nat)
    requires Holds(q, b) && k < |b.All()|
    ensures var at := Offset(q.ring, b, k);
      && BlockAt(q.buf, at)
      && SizeAt(q.buf, at) == Footprint(b.All()[k])
      && PayloadAt(q.buf, at) == b.All()[k]
  {
    hide Laid, FootprintSum, BlockAt, SizeAt, PayloadAt;
    var at := Offset(q.ring, b, k);
    if k < |b.high| {
      LaidAt(q.buf, q.ring.rp, q.ring.fillEnd, b.high, k);
      LaidFirst(q, at, q.ring.fillEnd, b.high[k..]);
    } else {
      LaidAt(q.buf, q.ring.LowStart(), q.ring.wp, b.low, k - |b.high|);
      LaidFirst(q, at, q.ring.wp, b.low[k - |b.high|..]);
    }
  }

  lemma ReserveHolds(q: Queue, b: Residents, n: nat)
    requires Holds(q, b) && n + HEAD <= q.ring.size
    ensures Holds(Reserve(q, n).0, b.Wrapped(q.ring, n + HEAD))
    ensures b.Wrapped(q.ring, n + HEAD).All() == b.All()
    ensures b.taken <= |b.All()| && Reserve(q, n).0.buf == q.buf
    ensures Reserve(q, n).1 == Granted ==> Reserve(q, n).0.ring.Available() >= n + HEAD
    ensures Reserve(q, n).1 == Granted || Reserve(q, n).1 == MustWait
    ensures Reserve(q, n).1 == Granted <==>
      || b.All() == []
      || (q.ring.fillEnd == 0 && (n + 4 <= q.ring.size - q.ring.wp || n + 4 <= q.ring.rp))
      || (q.ring.fillEnd != 0 && n + 4 <= q.ring.rp - q.ring.wp)
  {
    WrapKeepsTiling(q.ring, b, n + HEAD);
    GrantedIff(q.ring, b, n + HEAD);
  }

  /** Exactly when a reservation is refused, and where one that is granted lies. */
  lemma ReservedIff(q: Queue, b: Residents, n: nat)
    requires Holds(q, b)
    ensures Reserve(q, n).1 == Refused <==> n + 4 > q.ring.size
    ensures Reserve(q, n).1 == Granted ==>
      Reserve(q, n).0.ring.wp == if q.ring.fillEnd == 0 && n + 4 > q.ring.size - q.ring.wp then 0 else q.ring.wp
  {
    if n + HEAD <= q.ring.size {
      TurnsIff(q.ring, b, n + HEAD);
    }
  }

  /** Unlocking an empty queue changes nothing. */
  lemma UnlockEmpty(q: Queue, b: Residents)
    requires Holds(q, b) && b.All() == []
    ensures Unlock(q) == (q, Nothing)
  {
    HaveDataIffResident(q.ring, b);
  }

  /** When the public query reports room for n bytes, n >= 1, reserving n bytes does not wait. */
  lemma ReportedRoomIsGranted(q: Queue, b: Residents, n: nat)
    requires Holds(q, b) && 1 <= n <= q.ring.Reported()
    ensures Reserve(q, n).1 == Granted
  {
    ReportedIsSound(q.ring, b, n);
  }

  /** A queue with nothing resident grants any request that fits the buffer, wherever its pointers
      stopped. */
  lemma EmptyQueueGrants(q: Queue, b: Residents, n: nat)
    requires Holds(q, b) && b.All() == [] && n + HEAD <= q.ring.size
    ensures Reserve(q, n).1 == Granted
  {
    EmptyAdmits(q.ring, b, n + HEAD);
  }

  /** Writing reserved memory changes no resident block. */
  lemma WriteHolds(q: Queue, b: Residents, off: nat, data: seq<byte>)
    requires Holds(q, b) && HEAD + off + |data| <= q.ring.Available()
    ensures CanWrite(q, off, data) && Holds(Write(q, off, data).0, b)
  {
    var r := q.ring;
    var at := r.wp + HEAD + off;
    assert at + |data| <= r.size;
    LaidStore(q.buf, at, data, r.LowStart(), r.wp, b.low);
    if r.fillEnd != 0 {
      LaidStore(q.buf, at, data, r.rp, r.fillEnd, b.high);
    }
  }

  lemma CommittedLaid(q: Queue, b: Residents, p: Block)
    requires Holds(q, b) && Footprint(p) <= q.ring.Available() && q.ring.wp + Footprint(p) <= |q.buf|
    requires p == q.buf[q.ring.wp + HEAD..q.ring.wp + Footprint(p)]
    ensures Holds(Queue(Store(q.buf, q.ring.wp, Encode32(Footprint(p))), q.ring.Committed(Footprint(p))),
        b.Committed(p))
  {
    hide Laid, FootprintSum;
    var r := q.ring;
    CommitKeepsTiling(r, b, p);
    LaidSend(q.buf, r.LowStart(), r.wp, b.low, p);
    if r.fillEnd != 0 {
      LaidStore(q.buf, r.wp, Encode32(Footprint(p)), r.rp, r.fillEnd, b.high);
    }
  }

  /** A commit that fits appends the reserved bytes as the newest block. */
  lemma SendHolds(q: Queue, b: Residents, m: nat)
    requires Holds(q, b) && 0 < m && m + HEAD <= q.ring.Available()
    ensures Send(q, m).1.Sent? && |Send(q, m).1.placed.block| == m
    ensures var p := Send(q, m).1.placed; var b' := b.Committed(p.block);
      && Holds(Send(q, m).0, b') && b'.Locked() == b.Locked() && b'.Unread() == b.Unread() + [p.block]
      && Places(Send(q, m).0.ring, b') == Places(q.ring, b) + [p]
  {
    hide Laid, FootprintSum, Store;
    var r := q.ring;
    var p := q.buf[r.wp + HEAD..r.wp + HEAD + m];
    assert r.wp + HEAD + m <= r.size;
    assert Send(q, m) == (Queue(Store(q.buf, r.wp, Encode32(Footprint(p))), r.Committed(Footprint(p))),
        Sent(Located(r.wp + HEAD, p)));
    CommitKeepsTiling(r, b, p);
    CommitAddsPlace(r, b, p);
    CommittedLaid(q, b, p);
  }

  lemma LockHolds(q: Queue, b: Residents)
    requires Holds(q, b)
    ensures b.taken <= |b.All()| && (b.Unread() == [] ==> Lock(q) == (q, Empty))
    ensures b.Unread() != [] ==>
      var (q', b') := (Lock(q).0, b.Taken());
      && Lock(q).1 == Read(Places(q.ring, b)[b.taken]) && Places(q'.ring, b') == Places(q.ring, b)
      && Holds(q', b') && SameSpace(q, q')
      && b'.Locked() == b.Locked() + [b.Unread()[0]] && b'.Unread() == b.Unread()[1..]
  {
    FootprintSumZero(b.Unread());
    if b.Unread() != [] {
      CurrentIsOldestUnread(q.ring, b);
      BlockFound(q, b, b.taken);
      TakeKeepsTiling(q.ring, b);
      TakeKeepsPlaces(q.ring, b, Footprint(b.Unread()[0]));
      hide Laid, FootprintSum, Places;
      PlaceOf(q.ring, b, b.taken);
    }
  }

  lemma PlaceOf(r: Ring, b: Residents, k: nat)
    requires k < |b.All()|
    ensures Places(r, b)[k] == Located(Offset(r, b, k) + HEAD, b.All()[k])
  {
  }

  lemma FreedLaid(q: Queue, b: Residents)
    requires Holds(q, b) && b.taken > 0
    ensures Holds(q.(ring := q.ring.Freed(Footprint(b.All()[0]))), b.Freed())
  {
    var r := q.ring;
    FreeKeepsTilingIff(r, b);
    if b.high != [] {
      FootprintSumZero(b.high[1..]);
      LaidLength(q.buf, r.rp, r.fillEnd, b.high);
    } else {
      FootprintSumZero(b.low);
    }
  }

  lemma UnlockHolds(q: Queue, b: Residents)
    requires Holds(q, b) && b.taken > 0
    ensures var (q', b') := (Unlock(q).0, b.Freed());
      && Unlock(q).1 == Released(Places(q.ring, b)[0]) && Places(q'.ring, b') == Places(q.ring, b)[1..]
      && Holds(q', b') && SameSpace(q, q')
      && b'.Locked() == b.Locked()[1..] && b'.Unread() == b.Unread()
  {
    hide Laid, FootprintSum;
    UnlockFindsOldest(q, b);
    FreedLaid(q, b);
    FreeKeepsTilingIff(q.ring, b);
    ReaderKeepsSpace(q.ring, b, 0);
  }

  /** An unlock frees the oldest resident block, read-locked or not. */
  lemma UnlockFindsOldest(q: Queue, b: Residents)
    requires Holds(q, b) && b.All() != []
    ensures BlockAt(q.buf, q.ring.rp) && SizeAt(q.buf, q.ring.rp) == Footprint(b.All()[0])
    ensures Unlock(q) == (q.(ring := q.ring.Freed(Footprint(b.All()[0]))), Released(Places(q.ring, b)[0]))
    ensures Places(Unlock(q).0.ring, b.Freed()) == Places(q.ring, b)[1..]
  {
    HaveDataIffResident(q.ring, b);
    OldestAtReadPointer(q.ring, b);
    BlockFound(q, b, 0);
    FreeDropsPlace(q.ring, b);
    hide Laid, FootprintSum, Tiled, Offset, BlockAt, SizeAt, PayloadAt, Places;
    PlaceOf(q.ring, b, 0);
  }

  /** It leaves a consistent queue exactly when that block had been read-locked. */
  lemma UnlockHoldsIff(q: Queue, b: Residents)
    requires Holds(q, b) && b.All() != []
    ensures Holds(Unlock(q).0, b.Freed()) <==> b.taken > 0
  {
    UnlockFindsOldest(q, b);
    FreeKeepsTilingIff(q.ring, b);
    hide Laid, FootprintSum, Unlock;
    if b.taken > 0 {
      UnlockHolds(q, b);
    }
  }

  /** Only the oldest block can meet the crash guard. */
  lemma DrainTrapsIff(q: Queue, b: Residents)
    requires Holds(q, b)
    ensures DrainTraps(q) <==> b.All() != [] && Footprint(b.All()[0]) == q.ring.size
    ensures forall k :: 0 <= k < |b.All()| && Footprint(b.All()[k]) >= q.ring.size ==> k == 0 && DrainTraps(q)
  {
    HaveDataIffResident(q.ring, b);
    FullBlockIsOldest(q.ring, b);
    if b.All() != [] {
      OldestAtReadPointer(q.ring, b);
      BlockFound(q, b, 0);
    }
  }

  /** Draining crashes exactly on a block as large as the buffer, and otherwise leaves a
      consistent empty queue exactly when nothing is read-locked. */
  lemma ConsumeAllIff(q: Queue, b: Residents)
    requires Holds(q, b)
    ensures ConsumeAll(q).1 == Trap <==> exists p <- b.All() :: Footprint(p) == q.ring.size
    ensures SameSpace(q, ConsumeAll(q).0)
    ensures ConsumeAll(q).1 == DrainedAll ==> (Holds(ConsumeAll(q).0, NO_BLOCKS) <==> b.taken == 0)
  {
    DrainTrapsIff(q, b);
    DrainKeepsTilingIff(q.ring, b);
    ReaderKeepsSpace(q.ring, b, 0);
    if DrainTraps(q) {
      assert b.All()[0] in b.All();
    }
  }

  lemma HasDataIff(q: Queue, b: Residents)
    requires Holds(q, b)
    ensures q.ring.HaveData() <==> b.All() != []
    ensures q.ring.ResidentBytes() == FootprintSum(b.All())
  {
    HaveDataIffResident(q.ring, b);
  }

  /** The walk of the drain and query loops: freeing the oldest block when all are counted as
      read-locked. */
  lemma WalkStep(q: Queue, b: Residents)
    requires Holds(q, b) && b.taken == |b.All()| > 0
    ensures BlockAt(q.buf, q.ring.rp) && SizeAt(q.buf, q.ring.rp) == Footprint(b.All()[0])
    ensures var r := q.ring.Freed(Footprint(b.All()[0]));
      && Holds(q.(ring := r), b.Freed()) && r.filled == q.ring.filled
      && b.Freed().All() == b.All()[1..] && b.Freed().taken == |b.Freed().All()|
    ensures q.ring.fillEnd != 0 ==> q.ring.rp + Footprint(b.All()[0]) <= q.ring.fillEnd
  {
    UnlockHolds(q, b);
    FreedLaid(q, b);
    FreeKeepsTilingIff(q.ring, b);
    OldestAtReadPointer(q.ring, b);
    BlockFound(q, b, 0);
    BlockInBuffer(q.ring, b, 0);
    if q.ring.fillEnd != 0 {
      FootprintSumSplit(b.high, 1);
      FootprintSumZero(b.high[..0]);
    }
  }

  /** Counting every resident block as read-locked. */
  lemma AllTaken(q: Queue, b: Residents)
    requires Holds(q, b)
    ensures Holds(q.(ring := q.ring.(filled := 0)), b.(taken := |b.All()|))
  {
  }

  /** "Peek" does not give the block back: whatever the state, the read after lock and peek
      unlock skips to the next unread block, or waits when there is none. */
  lemma PeekedBlockIsSkipped(q: Queue, b: Residents)
    requires Holds(q, b) && b.Unread() != []
    ensures Lock(q).1 == Read(Places(q.ring, b)[b.taken])
    ensures Lock(Lock(q).0).1 == if |b.Unread()| == 1 then Empty else Read(Places(q.ring, b)[b.taken + 1])
  {
    LockHolds(q, b);
    LockHolds(Lock(q).0, b.Taken());
  }

  /** Draining with a block read-locked counts it twice: the next read looks outside the buffer. */
  lemma DrainWhileLockedTraps()
    ensures var q := Queue([5, 0, 0, 0, 7, 0, 0, 0], Ring(8, 0, 5, 0, 0));
      && Holds(q, Residents([], [[7]], 1))
      && ConsumeAll(q).1 == DrainedAll && ConsumeAll(q).0.ring.filled == -5
      && Lock(ConsumeAll(q).0).1 == Trap
  {
    var q, b := Queue([5, 0, 0, 0, 7, 0, 0, 0], Ring(8, 0, 5, 0, 0)), Residents([], [[7]], 1);
    assert b.All() == [[7]] && b.Unread() == [] && b.low[1..] == [];
    assert Laid(q.buf, 5, 5, []);
    assert Laid(q.buf, 0, 5, b.low);
    assert q.buf[0..4] == [5, 0, 0, 0];
  }

  lemma FullBlockHolds()
    ensures Holds(Queue([5, 0, 0, 0, 7], Ring(5, 0, 5, 0, 5)), Residents([], [[7]], 0))
    ensures Offset(Ring(5, 0, 5, 0, 5), Residents([], [[7]], 0), 0) == 0
  {
    var q, b := Queue([5, 0, 0, 0, 7], Ring(5, 0, 5, 0, 5)), Residents([], [[7]], 0);
    assert b.All() == [[7]] && b.Unread() == [[7]] && b.low[1..] == [];
    assert Laid(q.buf, 5, 5, []);
    assert Laid(q.buf, 0, 5, b.low);
  }

  /** A single block may fill the buffer, and is read like any other, but draining it crashes. */
  lemma DrainFullBlockTraps()
    ensures var q := Queue([5, 0, 0, 0, 7], Ring(5, 0, 5, 0, 5));
      && Holds(q, Residents([], [[7]], 0)) && Lock(q).1 == Read(Located(4, [7])) && ConsumeAll(q).1 == Trap
  {
    hide Holds, Lock, ConsumeAll, Laid, FootprintSum;
    var q, b := Queue([5, 0, 0, 0, 7], Ring(5, 0, 5, 0, 5)), Residents([], [[7]], 0);
    FullBlockHolds();
    LockHolds(q, b);
    assert b.All() == [[7]] && b.Unread() == [[7]] && Offset(q.ring, b, 0) == 0;
    ConsumeAllIff(q, b);
    assert b.All()[0] in b.All();
  }
}
