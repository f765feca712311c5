/** Runs of a thread that puts frames into a queue and a thread that takes them out: copied frames,
    the empty filler that wakes a reader, and frame buffers that a decoder fills in place. Each
    action is one operation on the data queue. */
module FramingRuns {
  import opened Blocks
  import opened RingLayout
  import opened DataQueueModel
  import opened DataQueueRuns
  import opened Framing

  /** The kind of header, whether payloads stay in a pool, whether the reader is the video render's,
      and the address of the queue's buffer. */
  datatype Channel = Channel(layout: Layout, pool: bool, rendered: bool, base: nat)

  predicate WellFormed(ch: Channel, s: System) {
    && Fits(ch.layout) && (ch.rendered ==> ch.layout == RENDER_FRAME && !ch.pool)
    && ch.base + |s.q.buf| <= 0x1_0000_0000
  }

  function ReadFrame(ch: Channel, placed: Located): Received
    requires Fits(ch.layout)
  {
    if ch.rendered then ReceiveRendered(ch.base + placed.at, placed.block)
    else Receive(ch.layout, ch.pool, placed.block)
  }

  /** A frame with a header of the right length that carries its data's size. */
  predicate Truthful(ch: Channel, head: seq<byte>, data: seq<byte>)
    requires Fits(ch.layout)
  { |head| == ch.layout.headSize && (ch.pool || SizeField(ch.layout, head) == |data|) }

  /** Where the writer is. `head` and `picture` of a frame buffer are what its memory holds. */
  datatype Writer =
    | Idle
    | Reserved(head: seq<byte>, data: seq<byte>)      // nothing written yet
    | HeadWritten(head: seq<byte>, data: seq<byte>)
    | Whole(head: seq<byte>, data: seq<byte>)         // all written, not yet sent
    | Fetching(size: nat, k: nat)                     // frame buffer reserved
    | Decoding(size: nat, k: nat, head: seq<byte>, picture: seq<byte>)

  datatype Player = Player(s: System, w: Writer)

  datatype Action =
    | Copy(head: seq<byte>, data: seq<byte>)
    | Fill
    | Fetch(size: nat, k: nat)              // for an alignment of 2^k
    | WriteNext
    | Decode(i: nat, bytes: seq<byte>)      // the decoder writes into its frame buffer
    | Reached(head: seq<byte>)              // the finished frame's header, its pointer left alone
    | Release
    | Drop
    | Reader(op: Op)

  function Zeros(n: nat): seq<byte> { seq(n, _ => 0) }

  /** Position in the queue's buffer where the reservation begins. */
  function Begin(x: Player): int { x.s.q.ring.wp + HEAD }

  /** Where in its reservation a frame buffer begins. */
  function BufferAt(ch: Channel, x: Player, k: nat): int {
    if Begin(x) < 0 then 0 else FetchedOffset(ch.base + Begin(x), k)
  }

  function Address(ch: Channel, x: Player, k: nat): nat {
    var a := ch.base + Begin(x) + BufferAt(ch, x, k);
    if a < 0 then 0 else a
  }

  function WithPointer(head: seq<byte>, address: nat): seq<byte>
    requires |head| >= DATA_POINTER_AT + 4
  { head[..DATA_POINTER_AT] + Encode32(address) + head[DATA_POINTER_AT + 4..] }

  predicate Enabled(ch: Channel, x: Player, a: Action)
    requires Fits(ch.layout)
  {
    match a
    case Copy(head, data) => x.w.Idle? && Truthful(ch, head, data)
    case Fill => x.w.Idle?
    case Fetch(size, k) => x.w.Idle? && ch.rendered && size > 0
    case WriteNext => x.w.Reserved? || x.w.HeadWritten? || x.w.Fetching?
    case Decode(i, bytes) => x.w.Decoding? && i + |bytes| <= x.w.size
    case Reached(head) =>
      ch.rendered && x.w.Decoding? && |head| == RENDER_FRAME.headSize && 0 <= SizeField(RENDER_FRAME, head) <= x.w.size
    case Release =>
      || x.w.Whole?
      || (x.w.Decoding? && |x.w.head| == RENDER_FRAME.headSize && 0 <= SizeField(RENDER_FRAME, x.w.head))
    case Drop => x.w.Decoding?
    case Reader(op) => IsReaderOp(op) && Legal(x.s, op)
  }

  /** How many bytes a release commits. */
  function Committed(ch: Channel, x: Player): int
    requires Fits(ch.layout) && Enabled(ch, x, Release)
  {
    if x.w.Whole? then |Put(ch.pool, x.w.head, x.w.data)|
    else BufferAt(ch, x, x.w.k) + SizeField(RENDER_FRAME, x.w.head)
  }

  function Natural(n: int): nat { if n < 0 then 0 else n }

  /** The queue operation behind an action. */
  function OpOf(ch: Channel, x: Player, a: Action): Op
    requires Fits(ch.layout) && Enabled(ch, x, a)
  {
    match a
    case Copy(head, data) => OpReserve(|Put(ch.pool, head, data)|)
    case Fill => OpReserve(ch.layout.headSize)
    case Fetch(size, k) => OpReserve(FetchedReservation(size, k))
    case WriteNext =>
      if x.w.Reserved? then OpWrite(0, x.w.head)
      else if x.w.HeadWritten? then OpWrite(|x.w.head|, x.w.data)
      else OpWrite(DATA_POINTER_AT, Encode32(Address(ch, x, x.w.k)) + Encode32(0))
    case Decode(i, bytes) => OpWrite(Natural(BufferAt(ch, x, x.w.k) + i), bytes)
    case Reached(head) => OpWrite(0, WithPointer(head, Address(ch, x, x.w.k)))
    case Release => OpSend(Natural(Committed(ch, x)))
    case Drop => OpSend(0)
    case Reader(op) => op
  }

  function Slice(s: seq<byte>, at: int, n: nat): (r: seq<byte>)
    ensures 0 <= at && at + n <= |s| ==> r == s[at..at + n]
  { if 0 <= at && at + n <= |s| then s[at..at + n] else [] }

  function WriterAfter(ch: Channel, x: Player, a: Action, x': System, out: Outcome): Writer
    requires Fits(ch.layout) && Enabled(ch, x, a)
  {
    match a
    case Copy(head, data) => if out == Granted then Reserved(head, data) else Idle
    case Fill => if out == Granted then Reserved(Zeros(ch.layout.headSize), []) else Idle
    case Fetch(size, k) => if out == Granted then Fetching(size, k) else Idle
    case WriteNext =>
      if x.w.Fetching? then
        Decoding(x.w.size, x.w.k, Slice(x'.q.buf, Begin(x), RENDER_FRAME.headSize),
                 Slice(x'.q.buf, Begin(x) + BufferAt(ch, x, x.w.k), x.w.size))
      else if x.w.Reserved? && !ch.pool && x.w.data != [] then HeadWritten(x.w.head, x.w.data)
      else Whole(x.w.head, x.w.data)
    case Decode(i, bytes) =>
      if i + |bytes| <= |x.w.picture| then x.w.(picture := Store(x.w.picture, i, bytes)) else x.w
    case Reached(head) => x.w.(head := WithPointer(head, Address(ch, x, x.w.k)))
    case Reader(_) => x.w
    case _ => Idle
  }

  function Step(ch: Channel, x: Player, a: Action): Player
    requires Fits(ch.layout) && Enabled(ch, x, a)
  {
    var (s', out) := DataQueueRuns.Step(x.s, OpOf(ch, x, a));
    Player(s', WriterAfter(ch, x, a, s', out))
  }

  /** The frame a release completes, as its reader should get it. */
  function FrameOf(ch: Channel, x: Player, a: Action): seq<Received>
    requires Fits(ch.layout) && Enabled(ch, x, a)
  {
    if !a.Release? then []
    else if x.w.Whole? then [Got(x.w.head, if ch.pool then [] else x.w.data)]
    else [Got(x.w.head, Slice(x.w.picture, 0, SizeField(RENDER_FRAME, x.w.head)))]
  }

  predicate CanRun(ch: Channel, x: Player, acts: seq<Action>)
    requires Fits(ch.layout)
    decreases |acts|
  { acts == [] || (Enabled(ch, x, acts[0]) && CanRun(ch, Step(ch, x, acts[0]), acts[1..])) }

  /** What the run does to the queue. */
  function Ops(ch: Channel, x: Player, acts: seq<Action>): seq<Op>
    requires Fits(ch.layout) && CanRun(ch, x, acts)
    decreases |acts|
  { if acts == [] then [] else [OpOf(ch, x, acts[0])] + Ops(ch, Step(ch, x, acts[0]), acts[1..]) }

  /** The frames it completes. */
  function Frames(ch: Channel, x: Player, acts: seq<Action>): seq<Received>
    requires Fits(ch.layout) && CanRun(ch, x, acts)
    decreases |acts|
  { if acts == [] then [] else FrameOf(ch, x, acts[0]) + Frames(ch, Step(ch, x, acts[0]), acts[1..]) }

  // ----- what every step keeps -----

  /** The reservation holds what the writer has written so far. */
  ghost predicate WriterInv(ch: Channel, x: Player)
    requires Fits(ch.layout)
  {
    var s, at := x.s, Begin(x);
    && (x.w.Idle? <==> !s.writing)
    && (s.writing ==> HEAD <= at && at + s.reserved <= |s.q.buf|)
    && match x.w
       case Idle => true
       case Reserved(h, d) => Truthful(ch, h, d) && s.reserved == |Put(ch.pool, h, d)|
       case HeadWritten(h, d) =>
         !ch.pool && Truthful(ch, h, d) && s.reserved == |Put(ch.pool, h, d)| && s.q.buf[at..at + |h|] == h
       case Whole(h, d) =>
         Truthful(ch, h, d) && s.reserved == |Put(ch.pool, h, d)| && s.q.buf[at..at + s.reserved] == Put(ch.pool, h, d)
       case Fetching(size, k) => ch.rendered && s.reserved == FetchedReservation(size, k)
       case Decoding(size, k, h, p) =>
         ch.rendered && s.reserved == FetchedReservation(size, k) && BufferHolds(ch, x, size, k, h, p)
  }

  ghost predicate BufferHolds(ch: Channel, x: Player, size: nat, k: nat, h: seq<byte>, p: seq<byte>)
    requires HEAD <= Begin(x)
  {
    var at, off := Begin(x), BufferAt(ch, x, k);
    && RENDER_FRAME.headSize <= off && at + off + size <= |x.s.q.buf|
    && |h| == RENDER_FRAME.headSize && |p| == size
    && x.s.q.buf[at..at + |h|] == h && x.s.q.buf[at + off..at + off + size] == p
    && DataPointer(h) == ch.base + at + off && 0 <= SizeField(RENDER_FRAME, h) <= size
  }

  ghost predicate Inv(ch: Channel, x: Player, b: Residents) {
    WellFormed(ch, x.s) && Consistent(x.s, b) && WriterInv(ch, x)
  }

  /** The address of a frame buffer, and that it lies in the reservation. */
  lemma BufferFits(ch: Channel, x: Player, size: nat, k: nat)
    requires HEAD <= Begin(x) && Begin(x) + FetchedReservation(size, k) <= |x.s.q.buf| && WellFormed(ch, x.s)
    ensures var at, off := Begin(x), BufferAt(ch, x, k);
      && RENDER_FRAME.headSize <= off && off + size < FetchedReservation(size, k)
      && Address(ch, x, k) == ch.base + at + off <= 0xffff_ffff
  {
    var _ := AlignedFrameFits(ch.base + Begin(x), size, k);
    hide FetchedOffset, Pow2;
  }

  lemma WithPointerFields(head: seq<byte>, address: nat)
    requires |head| == RENDER_FRAME.headSize && address <= 0xffff_ffff
    ensures var h := WithPointer(head, address);
      |h| == |head| && DataPointer(h) == address && SizeField(RENDER_FRAME, h) == SizeField(RENDER_FRAME, head)
  {
    hide Decode32, Encode32;
    AddressKept(address);
    var h := WithPointer(head, address);
    assert h[DATA_POINTER_AT..DATA_POINTER_AT + 4] == Encode32(address);
    assert h[8..12] == head[8..12];
  }

  /** A reader that knows the layout gets a copied frame back. */
  lemma CopyIsRead(ch: Channel, at: int, head: seq<byte>, data: seq<byte>)
    requires Fits(ch.layout) && (ch.rendered ==> ch.layout == RENDER_FRAME && !ch.pool) && Truthful(ch, head, data)
    ensures ReadFrame(ch, Located(at, Put(ch.pool, head, data))) == Got(head, if ch.pool then [] else data)
  {
    if ch.rendered {
      CopiedFrameReceived(ch.base + at, head, data);
    } else {
      RoundTripIff(ch.layout, ch.pool, head, data);
    }
  }

  /** The video render reader gets a frame buffer's picture back from where the decoder left it. */
  lemma BufferIsRead(ch: Channel, x: Player, size: nat, k: nat, head: seq<byte>, picture: seq<byte>)
    requires HEAD <= Begin(x) && BufferHolds(ch, x, size, k, head, picture) && WellFormed(ch, x.s) && ch.rendered
    ensures var at, used := Begin(x), SizeField(RENDER_FRAME, head); var n := BufferAt(ch, x, k) + used;
      && 0 <= used <= |picture| && at + n <= |x.s.q.buf|
      && ReadFrame(ch, Located(at, x.s.q.buf[at..at + n])) == Got(head, picture[..used])
  {
    hide Decode32, FetchedOffset;
    var at, off, used := Begin(x), BufferAt(ch, x, k), SizeField(RENDER_FRAME, head);
    FrameParts(x.s.q.buf, at, off, used, size, |head|);
    AlignedFrameReceived(ch.base + at, k, x.s.q.buf[at..at + (off + used)], used);
  }

  /** A write changes its own bytes and nothing else. */
  ghost predicate Wrote(x: Player, x': Player, off: nat, data: seq<byte>) {
    var at := Begin(x);
    && HEAD <= at && at + off + |data| <= |x.s.q.buf|
    && x'.s == x.s.(q := x.s.q.(buf := Store(x.s.q.buf, at + off, data)))
  }

  /** A part of a picture stored in the buffer that holds it. */
  lemma StoredInside(buf: seq<byte>, at: nat, picture: seq<byte>, i: nat, bytes: seq<byte>)
    requires at + |picture| <= |buf| && buf[at..at + |picture|] == picture && i + |bytes| <= |picture|
    ensures Store(buf, at + i, bytes)[at..at + |picture|] == Store(picture, i, bytes)
  {
    var buf', n := Store(buf, at + i, bytes), |picture|;
    StoredSlices(buf, at + i, bytes, at, at + i);
    StoredSlices(buf, at + i, bytes, at + i + |bytes|, at + n);
    assert buf[at..at + i] == buf[at..at + n][..i];
    assert buf[at + i + |bytes|..at + n] == buf[at..at + n][i + |bytes|..];
    assert buf'[at..at + n] == buf'[at..at + i] + buf'[at + i..at + i + |bytes|] + buf'[at + i + |bytes|..at + n];
  }

  lemma SubSlice(buf: seq<byte>, at: nat, n: nat, lo: nat, hi: nat)
    requires lo <= hi <= n && at + n <= |buf|
    ensures buf[at..at + n][lo..hi] == buf[at + lo..at + hi]
  {
    var s := buf[at..at + n];
    assert forall i :: 0 <= i < hi - lo ==> s[lo..hi][i] == s[lo + i] == buf[at + lo + i];
  }

  lemma FrameParts(buf: seq<byte>, at: nat, off: nat, used: nat, size: nat, n: nat)
    requires n <= off && used <= size && at + off + size <= |buf|
    ensures var block := buf[at..at + (off + used)];
      block[..n] == buf[at..at + n] && block[off..] == buf[at + off..at + off + size][..used]
  {
  }

  lemma WriteWrote(ch: Channel, x: Player, b: Residents, a: Action, off: nat, data: seq<byte>)
    requires Inv(ch, x, b) && Enabled(ch, x, a) && OpOf(ch, x, a) == OpWrite(off, data)
    requires x.s.writing && off + |data| <= x.s.reserved
    ensures Consistent(Step(ch, x, a).s, b) && Wrote(x, Step(ch, x, a), off, data)
    ensures Legal(x.s, OpOf(ch, x, a)) && WellFormed(ch, Step(ch, x, a).s)
    ensures Step(ch, x, a).w == WriterAfter(ch, x, a, Step(ch, x, a).s, Written)
  {
    hide OpOf, WriterAfter, WriterInv, Enabled, Store;
    WrittenSystem(x.s, b, off, data);
    hide Consistent, DataQueueRuns.Step;
  }

  lemma WrittenSystem(s: System, b: Residents, off: nat, data: seq<byte>)
    requires Consistent(s, b) && s.writing && off + |data| <= s.reserved
    ensures 0 <= s.q.ring.wp && s.q.ring.wp + HEAD + s.reserved <= |s.q.buf|
    ensures var (s', out) := DataQueueRuns.Step(s, OpWrite(off, data));
      && out == Written && Consistent(s', b)
      && s' == s.(q := s.q.(buf := Store(s.q.buf, s.q.ring.wp + HEAD + off, data)))
  {
    hide Store;
    SpaceInBuffer(s, b);
    WriteKept(s, b, off, data);
    WriteHolds(s.q, b, off, data);
  }

  lemma TruthfulLength(ch: Channel, head: seq<byte>, data: seq<byte>)
    requires Fits(ch.layout) && Truthful(ch, head, data)
    ensures |head| == ch.layout.headSize && |Put(ch.pool, head, data)| >= |head| > 0
  {
  }

  lemma HeadCopied(ch: Channel, x: Player, b: Residents)
    requires Inv(ch, x, b) && x.w.Reserved?
    ensures Legal(x.s, OpOf(ch, x, WriteNext)) && Inv(ch, Step(ch, x, WriteNext), b)
  {
    hide Step, Consistent, Legal, FetchedReservation, BufferHolds, Store, Address, BufferAt, Slice, Truthful;
    hide DataQueueRuns.Step;
    var h := x.w.head;
    TruthfulLength(ch, h, x.w.data);
    WriteWrote(ch, x, b, WriteNext, 0, h);
    StoredSlices(x.s.q.buf, Begin(x), h, 0, 0);
    assert h + [] == h;
  }

  lemma PayloadCopied(ch: Channel, x: Player, b: Residents)
    requires Inv(ch, x, b) && x.w.HeadWritten?
    ensures Legal(x.s, OpOf(ch, x, WriteNext)) && Inv(ch, Step(ch, x, WriteNext), b)
  {
    hide Step, Consistent, Legal, FetchedReservation, BufferHolds, Store, Address, BufferAt, Slice, Truthful;
    hide DataQueueRuns.Step;
    var h, d := x.w.head, x.w.data;
    TruthfulLength(ch, h, d);
    WriteWrote(ch, x, b, WriteNext, |h|, d);
    StoredBehind(x.s.q.buf, Begin(x), h, d);
  }

  /** The memory of a frame buffer after its pointer and an empty size have been written. */
  lemma FetchedBuffer(ch: Channel, x: Player, x': Player, size: nat, k: nat)
    requires WellFormed(ch, x.s) && HEAD <= Begin(x) && Begin(x) + FetchedReservation(size, k) <= |x.s.q.buf|
    requires x'.s.q.ring == x.s.q.ring
    requires x'.s.q.buf == Store(x.s.q.buf, Begin(x) + DATA_POINTER_AT, Encode32(Address(ch, x, k)) + Encode32(0))
    ensures var at, off := Begin(x), BufferAt(ch, x, k);
      && RENDER_FRAME.headSize <= off && at + off + size <= |x.s.q.buf|
      && BufferHolds(ch, x', size, k, x'.s.q.buf[at..at + RENDER_FRAME.headSize], x'.s.q.buf[at + off..at + off + size])
  {
    hide Encode32, Address, Store, FetchedReservation, BufferAt, SizeField, DataPointer, Begin;
    BufferFits(ch, x, size, k);
    var address, at := Address(ch, x, k), Begin(x);
    StoredSlices(x.s.q.buf, at + DATA_POINTER_AT, Encode32(address) + Encode32(0), 0, 0);
    SameBuffer(ch, x, x', k);
    var h := x'.s.q.buf[at..at + RENDER_FRAME.headSize];
    PointerHead(h, address);
    SubSlice(x'.s.q.buf, at, RENDER_FRAME.headSize, 4, 12);
  }

  /** After a write of the decoder. */
  lemma DecodedBuffer(ch: Channel, x: Player, x': Player, size: nat, k: nat, h: seq<byte>, p: seq<byte>, i: nat,
      bytes: seq<byte>)
    requires HEAD <= Begin(x) && BufferHolds(ch, x, size, k, h, p) && i + |bytes| <= size
    requires x'.s.q.ring == x.s.q.ring && 0 <= BufferAt(ch, x, k)
        && Begin(x) + BufferAt(ch, x, k) + i + |bytes| <= |x.s.q.buf|
    requires x'.s.q.buf == Store(x.s.q.buf, Begin(x) + BufferAt(ch, x, k) + i, bytes)
    ensures |p| == size && BufferHolds(ch, x', size, k, h, Store(p, i, bytes))
  {
    hide FetchedOffset, Decode32, Store;
    var at, off := Begin(x), BufferAt(ch, x, k);
    SameBuffer(ch, x, x', k);
    StoredInside(x.s.q.buf, at + off, p, i, bytes);
    StoredSlices(x.s.q.buf, at + off + i, bytes, at, at + RENDER_FRAME.headSize);
  }

  /** After the header of the finished frame. */
  lemma ReachedBuffer(ch: Channel, x: Player, x': Player, size: nat, k: nat, h: seq<byte>, p: seq<byte>,
      head: seq<byte>)
    requires HEAD <= Begin(x) && BufferHolds(ch, x, size, k, h, p)
    requires |head| == RENDER_FRAME.headSize && 0 <= SizeField(RENDER_FRAME, head) <= size
    requires DataPointer(head) == ch.base + Begin(x) + BufferAt(ch, x, k)
    requires x'.s.q.ring == x.s.q.ring && Begin(x) + |head| <= |x.s.q.buf|
        && x'.s.q.buf == Store(x.s.q.buf, Begin(x), head)
    ensures BufferHolds(ch, x', size, k, head, p)
  {
    hide FetchedOffset, Decode32, Store;
    var at, off := Begin(x), BufferAt(ch, x, k);
    SameBuffer(ch, x, x', k);
    StoredSlices(x.s.q.buf, at, head, at + off, at + off + size);
  }

  lemma HeldInBuffer(ch: Channel, x: Player, size: nat, k: nat, h: seq<byte>, p: seq<byte>)
    requires HEAD <= Begin(x) && BufferHolds(ch, x, size, k, h, p)
    ensures RENDER_FRAME.headSize <= BufferAt(ch, x, k) && Begin(x) + BufferAt(ch, x, k) + size <= |x.s.q.buf|
        && |p| == size
  {
  }

  lemma FetchIs(ch: Channel, x: Player)
    requires Fits(ch.layout) && x.w.Fetching?
    ensures Enabled(ch, x, WriteNext)
    ensures OpOf(ch, x, WriteNext) == OpWrite(DATA_POINTER_AT, Encode32(Address(ch, x, x.w.k)) + Encode32(0))
    ensures |Encode32(Address(ch, x, x.w.k)) + Encode32(0)| == 8
    ensures forall s', out ::
      WriterAfter(ch, x, WriteNext, s', out)
      == Decoding(x.w.size, x.w.k, Slice(s'.q.buf, Begin(x), RENDER_FRAME.headSize),
                  Slice(s'.q.buf, Begin(x) + BufferAt(ch, x, x.w.k), x.w.size))
  {
    hide Address, BufferAt, Encode32, Slice;
  }

  lemma DecodeIs(ch: Channel, x: Player, i: nat, bytes: seq<byte>)
    requires Fits(ch.layout) && Enabled(ch, x, Decode(i, bytes))
    ensures x.w.Decoding? && i + |bytes| <= x.w.size
    ensures BufferAt(ch, x, x.w.k) >= 0 && |x.w.picture| == x.w.size ==> DecodeWrites(ch, x, i, bytes)
  {
    hide Address, BufferAt, Store;
  }

  ghost predicate DecodeWrites(ch: Channel, x: Player, i: nat, bytes: seq<byte>)
    requires Fits(ch.layout) && Enabled(ch, x, Decode(i, bytes)) && BufferAt(ch, x, x.w.k) >= 0
        && |x.w.picture| == x.w.size
  {
    && OpOf(ch, x, Decode(i, bytes)) == OpWrite(BufferAt(ch, x, x.w.k) + i, bytes)
    && forall s', out ::
         WriterAfter(ch, x, Decode(i, bytes), s', out) == x.w.(picture := Store(x.w.picture, i, bytes))
  }

  lemma ReleaseIs(ch: Channel, x: Player)
    requires Fits(ch.layout) && Enabled(ch, x, Release)
    ensures OpOf(ch, x, Release).OpSend?
    ensures Step(ch, x, Release) == Player(DataQueueRuns.Step(x.s, OpOf(ch, x, Release)).0, Idle)
  {
    hide Address, BufferAt, DataQueueRuns.Step, Committed;
  }

  lemma IdleInv(ch: Channel, x: Player)
    requires Fits(ch.layout) && x.w.Idle? && !x.s.writing
    ensures WriterInv(ch, x)
  {
  }

  lemma DecodingIff(ch: Channel, x: Player)
    requires Fits(ch.layout) && x.w.Decoding?
    ensures WriterInv(ch, x) <==>
      && x.s.writing && HEAD <= Begin(x) && Begin(x) + x.s.reserved <= |x.s.q.buf|
      && ch.rendered && x.s.reserved == FetchedReservation(x.w.size, x.w.k)
      && BufferHolds(ch, x, x.w.size, x.w.k, x.w.head, x.w.picture)
  {
    hide BufferHolds;
  }

  /** The fetch writes its pointer and an empty size. */
  lemma FetchStep(ch: Channel, x: Player, b: Residents)
    requires Inv(ch, x, b) && x.w.Fetching?
    ensures Legal(x.s, OpOf(ch, x, WriteNext)) && Inv(ch, Step(ch, x, WriteNext), b)
  {
    hide Consistent, BufferAt, Address, BufferHolds, Store, OpOf, WriterAfter, Enabled, WriterInv, Step, Legal;
    hide Encode32;
    hide FetchedReservation, DataQueueRuns.Step;
    var size, k := x.w.size, x.w.k;
    FetchIs(ch, x);
    FetchingKnown(ch, x);
    WriteWrote(ch, x, b, WriteNext, DATA_POINTER_AT, Encode32(Address(ch, x, k)) + Encode32(0));
    FetchedBuffer(ch, x, Step(ch, x, WriteNext), size, k);
    SameBuffer(ch, x, Step(ch, x, WriteNext), k);
    DecodingIff(ch, Step(ch, x, WriteNext));
  }

  lemma FetchingKnown(ch: Channel, x: Player)
    requires Fits(ch.layout) && WriterInv(ch, x) && x.w.Fetching?
    ensures x.s.writing && x.s.reserved == FetchedReservation(x.w.size, x.w.k) >= DATA_POINTER_AT + 8
    ensures ch.rendered && HEAD <= Begin(x) && Begin(x) + x.s.reserved <= |x.s.q.buf|
  {
  }

  /** The decoder's writes change its picture and nothing else. */
  lemma DecodeStep(ch: Channel, x: Player, b: Residents, i: nat, bytes: seq<byte>)
    requires Inv(ch, x, b) && Enabled(ch, x, Decode(i, bytes))
    ensures Legal(x.s, OpOf(ch, x, Decode(i, bytes))) && Inv(ch, Step(ch, x, Decode(i, bytes)), b)
  {
    hide Consistent, BufferAt, Address, BufferHolds, Store, OpOf, WriterAfter, Enabled, WriterInv, Step, Legal;
    hide FetchedReservation, DataQueueRuns.Step;
    DecodeIs(ch, x, i, bytes);
    var size, k, p := x.w.size, x.w.k, x.w.picture;
    DecodingIff(ch, x);
    HeldInBuffer(ch, x, size, k, x.w.head, p);
    BufferFits(ch, x, size, k);
    WriteWrote(ch, x, b, Decode(i, bytes), BufferAt(ch, x, k) + i, bytes);
    DecodedBuffer(ch, x, Step(ch, x, Decode(i, bytes)), size, k, x.w.head, p, i, bytes);
    DecodingIff(ch, Step(ch, x, Decode(i, bytes)));
  }

  /** The header of the finished frame keeps the buffer's pointer. */
  lemma ReachedStep(ch: Channel, x: Player, b: Residents, head: seq<byte>)
    requires Inv(ch, x, b) && Enabled(ch, x, Reached(head))
    ensures Legal(x.s, OpOf(ch, x, Reached(head))) && Inv(ch, Step(ch, x, Reached(head)), b)
  {
    var size, k := x.w.size, x.w.k;
    hide Consistent, BufferAt, Address, BufferHolds, Store, SizeField, DataPointer, WithPointer;
    BufferFits(ch, x, size, k);
    var h := WithPointer(head, Address(ch, x, k));
    WithPointerFields(head, Address(ch, x, k));
    WriteWrote(ch, x, b, Reached(head), 0, h);
    hide Step, Legal, FetchedReservation;
    ReachedBuffer(ch, x, Step(ch, x, Reached(head)), size, k, x.w.head, x.w.picture, h);
    DecodingIff(ch, Step(ch, x, Reached(head)));
  }

  lemma SameBuffer(ch: Channel, x: Player, x': Player, k: nat)
    requires x'.s.q.ring == x.s.q.ring
    ensures Begin(x') == Begin(x) && BufferAt(ch, x', k) == BufferAt(ch, x, k)
  {
  }

  lemma PointerHead(h: seq<byte>, address: nat)
    requires |h| == RENDER_FRAME.headSize && address <= 0xffff_ffff
    ensures h[4..12] == Encode32(address) + Encode32(0) ==> DataPointer(h) == address && SizeField(RENDER_FRAME, h) == 0
  {
    hide Encode32, Decode32;
    AddressKept(address);
    ZeroSize();
    assert h[4..8] == h[4..12][..4] && h[8..12] == h[4..12][4..];
  }

  lemma ZeroSize()
    ensures Decode32(Encode32(0)) == 0
  {
  }

  lemma ReserveStep(ch: Channel, x: Player, b: Residents, a: Action) returns (b': Residents)
    requires Inv(ch, x, b) && Enabled(ch, x, a) && (a.Copy? || a.Fill? || a.Fetch?)
    ensures Legal(x.s, OpOf(ch, x, a)) && Inv(ch, Step(ch, x, a), b')
    ensures !DataQueueRuns.Step(x.s, OpOf(ch, x, a)).1.Sent?
  {
    hide Consistent, FetchedReservation, DataQueueRuns.Step, Address, BufferAt, BufferHolds, Slice, Store, Truthful;
    hide Legal;
    ReserveIs(ch, x, a);
    var n := OpOf(ch, x, a).n;
    b' := ReservedSystem(x.s, b, n);
    EmptyFrame(ch);
  }

  lemma ReserveIs(ch: Channel, x: Player, a: Action)
    requires Fits(ch.layout) && WriterInv(ch, x) && Enabled(ch, x, a) && (a.Copy? || a.Fill? || a.Fetch?)
    ensures OpOf(ch, x, a).OpReserve? && Legal(x.s, OpOf(ch, x, a)) && !x.s.writing
  {
  }

  /** The filler is a truthful frame without data. */
  lemma EmptyFrame(ch: Channel)
    requires Fits(ch.layout)
    ensures var zeros := Zeros(ch.layout.headSize); Truthful(ch, zeros, []) && Put(ch.pool, zeros, []) == zeros
  {
    var zeros := Zeros(ch.layout.headSize);
    assert zeros[ch.layout.sizeAt..ch.layout.sizeAt + 4] == [0, 0, 0, 0];
    assert zeros + [] == zeros;
  }

  lemma ReservedSystem(s: System, b: Residents, n: nat) returns (b': Residents)
    requires Consistent(s, b) && !s.writing
    ensures var (s', out) := DataQueueRuns.Step(s, OpReserve(n));
      && Consistent(s', b') && s'.q.buf == s.q.buf && s'.writing == (out == Granted) && !out.Sent?
      && (out == Granted ==> s'.reserved == n && 0 <= s'.q.ring.wp && s'.q.ring.wp + HEAD + n <= |s'.q.buf|)
  {
    hide Consistent;
    b' := DataQueueRuns.ReserveStep(s, b, n);
    var s' := DataQueueRuns.Step(s, OpReserve(n)).0;
    if s'.writing {
      SpaceInBuffer(s', b');
    }
  }

  lemma SpaceInBuffer(s: System, b: Residents)
    requires Consistent(s, b) && s.writing
    ensures 0 <= s.q.ring.wp && s.q.ring.wp + HEAD + s.reserved <= |s.q.buf|
  {
  }

  /** What the writer has written does not depend on the reader's progress. */
  lemma SameMemory(ch: Channel, x: Player, x': Player)
    requires Fits(ch.layout) && WriterInv(ch, x) && x'.w == x.w
    requires x'.s.q.buf == x.s.q.buf && x'.s.q.ring.wp == x.s.q.ring.wp
    requires x'.s.writing == x.s.writing && x'.s.reserved == x.s.reserved
    ensures WriterInv(ch, x')
  {
    hide FetchedOffset, FetchedReservation, SizeField, Put, Truthful, DataPointer;
  }

  lemma ReaderStep(ch: Channel, x: Player, b: Residents, op: Op) returns (b': Residents)
    requires Inv(ch, x, b) && Enabled(ch, x, Reader(op))
    ensures Inv(ch, Step(ch, x, Reader(op)), b')
    ensures !DataQueueRuns.Step(x.s, op).1.Sent?
  {
    hide WriterInv;
    ReaderStepFrame(x.s, b, op);
    b' := StepConsistent(x.s, b, op);
    hide Consistent;
    assert !DataQueueRuns.Step(x.s, op).1.Sent?;
    hide DataQueueRuns.Step;
    SameMemory(ch, x, Step(ch, x, Reader(op)));
  }

  /** What a release commits: all of a copied frame, or a frame buffer as far as it is used. */
  lemma ReleasedBlock(ch: Channel, x: Player)
    requires WellFormed(ch, x.s) && WriterInv(ch, x) && Enabled(ch, x, Release)
    ensures var at, n := Begin(x), OpOf(ch, x, Release).m;
      && x.s.writing && 0 < n <= x.s.reserved && HEAD <= at && at + n <= |x.s.q.buf|
      && [ReadFrame(ch, Located(at, x.s.q.buf[at..at + n]))] == FrameOf(ch, x, Release)
  {
    hide ReadFrame, SizeField, BufferAt, Address, BufferHolds, Store;
    var at := Begin(x);
    if x.w.Whole? {
      TruthfulLength(ch, x.w.head, x.w.data);
      CopyIsRead(ch, at, x.w.head, x.w.data);
    } else {
      DecodingIff(ch, x);
      HeldInBuffer(ch, x, x.w.size, x.w.k, x.w.head, x.w.picture);
      BufferFits(ch, x, x.w.size, x.w.k);
      BufferIsRead(ch, x, x.w.size, x.w.k, x.w.head, x.w.picture);
    }
  }

  /** A release commits a block that its reader turns back into the frame. */
  lemma ReleaseStep(ch: Channel, x: Player, b: Residents) returns (b': Residents)
    requires Inv(ch, x, b) && Enabled(ch, x, Release)
    ensures Legal(x.s, OpOf(ch, x, Release)) && Inv(ch, Step(ch, x, Release), b')
    ensures var out := DataQueueRuns.Step(x.s, OpOf(ch, x, Release)).1;
      out.Sent? && [ReadFrame(ch, out.placed)] == FrameOf(ch, x, Release)
  {
    hide ReadFrame, FrameOf, Committed, WriterInv, Consistent, OpOf, WriterAfter, Step, Enabled, DataQueueRuns.Step;
    ReleasedBlock(ch, x);
    ReleaseIs(ch, x);
    var n := OpOf(ch, x, Release).m;
    b' := SentSystem(x.s, b, n);
    IdleInv(ch, Step(ch, x, Release));
  }

  lemma SentSystem(s: System, b: Residents, n: nat) returns (b': Residents)
    requires Consistent(s, b) && s.writing && n <= s.reserved
    ensures var (s', out) := DataQueueRuns.Step(s, OpSend(n));
      && Consistent(s', b') && !s'.writing && |s'.q.buf| == |s.q.buf|
      && (n == 0 ==> !out.Sent?)
      && 0 <= s.q.ring.wp && s.q.ring.wp + HEAD + n <= |s.q.buf|
      && (n > 0 ==> out == Sent(Located(s.q.ring.wp + HEAD, s.q.buf[s.q.ring.wp + HEAD..s.q.ring.wp + HEAD + n])))
  {
    SpaceInBuffer(s, b);
    b' := DataQueueRuns.SendStep(s, b, n);
    if n > 0 {
      ReservationIsStable(s, b, [], n);
    }
    hide Consistent;
  }

  lemma DropStep(ch: Channel, x: Player, b: Residents) returns (b': Residents)
    requires Inv(ch, x, b) && Enabled(ch, x, Drop)
    ensures Legal(x.s, OpOf(ch, x, Drop)) && Inv(ch, Step(ch, x, Drop), b')
    ensures !DataQueueRuns.Step(x.s, OpOf(ch, x, Drop)).1.Sent?
  {
    b' := SentSystem(x.s, b, 0);
    hide Consistent, DataQueueRuns.Step;
  }

  /** The step is a legal operation on the queue, and commits a block exactly when it completes a
      frame, which the reader will get from that block. */
  ghost predicate Delivers(ch: Channel, x: Player, a: Action)
    requires Fits(ch.layout) && Enabled(ch, x, a)
  {
    && Legal(x.s, OpOf(ch, x, a))
    && var out := DataQueueRuns.Step(x.s, OpOf(ch, x, a)).1;
       (if out.Sent? then [ReadFrame(ch, out.placed)] else []) == FrameOf(ch, x, a)
  }

  lemma StepDelivers(ch: Channel, x: Player, b: Residents, a: Action) returns (b': Residents)
    requires Inv(ch, x, b) && Enabled(ch, x, a)
    ensures Delivers(ch, x, a) && Inv(ch, Step(ch, x, a), b')
  {
    hide Inv, ReadFrame, Step;
    b' := b;
    match a
    case WriteNext =>
      match x.w {
        case Reserved(_, _) => HeadCopied(ch, x, b);
        case HeadWritten(_, _) => PayloadCopied(ch, x, b);
        case _ => FetchStep(ch, x, b);
      }
    case Decode(i, bytes) => DecodeStep(ch, x, b, i, bytes);
    case Reached(head) => ReachedStep(ch, x, b, head);
    case Release => b' := ReleaseStep(ch, x, b);
    case Drop => b' := DropStep(ch, x, b);
    case Reader(op) => b' := ReaderStep(ch, x, b, op);
    case _ => b' := ReserveStep(ch, x, b, a);
  }

  ghost predicate Matched(ch: Channel, sent: seq<Located>, frames: seq<Received>)
    requires Fits(ch.layout)
  { |sent| == |frames| && forall k :: 0 <= k < |sent| ==> ReadFrame(ch, sent[k]) == frames[k] }

  /** Every run is a legal run of the queue, and the k-th block sent carries the k-th frame. */
  lemma {:induction false} RunDelivers(ch: Channel, x: Player, b: Residents, acts: seq<Action>)
    requires Inv(ch, x, b) && CanRun(ch, x, acts)
    ensures LegalRun(x.s, Ops(ch, x, acts))
    ensures Matched(ch, SentBlocks(Outcomes(x.s, Ops(ch, x, acts))), Frames(ch, x, acts))
    decreases |acts|
  {
    hide Consistent, WriterInv, ReadFrame, Enabled, OpOf, FrameOf, Legal, DataQueueRuns.Step, WriterAfter;
    if acts != [] {
      var b' := StepDelivers(ch, x, b, acts[0]);
      RunDelivers(ch, Step(ch, x, acts[0]), b', acts[1..]);
      var ops := Ops(ch, x, acts);
      assert ops[0] == OpOf(ch, x, acts[0]) && ops[1..] == Ops(ch, Step(ch, x, acts[0]), acts[1..]);
      var outs := Outcomes(x.s, ops);
      assert outs[0] == DataQueueRuns.Step(x.s, ops[0]).1 && outs[1..] == Outcomes(Step(ch, x, acts[0]).s, ops[1..]);
    }
  }

  predicate WithoutDrain(acts: seq<Action>) { forall a <- acts :: a != Reader(OpConsumeAll) }

  lemma {:induction false} NoDrainOp(ch: Channel, x: Player, acts: seq<Action>)
    requires Fits(ch.layout) && CanRun(ch, x, acts) && WithoutDrain(acts)
    ensures OpConsumeAll !in Ops(ch, x, acts)
    decreases |acts|
  {
    if acts != [] {
      assert acts[0] in acts && forall a <- acts[1..] :: a in acts;
      hide Step, Enabled;
      assert OpOf(ch, x, acts[0]) != OpConsumeAll;
      hide OpOf;
      NoDrainOp(ch, Step(ch, x, acts[0]), acts[1..]);
    }
  }

  lemma StartInv(ch: Channel, buf: seq<byte>)
    requires |buf| <= INT_MAX && WellFormed(ch, Start(buf))
    ensures Inv(ch, Player(Start(buf), Idle), NO_BLOCKS)
  {
    StartConsistent(buf);
  }

  /** End to end, from an empty queue and without drains: whatever is copied, filled in or decoded in
      place, and however the reader's steps fall between, the frame read k-th is the frame
      completed k-th, header and payload. */
  lemma FramesArriveAsPut(ch: Channel, buf: seq<byte>, acts: seq<Action>)
    requires |buf| <= INT_MAX && WellFormed(ch, Start(buf))
    requires CanRun(ch, Player(Start(buf), Idle), acts) && WithoutDrain(acts)
    ensures var x := Player(Start(buf), Idle);
      var read, frames := ReadBlocks(Outcomes(x.s, Ops(ch, x, acts))), Frames(ch, x, acts);
      |read| <= |frames| && forall k :: 0 <= k < |read| ==> ReadFrame(ch, read[k]) == frames[k]
  {
    hide CanRun, Ops, Frames, Outcomes, SentBlocks, ReadBlocks, ReadFrame, Inv;
    var x := Player(Start(buf), Idle);
    StartInv(ch, buf);
    RunDelivers(ch, x, NO_BLOCKS, acts);
    NoDrainOp(ch, x, acts);
    ReadsAreCommittedInOrder(buf, Ops(ch, x, acts));
    var sent, read := SentBlocks(Outcomes(x.s, Ops(ch, x, acts))), ReadBlocks(Outcomes(x.s, Ops(ch, x, acts)));
    assert forall k :: 0 <= k < |read| ==> read[k] == sent[k];
  }

  /** Whatever a FIFO delivers had been unread or was sent. */
  lemma {:induction false} DeliveredWasSent(l: Lists, outs: seq<Outcome>, ok: Located -> bool)
    requires FifoTrace(l, outs)
    requires forall p <- l.unread :: ok(p)
    requires forall p <- SentBlocks(outs) :: ok(p)
    ensures forall p <- ReadBlocks(outs) :: ok(p)
    decreases |outs|
  {
    if outs != [] {
      var l' := Advance(l, outs[0]);
      assert SentBlocks(outs) == (if outs[0].Sent? then [outs[0].placed] else []) + SentBlocks(outs[1..]);
      forall p | p in l'.unread ensures ok(p) {
        assert p in l.unread || p in SentBlocks(outs);
      }
      forall p | p in SentBlocks(outs[1..]) ensures ok(p) {
        assert p in SentBlocks(outs);
      }
      DeliveredWasSent(l', outs[1..], ok);
      assert outs[0].Read? ==> outs[0].placed in l.unread;
    }
  }

  lemma {:induction false} FramesAreGot(ch: Channel, x: Player, acts: seq<Action>)
    requires Fits(ch.layout) && CanRun(ch, x, acts)
    ensures forall f <- Frames(ch, x, acts) :: f.Got?
    decreases |acts|
  {
    if acts != [] {
      hide Step, Enabled;
      FramesAreGot(ch, Step(ch, x, acts[0]), acts[1..]);
    }
  }

  /** Over every run, with drains as well, no read fails the size check. */
  lemma NoReadFailsTheSizeCheck(ch: Channel, buf: seq<byte>, acts: seq<Action>)
    requires |buf| <= INT_MAX && WellFormed(ch, Start(buf)) && CanRun(ch, Player(Start(buf), Idle), acts)
    ensures var x := Player(Start(buf), Idle);
      forall p <- ReadBlocks(Outcomes(x.s, Ops(ch, x, acts))) :: ReadFrame(ch, p).Got?
  {
    hide CanRun, Ops, Frames, Outcomes, SentBlocks, ReadBlocks, ReadFrame, Inv;
    var x := Player(Start(buf), Idle);
    StartInv(ch, buf);
    RunDelivers(ch, x, NO_BLOCKS, acts);
    FramesAreGot(ch, x, acts);
    StartConsistent(buf);
    var ops := Ops(ch, x, acts);
    RunRefinesFifo(x.s, NO_BLOCKS, ops);
    var sent := SentBlocks(Outcomes(x.s, ops));
    forall p | p in sent ensures ReadFrame(ch, p).Got? {
      var k :| 0 <= k < |sent| && sent[k] == p;
      assert ReadFrame(ch, sent[k]) == Frames(ch, x, acts)[k];
    }
    DeliveredWasSent(ListsOf(x.s.q.ring, NO_BLOCKS), Outcomes(x.s, ops), p => ReadFrame(ch, p).Got?);
  }

  // ----- frames get through -----

  function Final(ch: Channel, x: Player, acts: seq<Action>): Player
    requires Fits(ch.layout) && CanRun(ch, x, acts)
    decreases |acts|
  { if acts == [] then x else Final(ch, Step(ch, x, acts[0]), acts[1..]) }

  lemma {:induction false} RunSnoc(ch: Channel, x: Player, acts: seq<Action>, a: Action)
    requires Fits(ch.layout) && CanRun(ch, x, acts) && Enabled(ch, Final(ch, x, acts), a)
    ensures CanRun(ch, x, acts + [a]) && Final(ch, x, acts + [a]) == Step(ch, Final(ch, x, acts), a)
    ensures Frames(ch, x, acts + [a]) == Frames(ch, x, acts) + FrameOf(ch, Final(ch, x, acts), a)
    decreases |acts|
  {
    hide Step, Enabled, FrameOf;
    if acts == [] {
      assert acts + [a] == [a] && [a][1..] == [];
    } else {
      RunSnoc(ch, Step(ch, x, acts[0]), acts[1..], a);
      assert (acts + [a])[1..] == acts[1..] + [a];
    }
  }

  /** One more action behind a run. */
  lemma Extend(ch: Channel, x0: Player, acts: seq<Action>, x: Player, b: Residents, a: Action)
    returns (acts': seq<Action>, x': Player, b': Residents)
    requires Inv(ch, x, b) && CanRun(ch, x0, acts) && Final(ch, x0, acts) == x && Enabled(ch, x, a)
    ensures acts' == acts + [a] && CanRun(ch, x0, acts') && Final(ch, x0, acts') == x' == Step(ch, x, a)
    ensures Inv(ch, x', b') && Frames(ch, x0, acts') == Frames(ch, x0, acts) + FrameOf(ch, x, a)
  {
    hide CanRun, Final, Frames, Consistent, WriterInv, Step, Enabled, FrameOf;
    RunSnoc(ch, x0, acts, a);
    b' := StepDelivers(ch, x, b, a);
    acts', x' := acts + [a], Step(ch, x, a);
  }

  lemma RunEmpty(ch: Channel, x: Player)
    requires Fits(ch.layout)
    ensures CanRun(ch, x, []) && Final(ch, x, []) == x && Frames(ch, x, []) == []
  {
  }

  /** Where the writer is after each of its actions. */
  lemma WriterMoves(ch: Channel, x: Player, a: Action)
    requires Fits(ch.layout) && Enabled(ch, x, a)
    ensures a.Copy? && Reserve(x.s.q, |Put(ch.pool, a.head, a.data)|).1 == Granted ==>
      Step(ch, x, a).w == Reserved(a.head, a.data)
    ensures a.Fetch? && Reserve(x.s.q, FetchedReservation(a.size, a.k)).1 == Granted ==>
      Step(ch, x, a).w == Fetching(a.size, a.k)
    ensures a.WriteNext? && x.w.Reserved? ==>
      Step(ch, x, a).w == if ch.pool || x.w.data == [] then Whole(x.w.head, x.w.data)
                          else HeadWritten(x.w.head, x.w.data)
    ensures a.WriteNext? && x.w.HeadWritten? ==> Step(ch, x, a).w == Whole(x.w.head, x.w.data)
    ensures a.WriteNext? && x.w.Fetching? ==>
      Step(ch, x, a).w.Decoding? && Step(ch, x, a).w.size == x.w.size && Step(ch, x, a).w.k == x.w.k
    ensures a.Release? ==> Step(ch, x, a).w == Idle
  {
    hide Reserve, Write, Send, Lock, Unlock, ConsumeAll, BufferAt, Address, Slice, Store, WithPointer, Committed;
  }

  /** A put whose reservation is granted completes its frame. */
  lemma CopyCompletes(ch: Channel, x: Player, b: Residents, head: seq<byte>, data: seq<byte>)
    returns (acts: seq<Action>)
    requires Inv(ch, x, b) && x.w.Idle? && Truthful(ch, head, data)
    requires Reserve(x.s.q, |Put(ch.pool, head, data)|).1 == Granted
    ensures CanRun(ch, x, acts) && Final(ch, x, acts).w == Idle
    ensures Frames(ch, x, acts) == [Got(head, if ch.pool then [] else data)]
  {
    hide CanRun, Final, Frames, Inv, Step, Reserve, Put, Truthful;
    WellFormedLayout(ch, x, b);
    RunEmpty(ch, x);
    var x1, b1 := x, b;
    WriterMoves(ch, x1, Copy(head, data));
    acts, x1, b1 := Extend(ch, x, [], x1, b1, Copy(head, data));
    WriterMoves(ch, x1, WriteNext);
    acts, x1, b1 := Extend(ch, x, acts, x1, b1, WriteNext);
    if x1.w.HeadWritten? {
      WriterMoves(ch, x1, WriteNext);
      acts, x1, b1 := Extend(ch, x, acts, x1, b1, WriteNext);
    }
    WriterMoves(ch, x1, Release);
    acts, x1, b1 := Extend(ch, x, acts, x1, b1, Release);
  }

  lemma WellFormedLayout(ch: Channel, x: Player, b: Residents)
    requires Inv(ch, x, b)
    ensures Fits(ch.layout)
  {
  }

  /** A frame buffer whose reservation is granted, filled by the decoder and released, is the frame with
      the decoder's picture and header, but for the pointer in it. */
  lemma FetchCompletes(ch: Channel, x: Player, b: Residents, k: nat, head: seq<byte>, picture: seq<byte>)
    returns (acts: seq<Action>, h: seq<byte>)
    requires Inv(ch, x, b) && x.w.Idle? && ch.rendered && picture != []
    requires |head| == RENDER_FRAME.headSize && SizeField(RENDER_FRAME, head) == |picture|
    requires Reserve(x.s.q, FetchedReservation(|picture|, k)).1 == Granted
    ensures CanRun(ch, x, acts) && Final(ch, x, acts).w == Idle
    ensures Frames(ch, x, acts) == [Got(h, picture)]
    ensures |h| == |head| && h[..4] == head[..4] && h[8..] == head[8..]
  {
    hide CanRun, Final, Frames, Inv, Step, Reserve, FetchedReservation, SizeField, Address, BufferAt, Store,
      WithPointer;
    WellFormedLayout(ch, x, b);
    RunEmpty(ch, x);
    var x1, b1 := x, b;
    WriterMoves(ch, x1, Fetch(|picture|, k));
    acts, x1, b1 := Extend(ch, x, [], x1, b1, Fetch(|picture|, k));
    WriterMoves(ch, x1, WriteNext);
    acts, x1, b1 := Extend(ch, x, acts, x1, b1, WriteNext);
    PictureSize(ch, x1, b1);
    DecodeMoves(ch, x1, picture);
    acts, x1, b1 := Extend(ch, x, acts, x1, b1, Decode(0, picture));
    h := ReachedMoves(ch, x1, head);
    acts, x1, b1 := Extend(ch, x, acts, x1, b1, Reached(head));
    ReleaseWhole(ch, x1);
    WriterMoves(ch, x1, Release);
    acts, x1, b1 := Extend(ch, x, acts, x1, b1, Release);
  }

  lemma PictureSize(ch: Channel, x: Player, b: Residents)
    requires Inv(ch, x, b) && x.w.Decoding?
    ensures |x.w.picture| == x.w.size
  {
    hide Consistent;
    DecodingIff(ch, x);
    HeldInBuffer(ch, x, x.w.size, x.w.k, x.w.head, x.w.picture);
  }

  lemma DecodeMoves(ch: Channel, x: Player, picture: seq<byte>)
    requires Fits(ch.layout) && x.w.Decoding? && x.w.size == |picture| == |x.w.picture|
    ensures Enabled(ch, x, Decode(0, picture)) && Step(ch, x, Decode(0, picture)).w == x.w.(picture := picture)
    ensures FrameOf(ch, x, Decode(0, picture)) == []
  {
    hide DataQueueRuns.Step, BufferAt, Address, Store;
    StoredAll(x.w.picture, picture);
  }

  lemma StoredAll(was: seq<byte>, s: seq<byte>)
    requires |was| == |s|
    ensures Store(was, 0, s) == s
  {
  }

  lemma ReachedMoves(ch: Channel, x: Player, head: seq<byte>) returns (h: seq<byte>)
    requires Fits(ch.layout) && ch.rendered && x.w.Decoding? && x.w.size == |x.w.picture|
    requires |head| == RENDER_FRAME.headSize && SizeField(RENDER_FRAME, head) == x.w.size
    ensures Enabled(ch, x, Reached(head)) && Step(ch, x, Reached(head)).w == Decoding(x.w.size, x.w.k, h, x.w.picture)
    ensures |h| == |head| && h[..4] == head[..4] && h[8..] == head[8..] && SizeField(RENDER_FRAME, h) == x.w.size
  {
    hide DataQueueRuns.Step, BufferAt, Address, Store, Decode32, Encode32;
    h := WithPointer(head, Address(ch, x, x.w.k));
    assert h[8..12] == head[8..12] && h[..4] == head[..4] && h[8..] == head[8..];
  }

  lemma ReleaseWhole(ch: Channel, x: Player)
    requires Fits(ch.layout) && x.w.Decoding? && |x.w.head| == RENDER_FRAME.headSize
    requires SizeField(RENDER_FRAME, x.w.head) == |x.w.picture|
    ensures Enabled(ch, x, Release) && FrameOf(ch, x, Release) == [Got(x.w.head, x.w.picture)]
  {
    hide SizeField;
    assert x.w.picture[0..|x.w.picture|] == x.w.picture;
  }
}
