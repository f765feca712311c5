/** Audio and video frames laid over the data queue: a fixed-size header that carries the payload
    size, and the payload behind it. */
module Framing {
  import opened Blocks
  import opened RingLayout
  import opened DataQueueModel
  import opened DataQueueRuns

  /** Header size and the offset of its size field, for 32-bit pointers. */
  datatype Layout = Layout(headSize: nat, sizeAt: nat)

  const AUDIO_DATA := Layout(16, 8)
  const VIDEO_DATA := Layout(20, 12)
  const RENDER_FRAME := Layout(16, 8)
  const DATA_POINTER_AT: nat := 4   // in a rendered frame's header

  predicate Fits(l: Layout) { l.sizeAt + 4 <= l.headSize && DATA_POINTER_AT + 4 <= l.headSize }

  function SizeField(l: Layout, head: seq<byte>): int
    requires Fits(l) && |head| == l.headSize
  { Decode32(head[l.sizeAt..l.sizeAt + 4]) }

  datatype Received = Got(head: seq<byte>, payload: seq<byte>) | BadSize | TooShort

  /** What a put lays into its reservation: with a pool only the header travels. */
  function Put(pool: bool, head: seq<byte>, data: seq<byte>): Block { head + (if pool then [] else data) }

  /** The header lies in front, the payload behind it. */
  lemma PutLayout(pool: bool, head: seq<byte>, data: seq<byte>)
    ensures Put(pool, head, data)[..|head|] == head
    ensures Put(pool, head, data)[|head|..] == if pool then [] else data
  {
  }

  /** What a read makes of the block it locked. */
  function Receive(l: Layout, pool: bool, block: Block): Received
    requires Fits(l)
  {
    if |block| < l.headSize then TooShort
    else
      var head := block[..l.headSize];
      if pool then Got(head, [])
      else if SizeField(l, head) + l.headSize != |block| then BadSize
      else Got(head, block[l.headSize..])
  }

  /** A frame comes back as it was put exactly when its header tells the truth about its size, or
      only the header travels. */
  lemma RoundTripIff(l: Layout, pool: bool, head: seq<byte>, data: seq<byte>)
    requires Fits(l) && |head| == l.headSize
    ensures Receive(l, pool, Put(pool, head, data)) == Got(head, if pool then [] else data)
            <==> pool || SizeField(l, head) == |data|
  {
    var block := Put(pool, head, data);
    assert block[..l.headSize] == head && block[l.headSize..] == if pool then [] else data;
  }

  /** Both sides must agree on the pool: a header put without its payload fails the size check of
      a reader that expects one, unless the payload is empty. */
  lemma PoolMismatchIff(l: Layout, head: seq<byte>, data: seq<byte>)
    requires Fits(l) && |head| == l.headSize && SizeField(l, head) == |data|
    ensures Receive(l, false, Put(true, head, data)) == BadSize <==> data != []
  {
    assert Put(true, head, data) == head && head[..l.headSize] == head;
  }

  /** The zeroed block that wakes a reader is a valid empty frame. */
  lemma FillerReceived(l: Layout, pool: bool)
    requires Fits(l)
    ensures var zeros := seq(l.headSize, _ => 0); Receive(l, pool, zeros) == Got(zeros, [])
  {
    var zeros: seq<byte> := seq(l.headSize, _ => 0);
    assert zeros[..l.headSize] == zeros && zeros[l.sizeAt..l.sizeAt + 4] == [0, 0, 0, 0];
  }

  // ----- rendered video frames -----

  /** An unsigned 32-bit load. */
  function Unsigned32(s: seq<byte>): int
    requires |s| == 4
  { var v := Decode32(s); if v < 0 then v + 0x1_0000_0000 else v }

  /** A stored address is loaded back. */
  lemma AddressKept(n: nat)
    requires n <= 0xffff_ffff
    ensures Unsigned32(Encode32(n)) == n
  {
    BytesOf(n);
  }

  function DataPointer(head: seq<byte>): int
    requires |head| >= DATA_POINTER_AT + 4
  { Unsigned32(head[DATA_POINTER_AT..DATA_POINTER_AT + 4]) }

  /** The video reader also accepts a payload that ends at the block's end wherever its header
      says it starts. `base` is the address of the block. */
  function ReceiveRendered(base: int, block: Block): Received {
    var l := RENDER_FRAME;
    if |block| < l.headSize then TooShort
    else
      var head := block[..l.headSize];
      var data, size := DataPointer(head), SizeField(l, head);
      if data > base && data + size == base + |block| then
        (if 0 <= size then Got(head, block[data - base..]) else TooShort)
      else Receive(l, false, block)
  }

  /** For a frame that was copied in, the header's old pointer cannot mislead the reader. */
  lemma CopiedFrameReceived(base: int, head: seq<byte>, data: seq<byte>)
    requires |head| == RENDER_FRAME.headSize && SizeField(RENDER_FRAME, head) == |data|
    ensures ReceiveRendered(base, Put(false, head, data)) == Got(head, data)
  {
    var block := Put(false, head, data);
    assert block[..RENDER_FRAME.headSize] == head && block[RENDER_FRAME.headSize..] == data;
    RoundTripIff(RENDER_FRAME, false, head, data);
  }

  function Pow2(k: nat): nat { if k == 0 then 1 else 2 * Pow2(k - 1) }

  /** Clears the k low bits, which is what masking with ~(2^k - 1) does. */
  function ClearLow(x: nat, k: nat): nat { if k == 0 then x else 2 * ClearLow(x / 2, k - 1) }

  lemma {:induction false} ClearLowRounds(x: nat, k: nat) returns (m: nat)
    ensures ClearLow(x, k) == m * Pow2(k) && ClearLow(x, k) <= x < ClearLow(x, k) + Pow2(k)
  {
    if k == 0 {
      m := x;
    } else {
      m := ClearLowRounds(x / 2, k - 1);
      assert 2 * (m * Pow2(k - 1)) == m * (2 * Pow2(k - 1));
    }
  }

  /** Where a fetched frame buffer starts, from the block's address: behind the header, rounded up. */
  function FetchedOffset(base: nat, k: nat): int {
    ClearLow(base + RENDER_FRAME.headSize + Pow2(k) - 1, k) - base
  }

  function FetchedReservation(size: nat, k: nat): nat { RENDER_FRAME.headSize + size + Pow2(k) }

  /** For every power-of-two alignment the fetched buffer is aligned, lies behind the header, and
      leaves room for all the bytes asked for. */
  lemma AlignedFrameFits(base: nat, size: nat, k: nat) returns (m: nat)
    ensures var off := FetchedOffset(base, k);
      && base + off == m * Pow2(k)
      && RENDER_FRAME.headSize <= off && off + size < FetchedReservation(size, k)
  {
    m := ClearLowRounds(base + RENDER_FRAME.headSize + Pow2(k) - 1, k);
  }

  /** A released frame buffer is read back at the address the decoder wrote to. */
  lemma AlignedFrameReceived(base: nat, k: nat, block: Block, used: nat)
    requires FetchedOffset(base, k) >= RENDER_FRAME.headSize && |block| == FetchedOffset(base, k) + used
    requires DataPointer(block[..RENDER_FRAME.headSize]) == base + FetchedOffset(base, k)
    requires SizeField(RENDER_FRAME, block[..RENDER_FRAME.headSize]) == used
    ensures ReceiveRendered(base, block) == Got(block[..RENDER_FRAME.headSize], block[FetchedOffset(base, k)..])
  {
  }

  // ----- over the queue -----

  /** A put in three moves, with any reader steps in between, commits exactly header and payload. */
  lemma PutCommitsFrame(s: System, b: Residents, pool: bool, head: seq<byte>, data: seq<byte>,
                        ops1: seq<Op>, ops2: seq<Op>, ops3: seq<Op>)
    requires Consistent(s, b) && s.writing && head != [] && |Put(pool, head, data)| == s.reserved
    requires forall op <- ops1 + ops2 + ops3 :: IsReaderOp(op)
    requires LegalRun(s, ops1)
    requires var s1 := Step(Run(s, ops1), OpWrite(0, head)).0; LegalRun(s1, ops2)
    requires var s1 := Step(Run(s, ops1), OpWrite(0, head)).0;
      var s2 := Step(Run(s1, ops2), OpWrite(|head|, if pool then [] else data)).0; LegalRun(s2, ops3)
    ensures var s1 := Step(Run(s, ops1), OpWrite(0, head)).0;
      var s2 := Step(Run(s1, ops2), OpWrite(|head|, if pool then [] else data)).0;
      Step(Run(s2, ops3), OpSend(|Put(pool, head, data)|)).1
      == Sent(Located(s.q.ring.wp + HEAD, Put(pool, head, data)))
  {
    hide Run, LegalRun, Consistent, Send, Lock, Unlock, ConsumeAll, Reserve, Write, Legal, Store, Step, Ring.Available;
    var rest := if pool then [] else data;
    forall op | op in ops1 || op in ops2 || op in ops3 ensures IsReaderOp(op) {
      assert op in ops1 + ops2 + ops3;
    }
    var b1 := ReaderRunFrame(s, b, ops1);
    var t1, at := Run(s, ops1), s.q.ring.wp + HEAD;
    WriteKept(t1, b1, 0, head);
    var s1 := Step(t1, OpWrite(0, head)).0;
    StoredSlices(t1.q.buf, at, head, 0, 0);
    var b2 := ReaderRunFrame(s1, b1, ops2);
    var t2 := Run(s1, ops2);
    WriteKept(t2, b2, |head|, rest);
    var s2 := Step(t2, OpWrite(|head|, rest)).0;
    StoredBehind(t2.q.buf, at, head, rest);
    ReservationIsStable(s2, b2, ops3, |head| + |rest|);
  }

  /** A write inside the reservation leaves exactly its bytes and changes no others. */
  lemma WriteKept(s: System, b: Residents, off: nat, data: seq<byte>)
    requires Consistent(s, b) && s.writing && off + |data| <= s.reserved
    ensures var s' := Step(s, OpWrite(off, data)).0; var at := s.q.ring.wp + HEAD + off;
      && Consistent(s', b) && 0 <= s.q.ring.wp && at + |data| <= |s.q.buf|
      && s' == s.(q := s.q.(buf := Store(s.q.buf, at, data)))
  {
    hide Store;
    WriteStep(s, b, off, data);
    WriteHolds(s.q, b, off, data);
  }

  lemma StoredSlices(buf: seq<byte>, at: nat, data: seq<byte>, lo: nat, hi: nat)
    requires at + |data| <= |buf| && lo <= hi <= |buf|
    ensures Store(buf, at, data)[at..at + |data|] == data
    ensures hi <= at || at + |data| <= lo ==> Store(buf, at, data)[lo..hi] == buf[lo..hi]
  {
    if hi <= at || at + |data| <= lo {
      StoreFrame(buf, at, data, lo, hi);
    }
  }

  /** A payload stored behind its header. */
  lemma StoredBehind(buf: seq<byte>, at: nat, head: seq<byte>, data: seq<byte>)
    requires at + |head| + |data| <= |buf| && buf[at..at + |head|] == head
    ensures Store(buf, at + |head|, data)[at..at + (|head| + |data|)] == head + data
  {
    StoredSlices(buf, at + |head|, data, at, at + |head|);
    var buf' := Store(buf, at + |head|, data);
    assert buf'[at..at + (|head| + |data|)] == buf'[at..at + |head|] + buf'[at + |head|..at + |head| + |data|];
  }
}
