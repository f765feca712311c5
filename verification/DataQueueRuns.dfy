/** Runs of one writer and one reader over the data queue, and what they deliver. */
module DataQueueRuns {
  import opened Blocks
  import opened RingLayout
  import opened DataQueueModel

  /** `reserved` is the payload size handed out and not yet committed; `held` counts the blocks
      the reader has locked and not yet unlocked. */
  datatype System = System(q: Queue, reserved: nat, writing: bool, held: nat)

  datatype Op =
    | OpReserve(n: nat)
    | OpWrite(off: nat, data: seq<byte>)
    | OpSend(m: nat)
    | OpLock
    | OpUnlock
    | OpConsumeAll

  /** What the callers owe: one writer at a time that stays inside its reservation, no unlock
      without a lock, and no drain while blocks are read-locked or the oldest block fills the
      whole buffer. */
  predicate Legal(s: System, op: Op) {
    match op
    case OpReserve(n) => !s.writing
    case OpWrite(off, data) => s.writing && off + |data| <= s.reserved
    case OpSend(m) => s.writing && m <= s.reserved
    case OpLock => true
    case OpUnlock => s.held > 0
    case OpConsumeAll => s.held == 0 && !DrainTraps(s.q)
  }

  predicate IsReaderOp(op: Op) { op.OpLock? || op.OpUnlock? || op.OpConsumeAll? }

  function Step(s: System, op: Op): (System, Outcome) {
    match op
    case OpReserve(n) =>
      var (q, out) := Reserve(s.q, n);
      (if out == Granted then s.(q := q, reserved := n, writing := true) else s.(q := q), out)
    case OpWrite(off, data) =>
      var (q, out) := Write(s.q, off, data);
      (s.(q := q), out)
    case OpSend(m) =>
      var (q, out) := Send(s.q, m);
      (s.(q := q, writing := false), out)
    case OpLock =>
      var (q, out) := Lock(s.q);
      (s.(q := q, held := if out.Read? then s.held + 1 else s.held), out)
    case OpUnlock =>
      var (q, out) := Unlock(s.q);
      (s.(q := q, held := if out.Released? && s.held > 0 then s.held - 1 else s.held), out)
    case OpConsumeAll =>
      var (q, out) := ConsumeAll(s.q);
      (s.(q := q), out)
  }

  predicate LegalRun(s: System, ops: seq<Op>)
    decreases |ops|
  {
    ops == [] || (Legal(s, ops[0]) && LegalRun(Step(s, ops[0]).0, ops[1..]))
  }

  function Run(s: System, ops: seq<Op>): System
    decreases |ops|
  {
    if ops == [] then s else Run(Step(s, ops[0]).0, ops[1..])
  }

  function Outcomes(s: System, ops: seq<Op>): seq<Outcome>
    decreases |ops|
  {
    if ops == [] then [] else [Step(s, ops[0]).1] + Outcomes(Step(s, ops[0]).0, ops[1..])
  }

  // ----- the simple form: a first-in first-out list of payloads, each in its place -----

  datatype Lists = Lists(locked: seq<Located>, unread: seq<Located>)

  /** The outcomes a plain FIFO may show next. */
  predicate Allowed(l: Lists, out: Outcome) {
    match out
    case MustWait => l.locked + l.unread != []
    case Read(p) => l.unread != [] && p == l.unread[0]
    case Empty => l.unread == []
    case Released(p) => l.locked != [] && p == l.locked[0]
    case DrainedAll => l.locked == []
    case Rejected => false
    case Nothing => false
    case Quit => false
    case Trap => false
    case _ => true
  }

  function Advance(l: Lists, out: Outcome): Lists
    requires Allowed(l, out)
  {
    match out
    case Sent(p) => Lists(l.locked, l.unread + [p])
    case Read(p) => Lists(l.locked + [p], l.unread[1..])
    case Released(p) => Lists(l.locked[1..], l.unread)
    case DrainedAll => Lists([], [])
    case _ => l
  }

  predicate FifoTrace(l: Lists, outs: seq<Outcome>)
    decreases |outs|
  {
    outs == [] || (Allowed(l, outs[0]) && FifoTrace(Advance(l, outs[0]), outs[1..]))
  }

  function SentBlocks(outs: seq<Outcome>): seq<Located> {
    if outs == [] then [] else (if outs[0].Sent? then [outs[0].placed] else []) + SentBlocks(outs[1..])
  }

  function ReadBlocks(outs: seq<Outcome>): seq<Located> {
    if outs == [] then [] else (if outs[0].Read? then [outs[0].placed] else []) + ReadBlocks(outs[1..])
  }

  function ReleasedBlocks(outs: seq<Outcome>): seq<Located> {
    if outs == [] then [] else (if outs[0].Released? then [outs[0].placed] else []) + ReleasedBlocks(outs[1..])
  }

  /** What every legal step keeps: the buffer holds the residents, the reader's count is the
      number of read-locked blocks, and a reservation still fits. */
  ghost predicate Consistent(s: System, b: Residents) {
    && Holds(s.q, b)
    && b.taken == s.held
    && (s.writing ==> s.reserved + HEAD <= s.q.ring.Available())
  }

  function Start(buf: seq<byte>): System { System(Fresh(buf), 0, false, 0) }

  lemma StartConsistent(buf: seq<byte>)
    requires |buf| <= INT_MAX
    ensures Consistent(Start(buf), NO_BLOCKS)
  {
    FreshHolds(buf);
  }

  ghost function ListsOf(r: Ring, b: Residents): Lists
    requires b.taken <= |b.All()|
  { Lists(Places(r, b)[..b.taken], Places(r, b)[b.taken..]) }

  /** The step keeps the system consistent and its outcome is the FIFO's. */
  ghost predicate Refines(s: System, b: Residents, op: Op, b': Residents)
    requires b.taken <= |b.All()| && b'.taken <= |b'.All()|
  {
    var (s', out) := Step(s, op);
    Consistent(s', b') && Allowed(ListsOf(s.q.ring, b), out)
        && ListsOf(s'.q.ring, b') == Advance(ListsOf(s.q.ring, b), out)
  }

  lemma ReserveStep(s: System, b: Residents, n: nat) returns (b': Residents)
    requires Consistent(s, b) && Legal(s, OpReserve(n))
    ensures b'.taken <= |b'.All()| && Refines(s, b, OpReserve(n), b')
  {
    hide Laid, FootprintSum, Places, Ring.Wrapped, Ring.Available, Residents.Wrapped;
    b' := b;
    if n + HEAD <= s.q.ring.size {
      ReserveHolds(s.q, b, n);
      WrapKeepsPlaces(s.q.ring, b, n + HEAD);
      WrapKeepsCount(s.q.ring, b, n + HEAD);
      b' := b.Wrapped(s.q.ring, n + HEAD);
      assert b.All() != [] ==> Places(s.q.ring, b) == Places(s.q.ring, b)[..b.taken] + Places(s.q.ring, b)[b.taken..];
    }
  }

  lemma WrapKeepsCount(r: Ring, b: Residents, need: int)
    ensures b.Wrapped(r, need).taken == b.taken
  {
  }

  lemma WriteStep(s: System, b: Residents, off: nat, data: seq<byte>)
    requires Consistent(s, b) && Legal(s, OpWrite(off, data))
    ensures b.taken <= |b.All()| && Refines(s, b, OpWrite(off, data), b)
  {
    WriteHolds(s.q, b, off, data);
    hide Tiled, Laid;
  }

  lemma SendStep(s: System, b: Residents, m: nat) returns (b': Residents)
    requires Consistent(s, b) && Legal(s, OpSend(m))
    ensures b'.taken <= |b'.All()| && Refines(s, b, OpSend(m), b')
    ensures m > 0 ==> Step(s, OpSend(m)).1.Sent?
  {
    b' := b;
    if m > 0 {
      SendHolds(s.q, b, m);
      hide Laid, FootprintSum, Send, Places;
      b' := b.Committed(Send(s.q, m).1.placed.block);
    }
  }

  lemma LockStep(s: System, b: Residents) returns (b': Residents)
    requires Consistent(s, b)
    ensures b'.taken <= |b'.All()| && Refines(s, b, OpLock, b')
  {
    hide Laid, FootprintSum, Lock, Places;
    LockHolds(s.q, b);
    b' := if b.Unread() == [] then b else b.Taken();
  }

  lemma UnlockStep(s: System, b: Residents) returns (b': Residents)
    requires Consistent(s, b) && Legal(s, OpUnlock)
    ensures b'.taken <= |b'.All()| && Refines(s, b, OpUnlock, b')
  {
    hide Laid, FootprintSum, Unlock, Places;
    UnlockHolds(s.q, b);
    b' := b.Freed();
  }

  lemma ConsumeAllStep(s: System, b: Residents)
    requires Consistent(s, b) && Legal(s, OpConsumeAll)
    ensures Refines(s, b, OpConsumeAll, NO_BLOCKS)
  {
    ConsumeAllIff(s.q, b);
    assert ConsumeAll(s.q).1 == DrainedAll;
    hide Laid, FootprintSum, ConsumeAll, DrainTraps;
    assert NO_BLOCKS.All() == [];
  }

  lemma StepRefinesFifo(s: System, b: Residents, op: Op) returns (b': Residents)
    requires Consistent(s, b) && Legal(s, op)
    ensures b'.taken <= |b'.All()| && Refines(s, b, op, b')
  {
    hide Holds, Step;
    match op
    case OpReserve(n) => b' := ReserveStep(s, b, n);
    case OpWrite(off, data) => WriteStep(s, b, off, data); b' := b;
    case OpSend(m) => b' := SendStep(s, b, m);
    case OpLock => b' := LockStep(s, b);
    case OpUnlock => b' := UnlockStep(s, b);
    case OpConsumeAll => ConsumeAllStep(s, b); b' := NO_BLOCKS;
  }

  /** Every legal run looks like a plain FIFO: reads return the committed payloads in order,
      unmodified and where they were written, locked blocks stay intact until released, aborts leave no trace, commits
      within the reservation never fail, and nothing traps. */
  lemma {:induction false} RunRefinesFifo(s: System, b: Residents, ops: seq<Op>)
    requires Consistent(s, b) && LegalRun(s, ops)
    ensures FifoTrace(ListsOf(s.q.ring, b), Outcomes(s, ops))
    decreases |ops|
  {
    hide Holds, Step, Legal;
    if ops != [] {
      var b' := StepRefinesFifo(s, b, ops[0]);
      RunRefinesFifo(Step(s, ops[0]).0, b', ops[1..]);
      assert Outcomes(s, ops)[1..] == Outcomes(Step(s, ops[0]).0, ops[1..]);
    }
  }

  /** Without a drain, what was unread and what is committed later is what gets read, in that
      order, with nothing skipped, repeated or changed. */
  lemma {:induction false} ReadsAreOldestFirst(l: Lists, outs: seq<Outcome>)
    requires FifoTrace(l, outs) && DrainedAll !in outs
    ensures ReadBlocks(outs) <= l.unread + SentBlocks(outs)
    decreases |outs|
  {
    if outs != [] {
      var l' := Advance(l, outs[0]);
      ReadsAreOldestFirst(l', outs[1..]);
      var sent := SentBlocks(outs[1..]);
      if outs[0].Sent? {
        assert l.unread + SentBlocks(outs) == l'.unread + sent;
      } else if outs[0].Read? {
        assert l.unread + sent == [outs[0].placed] + (l'.unread + sent);
      }
    }
  }

  /** Blocks are released as they were read. */
  lemma {:induction false} ReleasesFollowReads(l: Lists, outs: seq<Outcome>)
    requires FifoTrace(l, outs) && DrainedAll !in outs
    ensures ReleasedBlocks(outs) <= l.locked + ReadBlocks(outs)
    decreases |outs|
  {
    if outs != [] {
      var l' := Advance(l, outs[0]);
      ReleasesFollowReads(l', outs[1..]);
      var read := ReadBlocks(outs[1..]);
      if outs[0].Read? {
        assert l.locked + ReadBlocks(outs) == l'.locked + read;
      } else if outs[0].Released? {
        assert l.locked + read == [outs[0].placed] + (l'.locked + read);
      }
    }
  }

  /** The FIFO theorem from an empty queue. */
  lemma ReadsAreCommittedInOrder(buf: seq<byte>, ops: seq<Op>)
    requires |buf| <= INT_MAX && LegalRun(Start(buf), ops) && OpConsumeAll !in ops
    ensures ReadBlocks(Outcomes(Start(buf), ops)) <= SentBlocks(Outcomes(Start(buf), ops))
    ensures ReleasedBlocks(Outcomes(Start(buf), ops)) <= ReadBlocks(Outcomes(Start(buf), ops))
  {
    StartConsistent(buf);
    RunRefinesFifo(Start(buf), NO_BLOCKS, ops);
    NoDrainOutcome(Start(buf), ops);
    var outs := Outcomes(Start(buf), ops);
    var l := ListsOf(Start(buf).q.ring, NO_BLOCKS);
    assert l == Lists([], []);
    ReadsAreOldestFirst(l, outs);
    ReleasesFollowReads(l, outs);
    assert [] + SentBlocks(outs) == SentBlocks(outs);
    assert [] + ReadBlocks(outs) == ReadBlocks(outs);
  }

  /** Whatever fits an empty buffer goes through: reserved, written, committed, read and released. */
  lemma WriteThenRead(buf: seq<byte>, data: seq<byte>)
    requires 0 < |data| && |data| + 4 <= |buf| <= INT_MAX
    ensures var ops := [OpReserve(|data|), OpWrite(0, data), OpSend(|data|), OpLock, OpUnlock];
      && LegalRun(Start(buf), ops)
      && var p := Located(4, data);
         Outcomes(Start(buf), ops) == [Granted, Written, Sent(p), Read(p), Released(p)]
  {
    hide LegalRun, Outcomes, Step, Legal;
    var s0 := Start(buf);
    var s1 := OneReserved(s0, buf, |data|);
    var s2 := OneWritten(s1, buf, data);
    var s3, b := OneSent(s2, buf, data);
    var s4 := OneRead(s3, b, data);
    var s5 := OneReleased(s4, b.Taken(), data);
    var op1, op2, op3, op4, op5 := OpReserve(|data|), OpWrite(0, data), OpSend(|data|), OpLock, OpUnlock;
    RunEnds(s5);
    RunCons(s4, op5, []);
    assert [op5] + [] == [op5];
    RunCons(s3, op4, [op5]);
    assert [op4] + [op5] == [op4, op5];
    RunCons(s2, op3, [op4, op5]);
    assert [op3] + [op4, op5] == [op3, op4, op5];
    RunCons(s1, op2, [op3, op4, op5]);
    assert [op2] + [op3, op4, op5] == [op2, op3, op4, op5];
    RunCons(s0, op1, [op2, op3, op4, op5]);
    assert [op1] + [op2, op3, op4, op5] == [op1, op2, op3, op4, op5];
  }

  lemma RunEnds(s: System)
    ensures LegalRun(s, []) && Outcomes(s, []) == []
  {
  }

  lemma RunCons(s: System, op: Op, ops: seq<Op>)
    ensures LegalRun(s, [op] + ops) <==> Legal(s, op) && LegalRun(Step(s, op).0, ops)
    ensures Outcomes(s, [op] + ops) == [Step(s, op).1] + Outcomes(Step(s, op).0, ops)
  {
    hide Step, Legal;
    assert ([op] + ops)[1..] == ops;
  }

  lemma OneReserved(s: System, buf: seq<byte>, n: nat) returns (s': System)
    requires s == Start(buf) && n + 4 <= |buf|
    ensures Legal(s, OpReserve(n)) && Step(s, OpReserve(n)) == (s', Granted) && s' == System(Fresh(buf), n, true, 0)
  {
    s' := System(Fresh(buf), n, true, 0);
  }

  lemma OneWritten(s: System, buf: seq<byte>, data: seq<byte>) returns (s': System)
    requires |data| + 4 <= |buf| && s == System(Fresh(buf), |data|, true, 0)
    ensures Legal(s, OpWrite(0, data)) && Step(s, OpWrite(0, data)) == (s', Written)
    ensures s' == System(Queue(Store(buf, 4, data), Ring(|buf|, 0, 0, 0, 0)), |data|, true, 0)
  {
    hide Store;
    s' := Step(s, OpWrite(0, data)).0;
  }

  lemma OneSent(s: System, buf: seq<byte>, data: seq<byte>) returns (s': System, b: Residents)
    requires 0 < |data| && |data| + 4 <= |buf| <= INT_MAX
    requires s == System(Queue(Store(buf, 4, data), Ring(|buf|, 0, 0, 0, 0)), |data|, true, 0)
    ensures Legal(s, OpSend(|data|)) && Step(s, OpSend(|data|)) == (s', Sent(Located(4, data)))
    ensures b == Residents([], [data], 0) && Holds(s'.q, b) && s'.held == 0 && s'.q.ring.rp == 0
  {
    hide Laid, FootprintSum;
    StoredBytes(buf, 4, data);
    FreshHolds(s.q.buf);
    hide Store;
    SendHolds(s.q, NO_BLOCKS, |data|);
    s' := Step(s, OpSend(|data|)).0;
    b := NO_BLOCKS.Committed(data);
    assert [] + [data] == [data];
  }

  lemma OneResident(q: Queue, b: Residents, data: seq<byte>)
    requires Holds(q, b) && b.high == [] && b.low == [data] && q.ring.rp == 0
    ensures b.All() == [data] && Offset(q.ring, b, 0) == 0
    ensures b.taken == 0 ==> b.Unread() == [data]
  {
    assert b.low[..0] == [];
  }

  lemma OneRead(s: System, b: Residents, data: seq<byte>) returns (s': System)
    requires Holds(s.q, b) && s.held == 0 && b == Residents([], [data], 0) && s.q.ring.rp == 0
    ensures Legal(s, OpLock) && Step(s, OpLock) == (s', Read(Located(4, data)))
    ensures Holds(s'.q, b.Taken()) && s'.held == 1 && s'.q.ring.rp == 0
  {
    hide Laid, FootprintSum, Lock;
    OneResident(s.q, b, data);
    LockHolds(s.q, b);
    PlaceOf(s.q.ring, b, 0);
    LockKeepsStart(s.q);
    s' := Step(s, OpLock).0;
  }

  lemma LockKeepsStart(q: Queue)
    ensures Lock(q).0.ring.rp == q.ring.rp
  {
  }

  lemma OneReleased(s: System, b: Residents, data: seq<byte>) returns (s': System)
    requires Holds(s.q, b) && s.held == 1 && b == Residents([], [data], 1) && s.q.ring.rp == 0
    ensures Legal(s, OpUnlock) && Step(s, OpUnlock) == (s', Released(Located(4, data)))
  {
    hide Laid, FootprintSum, Unlock;
    OneResident(s.q, b, data);
    UnlockHolds(s.q, b);
    PlaceOf(s.q.ring, b, 0);
    s' := Step(s, OpUnlock).0;
  }

  lemma StoredBytes(buf: seq<byte>, at: nat, data: seq<byte>)
    requires at + |data| <= |buf|
    ensures Store(buf, at, data)[at..at + |data|] == data
  {
  }

  lemma {:induction false} NoDrainOutcome(s: System, ops: seq<Op>)
    requires OpConsumeAll !in ops
    ensures DrainedAll !in Outcomes(s, ops)
    decreases |ops|
  {
    if ops != [] {
      assert ops[0] in ops;
      hide Reserve, Write, Send, Lock, Unlock;
      NoDrainOutcome(Step(s, ops[0]).0, ops[1..]);
    }
  }

  lemma ReaderStepFrame(s: System, b: Residents, op: Op)
    requires Consistent(s, b) && Legal(s, op) && IsReaderOp(op)
    ensures var s' := Step(s, op).0;
      SameSpace(s.q, s'.q) && s'.writing == s.writing && s'.reserved == s.reserved
  {
    match op
    case OpLock => LockHolds(s.q, b);
    case OpUnlock => UnlockHolds(s.q, b);
    case OpConsumeAll => ConsumeAllIff(s.q, b);
  }

  /** Any reader run leaves the write pointer and every byte alone and never shrinks the space. */
  lemma {:induction false} ReaderRunFrame(s: System, b: Residents, ops: seq<Op>) returns (b': Residents)
    requires Consistent(s, b) && LegalRun(s, ops) && forall op <- ops :: IsReaderOp(op)
    ensures var s' := Run(s, ops);
      Consistent(s', b') && SameSpace(s.q, s'.q) && s'.writing == s.writing && s'.reserved == s.reserved
    decreases |ops|
  {
    hide Consistent, Step, Legal;
    b' := b;
    if ops != [] {
      ReaderStepFrame(s, b, ops[0]);
      var b1 := StepConsistent(s, b, ops[0]);
      b' := ReaderRunFrame(Step(s, ops[0]).0, b1, ops[1..]);
    }
  }

  lemma StepConsistent(s: System, b: Residents, op: Op) returns (b': Residents)
    requires Consistent(s, b) && Legal(s, op)
    ensures Consistent(Step(s, op).0, b')
  {
    b' := StepRefinesFifo(s, b, op);
  }

  /** While a reservation of n bytes is out, whatever the reader does, committing 1..n bytes
      succeeds with exactly the bytes the writer left there. */
  lemma ReservationIsStable(s: System, b: Residents, ops: seq<Op>, m: nat)
    requires Consistent(s, b) && s.writing && 0 < m <= s.reserved
    requires LegalRun(s, ops) && forall op <- ops :: IsReaderOp(op)
    ensures 0 <= s.q.ring.wp && s.q.ring.wp + HEAD + m <= |s.q.buf|
    ensures Step(Run(s, ops), OpSend(m)).1
         == Sent(Located(s.q.ring.wp + HEAD, s.q.buf[s.q.ring.wp + HEAD..s.q.ring.wp + HEAD + m]))
  {
    hide LegalRun, Run, Outcomes, Laid, FootprintSum, Legal;
    var b' := ReaderRunFrame(s, b, ops);
    hide Tiled;
    SendHolds(Run(s, ops).q, b', m);
  }
}
