/** One reader and one writer on a data queue, interleaved at the steps of the lock and of the
    two wait-then-clear event bits. The reader may also drain the queue. */
module DataQueueSync {
  import opened Blocks
  import opened RingLayout

  datatype Owner = Free | ByWriter | ByReader

  datatype Writer =
    | WIdle
    | WWantLock(n: nat)        // reservation asked for, lock not yet held
    | WChecking(n: nat)        // holds the lock, about to test the space
    | WParked(n: nat)          // released the lock, waits for CONSUME
    | WWoken(n: nat)           // wait returned, CONSUME not yet cleared
    | WReserved(n: nat)        // fills its reservation without the lock
    | WWantCommit(p: Block)    // p == [] aborts
    | WCommitting(p: Block)    // holds the lock
    | WNotifying               // holds the lock, block published, ARRIVE not yet set
    | WUnlocking               // holds the lock, ARRIVE set

  datatype Reader =
    | RIdle
    | RWantLock
    | RChecking                // holds the lock, about to test for unread data
    | RParked                  // released the lock, waits for ARRIVE
    | RWoken                   // wait returned, ARRIVE not yet cleared
    | RWantUnlock
    | RFreeing                 // holds the lock, oldest block not yet freed
    | RSignaling               // holds the lock, block freed, CONSUME not yet set
    | RWantDrain
    | RDraining                // holds the lock, about to look for a block to drain
    | RDrained                 // holds the lock, block drained, CONSUME not yet set

  datatype State =
    State(ring: Ring, blocks: Residents, arrive: bool, consume: bool, owner: Owner, w: Writer, r: Reader)

  datatype Action =
    | WAsk(n: nat) | WAcquire | WCheck | WWake | WClear | WFinish(p: Block) | WPublish | WSetArrive | WRelease
    | RAsk | RAcquire | RCheck | RWake | RClear | RGiveBack | RFree | RSetConsume
    | RAskDrain | RDrain | RSetDrained

  predicate Enabled(s: State, a: Action) {
    match a
    case WAsk(n) => s.w.WIdle? && n + HEAD <= s.ring.size
    case WAcquire => (s.w.WWantLock? || s.w.WWantCommit?) && s.owner.Free?
    case WCheck => s.w.WChecking?
    case WWake => s.w.WParked? && s.consume
    case WClear => s.w.WWoken?
    case WFinish(p) => s.w.WReserved? && |p| <= s.w.n
    case WPublish => s.w.WCommitting?
    case WSetArrive => s.w.WNotifying?
    case WRelease => s.w.WUnlocking?
    case RAsk => s.r.RIdle?
    case RAcquire => (s.r.RWantLock? || s.r.RWantUnlock? || s.r.RWantDrain?) && s.owner.Free?
    case RCheck => s.r.RChecking?
    case RWake => s.r.RParked? && s.arrive
    case RClear => s.r.RWoken?
    case RGiveBack => s.r.RIdle? && s.blocks.taken > 0
    case RFree => s.r.RFreeing?
    case RSetConsume => s.r.RSignaling?
    case RAskDrain => s.r.RIdle? && s.blocks.taken == 0
    case RDrain => s.r.RDraining? && DrainGoesOn(s)
    case RSetDrained => s.r.RDrained?
  }

  /** A block as large as the buffer crashes the drain. */
  predicate DrainGoesOn(s: State) { s.blocks.All() == [] || Footprint(s.blocks.All()[0]) < s.ring.size }

  function Unread(s: State): seq<Block> {
    if s.blocks.taken <= |s.blocks.All()| then s.blocks.Unread() else []
  }

  function Apply(s: State, a: Action): State
    requires Enabled(s, a)
  {
    match a
    case WAsk(n) => s.(w := WWantLock(n))
    case WAcquire =>
      s.(owner := ByWriter, w := if s.w.WWantLock? then WChecking(s.w.n) else WCommitting(s.w.p))
    case WCheck =>
      var need := s.w.n + HEAD;
      var ring := s.ring.Wrapped(need);
      s.(ring := ring, blocks := s.blocks.Wrapped(s.ring, need), owner := Free,
         w := if ring.Available() >= need then WReserved(s.w.n) else WParked(s.w.n))
    case WWake => s.(w := WWoken(s.w.n))
    case WClear => s.(consume := false, w := WWantLock(s.w.n))
    case WFinish(p) => s.(w := WWantCommit(p))
    case WPublish =>
      if s.w.p == [] || s.ring.Available() < Footprint(s.w.p) then s.(owner := Free, w := WIdle)
      else s.(ring := s.ring.Committed(Footprint(s.w.p)), blocks := s.blocks.Committed(s.w.p), w := WNotifying)
    case WSetArrive => s.(arrive := true, w := WUnlocking)
    case WRelease => s.(owner := Free, w := WIdle)
    case RAsk => s.(r := RWantLock)
    case RAcquire =>
      s.(owner := ByReader, r := if s.r.RWantLock? then RChecking else if s.r.RWantUnlock? then RFreeing else RDraining)
    case RCheck =>
      if s.ring.filled == 0 || Unread(s) == [] then s.(owner := Free, r := RParked)
      else s.(ring := s.ring.Taken(Footprint(Unread(s)[0])), blocks := s.blocks.Taken(), owner := Free, r := RIdle)
    case RWake => s.(r := RWoken)
    case RClear => s.(arrive := false, r := RWantLock)
    case RGiveBack => s.(r := RWantUnlock)
    case RFree =>
      if s.blocks.All() == [] then s.(owner := Free, r := RIdle)
      else s.(ring := s.ring.Freed(Footprint(s.blocks.All()[0])), blocks := s.blocks.Freed(), r := RSignaling)
    case RSetConsume => s.(consume := true, owner := Free, r := RIdle)
    case RAskDrain => s.(r := RWantDrain)
    case RDrain =>
      if s.blocks.All() == [] then s.(owner := Free, r := RIdle)
      else
        var n := Footprint(s.blocks.All()[0]);
        s.(ring := s.ring.Taken(n).Freed(n), blocks := s.blocks.Freed(), r := RDrained)
    case RSetDrained => s.(consume := true, r := RDraining)
  }

  predicate WriterOwns(w: Writer) { w.WChecking? || w.WCommitting? || w.WNotifying? || w.WUnlocking? }

  predicate ReaderOwns(r: Reader) { r.RChecking? || r.RFreeing? || r.RSignaling? || r.RDraining? || r.RDrained? }

  predicate InDrain(r: Reader) { r.RWantDrain? || r.RDraining? || r.RDrained? }

  /** The reader has freed a block and will set CONSUME before it gives up the lock. */
  predicate AboutToSignal(r: Reader) { r.RSignaling? || r.RDrained? }

  /** The parked writer's request would be granted now. */
  predicate Fits(ring: Ring, n: nat) { ring.Wrapped(n + HEAD).Available() >= n + HEAD }

  ghost predicate Inv(s: State) {
    && Tiled(s.ring, s.blocks)
    && (s.owner.ByWriter? <==> WriterOwns(s.w))
    && (s.owner.ByReader? <==> ReaderOwns(s.r))
    && (s.w.WWantLock? || s.w.WChecking? || s.w.WParked? || s.w.WWoken? ==> s.w.n + HEAD <= s.ring.size)
    && (s.w.WReserved? ==> s.w.n + HEAD <= s.ring.Available())
    && (s.w.WWantCommit? || s.w.WCommitting? ==> Footprint(s.w.p) <= s.ring.Available())
    && (s.r.RWantUnlock? || s.r.RFreeing? ==> s.blocks.taken > 0)
    && (s.r.RParked? && Unread(s) != [] ==> s.arrive || s.w.WNotifying?)
    && (s.w.WParked? && Fits(s.ring, s.w.n) ==> s.consume || AboutToSignal(s.r))
    && (InDrain(s.r) ==> s.blocks.taken == 0)
  }

  predicate EnabledRun(s: State, acts: seq<Action>)
    decreases |acts|
  { acts == [] || (Enabled(s, acts[0]) && EnabledRun(Apply(s, acts[0]), acts[1..])) }

  function Run(s: State, acts: seq<Action>): State
    requires EnabledRun(s, acts)
    decreases |acts|
  { if acts == [] then s else Run(Apply(s, acts[0]), acts[1..]) }

  function Init(size: nat): State {
    State(Ring(size, 0, 0, 0, 0), NO_BLOCKS, false, false, Free, WIdle, RIdle)
  }

  /** A turn that did not help is not taken again. */
  lemma WrapSettles(r: Ring, b: Residents, need: nat)
    requires Tiled(r, b) && need <= r.size
    ensures r.Wrapped(need).Available() < need ==> r.Wrapped(need).Wrapped(need) == r.Wrapped(need)
    ensures r.Wrapped(need).size == r.size
  {
  }

  lemma CheckKeepsInv(s: State)
    requires Inv(s) && Enabled(s, WCheck)
    ensures Inv(Apply(s, WCheck))
  {
    hide FootprintSum, Tiled, Ring.Wrapped, Ring.Available, Residents.Wrapped;
    var need := s.w.n + HEAD;
    WrapKeepsTiling(s.ring, s.blocks, need);
    WrapSettles(s.ring, s.blocks, need);
    WrapKeepsTaken(s.ring, s.blocks, need);
    assert Unread(Apply(s, WCheck)) == Unread(s);
  }

  lemma WrapKeepsTaken(r: Ring, b: Residents, need: nat)
    ensures b.Wrapped(r, need).taken == b.taken
  {
  }

  lemma PublishKeepsInv(s: State)
    requires Inv(s) && Enabled(s, WPublish)
    ensures Inv(Apply(s, WPublish))
  {
    hide FootprintSum, Tiled;
    var p := s.w.p;
    assert Tiled(s.ring.Committed(Footprint(p)), s.blocks.Committed(p)) by {
      CommitKeepsTiling(s.ring, s.blocks, p);
    }
    hide Residents.Committed, Ring.Committed;
  }

  lemma ReadCheckKeepsInv(s: State)
    requires Inv(s) && Enabled(s, RCheck)
    ensures Inv(Apply(s, RCheck))
  {
    hide FootprintSum, Tiled, Fits, Residents.All, Ring.Available;
    UnreadIsCounted(s.ring, s.blocks);
    if Unread(s) != [] {
      TakeKeepsTiling(s.ring, s.blocks);
      ReaderKeepsSpace(s.ring, s.blocks, Footprint(Unread(s)[0]));
      if s.w.WParked? {
        TakenFits(s.ring, Footprint(Unread(s)[0]), s.w.n);
      }
    }
  }

  lemma TakenFits(r: Ring, taken: int, n: nat)
    ensures Fits(r.Taken(taken), n) <==> Fits(r, n)
  {
  }

  lemma FreeKeepsInv(s: State)
    requires Inv(s) && Enabled(s, RFree)
    ensures Inv(Apply(s, RFree))
  {
    FreeKeepsTilingIff(s.ring, s.blocks);
    ReaderKeepsSpace(s.ring, s.blocks, 0);
    hide FootprintSum, Tiled;
  }

  lemma DrainKeepsInv(s: State)
    requires Inv(s) && Enabled(s, RDrain)
    ensures Inv(Apply(s, RDrain))
  {
    hide FootprintSum, Tiled;
    if s.blocks.All() != [] {
      DrainedBlock(s.ring, s.blocks);
    }
  }

  /** Draining the oldest block, with nothing read-locked, is reading and freeing it. */
  lemma DrainedBlock(r: Ring, b: Residents)
    requires Tiled(r, b) && b.All() != [] && b.taken == 0
    ensures var n := Footprint(b.All()[0]); var r' := r.Taken(n).Freed(n);
      && Tiled(r', b.Freed()) && b.Freed().taken == 0 && b.Freed().All() == b.All()[1..]
      && r'.size == r.size && r'.wp == r.wp && r'.Available() >= r.Available()
  {
    var n := Footprint(b.All()[0]);
    assert b.Unread() == b.All();
    TakeKeepsTiling(r, b);
    FreeKeepsTilingIff(r.Taken(n), b.Taken());
    ReaderKeepsSpace(r.Taken(n), b.Taken(), 0);
    hide Tiled, FootprintSum;
    assert b.Taken().Freed() == b.Freed();
  }

  lemma StepKeepsInv(s: State, a: Action)
    requires Inv(s) && Enabled(s, a)
    ensures Inv(Apply(s, a))
  {
    hide FootprintSum, Tiled;
    match a
    case WCheck => CheckKeepsInv(s);
    case WPublish => PublishKeepsInv(s);
    case RCheck => ReadCheckKeepsInv(s);
    case RFree => FreeKeepsInv(s);
    case RDrain => DrainKeepsInv(s);
    case _ =>
  }

  lemma {:induction false} RunKeepsInv(s: State, acts: seq<Action>)
    requires Inv(s) && EnabledRun(s, acts)
    ensures Inv(Run(s, acts))
    decreases |acts|
  {
    if acts != [] {
      StepKeepsInv(s, acts[0]);
      RunKeepsInv(Apply(s, acts[0]), acts[1..]);
    }
  }

  /** In every interleaving: a parked reader with unread data has its bit set, or the writer is
      still inside the critical section that sets it; the same for a parked writer whose request
      fits; and if both are parked with neither bit set, the reader is sitting on a lock. */
  lemma NoLostWakeup(size: nat, acts: seq<Action>)
    requires EnabledRun(Init(size), acts)
    ensures var s := Run(Init(size), acts);
      && (s.r.RParked? && Unread(s) != [] ==> s.arrive || s.w.WNotifying?)
      && (s.w.WParked? && Fits(s.ring, s.w.n) ==> s.consume || AboutToSignal(s.r))
      && (s.r.RParked? && s.w.WParked? && !s.arrive && !s.consume ==> s.blocks.taken > 0)
  {
    assert NO_BLOCKS.All() == [];
    RunKeepsInv(Init(size), acts);
    var s := Run(Init(size), acts);
    if s.w.WParked? && s.blocks.All() == [] {
      EmptyFits(s);
    }
  }

  lemma EmptyFits(s: State)
    requires Inv(s) && s.w.WParked? && s.blocks.All() == []
    ensures Fits(s.ring, s.w.n)
  {
    EmptyAdmits(s.ring, s.blocks, s.w.n + HEAD);
  }

  // ----- progress -----

  /** The reader asks for a block only when it has given back the last one. With drains, no block is
      as large as the buffer, which would crash one. */
  predicate Disciplined(drains: bool, s: State, a: Action) {
    && Enabled(s, a) && (a.RAsk? ==> s.blocks.taken == 0)
    && (a.RAskDrain? ==> drains) && (a.WFinish? && drains ==> Small(a.p, s.ring.size))
  }

  predicate Small(p: Block, size: nat) { p == [] || Footprint(p) < size }

  predicate AllSmall(s: State) {
    && (forall p <- s.blocks.All() :: Footprint(p) < s.ring.size)
    && (s.w.WWantCommit? || s.w.WCommitting? ==> Small(s.w.p, s.ring.size))
  }

  ghost predicate DisciplinedInv(drains: bool, s: State) {
    && Inv(s)
    && s.blocks.taken <= 1
    && (s.r.RWantLock? || s.r.RChecking? || s.r.RParked? || s.r.RWoken? ==> s.blocks.taken == 0)
    && (s.r.RSignaling? ==> s.blocks.taken == 0)
    && (InDrain(s.r) ==> drains) && (drains ==> AllSmall(s))
  }

  predicate DisciplinedRun(drains: bool, s: State, acts: seq<Action>)
    decreases |acts|
  { acts == [] || (Disciplined(drains, s, acts[0]) && DisciplinedRun(drains, Apply(s, acts[0]), acts[1..])) }

  /** The writer has asked for space and has not got it yet. */
  predicate Waiting(s: State) { s.w.WWantLock? || s.w.WChecking? || s.w.WParked? || s.w.WWoken? }

  function WriterRank(s: State): nat {
    var c := if s.consume then 5 else 0;
    match s.w
    case WWantLock(_) => 2 + c
    case WChecking(_) => 1 + c
    case WParked(_) => if s.consume then 4 else 0
    case WWoken(_) => 3
    case _ => 0
  }

  function ReaderRank(s: State): nat {
    var c := if s.arrive then 5 else 0;
    match s.r
    case RIdle => if s.blocks.taken > 0 then 4 else 8 + c
    case RWantLock => 7 + c
    case RChecking => 6 + c
    case RParked => if s.arrive then 9 else 0
    case RWoken => 8
    case RWantUnlock => 3
    case RFreeing => 2
    case RSignaling => 20
    case RWantDrain => 12 + c
    case RDraining => 10 + c
    case RDrained => 16 + c
  }

  /** What a request to drain may cost. */
  const DRAIN_COST: nat := 5

  function Drains(acts: seq<Action>): nat {
    if acts == [] then 0 else (if acts[0].RAskDrain? then 1 else 0) + Drains(acts[1..])
  }

  /** Bounds the steps left until the writer is served. */
  function Potential(s: State): nat { 20 * |s.blocks.All()| + WriterRank(s) + ReaderRank(s) }

  /** What a step does to the list of resident blocks. */
  lemma ResidentsAfter(s: State, a: Action)
    requires Inv(s) && Enabled(s, a)
    ensures var all, all' := s.blocks.All(), Apply(s, a).blocks.All();
      || all' == all
      || (a.WPublish? && s.w.p != [] && all' == all + [s.w.p])
      || ((a.RFree? || a.RDrain?) && all != [] && all' == all[1..])
  {
    hide FootprintSum, Tiled, Residents.All, Residents.Freed, Residents.Committed;
    UnreadIsCounted(s.ring, s.blocks);
    match a
    case WCheck => WrapKeepsTiling(s.ring, s.blocks, s.w.n + HEAD);
    case WPublish => CommitKeepsAll(s.blocks, s.w.p);
    case RCheck => TakeKeepsAll(s.blocks);
    case RFree => FreeKeepsTilingIff(s.ring, s.blocks);
    case RDrain =>
      if s.blocks.All() != [] {
        DrainedBlock(s.ring, s.blocks);
      }
    case _ =>
  }

  lemma CommitKeepsAll(b: Residents, p: Block)
    ensures b.Committed(p).All() == b.All() + [p] && b.Committed(p).taken == b.taken
  {
  }

  lemma TakeKeepsAll(b: Residents)
    ensures b.Taken().All() == b.All()
  {
  }

  lemma SmallKept(drains: bool, s: State, a: Action)
    requires Inv(s) && Disciplined(drains, s, a) && drains && AllSmall(s)
    ensures AllSmall(Apply(s, a))
  {
    hide FootprintSum, Tiled, Inv, Residents.All, Residents.Freed, Ring.Freed, Ring.Wrapped, Ring.Available;
    ResidentsAfter(s, a);
    SizeKept(s, a);
  }

  lemma SizeKept(s: State, a: Action)
    requires Enabled(s, a)
    ensures Apply(s, a).ring.size == s.ring.size
  {
    hide Residents.All, Residents.Freed, Residents.Wrapped, Residents.Committed, Ring.Available;
  }

  lemma DisciplineKept(drains: bool, s: State, a: Action)
    requires DisciplinedInv(drains, s) && Disciplined(drains, s, a)
    ensures DisciplinedInv(drains, Apply(s, a))
  {
    hide FootprintSum, Tiled, Fits, Residents.All, Ring.Freed, Ring.Wrapped, Ring.Available, AllSmall;
    StepKeepsInv(s, a);
    if drains {
      SmallKept(drains, s, a);
    }
  }

  lemma ResidentsWhileWaiting(s: State, a: Action)
    requires Inv(s) && Enabled(s, a) && Waiting(s)
    ensures |Apply(s, a).blocks.All()|
         == |s.blocks.All()| - (if a.RFree? || (a.RDrain? && s.blocks.All() != []) then 1 else 0)
  {
    hide FootprintSum, Tiled, Residents.All, Residents.Freed, Ring.Freed, Ring.Wrapped, Ring.Available;
    UnreadIsCounted(s.ring, s.blocks);
    ResidentsAfter(s, a);
    if a.RFree? || (a.RDrain? && s.blocks.All() != []) {
      FreedShrinks(s.blocks);
    }
  }

  lemma FreedShrinks(b: Residents)
    requires b.All() != []
    ensures |b.Freed().All()| == |b.All()| - 1
  {
  }

  /** While the writer waits, every step of either thread serves it or uses up potential; only a new
      request to drain adds some. */
  lemma WaitingUsesPotential(drains: bool, s: State, a: Action)
    requires DisciplinedInv(drains, s) && Disciplined(drains, s, a) && Waiting(s)
    ensures var s' := Apply(s, a);
      s'.w.WReserved? || (Waiting(s') && Potential(s') < Potential(s) + if a.RAskDrain? then DRAIN_COST else 0)
  {
    hide FootprintSum, Tiled, Residents.All, Residents.Freed, Ring.Freed, Ring.Wrapped, Ring.Available, AllSmall;
    ResidentsWhileWaiting(s, a);
    var s' := Apply(s, a);
    if a.RFree? || a.RSetConsume? || a.RCheck? || a.RDrain? || a.RSetDrained? || a.RAskDrain? {
    } else {
      assert s'.w.WReserved? || WriterRank(s') + ReaderRank(s') < WriterRank(s) + ReaderRank(s);
    }
  }

  lemma ParkedReaderLeavesAStep(drains: bool, s: State) returns (a: Action)
    requires DisciplinedInv(drains, s) && Waiting(s) && s.r.RParked?
    ensures Disciplined(drains, s, a)
  {
    if s.w.WParked? && s.blocks.All() == [] {
      EmptyFits(s);
    }
    assert s.blocks.All() != [] ==> Unread(s) != [];
    hide FootprintSum, Tiled, Fits;
    if s.w.WParked? {
      a := if s.consume then WWake else RWake;
    } else {
      a := if s.w.WWantLock? then WAcquire else if s.w.WChecking? then WCheck else WClear;
    }
  }

  /** While the writer waits some disciplined step is always possible. */
  lemma WaitingIsNeverStuck(drains: bool, s: State) returns (a: Action)
    requires DisciplinedInv(drains, s) && Waiting(s)
    ensures Disciplined(drains, s, a)
  {
    hide FootprintSum, Tiled, Fits;
    match s.r
    case RChecking => a := RCheck;
    case RFreeing => a := RFree;
    case RSignaling => a := RSetConsume;
    case RWoken => a := RClear;
    case RIdle => a := if s.blocks.taken > 0 then RGiveBack else RAsk;
    case RWantLock => a := if s.w.WChecking? then WCheck else RAcquire;
    case RWantUnlock => a := if s.w.WChecking? then WCheck else RAcquire;
    case RWantDrain => a := if s.w.WChecking? then WCheck else RAcquire;
    case RDraining => a := RDrain;
    case RDrained => a := RSetDrained;
    case RParked => a := ParkedReaderLeavesAStep(drains, s);
  }

  /** No run keeps a fitting request waiting: after at most Potential(s) steps, and a few more for each
      drain asked for, in whatever interleaving, the writer has its reservation. */
  lemma {:induction false} WriterIsServed(drains: bool, s: State, acts: seq<Action>) returns (k: nat)
    requires DisciplinedInv(drains, s) && Waiting(s) && DisciplinedRun(drains, s, acts)
    requires |acts| > Potential(s) + DRAIN_COST * Drains(acts)
    ensures 0 < k <= |acts| && k <= Potential(s) + DRAIN_COST * Drains(acts) + 1
    ensures EnabledRun(s, acts[..k]) && Run(s, acts[..k]).w.WReserved?
    decreases |acts|
  {
    hide DisciplinedInv, Disciplined, Potential, Apply, Enabled;
    DisciplinedMeans(drains, s, acts[0]);
    var s' := Apply(s, acts[0]);
    WaitingUsesPotential(drains, s, acts[0]);
    DisciplineKept(drains, s, acts[0]);
    if s'.w.WReserved? {
      k := 1;
      assert acts[..1] == [acts[0]] && [acts[0]][1..] == [];
    } else {
      var j := WriterIsServed(drains, s', acts[1..]);
      k := j + 1;
      assert acts[..k][1..] == acts[1..][..j] && acts[..k][0] == acts[0];
    }
  }

  lemma DisciplinedMeans(drains: bool, s: State, a: Action)
    requires Disciplined(drains, s, a)
    ensures Enabled(s, a)
  {
  }

  // ----- the reader's side -----

  /** The reader has asked for a block and has not got it yet. */
  predicate Asking(s: State) { s.r.RWantLock? || s.r.RChecking? || s.r.RParked? || s.r.RWoken? }

  predicate IsReaderStep(a: Action) {
    || a.RAsk? || a.RAcquire? || a.RCheck? || a.RWake? || a.RClear? || a.RGiveBack? || a.RFree? || a.RSetConsume?
    || a.RAskDrain? || a.RDrain? || a.RSetDrained?
  }

  function ReaderSteps(acts: seq<Action>): nat {
    if acts == [] then 0 else (if IsReaderStep(acts[0]) then 1 else 0) + ReaderSteps(acts[1..])
  }

  function AskRank(r: Reader): nat {
    match r
    case RParked => 4
    case RWoken => 3
    case RWantLock => 2
    case RChecking => 1
    case _ => 0
  }

  /** With data to read, the reader is delayed only by the writer's hold on the lock. */
  lemma ReaderDelayedOnlyByLock(s: State) returns (a: Action)
    requires Inv(s) && Asking(s) && Unread(s) != []
    ensures Enabled(s, a) && (!s.owner.ByWriter? ==> IsReaderStep(a))
  {
    hide FootprintSum, Tiled, Fits;
    if s.owner.ByWriter? {
      a := match s.w
        case WChecking(_) => WCheck
        case WCommitting(_) => WPublish
        case WNotifying => WSetArrive
        case _ => WRelease;
    } else {
      a := match s.r
        case RParked => RWake
        case RWoken => RClear
        case RWantLock => RAcquire
        case _ => RCheck;
    }
  }

  lemma UnreadIsCounted(r: Ring, b: Residents)
    requires Tiled(r, b)
    ensures b.taken <= |b.All()| && (r.filled == 0 <==> b.Unread() == [])
  {
    FootprintSumZero(b.Unread());
  }

  /** While data waits, no writer step takes it away and every reader step brings the read nearer. */
  lemma AskingMovesOn(s: State, a: Action)
    requires Inv(s) && Enabled(s, a) && Asking(s) && Unread(s) != []
    ensures var s' := Apply(s, a);
      if a.RCheck? then s'.r.RIdle? && s'.blocks.taken == s.blocks.taken + 1
      else
        && Asking(s') && Unread(s') != []
        && AskRank(s'.r) == AskRank(s.r) - (if IsReaderStep(a) then 1 else 0)
  {
    hide FootprintSum, Tiled, Fits, Residents.All, Ring.Available, Ring.Wrapped, Residents.Wrapped, Residents.Committed;
    UnreadIsCounted(s.ring, s.blocks);
    if a.WCheck? {
      WrapKeepsTiling(s.ring, s.blocks, s.w.n + HEAD);
      WrapKeepsTaken(s.ring, s.blocks, s.w.n + HEAD);
    } else if a.WPublish? {
      CommitKeepsAll(s.blocks, s.w.p);
    }
  }

  /** In any interleaving, the fourth step a reader takes with data waiting hands it a block. */
  lemma {:induction false} ReaderIsServed(s: State, acts: seq<Action>) returns (k: nat)
    requires Inv(s) && Asking(s) && Unread(s) != [] && EnabledRun(s, acts) && ReaderSteps(acts) >= AskRank(s.r)
    ensures k < |acts| && acts[k].RCheck?
    ensures EnabledRun(s, acts[..k]) && Asking(Run(s, acts[..k])) && Unread(Run(s, acts[..k])) != []
    ensures ReaderSteps(acts[..k]) == AskRank(s.r) - 1
    decreases |acts|
  {
    hide Inv, Unread, Apply;
    k := 0;
    if !acts[0].RCheck? {
      AskingMovesOn(s, acts[0]);
      StepKeepsInv(s, acts[0]);
      var j := ReaderIsServed(Apply(s, acts[0]), acts[1..]);
      k := j + 1;
      assert acts[..k][1..] == acts[1..][..j] && acts[..k][0] == acts[0];
    } else {
      assert s.r.RChecking?;
    }
  }

  // ----- draining -----

  /** A drain that has the lock frees every block, in steps of its own, and wakes a waiting writer. */
  lemma {:induction false} DrainEmpties(s: State) returns (acts: seq<Action>)
    requires Inv(s) && s.r.RDraining? && forall p <- s.blocks.All() :: Footprint(p) < s.ring.size
    ensures EnabledRun(s, acts) && forall a <- acts :: a.RDrain? || a.RSetDrained?
    ensures var s' := Run(s, acts);
      && s'.blocks.All() == [] && s'.r.RIdle? && s'.owner.Free? && s'.w == s.w
      && (s.blocks.All() != [] ==> s'.consume) && (s.consume ==> s'.consume)
    decreases |s.blocks.All()|
  {
    hide Run, EnabledRun, Inv, Residents.All, Residents.Freed;
    if s.blocks.All() == [] {
      acts := LastDrain(s);
    } else {
      var s';
      acts, s' := OneDrain(s);
      var rest := DrainEmpties(s');
      RunConcat(s, acts, rest);
      acts := acts + rest;
    }
  }

  lemma LastDrain(s: State) returns (acts: seq<Action>)
    requires s.r.RDraining? && s.blocks.All() == []
    ensures acts == [RDrain] && EnabledRun(s, acts) && Run(s, acts) == s.(owner := Free, r := RIdle)
  {
    hide Residents.All;
    acts := [RDrain];
    assert acts[1..] == [];
  }

  lemma OneDrain(s: State) returns (acts: seq<Action>, s': State)
    requires Inv(s) && s.r.RDraining? && s.blocks.All() != []
    requires forall p <- s.blocks.All() :: Footprint(p) < s.ring.size
    ensures acts == [RDrain, RSetDrained] && EnabledRun(s, acts) && Run(s, acts) == s'
    ensures Inv(s') && s'.r.RDraining? && s'.w == s.w && s'.consume && s'.ring.size == s.ring.size
    ensures s'.blocks.All() == s.blocks.All()[1..]
  {
    hide Run, EnabledRun, FootprintSum, Tiled, Residents.All, Residents.Freed, Ring.Wrapped, Ring.Available;
    DrainedBlock(s.ring, s.blocks);
    RunEmpty(s);
    var s1;
    acts, s1 := Extend(s, [], s, RDrain);
    StepKeepsInv(s, RDrain);
    acts, s' := Extend(s, acts, s1, RSetDrained);
    StepKeepsInv(s1, RSetDrained);
  }

  // ----- asking while holding -----

  /** Nobody can move. */
  ghost predicate Stuck(s: State) { forall a :: !Enabled(s, a) }

  /** After the one request that begins the run the reader is still waiting, and nobody can move. */
  ghost predicate StuckUnanswered(s: State, acts: seq<Action>) {
    && EnabledRun(s, [RAsk] + acts) && RAsk !in acts
    && Asking(Run(s, [RAsk] + acts)) && Stuck(Run(s, [RAsk] + acts))
  }

  lemma Extend(s0: State, acts: seq<Action>, s: State, a: Action) returns (acts': seq<Action>, s': State)
    requires EnabledRun(s0, acts) && Run(s0, acts) == s && Enabled(s, a)
    ensures EnabledRun(s0, acts') && Run(s0, acts') == s' && s' == Apply(s, a) && acts' == acts + [a]
  {
    acts', s' := acts + [a], Apply(s, a);
    RunConcat(s0, acts, [a]);
    assert [a][1..] == [];
  }

  lemma {:induction false} RunConcat(s: State, acts: seq<Action>, more: seq<Action>)
    requires EnabledRun(s, acts) && EnabledRun(Run(s, acts), more)
    ensures EnabledRun(s, acts + more) && Run(s, acts + more) == Run(Run(s, acts), more)
    decreases |acts|
  {
    if acts == [] {
      assert acts + more == more;
    } else {
      RunConcat(Apply(s, acts[0]), acts[1..], more);
      assert (acts + more)[1..] == acts[1..] + more;
    }
  }

  lemma RunEmpty(s: State)
    ensures EnabledRun(s, []) && Run(s, []) == s
  {
  }

  /** A request for the whole buffer is refused while any block is resident. */
  lemma WholeBufferRefused(r: Ring, b: Residents)
    requires Tiled(r, b) && b.All() != []
    ensures HEAD <= r.size && r.Wrapped(r.size).Available() < r.size
  {
    FullBlockIsOldest(r, b);
    FootprintSumZero(b.high);
    FootprintSumZero(b.low);
    GrantedIff(r, b, r.size);
  }

  /** With nothing to read, the asking reader parks with its bit clear. */
  lemma ReaderParks(s0: State, acts0: seq<Action>, s: State) returns (acts: seq<Action>, s': State)
    requires EnabledRun(s0, acts0) && Run(s0, acts0) == s
    requires s.r.RWantLock? && s.owner.Free? && s.ring.filled == 0
    ensures EnabledRun(s0, acts0 + acts) && Run(s0, acts0 + acts) == s' && RAsk !in acts
    ensures s' == s.(r := RParked, arrive := false)
  {
    hide Run, EnabledRun, Unread, Ring.Wrapped;
    acts := acts0;
    acts, s' := Extend(s0, acts, s, RAcquire);
    acts, s' := Extend(s0, acts, s', RCheck);
    if s'.arrive {
      acts, s' := Extend(s0, acts, s', RWake);
      acts, s' := Extend(s0, acts, s', RClear);
      acts, s' := Extend(s0, acts, s', RAcquire);
      acts, s' := Extend(s0, acts, s', RCheck);
      acts := [RAcquire, RCheck, RWake, RClear, RAcquire, RCheck];
      assert acts0 + acts == acts0 + [RAcquire] + [RCheck] + [RWake] + [RClear] + [RAcquire] + [RCheck];
    } else {
      acts := [RAcquire, RCheck];
      assert acts0 + acts == acts0 + [RAcquire] + [RCheck];
    }
  }

  /** With a block resident, a writer that asks for the whole buffer parks with its bit clear. */
  lemma WriterParks(s0: State, acts0: seq<Action>, s: State) returns (acts: seq<Action>, s': State)
    requires EnabledRun(s0, acts0) && Run(s0, acts0) == s
    requires Tiled(s.ring, s.blocks) && s.blocks.All() != [] && s.w.WIdle? && s.owner.Free?
    ensures EnabledRun(s0, acts0 + acts) && Run(s0, acts0 + acts) == s' && RAsk !in acts
    ensures s'.w.WParked? && !s'.consume && s'.r == s.r && s'.arrive == s.arrive
  {
    hide Run, EnabledRun, Tiled, Residents.All, Residents.Wrapped, Ring.Wrapped, Ring.Available;
    var n := s.ring.size - HEAD;
    WholeBufferRefused(s.ring, s.blocks);
    WrapSettles(s.ring, s.blocks, s.ring.size);
    acts := acts0;
    acts, s' := Extend(s0, acts, s, WAsk(n));
    acts, s' := Extend(s0, acts, s', WAcquire);
    acts, s' := Extend(s0, acts, s', WCheck);
    if s'.consume {
      acts, s' := Extend(s0, acts, s', WWake);
      acts, s' := Extend(s0, acts, s', WClear);
      acts, s' := Extend(s0, acts, s', WAcquire);
      acts, s' := Extend(s0, acts, s', WCheck);
      acts := [WAsk(n), WAcquire, WCheck, WWake, WClear, WAcquire, WCheck];
      assert acts0 + acts == acts0 + [WAsk(n)] + [WAcquire] + [WCheck] + [WWake] + [WClear] + [WAcquire] + [WCheck];
    } else {
      acts := [WAsk(n), WAcquire, WCheck];
      assert acts0 + acts == acts0 + [WAsk(n)] + [WAcquire] + [WCheck];
    }
  }

  /** Reader and writer can both park for good when the reader asks with a block in hand and
      nothing to read. */
  lemma BothPark(s: State) returns (acts: seq<Action>)
    requires Inv(s) && s.w.WIdle? && s.r.RIdle? && s.blocks.taken > 0 && Unread(s) == []
    ensures StuckUnanswered(s, acts)
  {
    UnreadIsCounted(s.ring, s.blocks);
    hide Run, EnabledRun, Tiled;
    RunEmpty(s);
    var acts0, s0 := Extend(s, [], s, RAsk);
    var acts1, s1 := ReaderParks(s, acts0, s0);
    var acts2, s2 := WriterParks(s, acts0 + acts1, s1);
    acts := acts1 + acts2;
    assert acts0 + acts1 + acts2 == [RAsk] + acts;
  }

  lemma NotAskedAgain(s: State, acts: seq<Action>)
    requires EnabledRun(s, acts) && RAsk !in acts && !Asking(s)
    ensures !Asking(Run(s, acts))
    decreases |acts|
  {
    hide Apply, Enabled, Asking;
    if acts != [] {
      assert acts[0] in acts && forall a <- acts[1..] :: a in acts;
      StepDoesNotAsk(s, acts[0]);
      NotAskedAgain(Apply(s, acts[0]), acts[1..]);
    }
  }

  lemma StepDoesNotAsk(s: State, a: Action)
    requires Enabled(s, a) && a != RAsk && !Asking(s)
    ensures !Asking(Apply(s, a))
  {
    hide Ring.Wrapped, Residents.All, Unread, Residents.Freed, Residents.Wrapped, Ring.Available;
  }

  /** A step while the reader asks answers it, or leaves what it holds and what it could read. */
  lemma AskingStep(s: State, a: Action)
    requires Inv(s) && Enabled(s, a) && Asking(s)
    ensures var s' := Apply(s, a);
      !Asking(s') || (s'.blocks.taken == s.blocks.taken && (Unread(s) != [] ==> Unread(s') != []))
    ensures Apply(s, a).ring.size == s.ring.size
  {
    WrapSizes(s.ring, s.blocks);
    if Unread(s) != [] {
      AskingMovesOn(s, a);
    }
    hide Inv, Unread, Ring.Wrapped, Residents.Wrapped;
  }

  lemma WrapSizes(r: Ring, b: Residents)
    ensures forall need: nat :: r.Wrapped(need).size == r.size && b.Wrapped(r, need).taken == b.taken
  {
  }

  lemma {:induction false} UnansweredRun(s: State, acts: seq<Action>)
    requires Inv(s) && Asking(s) && EnabledRun(s, acts) && RAsk !in acts && Asking(Run(s, acts))
    ensures var s' := Run(s, acts);
      Inv(s') && s'.ring.size == s.ring.size
      && s'.blocks.taken == s.blocks.taken && (Unread(s) != [] ==> Unread(s') != [])
    decreases |acts|
  {
    if acts != [] {
      assert acts[0] in acts && forall a <- acts[1..] :: a in acts;
      hide Inv, Unread, Apply, Enabled;
      StepKeepsInv(s, acts[0]);
      AskingStep(s, acts[0]);
      if !Asking(Apply(s, acts[0])) {
        NotAskedAgain(Apply(s, acts[0]), acts[1..]);
      }
      UnansweredRun(Apply(s, acts[0]), acts[1..]);
    }
  }

  /** A reader that asks with nothing in hand, or with something to read, leaves somebody a step. */
  lemma AskingNotStuck(s: State)
    requires Inv(s) && Asking(s) && HEAD <= s.ring.size && (s.blocks.taken == 0 || Unread(s) != [])
    ensures !Stuck(s)
  {
    if Unread(s) != [] {
      var a := ReaderDelayedOnlyByLock(s);
    } else {
      var a := EmptyHandedStep(s);
    }
  }

  lemma EmptyHandedStep(s: State) returns (a: Action)
    requires Inv(s) && Asking(s) && HEAD <= s.ring.size && s.blocks.taken == 0 && Unread(s) == []
    ensures Enabled(s, a)
  {
    assert s.blocks.All() == [] by { assert s.blocks.All()[0..] == s.blocks.All(); }
    if s.w.WParked? {
      EmptyFits(s);
    }
    hide Tiled, Fits, Residents.All;
    a := match s.w
      case WIdle => WAsk(0)
      case WChecking(_) => WCheck
      case WParked(_) => WWake
      case WWoken(_) => WClear
      case WReserved(_) => WFinish([])
      case WCommitting(_) => WPublish
      case WNotifying => WSetArrive
      case WUnlocking => WRelease
      case _ => if s.owner.Free? then WAcquire else RCheck;
  }

  /** A single request of an idle reader can be left unanswered for good, with the writer idle
      before it, exactly when the reader holds a block and nothing is unread. */
  lemma StuckUnansweredIff(s: State)
    requires Inv(s) && s.w.WIdle? && s.r.RIdle? && HEAD <= s.ring.size
    ensures (exists acts :: StuckUnanswered(s, acts)) <==> s.blocks.taken > 0 && Unread(s) == []
  {
    hide Inv, Unread, StuckUnanswered;
    if s.blocks.taken > 0 && Unread(s) == [] {
      var acts := BothPark(s);
    }
    if acts :| StuckUnanswered(s, acts) {
      StuckMeansHolding(s, acts);
    }
  }

  lemma StuckMeansHolding(s: State, acts: seq<Action>)
    requires Inv(s) && s.r.RIdle? && HEAD <= s.ring.size && StuckUnanswered(s, acts)
    ensures s.blocks.taken > 0 && Unread(s) == []
  {
    hide Inv, Unread, Stuck, Run;
    AskFirst(s, acts);
    var s1 := Apply(s, RAsk);
    StepKeepsInv(s, RAsk);
    UnansweredRun(s1, acts);
    if s.blocks.taken == 0 || Unread(s) != [] {
      AskingNotStuck(Run(s1, acts));
    }
  }

  lemma AskFirst(s: State, acts: seq<Action>)
    requires s.r.RIdle? && EnabledRun(s, [RAsk] + acts)
    ensures Enabled(s, RAsk) && EnabledRun(Apply(s, RAsk), acts)
    ensures Run(s, [RAsk] + acts) == Run(Apply(s, RAsk), acts)
    ensures Apply(s, RAsk) == s.(r := RWantLock) && Unread(Apply(s, RAsk)) == Unread(s)
  {
    assert ([RAsk] + acts)[1..] == acts;
  }

  /** So an idle reader that holds a block and goes on asking can always end in a deadlock with an
      idle writer, whatever is unread and whatever the buffer size. */
  lemma {:induction false} HoldAndWaitDeadlocks(s: State) returns (acts: seq<Action>)
    requires Inv(s) && s.w.WIdle? && s.r.RIdle? && s.blocks.taken > 0
    ensures EnabledRun(s, acts) && acts != [] && acts[0] == RAsk && Stuck(Run(s, acts))
    decreases |Unread(s)|
  {
    hide Run, EnabledRun, Stuck;
    if Unread(s) == [] {
      acts := BothPark(s);
      acts := [RAsk] + acts;
    } else {
      var acts0, s0 := TakeOne(s);
      acts := HoldAndWaitDeadlocks(s0);
      RunConcat(s, acts0, acts);
      acts := acts0 + acts;
    }
  }

  /** The reader asks and is given the oldest unread block. */
  lemma TakeOne(s: State) returns (acts: seq<Action>, s': State)
    requires Inv(s) && s.w.WIdle? && s.r.RIdle? && Unread(s) != []
    ensures EnabledRun(s, acts) && Run(s, acts) == s' && acts != [] && acts[0] == RAsk
    ensures Inv(s') && s'.w.WIdle? && s'.r.RIdle? && s'.blocks.taken == s.blocks.taken + 1
    ensures Unread(s') == Unread(s)[1..]
  {
    hide Run, EnabledRun, Tiled;
    UnreadIsCounted(s.ring, s.blocks);
    TakeKeepsTiling(s.ring, s.blocks);
    RunEmpty(s);
    acts, s' := Extend(s, [], s, RAsk);
    StepKeepsInv(s, RAsk);
    var s1 := s';
    acts, s' := Extend(s, acts, s', RAcquire);
    StepKeepsInv(s1, RAcquire);
    var s2 := s';
    acts, s' := Extend(s, acts, s', RCheck);
    StepKeepsInv(s2, RCheck);
  }

  /** For every buffer that holds a block at all the deadlock is reached from the start. */
  lemma DeadlockIsReachable(size: nat) returns (acts: seq<Action>)
    requires size > HEAD
    ensures EnabledRun(Init(size), acts) && Stuck(Run(Init(size), acts))
  {
    hide Run, EnabledRun, Stuck, Enabled, Apply;
    var s0 := Init(size);
    var acts0, s := OneBlockHeld(s0);
    assert Inv(s0) by { assert NO_BLOCKS.All() == []; }
    RunKeepsInv(s0, acts0);
    acts := HoldAndWaitDeadlocks(s);
    RunConcat(s0, acts0, acts);
    acts := acts0 + acts;
  }

  /** The reader parks and the writer reserves. */
  lemma ParkedBesideReservation(s0: State) returns (acts: seq<Action>, s: State)
    requires s0 == Init(s0.ring.size) && s0.ring.size > HEAD
    ensures EnabledRun(s0, acts) && Run(s0, acts) == s && s == s0.(r := RParked, w := WReserved(1))
  {
    hide Run, EnabledRun;
    acts, s := [], s0;
    assert EnabledRun(s0, acts) && Run(s0, acts) == s by { RunEmpty(s0); }
    acts, s := Extend(s0, acts, s, RAsk);
    acts, s := Extend(s0, acts, s, RAcquire);
    acts, s := Extend(s0, acts, s, RCheck);
    acts, s := Extend(s0, acts, s, WAsk(1));
    acts, s := Extend(s0, acts, s, WAcquire);
    acts, s := Extend(s0, acts, s, WCheck);
  }

  /** The writer publishes one block. */
  lemma OneBlockPublished(s0: State) returns (acts: seq<Action>, s: State)
    requires s0 == Init(s0.ring.size) && s0.ring.size > HEAD
    ensures EnabledRun(s0, acts) && Run(s0, acts) == s
    ensures s == State(Ring(s0.ring.size, 0, 5, 0, 5), Residents([], [[1]], 0), false, false, ByWriter, WNotifying,
        RParked)
  {
    hide Run, EnabledRun, Ring.Wrapped, Residents.All, FootprintSum;
    acts, s := ParkedBesideReservation(s0);
    acts, s := Extend(s0, acts, s, WFinish([1]));
    acts, s := Extend(s0, acts, s, WAcquire);
    assert Footprint([1]) == 5 && s.ring.Available() == s0.ring.size;
    acts, s := Extend(s0, acts, s, WPublish);
  }

  /** The writer sets its event bit and leaves. */
  lemma OneBlockSent(s0: State) returns (acts: seq<Action>, s: State)
    requires s0 == Init(s0.ring.size) && s0.ring.size > HEAD
    ensures EnabledRun(s0, acts) && Run(s0, acts) == s
    ensures s == State(Ring(s0.ring.size, 0, 5, 0, 5), Residents([], [[1]], 0), true, false, Free, WIdle, RParked)
  {
    hide Run, EnabledRun, Ring.Wrapped, Residents.All, FootprintSum;
    acts, s := OneBlockPublished(s0);
    acts, s := Extend(s0, acts, s, WSetArrive);
    acts, s := Extend(s0, acts, s, WRelease);
  }

  /** The reader wakes, uses up the event bit and takes the block. */
  lemma OneBlockHeld(s0: State) returns (acts: seq<Action>, s: State)
    requires s0 == Init(s0.ring.size) && s0.ring.size > HEAD
    ensures EnabledRun(s0, acts) && Run(s0, acts) == s
    ensures s == State(Ring(s0.ring.size, 0, 5, 0, 0), Residents([], [[1]], 1), false, false, Free, WIdle, RIdle)
  {
    hide Run, EnabledRun;
    acts, s := OneBlockSent(s0);
    acts, s := Extend(s0, acts, s, RWake);
    acts, s := Extend(s0, acts, s, RClear);
    acts, s := Extend(s0, acts, s, RAcquire);
    assert s.blocks.All() == [[1]];
    acts, s := Extend(s0, acts, s, RCheck);
  }
}
