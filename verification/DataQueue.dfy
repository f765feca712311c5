/** The data queue in its own form: an object whose pointers and buffer change in place. Each
    method is one critical section; waiting for an event is returned as `MustWait` or `Empty`. */
module DataQueues {
  import opened Blocks
  import opened RingLayout
  import opened DataQueueModel

  class DataQueue {
    const buffer: array<byte>
    var fillEnd: int
    var wp: int
    var rp: int
    var filled: int
    var user: int
    var quit: bool
    ghost var blocks: Residents

    ghost function State(): Queue
      reads this, buffer
    { Queue(buffer[..], Ring(buffer.Length, rp, wp, fillEnd, filled)) }

    ghost predicate Valid()
      reads this, buffer
    { Holds(State(), blocks) }

    constructor (n: nat)
      requires n <= INT_MAX
      ensures Valid() && fresh(buffer) && buffer.Length == n
      ensures State() == Fresh(buffer[..]) && blocks == NO_BLOCKS && user == 0 && !quit
    {
      buffer := new byte[n](i => 0);
      fillEnd, wp, rp, filled, user, quit := 0, 0, 0, 0, 0, false;
      blocks := NO_BLOCKS;
      new;
      FreshHolds(buffer[..]);
    }

    function AvailableSize(): (avail: int)
      reads this, buffer
      ensures avail == State().ring.Available()
    {
      if wp > rp then buffer.Length - wp
      else if wp == rp then (if fillEnd != 0 then 0 else buffer.Length - wp)
      else rp - wp
    }

    method GetAvailable() returns (avail: int)
      requires Valid()
      ensures avail == State().ring.Reported()
      ensures var room := if blocks.All() == [] then buffer.Length
                          else if fillEnd == 0 then buffer.Length - wp else rp - wp;
        avail == if room >= 4 then room - 4 else 0
    {
      ReportedIs(State().ring, blocks);
      hide Laid, FootprintSum, Tiled;
      if wp == rp && fillEnd == 0 {
        avail := buffer.Length;
      } else {
        avail := AvailableSize();
      }
      if avail >= HEAD {
        avail := avail - HEAD;
      } else {
        avail := 0;
      }
    }

    method LoadSize(at: int) returns (size: int)
      requires BlockAt(buffer[..], at)
      ensures size == SizeAt(buffer[..], at)
    {
      assert buffer[at..at + HEAD] == buffer[..][at..at + HEAD];
      size := Decode32(buffer[at..at + HEAD]);
    }

    /** One pass of the reservation loop; the writer holds the write lock throughout. */
    method GetBuffer(n: nat) returns (out: Outcome, at: int)
      requires Valid()
      modifies this
      ensures Valid() && quit == old(quit)
      ensures quit && n + HEAD <= buffer.Length ==> out == Quit && State() == old(State()) && blocks == old(blocks)
      ensures !quit || n + HEAD > buffer.Length ==> (State(), out) == Reserve(old(State()), n)
      ensures blocks.All() == old(blocks.All()) && blocks.taken == old(blocks.taken)
      ensures user == if out == Granted then old(user) + 1 else old(user)
      ensures out == Granted ==> at == wp + HEAD && HEAD + n <= AvailableSize()
      ensures !quit && n + 4 <= buffer.Length ==>
        (out == Granted <==>
           || old(blocks.All()) == []
           || (old(fillEnd) == 0 && (n + 4 <= buffer.Length - old(wp) || n + 4 <= old(rp)))
           || (old(fillEnd) != 0 && n + 4 <= old(rp) - old(wp)))
    {
      hide Laid, FootprintSum, Tiled;
      var size := n + HEAD;
      at := 0;
      if size > buffer.Length {
        return Refused, at;
      }
      if quit {
        return Quit, at;
      }
      ReserveHolds(State(), blocks, n);
      var avail := AvailableSize();
      if avail < size && fillEnd == 0 {
        blocks := blocks.Wrapped(State().ring, size);
        if wp == rp {
          wp, rp := 0, 0;
        }
        fillEnd := wp;
        wp := 0;
        avail := AvailableSize();
      }
      assert State() == Reserve(old(State()), n).0;
      if avail >= size {
        at := wp + HEAD;
        user := user + 1;
        return Granted, at;
      }
      return MustWait, at;
    }

    /** The writer's copy into the memory it reserved, done without the lock. */
    method CopyIn(off: nat, data: seq<byte>)
      requires Valid() && HEAD + off + |data| <= AvailableSize()
      modifies buffer
      ensures Valid()
      ensures (State(), Written) == Write(old(State()), off, data)
    {
      hide Laid, FootprintSum, Tiled;
      WriteHolds(State(), blocks, off, data);
      var at := wp + HEAD + off;
      forall i | 0 <= i < |data| {
        buffer[at + i] := data[i];
      }
      assert buffer[..] == Store(old(buffer[..]), at, data);
    }

    method SendBuffer(m: nat) returns (ret: int)
      requires Valid()
      modifies this, buffer
      ensures Valid() && quit == old(quit) && user == old(user) - 1
      ensures State() == Send(old(State()), m).0
      ensures ret == if Send(old(State()), m).1 == Rejected then -1 else 0
      ensures m > 0 && ret == 0 ==>
        && Send(old(State()), m).1 == Sent(Located(old(wp) + HEAD, old(buffer[wp + HEAD..wp + HEAD + m])))
        && blocks.Unread() == old(blocks.Unread()) + [old(buffer[wp + HEAD..wp + HEAD + m])]
        && blocks.Locked() == old(blocks.Locked())
      ensures m == 0 || ret != 0 ==> blocks == old(blocks)
    {
      hide Laid, FootprintSum, Tiled, Encode32, Store;
      if m == 0 {
        user := user - 1;
        return 0;
      }
      var size := m + HEAD;
      if AvailableSize() >= size {
        SendHolds(State(), blocks, m);
        ghost var next := Send(State(), m);
        var head := Encode32(size);
        forall i | 0 <= i < HEAD {
          buffer[wp + i] := head[i];
        }
        assert buffer[..] == Store(old(buffer[..]), wp, head);
        wp := wp + size;
        filled := filled + size;
        user := user - 1;
        blocks := blocks.Committed(next.1.placed.block);
        assert State() == next.0;
        ret := 0;
      } else {
        user := user - 1;
        ret := -1;
      }
    }

    method HaveData() returns (has: bool)
      requires Valid()
      ensures has <==> !quit && blocks.All() != []
    {
      HaveDataIffResident(State().ring, blocks);
      has := !quit && !(wp == rp && fillEnd == 0);
    }

    /** One pass of the read loop. */
    method ReadLock() returns (out: Outcome, at: int, len: int)
      requires Valid()
      modifies this
      ensures Valid() && quit == old(quit)
      ensures quit ==> out == Quit && State() == old(State()) && blocks == old(blocks) && user == old(user)
      ensures !quit ==> (State(), out) == Lock(old(State()))
      ensures !quit && old(blocks.Unread()) == [] ==> out == Empty && blocks == old(blocks) && user == old(user)
      ensures !quit && old(blocks.Unread()) != [] ==>
        && 0 <= at && 0 <= len && at + len <= buffer.Length
        && out == Read(Located(at, buffer[at..at + len])) && buffer[at..at + len] == old(blocks.Unread()[0])
        && blocks == old(blocks.Taken()) && user == old(user) + 1
    {
      hide Laid, FootprintSum, Tiled, BlockAt, SizeAt;
      at, len := 0, 0;
      if quit {
        return Quit, at, len;
      }
      LockHolds(State(), blocks);
      if filled == 0 {
        return Empty, at, len;
      }
      assert Lock(State()).1 != Empty;
      assert blocks.Unread() != [];
      PlaceOf(State().ring, blocks, blocks.taken);
      var cur;
      if filled <= wp {
        cur := wp - filled;
      } else {
        cur := wp + fillEnd - filled;
      }
      assert BlockAt(buffer[..], cur);
      var size := LoadSize(cur);
      if size < 0 || size > buffer.Length {
        assert false;
      }
      filled := filled - size;
      at, len := cur + HEAD, size - HEAD;
      user := user + 1;
      blocks := blocks.Taken();
      assert State() == Lock(old(State())).0;
      out := Read(Located(at, buffer[at..at + len]));
    }

    /** Frees the oldest block. The queue stays consistent exactly when that block had been
        read-locked. */
    method ReadUnlock()
      requires Valid()
      modifies this
      ensures quit == old(quit) && State() == Unlock(old(State())).0
      ensures old(blocks.All()) == [] ==> State() == old(State()) && blocks == old(blocks) && user == old(user)
      ensures old(blocks.All()) != [] ==>
        && Unlock(old(State())).1.Released? && Unlock(old(State())).1.placed.block == old(blocks.All()[0])
        && blocks == old(blocks.Freed()) && user == old(user) - 1
        && (Valid() <==> old(blocks.taken) > 0)
    {
      hide Laid, FootprintSum, Tiled, BlockAt, SizeAt;
      HaveDataIffResident(State().ring, blocks);
      if !(wp == rp && fillEnd == 0) {
        UnlockFindsOldest(State(), blocks);
        UnlockHoldsIff(State(), blocks);
        PlaceOf(State().ring, blocks, 0);
        var size := LoadSize(rp);
        if size < 0 || size > buffer.Length {
          assert false;
        }
        rp := rp + size;
        if fillEnd != 0 && rp >= fillEnd {
          fillEnd := 0;
          rp := 0;
        }
        user := user - 1;
        blocks := blocks.Freed();
        assert State() == Unlock(old(State())).0;
      }
    }

    /** Gives back the lock on a peeked block, but not the block. */
    method PeekUnlock()
      modifies this
      ensures State() == old(State()) && blocks == old(blocks) && quit == old(quit) && user == old(user) - 1
    {
      user := user - 1;
    }

    /** Drains every resident block. `trapped` reports the deliberate crash on a block as large
        as the buffer. */
    method ConsumeAll() returns (trapped: bool)
      requires Valid()
      modifies `rp, `filled, `fillEnd, `blocks
      ensures quit ==> !trapped && State() == old(State()) && blocks == old(blocks)
      ensures !quit ==> State() == DataQueueModel.ConsumeAll(old(State())).0
      ensures !quit ==> (trapped <==> DataQueueModel.ConsumeAll(old(State())).1 == Trap)
      ensures blocks == if quit || trapped then old(blocks) else NO_BLOCKS
      ensures old(blocks.taken) == 0 ==> Valid()
    {
      hide Laid, FootprintSum, Tiled, DrainTraps, BlockAt, SizeAt, PayloadAt, Holds, Residents.Freed;
      ghost var start, all := State(), blocks.All();
      ghost var view := start.(ring := start.ring.(filled := 0));
      ghost var rest, gone := blocks.(taken := |all|), 0;
      AllTaken(start, blocks);
      HasDataIff(start, blocks);
      DrainTrapsIff(start, blocks);
      trapped := false;
      while !(wp == rp && fillEnd == 0)
        invariant blocks == old(blocks)
        invariant gone == 0 || quit || trapped ==> State() == start
        invariant 0 <= gone <= |all| && rest.All() == all[gone..] && rest.taken == |rest.All()|
        invariant view == Queue(buffer[..], Ring(buffer.Length, rp, wp, fillEnd, 0)) && Holds(view, rest)
        invariant filled - FootprintSum(rest.All()) == start.ring.filled - FootprintSum(all)
        invariant gone > 0 ==> !DrainTraps(start)
        decreases |rest.All()|
      {
        if quit {
          break;
        }
        HasDataIff(view, rest);
        WalkStep(view, rest);
        var size := LoadSize(rp);
        assert size == Footprint(all[gone]);
        if size < 0 || size >= buffer.Length {
          ConsumeAllIff(start, blocks);
          trapped := true;
          return;
        }
        rp := rp + size;
        filled := filled - size;
        if fillEnd != 0 && rp >= fillEnd {
          fillEnd := 0;
          rp := 0;
        }
        FootprintSumSplit(rest.All(), 0);
        view, rest, gone := view.(ring := view.ring.Freed(size)), rest.Freed(), gone + 1;
      }
      if !quit {
        ConsumeAllIff(start, blocks);
        HasDataIff(view, rest);
        assert FootprintSum(rest.All()) == 0;
        assert State().ring == start.ring.Drained();
        blocks := NO_BLOCKS;
      }
    }

    method Query() returns (num: nat, bytes: int)
      requires Valid()
      ensures num == |blocks.All()| && bytes == PayloadSum(blocks.All())
    {
      hide Laid, FootprintSum, Tiled, BlockAt, SizeAt;
      num, bytes := 0, 0;
      ghost var view := State().(ring := State().ring.(filled := 0));
      ghost var rest := blocks.(taken := |blocks.All()|);
      AllTaken(State(), blocks);
      HaveDataIffResident(State().ring, blocks);
      if !(wp == rp && fillEnd == 0) {
        var cur, ring := rp, fillEnd;
        while cur != wp || ring != 0
          invariant view == Queue(buffer[..], Ring(buffer.Length, cur, wp, ring, 0))
          invariant Holds(view, rest) && rest.taken == |rest.All()|
          invariant num <= |blocks.All()| && rest.All() == blocks.All()[num..]
          invariant bytes + PayloadSum(rest.All()) == PayloadSum(blocks.All())
          decreases |rest.All()|
        {
          HaveDataIffResident(view.ring, rest);
          WalkStep(view, rest);
          var size := LoadSize(cur);
          if size < 0 || size > buffer.Length {
            assert false;
          }
          cur := cur + size;
          if ring != 0 && cur == ring {
            ring := 0;
            cur := 0;
          }
          num := num + 1;
          bytes := bytes + size - HEAD;
          view, rest := view.(ring := view.ring.Freed(size)), rest.Freed();
        }
        HaveDataIffResident(view.ring, rest);
      }
    }
  }
}
