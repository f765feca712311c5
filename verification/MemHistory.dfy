/** The memory-history object in its own form: four slices of one cache, written in place. Each
    method is what one thread does between two points where the other may run. */
module MemHistories {
  import opened Blocks
  import opened MemHistoryModel

  class SaveHistory {
    const saveCache: seq<array<byte>>
    const cacheSize: nat
    var cacheFilled: nat
    var wp: nat
    var n: nat
    var stopping: bool
    var file: seq<byte>

    ghost predicate Valid()
      reads this, saveCache
    {
      && |saveCache| == SLICES && wp < SLICES && (if cacheSize == 0 then cacheFilled == 0 else cacheFilled < cacheSize)
      && (forall i :: 0 <= i < SLICES ==> saveCache[i].Length == cacheSize)
      && (forall i, j :: 0 <= i < j < SLICES ==> saveCache[i] != saveCache[j])
    }

    ghost function Slices(): seq<seq<byte>>
      requires Valid()
      reads this, saveCache
    { [saveCache[0][..], saveCache[1][..], saveCache[2][..], saveCache[3][..]] }

    /** The protocol state, given where the two threads are. */
    ghost function View(w: Writer, s: Saver): State
      requires Valid()
      reads this, saveCache
    { State(Slices(), cacheSize, cacheFilled, wp, n, stopping, file, w, s) }

    /** The cache is cut into equal slices; a remainder of the configured size is not used. Less than
        a byte a slice is not refused. */
    constructor (total: nat)
      ensures Valid() && cacheSize == total / SLICES
      ensures View(Idle, Top) == Start(cacheSize)
    {
      var each := total / SLICES;
      var c0 := new byte[each](_ => 0);
      var c1 := new byte[each](_ => 0);
      var c2 := new byte[each](_ => 0);
      var c3 := new byte[each](_ => 0);
      saveCache := [c0, c1, c2, c3];
      cacheSize := each;
      cacheFilled, wp, n, stopping, file := 0, 0, 0, false, [];
      new;
      assert forall c <- saveCache :: c[..] == seq(each, _ => 0);
    }

    /** The hooks' unlocked test before a record of `need` bytes. */
    method WaitedEnough(need: nat) returns (ok: bool)
      requires Valid()
      ensures ok <==> Enough(View(Idle, Top), need)
    {
      ok := n < SLICES || cacheFilled + need <= cacheSize;
    }

    /** One locked pass of the copy loop; returns what is still to be copied. */
    method CopyPass(buffer: seq<byte>, ghost next: seq<byte>) returns (rest: seq<byte>)
      requires Valid() && n < SLICES && buffer != []
      modifies `cacheFilled, `wp, `n, saveCache[wp]
      ensures Valid() && |rest| <= |buffer| && rest == buffer[|buffer| - |rest|..]
      ensures View(After(rest, next), Top) == CopyChunk(old(View(Writing(buffer, next), Top)))
    {
      if cacheFilled >= cacheSize {
        return buffer;
      }
      var left := cacheSize - cacheFilled;
      var fill := if left > |buffer| then |buffer| else left;
      FillSlice(buffer[..fill]);
      assert left > |buffer| ==> buffer[..fill] == buffer;
      cacheFilled := cacheFilled + fill;
      rest := buffer[fill..];
      if left > fill {
        return;
      }
      cacheFilled := 0;
      wp := (wp + 1) % SLICES;
      n := n + 1;
    }

    /** Copies into the current slice behind what it holds. */
    method FillSlice(data: seq<byte>)
      requires Valid() && cacheFilled + |data| <= cacheSize
      modifies saveCache[wp]
      ensures Valid() && Slices() == old(Slices())[wp := Patched(old(Slices())[wp], cacheFilled, data)]
    {
      hide Patched;
      ghost var at, slice := wp, saveCache[wp][..];
      assert forall k :: 0 <= k < SLICES && k != at ==> saveCache[k] != saveCache[at];
      forall i | 0 <= i < |data| {
        saveCache[wp][cacheFilled + i] := data[i];
      }
      PatchedIs(slice, cacheFilled, data);
      assert saveCache[wp][..] == Patched(slice, cacheFilled, data);
      assert forall k :: 0 <= k < SLICES && k != at ==> saveCache[k][..] == old(saveCache[k][..]);
    }

    static lemma PatchedIs(slice: seq<byte>, at: nat, data: seq<byte>)
      requires at + |data| <= |slice|
      ensures var r := Patched(slice, at, data);
        |r| == |slice| && forall i :: 0 <= i < |r| ==> r[i] == if at <= i < at + |data| then data[i - at] else slice[i]
    {
    }

    method PickHead() returns (head: nat)
      requires Valid() && n <= SLICES
      ensures head < SLICES && View(Idle, Picked(head)) == Apply(View(Idle, SawWork), Pick)
    {
      head := (wp + SLICES - n) % SLICES;
    }

    method SaveSlice(head: nat)
      requires Valid() && head < SLICES
      modifies `file
      ensures Valid() && View(Idle, Saved) == Apply(old(View(Idle, Picked(head))), Save)
    {
      file := file + saveCache[head][..];
    }

    method RetireSlice()
      requires Valid() && n > 0
      modifies `n
      ensures Valid() && View(Idle, Top) == Apply(old(View(Idle, Saved)), Retire)
    {
      n := n - 1;
    }

    method FlushPartial()
      requires Valid()
      modifies `file
      ensures Valid() && View(Idle, Done) == Apply(old(View(Idle, Flushing)), Flush)
    {
      if cacheFilled != 0 {
        file := file + saveCache[wp][..cacheFilled];
      } else {
        assert file + [] == file;
      }
    }
  }
}
