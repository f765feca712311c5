/** Blocks as they lie in a queue buffer: a 4-byte little-endian size header, counting
    itself, followed by the payload. */
module Blocks {
  type byte = x: int | 0 <= x < 256
  type Block = seq<byte>

  const HEAD: nat := 4
  const INT_MAX: int := 0x7fff_ffff

  /** The bytes a 32-bit little-endian store leaves in memory. */
  function Encode32(n: nat): (s: seq<byte>)
    ensures |s| == 4
  {
    [n % 256, n / 0x100 % 256, n / 0x1_0000 % 256, n / 0x100_0000 % 256]
  }

  /** A signed 32-bit load, as `*(int *) p` reads it. */
  function Decode32(s: seq<byte>): int
    requires |s| == 4
  {
    var b0: int, b1: int, b2: int, b3: int := s[0], s[1], s[2], s[3];
    b0 + 0x100 * b1 + 0x1_0000 * b2 + 0x100_0000 * (if b3 < 128 then b3 else b3 - 256)
  }

  lemma BytesOf(n: nat)
    requires n <= 0xffff_ffff
    ensures var s := Encode32(n);
      n == s[0] as int + 0x100 * s[1] as int + 0x1_0000 * s[2] as int + 0x100_0000 * s[3] as int
  {
    var q1, q2, q3 := n / 0x100, n / 0x1_0000, n / 0x100_0000;
    assert q1 == n / 0x100 && n == 0x100 * q1 + n % 256;
    assert q2 == q1 / 0x100 && q1 == 0x100 * q2 + q1 % 256;
    assert q3 == q2 / 0x100 && q2 == 0x100 * q3 + q2 % 256;
  }

  /** A stored size is loaded back unless it exceeds the signed range. */
  lemma DecodeEncode32(n: nat)
    requires n <= 0xffff_ffff
    ensures Decode32(Encode32(n)) == n <==> n <= INT_MAX
  {
    BytesOf(n);
  }

  function Footprint(b: Block): nat { HEAD + |b| }

  function FootprintSum(bs: seq<Block>): nat {
    if bs == [] then 0 else Footprint(bs[0]) + FootprintSum(bs[1..])
  }

  function PayloadSum(bs: seq<Block>): nat {
    if bs == [] then 0 else |bs[0]| + PayloadSum(bs[1..])
  }

  /** The blocks lie back to back in buf[lo..hi], each behind its header. */
  ghost predicate Laid(buf: seq<byte>, lo: nat, hi: nat, bs: seq<Block>)
    decreases |bs|
  {
    if bs == [] then lo == hi <= |buf|
    else
      var next := lo + Footprint(bs[0]);
      && next <= hi <= |buf|
      && buf[lo..lo + HEAD] == Encode32(Footprint(bs[0]))
      && buf[lo + HEAD..next] == bs[0]
      && Laid(buf, next, hi, bs[1..])
  }

  lemma {:induction false} FootprintSumConcat(a: seq<Block>, b: seq<Block>)
    ensures FootprintSum(a + b) == FootprintSum(a) + FootprintSum(b)
  {
    if a == [] {
      assert a + b == b;
    } else {
      assert (a + b)[1..] == a[1..] + b;
      FootprintSumConcat(a[1..], b);
    }
  }

  lemma FootprintSumSplit(bs: seq<Block>, k: nat)
    requires k <= |bs|
    ensures FootprintSum(bs) == FootprintSum(bs[..k]) + FootprintSum(bs[k..])
    ensures k < |bs| ==> FootprintSum(bs[..k + 1]) == FootprintSum(bs[..k]) + Footprint(bs[k])
    ensures k < |bs| ==> FootprintSum(bs[k..]) == Footprint(bs[k]) + FootprintSum(bs[k + 1..])
  {
    assert bs == bs[..k] + bs[k..];
    FootprintSumConcat(bs[..k], bs[k..]);
    if k < |bs| {
      assert bs[..k + 1] == bs[..k] + [bs[k]];
      FootprintSumConcat(bs[..k], [bs[k]]);
      assert bs[k..][1..] == bs[k + 1..];
    }
  }

  lemma {:induction false} FootprintIsPayloadPlusHeads(bs: seq<Block>)
    ensures FootprintSum(bs) == PayloadSum(bs) + HEAD * |bs|
  {
    if bs != [] {
      FootprintIsPayloadPlusHeads(bs[1..]);
    }
  }

  lemma {:induction false} LaidLength(buf: seq<byte>, lo: nat, hi: nat, bs: seq<Block>)
    requires Laid(buf, lo, hi, bs)
    ensures lo + FootprintSum(bs) == hi <= |buf|
    decreases |bs|
  {
    if bs != [] {
      LaidLength(buf, lo + Footprint(bs[0]), hi, bs[1..]);
    }
  }

  /** Bytes outside [lo, hi) do not matter. */
  lemma {:induction false} LaidFrame(buf: seq<byte>, buf': seq<byte>, lo: nat, hi: nat, bs: seq<Block>)
    requires Laid(buf, lo, hi, bs) && hi <= |buf'|
    requires forall i :: lo <= i < hi ==> buf'[i] == buf[i]
    ensures Laid(buf', lo, hi, bs)
    decreases |bs|
  {
    if bs != [] {
      var next := lo + Footprint(bs[0]);
      LaidFrame(buf, buf', next, hi, bs[1..]);
      assert buf'[lo..lo + HEAD] == buf[lo..lo + HEAD];
      assert buf'[lo + HEAD..next] == buf[lo + HEAD..next];
    }
  }

  lemma {:induction false} LaidAppend(buf: seq<byte>, lo: nat, mid: nat, bs: seq<Block>, p: Block)
    requires Laid(buf, lo, mid, bs) && Laid(buf, mid, mid + Footprint(p), [p])
    ensures Laid(buf, lo, mid + Footprint(p), bs + [p])
    decreases |bs|
  {
    if bs == [] {
      assert bs + [p] == [p];
    } else {
      LaidAppend(buf, lo + Footprint(bs[0]), mid, bs[1..], p);
      assert (bs + [p])[1..] == bs[1..] + [p];
    }
  }

  /** Block k is found, header and payload, behind the blocks before it. */
  lemma {:induction false} LaidAt(buf: seq<byte>, lo: nat, hi: nat, bs: seq<Block>, k: nat)
    requires Laid(buf, lo, hi, bs) && k < |bs|
    ensures var at := lo + FootprintSum(bs[..k]); Laid(buf, at, hi, bs[k..])
    decreases k
  {
    if k > 0 {
      LaidAt(buf, lo + Footprint(bs[0]), hi, bs[1..], k - 1);
      assert bs[..k][1..] == bs[1..][..k - 1];
      assert bs[1..][k - 1..] == bs[k..];
    } else {
      assert bs[0..] == bs;
    }
  }
}
