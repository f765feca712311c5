/** Table-driven conversion of YUV420 planes to RGB565 pixels. */
module ColorConvert {
  import opened Blocks

  type uint16 = x: int | 0 <= x < 0x1_0000

  datatype Format = YUV422 | YUV420 | RGB565 | RGB565_BE

  const TABLE_ENTRIES: nat := 256 * 256

  // ----- the formula -----

  /** Right shifts of negative values round down, as `/` by a positive number does here. */
  function ColorLimit(a: int): (r: int)
    ensures 0 <= r <= 255
  {
    if a > 255 then 255 else if a < 0 then 0 else a
  }

  function Red(c: int, e: int): int { ColorLimit((298 * c + 409 * e + 128) / 256) }

  function Green(c: int, d: int, e: int): int { ColorLimit((298 * c - 100 * d - 208 * e + 128) / 256) }

  function Blue(c: int, d: int): int { ColorLimit((298 * c + 516 * d + 128) / 256) }

  /** The fields do not overlap, so joining them adds them. */
  function Pack(r: int, g: int, b: int): uint16
    requires 0 <= r < 32 && 0 <= g < 64 && 0 <= b < 32
  { (r * 64 + g) * 32 + b }

  function Swap(x: uint16): uint16 { x / 256 + x % 256 * 256 }

  /** The two bytes change places. */
  lemma SwapBytes(x: uint16)
    ensures Swap(x) / 256 == x % 256 && Swap(x) % 256 == x / 256
  {
  }

  lemma SwapTwice(x: uint16)
    ensures Swap(Swap(x)) == x
  {
    SwapBytes(x);
    SwapBytes(Swap(x));
    hide Swap;
  }

  /** What six bits of Y and five bits of U or V stand for: the low bits are filled from the high
      ones, for U from Y's, as in the table code. */
  function Luma(y0: int): int { y0 * 4 + y0 % 4 - 16 }

  function ChromaU(y0: int, u0: int): int { u0 * 8 + y0 % 8 - 128 }

  function ChromaV(v0: int): int { v0 * 8 + v0 % 8 - 128 }

  function Pixel(y0: int, u0: int, v0: int): uint16 {
    var y, u, v := Luma(y0), ChromaU(y0, u0), ChromaV(v0);
    Pack(Red(y, v) / 8, Green(y, u, v) / 4, Blue(y, u) / 8)
  }

  /** The table entry for those bits, in the byte order of the target. */
  function Colour(to: Format, y0: int, u0: int, v0: int): uint16 {
    var p := Pixel(y0, u0, v0);
    if to == RGB565_BE then Swap(p) else p
  }

  function Entry(to: Format, i: int): uint16 { Colour(to, i / 1024, i / 32 % 32, i % 32) }

  // ----- what the formula means -----

  /** The 8-bit level is within `bound` levels of the value, given in thousandths and cut to the
      range of a level. */
  predicate Near(level: int, thousandths: int, bound: int) {
    var t := if thousandths < 0 then 0 else if thousandths > 255_000 then 255_000 else thousandths;
    t - 1000 * bound <= 1000 * level <= t + 1000 * bound
  }

  /** The pixel shows the colour BT.601 gives the samples: red in the top five bits, green in the
      middle six, blue in the low five, each within what the dropped low bits can account for. */
  predicate Shows(p: int, y: byte, u: byte, v: byte) {
    && Near(p / 2048 * 8, 1164 * (y - 16) + 1596 * (v - 128), 23)
    && Near(p / 32 % 64 * 4, 1164 * (y - 16) - 391 * (u - 128) - 813 * (v - 128), 16)
    && Near(p % 32 * 8, 1164 * (y - 16) + 2018 * (u - 128), 26)
  }

  lemma PackFields(r: int, g: int, b: int)
    requires 0 <= r < 32 && 0 <= g < 64 && 0 <= b < 32
    ensures var p := Pack(r, g, b); p / 2048 == r && p / 32 % 64 == g && p % 32 == b
  {
    var p := Pack(r, g, b);
    assert p == 2048 * r + (32 * g + b) && p / 32 == 64 * r + g;
  }

  /** A level computed in 256ths, and cut to a multiple of step, is near a value in thousandths that
      is near it. */
  lemma LevelNear(x: int, t: int, step: int, bound: int)
    requires (step == 4 || step == 8) && bound >= step
    requires 256 * t - 1000 * x <= 256 * (1000 * bound - 1000 * step)
    requires 1000 * x - 256 * t <= 256 * 1000 * bound
    ensures Near(ColorLimit(x / 256) / step * step, t, bound)
  {
    var a := x / 256;
    var level := ColorLimit(a) / step * step;
    assert 256 * a <= x <= 256 * a + 255;
    assert ColorLimit(a) - step < level <= ColorLimit(a);
  }

  /** What six or five bits of a sample stand for is near the sample, and in its range. */
  lemma SamplesNear(y: byte, u: byte, v: byte)
    ensures var c, d, e := Luma(y / 4), ChromaU(y / 4, u / 8), ChromaV(v / 8);
      && -3 <= y - 16 - c <= 3 && -7 <= u - 128 - d <= 7 && -7 <= v - 128 - e <= 7
      && -16 <= c <= 239 && -128 <= d <= 127 && -128 <= e <= 127
  {
    var y0, u0, v0 := y / 4, u / 8, v / 8;
    assert y == 4 * y0 + y % 4 && u == 8 * u0 + u % 8 && v == 8 * v0 + v % 8;
    assert 0 <= y % 4 < 4 && 0 <= u % 8 < 8 && 0 <= v % 8 < 8;
    assert 0 <= y0 % 4 < 4 && 0 <= y0 % 8 < 8 && 0 <= v0 % 8 < 8;
    assert 0 <= y0 < 64 && 0 <= u0 < 32 && 0 <= v0 < 32;
  }

  lemma RedNear(y: int, v: int, c: int, e: int)
    requires -3 <= y - c <= 3 && -7 <= v - e <= 7 && -16 <= c <= 239 && -128 <= e <= 127
    ensures Near(Red(c, e) / 8 * 8, 1164 * y + 1596 * v, 23)
  {
    hide Near, ColorLimit;
    LevelNear(298 * c + 409 * e + 128, 1164 * y + 1596 * v, 8, 23);
  }

  lemma GreenNear(y: int, u: int, v: int, c: int, d: int, e: int)
    requires -3 <= y - c <= 3 && -7 <= u - d <= 7 && -7 <= v - e <= 7
    requires -16 <= c <= 239 && -128 <= d <= 127 && -128 <= e <= 127
    ensures Near(Green(c, d, e) / 4 * 4, 1164 * y - 391 * u - 813 * v, 16)
  {
    hide Near, ColorLimit;
    LevelNear(298 * c - 100 * d - 208 * e + 128, 1164 * y - 391 * u - 813 * v, 4, 16);
  }

  lemma BlueNear(y: int, u: int, c: int, d: int)
    requires -3 <= y - c <= 3 && -7 <= u - d <= 7 && -16 <= c <= 239 && -128 <= d <= 127
    ensures Near(Blue(c, d) / 8 * 8, 1164 * y + 2018 * u, 26)
  {
    hide Near, ColorLimit;
    LevelNear(298 * c + 516 * d + 128, 1164 * y + 2018 * u, 8, 26);
  }

  /** The fields of a pixel are its three levels without their low bits. */
  lemma PixelFields(y0: int, u0: int, v0: int)
    ensures var p, c, d, e := Pixel(y0, u0, v0), Luma(y0), ChromaU(y0, u0), ChromaV(v0);
      && p / 2048 == Red(c, e) / 8 && p / 32 % 64 == Green(c, d, e) / 4 && p % 32 == Blue(c, d) / 8
  {
    var c, d, e := Luma(y0), ChromaU(y0, u0), ChromaV(v0);
    LevelsInRange(c, d, e);
    hide Red, Green, Blue, Luma, ChromaU, ChromaV;
    PackFields(Red(c, e) / 8, Green(c, d, e) / 4, Blue(c, d) / 8);
  }

  lemma LevelsInRange(c: int, d: int, e: int)
    ensures 0 <= Red(c, e) <= 255 && 0 <= Green(c, d, e) <= 255 && 0 <= Blue(c, d) <= 255
  {
  }

  lemma ColourShows(y: byte, u: byte, v: byte)
    ensures Shows(Colour(RGB565, y / 4, u / 8, v / 8), y, u, v)
  {
    hide Near, Red, Green, Blue, Luma, ChromaU, ChromaV, Pixel;
    var c, d, e := Luma(y / 4), ChromaU(y / 4, u / 8), ChromaV(v / 8);
    SamplesNear(y, u, v);
    PixelFields(y / 4, u / 8, v / 8);
    RedNear(y - 16, v - 128, c, e);
    GreenNear(y - 16, u - 128, v - 128, c, d, e);
    BlueNear(y - 16, u - 128, c, d);
  }

  lemma RedRises(c: int, e: int, e': int)
    requires e <= e'
    ensures Red(c, e) / 8 <= Red(c, e') / 8
  {
    assert (298 * c + 409 * e + 128) / 256 <= (298 * c + 409 * e' + 128) / 256;
  }

  lemma BlueRises(c: int, d: int, d': int)
    requires d <= d'
    ensures Blue(c, d) / 8 <= Blue(c, d') / 8
  {
    assert (298 * c + 516 * d + 128) / 256 <= (298 * c + 516 * d' + 128) / 256;
  }

  lemma ChromaRises(y0: int, x: byte, x': byte)
    requires x <= x'
    ensures ChromaU(y0, x / 8) <= ChromaU(y0, x' / 8) && ChromaV(x / 8) <= ChromaV(x' / 8)
  {
    var k, k' := x / 8, x' / 8;
    assert k <= k' && (k < k' ==> k * 8 + k % 8 <= k' * 8);
  }

  /** Red rises with V and does not depend on U; blue rises with U and does not depend on V. */
  lemma RedAndBlueRise(y: byte, u: byte, u': byte, v: byte, v': byte)
    ensures v <= v' ==>
      Colour(RGB565, y / 4, u / 8, v / 8) / 2048 <= Colour(RGB565, y / 4, u' / 8, v' / 8) / 2048
    ensures u <= u' ==>
      Colour(RGB565, y / 4, u / 8, v / 8) % 32 <= Colour(RGB565, y / 4, u' / 8, v' / 8) % 32
  {
    hide Red, Green, Blue, Luma, ChromaU, ChromaV, Pixel;
    PixelFields(y / 4, u / 8, v / 8);
    PixelFields(y / 4, u' / 8, v' / 8);
    if v <= v' {
      ChromaRises(y / 4, v, v');
      RedRises(Luma(y / 4), ChromaV(v / 8), ChromaV(v' / 8));
    }
    if u <= u' {
      ChromaRises(y / 4, u, u');
      BlueRises(Luma(y / 4), ChromaU(y / 4, u / 8), ChromaU(y / 4, u' / 8));
    }
  }

  /** A red sample is red. */
  lemma RedIsRed()
    ensures Colour(RGB565, 81 / 4, 90 / 8, 240 / 8) == 0xf800
    ensures Colour(RGB565_BE, 81 / 4, 90 / 8, 240 / 8) == 0x00f8
  {
    assert Luma(20) == 64 && ChromaU(20, 11) == -36 && ChromaV(30) == 118;
    assert Red(64, 118) == 255 && Green(64, -36, 118) == 0 && Blue(64, -36) == 2;
    assert Pack(31, 0, 0) == 0xf800 && Swap(0xf800) == 0x00f8;
    hide Red, Green, Blue, Luma, ChromaU, ChromaV, Pack, Swap;
    assert Pixel(20, 11, 30) == Pack(31, 0, 0) by { LevelsInRange(64, -36, 118); }
  }

  function TableIndex(y: int, u: int, v: int): int { y / 4 * 1024 + (u / 8 * 32 + v / 8) }

  /** Six, five and five bits index the table exactly. */
  lemma TableIndexSplits(y: byte, u: byte, v: byte)
    ensures var i := TableIndex(y, u, v);
      0 <= i < TABLE_ENTRIES && i / 1024 == y / 4 && i / 32 % 32 == u / 8 && i % 32 == v / 8
  {
    IndexParts(y / 4, u / 8, v / 8);
  }

  lemma IndexParts(y0: int, u0: int, v0: int)
    requires 0 <= y0 < 64 && 0 <= u0 < 32 && 0 <= v0 < 32
    ensures var i := y0 * 1024 + u0 * 32 + v0;
      0 <= i < TABLE_ENTRIES && i / 1024 == y0 && i / 32 % 32 == u0 && i % 32 == v0
  {
    var i := y0 * 1024 + u0 * 32 + v0;
    assert i / 32 == y0 * 32 + u0;
  }

  /** Fills the table, looping over U, V and Y in the source's order. */
  method InitTable(to: Format) returns (table: array<uint16>)
    ensures fresh(table) && table.Length == TABLE_ENTRIES
    ensures forall i :: 0 <= i < TABLE_ENTRIES ==> table[i] == Entry(to, i)
  {
    hide Colour;
    table := new uint16[TABLE_ENTRIES](_ => 0);
    for u0 := 0 to 32
      invariant forall i :: 0 <= i < TABLE_ENTRIES && i / 32 % 32 < u0 ==> table[i] == Entry(to, i)
    {
      for v0 := 0 to 32
        invariant forall i :: 0 <= i < TABLE_ENTRIES && i / 32 % 32 < u0 ==> table[i] == Entry(to, i)
        invariant forall i :: 0 <= i < TABLE_ENTRIES && i / 32 % 32 == u0 && i % 32 < v0 ==> table[i] == Entry(to, i)
      {
        for y0 := 0 to 64
          invariant forall i :: 0 <= i < TABLE_ENTRIES && i / 32 % 32 < u0 ==> table[i] == Entry(to, i)
          invariant forall i :: 0 <= i < TABLE_ENTRIES && i / 32 % 32 == u0 && i % 32 < v0 ==> table[i] == Entry(to, i)
          invariant forall i :: 0 <= i < TABLE_ENTRIES && i / 32 % 32 == u0 && i % 32 == v0 && i / 1024 < y0
                      ==> table[i] == Entry(to, i)
        {
          IndexParts(y0, u0, v0);
          table[y0 * 1024 + u0 * 32 + v0] := Colour(to, y0, u0, v0);
          SameIndex(y0, u0, v0);
        }
      }
    }
  }

  /** Only one index has these parts. */
  lemma SameIndex(y0: nat, u0: nat, v0: nat)
    ensures forall i :: 0 <= i && i / 32 % 32 == u0 && i % 32 == v0 && i / 1024 == y0 ==> i == y0 * 1024 + u0 * 32 + v0
  {
  }

  // ----- planes -----

  function Area(w: nat, h: nat): nat { w * h }

  /** Linear position of pixel (i, j). */
  function Cell(i: nat, j: nat, w: nat): nat { i * w + j }

  /** The chroma sample of pixel (i, j): one for each two by two pixels. */
  function Chroma(i: nat, j: nat, w: nat): nat { i / 2 * (w / 2) + j / 2 }

  /** Planes of a frame with even width and height, one after the other. */
  predicate Frame(src: seq<byte>, w: nat, h: nat) {
    w % 2 == 0 && h % 2 == 0 && |src| == Area(w, h) * 3 / 2
  }

  lemma CellInArea(i: nat, j: nat, w: nat, h: nat)
    requires i < h && j < w
    ensures Cell(i, j, w) < Area(w, h)
  {
    RowFits(i, w, w, h);
  }

  lemma EvenArea(w: nat, h: nat)
    requires w % 2 == 0 && h % 2 == 0
    ensures Area(w, h) == 4 * Area(w / 2, h / 2)
  {
    var a, b := w / 2, h / 2;
    assert w == 2 * a && h == 2 * b;
    assert (2 * a) * (2 * b) == 4 * (a * b);
  }

  lemma PlaneBounds(w: nat, h: nat, i: nat, j: nat)
    requires w % 2 == 0 && h % 2 == 0 && i < h && j < w
    ensures Area(w, h) % 4 == 0 && Cell(i, j, w) < Area(w, h) && Chroma(i, j, w) < Area(w, h) / 4
  {
    CellInArea(i, j, w, h);
    CellInArea(i / 2, j / 2, w / 2, h / 2);
    EvenArea(w, h);
    assert Chroma(i, j, w) == Cell(i / 2, j / 2, w / 2);
  }

  /** What pixel (i, j) should be: the table at its own luma and its two by two chroma. */
  function Converted(src: seq<byte>, w: nat, h: nat, table: seq<uint16>, i: nat, j: nat): uint16
    requires Frame(src, w, h) && |table| == TABLE_ENTRIES && i < h && j < w
  {
    PlaneBounds(w, h, i, j);
    var n, c, a := Cell(i, j, w), Chroma(i, j, w), Area(w, h);
    TableIndexSplits(src[n], src[a + c], src[a * 5 / 4 + c]);
    table[TableIndex(src[n], src[a + c], src[a * 5 / 4 + c])]
  }

  function Row(p: nat, w: nat): nat
    requires w > 0
  { p / w }

  function Column(p: nat, w: nat): nat
    requires w > 0
  { p % w }

  lemma RowOf(p: nat, w: nat, h: nat)
    requires p < Area(w, h)
    ensures 0 < w && Row(p, w) < h && Column(p, w) < w && p == Cell(Row(p, w), Column(p, w), w)
  {
    assert w == 0 ==> w * h == 0;
    var q := p / w;
    assert q >= h ==> q * w >= h * w;
  }

  lemma SmallMultiple(k: int, w: int, d: int)
    requires k * w == d && -w < d < w
    ensures k == 0
  {
    assert k >= 1 ==> k * w >= w;
    assert k <= -1 ==> k * w <= -w;
  }

  lemma RowColumn(i: nat, j: nat, w: nat)
    requires j < w
    ensures Row(Cell(i, j, w), w) == i && Column(Cell(i, j, w), w) == j
  {
    var x := i * w + j;
    var q, r := x / w, x % w;
    assert x == q * w + r;
    assert (q - i) * w == q * w - i * w == j - r;
    SmallMultiple(q - i, w, j - r);
  }

  /** The same for the pixel at linear position p. */
  function ConvertedAt(src: seq<byte>, w: nat, h: nat, table: seq<uint16>, p: nat): uint16
    requires Frame(src, w, h) && |table| == TABLE_ENTRIES && p < Area(w, h)
  {
    RowOf(p, w, h);
    Converted(src, w, h, table, Row(p, w), Column(p, w))
  }

  /** Linear and row-column positions name the same pixels. */
  lemma ConvertedAtCell(src: seq<byte>, w: nat, h: nat, table: seq<uint16>, i: nat, j: nat)
    requires Frame(src, w, h) && |table| == TABLE_ENTRIES && i < h && j < w
    ensures Cell(i, j, w) < Area(w, h)
    ensures ConvertedAt(src, w, h, table, Cell(i, j, w)) == Converted(src, w, h, table, i, j)
  {
    CellInArea(i, j, w, h);
    RowColumn(i, j, w);
    hide Cell, Area, Row, Column, Converted;
  }

  function Lookup(table: seq<uint16>, y: byte, u: byte, v: byte): uint16
    requires |table| == TABLE_ENTRIES
  {
    TableIndexSplits(y, u, v);
    table[TableIndex(y, u, v)]
  }

  /** Positions of one pixel in the three planes. */
  lemma PixelAt(src: seq<byte>, w: nat, h: nat, table: seq<uint16>, i: nat, j: nat)
    requires Frame(src, w, h) && |table| == TABLE_ENTRIES && i < h && j < w
    ensures var n, c, a := Cell(i, j, w), Chroma(i, j, w), Area(w, h);
      && n < a && a + c < |src| && a * 5 / 4 + c < |src|
      && ConvertedAt(src, w, h, table, n) == Lookup(table, src[n], src[a + c], src[a * 5 / 4 + c])
  {
    PlaneBounds(w, h, i, j);
    ConvertedAtCell(src, w, h, table, i, j);
    hide Cell, Area, Chroma, ConvertedAt;
  }

  lemma CellSteps(i: nat, j: nat, w: nat)
    requires w % 2 == 0
    ensures Cell(i, j + 1, w) == Cell(i, j, w) + 1 && Cell(i, j + 2, w) == Cell(i, j, w) + 2
    ensures Cell(i, w, w) == Cell(i + 1, 0, w)
    ensures Chroma(i, j + 2, w) == Chroma(i, j, w) + 1
    ensures j % 2 == 0 ==> Chroma(i, j + 1, w) == Chroma(i, j, w)
    ensures Chroma(i, w, w) == Chroma(i, 0, w) + w / 2
    ensures Chroma(i + 1, 0, w) == Chroma(i, 0, w) + (if i % 2 == 0 then 0 else w / 2)
  {
    assert (i + 1) * w == i * w + w;
    assert i % 2 == 1 ==> (i / 2 + 1) * (w / 2) == i / 2 * (w / 2) + w / 2;
  }

  lemma RowFits(i: nat, j: nat, w: nat, h: nat)
    requires i < h && j <= w
    ensures Cell(i, j, w) <= Area(w, h)
  {
    MulMono(i + 1, h, w);
    assert (i + 1) * w == i * w + w;
  }

  lemma MulMono(a: nat, b: nat, c: nat)
    requires a <= b
    ensures a * c <= b * c
  {
    assert b * c == a * c + (b - a) * c;
  }

  /** Rows before row i, and the first j pixels of it, are done; pixels behind the frame are not touched. */
  ghost predicate DoneUpTo(src: seq<byte>, w: nat, h: nat, table: seq<uint16>, was: seq<uint16>, dst: seq<uint16>,
      idx: nat)
    requires Frame(src, w, h) && |table| == TABLE_ENTRIES
  {
    && |dst| == |was| && idx <= Area(w, h) <= |dst|
    && (forall p :: 0 <= p < idx ==> dst[p] == ConvertedAt(src, w, h, table, p))
    && (forall p :: Area(w, h) <= p < |dst| ==> dst[p] == was[p])
  }

  lemma DoneLength(src: seq<byte>, w: nat, h: nat, table: seq<uint16>, was: seq<uint16>, dst: seq<uint16>, idx: nat)
    requires Frame(src, w, h) && |table| == TABLE_ENTRIES && DoneUpTo(src, w, h, table, was, dst, idx)
    ensures |dst| == |was| && idx <= Area(w, h) <= |dst|
  {
  }

  lemma DonePair(src: seq<byte>, w: nat, h: nat, table: seq<uint16>, was: seq<uint16>, dst: seq<uint16>, idx: nat,
                 p: uint16, q: uint16)
    requires Frame(src, w, h) && |table| == TABLE_ENTRIES && DoneUpTo(src, w, h, table, was, dst, idx)
    requires idx + 2 <= Area(w, h) <= |dst|
    requires p == ConvertedAt(src, w, h, table, idx) && q == ConvertedAt(src, w, h, table, idx + 1)
    ensures DoneUpTo(src, w, h, table, was, dst[idx := p][idx + 1 := q], idx + 2)
  {
    hide Area, ConvertedAt, Frame;
  }

  /** One line: pixels in pairs, each pair with one chroma sample. */
  method ConvertRow(src: seq<byte>, w: nat, h: nat, table: array<uint16>, dst: array<uint16>, i: nat, start: nat,
                    chromaStart: nat, ghost was: seq<uint16>) returns (idx: nat, uPos: nat)
    requires Frame(src, w, h) && table.Length == TABLE_ENTRIES && dst != table && i < h
    requires start == Cell(i, 0, w) && chromaStart == Chroma(i, 0, w)
    requires DoneUpTo(src, w, h, table[..], was, dst[..], start)
    modifies dst
    ensures idx == Cell(i + 1, 0, w) && uPos == chromaStart + w / 2
    ensures DoneUpTo(src, w, h, table[..], was, dst[..], idx)
  {
    hide Area, Cell, Chroma, ConvertedAt, Lookup, Frame, DoneUpTo;
    var uPlane, vPlane := PlaneStarts(src, w, h);
    ghost var tab := table[..];
    idx, uPos := start, chromaStart;
    var j := 0;
    CellSteps(i, 0, w);
    while j < w
      invariant j <= w && j % 2 == 0 && table[..] == tab
      invariant idx == Cell(i, j, w) && uPos == Chroma(i, j, w)
      invariant DoneUpTo(src, w, h, tab, was, dst[..], idx)
    {
      CellSteps(i, j, w);
      RowFits(i, j + 2, w, h);
      PixelAt(src, w, h, tab, i, j);
      PixelAt(src, w, h, tab, i, j + 1);
      DoneLength(src, w, h, tab, was, dst[..], idx);
      var u, v := src[uPlane + uPos], src[vPlane + uPos];
      ghost var before: seq<uint16> := dst[..];
      dst[idx] := LookupIn(table, src[idx], u, v);
      dst[idx + 1] := LookupIn(table, src[idx + 1], u, v);
      assert dst[..] == before[idx := dst[idx]][idx + 1 := dst[idx + 1]];
      DonePair(src, w, h, tab, was, before, idx, dst[idx], dst[idx + 1]);
      idx := idx + 2;
      uPos := uPos + 1;
      j := j + 2;
    }
  }

  /** Converts line by line with running positions; the chroma position steps back at the end of
      every even line. */
  method Yuv420ToRgb565(src: seq<byte>, w: nat, h: nat, table: array<uint16>, dst: array<uint16>)
    requires Frame(src, w, h) && table.Length == TABLE_ENTRIES && dst.Length >= Area(w, h) && dst != table
    modifies dst
    ensures DoneUpTo(src, w, h, table[..], old(dst[..]), dst[..], Area(w, h))
  {
    var uPos, idx := 0, 0;
    ghost var tab, was := table[..], dst[..];
    assert Cell(0, 0, w) == 0 && Chroma(0, 0, w) == 0 && Cell(h, 0, w) == Area(w, h) && w % 2 == 0;
    hide Area, Cell, Chroma, ConvertedAt, Frame;
    for i := 0 to h
      invariant table[..] == tab && idx == Cell(i, 0, w) && uPos == Chroma(i, 0, w)
      invariant DoneUpTo(src, w, h, tab, was, dst[..], idx)
    {
      idx, uPos := ConvertRow(src, w, h, table, dst, i, idx, uPos, was);
      CellSteps(i, 0, w);
      if i % 2 == 0 {
        uPos := uPos - w / 2;
      }
    }
  }

  function LookupIn(table: array<uint16>, y: byte, u: byte, v: byte): (r: uint16)
    requires table.Length == TABLE_ENTRIES
    reads table
    ensures r == Lookup(table[..], y, u, v)
  {
    TableIndexSplits(y, u, v);
    table[TableIndex(y, u, v)]
  }

  method PlaneStarts(src: seq<byte>, w: nat, h: nat) returns (u: nat, v: nat)
    requires Frame(src, w, h)
    ensures w % 2 == 0 && u == Area(w, h) && v == Area(w, h) * 5 / 4
  {
    u, v := w * h, w * h * 5 / 4;
  }

  /** A filled table turns every pixel into the formula at its own Y and its two by two U and V. */
  lemma PixelFormula(src: seq<byte>, w: nat, h: nat, to: Format, table: seq<uint16>, i: nat, j: nat)
    requires Frame(src, w, h) && i < h && j < w
    requires |table| == TABLE_ENTRIES && forall k :: 0 <= k < TABLE_ENTRIES ==> table[k] == Entry(to, k)
    ensures CellIs(src, w, h, to, Converted(src, w, h, table, i, j), i, j)
  {
    hide Area, Cell, Chroma, Colour, Frame, Lookup, Converted, Entry;
    var n, c, a := Cell(i, j, w), Chroma(i, j, w), Area(w, h);
    FramePlanes(src, w, h, i, j);
    ConvertedLooksUp(src, w, h, table, i, j);
    LookupIsColour(to, table, src[n], src[a + c], src[a + a / 4 + c]);
  }

  lemma ConvertedLooksUp(src: seq<byte>, w: nat, h: nat, table: seq<uint16>, i: nat, j: nat)
    requires Frame(src, w, h) && |table| == TABLE_ENTRIES && i < h && j < w
    ensures var n, c, a := Cell(i, j, w), Chroma(i, j, w), Area(w, h);
      && n < |src| && a + c < |src| && a + a / 4 + c < |src|
      && Converted(src, w, h, table, i, j) == Lookup(table, src[n], src[a + c], src[a + a / 4 + c])
  {
    hide Area, Cell, Chroma, Frame, TableIndex;
    FramePlanes(src, w, h, i, j);
  }

  lemma LookupIsColour(to: Format, table: seq<uint16>, y: byte, u: byte, v: byte)
    requires |table| == TABLE_ENTRIES && forall k :: 0 <= k < TABLE_ENTRIES ==> table[k] == Entry(to, k)
    ensures Lookup(table, y, u, v) == Colour(to, y / 4, u / 8, v / 8)
  {
    hide Colour, TableIndex;
    TableIndexSplits(y, u, v);
  }

  /** Where the three samples of a pixel lie in the source. */
  lemma FramePlanes(src: seq<byte>, w: nat, h: nat, i: nat, j: nat)
    requires Frame(src, w, h) && i < h && j < w
    ensures w % 2 == 0 && h % 2 == 0
    ensures var n, c, a := Cell(i, j, w), Chroma(i, j, w), Area(w, h);
      n < a && c < a / 4 && a * 5 / 4 == a + a / 4 && a + a / 4 + a / 4 == |src|
  {
    hide Cell, Chroma, Area;
    PlaneBounds(w, h, i, j);
  }

  /** The pixel is the formula at its own Y and its two by two U and V. */
  predicate CellIs(src: seq<byte>, w: nat, h: nat, to: Format, pixel: int, i: nat, j: nat) {
    var n, c, a := Cell(i, j, w), Chroma(i, j, w), Area(w, h);
    && n < a && c < a / 4 && a + a / 4 + a / 4 == |src|
    && pixel == Colour(to, src[n] / 4, src[a + c] / 8, src[a + a / 4 + c] / 8)
  }

  /** The big-endian output is the byte swap of the little-endian one, pixel by pixel. */
  lemma BigEndianIsSwapped(src: seq<byte>, w: nat, h: nat, le: seq<uint16>, be: seq<uint16>, p: nat)
    requires Frame(src, w, h) && p < Area(w, h) && |le| == |be| == TABLE_ENTRIES
    requires forall k :: 0 <= k < TABLE_ENTRIES ==> le[k] == Entry(RGB565, k) && be[k] == Entry(RGB565_BE, k)
    ensures ConvertedAt(src, w, h, be, p) == Swap(ConvertedAt(src, w, h, le, p))
    ensures ConvertedAt(src, w, h, le, p) == Swap(ConvertedAt(src, w, h, be, p))
  {
    RowOf(p, w, h);
    hide Area, Cell, Chroma, Row, Column, Pixel, Swap, Entry, Converted;
    PixelFormula(src, w, h, RGB565, le, Row(p, w), Column(p, w));
    PixelFormula(src, w, h, RGB565_BE, be, Row(p, w), Column(p, w));
    SwapTwice(ConvertedAt(src, w, h, le, p));
  }

  /** In plain positions: pixel (i, j) of the output shows the luma at i * w + j and the chroma of its
      two by two pixels, from the plane of U behind that of Y and the plane of V behind that of U. */
  predicate PixelShows(src: seq<byte>, w: nat, h: nat, to: Format, dst: seq<uint16>, i: nat, j: nat) {
    var n, c, a := i * w + j, i / 2 * (w / 2) + j / 2, w * h;
    && 0 <= n < |dst| && n < |src| && 0 <= c && 0 <= a && a + a / 4 + c < |src|
    && var p := if to == RGB565_BE then dst[n] % 256 * 256 + dst[n] / 256 else dst[n];
       Shows(p, src[n], src[a + c], src[a + a / 4 + c])
  }

  lemma CellShows(src: seq<byte>, w: nat, h: nat, to: Format, dst: seq<uint16>, i: nat, j: nat)
    requires Cell(i, j, w) < |dst| && CellIs(src, w, h, to, dst[Cell(i, j, w)], i, j)
    ensures PixelShows(src, w, h, to, dst, i, j)
  {
    hide Shows, Pixel, Swap;
    var n, c, a := Cell(i, j, w), Chroma(i, j, w), Area(w, h);
    ColourShows(src[n], src[a + c], src[a + a / 4 + c]);
    SwapBytes(Pixel(src[n] / 4, src[a + c] / 8, src[a + a / 4 + c] / 8));
  }

  datatype Result = Ok | SizeMismatch | BadTarget | BadSource

  /** The converter object: formats and size are fixed, the table is filled once. */
  class Converter {
    const table: array<uint16>
    const from: Format
    const to: Format
    const width: nat
    const height: nat

    ghost predicate Ready()
      reads table
    {
      && width % 2 == 0 && height % 2 == 0
      && (from == YUV420 && (to == RGB565 || to == RGB565_BE) ==>
            table.Length == TABLE_ENTRIES && forall k :: 0 <= k < TABLE_ENTRIES ==> table[k] == Entry(to, k))
    }

    constructor (from: Format, to: Format, width: nat, height: nat)
      requires width % 2 == 0 && height % 2 == 0
      ensures Ready() && fresh(table)
      ensures this.from == from && this.to == to && this.width == width && this.height == height
    {
      this.from, this.to, this.width, this.height := from, to, width, height;
      var t;
      if from == YUV420 && (to == RGB565 || to == RGB565_BE) {
        t := InitTable(to);
      } else {
        t := new uint16[0];
      }
      table := t;
    }

    /** A source other than YUV420 is the deliberate crash. */
    method ConvertColor(src: seq<byte>, dst: array<uint16>) returns (r: Result)
      requires Ready() && dst != table
      modifies dst
      ensures Ready()
      ensures r == if from != YUV420 then BadSource
                   else if |src| != Area(width, height) * 3 / 2 || dst.Length < Area(width, height) then SizeMismatch
                   else if to == RGB565 || to == RGB565_BE then Ok else BadTarget
      ensures r != Ok ==> dst[..] == old(dst[..])
      ensures r == Ok ==> forall i, j :: 0 <= i < height && 0 <= j < width ==>
        && Cell(i, j, width) < dst.Length
        && CellIs(src, width, height, to, dst[Cell(i, j, width)], i, j)
      ensures r == Ok ==> forall i, j :: 0 <= i < height && 0 <= j < width ==>
        PixelShows(src, width, height, to, dst[..], i, j)
    {
      hide Colour, Converted, ConvertedAt, Chroma, Entry, Cell, CellIs, PixelShows;
      if from != YUV420 {
        return BadSource;
      }
      if |src| != width * height * 3 / 2 || 2 * dst.Length < width * height * 2 {
        return SizeMismatch;
      }
      if to != RGB565 && to != RGB565_BE {
        return BadTarget;
      }
      Yuv420ToRgb565(src, width, height, table, dst);
      hide Area;
      forall i, j | 0 <= i < height && 0 <= j < width
        ensures Cell(i, j, width) < dst.Length
        ensures CellIs(src, width, height, to, dst[Cell(i, j, width)], i, j)
        ensures PixelShows(src, width, height, to, dst[..], i, j)
      {
        ConvertedAtCell(src, width, height, table[..], i, j);
        PixelFormula(src, width, height, to, table[..], i, j);
        CellShows(src, width, height, to, dst[..], i, j);
      }
      r := Ok;
    }
  }
}
