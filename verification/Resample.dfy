/** The audio resampling pipeline: which converters are used, in which order, and how samples run
    through them with two work buffers. Converters are functions of their input. */
module Resample {
  import opened Blocks

  datatype Format = Format(rate: nat, channel: nat, bits: nat)

  datatype Op = NoOp | ChCvt | BitCvt | RateCvt

  const MAX_OPS: nat := 3

  /** Bytes of one sample in a format. */
  function FrameSize(f: Format): nat { f.channel * (f.bits / 8) }

  /** Bytes of `samples` samples. */
  function SizeOf(samples: nat, f: Format): nat { samples * FrameSize(f) }

  /** The format behind a converter. */
  function After(f: Format, op: Op, out: Format): Format {
    match op
    case ChCvt => f.(channel := out.channel)
    case BitCvt => f.(bits := out.bits)
    case RateCvt => f.(rate := out.rate)
    case NoOp => f
  }

  function Fold(f: Format, ops: seq<Op>, out: Format): Format
    decreases |ops|
  {
    if ops == [] then f else Fold(After(f, ops[0], out), ops[1..], out)
  }

  /** Fewer bits before the rate, more bits behind it. */
  function BitsPlan(inp: Format, out: Format): seq<Op> {
    (if inp.bits > out.bits then [BitCvt] else [])
    + (if inp.rate != out.rate then [RateCvt] else [])
    + (if inp.bits < out.bits then [BitCvt] else [])
  }

  /** Fewer channels before all that, more channels behind it. */
  function Plan(inp: Format, out: Format): seq<Op> {
    (if inp.channel > out.channel then [ChCvt] else [])
    + BitsPlan(inp, out)
    + (if inp.channel < out.channel then [ChCvt] else [])
  }

  function Min(a: nat, b: nat): nat { if a < b then a else b }

  /** Up to three converters one after the other. */
  lemma FoldUpToThree(f: Format, p: seq<Op>, out: Format)
    requires |p| <= 3
    ensures |p| > 0 ==> Fold(f, p[..0], out) == f && Fold(f, p[..1], out) == After(f, p[0], out)
    ensures |p| > 1 ==> Fold(f, p[..2], out) == After(After(f, p[0], out), p[1], out)
    ensures Fold(f, p, out) == if |p| == 0 then f else After(Fold(f, p[..|p| - 1], out), p[|p| - 1], out)
  {
    hide After;
    if |p| > 0 {
      FoldSnoc(f, p, 0, out);
      if |p| > 1 {
        FoldSnoc(f, p, 1, out);
        if |p| > 2 {
          FoldSnoc(f, p, 2, out);
        }
      }
      assert p[..|p|] == p;
    }
  }

  lemma PlanShape(inp: Format, out: Format)
    ensures |Plan(inp, out)| <= MAX_OPS && NoOp !in Plan(inp, out)
    ensures forall i, j :: 0 <= i < j < |Plan(inp, out)| ==> Plan(inp, out)[i] != Plan(inp, out)[j]
  {
  }

  lemma PlanEnds(inp: Format, out: Format)
    ensures Fold(inp, Plan(inp, out), out) == out
  {
    hide Fold;
    FoldUpToThree(inp, Plan(inp, out), out);
  }

  lemma PlanNeverIdle(inp: Format, out: Format, i: nat)
    requires i < |Plan(inp, out)|
    ensures var f := Fold(inp, Plan(inp, out)[..i], out); After(f, Plan(inp, out)[i], out) != f
  {
    hide Fold;
    FoldUpToThree(inp, Plan(inp, out), out);
  }

  /** The plan turns the input format into the output format, with at most one converter of each
      kind, none of them idle. */
  lemma PlanReaches(inp: Format, out: Format)
    ensures Fold(inp, Plan(inp, out), out) == out
    ensures |Plan(inp, out)| <= MAX_OPS && NoOp !in Plan(inp, out)
    ensures forall i, j :: 0 <= i < j < |Plan(inp, out)| ==> Plan(inp, out)[i] != Plan(inp, out)[j]
    ensures forall i :: 0 <= i < |Plan(inp, out)| ==>
      var f := Fold(inp, Plan(inp, out)[..i], out); After(f, Plan(inp, out)[i], out) != f
  {
    hide Fold, Plan, After;
    PlanShape(inp, out);
    PlanEnds(inp, out);
    forall i: nat | i < |Plan(inp, out)|
      ensures After(Fold(inp, Plan(inp, out)[..i], out), Plan(inp, out)[i], out) != Fold(inp, Plan(inp, out)[..i], out)
    {
      PlanNeverIdle(inp, out, i);
    }
  }

  /** The costly rate converter runs on as few channels and bits as the two formats allow. */
  lemma RateRunsSmallest(inp: Format, out: Format, i: nat)
    requires i < |Plan(inp, out)| && Plan(inp, out)[i] == RateCvt
    ensures Fold(inp, Plan(inp, out)[..i], out)
         == Format(inp.rate, Min(inp.channel, out.channel), Min(inp.bits, out.bits))
  {
    hide Fold;
    PlanShape(inp, out);
    FoldUpToThree(inp, Plan(inp, out), out);
  }

  lemma {:induction false} FoldSnoc(f: Format, ops: seq<Op>, i: nat, out: Format)
    requires i < |ops|
    ensures Fold(f, ops[..i + 1], out) == After(Fold(f, ops[..i], out), ops[i], out)
    decreases i
  {
    if i == 0 {
      assert ops[..1] == [ops[0]] && [ops[0]][1..] == [] && ops[..0] == [];
    } else {
      assert ops[..i + 1][1..] == ops[1..][..i] && ops[..i][1..] == ops[1..][..i - 1];
      FoldSnoc(After(f, ops[0], out), ops[1..], i - 1, out);
    }
  }

  /** The converters: what they make of samples in a format, how many samples the rate converter
      makes of n, and its bound on that. */
  datatype Converters = Converters(cvt: (Op, Format, seq<byte>) -> seq<byte>, rateOut: nat -> nat, rateMax: nat -> nat)

  function OutSamples(c: Converters, op: Op, n: nat): nat { if op == RateCvt then c.rateOut(n) else n }

  /** The size contract converters meet, on every format whose samples take any bytes at all. */
  ghost predicate Contract(c: Converters, out: Format) {
    && (forall n: nat :: c.rateOut(n) <= c.rateMax(n))
    && forall op, f, n, d :: FrameSize(f) > 0 && |d| == SizeOf(n, f) ==>
         |c.cvt(op, f, d)| == SizeOf(OutSamples(c, op, n), After(f, op, out))
  }

  /** The contract can be met for every output format and every rate within its bound: these
      converters make silence of the right length. */
  lemma ContractCanBeMet(out: Format, rateOut: nat -> nat, rateMax: nat -> nat) returns (c: Converters)
    requires forall n: nat :: rateOut(n) <= rateMax(n)
    ensures Contract(c, out) && c.rateOut == rateOut && c.rateMax == rateMax
  {
    hide FrameSize, SizeOf;
    c := Converters((op, f, d) => Silence(op, f, |d|, out, rateOut), rateOut, rateMax);
    forall op, f, n, d: seq<byte> | FrameSize(f) > 0 && |d| == SizeOf(n, f)
      ensures |c.cvt(op, f, d)| == SizeOf(OutSamples(c, op, n), After(f, op, out))
    {
      SamplesCounted(n, f);
      assert c.cvt(op, f, d) == Silence(op, f, |d|, out, rateOut);
    }
  }

  function Silence(op: Op, f: Format, bytes: nat, out: Format, rateOut: nat -> nat): (s: seq<byte>) {
    if FrameSize(f) == 0 then []
    else
      var n := bytes / FrameSize(f);
      seq(SizeOf(if op == RateCvt then rateOut(n) else n, After(f, op, out)), _ => 0)
  }

  /** The length of whole samples tells how many they are. */
  lemma SamplesCounted(n: nat, f: Format)
    requires FrameSize(f) > 0
    ensures SizeOf(n, f) / FrameSize(f) == n
  {
    var s := FrameSize(f);
    var q := n * s / s;
    assert n * s == q * s + n * s % s;
    assert (n - q) * s == n * s % s;
    assert n - q >= 1 ==> (n - q) * s >= s;
    assert n - q <= -1 ==> (n - q) * s <= -s;
  }

  lemma PositiveFrame(f: Format)
    ensures FrameSize(f) > 0 <==> f.channel > 0 && f.bits >= 8
  {
    if f.channel > 0 && f.bits >= 8 {
      MulMono(1, f.channel, f.bits / 8);
    }
  }

  /** Between two real formats every format on the way is real. */
  lemma {:induction false} FoldPositive(f: Format, ops: seq<Op>, out: Format)
    requires FrameSize(f) > 0 && FrameSize(out) > 0
    ensures FrameSize(Fold(f, ops, out)) > 0
    decreases |ops|
  {
    if ops != [] {
      PositiveFrame(f);
      PositiveFrame(out);
      PositiveFrame(After(f, ops[0], out));
      hide FrameSize;
      FoldPositive(After(f, ops[0], out), ops[1..], out);
    }
  }

  /** Bytes a step asks a work buffer for. */
  function NeedSize(c: Converters, op: Op, n: nat, f: Format, out: Format): nat {
    match op
    case ChCvt => n * (out.channel * (f.bits / 8))
    case RateCvt => c.rateMax(n) * (f.channel * (f.bits / 8))
    case BitCvt => n * (f.channel * (out.bits / 8))
    case NoOp => 0
  }

  /** Every step's buffer holds what its converter writes, with nothing to spare but the rate
      converter's bound. */
  lemma NeedCoversOutput(c: Converters, op: Op, n: nat, f: Format, out: Format)
    requires op != NoOp && c.rateOut(n) <= c.rateMax(n)
    ensures SizeOf(OutSamples(c, op, n), After(f, op, out)) <= NeedSize(c, op, n, f, out)
    ensures op != RateCvt ==> NeedSize(c, op, n, f, out) == SizeOf(n, After(f, op, out))
    ensures op == RateCvt ==> NeedSize(c, op, n, f, out) == SizeOf(c.rateMax(n), f)
  {
    if op == RateCvt {
      MulMono(c.rateOut(n), c.rateMax(n), FrameSize(f));
    }
  }

  lemma MulMono(a: nat, b: nat, c: nat)
    requires a <= b
    ensures a * c <= b * c
  {
  }

  /** All converters one after the other. */
  function Converted(c: Converters, ops: seq<Op>, f: Format, out: Format, d: seq<byte>): seq<byte>
    decreases |ops|
  {
    if ops == [] then d else Converted(c, ops[1..], After(f, ops[0], out), out, c.cvt(ops[0], f, d))
  }

  /** Each converter of the plan was given what the one before it made, in the format it was opened
      with. */
  ghost predicate IsChain(c: Converters, inp: Format, out: Format, ds: seq<seq<byte>>) {
    var plan := Plan(inp, out);
    && |ds| == |plan| + 1
    && forall i :: 0 <= i < |plan| ==> ds[i + 1] == c.cvt(plan[i], Fold(inp, plan[..i], out), ds[i])
  }

  /** The data behind each of the converters. */
  function Stages(c: Converters, ops: seq<Op>, f: Format, out: Format, d: seq<byte>): (ds: seq<seq<byte>>)
    ensures |ds| == |ops| + 1 && ds[0] == d
    decreases |ops|
  {
    if ops == [] then [d] else [d] + Stages(c, ops[1..], After(f, ops[0], out), out, c.cvt(ops[0], f, d))
  }

  lemma {:induction false} StagesChain(c: Converters, ops: seq<Op>, f: Format, out: Format, d: seq<byte>)
    ensures var ds := Stages(c, ops, f, out, d);
      && ds[|ops|] == Converted(c, ops, f, out, d)
      && forall i :: 0 <= i < |ops| ==> ds[i + 1] == c.cvt(ops[i], Fold(f, ops[..i], out), ds[i])
    decreases |ops|
  {
    if ops != [] {
      var f' := After(f, ops[0], out);
      StagesChain(c, ops[1..], f', out, c.cvt(ops[0], f, d));
      var ds, rest := Stages(c, ops, f, out, d), Stages(c, ops[1..], f', out, c.cvt(ops[0], f, d));
      forall i | 0 <= i < |ops| ensures ds[i + 1] == c.cvt(ops[i], Fold(f, ops[..i], out), ds[i]) {
        assert ds[i + 1] == rest[i];
        if i > 0 {
          assert ops[..i][1..] == ops[1..][..i - 1] && ds[i] == rest[i - 1];
        }
      }
    }
  }

  lemma PlanChain(c: Converters, inp: Format, out: Format, d: seq<byte>)
    ensures exists ds :: IsChain(c, inp, out, ds) && ds[0] == d
                         && ds[|Plan(inp, out)|] == Converted(c, Plan(inp, out), inp, out, d)
  {
    hide Plan, Fold, Converted, Stages;
    StagesChain(c, Plan(inp, out), inp, out, d);
    assert IsChain(c, inp, out, Stages(c, Plan(inp, out), inp, out, d));
  }

  /** How many samples leave the converters. */
  function SamplesAfter(c: Converters, ops: seq<Op>, n: nat): nat
    decreases |ops|
  { if ops == [] then n else SamplesAfter(c, ops[1..], OutSamples(c, ops[0], n)) }

  lemma {:induction false} ConvertedLength(c: Converters, ops: seq<Op>, f: Format, out: Format, d: seq<byte>, n: nat)
    requires Contract(c, out) && FrameSize(f) > 0 && FrameSize(out) > 0 && |d| == SizeOf(n, f)
    ensures |Converted(c, ops, f, out, d)| == SizeOf(SamplesAfter(c, ops, n), Fold(f, ops, out))
    decreases |ops|
  {
    hide FrameSize, SizeOf;
    if ops != [] {
      assert ops[..1] == [ops[0]];
      StepPositive(f, ops[0], out);
      ConvertedLength(c, ops[1..], After(f, ops[0], out), out, c.cvt(ops[0], f, d), OutSamples(c, ops[0], n));
    }
  }

  lemma StepPositive(f: Format, op: Op, out: Format)
    requires FrameSize(f) > 0 && FrameSize(out) > 0
    ensures FrameSize(After(f, op, out)) > 0
  {
    PositiveFrame(f);
    PositiveFrame(out);
    PositiveFrame(After(f, op, out));
  }

  lemma {:induction false} SamplesOnce(c: Converters, ops: seq<Op>, n: nat)
    requires forall i, j :: 0 <= i < j < |ops| ==> ops[i] != ops[j]
    ensures SamplesAfter(c, ops, n) == if RateCvt in ops then c.rateOut(n) else n
    decreases |ops|
  {
    if ops != [] {
      SamplesOnce(c, ops[1..], OutSamples(c, ops[0], n));
      assert RateCvt in ops <==> ops[0] == RateCvt || RateCvt in ops[1..];
      assert ops[0] == RateCvt ==> RateCvt !in ops[1..];
    }
  }

  lemma PlanRates(inp: Format, out: Format)
    ensures RateCvt in Plan(inp, out) <==> inp.rate != out.rate
    ensures Plan(inp, out) == [] <==> inp == out
  {
    var bits := BitsPlan(inp, out);
    assert RateCvt in bits <==> inp.rate != out.rate;
  }

  /** The result of the whole plan is as long as its samples in the output format. */
  lemma PlanLength(c: Converters, inp: Format, out: Format, d: seq<byte>, n: nat)
    requires Contract(c, out) && FrameSize(inp) > 0 && FrameSize(out) > 0 && |d| == SizeOf(n, inp)
    ensures |Converted(c, Plan(inp, out), inp, out, d)|
         == (if inp.rate != out.rate then c.rateOut(n) else n) * (out.channel * (out.bits / 8))
  {
    hide Plan, Converted, Fold, SamplesAfter, Contract;
    PlanReaches(inp, out);
    PlanRates(inp, out);
    SamplesOnce(c, Plan(inp, out), n);
    ConvertedLength(c, Plan(inp, out), inp, out, d, n);
  }

  /** The buffer sizes the steps ask for, in order. */
  function StepNeeds(c: Converters, ops: seq<Op>, f: Format, out: Format, n: nat): seq<nat>
    decreases |ops|
  {
    if ops == [] then []
    else [NeedSize(c, ops[0], n, f, out)] + StepNeeds(c, ops[1..], After(f, ops[0], out), out, OutSamples(c, ops[0], n))
  }

  /** Some step asks for more than the allocator can give. */
  ghost predicate TooBig(needs: seq<nat>, limit: nat) { exists k :: 0 <= k < |needs| && needs[k] > limit }

  lemma TooBigAt(needs: seq<nat>, need: nat, limit: nat)
    requires need in needs && need > limit
    ensures TooBig(needs, limit)
  {
  }

  /** Whole samples of the input take no more than the input. */
  lemma WholeSamplesFit(bytes: nat, f: Format)
    requires FrameSize(f) > 0
    ensures SizeOf(bytes / FrameSize(f), f) <= bytes
  {
    var s := FrameSize(f);
    assert bytes == bytes / s * s + bytes % s;
  }

  /** What the converters make of a frame's whole samples, in plain sizes. */
  lemma ResultShape(c: Converters, inp: Format, out: Format, data: seq<byte>)
    requires Contract(c, out) && FrameSize(inp) > 0 && FrameSize(out) > 0
    ensures var n := |data| / (inp.channel * (inp.bits / 8)); var used := n * (inp.channel * (inp.bits / 8));
      && n == |data| / FrameSize(inp) && used == SizeOf(n, inp) <= |data|
      && var frame := Converted(c, Plan(inp, out), inp, out, data[..used]);
         && |frame| == (if inp.rate != out.rate then c.rateOut(n) else n) * (out.channel * (out.bits / 8))
         && exists ds :: IsChain(c, inp, out, ds) && ds[0] == data[..used] && ds[|Plan(inp, out)|] == frame
  {
    hide Plan, Converted, IsChain, Contract;
    WholeSamplesFit(|data|, inp);
    var n := |data| / FrameSize(inp);
    PlanLength(c, inp, out, data[..SizeOf(n, inp)], n);
    PlanChain(c, inp, out, data[..SizeOf(n, inp)]);
  }

  function Max(a: nat, b: nat): nat { if a > b then a else b }

  lemma {:induction false} NeedsFit(c: Converters, ops: seq<Op>, f: Format, out: Format, n: nat, samples: nat,
                                    channels: nat, width: nat)
    requires forall i, j :: 0 <= i < j < |ops| ==> ops[i] != ops[j]
    requires n <= samples && (RateCvt in ops ==> c.rateOut(n) <= c.rateMax(n) <= samples)
    requires f.channel <= channels && out.channel <= channels && f.bits / 8 <= width && out.bits / 8 <= width
    ensures forall need <- StepNeeds(c, ops, f, out, n) :: need <= samples * (channels * width)
    decreases |ops|
  {
    if ops != [] {
      NeedFits(c, ops[0], n, f, out, samples, channels, width);
      assert ops[0] == RateCvt ==> RateCvt !in ops[1..];
      assert RateCvt in ops[1..] ==> RateCvt in ops && ops[0] != RateCvt;
      hide NeedSize;
      NeedsFit(c, ops[1..], After(f, ops[0], out), out, OutSamples(c, ops[0], n), samples, channels, width);
    }
  }

  lemma NeedFits(c: Converters, op: Op, n: nat, f: Format, out: Format, samples: nat, channels: nat, width: nat)
    requires n <= samples && (op == RateCvt ==> c.rateMax(n) <= samples)
    requires f.channel <= channels && out.channel <= channels && f.bits / 8 <= width && out.bits / 8 <= width
    ensures NeedSize(c, op, n, f, out) <= samples * (channels * width)
  {
    match op
    case ChCvt => ProductFits(n, out.channel, f.bits / 8, samples, channels, width);
    case RateCvt => ProductFits(c.rateMax(n), f.channel, f.bits / 8, samples, channels, width);
    case BitCvt => ProductFits(n, f.channel, out.bits / 8, samples, channels, width);
    case NoOp => ProductFits(0, 0, 0, samples, channels, width);
  }

  lemma ProductFits(a: nat, b: nat, c: nat, a': nat, b': nat, c': nat)
    requires a <= a' && b <= b' && c <= c'
    ensures a * (b * c) <= a' * (b' * c')
  {
    MulMono(b, b', c);
    MulMono(c, c', b');
    MulMono(b * c, b' * c', a);
    MulMono(a, a', b' * c');
  }

  /** An allocator that can give the largest sample count in the largest format never makes a write
      fail. */
  lemma EnoughMemory(c: Converters, inp: Format, out: Format, n: nat, limit: nat)
    requires Contract(c, out)
    requires Max(n, c.rateMax(n)) * (Max(inp.channel, out.channel) * Max(inp.bits / 8, out.bits / 8)) <= limit
    ensures !TooBig(StepNeeds(c, Plan(inp, out), inp, out, n), limit)
  {
    hide Plan, StepNeeds;
    PlanReaches(inp, out);
    NeedsFit(c, Plan(inp, out), inp, out, n, Max(n, c.rateMax(n)), Max(inp.channel, out.channel),
             Max(inp.bits / 8, out.bits / 8));
    var needs := StepNeeds(c, Plan(inp, out), inp, out, n);
    assert forall k :: 0 <= k < |needs| ==> needs[k] in needs;
  }

  datatype WorkBuf = WorkBuf(data: seq<byte>, used: bool)

  datatype Result = Ok(frame: seq<byte>) | NoMem

  class Resampler {
    const inp: Format
    const out: Format
    const ops: array<Op>
    const work: array<WorkBuf>
    var openFor: map<Op, Format>   // the input format each converter was opened with

    ghost predicate Valid()
      reads this, ops, work
    {
      && ops.Length == MAX_OPS && work.Length == 2
      && ops[..] == Padded(Plan(inp, out))
      && (forall i :: 0 <= i < |Plan(inp, out)| ==>
            Plan(inp, out)[i] in openFor && openFor[Plan(inp, out)[i]] == Fold(inp, Plan(inp, out)[..i], out))
    }

    ghost predicate Free()
      requires work.Length == 2
      reads work
    { !work[0].used && !work[1].used }

    static function Padded(p: seq<Op>): seq<Op> {
      if |p| >= MAX_OPS then p else p + seq(MAX_OPS - |p|, _ => NoOp)
    }

    /** Takes the first free buffer and grows it if it must; `limit` is the largest size the
        allocator can give. */
    method AllocWorkBuf(size: nat, limit: nat) returns (index: int)
      requires work.Length == 2
      modifies work
      ensures -1 <= index < 2
      ensures index == -1 ==> work[..] == old(work[..])
      ensures index == -1 <==>
        || old(work[0].used && work[1].used)
        || (size > limit && size > |old(if work[0].used then work[1] else work[0]).data|)
      ensures index >= 0 ==>
        && index == (if old(work[0].used) then 1 else 0) && !old(work[index].used) && work[index].used
        && |work[index].data| >= size && work[1 - index] == old(work[1 - index])
    {
      for i := 0 to 2
        invariant work[..] == old(work[..])
        invariant i > 0 ==> work[0].used
        invariant i > 1 ==> work[1].used
      {
        if !work[i].used {
          if size > |work[i].data| {
            if size > limit {
              return -1;
            }
            work[i] := work[i].(data := seq(size, _ => 0));
          }
          work[i] := work[i].(used := true);
          return i;
        }
      }
      index := -1;
    }

    /** Plans the pipeline and opens its converters. */
    constructor (inp: Format, out: Format)
      ensures Valid() && Free() && fresh(ops) && fresh(work) && this.inp == inp && this.out == out
    {
      this.inp, this.out := inp, out;
      ops := new Op[MAX_OPS](_ => NoOp);
      work := new WorkBuf[2](_ => WorkBuf([], false));
      openFor := map[];
      new;
      SortOps();
      OpenConverters();
    }

    static lemma PaddedNext(p: seq<Op>, op: Op)
      requires |p| < MAX_OPS
      ensures Padded(p)[|p| := op] == Padded(p + [op])
    {
    }

    /** Plans the bit and rate converters from index i on. */
    method AddBits(i: nat, ghost p: seq<Op>) returns (j: nat)
      requires ops.Length == MAX_OPS && i == |p| <= 1 && ops[..] == Padded(p)
      modifies ops
      ensures ops[..] == Padded(p + BitsPlan(inp, out)) && j == |p + BitsPlan(inp, out)|
    {
      j := i;
      ghost var q := p;
      if inp.bits > out.bits {
        PaddedNext(q, BitCvt);
        ops[j] := BitCvt;
        j, q := j + 1, q + [BitCvt];
      }
      if inp.rate != out.rate {
        PaddedNext(q, RateCvt);
        ops[j] := RateCvt;
        j, q := j + 1, q + [RateCvt];
      }
      if inp.bits < out.bits {
        PaddedNext(q, BitCvt);
        ops[j] := BitCvt;
        j, q := j + 1, q + [BitCvt];
      }
      assert q == p + BitsPlan(inp, out);
    }

    method SortOps()
      requires ops.Length == MAX_OPS && forall k :: 0 <= k < MAX_OPS ==> ops[k] == NoOp
      modifies ops
      ensures ops[..] == Padded(Plan(inp, out))
    {
      var i := 0;
      ghost var p: seq<Op> := [];
      assert ops[..] == Padded(p);
      if inp.channel > out.channel {
        PaddedNext(p, ChCvt);
        ops[i] := ChCvt;
        i, p := i + 1, [ChCvt];
      }
      i := AddBits(i, p);
      p := p + BitsPlan(inp, out);
      if inp.channel < out.channel {
        PaddedNext(p, ChCvt);
        ops[i] := ChCvt;
        p := p + [ChCvt];
      }
      assert p == Plan(inp, out);
    }

    method OpenConverters()
      requires ops.Length == MAX_OPS && work.Length == 2 && ops[..] == Padded(Plan(inp, out)) && openFor == map[]
      modifies `openFor
      ensures Valid()
    {
      ghost var plan := Plan(inp, out);
      PlanReaches(inp, out);
      hide Plan;
      var cur := inp;
      assert plan[..0] == [];
      for i := 0 to MAX_OPS
        invariant 0 <= i <= |plan| && cur == Fold(inp, plan[..i], out)
        invariant forall k :: 0 <= k < i ==> plan[k] in openFor && openFor[plan[k]] == Fold(inp, plan[..k], out)
      {
        if ops[i] == NoOp {
          assert i == |plan|;
          break;
        }
        assert i < |plan| && ops[i] == plan[i];
        openFor := openFor[ops[i] := cur];
        FoldSnoc(inp, plan, i, out);
        cur := After(cur, ops[i], out);
      }
    }

    method ReleaseWorkBuf(index: int)
      requires work.Length == 2 && index < 2
      modifies work
      ensures index < 0 ==> work[..] == old(work[..])
      ensures index >= 0 ==>
        work[index] == old(work[index]).(used := false) && work[1 - index] == old(work[1 - index])
    {
      if index >= 0 {
        work[index] := work[index].(used := false);
      }
    }

    /** What step i reads: the input, or the buffer the step before filled. */
    ghost function Held(i: nat, last: int, data: seq<byte>, size: nat): seq<byte>
      requires work.Length == 2 && (i > 0 ==> 0 <= last < 2 && size <= |work[last].data|) && (i == 0 ==> size <= |data|)
      reads work
    { if i == 0 then data[..size] else work[last].data[..size] }

    /** One converter, used on the format it was opened with: its output goes to a buffer other
        than the one it reads. `buf` is -1 when the allocator gives up. */
    method RunStep(c: Converters, op: Op, cur: Format, n: nat, i: nat, last: int, data: seq<byte>, limit: nat)
      returns (buf: int, bytes: nat)
      requires work.Length == 2 && op != NoOp && Contract(c, out)
      requires op in openFor && openFor[op] == cur && FrameSize(cur) > 0
      requires i == 0 ==> last == -1 && Free() && SizeOf(n, cur) <= |data|
      requires i > 0 ==> 0 <= last < 2 && work[last].used && !work[1 - last].used && SizeOf(n, cur) <= |work[last].data|
      modifies work
      ensures -1 <= buf < 2
      ensures buf == -1 ==> NeedSize(c, op, n, cur, out) > limit && Free()
      ensures buf >= 0 ==>
        && buf != last && work[buf].used && !work[1 - buf].used
        && bytes == SizeOf(OutSamples(c, op, n), After(cur, op, out)) <= |work[buf].data|
        && work[buf].data[..bytes] == c.cvt(op, cur, old(Held(i, last, data, SizeOf(n, cur))))
    {
      hide SizeOf, NeedSize;
      bytes := 0;
      var need := NeedSize(c, op, n, cur, out);
      buf := AllocWorkBuf(need, limit);
      if buf == -1 {
        ReleaseWorkBuf(last);
        return;
      }
      var input := if last >= 0 then work[last].data[..SizeOf(n, cur)] else data[..SizeOf(n, cur)];
      var output := c.cvt(op, cur, input);
      NeedCoversOutput(c, op, n, cur, out);
      bytes := SizeOf(OutSamples(c, op, n), After(cur, op, out));
      assert |output| == bytes;
      work[buf] := work[buf].(data := output + work[buf].data[bytes..]);
      ReleaseWorkBuf(last);
    }

    /** Runs one frame through the pipeline and hands the result on. Whole samples are converted;
        both work buffers are free again on every return, and only the allocator can make it fail. */
    method Write(c: Converters, data: seq<byte>, limit: nat) returns (r: Result)
      requires Valid() && Free() && Contract(c, out) && FrameSize(inp) > 0 && FrameSize(out) > 0
      modifies work
      ensures Valid() && Free()
      ensures var plan, n := Plan(inp, out), |data| / FrameSize(inp);
        if data == [] || inp == out then r == Ok(data)
        else
          && SizeOf(n, inp) <= |data|
          && (r == Ok(Converted(c, plan, inp, out, data[..SizeOf(n, inp)]))
              || (r == NoMem && TooBig(StepNeeds(c, plan, inp, out, n), limit)))
      ensures r.Ok? && data != [] && inp != out ==>
        var n := |data| / (inp.channel * (inp.bits / 8));
        var m := if inp.rate != out.rate then c.rateOut(n) else n;
        && |r.frame| == m * (out.channel * (out.bits / 8))
        && n * (inp.channel * (inp.bits / 8)) <= |data|
        && exists ds :: IsChain(c, inp, out, ds) && ds[0] == data[..n * (inp.channel * (inp.bits / 8))]
                        && ds[|Plan(inp, out)|] == r.frame
    {
      ghost var plan := Plan(inp, out);
      PlanReaches(inp, out);
      hide Plan, SizeOf, NeedSize, OutSamples, Contract, TooBig, IsChain, BitsPlan;
      PlanRates(inp, out);
      if data == [] || ops[0] == NoOp {
        return Ok(data);
      }
      WholeSamplesFit(|data|, inp);
      ResultShape(c, inp, out, data);
      var cur, last := inp, -1;
      var n: nat, bytes: nat := |data| / FrameSize(inp), 0;
      ghost var goal := Converted(c, plan, inp, out, data[..SizeOf(n, inp)]);
      ghost var needs := StepNeeds(c, plan, inp, out, n);
      assert plan[0..] == plan && plan[..0] == [];
      var i := 0;
      while i < MAX_OPS && ops[i] != NoOp
        invariant 0 <= i <= |plan| && ops[..] == Padded(plan) && work.Length == 2
        invariant cur == Fold(inp, plan[..i], out)
        invariant i == 0 ==> last == -1 && Free() && SizeOf(n, cur) <= |data|
        invariant i > 0 ==> 0 <= last < 2 && work[last].used && !work[1 - last].used
                            && bytes == SizeOf(n, cur) <= |work[last].data|
        invariant Converted(c, plan[i..], cur, out, Held(i, last, data, SizeOf(n, cur))) == goal
        invariant forall need <- StepNeeds(c, plan[i..], cur, out, n) :: need in needs
      {
        assert plan[i..][0] == ops[i] && plan[i..][1..] == plan[i + 1..];
        FoldSnoc(inp, plan, i, out);
        FoldPositive(inp, plan[..i], out);
        ghost var need := NeedSize(c, plan[i], n, cur, out);
        assert need == StepNeeds(c, plan[i..], cur, out, n)[0];
        var buf;
        buf, bytes := RunStep(c, ops[i], cur, n, i, last, data, limit);
        if buf == -1 {
          TooBigAt(needs, need, limit);
          return NoMem;
        }
        n := OutSamples(c, ops[i], n);
        cur := After(cur, ops[i], out);
        last := buf;
        i := i + 1;
      }
      assert i == |plan| && plan[i..] == [];
      r := Ok(work[last].data[..bytes]);
      ReleaseWorkBuf(last);
    }
  }
}
