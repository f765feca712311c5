/** The memory-history writer as a protocol: allocation hooks fill a ring of slices, a saver
    thread appends full slices to the file, and stop flushes the rest. */
module MemHistoryModel {
  import opened Blocks

  const SLICES: nat := 4

  /** `rest` and `next` are the parts of an admitted record still to be copied. */
  datatype Writer = Idle | Writing(rest: seq<byte>, next: seq<byte>)

  /** The saver's program points. Only Top's look at `n`, SawIdle's look at `stopping`, and the
      file writes happen without the lock. */
  datatype Saver =
    | Top
    | SawIdle                // found n == 0
    | SawWork                // found n != 0
    | Picked(head: nat)
    | Saved                  // slice in the file, n not yet lowered
    | Flushing
    | Done

  datatype State = State(slices: seq<seq<byte>>, size: nat, filled: nat, wp: nat, n: nat,
                         stopping: bool, file: seq<byte>, writer: Writer, saver: Saver)

  datatype Action =
    | Admit(first: seq<byte>, second: seq<byte>)
    | Drop                                        // retries used up, nothing recorded
    | Chunk
    | Stop
    | Look | Pick | Save | Retire | LookStop | Flush

  /** The test the hooks make, without the lock, before recording anything. The hooks exclude each
      other, but not stop, which may come in the middle of a record. Once the saver is done the
      object is taken down and a run ends. */
  predicate Enough(s: State, need: nat) { s.n < SLICES || s.filled + need <= s.size }

  /** A record is refused only while all four slices wait to be saved and it is longer than a slice. */
  lemma RefusedIff(s: State, need: nat)
    requires Shape(s)
    ensures !Enough(s, need) <==> s.n == 4 && need > s.size
  {
  }

  predicate Enabled(s: State, a: Action) {
    match a
    case Admit(first, second) => !s.saver.Done? && s.writer.Idle? && Enough(s, |first| + |second|)
    case Drop => !s.saver.Done? && s.writer.Idle?
    case Chunk => !s.saver.Done? && s.writer.Writing? && s.n < SLICES
    case Stop => !s.stopping
    case Look => s.saver.Top?
    case Pick => s.saver.SawWork?
    case Save => s.saver.Picked? && s.saver.head < |s.slices|
    case Retire => s.saver.Saved? && s.n > 0
    case LookStop => s.saver.SawIdle?
    case Flush => s.saver.Flushing? && s.wp < |s.slices| && s.filled <= |s.slices[s.wp]|
  }

  function After(rest: seq<byte>, next: seq<byte>): Writer {
    if rest != [] then Writing(rest, next) else if next != [] then Writing(next, []) else Idle
  }

  /** Overwrites part of a slice. */
  function Patched(slice: seq<byte>, at: nat, data: seq<byte>): (r: seq<byte>)
    ensures at + |data| <= |slice| ==>
            |r| == |slice| && r[..at] == slice[..at] && r[..at + |data|] == slice[..at] + data
  {
    if at + |data| <= |slice| then slice[..at] + data + slice[at + |data|..] else slice
  }

  /** One locked pass of the copy loop. */
  function CopyChunk(s: State): State
    requires s.writer.Writing?
  {
    var left := if s.size > s.filled then s.size - s.filled else 0;
    var rest := s.writer.rest;
    if left == 0 || s.wp >= |s.slices| then s
    else if left > |rest| then
      s.(slices := s.slices[s.wp := Patched(s.slices[s.wp], s.filled, rest)],
         filled := s.filled + |rest|, writer := After([], s.writer.next))
    else
      s.(slices := s.slices[s.wp := Patched(s.slices[s.wp], s.filled, rest[..left])],
         filled := 0, wp := (s.wp + 1) % SLICES, n := s.n + 1, writer := After(rest[left..], s.writer.next))
  }

  function Head(wp: nat, n: nat): nat { (wp + SLICES - (if n <= SLICES then n else SLICES)) % SLICES }

  function Apply(s: State, a: Action): State
    requires Enabled(s, a)
  {
    match a
    case Admit(first, second) => s.(writer := After(first, second))
    case Drop => s
    case Chunk => CopyChunk(s)
    case Stop => s.(stopping := true)
    case Look => s.(saver := if s.n != 0 then SawWork else SawIdle)
    case Pick => s.(saver := Picked(Head(s.wp, s.n)))
    case Save => s.(file := s.file + s.slices[s.saver.head], saver := Saved)
    case Retire => s.(n := s.n - 1, saver := Top)
    case LookStop => s.(saver := if s.stopping then Flushing else Top)
    case Flush => s.(file := s.file + s.slices[s.wp][..s.filled], saver := Done)
  }

  /** What an action adds to the recorded stream. */
  function Recorded(a: Action): seq<byte> { if a.Admit? then a.first + a.second else [] }

  predicate EnabledRun(s: State, acts: seq<Action>)
    decreases |acts|
  { acts == [] || (Enabled(s, acts[0]) && EnabledRun(Apply(s, acts[0]), acts[1..])) }

  function Run(s: State, acts: seq<Action>): State
    requires EnabledRun(s, acts)
    decreases |acts|
  { if acts == [] then s else Run(Apply(s, acts[0]), acts[1..]) }

  /** Whole records, in the order they were admitted. */
  function Stream(acts: seq<Action>): seq<byte>
    decreases |acts|
  {
    if acts == [] then [] else Recorded(acts[0]) + Stream(acts[1..])
  }

  // ----- conservation -----

  /** n slices from `head` on, round the ring. */
  function Full(slices: seq<seq<byte>>, head: nat, n: nat): seq<byte>
    requires |slices| == SLICES && head < SLICES
    decreases n
  {
    if n == 0 then [] else slices[head] + Full(slices, (head + 1) % SLICES, n - 1)
  }

  function Partial(s: State): seq<byte> {
    if s.wp < |s.slices| && s.filled <= |s.slices[s.wp]| then s.slices[s.wp][..s.filled] else []
  }

  function Remaining(w: Writer): seq<byte> { if w.Idle? then [] else w.rest + w.next }

  /** Full slices not yet in the file. */
  function Unsaved(s: State): seq<byte>
    requires |s.slices| == SLICES
  {
    if s.saver.Saved? && s.n > 0 then Full(s.slices, (Head(s.wp, s.n) + 1) % SLICES, s.n - 1)
    else Full(s.slices, Head(s.wp, s.n), s.n)
  }

  ghost predicate Shape(s: State) {
    && |s.slices| == SLICES && s.size > 0 && s.filled < s.size && s.wp < SLICES && s.n <= SLICES
    && (forall i :: 0 <= i < SLICES ==> |s.slices[i]| == s.size)
    && (s.n == SLICES ==> s.filled == 0)
    && (s.writer.Writing? ==> s.writer.rest != [])
    && (s.saver.Picked? ==> s.n > 0 && s.saver.head == Head(s.wp, s.n))
    && (s.saver.SawWork? || s.saver.Saved? ==> s.n > 0)
    && (s.saver.Flushing? || s.saver.Done? ==> s.stopping)
  }

  /** The file, the full slices still to be saved, the partial slice and the rest of the record
      being copied are together exactly the recorded stream. After the final flush the partial
      slice is in the file instead. */
  ghost predicate Conserved(s: State, stream: seq<byte>) {
    && Shape(s)
    && if s.saver.Done? then
         && |s.file| >= s.filled && s.file[|s.file| - s.filled..] == Partial(s)
         && s.file[..|s.file| - s.filled] + Unsaved(s) + Partial(s) + Remaining(s.writer) == stream
       else
         s.file + Unsaved(s) + Partial(s) + Remaining(s.writer) == stream
  }

  function Start(size: nat): State {
    State(seq(SLICES, _ => seq(size, _ => 0)), size, 0, 0, 0, false, [], Idle, Top)
  }

  lemma StartConserved(size: nat)
    requires size > 0
    ensures Conserved(Start(size), [])
  {
  }

  function Nth(head: nat, k: nat): nat { (head + k) % SLICES }

  /** Slices outside the window do not matter. */
  lemma {:induction false} FullFrame(slices: seq<seq<byte>>, w: nat, slice: seq<byte>, head: nat, n: nat)
    requires |slices| == SLICES && head < SLICES && w < SLICES
    requires forall k :: 0 <= k < n ==> Nth(head, k) != w
    ensures Full(slices[w := slice], head, n) == Full(slices, head, n)
    decreases n
  {
    if n > 0 {
      var next := (head + 1) % SLICES;
      assert Nth(head, 0) != w;
      forall k | 0 <= k < n - 1 ensures Nth(next, k) != w {
        assert Nth(next, k) == Nth(head, k + 1);
      }
      FullFrame(slices, w, slice, next, n - 1);
    }
  }

  lemma {:induction false} FullSnoc(slices: seq<seq<byte>>, head: nat, n: nat)
    requires |slices| == SLICES && head < SLICES
    ensures Full(slices, head, n + 1) == Full(slices, head, n) + slices[Nth(head, n)]
    decreases n
  {
    if n == 0 {
      assert Full(slices, head, 1) == slices[head] + [];
    } else {
      var next := (head + 1) % SLICES;
      FullSnoc(slices, next, n - 1);
      assert Nth(next, n - 1) == Nth(head, n);
      hide Nth;
      assert slices[head] + (Full(slices, next, n - 1) + slices[Nth(head, n)])
          == slices[head] + Full(slices, next, n - 1) + slices[Nth(head, n)];
    }
  }

  lemma {:induction false} FullLength(slices: seq<seq<byte>>, head: nat, n: nat, size: nat)
    requires |slices| == SLICES && head < SLICES && forall i :: 0 <= i < SLICES ==> |slices[i]| == size
    ensures |Full(slices, head, n)| == n * size
    decreases n
  {
    if n > 0 {
      FullLength(slices, (head + 1) % SLICES, n - 1, size);
      assert n * size == size + (n - 1) * size;
    }
  }

  // ----- steps -----

  /** The n slices that wait end just before the current one. */
  lemma WindowEndsBefore(wp: nat, n: nat)
    requires wp < SLICES && n < SLICES
    ensures var h := (wp + SLICES - n) % SLICES; var h1 := (h + 1) % SLICES;
      && Nth(h, n) == wp
      && (forall k :: 0 <= k < n ==> Nth(h, k) != wp)
      && (n > 0 ==> Nth(h1, n - 1) == wp)
      && (forall k :: 0 <= k < n - 1 ==> Nth(h1, k) != wp)
      && ((wp + 1) % SLICES + SLICES - (n + 1)) % SLICES == h
  {
    var h := (wp + SLICES - n) % SLICES;
    assert h == if wp >= n then wp - n else wp + SLICES - n;
    forall k: nat | k <= n ensures Nth(h, k) == if h + k < SLICES then h + k else h + k - SLICES {
    }
    var h1 := (h + 1) % SLICES;
    forall k: nat | k < n ensures Nth(h1, k) == Nth(h, k + 1) {
    }
  }

  /** Writing the current slice leaves the slices that wait to be saved alone. */
  lemma PatchFrame(s: State, slice: seq<byte>)
    requires Shape(s) && s.n < SLICES
    ensures Unsaved(s.(slices := s.slices[s.wp := slice])) == Unsaved(s)
  {
    hide Full, Nth;
    WindowEndsBefore(s.wp, s.n);
    FullFrame(s.slices, s.wp, slice, Head(s.wp, s.n), s.n);
    if s.n > 0 {
      FullFrame(s.slices, s.wp, slice, (Head(s.wp, s.n) + 1) % SLICES, s.n - 1);
    }
  }

  /** A filled slice joins the back of those that wait. */
  lemma FilledJoins(s: State)
    requires Shape(s) && s.n < SLICES
    ensures Unsaved(s.(wp := (s.wp + 1) % SLICES, n := s.n + 1)) == Unsaved(s) + s.slices[s.wp]
  {
    hide Full, Nth;
    WindowEndsBefore(s.wp, s.n);
    FullSnoc(s.slices, Head(s.wp, s.n), s.n);
    if s.n > 0 {
      FullSnoc(s.slices, (Head(s.wp, s.n) + 1) % SLICES, s.n - 1);
    }
  }

  lemma ChunkKeepsShape(s: State)
    requires Shape(s) && Enabled(s, Chunk)
    ensures Shape(Apply(s, Chunk))
  {
  }

  /** The copy loop moves on in every pass, unless the cache was too small for a byte a slice; then it
      never does. */
  lemma CopyStallsIff(s: State)
    requires s.writer.Writing? && (Shape(s) || s.size == 0)
    ensures CopyChunk(s) == s <==> s.size == 0
  {
  }

  lemma RemainingAfter(rest: seq<byte>, next: seq<byte>)
    ensures Remaining(After(rest, next)) == rest + next
  {
  }

  lemma Regroup(file: seq<byte>, full: seq<byte>, part: seq<byte>, fill: seq<byte>, back: seq<byte>, next: seq<byte>,
                full': seq<byte>, part': seq<byte>)
    requires full' + part' == full + (part + fill)
    ensures file + full' + part' + (back + next) == file + full + part + ((fill + back) + next)
  {
    assert file + full' + part' == file + (full' + part');
    assert file + (full + (part + fill)) == file + full + part + fill;
    assert fill + (back + next) == (fill + back) + next;
  }

  lemma PatchedPart(slice: seq<byte>, at: nat, data: seq<byte>)
    requires at + |data| <= |slice|
    ensures |Patched(slice, at, data)| == |slice| && Patched(slice, at, data)[..at + |data|] == slice[..at] + data
  {
  }

  /** What a pass of the copy loop moves: the bytes it copied leave the record and join the slices. */
  lemma ChunkMoves(s: State) returns (fill: seq<byte>, back: seq<byte>)
    requires Shape(s) && Enabled(s, Chunk)
    ensures var s' := Apply(s, Chunk);
      && s.writer.rest == fill + back && Remaining(s'.writer) == back + s.writer.next
      && Unsaved(s') + Partial(s') == Unsaved(s) + (Partial(s) + fill)
      && s'.file == s.file && s'.saver == s.saver
  {
    hide Full, Head, Nth, Unsaved, Remaining, After, Patched;
    var left, rest := s.size - s.filled, s.writer.rest;
    fill := if left > |rest| then rest else rest[..left];
    back := rest[|fill|..];
    var slice := Patched(s.slices[s.wp], s.filled, fill);
    var s1, s' := s.(slices := s.slices[s.wp := slice]), Apply(s, Chunk);
    PatchFrame(s, slice);
    RemainingAfter(back, s.writer.next);
    PatchedPart(s.slices[s.wp], s.filled, fill);
    assert slice[..s.filled + |fill|] == Partial(s) + fill;
    assert Shape(s1);
    if left > |rest| {
      assert s' == s1.(filled := s.filled + |fill|, writer := After(back, s.writer.next));
      SameUnsaved(s1, s');
      assert Partial(s') == slice[..s.filled + |fill|];
    } else {
      FilledJoins(s1);
      assert slice == slice[..s.filled + |fill|];
      SameUnsaved(s1.(wp := (s.wp + 1) % SLICES, n := s.n + 1), s');
      assert Partial(s') == [] && Unsaved(s') + [] == Unsaved(s');
    }
  }

  lemma SameUnsaved(s: State, s': State)
    requires |s.slices| == SLICES && s'.slices == s.slices && s'.wp == s.wp && s'.n == s.n && s'.saver == s.saver
    ensures Unsaved(s') == Unsaved(s)
  {
  }

  /** The copy loop never touches a slice that waits to be saved, and loses no byte. */
  lemma ChunkConserves(s: State, stream: seq<byte>)
    requires Conserved(s, stream) && Enabled(s, Chunk)
    ensures Conserved(Apply(s, Chunk), stream)
  {
    ChunkKeepsShape(s);
    assert Shape(s) && s.file + Unsaved(s) + Partial(s) + Remaining(s.writer) == stream;
    var fill, back := ChunkMoves(s);
    var s' := Apply(s, Chunk);
    hide Full, Shape, Head, Patched, Unsaved, Partial, Apply, CopyChunk;
    Regroup(s.file, Unsaved(s), Partial(s), fill, back, s.writer.next, Unsaved(s'), Partial(s'));
  }

  /** Saving moves the oldest full slice into the file, unchanged whatever the writer did since
      it was picked. */
  lemma SaveConserves(s: State, stream: seq<byte>)
    requires Conserved(s, stream) && Enabled(s, Save)
    ensures Conserved(Apply(s, Save), stream)
    ensures Unsaved(s) == s.slices[s.saver.head] + Unsaved(Apply(s, Save))
  {
    var s' := Apply(s, Save);
    assert Unsaved(s) == s.slices[s.saver.head] + Unsaved(s');
    assert s.file + (s.slices[s.saver.head] + Unsaved(s')) == s'.file + Unsaved(s');
  }

  lemma FlushConserves(s: State, stream: seq<byte>)
    requires Conserved(s, stream) && Enabled(s, Flush)
    ensures Conserved(Apply(s, Flush), stream)
  {
    var s' := Apply(s, Flush);
    assert s'.file[..|s'.file| - s.filled] == s.file;
    assert s'.file[|s'.file| - s.filled..] == Partial(s);
  }

  lemma AdmitConserves(s: State, stream: seq<byte>, first: seq<byte>, second: seq<byte>)
    requires Conserved(s, stream) && Enabled(s, Admit(first, second))
    ensures Conserved(Apply(s, Admit(first, second)), stream + (first + second))
  {
    hide Full;
    RemainingAfter(first, second);
    assert stream + [] == stream;
  }

  lemma RetireConserves(s: State, stream: seq<byte>)
    requires Conserved(s, stream) && Enabled(s, Retire)
    ensures Conserved(Apply(s, Retire), stream)
  {
    hide Full;
    assert Head(s.wp, s.n - 1) == (Head(s.wp, s.n) + 1) % SLICES;
  }

  lemma StepConserves(s: State, stream: seq<byte>, a: Action)
    requires Conserved(s, stream) && Enabled(s, a)
    ensures Conserved(Apply(s, a), stream + Recorded(a))
  {
    hide Full;
    assert stream + [] == stream;
    match a
    case Chunk => ChunkConserves(s, stream);
    case Save => SaveConserves(s, stream);
    case Flush => FlushConserves(s, stream);
    case Admit(first, second) => AdmitConserves(s, stream, first, second);
    case Retire => RetireConserves(s, stream);
    case _ =>
  }

  /** In every interleaving of the hooks, the saver and stop, no recorded byte is lost, repeated
      or out of place, and every admitted record is in the stream as a whole. */
  lemma {:induction false} RunConserves(s: State, stream: seq<byte>, acts: seq<Action>)
    requires Conserved(s, stream) && EnabledRun(s, acts)
    ensures Conserved(Run(s, acts), stream + Stream(acts))
    decreases |acts|
  {
    hide Conserved, Apply, Enabled, Recorded;
    if acts == [] {
      assert stream + [] == stream;
    } else {
      StepConserves(s, stream, acts[0]);
      RunConserves(Apply(s, acts[0]), stream + Recorded(acts[0]), acts[1..]);
      assert stream + Recorded(acts[0]) + Stream(acts[1..]) == stream + (Recorded(acts[0]) + Stream(acts[1..]));
    }
  }

  /** So from the start of a history the bytes are the records admitted since, and nothing else. */
  lemma HistoryConserves(size: nat, acts: seq<Action>)
    requires size > 0 && EnabledRun(Start(size), acts)
    ensures var s := Run(Start(size), acts);
      && Conserved(s, Stream(acts))
      && (s.saver.Done? ==> (s.file == Stream(acts) <==> s.n == 0 && s.writer.Idle?))
  {
    hide Conserved, EnabledRun, Run, Stream;
    StartConserved(size);
    RunConserves(Start(size), [], acts);
    assert [] + Stream(acts) == Stream(acts);
    if Run(Start(size), acts).saver.Done? {
      FinalFileIff(Run(Start(size), acts), Stream(acts));
    }
  }

  // ----- progress -----

  /** Nothing is admitted and nobody calls stop. */
  predicate Quiet(acts: seq<Action>) { forall a <- acts :: !a.Admit? && !a.Stop? }

  lemma {:induction false} RunConcat(s: State, acts: seq<Action>, more: seq<Action>)
    requires EnabledRun(s, acts) && EnabledRun(Run(s, acts), more)
    ensures EnabledRun(s, acts + more) && Run(s, acts + more) == Run(Run(s, acts), more)
    decreases |acts|
  {
    hide Apply, Enabled;
    if acts == [] {
      assert acts + more == more;
    } else {
      RunConcat(Apply(s, acts[0]), acts[1..], more);
      assert (acts + more)[1..] == acts[1..] + more;
    }
  }

  lemma {:induction false} QuietStream(acts: seq<Action>)
    requires Quiet(acts)
    ensures Stream(acts) == []
  {
    if acts != [] {
      assert acts[0] in acts && forall a <- acts[1..] :: a in acts;
      QuietStream(acts[1..]);
    }
  }

  lemma QuietRunConserves(s: State, stream: seq<byte>, acts: seq<Action>)
    requires Conserved(s, stream) && EnabledRun(s, acts) && Quiet(acts)
    ensures Conserved(Run(s, acts), stream)
  {
    hide Conserved, Run, EnabledRun, Quiet;
    QuietStream(acts);
    RunConserves(s, stream, acts);
    assert stream + [] == stream;
  }

  lemma ChunkShortens(s: State)
    requires Shape(s) && Enabled(s, Chunk)
    ensures var s' := Apply(s, Chunk);
      |Remaining(s'.writer)| < |Remaining(s.writer)| && s'.saver == s.saver && s'.stopping == s.stopping
  {
  }

  /** The saver has not left its loop. */
  predicate Saving(s: State) {
    s.saver.Top? || s.saver.SawIdle? || s.saver.SawWork? || s.saver.Picked? || s.saver.Saved?
  }

  /** With a full slice waiting, the saver on its own has saved the oldest within five steps. */
  lemma SliceGetsSaved(s: State, stream: seq<byte>) returns (acts: seq<Action>)
    requires Conserved(s, stream) && Saving(s) && s.n > 0 && !(s.saver.SawIdle? && s.stopping)
    ensures |acts| <= 5 && EnabledRun(s, acts)
    ensures var s' := Run(s, acts);
      s'.saver.Top? && s'.n == s.n - 1 && s'.writer == s.writer && s'.stopping == s.stopping
    ensures Quiet(acts)
  {
    hide Run, EnabledRun, Conserved, Apply, Enabled, Stream;
    ConservedShape(s, stream);
    var s' := s;
    acts := [];
    if s.saver.SawIdle? || s.saver.Top? {
      acts, s' := SaverSeesWork(s);
    } else {
      RunEmpty(s);
    }
    var rest := SaverSaves(s');
    RunConcat(s, acts, rest);
    acts := acts + rest;
  }

  lemma SaverSeesWork(s: State) returns (acts: seq<Action>, s': State)
    requires s.n > 0 && (s.saver.Top? || (s.saver.SawIdle? && !s.stopping))
    ensures |acts| <= 2 && Quiet(acts) && EnabledRun(s, acts) && Run(s, acts) == s' == s.(saver := SawWork)
  {
    hide Run, EnabledRun, CopyChunk, Head, Stream;
    RunEmpty(s);
    s' := s;
    acts := [];
    if s'.saver.SawIdle? {
      acts, s' := Extend(s, acts, s', LookStop);
    }
    acts, s' := Extend(s, acts, s', Look);
  }

  lemma SaverSaves(s: State) returns (acts: seq<Action>)
    requires Shape(s) && s.n > 0 && (s.saver.SawWork? || s.saver.Picked? || s.saver.Saved?)
    ensures |acts| <= 3 && Quiet(acts) && EnabledRun(s, acts)
    ensures var s' := Run(s, acts);
      s'.saver.Top? && s'.n == s.n - 1 && s'.writer == s.writer && s'.stopping == s.stopping
  {
    hide Run, EnabledRun, CopyChunk, Head, Stream, Full;
    HeadIsSlice(s.wp, s.n);
    RunEmpty(s);
    var s' := s;
    acts := [];
    if s'.saver.SawWork? {
      acts, s' := Extend(s, acts, s', Pick);
    }
    if s'.saver.Picked? {
      acts, s' := Extend(s, acts, s', Save);
    }
    acts, s' := Extend(s, acts, s', Retire);
  }

  lemma HeadIsSlice(wp: nat, n: nat)
    ensures Head(wp, n) < SLICES
  {
  }

  lemma ConservedShape(s: State, stream: seq<byte>)
    requires Conserved(s, stream)
    ensures Shape(s)
  {
  }

  /** A record that has been admitted gets recorded whole: with the saver at work there is a run in
      which the hook copies all of it. */
  lemma {:induction false} RecordGetsCopied(s: State, stream: seq<byte>) returns (acts: seq<Action>)
    requires Conserved(s, stream) && Saving(s) && !s.stopping
    ensures EnabledRun(s, acts) && Run(s, acts).writer.Idle? && Saving(Run(s, acts)) && !Run(s, acts).stopping
    ensures Quiet(acts)
    decreases |Remaining(s.writer)|, s.n
  {
    hide Run, EnabledRun, Conserved;
    ConservedShape(s, stream);
    RunEmpty(s);
    acts := [];
    if s.writer.Writing? {
      if s.n == SLICES {
        acts := SliceGetsSaved(s, stream);
      } else {
        ChunkShortens(s);
        var s1;
        acts, s1 := Extend(s, [], s, Chunk);
      }
      var s' := Run(s, acts);
      QuietRunConserves(s, stream, acts);
      var rest := RecordGetsCopied(s', stream);
      RunConcat(s, acts, rest);
      acts := acts + rest;
    }
  }

  /** Once stop has been called the saver on its own finishes. */
  lemma {:induction false} SaverFinishes(s: State, stream: seq<byte>) returns (acts: seq<Action>)
    requires Conserved(s, stream) && s.stopping && !s.saver.Done?
    ensures EnabledRun(s, acts) && Run(s, acts).saver.Done? && Quiet(acts)
    decreases s.n
  {
    hide Run, EnabledRun, Conserved;
    ConservedShape(s, stream);
    RunEmpty(s);
    var s' := s;
    acts := [];
    if Saving(s) && s.n > 0 && !s.saver.SawIdle? {
      acts := SliceGetsSaved(s, stream);
      QuietRunConserves(s, stream, acts);
      var rest := SaverFinishes(Run(s, acts), stream);
      RunConcat(s, acts, rest);
      acts := acts + rest;
    } else {
      if s'.saver.Top? {
        acts, s' := Extend(s, acts, s', Look);
      }
      if s'.saver.SawIdle? {
        acts, s' := Extend(s, acts, s', LookStop);
      }
      acts, s' := Extend(s, acts, s', Flush);
    }
  }

  // ----- stopping -----

  /** The saver will finish without saving the full slices: it found none before, some were
      filled since, and now it looks at `stopping` or has left its loop. */
  predicate Doomed(s: State) { s.n > 0 && (s.saver.SawIdle? || s.saver.Flushing? || s.saver.Done?) }

  /** The hooks are quiet: no record is being copied and none is admitted any more. */
  lemma StoppedStepKeepsFate(s: State, a: Action)
    requires Shape(s) && s.stopping && s.writer.Idle? && !a.Admit? && Enabled(s, a)
    ensures Apply(s, a).stopping && Apply(s, a).writer.Idle? && Recorded(a) == []
    ensures Doomed(Apply(s, a)) <==> Doomed(s)
  {
  }

  lemma {:induction false} StoppedRunKeepsFate(s: State, stream: seq<byte>, acts: seq<Action>)
    requires Conserved(s, stream) && s.stopping && s.writer.Idle?
    requires EnabledRun(s, acts) && forall a <- acts :: !a.Admit?
    ensures Conserved(Run(s, acts), stream) && Run(s, acts).writer.Idle?
    ensures Doomed(Run(s, acts)) <==> Doomed(s)
    decreases |acts|
  {
    hide Full, Unsaved, Partial, Shape, Doomed, Apply, Enabled, Recorded;
    if acts != [] {
      StepConserves(s, stream, acts[0]);
      StoppedStepKeepsFate(s, acts[0]);
      assert stream + [] == stream;
      StoppedRunKeepsFate(Apply(s, acts[0]), stream, acts[1..]);
    }
  }

  /** When the saver has finished, the file is the stream exactly when no full slice was left and
      no record was still being copied. */
  lemma FinalFileIff(s: State, stream: seq<byte>)
    requires Conserved(s, stream) && s.saver.Done?
    ensures s.file == stream <==> s.n == 0 && s.writer.Idle?
  {
    var kept := s.file[..|s.file| - s.filled];
    assert s.file == kept + Partial(s);
    FullLength(s.slices, Head(s.wp, s.n), s.n, s.size);
    if s.n == 0 && s.writer.Idle? {
      assert kept + Unsaved(s) == kept;
      assert kept + Partial(s) + [] == kept + Partial(s);
    } else {
      assert s.n > 0 ==> s.n * s.size >= 1 * s.size;
      assert |stream| == |s.file| + s.n * s.size + |Remaining(s.writer)|;
    }
  }

  /** With the hooks quiet when stop is called and after it, the file ends up equal to everything
      recorded exactly when stop does not fall between the saver's look at an empty ring and its
      look at `stopping` with a slice filled in between. */
  lemma StoppedFileIff(s: State, stream: seq<byte>, acts: seq<Action>)
    requires Conserved(s, stream) && Enabled(s, Stop) && s.writer.Idle?
    requires EnabledRun(Apply(s, Stop), acts) && Run(Apply(s, Stop), acts).saver.Done?
    requires forall a <- acts :: !a.Admit?
    ensures Run(Apply(s, Stop), acts).file == stream <==> !(s.saver.SawIdle? && s.n > 0)
  {
    StepConserves(s, stream, Stop);
    assert stream + [] == stream;
    StoppedRunKeepsFate(Apply(s, Stop), stream, acts);
    FinalFileIff(Run(Apply(s, Stop), acts), stream);
  }

  lemma {:induction false} RunSnoc(s: State, acts: seq<Action>, a: Action)
    requires EnabledRun(s, acts) && Enabled(Run(s, acts), a)
    ensures EnabledRun(s, acts + [a]) && Run(s, acts + [a]) == Apply(Run(s, acts), a)
    ensures Stream(acts + [a]) == Stream(acts) + Recorded(a)
    decreases |acts|
  {
    hide Apply, Enabled, Recorded;
    if acts == [] {
      assert acts + [a] == [a];
    } else {
      RunSnoc(Apply(s, acts[0]), acts[1..], a);
      assert (acts + [a])[1..] == acts[1..] + [a];
    }
  }

  lemma Extend(s0: State, acts: seq<Action>, s: State, a: Action) returns (acts': seq<Action>, s': State)
    requires EnabledRun(s0, acts) && Run(s0, acts) == s && Enabled(s, a)
    ensures EnabledRun(s0, acts') && Run(s0, acts') == s' && s' == Apply(s, a) && acts' == acts + [a]
    ensures Stream(acts') == Stream(acts) + Recorded(a)
  {
    acts', s' := acts + [a], Apply(s, a);
    RunSnoc(s0, acts, a);
  }

  lemma RunEmpty(s: State)
    ensures EnabledRun(s, []) && Run(s, []) == s && Stream([]) == []
  {
  }

  /** The losing interleaving is real: the saver looks, a record fills a slice, then stop. */
  lemma StopLosesSlice() returns (acts: seq<Action>)
    ensures EnabledRun(Start(2), acts)
    ensures var s := Run(Start(2), acts); s.saver.Done? && Stream(acts) == [1, 2] && s.file == []
  {
    hide Run, EnabledRun, Stream;
    var s0 := Start(2);
    var s := s0;
    acts := [];
    RunEmpty(s0);
    acts, s := Extend(s0, acts, s, Look);
    acts, s := Extend(s0, acts, s, Admit([1, 2], []));
    assert [1, 2][2..] == [];
    acts, s := Extend(s0, acts, s, Chunk);
    assert s.writer == Idle && s.n == 1 && s.filled == 0;
    acts, s := Extend(s0, acts, s, Stop);
    acts, s := Extend(s0, acts, s, LookStop);
    acts, s := Extend(s0, acts, s, Flush);
  }

  /** Stopping in the middle of a record loses the rest of it. */
  lemma StopInsideRecordLosesTail() returns (acts: seq<Action>)
    ensures EnabledRun(Start(2), acts)
    ensures var s := Run(Start(2), acts); s.saver.Done? && Stream(acts) == [1, 2] && s.file == [1]
  {
    hide Run, EnabledRun, Stream;
    var s0 := Start(2);
    var s := s0;
    acts := [];
    RunEmpty(s0);
    acts, s := Extend(s0, acts, s, Admit([1], [2]));
    acts, s := Extend(s0, acts, s, Chunk);
    assert s.writer == Writing([2], []) && s.n == 0 && s.filled == 1;
    assert s.slices[0][..1] == [1];
    acts, s := Extend(s0, acts, s, Stop);
    acts, s := Extend(s0, acts, s, Look);
    acts, s := Extend(s0, acts, s, LookStop);
    acts, s := Extend(s0, acts, s, Flush);
  }
}
