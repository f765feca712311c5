/** Runs of the fan-out queue: one producer, users that give frames back in the order they
    received them, and users switched on and off and drained along the way. */
module ShareQueueRuns {
  import opened ShareQueueModel

  /** The producer tests `valid_count` once, then may wait for room with its frame. */
  datatype Producer = Ready | Waiting(f: Frame)

  datatype System = System(s: Share, producer: Producer)

  datatype Op =
    | OpAdd(f: Frame)            // the test, and the store when there is room at once
    | OpStore                    // the store after a wait, without a second test
    | OpRecv(u: nat)
    | OpDone(u: nat)
    | OpSwitch(u: nat, on: bool)
    | OpDrain(u: nat)            // one pass of the drain that follows switching a user off

  /** What can happen at all. */
  predicate Can(x: System, op: Op) {
    match op
    case OpAdd(f) => x.producer.Ready? && x.s.WellSized()
    case OpStore => x.producer.Waiting? && x.s.WellSized() && !x.s.Full()
    case OpRecv(u) => u < |x.s.users| && x.s.users[u].queue != []
    case OpDone(u) => x.s.WellSized() && u < |x.s.users| && x.s.users[u].hand != []
    case OpSwitch(u, on) => u < |x.s.users|
    case OpDrain(u) => x.s.WellSized() && u < |x.s.users| && x.s.users[u].queue != []
  }

  function Step(x: System, op: Op): System
    requires Can(x, op)
  {
    match op
    case OpAdd(f) =>
      if x.s.validCount > 0 && x.s.Full() then x.(producer := Waiting(f)) else x.(s := Add(x.s, f))
    case OpStore => System(Store(x.s, x.producer.f), Ready)
    case OpRecv(u) => x.(s := Recv(x.s, u))
    case OpDone(u) => x.(s := Done(x.s, u))
    case OpSwitch(u, on) => x.(s := SetEnable(x.s, u, on))
    case OpDrain(u) => x.(s := DrainOne(x.s, u))
  }

  /** The frame pointer is not in the ring, nor waiting to be stored. */
  predicate Fresh(x: System, live: seq<Frame>, op: Op) { op.OpAdd? ==> op.f !in live }

  /** When a step keeps the order: nothing is stored or given straight back while a user that is
      off has frames left, nothing is stored after a wait with nobody on any more, and no drain
      passes over a frame in hand. */
  predicate Orderly(x: System, op: Op)
    requires Can(x, op)
  {
    match op
    case OpAdd(f) => (x.s.validCount > 0 && x.s.Full()) || OffMeansDrained(x.s.users)
    case OpStore => x.s.validCount > 0 && OffMeansDrained(x.s.users)
    case OpDrain(u) => x.s.users[u].hand == []
    case _ => true
  }

  predicate CanRun(x: System, ops: seq<Op>)
    decreases |ops|
  { ops == [] || (Can(x, ops[0]) && CanRun(Step(x, ops[0]), ops[1..])) }

  function Run(x: System, ops: seq<Op>): System
    requires CanRun(x, ops)
    decreases |ops|
  { if ops == [] then x else Run(Step(x, ops[0]), ops[1..]) }

  /** No frame is added while it is in the ring. */
  predicate FreshRun(x: System, ops: seq<Op>)
    requires CanRun(x, ops)
    decreases |ops|
  {
    ops == [] ||
    (x.s.WellSized() && Fresh(x, x.s.Frames(), ops[0]) && FreshRun(Step(x, ops[0]), ops[1..]))
  }

  predicate OrderlyRun(x: System, ops: seq<Op>)
    requires CanRun(x, ops)
    decreases |ops|
  { ops == [] || (Orderly(x, ops[0]) && OrderlyRun(Step(x, ops[0]), ops[1..])) }

  function Added(op: Op): seq<Frame> { if op.OpAdd? then [op.f] else [] }

  function AddedFrames(ops: seq<Op>): seq<Frame> {
    if ops == [] then [] else Added(ops[0]) + AddedFrames(ops[1..])
  }

  /** The frame the producer waits with. */
  function Parked(x: System): seq<Frame> { if x.producer.Waiting? then [x.producer.f] else [] }

  ghost predicate Consistent(x: System, live: seq<Frame>) {
    Inv(x.s, live) && (x.producer.Waiting? ==> x.producer.f !in live)
  }

  /** The step leads to a consistent ring, and what was freed, is live or waits is still the
      frames added, in order. */
  ghost predicate Conserves(x: System, live: seq<Frame>, op: Op, live': seq<Frame>)
    requires Can(x, op)
  {
    var x' := Step(x, op);
    Consistent(x', live')
    && x'.s.freed + live' + Parked(x') == x.s.freed + live + Parked(x) + Added(op)
  }

  lemma {:induction false} NobodyEnabled(users: seq<User>)
    ensures EnabledCount(users) == 0 <==> forall i :: 0 <= i < |users| ==> !users[i].enable
  {
    if users != [] {
      NobodyEnabled(users[1..]);
      assert forall i :: 0 < i < |users| ==> users[i] == users[1..][i - 1];
    }
  }

  /** With every user off, the ring is empty exactly when all are drained. */
  lemma AllOffEmptyIff(s: Share, live: seq<Frame>)
    requires Inv(s, live) && s.validCount == 0
    ensures OffMeansDrained(s.users) <==> live == []
  {
    NobodyEnabled(s.users);
    hide EnabledCount;
    if OffMeansDrained(s.users) && live != [] {
      HoldersPositive(s.users, live[0]);
    }
    forall i | 0 <= i < |s.users| && live == [] ensures s.users[i].Pending() == [] {
      assert IsSuffix(s.users[i].Pending(), live);
    }
  }

  lemma AddIff(x: System, live: seq<Frame>, f: Frame) returns (live': seq<Frame>)
    requires Consistent(x, live) && Can(x, OpAdd(f)) && f !in live
    ensures if Orderly(x, OpAdd(f)) then Conserves(x, live, OpAdd(f), live')
            else forall l :: !Conserves(x, live, OpAdd(f), l)
  {
    var op := OpAdd(f);
    live' := live;
    if x.s.validCount > 0 && x.s.Full() {
    } else if x.s.validCount > 0 {
      StoreIff(x.s, live, f);
      live' := live + [f];
      hide Inv, Store, OffMeansDrained;
      assert x.s.freed + live + [] + [f] == x.s.freed + (live + [f]) + [];
    } else {
      GivenBackIff(x, live, f);
    }
  }

  /** With nobody on, the frame given straight back overtakes the live ones, unless there are none. */
  lemma GivenBackIff(x: System, live: seq<Frame>, f: Frame)
    requires Consistent(x, live) && Can(x, OpAdd(f)) && f !in live && x.s.validCount == 0
    ensures if OffMeansDrained(x.s.users) then Conserves(x, live, OpAdd(f), live)
            else forall l :: !Conserves(x, live, OpAdd(f), l)
  {
    hide Holders, EnabledCount, OffMeansDrained;
    AllOffEmptyIff(x.s, live);
    var s' := Add(x.s, f);
    SamePendingKeepsInv(x.s, s', live);
    hide Inv;
    if live == [] {
      assert x.s.freed + [] + [] + [f] == x.s.freed + [f] + [] + [];
    } else {
      forall l ensures !Conserves(x, live, OpAdd(f), l) {
        var before := x.s.freed;
        assert (before + live + [] + [f])[|before|] == live[0];
        assert (before + [f] + l + [])[|before|] == f;
      }
    }
  }

  lemma StoreIff(s: Share, live: seq<Frame>, f: Frame)
    requires Inv(s, live) && !s.Full() && f !in live
    ensures if s.validCount > 0 && OffMeansDrained(s.users) then Inv(Store(s, f), live + [f])
            else forall l :: !Inv(Store(s, f), l)
  {
    StoreKeepsInvIff(s, live, f);
    hide Inv, Store;
    forall l | Inv(Store(s, f), l) ensures l == live + [f] {
      FramesUnique(Store(s, f), l);
    }
  }

  /** When the oldest live frame is freed, or none, nothing changes in the order. */
  lemma OldestFreed(freed: seq<Frame>, live: seq<Frame>, freed': seq<Frame>, live': seq<Frame>, parked: seq<Frame>)
    requires freed' + live' == freed + live
    ensures freed' + live' + parked == freed + live + parked + []
  {
  }

  lemma DoneStep(x: System, live: seq<Frame>, u: nat) returns (live': seq<Frame>)
    requires Consistent(x, live) && Can(x, OpDone(u))
    ensures Conserves(x, live, OpDone(u), live')
  {
    hide Inv, Done;
    DoneKeepsInv(x.s, live, u);
    var s' := Done(x.s, u);
    live' := if s'.freed == x.s.freed then live else live[1..];
    if s'.freed != x.s.freed {
      assert x.s.freed + [live[0]] + live[1..] == x.s.freed + live;
    }
    OldestFreed(x.s.freed, live, s'.freed, live', Parked(x));
  }

  lemma DrainStepIff(x: System, live: seq<Frame>, u: nat) returns (live': seq<Frame>)
    requires Consistent(x, live) && Can(x, OpDrain(u))
    ensures if x.s.users[u].hand == [] then Conserves(x, live, OpDrain(u), live')
            else forall l :: !Conserves(x, live, OpDrain(u), l)
  {
    hide Inv, DrainOne;
    live' := DrainOneKeepsInvIff(x.s, live, u);
    if x.s.users[u].hand == [] {
      OldestFreed(x.s.freed, live, DrainOne(x.s, u).freed, live', Parked(x));
    }
  }

  lemma StoreStepIff(x: System, live: seq<Frame>) returns (live': seq<Frame>)
    requires Consistent(x, live) && Can(x, OpStore)
    ensures if Orderly(x, OpStore) then Conserves(x, live, OpStore, live')
            else forall l :: !Conserves(x, live, OpStore, l)
  {
    StoreIff(x.s, live, x.producer.f);
    live' := live + [x.producer.f];
    hide Inv, OffMeansDrained;
    assert x.s.freed + live' + [] == x.s.freed + live + [x.producer.f] + [];
  }

  lemma QuietStep(x: System, live: seq<Frame>, op: Op)
    requires Consistent(x, live) && Can(x, op) && (op.OpRecv? || op.OpSwitch?)
    ensures Conserves(x, live, op, live)
  {
    match op
    case OpRecv(u) => RecvKeepsInv(x.s, live, u);
    case OpSwitch(u, on) =>
      assert x.s.(validCount := EnabledCount(x.s.users)) == x.s;
      SetEnableKeepsInv(x.s, live, u, on);
    hide Inv, Recv, SetEnable;
    OldestFreed(x.s.freed, live, x.s.freed, live, Parked(x));
  }

  /** A step keeps the invariant, and freed, live and waiting frames in the order of adding, exactly
      when it is orderly. */
  lemma StepKeepsOrderIff(x: System, live: seq<Frame>, op: Op) returns (live': seq<Frame>)
    requires Consistent(x, live) && Can(x, op) && Fresh(x, live, op)
    ensures if Orderly(x, op) then Conserves(x, live, op, live') else forall l :: !Conserves(x, live, op, l)
  {
    hide Consistent, Conserves, OffMeansDrained, Share.Full, Share.WellSized;
    match op
    case OpAdd(f) => live' := AddIff(x, live, f);
    case OpStore => live' := StoreStepIff(x, live);
    case OpDone(u) => live' := DoneStep(x, live, u);
    case OpDrain(u) => live' := DrainStepIff(x, live, u);
    case _ =>
      QuietStep(x, live, op);
      live' := live;
  }

  lemma ConsistentFrames(x: System, live: seq<Frame>)
    requires Consistent(x, live)
    ensures x.s.WellSized() && live == x.s.Frames()
  {
    FramesUnique(x.s, live);
  }

  /** Over every orderly run the frames freed, live and waiting are the frames added, in order. */
  lemma {:induction false} FreedInOrder(x: System, live: seq<Frame>, ops: seq<Op>) returns (live': seq<Frame>)
    requires Consistent(x, live) && CanRun(x, ops) && FreshRun(x, ops) && OrderlyRun(x, ops)
    ensures Consistent(Run(x, ops), live')
    ensures Run(x, ops).s.freed + live' + Parked(Run(x, ops)) == x.s.freed + live + Parked(x) + AddedFrames(ops)
    decreases |ops|
  {
    hide Consistent, Step, Can, Orderly, Parked, Added;
    live' := live;
    var before := x.s.freed + live + Parked(x);
    if ops == [] {
      assert before + [] == before;
    } else {
      ConsistentFrames(x, live);
      var live1 := StepKeepsOrderIff(x, live, ops[0]);
      live' := FreedInOrder(Step(x, ops[0]), live1, ops[1..]);
      assert before + Added(ops[0]) + AddedFrames(ops[1..]) == before + (Added(ops[0]) + AddedFrames(ops[1..]));
    }
  }

  function Idle(n: nat): seq<User> { seq(n, _ => User(false, [], [])) }

  function Start(q: nat, n: nat): Share { Share(seq(q, _ => Slot(0, 0)), 0, 0, 0, Idle(n), []) }

  lemma {:induction false} IdleUsers(n: nat)
    ensures EnabledCount(Idle(n)) == 0
  {
    if n > 0 {
      assert Idle(n)[1..] == Idle(n - 1);
      IdleUsers(n - 1);
    }
  }

  function Created(q: nat, n: nat): System { System(Start(q, n), Ready) }

  /** A new queue is consistent exactly when its count of valid users starts at zero, as it does with
      external message queues; with its own it starts at the number of users. */
  lemma StartInvIff(q: nat, n: nat, v: nat)
    requires q > 0
    ensures Inv(Start(q, n).(validCount := v), []) <==> v == 0
    ensures OffMeansDrained(Start(q, n).users)
  {
    IdleUsers(n);
  }

  /** Exactly-once, first-added first-freed, from the creation of the queue on: the freed frames
      are a prefix of the added ones, and the rest sit in the ring, each with as many references
      as users that still have it queued or in hand, or wait with the producer. */
  lemma ExactlyOnceInOrder(q: nat, n: nat, ops: seq<Op>) returns (live: seq<Frame>)
    requires q > 0 && CanRun(Created(q, n), ops)
    requires FreshRun(Created(q, n), ops) && OrderlyRun(Created(q, n), ops)
    ensures var x := Run(Created(q, n), ops);
      && x.s.freed + live + Parked(x) == AddedFrames(ops)
      && Inv(x.s, live) && x.s.LiveCount() == |live| <= q - 1
  {
    hide Holders, EnabledCount, NoDup, Step, Orderly, OrderlyRun, FreshRun, CanRun, Run, Can;
    var x0 := Created(q, n);
    StartInvIff(q, n, 0);
    assert Start(q, n).(validCount := 0) == Start(q, n);
    live := FreedInOrder(x0, [], ops);
    RunKeepsSize(x0, ops);
    LiveCountIsLength(Run(x0, ops).s, live);
    assert [] + [] + [] + AddedFrames(ops) == AddedFrames(ops);
  }

  lemma {:induction false} RunKeepsSize(x: System, ops: seq<Op>)
    requires CanRun(x, ops)
    ensures |Run(x, ops).s.slots| == |x.s.slots|
    decreases |ops|
  {
    if ops != [] {
      RunKeepsSize(Step(x, ops[0]), ops[1..]);
    }
  }

  // ----- frames that are never freed -----

  /** The frame is queued, in hand, or waits to be stored. */
  ghost predicate SomebodyHas(x: System, f: Frame) {
    x.producer == Waiting(f) || exists i :: 0 <= i < |x.s.users| && f in x.s.users[i].Pending()
  }

  /** What the callback was given since. */
  function FreedSince(x: System, x': System): seq<Frame> {
    if |x.s.freed| <= |x'.s.freed| then x'.s.freed[|x.s.freed|..] else []
  }

  lemma OrphanStep(x: System, op: Op, f: Frame)
    requires Can(x, op) && !SomebodyHas(x, f) && op != OpAdd(f)
    ensures !SomebodyHas(Step(x, op), f)
    ensures x.s.freed <= Step(x, op).s.freed && f !in FreedSince(x, Step(x, op))
  {
    match op
    case OpDone(u) =>
      assert x.s.users[u].hand[0] in x.s.users[u].Pending();
      UserDropsHead(x, op, u, f);
      ReleaseKeepsUsers(LetGo(x.s, u), x.s.users[u].hand[0]);
    case OpDrain(u) =>
      assert x.s.users[u].queue[0] in x.s.users[u].Pending();
      UserDropsHead(x, op, u, f);
      ReleaseKeepsUsers(Popped(x.s, u), x.s.users[u].queue[0]);
    case OpRecv(u) =>
      assert x.s.users[u].queue[0] in x.s.users[u].Pending();
      UserDropsHead(x, op, u, f);
    case OpSwitch(u, on) => UserDropsHead(x, op, u, f);
    case _ => NewlyPushed(x, op, f);
  }

  /** A step of one user brings it no frame it did not have. */
  lemma UserDropsHead(x: System, op: Op, u: nat, f: Frame)
    requires Can(x, op) && !SomebodyHas(x, f)
    requires op == OpDone(u) || op == OpDrain(u) || op == OpRecv(u) || (op.OpSwitch? && op.u == u)
    ensures !SomebodyHas(Step(x, op), f)
  {
    var us := x.s.users;
    if op == OpDone(u) {
      ReleaseKeepsUsers(LetGo(x.s, u), us[u].hand[0]);
    } else if op == OpDrain(u) {
      ReleaseKeepsUsers(Popped(x.s, u), us[u].queue[0]);
    }
    hide Release;
    forall i | 0 <= i < |us| ensures f !in Step(x, op).s.users[i].Pending() {
      assert f !in us[i].Pending();
      assert forall g <- us[i].queue :: g in us[i].Pending();
      assert forall g <- us[i].hand :: g in us[i].Pending();
    }
  }

  lemma NewlyPushed(x: System, op: Op, f: Frame)
    requires Can(x, op) && !SomebodyHas(x, f) && op != OpAdd(f) && (op.OpAdd? || op.OpStore?)
    ensures !SomebodyHas(Step(x, op), f) && f !in FreedSince(x, Step(x, op)) && x.s.freed <= Step(x, op).s.freed
  {
    var us := x.s.users;
    forall i | 0 <= i < |us| ensures f !in Step(x, op).s.users[i].Pending() {
      assert f !in us[i].Pending();
    }
  }

  lemma FreedSinceSplits(x: System, y: System, z: System)
    requires x.s.freed <= y.s.freed <= z.s.freed
    ensures FreedSince(x, z) == FreedSince(x, y) + FreedSince(y, z)
  {
  }

  /** A frame that nobody has any more, or ever had, is never freed, whatever happens, unless it is
      added anew. */
  lemma {:induction false} OrphanNeverFreed(x: System, ops: seq<Op>, f: Frame)
    requires CanRun(x, ops) && !SomebodyHas(x, f) && OpAdd(f) !in ops
    ensures !SomebodyHas(Run(x, ops), f)
    ensures x.s.freed <= Run(x, ops).s.freed && f !in FreedSince(x, Run(x, ops))
    decreases |ops|
  {
    hide SomebodyHas, Step, Can;
    if ops != [] {
      assert ops[0] in ops && forall op <- ops[1..] :: op in ops;
      OrphanStep(x, ops[0], f);
      OrphanNeverFreed(Step(x, ops[0]), ops[1..], f);
      hide FreedSince;
      FreedSinceSplits(x, Step(x, ops[0]), Run(x, ops));
    }
  }

  /** A frame stored while no user is on is never freed in any run that does not add it again,
      whatever the count of valid users says. */
  lemma StoredForNobody(x: System, f: Frame, ops: seq<Op>)
    requires x.s.WellSized() && EnabledCount(x.s.users) == 0
    requires !SomebodyHas(x.(producer := Ready), f) && CanRun(System(Store(x.s, f), Ready), ops) && OpAdd(f) !in ops
    ensures f !in FreedSince(x, Run(System(Store(x.s, f), Ready), ops))
  {
    NobodyOnPushes(x.s, f);
    OrphanNeverFreed(System(Store(x.s, f), Ready), ops, f);
  }

  lemma NobodyOnPushes(s: Share, f: Frame)
    requires EnabledCount(s.users) == 0
    ensures PushAll(s.users, f) == s.users
  {
    NobodyEnabled(s.users);
  }

  /** With its own message queues a queue keeps every frame added before any user is switched on or
      off: it is stored for nobody, and in no run whatever is it freed. */
  lemma InternalQueueLeaksFrames(q: nat, n: nat, before: seq<Op>, f: Frame, ops: seq<Op>)
    requires q > 0 && n > 0 && forall op <- before :: !op.OpSwitch?
    requires var x0 := System(Start(q, n).(validCount := n), Ready);
      && CanRun(x0, before)
      && var x := Run(x0, before);
         && Can(x, OpAdd(f)) && !x.s.Full() && CanRun(Step(x, OpAdd(f)), ops) && OpAdd(f) !in ops
    ensures var x := Run(System(Start(q, n).(validCount := n), Ready), before);
      f !in Run(Step(x, OpAdd(f)), ops).s.freed
  {
    var x0 := System(Start(q, n).(validCount := n), Ready);
    var x := Run(x0, before);
    UntouchedUsers(x0, n, before);
    IdleUsers(n);
    StoredForNobody(x, f, ops);
  }

  lemma {:induction false} UntouchedUsers(x: System, n: nat, ops: seq<Op>)
    requires x.s.users == Idle(n) && x.s.validCount == n > 0 && x.s.freed == []
    requires CanRun(x, ops) && forall op <- ops :: !op.OpSwitch?
    ensures var x' := Run(x, ops); x'.s.users == Idle(n) && x'.s.validCount == n && x'.s.freed == []
    decreases |ops|
  {
    if ops != [] {
      assert ops[0] in ops;
      if ops[0].OpAdd? {
        assert PushAll(Idle(n), ops[0].f) == Idle(n);
      } else if ops[0].OpStore? {
        assert PushAll(Idle(n), x.producer.f) == Idle(n);
      }
      UntouchedUsers(Step(x, ops[0]), n, ops[1..]);
    }
  }

  /** Switching any user on or off puts the count right, as long as nothing has been added. */
  lemma SwitchRepairsStart(q: nat, n: nat, v: nat, u: nat, on: bool)
    requires q > 0 && u < n
    ensures Inv(SetEnable(Start(q, n).(validCount := v), u, on), [])
  {
    var s := Start(q, n).(validCount := v);
    StartInvIff(q, n, 0);
    IdleUsers(n);
    hide Inv;
    assert s.(validCount := EnabledCount(s.users)) == Start(q, n) == Start(q, n).(validCount := 0);
    SetEnableKeepsInv(s, [], u, on);
  }

  // ----- sends under the lock -----

  /** A message queue with at least q_count - 1 entries has room for the frame being added, so no
      send under the lock blocks. */
  lemma SendHasRoom(s: Share, live: seq<Frame>, u: nat)
    requires Inv(s, live) && u < |s.users|
    ensures |s.users[u].queue| <= |s.slots| - 1
    ensures !s.Full() ==> |s.users[u].queue| + 1 <= |s.slots| - 1
  {
    assert IsSuffix(s.users[u].Pending(), live);
    LiveCountIsLength(s, live);
  }

  lemma {:induction false} RunConcat(x: System, ops: seq<Op>, more: seq<Op>)
    requires CanRun(x, ops) && CanRun(Run(x, ops), more)
    ensures CanRun(x, ops + more) && Run(x, ops + more) == Run(Run(x, ops), more)
    decreases |ops|
  {
    hide Step, Can;
    if ops == [] {
      assert ops + more == more;
    } else {
      RunConcat(Step(x, ops[0]), ops[1..], more);
      assert (ops + more)[1..] == ops[1..] + more;
    }
  }

  // ----- runs that lose a frame -----

  lemma Extend(x0: System, ops: seq<Op>, x: System, op: Op) returns (ops': seq<Op>, x': System)
    requires CanRun(x0, ops) && Run(x0, ops) == x && Can(x, op)
    ensures CanRun(x0, ops') && Run(x0, ops') == x' && x' == Step(x, op) && ops' == ops + [op]
  {
    ops', x' := ops + [op], Step(x, op);
    assert [op][1..] == [];
    RunConcat(x0, ops, [op]);
  }

  lemma RunEmpty(x: System)
    ensures CanRun(x, []) && Run(x, []) == x
  {
  }

  /** The run from the creation of a queue gets to the state, and from there the frame is never freed. */
  ghost predicate Loses(q: nat, n: nat, ops: seq<Op>, x: System, f: Frame) {
    && CanRun(Created(q, n), ops) && Run(Created(q, n), ops) == x
    && forall more :: CanRun(x, more) && OpAdd(f) !in more ==> f !in Run(x, more).s.freed
  }

  lemma NobodyHasLoses(q: nat, n: nat, ops: seq<Op>, x: System, f: Frame)
    requires CanRun(Created(q, n), ops) && Run(Created(q, n), ops) == x && !SomebodyHas(x, f) && f !in x.s.freed
    ensures Loses(q, n, ops, x, f)
  {
    forall more | CanRun(x, more) && OpAdd(f) !in more ensures f !in Run(x, more).s.freed {
      OrphanNeverFreed(x, more, f);
      var y := Run(x, more);
      assert y.s.freed == x.s.freed + FreedSince(x, y);
    }
  }

  /** A full ring of two slots, its one user behind by one frame. */
  const FULL := Share([Slot(1, 7), Slot(0, 0)], 0, 1, 1, [User(true, [7], [])], [])
  const LEAVING := Share([Slot(1, 7), Slot(0, 0)], 0, 1, 0, [User(false, [7], [])], [])
  const LEFT := Share([Slot(0, 7), Slot(0, 0)], 1, 1, 0, [User(false, [], [])], [7])

  /** The ring is full and the producer waits when the only user is switched off and drained: the
      frame is then stored with no references, instead of being given back. */
  lemma LastUserLeavesDuringWait() returns (ops: seq<Op>, x: System)
    ensures ops == [OpSwitch(0, true), OpAdd(7), OpAdd(8), OpSwitch(0, false), OpDrain(0), OpStore]
    ensures Loses(2, 1, ops, x, 8)
    ensures x.s.slots == [Slot(0, 7), Slot(0, 8)] && x.s.rp == 1 && x.s.wp == 0
    ensures x.s.freed == [7] && x.s.users == [User(false, [], [])]
  {
    hide CanRun, Run, PushAll, DrainOne, SetEnable;
    var x0 := Created(2, 1);
    ops, x := FullRing(x0);
    ops, x := Extend(x0, ops, x, OpAdd(8));
    assert x == System(FULL, Waiting(8));
    LastUserLeaves();
    ops, x := Extend(x0, ops, x, OpSwitch(0, false));
    ops, x := Extend(x0, ops, x, OpDrain(0));
    ops, x := Extend(x0, ops, x, OpStore);
    assert x.s.users == [User(false, [], [])];
    NobodyHasLoses(2, 1, ops, x, 8);
  }

  lemma LastUserLeaves()
    ensures SetEnable(FULL, 0, false) == LEAVING
    ensures DrainOne(LEAVING, 0) == LEFT
  {
    SwitchedOne(FULL, false);
    DrainOfOne();
  }

  lemma SwitchedOne(s: Share, on: bool)
    requires |s.users| == 1
    ensures SetEnable(s, 0, on) == s.(users := [s.users[0].(enable := on)], validCount := if on then 1 else 0)
  {
    var us := [s.users[0].(enable := on)];
    assert us[1..] == [] && EnabledCount(us) == if on then 1 else 0;
    assert s.users[0 := us[0]] == us;
  }

  lemma FullRing(x0: System) returns (ops: seq<Op>, x: System)
    requires x0 == Created(2, 1)
    ensures CanRun(x0, ops) && Run(x0, ops) == x
    ensures x == System(FULL, Ready) && ops == [OpSwitch(0, true), OpAdd(7)]
  {
    hide CanRun, Run;
    RunEmpty(x0);
    ops, x := Extend(x0, [], x0, OpSwitch(0, true));
    SwitchedOne(x0.s, true);
    assert x == System(Share([Slot(0, 0), Slot(0, 0)], 0, 0, 1, [User(true, [], [])], []), Ready);
    var none: seq<Frame> := [];
    assert none + [7] == [7];
    ops, x := Extend(x0, ops, x, OpAdd(7));
    assert x.s.slots == [Slot(1, 7), Slot(0, 0)];
    assert x.s.users == [User(true, [7], [])];
  }

  lemma DrainOfOne()
    ensures DrainOne(LEAVING, 0) == LEFT
  {
    var none: seq<Frame> := [];
    assert none + [7] == [7] && [7][1..] == none;
    var p := Popped(LEAVING, 0);
    assert p.users == [User(false, [], [])];
    assert p.LiveCount() == 1 && p.At(0) == Slot(1, 7);
    assert FindFrom(p, 7, 0) == 0;
    assert p.slots[0 := Slot(0, 7)] == [Slot(0, 7), Slot(0, 0)];
  }

  /** A user that is switched off while it works on frame 7, with frame 8 queued. */
  const WORKING := System(Share([Slot(1, 7), Slot(1, 8), Slot(0, 0)], 0, 2, 1, [User(true, [8], [7])], []), Ready)
  const PASSED := Share([Slot(1, 7), Slot(0, 8), Slot(0, 0)], 1, 2, 0, [User(false, [], [7])], [8])

  /** The drain frees the frame behind the one in hand, rp steps over the wrong slot, and the frame
      in hand is not found when its user gives it back. */
  lemma DrainBesideHandLosesFrame() returns (ops: seq<Op>, x: System)
    ensures ops == [OpSwitch(0, true), OpAdd(7), OpAdd(8), OpRecv(0), OpSwitch(0, false), OpDrain(0), OpDone(0)]
    ensures Loses(3, 1, ops, x, 7) && x.s.freed == [8]
    ensures Release(LetGo(PASSED, 0), 7) == (LetGo(PASSED, 0), -1)
  {
    hide CanRun, Run, PushAll, DrainOne, SetEnable, Done, Release;
    var x0 := Created(3, 1);
    ops, x := Working(x0);
    ops, x := Extend(x0, ops, x, OpSwitch(0, false));
    SwitchedOne(WORKING.s, false);
    assert x.s == WORKING.s.(users := [User(false, [8], [7])], validCount := 0);
    PassedOverByDrain();
    ops, x := Extend(x0, ops, x, OpDrain(0));
    NotFoundWhenDone();
    ops, x := Extend(x0, ops, x, OpDone(0));
    assert x.s.users == [User(false, [], [])];
    NobodyHasLoses(3, 1, ops, x, 7);
  }

  /** A queue with one user that has received frame 7 and not frame 8. */
  lemma Working(x0: System) returns (ops: seq<Op>, x: System)
    requires x0 == Created(3, 1)
    ensures CanRun(x0, ops) && Run(x0, ops) == x == WORKING
    ensures ops == [OpSwitch(0, true), OpAdd(7), OpAdd(8), OpRecv(0)]
  {
    hide CanRun, Run;
    RunEmpty(x0);
    ops, x := Extend(x0, [], x0, OpSwitch(0, true));
    SwitchedOne(x0.s, true);
    var none: seq<Frame> := [];
    assert none + [7] == [7] && [7] + [8] == [7, 8] && [7, 8][1..] == [8];
    assert x == System(Share([Slot(0, 0), Slot(0, 0), Slot(0, 0)], 0, 0, 1, [User(true, [], [])], []), Ready);
    ops, x := Extend(x0, ops, x, OpAdd(7));
    assert x.s.users == [User(true, [7], [])];
    ops, x := Extend(x0, ops, x, OpAdd(8));
    assert x.s.users == [User(true, [7, 8], [])];
    ops, x := Extend(x0, ops, x, OpRecv(0));
    assert x.s.users == [User(true, [8], [7])];
    assert x.s.slots == WORKING.s.slots;
  }

  lemma PassedOverByDrain()
    ensures var s := WORKING.s.(users := [User(false, [8], [7])], validCount := 0); DrainOne(s, 0) == PASSED
  {
    var s := WORKING.s.(users := [User(false, [8], [7])], validCount := 0);
    var none: seq<Frame> := [];
    assert none + [8] == [8] && [8][1..] == none;
    var p := Popped(s, 0);
    assert p.users == PASSED.users;
    assert p.LiveCount() == 2 && p.At(0) == Slot(1, 7) && p.At(1) == Slot(1, 8);
    assert FindFrom(p, 8, 0) == 1;
    assert p.slots[1 := Slot(0, 8)] == PASSED.slots;
  }

  lemma NotFoundWhenDone()
    ensures Release(LetGo(PASSED, 0), 7) == (LetGo(PASSED, 0), -1) && Done(PASSED, 0).freed == [8]
    ensures Done(PASSED, 0).users == [User(false, [], [])]
  {
    var s := LetGo(PASSED, 0);
    assert [7][1..] == [] && s.users == [User(false, [], [])];
    assert s.LiveCount() == 1 && s.At(0) == Slot(0, 8);
    assert FindFrom(s, 7, 0) == 1;
  }

  /** User 0 has given frame 7 back, user 1 still has it queued. */
  const BEFORE := Share([Slot(1, 7), Slot(0, 0), Slot(0, 0)], 0, 1, 2, [User(true, [], []), User(true, [7], [])], [])
  const DRAINING := Share([Slot(1, 7), Slot(0, 0), Slot(0, 0)], 0, 1, 1, [User(true, [], []), User(false, [7], [])], [])
  const ADDED := Share([Slot(1, 7), Slot(1, 8), Slot(0, 0)], 0, 2, 1, [User(true, [8], []), User(false, [7], [])], [])
  const STEPPED := Share([Slot(1, 7), Slot(0, 8), Slot(0, 0)], 1, 2, 1, [User(true, [], []), User(false, [7], [])], [8])

  /** Adding between switching a user off and draining it breaks the order: frame 8 completes
      first, rp steps over the slot of frame 7, and the drain no longer finds frame 7. */
  lemma AddDuringDrainLosesFrame() returns (ops: seq<Op>, x: System)
    ensures ops == [OpSwitch(0, true), OpSwitch(1, true), OpAdd(7), OpRecv(0), OpDone(0)]
                   + [OpSwitch(1, false), OpAdd(8), OpRecv(0), OpDone(0), OpDrain(1)]
    ensures Loses(3, 2, ops, x, 7) && x.s.freed == [8]
  {
    hide CanRun, Run, SetEnable, Store, Done, Release;
    var x0 := Created(3, 2);
    ops, x := OneBehind(x0);
    AddedWhileDraining();
    ReleasedWhileDraining();
    NotFoundAnyMore();
    ops, x := Extend(x0, ops, x, OpSwitch(1, false));
    ops, x := Extend(x0, ops, x, OpAdd(8));
    ops, x := Extend(x0, ops, x, OpRecv(0));
    assert ADDED.users[0].queue == [8] && x.s.users[0].hand == [] + [8];
    ops, x := Extend(x0, ops, x, OpDone(0));
    ops, x := Extend(x0, ops, x, OpDrain(1));
    NobodyHasLoses(3, 2, ops, x, 7);
  }

  /** Two users, one of which has given back frame 7. */
  lemma OneBehind(x0: System) returns (ops: seq<Op>, x: System)
    requires x0 == Created(3, 2)
    ensures CanRun(x0, ops) && Run(x0, ops) == x == System(BEFORE, Ready)
    ensures ops == [OpSwitch(0, true), OpSwitch(1, true), OpAdd(7), OpRecv(0), OpDone(0)]
  {
    hide CanRun, Run, Done;
    RunEmpty(x0);
    var none: seq<Frame> := [];
    assert none + [7] == [7] && [7][1..] == none;
    BothOn(x0);
    ops, x := Extend(x0, [], x0, OpSwitch(0, true));
    ops, x := Extend(x0, ops, x, OpSwitch(1, true));
    hide SetEnable;
    assert x == System(ON, Ready);
    ops, x := Extend(x0, ops, x, OpAdd(7));
    assert x.s.users == [User(true, [7], []), User(true, [7], [])];
    assert x.s.slots == [Slot(2, 7), Slot(0, 0), Slot(0, 0)];
    ops, x := Extend(x0, ops, x, OpRecv(0));
    assert x.s.users == [User(true, [], [7]), User(true, [7], [])];
    assert x.s == TAKEN;
    OneDone();
    ops, x := Extend(x0, ops, x, OpDone(0));
  }

  const ON := Share([Slot(0, 0), Slot(0, 0), Slot(0, 0)], 0, 0, 2, [User(true, [], []), User(true, [], [])], [])
  const TAKEN :=
    Share([Slot(2, 7), Slot(0, 0), Slot(0, 0)], 0, 1, 2, [User(true, [], [7]), User(true, [7], [])], [])

  lemma BothOn(x0: System)
    requires x0 == Created(3, 2)
    ensures SetEnable(SetEnable(x0.s, 0, true), 1, true) == ON
  {
    var us := [User(true, [], []), User(true, [], [])];
    assert SetEnable(SetEnable(x0.s, 0, true), 1, true).users == us;
    assert us[1..] == [User(true, [], [])] && us[1..][1..] == [];
  }

  lemma OneDone()
    ensures Done(TAKEN, 0) == BEFORE
  {
    var none: seq<Frame> := [];
    assert [7][1..] == none;
    var s := LetGo(TAKEN, 0);
    assert s.users == BEFORE.users;
    assert s.LiveCount() == 1 && s.At(0) == Slot(2, 7);
    assert FindFrom(s, 7, 0) == 0;
    assert s.slots[0 := Slot(1, 7)] == BEFORE.slots;
  }

  lemma NotFoundAnyMore()
    ensures Release(Popped(STEPPED, 1), 7) == (Popped(STEPPED, 1), -1)
    ensures Popped(STEPPED, 1).users == [User(true, [], []), User(false, [], [])]
  {
    var s := Popped(STEPPED, 1);
    assert [7][1..] == [];
    assert s.LiveCount() == 1 && s.At(0) == Slot(0, 8);
    assert FindFrom(s, 7, 0) == 1;
  }

  lemma ReleasedWhileDraining()
    ensures Done(Recv(ADDED, 0), 0) == STEPPED
  {
    var none: seq<Frame> := [];
    assert none + [8] == [8] && [8][1..] == none;
    var r := Recv(ADDED, 0);
    assert r.users == [User(true, [], [8]), User(false, [7], [])];
    var s := LetGo(r, 0);
    assert s.users == STEPPED.users;
    assert s.LiveCount() == 2 && s.At(0) == Slot(1, 7) && s.At(1) == Slot(1, 8);
    assert FindFrom(s, 8, 0) == 1;
    assert s.slots[1 := Slot(0, 8)] == STEPPED.slots;
  }

  lemma AddedWhileDraining()
    ensures SetEnable(BEFORE, 1, false) == DRAINING && Store(DRAINING, 8) == ADDED
  {
    var us := DRAINING.users;
    assert SetEnable(BEFORE, 1, false).users == us;
    assert us[1..] == [User(false, [7], [])] && us[1..][1..] == [];
    var none: seq<Frame> := [];
    assert none + [8] == [8];
    assert PushAll(us, 8)[0] == Pushed(us[0], 8) && PushAll(us, 8)[1] == Pushed(us[1], 8);
    assert PushAll(us, 8) == [User(true, [8], []), User(false, [7], [])];
  }
}
