/** What a step that is not orderly does to frames: some continuation in which the users only
    receive and give back frees them out of order, or leaves one that nobody can free. */
module ShareQueueOrder {
  import opened ShareQueueModel
  import opened ShareQueueRuns

  predicate OnlyUsers(ops: seq<Op>) { forall op <- ops :: op.OpRecv? || op.OpDone? }

  /** The callback log follows the order of adding, and somebody still has each frame that has not
      been freed. */
  ghost predicate Kept(x: System, added: seq<Frame>) {
    x.s.freed <= added && forall i :: |x.s.freed| <= i < |added| ==> SomebodyHas(x, added[i])
  }

  // ----- overtaking -----

  /** Position of a user's frame j: of the frames before k it still has the last m, and of those from
      k on the last ones. */
  function Position(frames: nat, pending: nat, k: nat, m: nat, j: nat): int {
    if j < m then k - m + j else frames - pending + j
  }

  predicate SplitAt(p: seq<Frame>, frames: seq<Frame>, k: nat, m: nat) {
    && m <= |p| && m <= k <= |frames| && |p| - m <= |frames| - k
    && forall j :: 0 <= j < |p| ==> p[j] == frames[Position(|frames|, |p|, k, m, j)]
  }

  ghost predicate Split(p: seq<Frame>, frames: seq<Frame>, k: nat) { exists m: nat :: SplitAt(p, frames, k, m) }

  /** User v still has the frame before position k and will not have the one at k. */
  ghost predicate Overtaking(s: Share, frames: seq<Frame>, k: nat, v: nat) {
    && Counted(s, frames) && 0 < k < |frames| && v < |s.users|
    && frames[k - 1] in s.users[v].Pending() && frames[k] !in s.users[v].Pending()
    && forall i :: 0 <= i < |s.users| ==> Split(s.users[i].Pending(), frames, k)
  }

  /** The first frame of a user that has the one at k: an older one, or that one. */
  lemma SplitHead(p: seq<Frame>, frames: seq<Frame>, k: nat, m: nat) returns (i: nat)
    requires k < |frames| && NoDup(frames) && SplitAt(p, frames, k, m) && frames[k] in p
    ensures i <= k && p[0] == frames[i] && p[0] !in p[1..] && Split(p[1..], frames, k)
  {
    i := Position(|frames|, |p|, k, m, 0);
    assert forall j :: 0 < j < |p| ==> i < Position(|frames|, |p|, k, m, j);
    var t :| 0 <= t < |p| && p[t] == frames[k];
    assert Position(|frames|, |p|, k, m, t) == k;
    SplitTail(p, frames, k, m);
  }

  lemma SplitTail(p: seq<Frame>, frames: seq<Frame>, k: nat, m: nat)
    requires p != [] && SplitAt(p, frames, k, m)
    ensures Split(p[1..], frames, k)
  {
    var m' := if m > 0 then m - 1 else 0;
    forall j | 0 <= j < |p| - 1 ensures p[1..][j] == frames[Position(|frames|, |p| - 1, k, m', j)] {
      assert p[1..][j] == p[j + 1];
    }
    assert SplitAt(p[1..], frames, k, m');
  }

  /** Freeing the oldest frame leaves every user that does not have it with the same split. */
  lemma SplitBehindOldest(p: seq<Frame>, frames: seq<Frame>, k: nat)
    requires 0 < k < |frames| && Split(p, frames, k) && frames[0] !in p
    ensures Split(p, frames[1..], k - 1)
  {
    var m: nat :| SplitAt(p, frames, k, m);
    assert m > 0 ==> p[0] == frames[k - m] && p[0] in p;
    assert SplitAt(p, frames[1..], k - 1, m);
  }

  /** A user that has the oldest frame has all those before k. */
  lemma OldestMeansAll(p: seq<Frame>, frames: seq<Frame>, k: nat, i: nat)
    requires i < k < |frames| && NoDup(frames) && Split(p, frames, k) && frames[0] in p
    ensures frames[i] in p && p[0] == frames[0]
  {
    var m: nat :| SplitAt(p, frames, k, m);
    var j :| 0 <= j < |p| && p[j] == frames[0];
    assert Position(|frames|, |p|, k, m, j) == 0;
    assert p[i] == frames[Position(|frames|, |p|, k, m, i)] == frames[i];
  }

  /** A frame before k whose last holder gives it back is the oldest. */
  lemma LastIsOldest(s: Share, frames: seq<Frame>, k: nat, v: nat, w: nat, i: nat)
    requires Overtaking(s, frames, k, v) && w < |s.users| && s.users[w].Pending() != []
    requires i < k && s.users[w].Pending()[0] == frames[i] && Holders(s.users, frames[i]) == 1
    ensures i == 0
  {
    hide Holders;
    var z := AHolder(s.users, frames[0]);
    OldestMeansAll(s.users[z].Pending(), frames, k, i);
    assert frames[i] in s.users[w].Pending();
    TwoHoldersCount(s.users, w, z, frames[i]);
  }

  /** What the users' shapes are after user w lets its first frame go. */
  lemma LetGoSplit(s: Share, frames: seq<Frame>, k: nat, v: nat, w: nat) returns (i: nat)
    requires Overtaking(s, frames, k, v) && w < |s.users| && w != v
    requires s.users[w].hand != [] && frames[k] in s.users[w].Pending()
    ensures i <= k && s.users[w].hand[0] == frames[i] == s.users[w].Pending()[0]
    ensures LetGo(s, w).users[w].Pending() == s.users[w].Pending()[1..]
    ensures frames[i] !in LetGo(s, w).users[w].Pending()
    ensures forall j :: 0 <= j < |s.users| ==> Split(LetGo(s, w).users[j].Pending(), frames, k)
    ensures forall j :: 0 <= j < |frames| ==>
      Holders(LetGo(s, w).users, frames[j]) == Holders(s.users, frames[j]) - (if j == i then 1 else 0)
  {
    hide Holders, SplitAt, Counted;
    var p := s.users[w].Pending();
    assert Split(p, frames, k);
    var m: nat :| SplitAt(p, frames, k, m);
    assert NoDup(frames) && k < |frames| by { OvertakingDistinct(s, frames, k, v); }
    i := SplitHead(p, frames, k, m);
    assert LetGo(s, w).users[w].Pending() == p[1..] && p[0] == s.users[w].hand[0];
    assert p == [p[0]] + p[1..];
    forall j | 0 <= j < |s.users| ensures Split(LetGo(s, w).users[j].Pending(), frames, k) {
      assert j != w ==> LetGo(s, w).users[j] == s.users[j];
    }
    forall j | 0 <= j < |frames|
      ensures Holders(LetGo(s, w).users, frames[j]) == Holders(s.users, frames[j]) - (if j == i then 1 else 0)
    {
      HoldersUpdate(s.users, w, LetGo(s, w).users[w], frames[j]);
    }
  }

  datatype Progress = Counting | OldestOut | Overtaken

  /** User w gives back a frame: nothing is freed, or the oldest is, or the one at k overtakes. */
  lemma OvertakeStep(s: Share, frames: seq<Frame>, k: nat, v: nat, w: nat) returns (p: Progress)
    requires Overtaking(s, frames, k, v) && w < |s.users| && w != v
    requires s.users[w].hand != [] && frames[k] in s.users[w].Pending()
    ensures s.WellSized() && Done(s, w).WellSized() && Done(s, w).users == LetGo(s, w).users
    ensures match p
      case Counting => Overtaking(Done(s, w), frames, k, v) && Done(s, w).freed == s.freed
      case OldestOut => k > 1 && Overtaking(Done(s, w), frames[1..], k - 1, v)
          && Done(s, w).freed == s.freed + [frames[0]]
      case Overtaken => Done(s, w).freed == s.freed + [frames[k]]
  {
    hide Holders, Release, Split, Counted;
    OvertakingDistinct(s, frames, k, v);
    var i := LetGoSplit(s, frames, k, v, w);
    HoldersHere(s, frames, i);
    ReleaseCounted(s, LetGo(s, w), frames, i);
    assert LetGo(s, w).users[v] == s.users[v];
    ReleaseKeepsUsers(LetGo(s, w), frames[i]);
    if Holders(s.users, frames[i]) > 1 {
      p := Counting;
    } else if i == k {
      p := Overtaken;
    } else {
      p := OldestOut;
      LastIsOldest(s, frames, k, v, w, i);
      OldestGone(s, frames, k, v, w);
    }
  }

  lemma HoldersHere(s: Share, frames: seq<Frame>, i: nat)
    requires Counted(s, frames) && i < |frames|
    ensures s.WellSized() && Holders(s.users, frames[i]) > 0
  {
  }

  lemma OldestGone(s: Share, frames: seq<Frame>, k: nat, v: nat, w: nat)
    requires Overtaking(s, frames, k, v) && w < |s.users| && w != v && s.users[w].hand != []
    requires s.users[w].hand[0] == frames[0] && Holders(s.users, frames[0]) == 1
    requires Holders(LetGo(s, w).users, frames[0]) == 0
    requires forall j :: 0 <= j < |s.users| ==> Split(LetGo(s, w).users[j].Pending(), frames, k)
    ensures k > 1 && frames[1..][k - 2] == frames[k - 1] && frames[1..][k - 1] == frames[k]
    ensures forall j :: 0 <= j < |s.users| ==> Split(LetGo(s, w).users[j].Pending(), frames[1..], k - 1)
  {
    var us := LetGo(s, w).users;
    HoldersPositive(us, frames[0]);
    hide Holders, Split;
    forall j | 0 <= j < |us| ensures Split(us[j].Pending(), frames[1..], k - 1) {
      SplitBehindOldest(us[j].Pending(), frames, k);
    }
    assert us[v] == s.users[v];
  }

  // ----- the run of an overtaking -----

  function TotalPending(users: seq<User>): nat {
    if users == [] then 0 else |users[0].Pending()| + TotalPending(users[1..])
  }

  lemma {:induction false} TotalUpdate(users: seq<User>, u: nat, user: User)
    requires u < |users|
    ensures TotalPending(users[u := user]) == TotalPending(users) - |users[u].Pending()| + |user.Pending()|
  {
    if u == 0 {
      assert users[0 := user][1..] == users[1..];
    } else {
      assert users[u := user][1..] == users[1..][u - 1 := user];
      TotalUpdate(users[1..], u - 1, user);
    }
  }

  lemma RecvKeepsOvertaking(s: Share, frames: seq<Frame>, k: nat, v: nat, w: nat)
    requires Overtaking(s, frames, k, v) && w < |s.users| && s.users[w].queue != []
    ensures Overtaking(Recv(s, w), frames, k, v) && Recv(s, w).freed == s.freed
    ensures |Recv(s, w).users| == |s.users| && Recv(s, w).WellSized()
    ensures Recv(s, w).users[w].hand != [] && Recv(s, w).users[w].Pending() == s.users[w].Pending()
    ensures TotalPending(Recv(s, w).users) == TotalPending(s.users)
  {
    hide Holders, TotalPending, Split;
    var s' := Recv(s, w);
    assert s.users[w].queue == [s.users[w].queue[0]] + s.users[w].queue[1..];
    assert s'.users[w].Pending() == s.users[w].Pending();
    TotalUpdate(s.users, w, s'.users[w]);
    SamePendingKeepsCounts(s, s', frames);
  }

  /** Some user other than v has the frame at k; it takes that user at most two steps to give its
      first frame back. */
  lemma OvertakeMove(x: System, frames: seq<Frame>, k: nat, v: nat) returns (ops: seq<Op>, p: Progress, x': System)
    requires Overtaking(x.s, frames, k, v)
    ensures CanRun(x, ops) && OnlyUsers(ops) && Run(x, ops) == x' && x'.producer == x.producer
    ensures match p
      case Counting => Overtaking(x'.s, frames, k, v) && x'.s.freed == x.s.freed
      case OldestOut => k > 1 && Overtaking(x'.s, frames[1..], k - 1, v) && x'.s.freed == x.s.freed + [frames[0]]
      case Overtaken => x'.s.freed == x.s.freed + [frames[k]]
    ensures TotalPending(x'.s.users) < TotalPending(x.s.users)
  {
    hide Holders, TotalPending, Overtaking, Recv, Done, LetGo, Share.WellSized;
    var w := OtherHolder(x.s, frames, k, v);
    var x1 := x;
    ops := [];
    if x.s.users[w].hand == [] {
      RecvKeepsOvertaking(x.s, frames, k, v, w);
      x1 := Step(x, OpRecv(w));
      ops := [OpRecv(w)];
      RunOne(x, OpRecv(w));
    } else {
      RunEmpty(x);
    }
    p := OvertakeStep(x1.s, frames, k, v, w);
    x' := Step(x1, OpDone(w));
    LetGoTotal(x1.s, w);
    RunOne(x1, OpDone(w));
    RunConcat(x, ops, [OpDone(w)]);
    ops := ops + [OpDone(w)];
  }

  /** Somebody other than v has the frame at k. */
  lemma OtherHolder(s: Share, frames: seq<Frame>, k: nat, v: nat) returns (w: nat)
    requires Overtaking(s, frames, k, v)
    ensures k < |frames| && s.WellSized() && w < |s.users| && w != v && frames[k] in s.users[w].Pending()
    ensures s.users[w].hand == [] ==> s.users[w].queue != []
  {
    hide Holders, Split;
    assert Holders(s.users, frames[k]) > 0;
    w := AHolder(s.users, frames[k]);
  }

  lemma LetGoTotal(s: Share, w: nat)
    requires w < |s.users| && s.users[w].hand != []
    ensures TotalPending(LetGo(s, w).users) == TotalPending(s.users) - 1
  {
    TotalUpdate(s.users, w, LetGo(s, w).users[w]);
  }

  lemma RunOne(x: System, op: Op)
    requires Can(x, op)
    ensures CanRun(x, [op]) && Run(x, [op]) == Step(x, op)
  {
    assert [op][1..] == [];
  }

  /** Without user v, the users can free the frame at k before the one before it. */
  lemma {:induction false} OvertakenRun(x: System, frames: seq<Frame>, k: nat, v: nat, added: seq<Frame>)
      returns (more: seq<Op>)
    requires Overtaking(x.s, frames, k, v) && x.s.freed + frames <= added
    ensures CanRun(x, more) && OnlyUsers(more) && !(Run(x, more).s.freed <= added)
    decreases TotalPending(x.s.users)
  {
    hide Overtaking, TotalPending, CanRun, Run, NoDup;
    OvertakingDistinct(x.s, frames, k, v);
    var ops, p, x' := OvertakeMove(x, frames, k, v);
    more := ops;
    if p == Overtaken {
      OutOfOrder(x.s.freed, frames, k, added);
    } else {
      var frames', k' := frames, k;
      if p == OldestOut {
        frames', k' := frames[1..], k - 1;
        assert x'.s.freed + frames' == x.s.freed + frames;
      }
      var rest := OvertakenRun(x', frames', k', v, added);
      RunConcat(x, ops, rest);
      more := ops + rest;
    }
  }

  lemma OutOfOrder(freed: seq<Frame>, frames: seq<Frame>, k: nat, added: seq<Frame>)
    requires k < |frames| && frames[0] != frames[k] && freed + frames <= added
    ensures !(freed + [frames[k]] <= added)
  {
    assert (freed + frames)[|freed|] == frames[0] && (freed + [frames[k]])[|freed|] == frames[k];
  }

  lemma OvertakingDistinct(s: Share, frames: seq<Frame>, k: nat, v: nat)
    requires Overtaking(s, frames, k, v)
    ensures 0 < k < |frames| && NoDup(frames) && frames[0] != frames[k]
  {
  }

  // ----- where a disorderly step leads -----

  /** A store past a user that is off and has frames left. */
  lemma StoreOvertakes(s: Share, live: seq<Frame>, f: Frame) returns (v: nat)
    requires Inv(s, live) && !s.Full() && f !in live && s.validCount > 0 && !OffMeansDrained(s.users)
    ensures s.WellSized() && Overtaking(Store(s, f), live + [f], |live|, v) && Store(s, f).freed == s.freed
  {
    hide Holders, EnabledCount, Counted, Split;
    CountedUsers(s, live);
    var s', frames, k := Store(s, f), live + [f], |live|;
    v :| v < |s.users| && !s.users[v].enable && s.users[v].Pending() != [];
    StoreCounted(s, live, f);
    var p := s.users[v].Pending();
    assert IsSuffix(p, live);
    assert p[|p| - 1] == live[k - 1] && s'.users[v] == s.users[v];
    forall i | 0 <= i < |s.users| ensures Split(s'.users[i].Pending(), frames, k) {
      assert IsSuffix(s.users[i].Pending(), live);
      PushedSplit(s.users[i], live, f);
      assert s'.users[i] == Pushed(s.users[i], f);
    }
  }

  lemma StoreCounted(s: Share, live: seq<Frame>, f: Frame)
    requires Inv(s, live) && !s.Full() && f !in live && s.validCount > 0
    ensures Counted(Store(s, f), live + [f])
    ensures forall i :: 0 <= i < |s.users| ==> f !in s.users[i].Pending()
  {
    hide Holders, EnabledCount;
    var s', all := Store(s, f), live + [f];
    AddedSlots(s, live, f);
    forall i | 0 <= i < |s.users| ensures f !in s.users[i].Pending() {
      assert IsSuffix(s.users[i].Pending(), live);
    }
    forall j | 0 <= j < |all| ensures s'.At(j) == Slot(Holders(s'.users, all[j]), all[j])
        && Holders(s'.users, all[j]) > 0 {
      HoldersPush(s.users, f, all[j]);
      if j < |live| {
        assert s'.At(j) == s.At(j) == Slot(Holders(s.users, live[j]), live[j]);
      }
    }
  }

  lemma PushedSplit(u: User, live: seq<Frame>, f: Frame)
    requires IsSuffix(u.Pending(), live)
    ensures Split(Pushed(u, f).Pending(), live + [f], |live|)
  {
    var p, p', frames := u.Pending(), Pushed(u, f).Pending(), live + [f];
    assert p' == p + (if u.enable then [f] else []);
    assert SplitAt(p', frames, |live|, |p|);
  }

  /** A drain past the frames in a user's hand. */
  lemma DrainOvertakes(s: Share, live: seq<Frame>, u: nat) returns (k: nat)
    requires Inv(s, live) && u < |s.users| && s.users[u].hand != [] && s.users[u].queue != []
    ensures 0 < k < |live| && live[0] != live[k] && s.users[u].queue[0] == live[k]
    ensures (DrainOne(s, u).freed == s.freed + [live[k]])
         || (DrainOne(s, u).freed == s.freed && Overtaking(DrainOne(s, u), live, k, u))
  {
    hide Holders, EnabledCount, Release, Split;
    var hand, queue := s.users[u].hand, s.users[u].queue;
    k := QueuedAt(s, live, u);
    var s0 := Popped(s, u);
    PoppedCounts(s, live, u, k);
    ReleaseCounted(s, s0, live, k);
    assert Holders(s.users, live[k]) > 0;
    if Holders(s.users, live[k]) > 1 {
      forall i | 0 <= i < |s.users| ensures Split(s0.users[i].Pending(), live, k) {
        assert IsSuffix(s.users[i].Pending(), live);
        if i != u {
          SuffixSplits(s.users[i].Pending(), live, k);
        }
      }
    }
  }

  /** The frames around the first in a user's queue. */
  lemma QueuedAt(s: Share, live: seq<Frame>, u: nat) returns (k: nat)
    requires Inv(s, live) && u < |s.users| && s.users[u].hand != [] && s.users[u].queue != []
    ensures 0 < k < |live| && s.users[u].queue[0] == live[k]
    ensures Split(Popped(s, u).users[u].Pending(), live, k)
    ensures live[k - 1] in Popped(s, u).users[u].Pending() && live[k] !in Popped(s, u).users[u].Pending()
  {
    var hand, queue := s.users[u].hand, s.users[u].queue;
    assert IsSuffix(s.users[u].Pending(), live) && NoDup(live);
    hide Inv;
    k := |live| - |queue|;
    assert Popped(s, u).users[u].Pending() == hand + queue[1..];
    LeftOut(hand, queue, live);
  }

  lemma LeftOut(hand: seq<Frame>, queue: seq<Frame>, live: seq<Frame>)
    requires IsSuffix(hand + queue, live) && hand != [] && queue != [] && NoDup(live)
    ensures var k := |live| - |queue|;
      0 < k < |live| && queue[0] == live[k] && live[k - 1] in hand + queue[1..] && live[k] !in hand + queue[1..]
      && Split(hand + queue[1..], live, k)
  {
    var p', c, h := hand + queue[1..], |live| - |hand| - |queue|, |hand|;
    forall j | 0 <= j < h ensures hand[j] == live[c + j] {
      assert (hand + queue)[j] == live[c..][j];
    }
    forall j | 0 <= j < |queue| ensures queue[j] == live[c + h + j] {
      assert (hand + queue)[h + j] == live[c..][h + j];
    }
    forall j | 0 <= j < |p'|
      ensures p'[j] == live[Position(|live|, |p'|, c + h, h, j)] && p'[j] != live[c + h]
    {
      assert p'[j] == if j < h then hand[j] else queue[j - h + 1];
    }
    assert SplitAt(p', live, c + h, h);
    assert p'[h - 1] == live[c + h - 1];
  }

  lemma SuffixSplits(p: seq<Frame>, live: seq<Frame>, k: nat)
    requires IsSuffix(p, live) && k <= |live|
    ensures Split(p, live, k)
  {
    var c := |live| - |p|;
    assert SplitAt(p, live, k, if c < k then k - c else 0);
  }

  lemma PoppedCounts(s: Share, live: seq<Frame>, u: nat, k: nat)
    requires Inv(s, live) && u < |s.users| && s.users[u].queue != [] && k < |live| && s.users[u].queue[0] == live[k]
    ensures forall j :: 0 <= j < |live| ==>
      Holders(Popped(s, u).users, live[j]) == Holders(s.users, live[j]) - (if j == k then 1 else 0)
  {
    hide Holders, EnabledCount;
    var hand, queue, p := s.users[u].hand, s.users[u].queue, s.users[u].Pending();
    assert IsSuffix(p, live);
    assert forall j :: 0 <= j < |p| ==> p[j] == live[|live| - |p| + j];
    assert p == hand + [queue[0]] + queue[1..];
    var p' := Popped(s, u).users[u].Pending();
    assert p' == hand + queue[1..];
    assert live[k] !in p' by {
      assert forall j :: 0 <= j < |hand| ==> hand[j] == p[j];
      assert forall j :: 0 <= j < |queue| - 1 ==> queue[1..][j] == p[|hand| + 1 + j];
      assert p[|hand|] == live[k];
    }
    forall j | 0 <= j < |live|
      ensures Holders(Popped(s, u).users, live[j]) == Holders(s.users, live[j]) - (if j == k then 1 else 0)
    {
      HoldersUpdate(s.users, u, Popped(s, u).users[u], live[j]);
      assert live[j] in p <==> live[j] in p' || j == k;
    }
  }

  /** The frames added by then, in order. */
  function Outstanding(x: System, live: seq<Frame>, op: Op): seq<Frame> {
    x.s.freed + live + Parked(x) + Added(op)
  }

  /** After a step that is not orderly the users can, just by receiving and giving back, make the
      callback log leave the order of adding, or a frame is left that nobody has. */
  lemma DisorderlyStepLoses(x: System, live: seq<Frame>, op: Op) returns (more: seq<Op>)
    requires Consistent(x, live) && Can(x, op) && Fresh(x, live, op) && !Orderly(x, op)
    ensures CanRun(Step(x, op), more) && OnlyUsers(more)
    ensures !Kept(Run(Step(x, op), more), Outstanding(x, live, op))
  {
    more := [];
    match op
    case OpAdd(f) =>
      if x.s.validCount == 0 {
        GivenBackOvertakes(x, live, f);
      } else {
        more := StoreLoses(x, live, op, f);
      }
    case OpStore =>
      if x.s.validCount == 0 {
        StoredForNobodyLoses(x, live);
      } else {
        more := StoreLoses(x, live, op, x.producer.f);
      }
    case OpDrain(u) => more := DrainLoses(x, live, u);
  }

  lemma GivenBackOvertakes(x: System, live: seq<Frame>, f: Frame)
    requires Consistent(x, live) && Can(x, OpAdd(f)) && f !in live && !Orderly(x, OpAdd(f)) && x.s.validCount == 0
    ensures !(Step(x, OpAdd(f)).s.freed <= Outstanding(x, live, OpAdd(f)))
  {
    AllOffEmptyIff(x.s, live);
    hide Inv;
    var n := |x.s.freed|;
    assert (x.s.freed + [f])[n] == f && Outstanding(x, live, OpAdd(f))[n] == live[0];
  }

  lemma StoredForNobodyLoses(x: System, live: seq<Frame>)
    requires Consistent(x, live) && Can(x, OpStore) && x.s.validCount == 0
    ensures !Kept(Step(x, OpStore), Outstanding(x, live, OpStore))
  {
    var f, x', added := x.producer.f, Step(x, OpStore), Outstanding(x, live, OpStore);
    NobodyOnPushes(x.s, f);
    hide EnabledCount, Holders;
    forall i | 0 <= i < |x.s.users| ensures f !in x'.s.users[i].Pending() {
      assert IsSuffix(x.s.users[i].Pending(), live);
    }
    assert added[|added| - 1] == f && |added| > |x.s.freed|;
    assert !SomebodyHas(x', f);
  }

  lemma StoreLoses(x: System, live: seq<Frame>, op: Op, f: Frame) returns (more: seq<Op>)
    requires Consistent(x, live) && Can(x, op) && !x.s.Full() && f !in live
    requires x.s.validCount > 0 && !OffMeansDrained(x.s.users)
    requires (op == OpAdd(f) && x.producer == Ready) || (op == OpStore && x.producer == Waiting(f))
    ensures CanRun(Step(x, op), more) && OnlyUsers(more)
    ensures !Kept(Run(Step(x, op), more), Outstanding(x, live, op))
  {
    hide Inv, Overtaking, OffMeansDrained, Store, Run, CanRun;
    var v := StoreOvertakes(x.s, live, f);
    var added := Outstanding(x, live, op);
    assert Step(x, op).s == Store(x.s, f);
    assert added == x.s.freed + (live + [f]);
    more := OvertakenRun(Step(x, op), live + [f], |live|, v, added);
  }

  lemma DrainLoses(x: System, live: seq<Frame>, u: nat) returns (more: seq<Op>)
    requires Consistent(x, live) && Can(x, OpDrain(u)) && x.s.users[u].hand != []
    ensures CanRun(Step(x, OpDrain(u)), more) && OnlyUsers(more)
    ensures !Kept(Run(Step(x, OpDrain(u)), more), Outstanding(x, live, OpDrain(u)))
  {
    hide Inv, Overtaking, DrainOne, CanRun, Run, NoDup;
    var k := DrainOvertakes(x.s, live, u);
    var x', added := Step(x, OpDrain(u)), Outstanding(x, live, OpDrain(u));
    assert x'.s == DrainOne(x.s, u) && x.s.freed + live <= added;
    more := [];
    if x'.s.freed == x.s.freed + [live[k]] {
      OutOfOrder(x.s.freed, live, k, added);
      RunEmpty(x');
    } else {
      more := OvertakenRun(x', live, k, u, added);
    }
  }

  // ----- exactly which runs keep every frame in order -----

  lemma {:induction false} UsersAreOrderly(x: System, live: seq<Frame>, more: seq<Op>)
    requires Consistent(x, live) && CanRun(x, more) && OnlyUsers(more)
    ensures FreshRun(x, more) && OrderlyRun(x, more) && AddedFrames(more) == []
    decreases |more|
  {
    hide Consistent, Conserves, Step, Can;
    if more != [] {
      assert more[0] in more && forall op <- more[1..] :: op in more;
      ConsistentFrames(x, live);
      var live' := StepKeepsOrderIff(x, live, more[0]);
      ConservesMeans(x, live, more[0], live');
      UsersAreOrderly(Step(x, more[0]), live', more[1..]);
    }
  }

  lemma ConservesMeans(x: System, live: seq<Frame>, op: Op, live': seq<Frame>)
    requires Can(x, op) && Conserves(x, live, op, live')
    ensures Consistent(Step(x, op), live')
    ensures var x' := Step(x, op); x'.s.freed + live' + Parked(x') == Outstanding(x, live, op)
  {
  }

  lemma ConsistentKept(x: System, live: seq<Frame>)
    requires Consistent(x, live)
    ensures Kept(x, x.s.freed + live + Parked(x))
  {
    var added := x.s.freed + live + Parked(x);
    forall i | |x.s.freed| <= i < |added| ensures SomebodyHas(x, added[i]) {
      var j := i - |x.s.freed|;
      if j < |live| {
        assert added[i] == live[j];
        HoldersHere(x.s, live, j);
        var w := AHolder(x.s.users, live[j]);
      }
    }
  }

  /** After n steps of a run, whatever the users then receive and give back, the callback log follows
      the order of adding and somebody has each frame that has not been freed. */
  ghost predicate KeptAfter(x: System, before: seq<Frame>, ops: seq<Op>, n: nat, more: seq<Op>)
    requires n <= |ops|
  {
    CanRun(x, ops[..n] + more) && OnlyUsers(more) ==>
      Kept(Run(x, ops[..n] + more), before + AddedFrames(ops[..n]))
  }

  lemma UsersKeepFrames(x: System, live: seq<Frame>, more: seq<Op>)
    requires Consistent(x, live) && CanRun(x, more) && OnlyUsers(more)
    ensures Kept(Run(x, more), x.s.freed + live + Parked(x))
  {
    hide Consistent, Kept, CanRun, Run;
    UsersAreOrderly(x, live, more);
    var live' := FreedInOrder(x, live, more);
    ConsistentKept(Run(x, more), live');
    assert x.s.freed + live + Parked(x) + [] == x.s.freed + live + Parked(x);
  }

  lemma {:induction false} OrderlyRunKeepsFrames(x: System, live: seq<Frame>, ops: seq<Op>, n: nat, more: seq<Op>)
    requires Consistent(x, live) && CanRun(x, ops) && FreshRun(x, ops) && OrderlyRun(x, ops) && n <= |ops|
    ensures KeptAfter(x, x.s.freed + live + Parked(x), ops, n, more)
    decreases n
  {
    hide Consistent, Conserves, Step, Can, Orderly, Kept, Added;
    var before := x.s.freed + live + Parked(x);
    if CanRun(x, ops[..n] + more) && OnlyUsers(more) {
      if n == 0 {
        assert ops[..0] + more == more && before + [] == before;
        UsersKeepFrames(x, live, more);
      } else {
        ConsistentFrames(x, live);
        var live' := StepKeepsOrderIff(x, live, ops[0]);
        ConservesMeans(x, live, ops[0], live');
        OrderlyRunKeepsFrames(Step(x, ops[0]), live', ops[1..], n - 1, more);
        FirstOfRun(x, before, ops, n, more);
      }
    }
  }

  /** A run seen from behind its first step. */
  lemma FirstOfRun(x: System, before: seq<Frame>, ops: seq<Op>, n: nat, more: seq<Op>)
    requires 0 < n <= |ops| && CanRun(x, ops)
    ensures KeptAfter(x, before, ops, n, more)
       <==> KeptAfter(Step(x, ops[0]), before + Added(ops[0]), ops[1..], n - 1, more)
  {
    hide Step, Can, Kept, Added;
    var all, tail := ops[..n] + more, ops[1..][..n - 1] + more;
    assert all[0] == ops[0] && all[1..] == tail && ops[..n][1..] == ops[1..][..n - 1];
    assert before + AddedFrames(ops[..n]) == before + Added(ops[0]) + AddedFrames(ops[1..][..n - 1]);
  }

  lemma {:induction false} DisorderlyRunLoses(x: System, live: seq<Frame>, ops: seq<Op>) returns (n: nat, more: seq<Op>)
    requires Consistent(x, live) && CanRun(x, ops) && FreshRun(x, ops) && !OrderlyRun(x, ops)
    ensures n <= |ops| && !KeptAfter(x, x.s.freed + live + Parked(x), ops, n, more)
    decreases |ops|
  {
    hide Consistent, Conserves, Step, Can, Orderly, Kept, Added, KeptAfter;
    ConsistentFrames(x, live);
    var before := x.s.freed + live + Parked(x);
    if Orderly(x, ops[0]) {
      var live' := StepKeepsOrderIff(x, live, ops[0]);
      ConservesMeans(x, live, ops[0], live');
      n, more := DisorderlyRunLoses(Step(x, ops[0]), live', ops[1..]);
      n := n + 1;
      FirstOfRun(x, before, ops, n, more);
    } else {
      n := 1;
      more := DisorderlyStepLoses(x, live, ops[0]);
      NotKeptBehind(Step(x, ops[0]), before + Added(ops[0]), ops[1..], more);
      FirstOfRun(x, before, ops, 1, more);
    }
  }

  lemma NotKeptBehind(x: System, before: seq<Frame>, ops: seq<Op>, more: seq<Op>)
    requires CanRun(x, more) && OnlyUsers(more) && !Kept(Run(x, more), before)
    ensures !KeptAfter(x, before, ops, 0, more)
  {
    assert ops[..0] + more == more && before + [] == before;
  }

  /** The same for one step: it is orderly exactly when, whatever the users then receive and give
      back, frames are freed in the order of adding and somebody has those not yet freed. */
  lemma StepKeepsFramesIff(x: System, live: seq<Frame>, op: Op)
    requires Consistent(x, live) && Can(x, op) && Fresh(x, live, op)
    ensures Orderly(x, op) <==>
            forall more :: CanRun(Step(x, op), more) && OnlyUsers(more) ==>
              Kept(Run(Step(x, op), more), Outstanding(x, live, op))
  {
    hide Consistent, Conserves, Step, Can, Orderly, Kept, CanRun, Run, Fresh, Outstanding;
    if Orderly(x, op) {
      var live' := StepKeepsOrderIff(x, live, op);
      ConservesMeans(x, live, op, live');
      forall more | CanRun(Step(x, op), more) && OnlyUsers(more)
        ensures Kept(Run(Step(x, op), more), Outstanding(x, live, op))
      {
        UsersKeepFrames(Step(x, op), live', more);
      }
    } else {
      var more := DisorderlyStepLoses(x, live, op);
    }
  }

  /** A run is orderly exactly when, after any part of it and whatever the users then receive and
      give back, frames are freed in the order of adding and somebody has those not yet freed. */
  lemma RunKeepsFramesIff(x: System, live: seq<Frame>, ops: seq<Op>)
    requires Consistent(x, live) && CanRun(x, ops) && FreshRun(x, ops)
    ensures OrderlyRun(x, ops) <==>
            forall n: nat, more :: n <= |ops| ==> KeptAfter(x, x.s.freed + live + Parked(x), ops, n, more)
  {
    hide Consistent, KeptAfter, CanRun, FreshRun, OrderlyRun, Parked;
    if OrderlyRun(x, ops) {
      forall n: nat, more | n <= |ops| ensures KeptAfter(x, x.s.freed + live + Parked(x), ops, n, more) {
        OrderlyRunKeepsFrames(x, live, ops, n, more);
      }
    } else {
      var n, more := DisorderlyRunLoses(x, live, ops);
    }
  }

  /** From the creation of a queue on: exactly the orderly runs free frames once each, in the order
      of adding, with somebody to free each of the others. */
  lemma ExactlyOnceIff(q: nat, n: nat, ops: seq<Op>)
    requires q > 0 && CanRun(Created(q, n), ops) && FreshRun(Created(q, n), ops)
    ensures OrderlyRun(Created(q, n), ops) <==>
            forall k: nat, more :: k <= |ops| ==> KeptAfter(Created(q, n), [], ops, k, more)
  {
    hide Consistent, KeptAfter, CanRun, FreshRun, OrderlyRun, Created, Parked;
    CreatedConsistent(q, n);
    RunKeepsFramesIff(Created(q, n), [], ops);
  }

  lemma CreatedConsistent(q: nat, n: nat)
    requires q > 0
    ensures Consistent(Created(q, n), []) && Created(q, n).s.freed + [] + Parked(Created(q, n)) == []
  {
    StartInvIff(q, n, 0);
    assert Start(q, n).(validCount := 0) == Start(q, n);
  }

  // ----- every frame can be freed -----

  /** From any consistent state the users can, just by receiving and giving back, get every live frame
      freed. */
  lemma {:induction false} UsersCanFinish(x: System, live: seq<Frame>) returns (more: seq<Op>)
    requires Consistent(x, live)
    ensures CanRun(x, more) && OnlyUsers(more)
    ensures Run(x, more).s.freed == x.s.freed + live && Consistent(Run(x, more), [])
    decreases TotalPending(x.s.users)
  {
    hide Consistent, CanRun, Run, TotalPending;
    RunEmpty(x);
    more := [];
    if live == [] {
      assert x.s.freed + [] == x.s.freed;
    } else {
      var w := LiveHolder(x, live);
      var ops, x', live' := UserMoves(x, live, w);
      var rest := UsersCanFinish(x', live');
      RunConcat(x, ops, rest);
      more := ops + rest;
    }
  }

  lemma LiveHolder(x: System, live: seq<Frame>) returns (w: nat)
    requires Consistent(x, live) && live != []
    ensures w < |x.s.users| && (x.s.users[w].hand != [] || x.s.users[w].queue != [])
  {
    HoldersHere(x.s, live, 0);
    w := AHolder(x.s.users, live[0]);
  }

  lemma UserMoves(x: System, live: seq<Frame>, w: nat) returns (ops: seq<Op>, x': System, live': seq<Frame>)
    requires Consistent(x, live) && w < |x.s.users| && (x.s.users[w].hand != [] || x.s.users[w].queue != [])
    ensures CanRun(x, ops) && OnlyUsers(ops) && Run(x, ops) == x' && Consistent(x', live')
    ensures x'.s.freed + live' == x.s.freed + live && TotalPending(x'.s.users) < TotalPending(x.s.users)
  {
    hide CanRun, Run, TotalPending, Inv, Done, Recv;
    ConsistentFrames(x, live);
    var x1 := x;
    ops := [];
    if x.s.users[w].hand == [] {
      RecvKeepsInv(x.s, live, w);
      RecvTotal(x.s, w);
      x1 := Step(x, OpRecv(w));
      RunOne(x, OpRecv(w));
      ops := [OpRecv(w)];
    } else {
      RunEmpty(x);
    }
    ConsistentFrames(x1, live);
    live' := DoneFrees(x1, live, w);
    DoneTotal(x1.s, live, w);
    x' := Step(x1, OpDone(w));
    RunOne(x1, OpDone(w));
    RunConcat(x, ops, [OpDone(w)]);
    ops := ops + [OpDone(w)];
  }

  lemma RecvTotal(s: Share, w: nat)
    requires w < |s.users| && s.users[w].queue != []
    ensures TotalPending(Recv(s, w).users) == TotalPending(s.users)
    ensures |Recv(s, w).users| == |s.users| && Recv(s, w).users[w].hand != []
  {
    var user := Recv(s, w).users[w];
    assert s.users[w].queue == [s.users[w].queue[0]] + s.users[w].queue[1..];
    TotalUpdate(s.users, w, user);
  }

  lemma DoneTotal(s: Share, live: seq<Frame>, w: nat)
    requires Inv(s, live) && w < |s.users| && s.users[w].hand != []
    ensures s.WellSized() && TotalPending(Done(s, w).users) == TotalPending(s.users) - 1
  {
    LetGoTotal(s, w);
    ReleaseKeepsUsers(LetGo(s, w), s.users[w].hand[0]);
    hide TotalPending, Release;
  }

  lemma DoneFrees(x: System, live: seq<Frame>, w: nat) returns (live': seq<Frame>)
    requires Consistent(x, live) && x.s.WellSized() && w < |x.s.users| && x.s.users[w].hand != []
    ensures Consistent(x.(s := Done(x.s, w)), live') && Done(x.s, w).freed + live' == x.s.freed + live
  {
    hide Inv, Done;
    DoneKeepsInv(x.s, live, w);
    live' := if Done(x.s, w).freed == x.s.freed then live else live[1..];
    if Done(x.s, w).freed != x.s.freed {
      assert x.s.freed + [live[0]] + live[1..] == x.s.freed + live;
    }
  }
}
