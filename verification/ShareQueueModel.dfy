/** The reference-counted fan-out queue as a value: one producer, several users, and a frame is
    given back when its last user releases it. */
module ShareQueueModel {
  type Frame = nat

  datatype Slot = Slot(refCount: int, frame: Frame)

  /** `queue` is the user's message queue; `hand` holds the frames received and not yet released. */
  datatype User = User(enable: bool, queue: seq<Frame>, hand: seq<Frame>) {
    function Pending(): seq<Frame> { hand + queue }
  }

  /** `freed` logs the calls of the release callback. */
  datatype Share = Share(slots: seq<Slot>, rp: nat, wp: nat, validCount: nat, users: seq<User>, freed: seq<Frame>) {
    predicate WellSized() { rp < |slots| && wp < |slots| }

    function Next(i: nat): nat
      requires WellSized()
    { (i + 1) % |slots| }

    predicate Full()
      requires WellSized()
    { Next(wp) == rp }

    /** Slots in [rp, wp), round the ring. */
    function LiveCount(): nat
      requires WellSized()
    { (wp + |slots| - rp) % |slots| }

    function At(j: nat): Slot
      requires WellSized()
    { slots[(rp + j) % |slots|] }

    /** The frames in [rp, wp), oldest first. */
    function Frames(): seq<Frame>
      requires WellSized()
    { seq(LiveCount(), j requires 0 <= j => At(j).frame) }
  }

  function EnabledCount(users: seq<User>): nat {
    if users == [] then 0 else (if users[0].enable then 1 else 0) + EnabledCount(users[1..])
  }

  /** How many users have the frame queued or in hand. */
  function Holders(users: seq<User>, f: Frame): nat {
    if users == [] then 0 else (if f in users[0].Pending() then 1 else 0) + Holders(users[1..], f)
  }

  function Pushed(u: User, f: Frame): User { if u.enable then u.(queue := u.queue + [f]) else u }

  function PushAll(users: seq<User>, f: Frame): (r: seq<User>)
    ensures |r| == |users|
    ensures forall i :: 0 <= i < |users| ==> r[i] == Pushed(users[i], f)
  {
    if users == [] then [] else [Pushed(users[0], f)] + PushAll(users[1..], f)
  }

  // ----- operations, each under the lock -----

  /** The end of an add, when there is room: the count is whatever it has become by now. */
  function Store(s: Share, f: Frame): Share
    requires s.WellSized()
  {
    s.(slots := s.slots[s.wp := Slot(s.validCount, f)], wp := s.Next(s.wp), users := PushAll(s.users, f))
  }

  /** An add that does not have to wait. With no enabled user the frame is given straight back. */
  function Add(s: Share, f: Frame): Share
    requires s.WellSized()
  {
    if s.validCount == 0 then s.(freed := s.freed + [f]) else Store(s, f)
  }

  /** The first slot in [rp, wp) that holds the frame, as a distance from rp; LiveCount() if none. */
  function FindFrom(s: Share, f: Frame, j: nat): (k: nat)
    requires s.WellSized() && j <= s.LiveCount()
    ensures j <= k <= s.LiveCount()
    ensures k < s.LiveCount() ==> s.At(k).frame == f
    ensures forall i :: j <= i < k ==> s.At(i).frame != f
    decreases s.LiveCount() - j
  {
    if j == s.LiveCount() || s.At(j).frame == f then j else FindFrom(s, f, j + 1)
  }

  /** Drops one reference; at zero the callback runs and rp moves on by one, whichever slot it was. */
  function Release(s: Share, f: Frame): (Share, int)
    requires s.WellSized()
  {
    var k := FindFrom(s, f, 0);
    if k == s.LiveCount() then (s, -1)
    else
      var slot := s.At(k);
      var s1 := s.(slots := s.slots[(s.rp + k) % |s.slots| := slot.(refCount := slot.refCount - 1)]);
      (if slot.refCount == 1 then s1.(freed := s.freed + [f], rp := s.Next(s.rp)) else s1, 0)
  }

  function Recv(s: Share, u: nat): Share
    requires u < |s.users| && s.users[u].queue != []
  {
    var user := s.users[u];
    s.(users := s.users[u := user.(queue := user.queue[1..], hand := user.hand + [user.queue[0]])])
  }

  /** The user gives back the frame it received first. */
  function Done(s: Share, u: nat): Share
    requires s.WellSized() && u < |s.users| && s.users[u].hand != []
  {
    var user := s.users[u];
    Release(s.(users := s.users[u := user.(hand := user.hand[1..])]), user.hand[0]).0
  }

  /** The part of enable/disable under the lock; a disabled user's queue is drained afterwards. */
  function SetEnable(s: Share, u: nat, on: bool): Share
    requires u < |s.users|
  {
    var users := s.users[u := s.users[u].(enable := on)];
    s.(users := users, validCount := EnabledCount(users))
  }

  /** A message taken straight off a user's queue. */
  function Popped(s: Share, u: nat): Share
    requires u < |s.users| && s.users[u].queue != []
  { s.(users := s.users[u := s.users[u].(queue := s.users[u].queue[1..])]) }

  lemma ReleaseKeepsUsers(s: Share, f: Frame)
    requires s.WellSized()
    ensures Release(s, f).0.users == s.users && Release(s, f).0.WellSized()
    ensures |Release(s, f).0.slots| == |s.slots|
  {
  }

  /** One pass of the drain: the oldest message is taken off the queue and released. */
  function DrainOne(s: Share, u: nat): Share
    requires s.WellSized() && u < |s.users| && s.users[u].queue != []
  { Release(Popped(s, u), s.users[u].queue[0]).0 }

  /** Receives and releases everything in a user's queue. */
  function Drain(s: Share, u: nat): (r: Share)
    requires s.WellSized() && u < |s.users|
    ensures r.users == s.users[u := s.users[u].(queue := [])]
    ensures r.WellSized()
    decreases |s.users[u].queue|
  {
    if s.users[u].queue == [] then s
    else
      ReleaseKeepsUsers(Popped(s, u), s.users[u].queue[0]);
      Drain(DrainOne(s, u), u)
  }

  // ----- what every step keeps -----

  predicate NoDup(fs: seq<Frame>) { forall i, j :: 0 <= i < j < |fs| ==> fs[i] != fs[j] }

  predicate IsSuffix(a: seq<Frame>, b: seq<Frame>) { |a| <= |b| && a == b[|b| - |a|..] }

  /** `live` lists the frames in the ring, oldest first. Each slot's count is the number of users
      that have its frame queued or in hand, and is positive. */
  ghost predicate Counted(s: Share, live: seq<Frame>) {
    && s.WellSized()
    && |live| < |s.slots| && s.wp == (s.rp + |live|) % |s.slots|
    && NoDup(live)
    && (forall j :: 0 <= j < |live| ==>
          s.At(j) == Slot(Holders(s.users, live[j]), live[j]) && Holders(s.users, live[j]) > 0)
  }

  /** Moreover each user still has a suffix of the live frames to get through. */
  ghost predicate Inv(s: Share, live: seq<Frame>) {
    && Counted(s, live)
    && s.validCount == EnabledCount(s.users)
    && (forall i :: 0 <= i < |s.users| ==> IsSuffix(s.users[i].Pending(), live))
  }

  /** Users that are switched off have nothing left. */
  predicate OffMeansDrained(users: seq<User>) {
    forall i :: 0 <= i < |users| && !users[i].enable ==> users[i].Pending() == []
  }

  lemma SlotsDistinct(q: nat, rp: nat, i: nat, j: nat)
    requires rp < q && i < q && j < q
    ensures (rp + i) % q == (rp + j) % q <==> i == j
  {
    ModWrap(q, rp + i);
    ModWrap(q, rp + j);
  }

  lemma ModWrap(q: nat, x: nat)
    requires 0 < q && x < 2 * q
    ensures x % q == if x < q then x else x - q
  {
    if x < q {
    } else {
      assert x == q * 1 + (x - q);
    }
  }

  /** The live count is read off the pointers, and is at most one less than the ring. */
  lemma LiveCountIsLength(s: Share, live: seq<Frame>)
    requires s.WellSized() && |live| < |s.slots| && s.wp == (s.rp + |live|) % |s.slots|
    ensures s.LiveCount() == |live| <= |s.slots| - 1
    ensures s.Full() <==> |live| == |s.slots| - 1
  {
    var q := |s.slots|;
    ModWrap(q, s.rp + |live|);
    ModWrap(q, s.wp + q - s.rp);
    ModWrap(q, s.wp + 1);
  }

  lemma {:induction false} HoldersSame(users: seq<User>, users': seq<User>, f: Frame)
    requires |users'| == |users| && forall i :: 0 <= i < |users| ==> users'[i].Pending() == users[i].Pending()
    ensures Holders(users', f) == Holders(users, f)
  {
    if users != [] {
      assert forall i :: 0 <= i < |users| - 1 ==> users'[1..][i] == users'[i + 1] && users[1..][i] == users[i + 1];
      HoldersSame(users[1..], users'[1..], f);
    }
  }

  /** The invariant does not depend on how a user's frames are split between queue and hand. */
  lemma SamePendingKeepsInv(s: Share, s': Share, live: seq<Frame>)
    requires Inv(s, live) && s'.slots == s.slots && s'.rp == s.rp && s'.wp == s.wp
    requires |s'.users| == |s.users| && s'.validCount == EnabledCount(s'.users)
    requires forall i :: 0 <= i < |s.users| ==> s'.users[i].Pending() == s.users[i].Pending()
    ensures Inv(s', live)
  {
    hide Holders, EnabledCount;
    SamePendingKeepsCounts(s, s', live);
  }

  lemma SamePendingKeepsCounts(s: Share, s': Share, live: seq<Frame>)
    requires Counted(s, live) && s'.slots == s.slots && s'.rp == s.rp && s'.wp == s.wp && |s'.users| == |s.users|
    requires forall i :: 0 <= i < |s.users| ==> s'.users[i].Pending() == s.users[i].Pending()
    ensures Counted(s', live)
  {
    hide Holders;
    forall j | 0 <= j < |live|
      ensures s'.At(j) == Slot(Holders(s'.users, live[j]), live[j]) && Holders(s'.users, live[j]) > 0
    {
      assert s'.At(j) == s.At(j) == Slot(Holders(s.users, live[j]), live[j]);
      HoldersSame(s.users, s'.users, live[j]);
    }
  }

  /** Only one list of live frames fits a ring. */
  lemma FramesUnique(s: Share, live: seq<Frame>)
    requires Inv(s, live)
    ensures live == s.Frames()
  {
    hide Holders, EnabledCount;
    LiveCountIsLength(s, live);
  }

  lemma {:induction false} HoldersPositive(users: seq<User>, f: Frame)
    ensures Holders(users, f) > 0 <==> exists i :: 0 <= i < |users| && f in users[i].Pending()
  {
    if users != [] {
      HoldersPositive(users[1..], f);
      if i :| 0 <= i < |users| && f in users[i].Pending() {
        assert i > 0 ==> users[1..][i - 1] == users[i];
      }
      if i :| 0 <= i < |users[1..]| && f in users[1..][i].Pending() {
        assert users[i + 1] == users[1..][i];
      }
    }
  }

  /** Changing one user changes the count by that user's own share. */
  lemma {:induction false} HoldersUpdate(users: seq<User>, u: nat, user: User, f: Frame)
    requires u < |users|
    ensures Holders(users[u := user], f)
         == Holders(users, f) - (if f in users[u].Pending() then 1 else 0) + (if f in user.Pending() then 1 else 0)
  {
    if u == 0 {
      assert users[0 := user][1..] == users[1..];
    } else {
      assert users[u := user][1..] == users[1..][u - 1 := user];
      HoldersUpdate(users[1..], u - 1, user, f);
    }
  }

  lemma {:induction false} HoldersPush(users: seq<User>, f: Frame, g: Frame)
    requires forall i :: 0 <= i < |users| ==> f !in users[i].Pending()
    ensures Holders(PushAll(users, f), g) == if g == f then EnabledCount(users) else Holders(users, g)
  {
    if users != [] {
      assert PushAll(users, f)[1..] == PushAll(users[1..], f);
      assert Pushed(users[0], f).Pending() == users[0].Pending() + (if users[0].enable then [f] else []);
      HoldersPush(users[1..], f, g);
    }
  }

  lemma {:induction false} PushKeepsEnabled(users: seq<User>, f: Frame)
    ensures EnabledCount(PushAll(users, f)) == EnabledCount(users)
  {
    if users != [] {
      assert PushAll(users, f)[1..] == PushAll(users[1..], f);
      PushKeepsEnabled(users[1..], f);
    }
  }

  lemma {:induction false} EnabledUpdate(users: seq<User>, u: nat, user: User)
    requires u < |users| && user.enable == users[u].enable
    ensures EnabledCount(users[u := user]) == EnabledCount(users)
  {
    if u == 0 {
      assert users[0 := user][1..] == users[1..];
    } else {
      assert users[u := user][1..] == users[1..][u - 1 := user];
      EnabledUpdate(users[1..], u - 1, user);
    }
  }

  /** A pushed user still has a suffix to get through exactly when it is on or has nothing left. */
  lemma PushedSuffixIff(u: User, live: seq<Frame>, f: Frame)
    requires IsSuffix(u.Pending(), live) && f !in live
    ensures IsSuffix(Pushed(u, f).Pending(), live + [f]) <==> u.enable || u.Pending() == []
  {
    var p := u.Pending();
    var c := |live| - |p|;
    if u.enable {
      assert Pushed(u, f).Pending() == p + [f];
      assert (live + [f])[c..] == live[c..] + [f];
    } else if p != [] {
      var last := |p| - 1;
      assert p[last] == live[c..][last] == live[c + last];
      assert (live + [f])[c + 1..][last] == f;
    }
  }

  lemma AddedSlots(s: Share, live: seq<Frame>, f: Frame)
    requires Inv(s, live) && !s.Full() && f !in live
    ensures var s' := Store(s, f);
      && s'.WellSized() && s'.wp == (s'.rp + |live| + 1) % |s'.slots| && |live| + 1 < |s.slots|
      && s'.At(|live|) == Slot(s.validCount, f)
      && forall j :: 0 <= j < |live| ==> s'.At(j) == s.At(j)
  {
    var q := |s.slots|;
    LiveCountIsLength(s, live);
    ModWrap(q, s.rp + |live|);
    ModWrap(q, s.rp + |live| + 1);
    ModWrap(q, s.wp + 1);
    forall j | 0 <= j < |live| ensures Store(s, f).At(j) == s.At(j) {
      SlotsDistinct(q, s.rp, j, |live|);
    }
  }

  /** Storing a frame keeps the invariant exactly when somebody is on to receive it and every user
      that is off has been drained. */
  lemma StoreKeepsInvIff(s: Share, live: seq<Frame>, f: Frame)
    requires Inv(s, live) && !s.Full() && f !in live
    ensures Inv(Store(s, f), live + [f]) <==> s.validCount > 0 && OffMeansDrained(s.users)
    ensures Store(s, f).WellSized() && Store(s, f).Frames() == live + [f]
  {
    hide Holders, EnabledCount;
    var s', all := Store(s, f), live + [f];
    AddedSlots(s, live, f);
    LiveCountIsLength(s', all);
    PushKeepsEnabled(s.users, f);
    forall i | 0 <= i < |s.users|
      ensures f !in s.users[i].Pending()
      ensures IsSuffix(s'.users[i].Pending(), all) <==> s.users[i].enable || s.users[i].Pending() == []
    {
      assert IsSuffix(s.users[i].Pending(), live);
      assert s'.users[i] == Pushed(s.users[i], f);
      PushedSuffixIff(s.users[i], live, f);
    }
    forall j | 0 <= j < |all|
      ensures Holders(s'.users, all[j]) == if j == |live| then s.validCount else Holders(s.users, live[j])
    {
      HoldersPush(s.users, f, all[j]);
    }
    assert s'.At(|live|).refCount == s.validCount == Holders(s'.users, all[|live|]);
  }

  /** Nothing in hand or queue changes owner on a receive. */
  lemma RecvKeepsInv(s: Share, live: seq<Frame>, u: nat)
    requires Inv(s, live) && u < |s.users| && s.users[u].queue != []
    ensures Inv(Recv(s, u), live) && Recv(s, u).freed == s.freed
    ensures Recv(s, u).users[u].Pending() == s.users[u].Pending()
  {
    hide Holders, EnabledCount;
    var user, s' := s.users[u], Recv(s, u);
    assert user.queue == [user.queue[0]] + user.queue[1..];
    assert s'.users[u].Pending() == user.Pending();
    EnabledUpdate(s.users, u, s'.users[u]);
    SamePendingKeepsInv(s, s', live);
  }

  /** The count is taken afresh, so a wrong one is put right. */
  lemma SetEnableKeepsInv(s: Share, live: seq<Frame>, u: nat, on: bool)
    requires Inv(s.(validCount := EnabledCount(s.users)), live) && u < |s.users|
    ensures Inv(SetEnable(s, u, on), live) && SetEnable(s, u, on).freed == s.freed
  {
    hide Holders, EnabledCount;
    SamePendingKeepsInv(s.(validCount := EnabledCount(s.users)), SetEnable(s, u, on), live);
  }

  /** The frame a user gives back next, as a position in the live list. */
  lemma HeadIsLive(s: Share, live: seq<Frame>, u: nat)
    requires Inv(s, live) && u < |s.users| && s.users[u].hand != []
    ensures var k := |live| - |s.users[u].Pending()|;
      0 <= k < |live| && live[k] == s.users[u].hand[0] && s.users[u].Pending() == live[k..]
  {
    assert IsSuffix(s.users[u].Pending(), live);
    assert s.users[u].Pending()[0] == s.users[u].hand[0];
  }

  lemma TwoHoldersCount(users: seq<User>, u: nat, v: nat, f: Frame)
    requires u < |users| && v < |users| && f in users[u].Pending() && f in users[v].Pending()
    ensures u != v ==> Holders(users, f) >= 2
  {
    var users' := users[u := User(false, [], [])];
    HoldersUpdate(users, u, User(false, [], []), f);
    HoldersPositive(users', f);
    assert u != v ==> f in users'[v].Pending();
  }

  lemma AHolder(users: seq<User>, f: Frame) returns (v: nat)
    requires Holders(users, f) > 0
    ensures v < |users| && f in users[v].Pending()
  {
    HoldersPositive(users, f);
    v :| v < |users| && f in users[v].Pending();
  }

  /** A user that still has the oldest frame still has them all. */
  lemma HolderOfOldestHasAll(p: seq<Frame>, live: seq<Frame>)
    requires IsSuffix(p, live) && NoDup(live) && live != [] && live[0] in p
    ensures p == live
  {
    var m := |live| - |p|;
    var i :| 0 <= i < |p| && p[i] == live[0];
    assert live[m + i] == live[0];
  }

  /** A frame whose last holder is about to let go is the oldest one: every user behind it would
      still hold the frames before it. */
  lemma LastHolderIsOldest(users: seq<User>, live: seq<Frame>, u: nat, k: nat)
    requires forall i :: 0 <= i < |users| ==> IsSuffix(users[i].Pending(), live)
    requires NoDup(live) && u < |users| && k < |live| && users[u].Pending() == live[k..]
    requires Holders(users, live[k]) == 1 && Holders(users, live[0]) > 0
    ensures k == 0
  {
    hide Holders;
    var v := AHolder(users, live[0]);
    HolderOfOldestHasAll(users[v].Pending(), live);
    assert live[k] in live && live[k] in live[k..] by { assert live[k..][0] == live[k]; }
    TwoHoldersCount(users, u, v, live[k]);
    assert v == u;
    assert |live[k..]| == |live|;
  }

  lemma FindIsLive(s: Share, live: seq<Frame>, k: nat)
    requires s.WellSized() && s.LiveCount() == |live| && k < |live| && NoDup(live)
    requires forall j :: 0 <= j < |live| ==> s.At(j).frame == live[j]
    ensures FindFrom(s, live[k], 0) == k
  {
  }

  /** The state after the user let go, before the reference is dropped. */
  function LetGo(s: Share, u: nat): Share
    requires u < |s.users| && s.users[u].hand != []
  {
    s.(users := s.users[u := s.users[u].(hand := s.users[u].hand[1..])])
  }

  lemma LetGoPending(s: Share, live: seq<Frame>, u: nat)
    requires Inv(s, live) && u < |s.users| && s.users[u].hand != []
    ensures var p := s.users[u].Pending(); var p' := LetGo(s, u).users[u].Pending();
      && p' == p[1..] && p == [s.users[u].hand[0]] + p'
      && IsSuffix(p', live) && s.users[u].hand[0] !in p'
  {
    hide Holders, EnabledCount;
    HeadIsLive(s, live, u);
    var p := s.users[u].Pending();
    var k := |live| - |p|;
    assert LetGo(s, u).users[u].Pending() == p[1..];
    assert forall i :: 0 < i < |p| ==> p[i] == live[k + i] != live[k];
  }

  lemma LetGoHolders(s: Share, live: seq<Frame>, u: nat, g: Frame)
    requires Inv(s, live) && u < |s.users| && s.users[u].hand != []
    ensures Holders(LetGo(s, u).users, g) == Holders(s.users, g) - (if g == s.users[u].hand[0] then 1 else 0)
  {
    LetGoPending(s, live, u);
    HoldersUpdate(s.users, u, LetGo(s, u).users[u], g);
  }

  lemma LetGoSuffix(s: Share, live: seq<Frame>, u: nat)
    requires Inv(s, live) && u < |s.users| && s.users[u].hand != []
    ensures EnabledCount(LetGo(s, u).users) == EnabledCount(s.users)
    ensures forall i :: 0 <= i < |s.users| ==> IsSuffix(LetGo(s, u).users[i].Pending(), live)
  {
    hide Holders;
    LetGoPending(s, live, u);
    EnabledUpdate(s.users, u, LetGo(s, u).users[u]);
    forall i | 0 <= i < |s.users| ensures IsSuffix(LetGo(s, u).users[i].Pending(), live) {
      assert i != u ==> LetGo(s, u).users[i] == s.users[i];
      assert IsSuffix(s.users[i].Pending(), live);
    }
  }

  /** What a release does to the ring when the frame sits k slots behind rp. */
  lemma ReleaseFound(s: Share, live: seq<Frame>, k: nat)
    requires s.WellSized() && |live| < |s.slots| && s.wp == (s.rp + |live|) % |s.slots|
    requires k < |live| && NoDup(live) && forall j :: 0 <= j < |live| ==> s.At(j).frame == live[j]
    ensures var (s', ret) := Release(s, live[k]);
      && ret == 0 && s'.users == s.users && |s'.slots| == |s.slots| && s'.validCount == s.validCount
      && s'.WellSized() && s'.wp == s.wp
      && s'.rp == (if s.At(k).refCount == 1 then s.Next(s.rp) else s.rp)
      && s'.freed == s.freed + (if s.At(k).refCount == 1 then [live[k]] else [])
      && s'.slots == s.slots[(s.rp + k) % |s.slots| := s.At(k).(refCount := s.At(k).refCount - 1)]
  {
    LiveCountIsLength(s, live);
    FindIsLive(s, live, k);
  }

  /** A release by a user that has let go: it counts down, or frees the frame and moves rp on, which
      keeps the counts right if the frame was the oldest. */
  lemma ReleaseCounted(s: Share, s0: Share, live: seq<Frame>, k: nat)
    requires Counted(s, live) && k < |live| && s0 == s.(users := s0.users)
    requires forall j :: 0 <= j < |live| ==>
      Holders(s0.users, live[j]) == Holders(s.users, live[j]) - (if j == k then 1 else 0)
    ensures var s' := Release(s0, live[k]).0;
      && s'.users == s0.users && s'.validCount == s.validCount
      && (Holders(s.users, live[k]) > 1 ==> Counted(s', live) && s'.freed == s.freed)
      && (Holders(s.users, live[k]) == 1 ==> s'.freed == s.freed + [live[k]] && (k == 0 ==> Counted(s', live[1..])))
  {
    hide Holders, Release;
    assert forall j :: 0 <= j < |live| ==> s0.At(j) == s.At(j);
    ReleaseFound(s0, live, k);
    if Holders(s.users, live[k]) > 1 {
      CountedDown(s, s0, Release(s0, live[k]).0, live, k);
    } else if k == 0 {
      CountedOut(s, s0, Release(s0, live[0]).0, live);
    }
  }

  lemma CountedDown(s: Share, s0: Share, s': Share, live: seq<Frame>, k: nat)
    requires Counted(s, live) && k < |live| && s0 == s.(users := s0.users) && Holders(s.users, live[k]) > 1
    requires forall j :: 0 <= j < |live| ==>
      Holders(s0.users, live[j]) == Holders(s.users, live[j]) - (if j == k then 1 else 0)
    requires s'.users == s0.users && s'.rp == s.rp && s'.wp == s.wp
    requires s0.WellSized()
        && s'.slots == s.slots[(s.rp + k) % |s.slots| := s0.At(k).(refCount := s0.At(k).refCount - 1)]
    ensures Counted(s', live)
  {
    hide Holders;
    forall j | 0 <= j < |live|
      ensures s'.At(j) == Slot(Holders(s'.users, live[j]), live[j]) && Holders(s'.users, live[j]) > 0
    {
      assert s.At(j) == Slot(Holders(s.users, live[j]), live[j]);
      SlotsDistinct(|s.slots|, s.rp, j, k);
    }
  }

  lemma CountedOut(s: Share, s0: Share, s': Share, live: seq<Frame>)
    requires Counted(s, live) && live != [] && s0 == s.(users := s0.users)
    requires forall j :: 0 <= j < |live| ==>
      Holders(s0.users, live[j]) == Holders(s.users, live[j]) - (if j == 0 then 1 else 0)
    requires s'.users == s0.users && s'.rp == s.Next(s.rp) && s'.wp == s.wp && |s'.slots| == |s.slots|
    requires s'.slots == s.slots[(s.rp + 0) % |s.slots| := s'.slots[(s.rp + 0) % |s.slots|]]
    ensures Counted(s', live[1..])
  {
    hide Holders;
    var rest := live[1..];
    ModWrap(|s.slots|, s.rp);
    ShiftedSlots(s, s', live);
    forall j | 0 <= j < |rest|
      ensures s'.At(j) == Slot(Holders(s'.users, rest[j]), rest[j]) && Holders(s'.users, rest[j]) > 0
    {
      assert s'.At(j) == s.At(j + 1) == Slot(Holders(s.users, live[j + 1]), live[j + 1]);
    }
  }

  /** A release that leaves holders just counts down. */
  lemma DoneSharedKeepsInv(s: Share, live: seq<Frame>, u: nat)
    requires Inv(s, live) && u < |s.users| && s.users[u].hand != []
    requires Holders(s.users, s.users[u].hand[0]) > 1
    ensures Inv(Done(s, u), live) && Done(s, u).freed == s.freed
    ensures Done(s, u).users == LetGo(s, u).users
  {
    hide Holders, EnabledCount, Release, Counted;
    var k := |live| - |s.users[u].Pending()|;
    HeadIsLive(s, live, u);
    LetGoSuffix(s, live, u);
    LetGoCounts(s, live, u);
    ReleaseCounted(s, LetGo(s, u), live, k);
  }

  /** The last release hands back the oldest frame, once, with no holder left, and the ring moves
      on past exactly that frame. */
  lemma DoneLastKeepsInv(s: Share, live: seq<Frame>, u: nat)
    requires Inv(s, live) && u < |s.users| && s.users[u].hand != []
    requires Holders(s.users, s.users[u].hand[0]) == 1
    ensures live != [] && s.users[u].hand[0] == live[0]
    ensures Inv(Done(s, u), live[1..]) && Done(s, u).freed == s.freed + [live[0]]
    ensures Done(s, u).users == LetGo(s, u).users
    ensures Holders(Done(s, u).users, live[0]) == 0
  {
    HeadIsLive(s, live, u);
    hide Holders, EnabledCount, Release;
    LastHolderIsOldest(s.users, live, u, |live| - |s.users[u].Pending()|);
    hide Counted;
    LetGoSuffix(s, live, u);
    LetGoCounts(s, live, u);
    ReleaseCounted(s, LetGo(s, u), live, 0);
    RestSuffixes(LetGo(s, u), live);
  }

  lemma LetGoCounts(s: Share, live: seq<Frame>, u: nat)
    requires Inv(s, live) && u < |s.users| && s.users[u].hand != []
    ensures var k := |live| - |s.users[u].Pending()|;
      forall j :: 0 <= j < |live| ==>
        Holders(LetGo(s, u).users, live[j]) == Holders(s.users, live[j]) - (if j == k then 1 else 0)
  {
    hide Holders, EnabledCount;
    HeadIsLive(s, live, u);
    forall j | 0 <= j < |live|
      ensures var k := |live| - |s.users[u].Pending()|;
        Holders(LetGo(s, u).users, live[j]) == Holders(s.users, live[j]) - (if j == k then 1 else 0)
    {
      LetGoHolders(s, live, u, live[j]);
    }
  }

  /** Moving rp on by one shifts every other slot down. */
  lemma ShiftedSlots(s: Share, s': Share, live: seq<Frame>)
    requires s.WellSized() && 0 < |live| < |s.slots| && s.wp == (s.rp + |live|) % |s.slots|
    requires |s'.slots| == |s.slots| && s'.rp == s.Next(s.rp) && s'.wp == s.wp
    requires s'.slots == s.slots[s.rp := s'.slots[s.rp]]
    ensures s'.WellSized() && s'.wp == (s'.rp + (|live| - 1)) % |s'.slots|
    ensures forall j :: 0 <= j < |live| - 1 ==> s'.At(j) == s.At(j + 1)
  {
    var q := |s.slots|;
    RotatedSlot(q, s.rp, |live| - 1);
    ModWrap(q, s.rp);
    forall j | 0 <= j < |live| - 1 ensures s'.At(j) == s.At(j + 1) {
      RotatedSlot(q, s.rp, j);
      SlotsDistinct(q, s.rp, j + 1, 0);
    }
  }

  lemma RestSuffixes(s: Share, live: seq<Frame>)
    requires live != [] && Holders(s.users, live[0]) == 0
    requires forall i :: 0 <= i < |s.users| ==> IsSuffix(s.users[i].Pending(), live)
    ensures forall i :: 0 <= i < |s.users| ==> IsSuffix(s.users[i].Pending(), live[1..])
  {
    HoldersPositive(s.users, live[0]);
    forall i | 0 <= i < |s.users| ensures IsSuffix(s.users[i].Pending(), live[1..]) {
      OlderGone(s.users[i].Pending(), live);
    }
  }

  lemma OlderGone(p: seq<Frame>, live: seq<Frame>)
    requires IsSuffix(p, live) && live != [] && live[0] !in p
    ensures IsSuffix(p, live[1..])
  {
    assert live[0] in live && live[0..] == live;
  }

  lemma RotatedSlot(q: nat, rp: nat, j: nat)
    requires rp < q && j + 1 < q
    ensures ((rp + 1) % q + j) % q == (rp + (j + 1)) % q
  {
    ModWrap(q, rp + 1);
    ModWrap(q, rp + (j + 1));
    ModWrap(q, (rp + 1) % q + j);
  }

  /** A user's release, whichever case it is: the callback log and the live list move together. */
  lemma DoneKeepsInv(s: Share, live: seq<Frame>, u: nat)
    requires Inv(s, live) && u < |s.users| && s.users[u].hand != []
    ensures || (Done(s, u).freed == s.freed && Inv(Done(s, u), live))
            || (live != [] && Done(s, u).freed == s.freed + [live[0]] && Inv(Done(s, u), live[1..]))
  {
    HeadIsLive(s, live, u);
    hide EnabledCount, Done;
    assert Holders(s.users, s.users[u].hand[0]) > 0;
    hide Holders, Inv;
    if Holders(s.users, s.users[u].hand[0]) == 1 {
      DoneLastKeepsInv(s, live, u);
    } else {
      DoneSharedKeepsInv(s, live, u);
    }
  }

  lemma RecvThenLetGo(s: Share, u: nat)
    requires u < |s.users| && s.users[u].hand == [] && s.users[u].queue != []
    ensures Recv(s, u).users[u].hand == [s.users[u].queue[0]]
    ensures LetGo(Recv(s, u), u) == Popped(s, u)
  {
    var f := s.users[u].queue[0];
    assert [f][1..] == [];
  }

  // ----- draining -----

  /** A release changes no frame pointer and no write position. */
  lemma ReleaseKeepsFrames(s: Share, f: Frame)
    requires s.WellSized()
    ensures SameRing(s, Release(s, f).0)
  {
  }

  predicate SameRing(s: Share, s': Share) {
    && s'.wp == s.wp && |s'.slots| == |s.slots|
    && forall i :: 0 <= i < |s.slots| ==> s'.slots[i].frame == s.slots[i].frame
  }

  /** The slot t + 1 places before the write position. */
  function Behind(q: nat, wp: nat, t: nat): (i: nat)
    requires t < q
    ensures i < q
  { (wp + (q - 1 - t)) % q }

  /** The live frames, counted from the write position back. */
  lemma FrameFromBack(s: Share, live: seq<Frame>, t: nat)
    requires s.WellSized() && |live| < |s.slots| && s.wp == (s.rp + |live|) % |s.slots| && t < |live|
    requires forall j :: 0 <= j < |live| ==> s.At(j).frame == live[j]
    ensures s.slots[Behind(|s.slots|, s.wp, t)].frame == live[|live| - 1 - t]
  {
    var q, j := |s.slots|, |live| - 1 - t;
    ModWrap(q, s.rp + |live|);
    ModWrap(q, s.wp + (q - 1 - t));
    ModWrap(q, s.rp + j);
    assert s.At(j).frame == live[j];
  }

  /** The frames a user still has lie in the last slots before the write position, and differ. */
  lemma PendingSlot(s: Share, live: seq<Frame>, u: nat, i: nat)
    requires Inv(s, live) && u < |s.users| && i < |s.users[u].Pending()|
    ensures var p := s.users[u].Pending();
      && |p| <= |s.slots| && s.slots[Behind(|s.slots|, s.wp, |p| - 1 - i)].frame == p[i]
      && forall k :: 0 <= k < |p| && k != i ==> p[k] != p[i]
  {
    hide Holders, EnabledCount;
    var p := s.users[u].Pending();
    assert IsSuffix(p, live);
    FrameFromBack(s, live, |p| - 1 - i);
    assert forall k :: 0 <= k < |p| ==> p[k] == live[|live| - |p| + k];
  }

  /** A user that passes over a frame, keeping an older one in hand, fits no list of live frames. */
  lemma PassedOver(s: Share, live: seq<Frame>, s': Share, live': seq<Frame>, u: nat, j: nat)
    requires Inv(s, live) && u < |s.users| && s.users[u].hand != [] && 0 < j <= |s.users[u].queue|
    requires SameRing(s, s') && |s'.users| == |s.users|
    requires s'.users[u].Pending() == s.users[u].hand + s.users[u].queue[j..]
    ensures !Inv(s', live')
  {
    hide Behind, Holders, EnabledCount;
    var h := |s.users[u].hand|;
    PendingSlot(s, live, u, h + j - 1);
    assert s.users[u].Pending()[h - 1] == s.users[u].hand[h - 1];
    if Inv(s', live') {
      PendingSlot(s', live', u, h - 1);
      assert false;
    }
  }

  /** One pass of the drain keeps the invariant, and frees in order, exactly when the user has
      nothing in hand. */
  lemma DrainOneKeepsInvIff(s: Share, live: seq<Frame>, u: nat) returns (live': seq<Frame>)
    requires Inv(s, live) && u < |s.users| && s.users[u].queue != []
    ensures DrainOne(s, u).users == Popped(s, u).users && DrainOne(s, u).WellSized()
    ensures if s.users[u].hand == [] then
              Inv(DrainOne(s, u), live') && DrainOne(s, u).freed + live' == s.freed + live
              && (live' == live || (live != [] && live' == live[1..]))
            else forall l :: !Inv(DrainOne(s, u), l)
  {
    live' := live;
    var f := s.users[u].queue[0];
    ReleaseKeepsUsers(Popped(s, u), f);
    ReleaseKeepsFrames(Popped(s, u), f);
    if s.users[u].hand == [] {
      live' := DrainOneKeepsInv(s, live, u);
    } else {
      hide Inv, Release;
      forall l ensures !Inv(DrainOne(s, u), l) {
        PassedOver(s, live, DrainOne(s, u), l, u, 1);
      }
    }
  }

  /** Taking a message straight off the queue and releasing it is a receive and a release. */
  lemma DrainOneKeepsInv(s: Share, live: seq<Frame>, u: nat) returns (live': seq<Frame>)
    requires Inv(s, live) && u < |s.users| && s.users[u].hand == [] && s.users[u].queue != []
    ensures Inv(DrainOne(s, u), live') && DrainOne(s, u).freed + live' == s.freed + live
    ensures live' == live || (live != [] && live' == live[1..])
  {
    hide Inv, Release, Recv, Done, DrainOne;
    var r := Recv(s, u);
    RecvKeepsInv(s, live, u);
    RecvThenDone(s, live, u);
    DoneKeepsInv(r, live, u);
    live' := if Done(r, u).freed == s.freed then live else live[1..];
    if Done(r, u).freed != s.freed {
      assert s.freed + [live[0]] + live' == s.freed + live;
    }
  }

  lemma RecvThenDone(s: Share, live: seq<Frame>, u: nat)
    requires Inv(s, live) && u < |s.users| && s.users[u].hand == [] && s.users[u].queue != []
    ensures s.WellSized() && Recv(s, u).WellSized()
    ensures u < |Recv(s, u).users| && Recv(s, u).users[u].hand != []
    ensures DrainOne(s, u) == Done(Recv(s, u), u)
  {
    hide Release, Holders, EnabledCount;
    RecvThenLetGo(s, u);
  }

  lemma {:induction false} DrainKeepsFrames(s: Share, u: nat)
    requires s.WellSized() && u < |s.users|
    ensures SameRing(s, Drain(s, u))
    decreases |s.users[u].queue|
  {
    if s.users[u].queue != [] {
      ReleaseKeepsUsers(Popped(s, u), s.users[u].queue[0]);
      ReleaseKeepsFrames(Popped(s, u), s.users[u].queue[0]);
      hide Release;
      DrainKeepsFrames(DrainOne(s, u), u);
    }
  }

  lemma {:induction false} DrainKeepsInv(s: Share, live: seq<Frame>, u: nat) returns (live': seq<Frame>)
    requires Inv(s, live) && u < |s.users| && s.users[u].hand == []
    ensures Inv(Drain(s, u), live') && Drain(s, u).freed + live' == s.freed + live
    decreases |s.users[u].queue|
  {
    live' := live;
    if s.users[u].queue != [] {
      var live1 := DrainOneKeepsInvIff(s, live, u);
      hide DrainOne, Inv;
      live' := DrainKeepsInv(DrainOne(s, u), live1, u);
    }
  }

  /** Draining a whole queue keeps the invariant, and frees in order, exactly when the user has
      nothing in hand or there is nothing to drain. */
  lemma DrainKeepsInvIff(s: Share, live: seq<Frame>, u: nat) returns (live': seq<Frame>)
    requires Inv(s, live) && u < |s.users|
    ensures if s.users[u].hand == [] || s.users[u].queue == []
            then Inv(Drain(s, u), live') && Drain(s, u).freed + live' == s.freed + live
            else forall l :: !Inv(Drain(s, u), l)
  {
    live' := live;
    if s.users[u].hand == [] {
      live' := DrainKeepsInv(s, live, u);
    } else if s.users[u].queue != [] {
      DrainKeepsFrames(s, u);
      assert Drain(s, u).users[u].Pending() == s.users[u].hand + s.users[u].queue[|s.users[u].queue|..];
      hide Inv, Drain;
      forall l ensures !Inv(Drain(s, u), l) {
        PassedOver(s, live, Drain(s, u), l, u, |s.users[u].queue|);
      }
    }
  }

  /** Switching a user off and draining it at once: what is kept, and exactly when. */
  lemma DisableAndDrainKeepsInvIff(s: Share, live: seq<Frame>, u: nat) returns (live': seq<Frame>)
    requires Inv(s, live) && u < |s.users|
    ensures var s' := Drain(SetEnable(s, u, false), u);
      if s.users[u].hand == [] || s.users[u].queue == [] then
        && Inv(s', live') && s'.freed + live' == s.freed + live
        && (OffMeansDrained(s.users) && s.users[u].hand == [] ==> OffMeansDrained(s'.users))
      else forall l :: !Inv(s', l)
  {
    hide Inv, EnabledCount;
    assert s.(validCount := EnabledCount(s.users)) == s by { CountedUsers(s, live); }
    SetEnableKeepsInv(s, live, u, false);
    live' := DrainKeepsInvIff(SetEnable(s, u, false), live, u);
  }

  lemma CountedUsers(s: Share, live: seq<Frame>)
    requires Inv(s, live)
    ensures s.WellSized() && s.validCount == EnabledCount(s.users)
  {
  }

  function Emptied(s: Share, u: nat): Share
    requires u < |s.users|
  { s.(users := s.users[u := s.users[u].(queue := [])]) }

  /** Emptying a queue takes one holder off its newest frame. */
  lemma EmptiedHolders(s: Share, live: seq<Frame>, u: nat)
    requires Inv(s, live) && u < |s.users| && s.users[u].queue != []
    ensures live != []
    ensures Holders(Emptied(s, u).users, live[|live| - 1]) == Holders(s.users, live[|live| - 1]) - 1
  {
    hide Holders, EnabledCount;
    var p, hand := s.users[u].Pending(), s.users[u].hand;
    assert IsSuffix(p, live);
    var f := live[|live| - 1];
    PendingSlot(s, live, u, |p| - 1);
    assert p[|p| - 1] == f;
    assert forall i :: 0 <= i < |hand| ==> hand[i] == p[i];
    assert Emptied(s, u).users[u].Pending() == hand;
    HoldersUpdate(s.users, u, Emptied(s, u).users[u], f);
  }

  lemma CountIsHolders(s: Share, live: seq<Frame>)
    requires Inv(s, live)
    ensures s.WellSized() && s.LiveCount() == |live|
    ensures live != [] ==> s.At(|live| - 1).refCount == Holders(s.users, live[|live| - 1])
  {
    LiveCountIsLength(s, live);
  }

  /** A queue emptied without releases: the counts still match the holders exactly when it was
      empty before. */
  lemma EmptiedKeepsInvIff(s: Share, live: seq<Frame>, u: nat)
    requires Inv(s, live) && u < |s.users|
    ensures (exists l :: Inv(Emptied(s, u), l)) <==> s.users[u].queue == []
  {
    var s' := Emptied(s, u);
    hide Holders, EnabledCount;
    FramesUnique(s, live);
    CountIsHolders(s, live);
    hide Inv;
    if s.users[u].queue == [] {
      assert s' == s;
    } else if l :| Inv(s', l) {
      FramesUnique(s', l);
      CountIsHolders(s', l);
      EmptiedHolders(s, live, u);
      SameSlotsSameFrames(s, s');
      hide Share.Frames, Share.LiveCount, Share.At;
      assert false;
    }
  }

  lemma SameSlotsSameFrames(s: Share, s': Share)
    requires s.WellSized() && s'.slots == s.slots && s'.rp == s.rp && s'.wp == s.wp
    ensures s'.Frames() == s.Frames() && forall j: nat :: s'.At(j) == s.At(j)
  {
  }
}
