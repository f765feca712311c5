/** The fan-out queue in its own form: slots, pointers and users that change in place. Each
    method is what one thread does without giving up the lock; a full ring makes `Add` and
    `AddWhenRoom` return, and the producer waits. */
module ShareQueues {
  import opened ShareQueueModel

  class ShareQueue {
    const items: array<Slot>
    const users: array<User>
    var rp: nat
    var wp: nat
    var validCount: nat
    ghost var freed: seq<Frame>

    ghost function State(): Share
      reads this, items, users
    { Share(items[..], rp, wp, validCount, users[..], freed) }

    ghost predicate Valid()
      reads this, items, users
    { State().WellSized() }

    /** Message queues are supplied from outside, so no user counts until it is switched on. */
    constructor (qCount: nat, userCount: nat)
      requires qCount > 0
      ensures Valid() && fresh(items) && fresh(users) && items.Length == qCount && users.Length == userCount
      ensures rp == wp == validCount == 0 && freed == []
      ensures forall i :: 0 <= i < userCount ==> users[i] == User(false, [], [])
    {
      items := new Slot[qCount](_ => Slot(0, 0));
      users := new User[userCount](_ => User(false, [], []));
      rp, wp, validCount, freed := 0, 0, 0, [];
    }

    /** Up to the wait: `valid_count` is tested here and not again. `added` is false when the ring
        is full. */
    method Add(f: Frame) returns (added: bool)
      requires Valid()
      modifies this, items, users
      ensures Valid()
      ensures added <==> old(validCount) == 0 || !old(State().Full())
      ensures State() == if added then ShareQueueModel.Add(old(State()), f) else old(State())
    {
      if validCount == 0 {
        freed := freed + [f];
        return true;
      }
      added := AddWhenRoom(f);
    }

    /** One pass of the wait loop, and the store when there is room. */
    method AddWhenRoom(f: Frame) returns (added: bool)
      requires Valid()
      modifies this, items, users
      ensures Valid()
      ensures added <==> !old(State().Full())
      ensures State() == if added then Store(old(State()), f) else old(State())
    {
      var nextWp := (wp + 1) % items.Length;
      if nextWp == rp {
        return false;
      }
      ghost var before := users[..];
      items[wp] := Slot(validCount, f);
      wp := nextWp;
      for i := 0 to users.Length
        modifies users
        invariant forall k :: 0 <= k < i ==> users[k] == Pushed(before[k], f)
        invariant forall k :: i <= k < users.Length ==> users[k] == before[k]
      {
        if users[i].enable {
          users[i] := users[i].(queue := users[i].queue + [f]);
        }
      }
      assert users[..] == PushAll(before, f);
      added := true;
    }

    method Recv(u: nat) returns (f: Frame)
      requires Valid() && u < users.Length && users[u].queue != []
      modifies users
      ensures Valid() && f == old(users[u].queue[0])
      ensures State() == ShareQueueModel.Recv(old(State()), u)
    {
      f := users[u].queue[0];
      users[u] := users[u].(queue := users[u].queue[1..], hand := users[u].hand + [f]);
      assert users[..] == ShareQueueModel.Recv(old(State()), u).users;
    }

    /** Looks for the frame from rp on and drops one reference. */
    method Release(f: Frame) returns (ret: int)
      requires Valid()
      modifies this, items
      ensures Valid() && users[..] == old(users[..])
      ensures (State(), ret) == ShareQueueModel.Release(old(State()), f)
    {
      ghost var s, k := State(), 0;
      var r := rp;
      PointersMeet(items.Length, rp, wp, 0);
      ModWrap(items.Length, rp);
      while r != wp
        invariant k <= s.LiveCount() && r == (rp + k) % items.Length
        invariant r == wp <==> k == s.LiveCount()
        invariant FindFrom(s, f, 0) == FindFrom(s, f, k) && State() == s && k >= 0
        decreases s.LiveCount() - k
      {
        assert k < s.LiveCount() && items[r] == s.At(k);
        if items[r].frame == f {
          assert FindFrom(s, f, 0) == k;
          items[r] := Slot(items[r].refCount - 1, items[r].frame);
          assert items[..] == s.slots[r := Slot(s.At(k).refCount - 1, f)];
          if items[r].refCount == 0 {
            freed := freed + [f];
            rp := (rp + 1) % items.Length;
          }
          return 0;
        }
        ModStep(items.Length, rp, k);
        r, k := (r + 1) % items.Length, k + 1;
        PointersMeet(items.Length, rp, wp, k);
      }
      ret := -1;
    }

    /** The locked part of switching a user on or off. */
    method Switch(u: nat, on: bool)
      requires Valid() && u < users.Length
      modifies this`validCount, users
      ensures Valid() && State() == SetEnable(old(State()), u, on)
    {
      users[u] := users[u].(enable := on);
      var count := 0;
      for i := 0 to users.Length
        invariant count + EnabledCount(users[i..]) == EnabledCount(users[..])
      {
        assert users[i..][0] == users[i] && users[i..][1..] == users[i + 1..];
        if users[i].enable {
          count := count + 1;
        }
      }
      assert users[users.Length..] == [] && users[0..] == users[..];
      validCount := count;
      assert users[..] == SetEnable(old(State()), u, on).users;
    }

    /** One pass of the drain loop, which runs without the lock; `more` is false when the queue was
        empty. */
    method DrainPass(u: nat) returns (more: bool)
      requires Valid() && u < users.Length
      modifies this, items, users
      ensures Valid() && more == (old(users[u].queue) != [])
      ensures State() == if more then DrainOne(old(State()), u) else old(State())
    {
      more := users[u].queue != [];
      if more {
        var f := users[u].queue[0];
        users[u] := users[u].(queue := users[u].queue[1..]);
        assert State() == Popped(old(State()), u);
        var _ := Release(f);
      }
    }

    /** Switching a user off also drains its queue; here nobody else runs in between. */
    method Enable(u: nat, on: bool)
      requires Valid() && u < users.Length
      modifies this, items, users
      ensures Valid()
      ensures State() == var s := SetEnable(old(State()), u, on); if on then s else Drain(s, u)
    {
      Switch(u, on);
      if !on {
        ghost var s := State();
        var more := true;
        while more
          invariant Valid() && Drain(State(), u) == Drain(s, u)
          invariant !more ==> users[u].queue == []
          decreases |users[u].queue|, more
        {
          ghost var before := State();
          assert users[..][u] == users[u];
          more := DrainPass(u);
          assert more ==> State().users == Popped(before, u).users;
          assert State().users[u] == users[u];
        }
      }
    }
  }

  /** Walking k slots on from rp meets wp exactly after all live ones. */
  lemma PointersMeet(q: nat, rp: nat, wp: nat, k: nat)
    requires rp < q && wp < q && k <= (wp + q - rp) % q
    ensures (rp + k) % q == wp <==> k == (wp + q - rp) % q
  {
    ModWrap(q, rp + k);
    ModWrap(q, wp + q - rp);
  }

  lemma ModStep(q: nat, rp: nat, k: nat)
    requires rp < q && k < q
    ensures ((rp + k) % q + 1) % q == (rp + (k + 1)) % q
  {
    ModWrap(q, rp + k);
    if k + 1 < q {
      ModWrap(q, rp + (k + 1));
    }
    ModWrap(q, (rp + k) % q + 1);
    assert k + 1 == q ==> (rp + q) % q == rp by { assert rp + q == q * 1 + rp; ModWrap(q, rp + q); }
  }
}
