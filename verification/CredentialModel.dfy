/** The three-slot WiFi credential store over a key-value store that does not fail. */
module CredentialModel {
  import opened Wrappers

  const SLOTS: nat := 3
  const SSID_LEN: nat := 33        // buffer sizes, terminator included
  const PASSWORD_LEN: nat := 65

  datatype Key = Ssid(slot: nat) | Password(slot: nat)
  type Nvs = map<Key, string>

  /** Reading into a buffer: a string that does not fit with its terminator is not read. */
  function Read(nvs: Nvs, key: Key, capacity: nat): Option<string> {
    if key in nvs && |nvs[key]| + 1 <= capacity then Some(nvs[key]) else None
  }

  /** The first slot from i on whose name reads as ssid; SLOTS if none. */
  function FindSsid(nvs: Nvs, ssid: string, i: nat): (k: nat)
    requires i <= SLOTS
    ensures i <= k <= SLOTS
    ensures k < SLOTS ==> Read(nvs, Ssid(k), SSID_LEN) == Some(ssid)
    ensures forall j :: i <= j < k ==> Read(nvs, Ssid(j), SSID_LEN) != Some(ssid)
    decreases SLOTS - i
  {
    if i == SLOTS || Read(nvs, Ssid(i), SSID_LEN) == Some(ssid) then i else FindSsid(nvs, ssid, i + 1)
  }

  /** The first empty slot from i on; SLOTS if none. */
  function FindEmpty(nvs: Nvs, i: nat): (k: nat)
    requires i <= SLOTS
    ensures i <= k <= SLOTS
    ensures k < SLOTS ==> Ssid(k) !in nvs
    ensures forall j :: i <= j < k ==> Ssid(j) in nvs
    decreases SLOTS - i
  {
    if i == SLOTS || Ssid(i) !in nvs then i else FindEmpty(nvs, i + 1)
  }

  function Put(nvs: Nvs, slot: nat, ssid: string, password: string): Nvs {
    nvs[Ssid(slot) := ssid][Password(slot) := password]
  }

  /** Copies slot i down by one if both its strings can be read. */
  function ShiftOne(nvs: Nvs, i: nat): Nvs
    requires i > 0
  {
    var s, p := Read(nvs, Ssid(i), SSID_LEN), Read(nvs, Password(i), PASSWORD_LEN);
    if s.Some? && p.Some? then Put(nvs, i - 1, s.value, p.value) else nvs
  }

  function ShiftFrom(nvs: Nvs, i: nat): Nvs
    requires 0 < i <= SLOTS
    decreases SLOTS - i
  { if i == SLOTS then nvs else ShiftFrom(ShiftOne(nvs, i), i + 1) }

  function Erased(nvs: Nvs, slot: nat): Nvs { nvs - {Ssid(slot), Password(slot)} }

  /** An empty name is refused. A known name gets its new password, a new one the first empty slot,
      or the oldest network makes room. */
  function Save(nvs: Nvs, ssid: string, password: string): Nvs {
    if ssid == "" then nvs
    else
      var known, empty := FindSsid(nvs, ssid, 0), FindEmpty(nvs, 0);
      if known < SLOTS then nvs[Password(known) := password]
      else if empty < SLOTS then Put(nvs, empty, ssid, password)
      else Put(ShiftFrom(Erased(nvs, 0), 1), SLOTS - 1, ssid, password)
  }

  function Saved(nvs: Nvs, i: int): Option<(string, string)> {
    if i < 0 || i >= SLOTS then None
    else
      var s, p := Read(nvs, Ssid(i), SSID_LEN), Read(nvs, Password(i), PASSWORD_LEN);
      if s.Some? && p.Some? then Some((s.value, p.value)) else None
  }

  function Delete(nvs: Nvs, ssid: string): (Nvs, bool) {
    var k := FindSsid(nvs, ssid, 0);
    if ssid == "" || k == SLOTS then (nvs, false) else (Erased(nvs, k), Password(k) in nvs)
  }

  function DeleteAll(nvs: Nvs): Nvs { Erased(Erased(Erased(nvs, 0), 1), 2) }

  // ----- over whole runs -----

  datatype Op = OpSave(ssid: string, password: string) | OpDelete(name: string) | OpDeleteAll

  function Step(nvs: Nvs, op: Op): Nvs {
    match op
    case OpSave(s, p) => Save(nvs, s, p)
    case OpDelete(s) => Delete(nvs, s).0
    case OpDeleteAll => DeleteAll(nvs)
  }

  function Run(nvs: Nvs, ops: seq<Op>): Nvs
    decreases |ops|
  { if ops == [] then nvs else Run(Step(nvs, ops[0]), ops[1..]) }

  /** Lengths within the buffers. */
  predicate Fits(op: Op) {
    op.OpSave? ==> |op.ssid| <= 32 && |op.password| <= 64
  }

  /** Every slot is empty or whole and readable, and no name is there twice. */
  predicate Inv(nvs: Nvs) {
    && (forall i :: 0 <= i < SLOTS ==> (Ssid(i) in nvs <==> Password(i) in nvs))
    && (forall i :: 0 <= i < SLOTS && Ssid(i) in nvs ==> nvs[Ssid(i)] != "" && Saved(nvs, i).Some?)
    && (forall i, j :: 0 <= i < j < SLOTS && Ssid(i) in nvs && Ssid(j) in nvs ==> nvs[Ssid(i)] != nvs[Ssid(j)])
  }

  lemma ShiftedFull(nvs: Nvs)
    requires Inv(nvs) && forall i :: 0 <= i < SLOTS ==> Ssid(i) in nvs
    ensures var m := ShiftFrom(Erased(nvs, 0), 1);
      forall i :: 0 <= i < SLOTS ==>
        var from := if i < 2 then i + 1 else 2;
        Ssid(i) in m && Password(i) in m && m[Ssid(i)] == nvs[Ssid(from)] && m[Password(i)] == nvs[Password(from)]
  {
    var m0 := Erased(nvs, 0);
    assert Saved(nvs, 1).Some? && Saved(nvs, 2).Some?;
    var m1 := ShiftOne(m0, 1);
    assert m1 == Put(m0, 0, nvs[Ssid(1)], nvs[Password(1)]);
    var m2 := ShiftOne(m1, 2);
    assert m2 == Put(m1, 1, nvs[Ssid(2)], nvs[Password(2)]);
    assert ShiftFrom(m0, 1) == ShiftFrom(m1, 2) == ShiftFrom(m2, 3) == m2;
  }

  lemma PutKeepsInv(nvs: Nvs, slot: nat, ssid: string, password: string)
    requires Inv(nvs) && slot < SLOTS && Ssid(slot) !in nvs && ssid != "" && |ssid| < SSID_LEN
        && |password| < PASSWORD_LEN
    requires forall i :: 0 <= i < SLOTS && Ssid(i) in nvs ==> nvs[Ssid(i)] != ssid
    ensures Inv(Put(nvs, slot, ssid, password)) && Saved(Put(nvs, slot, ssid, password), slot) == Some((ssid, password))
  {
    var m := Put(nvs, slot, ssid, password);
    forall i | 0 <= i < SLOTS && i != slot && Ssid(i) in m ensures Saved(m, i) == Saved(nvs, i) {
    }
  }

  lemma ReplaceKeepsInv(nvs: Nvs, ssid: string, password: string)
    requires Inv(nvs) && ssid != "" && |ssid| < SSID_LEN && |password| < PASSWORD_LEN
    requires forall i :: 0 <= i < SLOTS ==> Ssid(i) in nvs && nvs[Ssid(i)] != ssid
    ensures var m := Put(ShiftFrom(Erased(nvs, 0), 1), SLOTS - 1, ssid, password);
      Inv(m) && Saved(m, SLOTS - 1) == Some((ssid, password))
  {
    ShiftedFull(nvs);
    hide ShiftFrom, Erased;
    assert Saved(nvs, 1).Some? && Saved(nvs, 2).Some?;
  }

  lemma SaveKeepsInv(nvs: Nvs, ssid: string, password: string)
    requires Inv(nvs) && |ssid| < SSID_LEN && |password| < PASSWORD_LEN
    ensures Inv(Save(nvs, ssid, password))
    ensures ssid != "" ==> exists i :: 0 <= i < SLOTS && Saved(Save(nvs, ssid, password), i) == Some((ssid, password))
  {
    if ssid != "" {
      var known, empty := FindSsid(nvs, ssid, 0), FindEmpty(nvs, 0);
      assert forall i :: 0 <= i < SLOTS && Ssid(i) in nvs ==> Saved(nvs, i).Some?;
      if known < SLOTS {
        assert Saved(Save(nvs, ssid, password), known) == Some((ssid, password));
      } else if empty < SLOTS {
        PutKeepsInv(nvs, empty, ssid, password);
      } else {
        ReplaceKeepsInv(nvs, ssid, password);
      }
    }
  }

  predicate Full(nvs: Nvs) { forall i :: 0 <= i < SLOTS ==> Ssid(i) in nvs }

  predicate Known(nvs: Nvs, ssid: string) { exists i :: 0 <= i < SLOTS && Ssid(i) in nvs && nvs[Ssid(i)] == ssid }

  predicate Stored(nvs: Nvs, n: (string, string)) { exists i :: 0 <= i < SLOTS && Saved(nvs, i) == Some(n) }

  /** Saving a network costs another one its place exactly when the name is new, the store is full
      and the other sits in the oldest slot; holes left by deletes are used first. */
  lemma SaveDropsOnlyOldest(nvs: Nvs, ssid: string, password: string, i: nat)
    requires Inv(nvs) && ssid != "" && |ssid| < SSID_LEN && |password| < PASSWORD_LEN
    requires i < SLOTS && Ssid(i) in nvs && nvs[Ssid(i)] != ssid
    ensures Stored(Save(nvs, ssid, password), (nvs[Ssid(i)], nvs[Password(i)]))
            <==> !(i == 0 && Full(nvs) && !Known(nvs, ssid))
  {
    var known, empty, m := FindSsid(nvs, ssid, 0), FindEmpty(nvs, 0), Save(nvs, ssid, password);
    var n := (nvs[Ssid(i)], nvs[Password(i)]);
    assert forall j :: 0 <= j < SLOTS && Ssid(j) in nvs ==> Saved(nvs, j) == Some((nvs[Ssid(j)], nvs[Password(j)]));
    hide ShiftFrom, Erased;
    if known < SLOTS || empty < SLOTS {
      assert Saved(m, i) == Some(n);
    } else {
      ReplaceDropsOldest(nvs, ssid, password, i);
    }
  }

  lemma ReplaceDropsOldest(nvs: Nvs, ssid: string, password: string, i: nat)
    requires Inv(nvs) && Full(nvs) && i < SLOTS && nvs[Ssid(i)] != ssid
    ensures var m := Put(ShiftFrom(Erased(nvs, 0), 1), SLOTS - 1, ssid, password);
      Stored(m, (nvs[Ssid(i)], nvs[Password(i)])) <==> i > 0
  {
    ShiftedFull(nvs);
    hide ShiftFrom, Erased;
    var m, n := Put(ShiftFrom(Erased(nvs, 0), 1), SLOTS - 1, ssid, password), (nvs[Ssid(i)], nvs[Password(i)]);
    assert forall j :: 0 <= j < SLOTS ==> Saved(nvs, j) == Some((nvs[Ssid(j)], nvs[Password(j)]));
    if i > 0 {
      assert Saved(m, i - 1) == Some(n);
    } else {
      assert forall j :: 0 <= j < SLOTS ==> m[Ssid(j)] != n.0;
    }
  }

  lemma DeleteKeepsInv(nvs: Nvs, ssid: string)
    requires Inv(nvs)
    ensures Inv(Delete(nvs, ssid).0)
    ensures Delete(nvs, ssid).1 <==> ssid != "" && exists i :: 0 <= i < SLOTS && Ssid(i) in nvs && nvs[Ssid(i)] == ssid
    ensures ssid != "" ==>
      forall i :: 0 <= i < SLOTS && Ssid(i) in Delete(nvs, ssid).0 ==> Delete(nvs, ssid).0[Ssid(i)] != ssid
    ensures forall i :: 0 <= i < SLOTS && Ssid(i) in nvs && nvs[Ssid(i)] != ssid ==>
      Saved(Delete(nvs, ssid).0, i) == Saved(nvs, i)
  {
    var k := FindSsid(nvs, ssid, 0);
    assert forall i :: 0 <= i < SLOTS && Ssid(i) in nvs ==> Saved(nvs, i).Some?;
  }

  /** Over every run of saves and deletes the names stay pairwise distinct and whole. */
  lemma {:induction false} RunKeepsInv(nvs: Nvs, ops: seq<Op>)
    requires Inv(nvs) && forall op <- ops :: Fits(op)
    ensures Inv(Run(nvs, ops))
    decreases |ops|
  {
    if ops != [] {
      assert ops[0] in ops;
      match ops[0] {
        case OpSave(s, p) => SaveKeepsInv(nvs, s, p);
        case OpDelete(s) => DeleteKeepsInv(nvs, s);
        case OpDeleteAll =>
      }
      RunKeepsInv(Step(nvs, ops[0]), ops[1..]);
    }
  }

  /** A saved network can be read back exactly when both strings fit their buffers; the code does
      not check the lengths it is given. */
  lemma SavedReadableIff(nvs: Nvs, ssid: string, password: string)
    requires Inv(nvs) && ssid != ""
    ensures (exists i :: 0 <= i < 3 && Saved(Save(nvs, ssid, password), i) == Some((ssid, password)))
            <==> |ssid| <= 32 && |password| <= 64
  {
    if |ssid| < SSID_LEN && |password| < PASSWORD_LEN {
      SaveKeepsInv(nvs, ssid, password);
    }
  }

  // ----- runs of saves alone: a list of the last three names -----

  type Network = (string, string)

  function IndexOf(l: seq<Network>, ssid: string): (k: nat)
    ensures k <= |l|
    ensures k < |l| ==> l[k].0 == ssid
    ensures forall j :: 0 <= j < k ==> l[j].0 != ssid
  {
    if l == [] || l[0].0 == ssid then 0 else 1 + IndexOf(l[1..], ssid)
  }

  function SaveList(l: seq<Network>, ssid: string, password: string): seq<Network> {
    var k := IndexOf(l, ssid);
    if ssid == "" then l
    else if k < |l| then l[k := (ssid, password)]
    else if |l| < SLOTS then l + [(ssid, password)]
    else l[1..] + [(ssid, password)]
  }

  /** The slots hold exactly the list, from slot 0 on. */
  predicate HoldsList(nvs: Nvs, l: seq<Network>) {
    && |l| <= SLOTS
    && (forall i :: 0 <= i < |l| ==>
          Ssid(i) in nvs && nvs[Ssid(i)] == l[i].0 && Password(i) in nvs && nvs[Password(i)] == l[i].1)
    && (forall i :: |l| <= i < SLOTS ==> Ssid(i) !in nvs && Password(i) !in nvs)
  }

  lemma SearchesAgree(nvs: Nvs, l: seq<Network>, ssid: string)
    requires Inv(nvs) && HoldsList(nvs, l) && ssid != ""
    ensures FindEmpty(nvs, 0) == |l|
    ensures FindSsid(nvs, ssid, 0) == if IndexOf(l, ssid) < |l| then IndexOf(l, ssid) else SLOTS
  {
    assert forall i :: 0 <= i < |l| ==> Saved(nvs, i) == Some(l[i]);
  }

  lemma SaveRefinesList(nvs: Nvs, l: seq<Network>, ssid: string, password: string)
    requires Inv(nvs) && HoldsList(nvs, l)
    ensures HoldsList(Save(nvs, ssid, password), SaveList(l, ssid, password))
  {
    if ssid != "" {
      SearchesAgree(nvs, l, ssid);
      hide FindSsid, FindEmpty, HoldsList;
      var k := IndexOf(l, ssid);
      if k < |l| {
        UpdateHolds(nvs, l, k, password);
      } else if |l| < SLOTS {
        PutHolds(nvs, l, (ssid, password));
      } else {
        ReplaceHolds(nvs, l, (ssid, password));
      }
    }
  }

  lemma UpdateHolds(nvs: Nvs, l: seq<Network>, k: nat, password: string)
    requires HoldsList(nvs, l) && k < |l|
    ensures HoldsList(nvs[Password(k) := password], l[k := (l[k].0, password)])
  {
  }

  lemma PutHolds(nvs: Nvs, l: seq<Network>, n: Network)
    requires HoldsList(nvs, l) && |l| < SLOTS
    ensures HoldsList(Put(nvs, |l|, n.0, n.1), l + [n])
  {
  }

  lemma ReplaceHolds(nvs: Nvs, l: seq<Network>, n: Network)
    requires Inv(nvs) && HoldsList(nvs, l) && |l| == SLOTS
    ensures HoldsList(Put(ShiftFrom(Erased(nvs, 0), 1), SLOTS - 1, n.0, n.1), l[1..] + [n])
  {
    ShiftedFull(nvs);
    hide ShiftFrom, Erased, Inv;
  }

  predicate Distinct(l: seq<Network>) { forall i, j :: 0 <= i < j < |l| ==> l[i].0 != l[j].0 }

  lemma SaveListDistinct(l: seq<Network>, ssid: string, password: string)
    requires Distinct(l)
    ensures Distinct(SaveList(l, ssid, password))
  {
  }

  predicate OnlySaves(ops: seq<Op>) { forall op <- ops :: op.OpSave? && Fits(op) }

  function RunList(l: seq<Network>, ops: seq<Op>): seq<Network>
    requires OnlySaves(ops)
    decreases |ops|
  {
    if ops == [] then l
    else
      assert ops[0] in ops;
      RunList(SaveList(l, ops[0].ssid, ops[0].password), ops[1..])
  }

  /** In runs without deletes the store is the list, whatever was saved. */
  lemma {:induction false} RunRefinesList(nvs: Nvs, l: seq<Network>, ops: seq<Op>)
    requires Inv(nvs) && HoldsList(nvs, l) && OnlySaves(ops)
    ensures HoldsList(Run(nvs, ops), RunList(l, ops))
    decreases |ops|
  {
    if ops != [] {
      assert ops[0] in ops;
      SaveKeepsInv(nvs, ops[0].ssid, ops[0].password);
      SaveRefinesList(nvs, l, ops[0].ssid, ops[0].password);
      RunRefinesList(Step(nvs, ops[0]), SaveList(l, ops[0].ssid, ops[0].password), ops[1..]);
    }
  }

  function Names(l: seq<Network>): seq<string> {
    if l == [] then [] else [l[0].0] + Names(l[1..])
  }

  /** The names that were new when they were saved, in order. */
  function Inserted(l: seq<Network>, ops: seq<Op>): seq<string>
    requires OnlySaves(ops)
    decreases |ops|
  {
    if ops == [] then []
    else
      assert ops[0] in ops;
      var ssid := ops[0].ssid;
      (if ssid != "" && IndexOf(l, ssid) == |l| then [ssid] else [])
      + Inserted(SaveList(l, ssid, ops[0].password), ops[1..])
  }

  function LastThree(s: seq<string>): seq<string> { if |s| <= SLOTS then s else s[|s| - SLOTS..] }

  lemma {:induction false} NamesConcat(a: seq<Network>, b: seq<Network>)
    ensures Names(a + b) == Names(a) + Names(b)
  {
    if a == [] {
      assert a + b == b;
    } else {
      assert (a + b)[1..] == a[1..] + b;
      NamesConcat(a[1..], b);
    }
  }

  lemma {:induction false} NamesUpdate(l: seq<Network>, k: nat, password: string)
    requires k < |l|
    ensures Names(l[k := (l[k].0, password)]) == Names(l)
  {
    if k == 0 {
      assert l[0 := (l[0].0, password)][1..] == l[1..];
    } else {
      assert l[k := (l[k].0, password)][1..] == l[1..][k - 1 := (l[k].0, password)];
      NamesUpdate(l[1..], k - 1, password);
    }
  }

  lemma {:induction false} NamesLength(l: seq<Network>)
    ensures |Names(l)| == |l|
  {
    if l != [] {
      NamesLength(l[1..]);
    }
  }

  lemma SaveListNames(l: seq<Network>, ssid: string, password: string)
    requires |l| <= SLOTS
    ensures |SaveList(l, ssid, password)| <= SLOTS
    ensures Names(SaveList(l, ssid, password))
         == LastThree(Names(l) + (if ssid != "" && IndexOf(l, ssid) == |l| then [ssid] else []))
  {
    var k, added := IndexOf(l, ssid), [(ssid, password)];
    NamesLength(l);
    assert Names(l) + [] == Names(l);
    if ssid != "" && k < |l| {
      NamesUpdate(l, k, password);
    } else if ssid != "" {
      assert Names(added) == [ssid] + Names([]) == [ssid];
      NamesConcat(l, added);
      if |l| == SLOTS {
        NamesConcat(l[1..], added);
      }
    }
  }

  lemma ShortListKept(s: seq<string>)
    requires |s| <= SLOTS
    ensures LastThree(s) == s
  {
  }

  lemma LastThreeTwice(a: seq<string>, b: seq<string>)
    ensures LastThree(LastThree(a) + b) == LastThree(a + b)
  {
    if |a| > SLOTS {
      assert a + b == a[..|a| - SLOTS] + (LastThree(a) + b);
    }
  }

  /** The slots hold exactly the last three names in the order they were first inserted; saving a
      known name again does not move it. */
  lemma {:induction false} SlotsAreLastThree(l: seq<Network>, ops: seq<Op>)
    requires |l| <= SLOTS && OnlySaves(ops)
    ensures Names(RunList(l, ops)) == LastThree(Names(l) + Inserted(l, ops))
    decreases |ops|
  {
    hide SaveList, IndexOf, Names, LastThree;
    if ops == [] {
      NamesLength(l);
      assert Names(l) + [] == Names(l);
      ShortListKept(Names(l));
    } else {
      assert ops[0] in ops;
      var ssid, l' := ops[0].ssid, SaveList(l, ops[0].ssid, ops[0].password);
      var first := if ssid != "" && IndexOf(l, ssid) == |l| then [ssid] else [];
      SaveListNames(l, ssid, ops[0].password);
      SlotsAreLastThree(l', ops[1..]);
      LastThreeTwice(Names(l) + first, Inserted(l', ops[1..]));
      assert Names(l) + first + Inserted(l', ops[1..]) == Names(l) + (first + Inserted(l', ops[1..]));
    }
  }

  /** The password last saved for a name; the given one if it was not saved. */
  function LastPassword(ops: seq<Op>, ssid: string, before: string): string
    decreases |ops|
  {
    if ops == [] then before
    else LastPassword(ops[1..], ssid, if ops[0].OpSave? && ops[0].ssid == ssid != "" then ops[0].password else before)
  }

  /** Each listed network carries the password saved last for its name. */
  lemma {:induction false} PasswordsAreLatest(l: seq<Network>, ops: seq<Op>, before: string -> string)
    requires OnlySaves(ops) && Distinct(l) && forall i :: 0 <= i < |l| ==> l[i].1 == before(l[i].0)
    ensures forall i :: 0 <= i < |RunList(l, ops)| ==>
      RunList(l, ops)[i].1 == LastPassword(ops, RunList(l, ops)[i].0, before(RunList(l, ops)[i].0))
    decreases |ops|
  {
    if ops != [] {
      assert ops[0] in ops;
      var (ssid, password) := (ops[0].ssid, ops[0].password);
      var after := (s: string) => if s == ssid != "" then password else before(s);
      SaveListDistinct(l, ssid, password);
      PasswordsAreLatest(SaveList(l, ssid, password), ops[1..], after);
    }
  }

  /** From an empty store, without deletes: the slots are the last three inserted names, in
      order, each with its latest password. */
  lemma StoreIsLastThree(ops: seq<Op>)
    requires OnlySaves(ops)
    ensures var l := RunList([], ops);
      && HoldsList(Run(map[], ops), l)
      && Names(l) == (var names := Inserted([], ops); if |names| <= 3 then names else names[|names| - 3..])
      && forall i :: 0 <= i < |l| ==> l[i].1 == LastPassword(ops, l[i].0, "")
  {
    RunRefinesList(map[], [], ops);
    SlotsAreLastThree([], ops);
    PasswordsAreLatest([], ops, s => "");
    assert Names([]) + Inserted([], ops) == Inserted([], ops);
  }
}
