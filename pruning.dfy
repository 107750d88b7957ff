/** `remove_empty_levels` and `is_empty` (src/utils.rs): pruning, bottom-up, of every
    member and array element that is empty once its own contents have been pruned. The
    value passed in is pruned inside but never removed itself. */
module Pruning {
  import opened Wrappers
  import opened Json
  import Text

  /** `is_empty`: `null`, the empty string, the empty array and the empty object. Numbers
      and booleans are never empty. */
  predicate IsEmpty(v: Value)
    ensures IsEmpty(v) <==> v == Null || v == Str("") || v == Arr([]) || v == Obj([])
    ensures v.Num? || v.Bool? ==> !IsEmpty(v)
  {
    match v
    case Null => true
    case Str(s) => s == ""
    case Arr(a) => a == []
    case Obj(ms) => ms == []
    case _ => false
  }

  /** The value `remove_empty_levels` leaves. */
  function Pruned(v: Value): (r: Value)
    ensures v.Arr? <==> r.Arr?
    ensures v.Obj? <==> r.Obj?
    ensures IsLeaf(v) ==> r == v
    decreases v
  {
    match v
    case Arr(a) => Arr(PrunedItems(a))
    case Obj(ms) => Obj(PrunedMembers(ms))
    case _ => v
  }

  /** The elements of `a` that remain, each pruned, in their order. */
  function PrunedItems(a: seq<Value>): seq<Value>
    decreases a
  {
    if a == [] then []
    else
      var p := Pruned(a[|a| - 1]);
      PrunedItems(a[..|a| - 1]) + (if IsEmpty(p) then [] else [p])
  }

  /** The members of `ms` that remain, each pruned, in their order. */
  function PrunedMembers(ms: seq<Member>): seq<Member>
    decreases ms
  {
    if ms == [] then []
    else
      var m := ms[|ms| - 1];
      var p := Pruned(m.value);
      PrunedMembers(ms[..|ms| - 1]) + (if IsEmpty(p) then [] else [Member(m.key, p)])
  }

  /** Nothing below the top is empty: the shape `remove_empty_levels` promises. */
  predicate NoEmptyBelow(v: Value)
    decreases v
  {
    match v
    case Arr(a) => forall i :: 0 <= i < |a| ==> !IsEmpty(a[i]) && NoEmptyBelow(a[i])
    case Obj(ms) => forall i :: 0 <= i < |ms| ==> !IsEmpty(ms[i].value) && NoEmptyBelow(ms[i].value)
    case _ => true
  }

  // ------------------------------------------------------------- the pruned shape

  /** After pruning, no member or element anywhere below the top is empty. */
  lemma {:induction false} PrunedHasNoEmpty(v: Value)
    ensures NoEmptyBelow(Pruned(v))
    decreases v, 1
  {
    match v
    case Arr(a) => PrunedItemsHaveNoEmpty(a);
    case Obj(ms) => PrunedMembersHaveNoEmpty(ms);
    case _ =>
  }

  lemma {:induction false} PrunedItemsHaveNoEmpty(a: seq<Value>)
    ensures forall i :: 0 <= i < |PrunedItems(a)| ==>
      !IsEmpty(PrunedItems(a)[i]) && NoEmptyBelow(PrunedItems(a)[i])
    decreases a, 0
  {
    if a != [] {
      PrunedItemsHaveNoEmpty(a[..|a| - 1]);
      PrunedHasNoEmpty(a[|a| - 1]);
    }
  }

  lemma {:induction false} PrunedMembersHaveNoEmpty(ms: seq<Member>)
    ensures forall i :: 0 <= i < |PrunedMembers(ms)| ==>
      !IsEmpty(PrunedMembers(ms)[i].value) && NoEmptyBelow(PrunedMembers(ms)[i].value)
    decreases ms, 0
  {
    if ms != [] {
      PrunedMembersHaveNoEmpty(ms[..|ms| - 1]);
      PrunedHasNoEmpty(ms[|ms| - 1].value);
    }
  }

  /** A value with nothing empty below its top is left as it is. */
  lemma {:induction false} PruneKeepsClean(v: Value)
    requires NoEmptyBelow(v)
    ensures Pruned(v) == v
    decreases v, 1
  {
    match v
    case Arr(a) => PruneKeepsCleanItems(a);
    case Obj(ms) => PruneKeepsCleanMembers(ms);
    case _ =>
  }

  lemma {:induction false} PruneKeepsCleanItems(a: seq<Value>)
    requires forall i :: 0 <= i < |a| ==> !IsEmpty(a[i]) && NoEmptyBelow(a[i])
    ensures PrunedItems(a) == a
    decreases a, 0
  {
    if a != [] {
      PruneKeepsCleanItems(a[..|a| - 1]);
      PruneKeepsClean(a[|a| - 1]);
      assert a == a[..|a| - 1] + [a[|a| - 1]];
    }
  }

  lemma {:induction false} PruneKeepsCleanMembers(ms: seq<Member>)
    requires forall i :: 0 <= i < |ms| ==> !IsEmpty(ms[i].value) && NoEmptyBelow(ms[i].value)
    ensures PrunedMembers(ms) == ms
    decreases ms, 0
  {
    if ms != [] {
      var m := ms[|ms| - 1];
      PruneKeepsCleanMembers(ms[..|ms| - 1]);
      PruneKeepsClean(m.value);
      assert Member(m.key, m.value) == m;
      assert ms == ms[..|ms| - 1] + [m];
    }
  }

  /** Pruning twice is pruning once. */
  lemma PruneIdempotent(v: Value)
    ensures Pruned(Pruned(v)) == Pruned(v)
  {
    PrunedHasNoEmpty(v);
    PruneKeepsClean(Pruned(v));
  }

  // ------------------------------------------------------------- objects stay maps

  /** Pruning keeps a bound on the keys. */
  lemma {:induction false} PrunedMembersBelow(ms: seq<Member>, k: string)
    requires KeysBelow(ms, k)
    ensures KeysBelow(PrunedMembers(ms), k)
    decreases ms
  {
    if ms != [] {
      assert ms[|ms| - 1] in ms;
      assert forall x :: x in ms[..|ms| - 1] ==> x in ms;
      PrunedMembersBelow(ms[..|ms| - 1], k);
    }
  }

  /** Pruning keeps the members of an object sorted. */
  lemma {:induction false} PrunedMembersSorted(ms: seq<Member>)
    requires Sorted(ms)
    ensures Sorted(PrunedMembers(ms))
    decreases ms
  {
    if ms != [] {
      var init := ms[..|ms| - 1];
      var m := ms[|ms| - 1];
      PrunedMembersSorted(init);
      SortedSplit(ms, |ms| - 1);
      PrunedMembersBelow(init, m.key);
      var p := Pruned(m.value);
      if !IsEmpty(p) {
        SortedSnoc(PrunedMembers(init), Member(m.key, p));
      }
    }
  }

  /** Pruning a well-formed value gives a well-formed value. */
  lemma {:induction false} PrunedWf(v: Value)
    requires Wf(v)
    ensures Wf(Pruned(v))
    decreases v, 1
  {
    match v
    case Arr(a) => PrunedItemsWf(a);
    case Obj(ms) =>
      PrunedMembersWf(ms);
      PrunedMembersSorted(ms);
    case _ =>
  }

  lemma {:induction false} PrunedItemsWf(a: seq<Value>)
    requires forall i :: 0 <= i < |a| ==> Wf(a[i])
    ensures forall i :: 0 <= i < |PrunedItems(a)| ==> Wf(PrunedItems(a)[i])
    decreases a, 0
  {
    if a != [] {
      PrunedItemsWf(a[..|a| - 1]);
      PrunedWf(a[|a| - 1]);
    }
  }

  lemma {:induction false} PrunedMembersWf(ms: seq<Member>)
    requires forall i :: 0 <= i < |ms| ==> Wf(ms[i].value)
    ensures forall i :: 0 <= i < |PrunedMembers(ms)| ==> Wf(PrunedMembers(ms)[i].value)
    decreases ms, 0
  {
    if ms != [] {
      PrunedMembersWf(ms[..|ms| - 1]);
      PrunedWf(ms[|ms| - 1].value);
    }
  }

  /** What a lookup finds after pruning, given what it found before. */
  function PrunedLookup(found: Option<Value>): Option<Value> {
    match found
    case None => None
    case Some(v) => if IsEmpty(Pruned(v)) then None else Some(Pruned(v))
  }

  /** A key of a pruned object holds the pruned value it held before, and is gone exactly
      when that pruned value is empty. */
  lemma {:induction false} GetPruned(ms: seq<Member>, k: string)
    requires Sorted(ms)
    ensures Get(PrunedMembers(ms), k) == PrunedLookup(Get(ms, k))
    decreases ms
  {
    if ms != [] {
      var init := ms[..|ms| - 1];
      var m := ms[|ms| - 1];
      assert ms == init + [m];
      SortedSplit(ms, |ms| - 1);
      GetPruned(init, k);
      PrunedMembersBelow(init, m.key);
      GetSnoc(init, m, k);
      var pre := PrunedMembers(init);
      var p := Pruned(m.value);
      if !IsEmpty(p) {
        GetSnoc(pre, Member(m.key, p), k);
      } else if k == m.key {
        Text.LessIrreflexive(k);
        assert forall x :: x in pre ==> x.key != k;
        GetSpec(pre, k);
        assert Get(pre, k) == None;
        assert PrunedMembers(ms) == pre;
        assert Get(ms, k) == Some(m.value);
      } else {
        assert PrunedMembers(ms) == pre;
        assert Get(ms, k) == Get(init, k);
      }
    }
  }

  /** A lookup in a list extended at the end by a larger key. */
  lemma {:induction false} GetSnoc(xs: seq<Member>, m: Member, k: string)
    requires KeysBelow(xs, m.key)
    ensures Get(xs + [m], k) == if k == m.key then Some(m.value) else Get(xs, k)
  {
    if xs == [] {
      assert xs + [m] == [m];
    } else {
      assert xs[0] in xs;
      Text.LessIrreflexive(m.key);
      assert (xs + [m])[1..] == xs[1..] + [m];
      GetSnoc(xs[1..], m, k);
    }
  }

  /** One turn of the object loop of `remove_empty_levels`: with the first `k` members
      already pruned, taking member `k` out and putting its pruned value back (unless it
      is empty) gives the first `k + 1` members pruned. */
  lemma PruneMemberStep(ms: seq<Member>, k: nat)
    requires Sorted(ms) && k < |ms|
    ensures var obj := PrunedMembers(ms[..k]) + ms[k..];
      var key := ms[k].key;
      var p := Pruned(ms[k].value);
      Get(obj, key) == Some(ms[k].value) &&
      (IsEmpty(p) ==> Remove(obj, key) == PrunedMembers(ms[..k + 1]) + ms[k + 1..]) &&
      (!IsEmpty(p) ==> Set(Remove(obj, key), key, p) == PrunedMembers(ms[..k + 1]) + ms[k + 1..])
  {
    var pre := PrunedMembers(ms[..k]);
    var key := ms[k].key;
    SortedSplit(ms, k);
    PrunedMembersBelow(ms[..k], key);
    KeysApart(pre, ms[k], ms[k + 1..]);
    assert pre + ms[k..] == pre + [ms[k]] + ms[k + 1..];
    GetAfter(pre, ms[k], ms[k + 1..]);
    RemoveBetween(pre, ms[k], ms[k + 1..]);
    assert ms[..k + 1][..k] == ms[..k];
    SetBetween(pre, key, Pruned(ms[k].value), ms[k + 1..]);
  }

  /** One turn of the array loop: with the first `k` elements already pruned, taking the
      element at the cursor out and putting its pruned value back (unless it is empty)
      gives the first `k + 1` elements pruned. */
  lemma PruneItemStep(a: seq<Value>, k: nat)
    requires k < |a|
    ensures IsEmpty(Pruned(a[k])) ==> PrunedItems(a[..k + 1]) == PrunedItems(a[..k])
    ensures !IsEmpty(Pruned(a[k])) ==> PrunedItems(a[..k + 1]) == PrunedItems(a[..k]) + [Pruned(a[k])]
  {
    assert a[..k + 1][..k] == a[..k];
    assert PrunedItems(a[..k]) + [] == PrunedItems(a[..k]);
  }

  /** Taking out the element at the cursor, just behind the pruned prefix. */
  lemma TakeOut<T>(pre: seq<T>, a: seq<T>, k: nat)
    requires k < |a|
    ensures var s := pre + a[k..];
      s[|pre|] == a[k] && s[..|pre|] + s[|pre| + 1..] == pre + a[k + 1..]
  {
    var s := pre + a[k..];
    assert s[..|pre|] == pre;
    assert s[|pre| + 1..] == a[k + 1..];
  }

  /** Putting an element back at the cursor. */
  lemma PutBack<T>(pre: seq<T>, x: T, rest: seq<T>)
    ensures var s := pre + rest; s[..|pre|] + [x] + s[|pre|..] == pre + [x] + rest
  {
    var s := pre + rest;
    assert s[..|pre|] == pre;
    assert s[|pre|..] == rest;
  }

  /** Keys on both sides of a member differ from its key. */
  lemma KeysApart(xs: seq<Member>, m: Member, ys: seq<Member>)
    requires KeysBelow(xs, m.key) && KeysAbove(m.key, ys)
    ensures forall x :: x in xs ==> x.key != m.key
    ensures forall y :: y in ys ==> y.key != m.key
  {
    Text.LessIrreflexive(m.key);
  }

  // ------------------------------------------------------------- the method

  /** `remove_empty_levels`: objects and arrays are pruned in place, other values are
      left alone. */
  method RemoveEmptyLevels(json: Value) returns (r: Value)
    requires Wf(json)
    ensures r == Pruned(json)
    decreases json, 1
  {
    match json
    case Obj(ms) =>
      var obj := RemoveEmptyMembers(ms);
      return Obj(obj);
    case Arr(a) =>
      var arr := RemoveEmptyItems(a);
      return Arr(arr);
    case _ =>
      return json;
  }

  /** The object arm: the keys are visited in order; each member is taken out, pruned, and
      put back unless it came out empty. */
  method RemoveEmptyMembers(ms: seq<Member>) returns (obj: seq<Member>)
    requires Wf(Obj(ms))
    ensures obj == PrunedMembers(ms)
    decreases ms, 0
  {
    obj := ms;
    for k := 0 to |ms|
      invariant obj == PrunedMembers(ms[..k]) + ms[k..]
    {
      var key := ms[k].key;
      PruneMemberStep(ms, k);
      var sub := Get(obj, key).value;
      obj := Remove(obj, key);
      sub := RemoveEmptyLevels(sub);
      if !IsEmpty(sub) {
        obj := Set(obj, key, sub);
      }
    }
    assert ms[..|ms|] == ms;
  }

  /** The array arm: the element at the cursor is taken out and pruned; it is put back and
      the cursor advances unless it came out empty. */
  method RemoveEmptyItems(a: seq<Value>) returns (arr: seq<Value>)
    requires Wf(Arr(a))
    ensures arr == PrunedItems(a)
    decreases a, 0
  {
    arr := a;
    var i := 0;
    ghost var k := 0;
    while i < |arr|
      invariant 0 <= k <= |a|
      invariant arr == PrunedItems(a[..k]) + a[k..]
      invariant i == |PrunedItems(a[..k])|
      decreases |arr| - i
    {
      PruneItemStep(a, k);
      ghost var pre := PrunedItems(a[..k]);
      TakeOut(pre, a, k);
      var sub := arr[i];
      arr := arr[..i] + arr[i + 1..];
      sub := RemoveEmptyLevels(sub);
      if !IsEmpty(sub) {
        PutBack(pre, sub, a[k + 1..]);
        arr := arr[..i] + [sub] + arr[i..];
        i := i + 1;
      }
      k := k + 1;
    }
    assert a[..k] == a;
  }
}
