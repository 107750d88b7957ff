/** The nested-array editors of src/utils.rs. Each takes an array and a list of indices:
    every index but the last selects an element that is itself an array, and the last
    one says where in that innermost array to insert, overwrite or remove. The Rust
    functions edit the array in place through an exclusive borrow; here each returns the
    edited array, or `Panic` where the Rust code panics. The functions `AfterInsert`,
    `AfterChange` and `AfterRemove` state the result; the methods perform the edits one
    level at a time and are proved to produce it. */
module ArrayMutators {
  import opened Wrappers
  import opened Json

  // ------------------------------------------------------------- addressing

  /** Every index of `path` selects an existing element that is an array. */
  predicate ReachesArrays(a: seq<Value>, path: seq<nat>)
    decreases |path|
  {
    path == [] || (path[0] < |a| && a[path[0]].Arr? && ReachesArrays(a[path[0]].items, path[1..]))
  }

  /** The nested array that `path` selects. */
  function Level(a: seq<Value>, path: seq<nat>): seq<Value>
    requires ReachesArrays(a, path)
    decreases |path|
  {
    if path == [] then a else Level(a[path[0]].items, path[1..])
  }

  /** `a` with the nested array that `path` selects replaced by `x`. */
  function Graft(a: seq<Value>, path: seq<nat>, x: seq<Value>): (r: seq<Value>)
    requires ReachesArrays(a, path)
    ensures ReachesArrays(r, path) && Level(r, path) == x
    ensures path != [] ==> |r| == |a|
    decreases |path|
  {
    if path == [] then x
    else
      var r := a[path[0] := Arr(Graft(a[path[0]].items, path[1..], x))];
      assert r[path[0]].items == Graft(a[path[0]].items, path[1..], x);
      r
  }

  /** Putting back the array that was there changes nothing. */
  lemma {:induction false} GraftLevel(a: seq<Value>, path: seq<nat>)
    requires ReachesArrays(a, path)
    ensures Graft(a, path, Level(a, path)) == a
    decreases |path|
  {
    if path != [] {
      GraftLevel(a[path[0]].items, path[1..]);
    }
  }

  /** A second graft at the same place overrides the first. */
  lemma {:induction false} GraftGraft(a: seq<Value>, path: seq<nat>, x: seq<Value>, y: seq<Value>)
    requires ReachesArrays(a, path)
    ensures Graft(Graft(a, path, x), path, y) == Graft(a, path, y)
    decreases |path|
  {
    if path != [] {
      var b := Graft(a, path, x);
      assert b[path[0]].items == Graft(a[path[0]].items, path[1..], x);
      GraftGraft(a[path[0]].items, path[1..], x, y);
    }
  }

  // ------------------------------------------------------------- the editors

  /** The array `insert_element` leaves. With one index, `Vec::insert` there (a panic past the end). With
      more, an index at or past the end first gets one `[]` pushed; an index still past the
      end panics; an array element is descended into; any other element is overwritten. */
  function AfterInsert(a: seq<Value>, indices: seq<nat>, v: Value): (r: Result<seq<Value>>)
    ensures indices == [] ==> r == Ok(a)
    ensures |indices| == 1 ==> (r.Ok? <==> indices[0] <= |a|)
    ensures |indices| > 1 && indices[0] > |a| ==> r == Panic
    ensures r.Ok? && indices != [] ==>
      |r.value| == |a| + (if |indices| == 1 || indices[0] >= |a| then 1 else 0)
    decreases |indices|
  {
    if indices == [] then Ok(a)
    else
      var i := indices[0];
      if |indices| == 1 then
        if i <= |a| then Ok(a[..i] + [v] + a[i..]) else Panic
      else
        var b := if i >= |a| then a + [Arr([])] else a;
        if i >= |b| then Panic
        else
          match b[i]
          case Arr(inner) =>
            (match AfterInsert(inner, indices[1..], v)
             case Ok(x) => Ok(b[i := Arr(x)])
             case Panic => Panic)
          case _ => Ok(b[i := v])
  }

  /** The array `change_element` leaves. An index past the end does nothing, except that a single index
      equal to the length appends and a single index further out panics; an array element
      is descended into; any other element is overwritten. */
  function AfterChange(a: seq<Value>, indices: seq<nat>, v: Value): (r: Result<seq<Value>>)
    ensures indices == [] ==> r == Ok(a)
    ensures |indices| == 1 && indices[0] > |a| ==> r == Panic
    ensures |indices| > 1 && indices[0] >= |a| ==> r == Ok(a)
    ensures r.Ok? ==> |r.value| == |a| + (if |indices| == 1 && indices[0] == |a| then 1 else 0)
    decreases |indices|
  {
    if indices == [] then Ok(a)
    else
      var i := indices[0];
      if i >= |a| then
        if |indices| == 1 then
          if i == |a| then Ok(a + [v]) else Panic
        else Ok(a)
      else
        match a[i]
        case Arr(inner) =>
          (match AfterChange(inner, indices[1..], v)
           case Ok(x) => Ok(a[i := Arr(x)])
           case Panic => Panic)
        case _ => Ok(a[i := v])
  }

  /** The array `remove_element` leaves; it never panics. An index past the end does nothing; a
      non-array element is removed; an array element is descended into, except that under
      `omit_empty`, with two indices left and a one-element inner array, the inner array
      itself is removed from its parent. */
  function AfterRemove(a: seq<Value>, indices: seq<nat>, omitEmpty: bool): (r: seq<Value>)
    ensures indices == [] || indices[0] >= |a| ==> r == a
    ensures indices != [] && indices[0] < |a| && !a[indices[0]].Arr? ==>
      r == a[..indices[0]] + a[indices[0] + 1..]
    ensures |indices| == 1 && indices[0] < |a| && a[indices[0]].Arr? ==> r == a
    ensures |r| == |a| || |r| == |a| - 1
    decreases |indices|
  {
    if indices == [] then a
    else
      var i := indices[0];
      if i >= |a| then a
      else
        match a[i]
        case Arr(inner) =>
          if |indices| == 2 && |inner| == 1 && omitEmpty then a[..i] + a[i + 1..]
          else a[i := Arr(AfterRemove(inner, indices[1..], omitEmpty))]
        case _ => a[..i] + a[i + 1..]
  }

  // ------------------------------------------------------------- the methods

  /** Where the descent took an inner array from: the elements before it and after it in
      the enclosing array. */
  datatype Slot = Slot(before: seq<Value>, after: seq<Value>)

  /** The outer array with `x` put back through every slot, innermost (last) first. */
  function Rebuild(slots: seq<Slot>, x: seq<Value>): seq<Value>
    decreases |slots|
  {
    if slots == [] then x
    else
      var s := slots[|slots| - 1];
      Rebuild(slots[..|slots| - 1], s.before + [Arr(x)] + s.after)
  }

  function RebuildResult(slots: seq<Slot>, r: Result<seq<Value>>): Result<seq<Value>> {
    match r
    case Ok(x) => Ok(Rebuild(slots, x))
    case Panic => Panic
  }

  /** Descending into element `i` and finishing there is finishing one level up with
      element `i` replaced. */
  lemma RebuildPush(slots: seq<Slot>, a: seq<Value>, i: nat, x: seq<Value>)
    requires i < |a|
    ensures Rebuild(slots + [Slot(a[..i], a[i + 1..])], x) == Rebuild(slots, a[i := Arr(x)])
  {
    assert (slots + [Slot(a[..i], a[i + 1..])])[..|slots|] == slots;
    assert a[..i] + [Arr(x)] + a[i + 1..] == a[i := Arr(x)];
  }

  lemma RebuildResultPush(slots: seq<Slot>, a: seq<Value>, i: nat, r: Result<seq<Value>>)
    requires i < |a|
    ensures RebuildResult(slots + [Slot(a[..i], a[i + 1..])], r) ==
      RebuildResult(slots, match r case Ok(x) => Ok(a[i := Arr(x)]) case Panic => Panic)
  {
    if r.Ok? {
      RebuildPush(slots, a, i, r.value);
    }
  }

  /** `insert_element`: the recursion on `&mut array` and `&indices[1..]` is a loop that keeps
      the enclosing arrays as slots and the indices still to use as `rest`. */
  method InsertElement(arr: seq<Value>, indices: seq<nat>, value: Value) returns (r: Result<seq<Value>>)
    ensures r == AfterInsert(arr, indices, value)
  {
    if indices == [] {
      return Ok(arr);
    }
    var slots: seq<Slot> := [];
    var a := arr;
    var rest := indices;
    while |rest| > 1
      invariant rest != []
      invariant RebuildResult(slots, AfterInsert(a, rest, value)) == AfterInsert(arr, indices, value)
    {
      var index := rest[0];
      if index >= |a| {
        a := a + [Arr([])];
      }
      if index >= |a| {
        return Panic;  // indexing past the end
      }
      if !a[index].Arr? {
        return Ok(Rebuild(slots, a[index := value]));
      }
      RebuildResultPush(slots, a, index, AfterInsert(a[index].items, rest[1..], value));
      slots, a, rest := slots + [Slot(a[..index], a[index + 1..])], a[index].items, rest[1..];
    }
    var index := rest[0];
    if index > |a| {
      return Panic;  // `Vec::insert` past the end
    }
    return Ok(Rebuild(slots, a[..index] + [value] + a[index..]));
  }

  /** `change_element`, as a loop in the same way. */
  method ChangeElement(arr: seq<Value>, indices: seq<nat>, value: Value) returns (r: Result<seq<Value>>)
    ensures r == AfterChange(arr, indices, value)
  {
    var slots: seq<Slot> := [];
    var a := arr;
    var rest := indices;
    while rest != []
      invariant RebuildResult(slots, AfterChange(a, rest, value)) == AfterChange(arr, indices, value)
      decreases |rest|
    {
      var index := rest[0];
      if index >= |a| {
        if |rest| == 1 {
          if index > |a| {
            return Panic;  // `Vec::insert` past the end
          }
          return Ok(Rebuild(slots, a + [value]));
        }
        return Ok(Rebuild(slots, a));
      }
      if !a[index].Arr? {
        return Ok(Rebuild(slots, a[index := value]));
      }
      RebuildResultPush(slots, a, index, AfterChange(a[index].items, rest[1..], value));
      slots, a, rest := slots + [Slot(a[..index], a[index + 1..])], a[index].items, rest[1..];
    }
    return Ok(Rebuild(slots, a));
  }

  /** `remove_element`, as a loop in the same way. */
  method RemoveElement(arr: seq<Value>, indices: seq<nat>, omitEmpty: bool) returns (r: seq<Value>)
    ensures r == AfterRemove(arr, indices, omitEmpty)
  {
    var slots: seq<Slot> := [];
    var a := arr;
    var rest := indices;
    while rest != []
      invariant Rebuild(slots, AfterRemove(a, rest, omitEmpty)) == AfterRemove(arr, indices, omitEmpty)
      decreases |rest|
    {
      var index := rest[0];
      if index >= |a| {
        return Rebuild(slots, a);
      }
      if !a[index].Arr? {
        return Rebuild(slots, a[..index] + a[index + 1..]);
      }
      if |rest| == 2 && |a[index].items| == 1 && omitEmpty {
        return Rebuild(slots, a[..index] + a[index + 1..]);
      }
      RebuildPush(slots, a, index, AfterRemove(a[index].items, rest[1..], omitEmpty));
      slots, a, rest := slots + [Slot(a[..index], a[index + 1..])], a[index].items, rest[1..];
    }
    return Rebuild(slots, a);
  }

  // ------------------------------------------------------------- properties

  /** Inserting at index `i` of the nested array `path` selects (any `i` up to its length)
      puts `v` there, shifts the later elements up and changes nothing else. */
  lemma {:induction false} InsertInPlace(a: seq<Value>, path: seq<nat>, i: nat, v: Value)
    requires ReachesArrays(a, path)
    requires i <= |Level(a, path)|
    ensures var l := Level(a, path);
      AfterInsert(a, path + [i], v) == Ok(Graft(a, path, l[..i] + [v] + l[i..]))
    decreases |path|
  {
    if path != [] {
      assert (path + [i])[1..] == path[1..] + [i];
      InsertInPlace(a[path[0]].items, path[1..], i, v);
    }
  }

  /** With two or more indices and a first index at the end, exactly one `[]` is pushed and
      the insertion continues inside it. */
  lemma InsertPadsOnce(a: seq<Value>, indices: seq<nat>, v: Value)
    requires |indices| > 1 && indices[0] == |a|
    ensures AfterInsert(a, indices, v) ==
      match AfterInsert([], indices[1..], v)
      case Ok(x) => Ok(a + [Arr(x)])
      case Panic => Panic
  {
    var b := a + [Arr([])];
    assert b[|a|] == Arr([]);
    match AfterInsert([], indices[1..], v)
    case Ok(x) =>
      assert b[|a| := Arr(x)] == a + [Arr(x)];
    case Panic =>
  }

  /** With indices left after index `j` of the nested array `path` selects, where a
      non-array value sits, the insertion stops there and overwrites that element. */
  lemma {:induction false} InsertOverwrites(a: seq<Value>, path: seq<nat>, j: nat, rest: seq<nat>, v: Value)
    requires ReachesArrays(a, path)
    requires j < |Level(a, path)| && !Level(a, path)[j].Arr?
    requires rest != []
    ensures AfterInsert(a, path + [j] + rest, v) == Ok(Graft(a, path, Level(a, path)[j := v]))
    decreases |path|
  {
    if path == [] {
      assert path + [j] + rest == [j] + rest;
    } else {
      assert (path + [j] + rest)[1..] == path[1..] + [j] + rest;
      InsertOverwrites(a[path[0]].items, path[1..], j, rest, v);
    }
  }

  /** Changing index `i` of the nested array `path` selects, where a non-array value sits,
      overwrites just that element. */
  lemma {:induction false} ChangeInPlace(a: seq<Value>, path: seq<nat>, i: nat, v: Value)
    requires ReachesArrays(a, path)
    requires i < |Level(a, path)| && !Level(a, path)[i].Arr?
    ensures AfterChange(a, path + [i], v) == Ok(Graft(a, path, Level(a, path)[i := v]))
    decreases |path|
  {
    if path != [] {
      assert (path + [i])[1..] == path[1..] + [i];
      ChangeInPlace(a[path[0]].items, path[1..], i, v);
    }
  }

  /** Changing at the length of the nested array appends. */
  lemma {:induction false} ChangeAppends(a: seq<Value>, path: seq<nat>, v: Value)
    requires ReachesArrays(a, path)
    ensures var l := Level(a, path);
      AfterChange(a, path + [|l|], v) == Ok(Graft(a, path, l + [v]))
    decreases |path|
  {
    if path != [] {
      var l := Level(a, path);
      assert (path + [|l|])[1..] == path[1..] + [|l|];
      ChangeAppends(a[path[0]].items, path[1..], v);
    }
  }

  /** Setting a non-array value twice is the same as setting it once. */
  lemma ChangeIdempotent(a: seq<Value>, path: seq<nat>, i: nat, v: Value)
    requires ReachesArrays(a, path)
    requires i < |Level(a, path)| && !Level(a, path)[i].Arr?
    requires !v.Arr?
    ensures AfterChange(a, path + [i], v).Ok?
    ensures AfterChange(AfterChange(a, path + [i], v).value, path + [i], v) == AfterChange(a, path + [i], v)
  {
    var l := Level(a, path);
    ChangeInPlace(a, path, i, v);
    var b := Graft(a, path, l[i := v]);
    ChangeInPlace(b, path, i, v);
    assert l[i := v][i := v] == l[i := v];
    GraftGraft(a, path, l[i := v], l[i := v]);
  }

  /** Removing index `i` of the nested array `path` selects, where a non-array value sits,
      removes that element and shifts the later ones down, unless `omit_empty` collapses a
      one-element row (see `RemoveCollapsesRow`). */
  lemma {:induction false} RemoveInPlace(a: seq<Value>, path: seq<nat>, i: nat, omitEmpty: bool)
    requires ReachesArrays(a, path)
    requires i < |Level(a, path)| && !Level(a, path)[i].Arr?
    requires omitEmpty ==> path == [] || |Level(a, path)| != 1
    ensures var l := Level(a, path);
      AfterRemove(a, path + [i], omitEmpty) == Graft(a, path, l[..i] + l[i + 1..])
    decreases |path|
  {
    if path != [] {
      assert (path + [i])[1..] == path[1..] + [i];
      RemoveInPlace(a[path[0]].items, path[1..], i, omitEmpty);
    }
  }

  /** Under `omit_empty`, a removal aimed into a one-element row removes the whole row
      from its parent, whatever the last index is. */
  lemma {:induction false} RemoveCollapsesRow(a: seq<Value>, path: seq<nat>, j: nat, i: nat)
    requires ReachesArrays(a, path + [j])
    requires |Level(a, path + [j])| == 1
    ensures ReachesArrays(a, path) && j < |Level(a, path)|
    ensures var p := Level(a, path);
      AfterRemove(a, path + [j, i], true) == Graft(a, path, p[..j] + p[j + 1..])
    decreases |path|
  {
    if path == [] {
      assert path + [j] == [j];
      assert path + [j, i] == [j, i];
    } else {
      assert (path + [j])[1..] == path[1..] + [j];
      assert (path + [j, i])[1..] == path[1..] + [j, i];
      RemoveCollapsesRow(a[path[0]].items, path[1..], j, i);
    }
  }

  /** Removing what was just inserted (a non-array value, without `omit_empty`) gives the
      original array back. */
  lemma InsertRemoveRoundTrip(a: seq<Value>, path: seq<nat>, i: nat, v: Value)
    requires ReachesArrays(a, path)
    requires i <= |Level(a, path)|
    requires !v.Arr?
    ensures AfterInsert(a, path + [i], v).Ok?
    ensures AfterRemove(AfterInsert(a, path + [i], v).value, path + [i], false) == a
  {
    var l := Level(a, path);
    var l' := l[..i] + [v] + l[i..];
    InsertInPlace(a, path, i, v);
    var b := Graft(a, path, l');
    assert l'[i] == v;
    RemoveInPlace(b, path, i, false);
    assert l'[..i] + l'[i + 1..] == l;
    GraftGraft(a, path, l', l);
    GraftLevel(a, path);
  }

  // ------------------------------------------------------------- well-formedness

  /** Overwriting one element of a well-formed array with a well-formed value. */
  lemma WfUpdate(a: seq<Value>, i: nat, x: Value)
    requires Wf(Arr(a)) && Wf(x) && i < |a|
    ensures Wf(Arr(a[i := x]))
  {
  }

  /** The editors keep every object inside the array a well-formed map, given a
      well-formed value to store. */
  lemma {:induction false} InsertWf(a: seq<Value>, indices: seq<nat>, v: Value)
    requires Wf(Arr(a)) && Wf(v)
    ensures AfterInsert(a, indices, v).Ok? ==> Wf(Arr(AfterInsert(a, indices, v).value))
    decreases |indices|
  {
    if |indices| > 1 {
      var i := indices[0];
      var b := if i >= |a| then a + [Arr([])] else a;
      assert Wf(Arr(b));
      if i < |b| && b[i].Arr? {
        InsertWf(b[i].items, indices[1..], v);
        match AfterInsert(b[i].items, indices[1..], v)
        case Ok(x) => WfUpdate(b, i, Arr(x));
        case Panic =>
      }
    } else if |indices| == 1 && indices[0] <= |a| {
      var i := indices[0];
      assert forall j :: 0 <= j < |a| + 1 ==> (a[..i] + [v] + a[i..])[j] == (if j < i then a[j] else if j == i then v else a[j - 1]);
    }
  }

  lemma {:induction false} ChangeWf(a: seq<Value>, indices: seq<nat>, v: Value)
    requires Wf(Arr(a)) && Wf(v)
    ensures AfterChange(a, indices, v).Ok? ==> Wf(Arr(AfterChange(a, indices, v).value))
    decreases |indices|
  {
    if indices != [] && indices[0] < |a| && a[indices[0]].Arr? {
      var i := indices[0];
      ChangeWf(a[i].items, indices[1..], v);
      match AfterChange(a[i].items, indices[1..], v)
      case Ok(x) => WfUpdate(a, i, Arr(x));
      case Panic =>
    } else if |indices| == 1 && indices[0] == |a| {
      assert forall j :: 0 <= j < |a| ==> (a + [v])[j] == a[j];
    }
  }

  lemma {:induction false} RemoveWf(a: seq<Value>, indices: seq<nat>, omitEmpty: bool)
    requires Wf(Arr(a))
    ensures Wf(Arr(AfterRemove(a, indices, omitEmpty)))
    decreases |indices|
  {
    if indices != [] && indices[0] < |a| {
      var i := indices[0];
      var r := a[..i] + a[i + 1..];
      assert forall j :: 0 <= j < |r| ==> r[j] == (if j < i then a[j] else a[j + 1]);
      if a[i].Arr? {
        RemoveWf(a[i].items, indices[1..], omitEmpty);
        WfUpdate(a, i, Arr(AfterRemove(a[i].items, indices[1..], omitEmpty)));
      }
    }
  }
}
