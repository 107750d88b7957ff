/** The patcher of src/patcher.rs. `patch_by_path` keeps a mutable reference `current`
    into the document and moves it down one path item at a time, creating missing
    containers on the way; at the last item it performs the operation there. Here the
    reference is a zipper: the subtree `current` plus the frames it was taken out of,
    and the document is the subtree plugged back into its frames. `Walk`, `Descend` and
    `Last` state what one call does; the methods perform it step by step. */
module Patcher {
  import opened Wrappers
  import opened Json
  import opened Deltas
  import opened Options
  import opened PathAnalysis
  import opened ArrayMutators
  import Pruning

  /** What `patch_by_path` leaves behind: `Ok(())` with the edited document, `Err` with the
      document as edited so far, or a panic. */
  datatype SetOutcome = Applied(json: Value) | Rejected(json: Value) | Panicked

  /** The placeholder pushed while descending through indices: `{}` when the item has a
      single index, `[]` otherwise. */
  function Placeholder(count: nat): (p: Value)
    ensures p.Obj? <==> count == 1
    ensures Pruning.IsEmpty(p)
  {
    if count == 1 then Obj([]) else Arr([])
  }

  // ------------------------------------------------------------- the cursor

  /** Where the cursor was taken from: the member `key` of an object, or the element
      between `before` and `after` of an array. */
  datatype Frame = InMember(members: seq<Member>, key: string) | InItem(before: seq<Value>, after: seq<Value>)

  /** A frame with `x` put back in its hole. */
  function Put(f: Frame, x: Value): Value {
    match f
    case InMember(ms, k) => Obj(Set(ms, k, x))
    case InItem(before, after) => Arr(before + [x] + after)
  }

  /** The document with `x` put back through every frame, innermost (last) first. */
  function Plug(ctx: seq<Frame>, x: Value): Value
    decreases |ctx|
  {
    if ctx == [] then x else Plug(ctx[..|ctx| - 1], Put(ctx[|ctx| - 1], x))
  }

  function Within(f: Frame, o: SetOutcome): SetOutcome {
    match o
    case Applied(x) => Applied(Put(f, x))
    case Rejected(x) => Rejected(Put(f, x))
    case Panicked => Panicked
  }

  function PlugOutcome(ctx: seq<Frame>, o: SetOutcome): SetOutcome {
    match o
    case Applied(x) => Applied(Plug(ctx, x))
    case Rejected(x) => Rejected(Plug(ctx, x))
    case Panicked => Panicked
  }

  /** Entering one more frame and finishing inside it is finishing in the outer frames with
      that frame filled. */
  lemma PlugPush(ctx: seq<Frame>, f: Frame, o: SetOutcome)
    ensures PlugOutcome(ctx + [f], o) == PlugOutcome(ctx, Within(f, o))
  {
    assert (ctx + [f])[..|ctx|] == ctx;
  }

  // ------------------------------------------------------------- what one call does

  /** The operation at the last item when the cursor is an object. A bracketed item edits
      the array under the key: Add creates `[]` under a missing key and inserts; Change and
      Delete need an array already there, and anything else (`current[key]` gives `null`
      for a missing key) fails the `as_array_mut().unwrap()`. A plain item sets the key
      under Add and Change and removes it under Delete. */
  function Last(ms: seq<Member>, item: PathItem, value: Value, op: Operation, options: PatchOptions): (o: SetOutcome)
    ensures !o.Rejected?
  {
    var key := item.key;
    if item.isArray then
      match op
      case Add =>
        var target := if Has(ms, key) then Get(ms, key).value else Arr([]);
        if !target.Arr? then Panicked
        else
          (match AfterInsert(target.items, item.indices, value)
           case Ok(x) => Applied(Obj(Set(ms, key, Arr(x))))
           case Panic => Panicked)
      case Change =>
        (match Get(ms, key)
         case Some(Arr(a)) =>
           (match AfterChange(a, item.indices, value)
            case Ok(x) => Applied(Obj(Set(ms, key, Arr(x))))
            case Panic => Panicked)
         case _ => Panicked)
      case Delete =>
        (match Get(ms, key)
         case Some(Arr(a)) => Applied(Obj(Set(ms, key, Arr(AfterRemove(a, item.indices, options.omitEmpty)))))
         case _ => Panicked)
    else
      match op
      case Delete => Applied(Obj(Remove(ms, key)))
      case _ => Applied(Obj(Set(ms, key, value)))
  }

  /** The outcome of running the items from `i` on with the cursor at `cur`, as the
      subtree that replaces `cur`. A `$` item is skipped. At the last item an array cursor
      gets `{key: value}` appended (a bracketed item is an error) and an object cursor gets
      `Last`. Before the last item an object cursor moves into the member `key`, created as
      `[]` (bracketed item, then `Descend`) or `{}` (plain item) when missing; any other
      cursor is an error. */
  function Walk(cur: Value, items: seq<PathItem>, i: nat, value: Value, op: Operation, options: PatchOptions): SetOutcome
    requires i <= |items|
    decreases |items| - i, 0
  {
    if i == |items| then Applied(cur)
    else
      var item := items[i];
      if item.key == "$" then Walk(cur, items, i + 1, value, op, options)
      else if item.isLast && cur.Arr? then
        if item.isArray then Rejected(cur) else Applied(Arr(cur.items + [Obj([Member(item.key, value)])]))
      else if item.isLast && cur.Obj? then Last(cur.members, item, value, op, options)
      else if cur.Obj? then
        var ms := cur.members;
        if item.isArray then
          var child := if Has(ms, item.key) then Get(ms, item.key).value else Arr([]);
          Within(InMember(ms, item.key), Descend(child, item.indices, 0, items, i + 1, value, op, options))
        else
          var child := if Has(ms, item.key) then Get(ms, item.key).value else Obj([]);
          Within(InMember(ms, item.key), Walk(child, items, i + 1, value, op, options))
      else Rejected(cur)
  }

  /** The index loop of a bracketed item, from index `j` on, followed by the items from
      `i` on. The cursor must be an array. Under Add, an empty array or an index past its
      length gets a placeholder pushed and the cursor stays; otherwise an index inside the
      array moves the cursor there, and any other index panics. */
  function Descend(cur: Value, indices: seq<nat>, j: nat, items: seq<PathItem>, i: nat, value: Value, op: Operation, options: PatchOptions): SetOutcome
    requires j <= |indices| && i <= |items|
    decreases |items| - i, |indices| - j + 1
  {
    if j == |indices| then Walk(cur, items, i, value, op, options)
    else if !cur.Arr? then Panicked
    else
      var a := cur.items;
      var index := indices[j];
      if (|a| == 0 || index > |a|) && op == Add then
        Descend(Arr(a + [Placeholder(|indices|)]), indices, j + 1, items, i, value, op, options)
      else if index < |a| then
        Within(InItem(a[..index], a[index + 1..]), Descend(a[index], indices, j + 1, items, i, value, op, options))
      else Panicked
  }

  /** `patch_by_path(json, path, value, operation, options)`. */
  function SetByPath(json: Value, path: string, value: Value, op: Operation, options: PatchOptions): SetOutcome {
    match PathItems(path)
    case Panic => Panicked
    case Ok(items) => Walk(json, items, 0, value, op, options)
  }

  /** A call whose path reads as `items` walks them from the first. */
  lemma SetByPathOf(json: Value, path: string, items: seq<PathItem>, value: Value, op: Operation, options: PatchOptions)
    requires PathItems(path) == Ok(items)
    ensures SetByPath(json, path, value, op, options) == Walk(json, items, 0, value, op, options)
  {
  }

  // One step of `Walk`, one lemma per branch of the loop body.

  lemma WalkSkip(cur: Value, items: seq<PathItem>, i: nat, value: Value, op: Operation, options: PatchOptions)
    requires i < |items| && items[i].key == "$"
    ensures Walk(cur, items, i, value, op, options) == Walk(cur, items, i + 1, value, op, options)
  {
  }

  lemma WalkLastArray(cur: Value, items: seq<PathItem>, i: nat, value: Value, op: Operation, options: PatchOptions)
    requires i < |items| && items[i].key != "$" && items[i].isLast && cur.Arr?
    ensures Walk(cur, items, i, value, op, options) ==
      if items[i].isArray then Rejected(cur) else Applied(Arr(cur.items + [Obj([Member(items[i].key, value)])]))
  {
  }

  lemma WalkLastObject(cur: Value, items: seq<PathItem>, i: nat, value: Value, op: Operation, options: PatchOptions)
    requires i < |items| && items[i].key != "$" && items[i].isLast && cur.Obj?
    ensures Walk(cur, items, i, value, op, options) == Last(cur.members, items[i], value, op, options)
  {
  }

  lemma WalkNotObject(cur: Value, items: seq<PathItem>, i: nat, value: Value, op: Operation, options: PatchOptions)
    requires i < |items| && items[i].key != "$" && !(items[i].isLast && cur.Arr?) && !cur.Obj?
    ensures Walk(cur, items, i, value, op, options) == Rejected(cur)
  {
  }

  lemma WalkIntoMember(cur: Value, items: seq<PathItem>, i: nat, value: Value, op: Operation, options: PatchOptions)
    requires i < |items| && items[i].key != "$" && !items[i].isLast && cur.Obj?
    ensures var item := items[i];
      var created := if item.isArray then Arr([]) else Obj([]);
      var child := if Has(cur.members, item.key) then Get(cur.members, item.key).value else created;
      Walk(cur, items, i, value, op, options) ==
        Within(InMember(cur.members, item.key),
          if item.isArray then Descend(child, item.indices, 0, items, i + 1, value, op, options)
          else Walk(child, items, i + 1, value, op, options))
  {
  }

  // ------------------------------------------------------------- the methods

  /** The last-item branch of `patch_by_path` on an object cursor. */
  method PatchLast(members: seq<Member>, item: PathItem, value: Value, operation: Operation, options: PatchOptions)
    returns (r: SetOutcome)
    ensures r == Last(members, item, value, operation, options)
  {
    var obj := members;
    var key := item.key;
    if item.isArray {
      match operation
      case Add =>
        if !Has(obj, key) {
          obj := Set(obj, key, Arr([]));
          SetGet(members, key, Arr([]));
        }
        var target := Get(obj, key).value;
        if !target.Arr? {
          return Panicked;
        }
        var edited := InsertElement(target.items, item.indices, value);
        if edited.Panic? {
          return Panicked;
        }
        SetSet(members, key, Arr([]), Arr(edited.value));
        return Applied(Obj(Set(obj, key, Arr(edited.value))));
      case Change =>
        var target := Get(obj, key);
        if !(target.Some? && target.value.Arr?) {
          return Panicked;
        }
        var edited := ChangeElement(target.value.items, item.indices, value);
        if edited.Panic? {
          return Panicked;
        }
        return Applied(Obj(Set(obj, key, Arr(edited.value))));
      case Delete =>
        var target := Get(obj, key);
        if !(target.Some? && target.value.Arr?) {
          return Panicked;
        }
        var edited := RemoveElement(target.value.items, item.indices, options.omitEmpty);
        return Applied(Obj(Set(obj, key, Arr(edited))));
    }
    match operation
    case Add =>
      if !Has(obj, key) {
        obj := Set(obj, key, Null);
      }
      SetSet(members, key, Null, value);
      return Applied(Obj(Set(obj, key, value)));
    case Change =>
      return Applied(Obj(Set(obj, key, value)));
    case Delete =>
      return Applied(Obj(Remove(obj, key)));
  }

  /** `patch_by_path`. */
  method PatchByPath(json: Value, path: string, value: Value, operation: Operation, options: PatchOptions)
    returns (r: SetOutcome)
    ensures r == SetByPath(json, path, value, operation, options)
  {
    var analysis := AnalysePath(path);
    if analysis.Panic? {
      return Panicked;
    }
    SetByPathOf(json, path, analysis.value, value, operation, options);
    r := PatchItems(json, analysis.value, value, operation, options);
  }

  /** The loop of `patch_by_path` over the items of the path. */
  method PatchItems(json: Value, items: seq<PathItem>, value: Value, operation: Operation, options: PatchOptions)
    returns (r: SetOutcome)
    ensures r == Walk(json, items, 0, value, operation, options)
  {
    ghost var outcome := Walk(json, items, 0, value, operation, options);
    var ctx: seq<Frame> := [];
    var current := json;
    var i := 0;
    while i < |items|
      invariant i <= |items|
      invariant PlugOutcome(ctx, Walk(current, items, i, value, operation, options)) == outcome
    {
      var done;
      ctx, current, done := Advance(ctx, current, items, i, value, operation, options);
      if done.Some? {
        return done.value;
      }
      i := i + 1;
    }
    return Applied(Plug(ctx, current));
  }

  /** One turn of the loop of `patch_by_path`: either the call ends with an outcome, or the
      cursor moves on to the next item. */
  method Advance(ctx: seq<Frame>, current: Value, items: seq<PathItem>, i: nat,
                 value: Value, operation: Operation, options: PatchOptions)
    returns (ctx': seq<Frame>, current': Value, done: Option<SetOutcome>)
    requires i < |items|
    ensures done.Some? ==> done.value == PlugOutcome(ctx, Walk(current, items, i, value, operation, options))
    ensures done.None? ==>
      PlugOutcome(ctx', Walk(current', items, i + 1, value, operation, options)) ==
      PlugOutcome(ctx, Walk(current, items, i, value, operation, options))
  {
    ctx', current', done := ctx, current, None;
    var item := items[i];
    if item.key == "$" {
      WalkSkip(current, items, i, value, operation, options);
      return;
    }
    if item.isLast && current.Arr? {
      WalkLastArray(current, items, i, value, operation, options);
      if !item.isArray {
        var obj := Set([], item.key, value);
        return ctx, current, Some(Applied(Plug(ctx, Arr(current.items + [Obj(obj)]))));
      }
      return ctx, current, Some(Rejected(Plug(ctx, current)));
    }
    if item.isLast && current.Obj? {
      WalkLastObject(current, items, i, value, operation, options);
      var outcome := PatchLast(current.members, item, value, operation, options);
      return ctx, current, Some(PlugOutcome(ctx, outcome));
    }
    if !current.Obj? {
      WalkNotObject(current, items, i, value, operation, options);
      return ctx, current, Some(Rejected(Plug(ctx, current)));
    }
    var cursor;
    ctx', cursor := MoveDown(ctx, current.members, items, i, value, operation, options);
    if cursor.Panic? {
      return ctx, current, Some(Panicked);
    }
    current' := cursor.value;
  }

  /** The descent part of `patch_by_path` for an item before the last on an object
      cursor: the member `key` is created when missing, the cursor moves into it, and a
      bracketed item then runs its index loop. */
  method MoveDown(ctx: seq<Frame>, members: seq<Member>, items: seq<PathItem>, i: nat,
                  value: Value, operation: Operation, options: PatchOptions)
    returns (ctx': seq<Frame>, cursor: Result<Value>)
    requires i < |items| && items[i].key != "$" && !items[i].isLast
    ensures cursor.Panic? ==> Walk(Obj(members), items, i, value, operation, options) == Panicked
    ensures cursor.Ok? ==>
      PlugOutcome(ctx', Walk(cursor.value, items, i + 1, value, operation, options)) ==
      PlugOutcome(ctx, Walk(Obj(members), items, i, value, operation, options))
  {
    var item := items[i];
    WalkIntoMember(Obj(members), items, i, value, operation, options);
    var obj := members;
    var created := if item.isArray then Arr([]) else Obj([]);
    if !Has(obj, item.key) {
      obj := Set(obj, item.key, created);
    }
    EnterMember(members, obj, item.key, created);
    var child := Get(obj, item.key).value;
    if item.isArray {
      PlugPush(ctx, InMember(obj, item.key), Descend(child, item.indices, 0, items, i + 1, value, operation, options));
      ctx', cursor := PatchIndices(ctx + [InMember(obj, item.key)], child, item.indices, items, i + 1, value, operation, options);
    } else {
      PlugPush(ctx, InMember(obj, item.key), Walk(child, items, i + 1, value, operation, options));
      ctx', cursor := ctx + [InMember(obj, item.key)], Ok(child);
    }
  }

  /** The index loop of a bracketed item: the frames and cursor it leaves, or a panic. */
  method PatchIndices(ctx: seq<Frame>, current: Value, indices: seq<nat>, items: seq<PathItem>, i: nat,
                      value: Value, operation: Operation, options: PatchOptions)
    returns (ctx': seq<Frame>, cursor: Result<Value>)
    requires i <= |items|
    ensures cursor.Panic? ==> Descend(current, indices, 0, items, i, value, operation, options) == Panicked
    ensures cursor.Ok? ==>
      PlugOutcome(ctx', Walk(cursor.value, items, i, value, operation, options)) ==
      PlugOutcome(ctx, Descend(current, indices, 0, items, i, value, operation, options))
  {
    ctx' := ctx;
    var cur := current;
    for j := 0 to |indices|
      invariant PlugOutcome(ctx', Descend(cur, indices, j, items, i, value, operation, options)) ==
        PlugOutcome(ctx, Descend(current, indices, 0, items, i, value, operation, options))
    {
      if !cur.Arr? {
        return ctx', Panic;  // `as_array_mut().unwrap()`
      }
      var arr := cur.items;
      var index := indices[j];
      if (|arr| == 0 || index > |arr|) && operation == Add {
        if |indices| == 1 {
          cur := Arr(arr + [Obj([])]);
        } else {
          cur := Arr(arr + [Arr([])]);
        }
        continue;
      }
      if index >= |arr| {
        return ctx', Panic;  // `current[index]` past the end
      }
      PlugPush(ctx', InItem(arr[..index], arr[index + 1..]), Descend(arr[index], indices, j + 1, items, i, value, operation, options));
      ctx' := ctx' + [InItem(arr[..index], arr[index + 1..])];
      cur := arr[index];
    }
    return ctx', Ok(cur);
  }

  /** Moving into the member `key` of `members`, created as `created` when missing: the
      cursor is the member's value, and what is put back in the object holding the member
      is what would be put back in the original object. */
  lemma EnterMember(members: seq<Member>, obj: seq<Member>, key: string, created: Value)
    requires obj == if Has(members, key) then members else Set(members, key, created)
    ensures Get(obj, key).Some?
    ensures Get(obj, key).value == if Has(members, key) then Get(members, key).value else created
    ensures forall x :: Put(InMember(obj, key), x) == Put(InMember(members, key), x)
  {
    if !Has(members, key) {
      SetGet(members, key, created);
      forall x {
        SetSet(members, key, created, x);
      }
    }
  }

  // ------------------------------------------------------------- well-formedness

  /** The member found under a key of a well-formed object is well formed. */
  lemma WfGet(ms: seq<Member>, k: string)
    requires Wf(Obj(ms)) && Get(ms, k).Some?
    ensures Wf(Get(ms, k).value)
  {
    GetSpec(ms, k);
    var m := Member(k, Get(ms, k).value);
    var i :| 0 <= i < |ms| && ms[i] == m;
  }

  /** Putting a well-formed value back in place of an element of a well-formed array. */
  lemma WfSplice(before: seq<Value>, hole: Value, after: seq<Value>, x: Value)
    requires Wf(Arr(before + [hole] + after)) && Wf(x)
    ensures Wf(Put(InItem(before, after), x))
  {
    var a := before + [hole] + after;
    var b := before + [x] + after;
    assert forall j :: 0 <= j < |b| && j != |before| ==> b[j] == a[j];
  }

  lemma WfAppend(a: seq<Value>, x: Value)
    requires Wf(Arr(a)) && Wf(x)
    ensures Wf(Arr(a + [x]))
  {
    assert forall j :: 0 <= j < |a| ==> (a + [x])[j] == a[j];
  }

  lemma LastWf(ms: seq<Member>, item: PathItem, value: Value, op: Operation, options: PatchOptions)
    requires Wf(Obj(ms)) && Wf(value)
    ensures Last(ms, item, value, op, options).Applied? ==> Wf(Last(ms, item, value, op, options).json)
  {
    var key := item.key;
    if item.isArray {
      if Get(ms, key).Some? {
        WfGet(ms, key);
      }
      var target := if Has(ms, key) then Get(ms, key).value else Arr([]);
      if target.Arr? {
        match op
        case Add =>
          InsertWf(target.items, item.indices, value);
          if AfterInsert(target.items, item.indices, value).Ok? {
            WfSet(ms, key, Arr(AfterInsert(target.items, item.indices, value).value));
          }
        case Change =>
          ChangeWf(target.items, item.indices, value);
          if AfterChange(target.items, item.indices, value).Ok? {
            WfSet(ms, key, Arr(AfterChange(target.items, item.indices, value).value));
          }
        case Delete =>
          RemoveWf(target.items, item.indices, options.omitEmpty);
          WfSet(ms, key, Arr(AfterRemove(target.items, item.indices, options.omitEmpty)));
      }
    } else if op == Delete {
      WfRemove(ms, key);
    } else {
      WfSet(ms, key, value);
    }
  }

  /** `patch_by_path` keeps every object a well-formed map, also in the document it leaves
      behind on an error. */
  lemma {:induction false} WalkWf(cur: Value, items: seq<PathItem>, i: nat, value: Value, op: Operation, options: PatchOptions)
    requires i <= |items| && Wf(cur) && Wf(value)
    ensures var o := Walk(cur, items, i, value, op, options); !o.Panicked? ==> Wf(o.json)
    decreases |items| - i, 0
  {
    if i < |items| {
      var item := items[i];
      if item.key == "$" {
        WalkWf(cur, items, i + 1, value, op, options);
      } else if item.isLast && cur.Arr? {
        if !item.isArray {
          assert Wf(Obj([Member(item.key, value)]));
          WfAppend(cur.items, Obj([Member(item.key, value)]));
        }
      } else if item.isLast && cur.Obj? {
        LastWf(cur.members, item, value, op, options);
      } else if cur.Obj? {
        var ms := cur.members;
        if Has(ms, item.key) {
          WfGet(ms, item.key);
        }
        var child := if Has(ms, item.key) then Get(ms, item.key).value else if item.isArray then Arr([]) else Obj([]);
        var o := if item.isArray then Descend(child, item.indices, 0, items, i + 1, value, op, options)
                 else Walk(child, items, i + 1, value, op, options);
        if item.isArray {
          DescendWf(child, item.indices, 0, items, i + 1, value, op, options);
        } else {
          WalkWf(child, items, i + 1, value, op, options);
        }
        if !o.Panicked? {
          WfSet(ms, item.key, o.json);
        }
      }
    }
  }

  lemma {:induction false} DescendWf(cur: Value, indices: seq<nat>, j: nat, items: seq<PathItem>, i: nat, value: Value, op: Operation, options: PatchOptions)
    requires j <= |indices| && i <= |items| && Wf(cur) && Wf(value)
    ensures var o := Descend(cur, indices, j, items, i, value, op, options); !o.Panicked? ==> Wf(o.json)
    decreases |items| - i, |indices| - j + 1
  {
    if j == |indices| {
      WalkWf(cur, items, i, value, op, options);
    } else if cur.Arr? {
      var a := cur.items;
      var index := indices[j];
      if (|a| == 0 || index > |a|) && op == Add {
        WfAppend(a, Placeholder(|indices|));
        DescendWf(Arr(a + [Placeholder(|indices|)]), indices, j + 1, items, i, value, op, options);
      } else if index < |a| {
        assert a == a[..index] + [a[index]] + a[index + 1..];
        DescendWf(a[index], indices, j + 1, items, i, value, op, options);
        var o := Descend(a[index], indices, j + 1, items, i, value, op, options);
        if !o.Panicked? {
          WfSplice(a[..index], a[index], a[index + 1..], o.json);
        }
      }
    }
  }

  /** `patch_by_path` on a well-formed document and value. */
  lemma SetByPathWf(json: Value, path: string, value: Value, op: Operation, options: PatchOptions)
    requires Wf(json) && Wf(value)
    ensures var o := SetByPath(json, path, value, op, options); !o.Panicked? ==> Wf(o.json)
  {
    if PathItems(path).Ok? {
      WalkWf(json, PathItems(path).value, 0, value, op, options);
    }
  }

  // ------------------------------------------------------------- patch

  /** One delta applied with `patch_by_path(..).unwrap()`: an error panics like a panic. */
  function Step(json: Value, d: Delta, options: PatchOptions): Result<Value> {
    match SetByPath(json, d.path, d.newValue, d.operation, options)
    case Applied(x) => Ok(x)
    case _ => Panic
  }

  /** The deltas applied one after the other, in list order; the first failure aborts. */
  function ApplyAll(json: Value, deltas: seq<Delta>, options: PatchOptions): Result<Value>
    decreases |deltas|
  {
    if deltas == [] then Ok(json)
    else
      match Step(json, deltas[0], options)
      case Ok(x) => ApplyAll(x, deltas[1..], options)
      case Panic => Panic
  }

  /** `patch(base, deltas, options)`: the deltas applied in order, then the empty values
      pruned when `omit_empty` is set. */
  function PatchResult(base: Value, deltas: seq<Delta>, options: PatchOptions): Result<Value> {
    match ApplyAll(base, deltas, options)
    case Ok(x) => Ok(if options.omitEmpty then Pruning.Pruned(x) else x)
    case Panic => Panic
  }

  /** Every delta's new value is well formed. */
  predicate ValuesWf(deltas: seq<Delta>) {
    forall k :: 0 <= k < |deltas| ==> Wf(deltas[k].newValue)
  }

  /** Applying deltas to a well-formed document keeps it well formed. */
  lemma {:induction false} ApplyAllWf(json: Value, deltas: seq<Delta>, options: PatchOptions)
    requires Wf(json) && ValuesWf(deltas)
    ensures ApplyAll(json, deltas, options).Ok? ==> Wf(ApplyAll(json, deltas, options).value)
    decreases |deltas|
  {
    if deltas != [] {
      SetByPathWf(json, deltas[0].path, deltas[0].newValue, deltas[0].operation, options);
      if Step(json, deltas[0], options).Ok? {
        ApplyAllWf(Step(json, deltas[0], options).value, deltas[1..], options);
      }
    }
  }

  /** One turn of the loop of `patch`. */
  lemma ApplyAllStep(json: Value, deltas: seq<Delta>, k: nat, options: PatchOptions)
    requires k < |deltas|
    ensures ApplyAll(json, deltas[k..], options) ==
      match Step(json, deltas[k], options)
      case Ok(x) => ApplyAll(x, deltas[k + 1..], options)
      case Panic => Panic
  {
    assert deltas[k..][1..] == deltas[k + 1..];
  }

  /** `patch`. */
  method Patch(base: Value, deltas: seq<Delta>, options: PatchOptions) returns (r: Result<Value>)
    requires Wf(base) && ValuesWf(deltas)
    ensures r == PatchResult(base, deltas, options)
  {
    var baseValue := base;
    for k := 0 to |deltas|
      invariant Wf(baseValue)
      invariant ApplyAll(baseValue, deltas[k..], options) == ApplyAll(base, deltas, options)
    {
      var d := deltas[k];
      var outcome := PatchByPath(baseValue, d.path, d.newValue, d.operation, options);
      ApplyAllStep(baseValue, deltas, k, options);
      if !outcome.Applied? {
        return Panic;  // `unwrap`
      }
      SetByPathWf(baseValue, d.path, d.newValue, d.operation, options);
      baseValue := outcome.json;
    }
    if options.omitEmpty {
      baseValue := Pruning.RemoveEmptyLevels(baseValue);
    }
    return Ok(baseValue);
  }
}
