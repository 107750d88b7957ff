/** Two paths the differ writes for arrays of objects, `$.k[i].b` with `i` at or past the
    end of the array under `k`, which `patch_by_path` does not handle as the differ needs,
    next to a corrected index loop that does. */
module PatcherFindings {
  import opened Wrappers
  import opened Json
  import opened Deltas
  import opened Options
  import opened PathAnalysis
  import opened Patcher
  import opened PatcherProperties
  import Text

  // ------------------------------------------------------------- the code as written

  /** The items of `$.k[i].b`. */
  lemma RowItems(k: string, i: nat, b: string)
    ensures var items := PartItems([Part(k, [i]), Part(b, [])]);
      |items| == 3 && items[1] == PathItem(k, true, [i], false) && items[2] == PathItem(b, false, [], true)
  {
    var parts := [Part(k, [i]), Part(b, [])];
    assert PartItems(parts)[0 + 1] == ItemOf(parts, 0);
    assert PartItems(parts)[1 + 1] == ItemOf(parts, 1);
  }

  /** The array a bracketed segment starts from: the one under `k`, or `[]` when `k` is
      missing. */
  lemma RowStart(ms: seq<Member>, k: string, l: seq<Value>)
    requires ArrayUnder(ms, k) == Some(l)
    ensures (if Has(ms, k) then Get(ms, k).value else Arr([])) == Arr(l)
  {
  }

  /** `$.k[i].b` under Add with `i` at or past the end of the array `l` under `k`: when `l`
      is empty or `i` is past its end, the placeholder `{}` is pushed but the cursor stays
      on `l`, so the plain last segment appends a second element `{b: value}` after it; when
      `i` is exactly `|l|` (and `l` is not empty) the index is read out of range and the
      call panics. */
  lemma AsWrittenRowPastEnd(ms: seq<Member>, k: string, l: seq<Value>, i: nat, b: string, value: Value, options: PatchOptions)
    requires PlainKey(k) && PlainKey(b) && i <= UsizeMax
    requires ArrayUnder(ms, k) == Some(l) && i >= |l|
    ensures SetByPath(Obj(ms), PathText([Part(k, [i]), Part(b, [])]), value, Add, options) ==
      if |l| > 0 && i == |l| then Panicked
      else Applied(Obj(Set(ms, k, Arr(l + [Obj([]), Obj([Member(b, value)])]))))
  {
    var parts := [Part(k, [i]), Part(b, [])];
    var items := PartItems(parts);
    RowItems(k, i, b);
    SetByPathParts(Obj(ms), parts, value, Add, options);
    WalkIntoMember(Obj(ms), items, 1, value, Add, options);
    RowStart(ms, k, l);
    AsWrittenRowDescend(l, i, items, b, value, options);
  }

  /** The index loop of `$.k[i].b`, as written, on the array `l` with `i` at or past its
      end. */
  lemma AsWrittenRowDescend(l: seq<Value>, i: nat, items: seq<PathItem>, b: string, value: Value, options: PatchOptions)
    requires |items| == 3 && items[2] == PathItem(b, false, [], true) && b != "$" && i >= |l|
    ensures Descend(Arr(l), [i], 0, items, 2, value, Add, options) ==
      if |l| > 0 && i == |l| then Panicked else Applied(Arr(l + [Obj([]), Obj([Member(b, value)])]))
  {
    if !(|l| > 0 && i == |l|) {
      var row := l + [Placeholder(1)];
      assert Descend(Arr(l), [i], 0, items, 2, value, Add, options) == Descend(Arr(row), [i], 1, items, 2, value, Add, options);
      WalkLastArray(Arr(row), items, 2, value, Add, options);
      assert row + [Obj([Member(b, value)])] == l + [Obj([]), Obj([Member(b, value)])];
    }
  }

  /** Adding `$.k[0].b` to `{}` leaves an empty object in front of `{b: value}`. */
  lemma AsWrittenFromEmpty(k: string, b: string, value: Value)
    requires PlainKey(k) && PlainKey(b)
    ensures SetByPath(Obj([]), "$." + k + "[0]." + b, value, Add, New()) ==
      Applied(Obj([Member(k, Arr([Obj([]), Obj([Member(b, value)])]))]))
  {
    var parts := [Part(k, [0]), Part(b, [])];
    assert PathText(parts) == "$." + k + "[0]." + b by {
      RowPath(k, 0, b);
      DigitPath(k, 0, b);
    }
    assert SetByPath(Obj([]), PathText(parts), value, Add, New()) ==
      Applied(Obj([Member(k, Arr([Obj([]), Obj([Member(b, value)])]))])) by {
      AsWrittenRowPastEnd([], k, [], 0, b, value, New());
      assert [] + [Obj([]), Obj([Member(b, value)])] == [Obj([]), Obj([Member(b, value)])];
    }
  }

  /** Adding `$.k[1].b` next to one element panics. */
  lemma AsWrittenAtLength(k: string, b: string, x: Value, value: Value)
    requires PlainKey(k) && PlainKey(b)
    ensures SetByPath(Obj([Member(k, Arr([x]))]), "$." + k + "[1]." + b, value, Add, New()) == Panicked
  {
    var parts := [Part(k, [1]), Part(b, [])];
    assert PathText(parts) == "$." + k + "[1]." + b by {
      RowPath(k, 1, b);
      DigitPath(k, 1, b);
    }
    assert SetByPath(Obj([Member(k, Arr([x]))]), PathText(parts), value, Add, New()) == Panicked by {
      AsWrittenRowPastEnd([Member(k, Arr([x]))], k, [x], 1, b, value, New());
    }
  }

  /** The digits of 0 and 1. */
  lemma DigitPath(k: string, i: nat, b: string)
    requires i <= 1
    ensures "$." + k + "[" + Text.NatToString(i) + "]." + b == "$." + k + (if i == 0 then "[0]." else "[1].") + b
  {
    assert Text.NatToString(i) == if i == 0 then "0" else "1";
    assert "[" + "0" + "]." == "[0].";
    assert "[" + "1" + "]." == "[1].";
  }

  /** `$.k[i].b` as the differ writes it. */
  lemma RowPath(k: string, i: nat, b: string)
    ensures PathText([Part(k, [i]), Part(b, [])]) == "$." + k + "[" + Text.NatToString(i) + "]." + b
  {
    var parts := [Part(k, [i]), Part(b, [])];
    var mid := k + "[" + Text.NatToString(i) + "]";
    assert [i][1..] == [];
    assert Brackets([i]) == "[" + Text.NatToString(i) + "]";
    assert Segment(b, []) == b;
    assert Segments(parts)[0] == k + Brackets([i]) == mid;
    assert Segments(parts)[1] == b;
    assert Segments(parts) == [mid, b];
    var segs := ["$"] + Segments(parts);
    assert segs == ["$", mid, b];
    assert segs[1..] == [mid, b] && segs[1..][1..] == [b];
    assert Text.JoinWith([b], '.') == b;
    assert Text.JoinWith([mid, b], '.') == mid + "." + b;
    assert Text.JoinWith(segs, '.') == "$" + "." + (mid + "." + b);
  }

  // ------------------------------------------------------------- corrected

  /** `Walk` with the corrected index loop. */
  function WalkFixed(cur: Value, items: seq<PathItem>, i: nat, value: Value, op: Operation, options: PatchOptions): SetOutcome
    requires i <= |items|
    decreases |items| - i, 0
  {
    if i == |items| then Applied(cur)
    else
      var item := items[i];
      if item.key == "$" then WalkFixed(cur, items, i + 1, value, op, options)
      else if item.isLast && cur.Arr? then
        if item.isArray then Rejected(cur) else Applied(Arr(cur.items + [Obj([Member(item.key, value)])]))
      else if item.isLast && cur.Obj? then Last(cur.members, item, value, op, options)
      else if cur.Obj? then
        var ms := cur.members;
        if item.isArray then
          var child := if Has(ms, item.key) then Get(ms, item.key).value else Arr([]);
          Within(InMember(ms, item.key), DescendFixed(child, item.indices, 0, items, i + 1, value, op, options))
        else
          var child := if Has(ms, item.key) then Get(ms, item.key).value else Obj([]);
          Within(InMember(ms, item.key), WalkFixed(child, items, i + 1, value, op, options))
      else Rejected(cur)
  }

  /** The corrected index loop: under Add, an index at or past the end of the array pushes
      a placeholder, `{}` for the last index (the next segment is a key) and `[]` before
      it, and the cursor moves into the element just pushed. */
  function DescendFixed(cur: Value, indices: seq<nat>, j: nat, items: seq<PathItem>, i: nat, value: Value, op: Operation, options: PatchOptions): SetOutcome
    requires j <= |indices| && i <= |items|
    decreases |items| - i, |indices| - j + 1
  {
    if j == |indices| then WalkFixed(cur, items, i, value, op, options)
    else if !cur.Arr? then Panicked
    else
      var a := cur.items;
      var index := indices[j];
      if index >= |a| && op == Add then
        var p := if j == |indices| - 1 then Obj([]) else Arr([]);
        Within(InItem(a, []), DescendFixed(p, indices, j + 1, items, i, value, op, options))
      else if index < |a| then
        Within(InItem(a[..index], a[index + 1..]), DescendFixed(a[index], indices, j + 1, items, i, value, op, options))
      else Panicked
  }

  /** `patch_by_path` with the corrected index loop. */
  function SetByPathFixed(json: Value, path: string, value: Value, op: Operation, options: PatchOptions): SetOutcome {
    match PathItems(path)
    case Panic => Panicked
    case Ok(items) => WalkFixed(json, items, 0, value, op, options)
  }

  /** The index loop of `$.k[i].b`, corrected, on the array `l` with `i` at or past its end. */
  lemma FixedRowDescend(l: seq<Value>, i: nat, items: seq<PathItem>, b: string, value: Value, options: PatchOptions)
    requires |items| == 3 && items[2] == PathItem(b, false, [], true) && b != "$" && i >= |l|
    ensures DescendFixed(Arr(l), [i], 0, items, 2, value, Add, options) == Applied(Arr(l + [Obj([Member(b, value)])]))
  {
    assert WalkFixed(Obj([]), items, 2, value, Add, options) == Last([], items[2], value, Add, options);
    assert DescendFixed(Obj([]), [i], 1, items, 2, value, Add, options) == Applied(Obj([Member(b, value)]));
    assert l + [Obj([Member(b, value)])] + [] == l + [Obj([Member(b, value)])];
  }

  /** With the corrected loop, `$.k[i].b` under Add with `i` at or past the end of the
      array `l` under `k` appends exactly `{b: value}` to `l`, which is what the differ's
      Add delta for a new element of an array of objects asks for. */
  lemma FixedRowPastEnd(ms: seq<Member>, k: string, l: seq<Value>, i: nat, b: string, value: Value, options: PatchOptions)
    requires PlainKey(k) && PlainKey(b) && i <= UsizeMax
    requires ArrayUnder(ms, k) == Some(l) && i >= |l|
    ensures SetByPathFixed(Obj(ms), PathText([Part(k, [i]), Part(b, [])]), value, Add, options) ==
      Applied(Obj(Set(ms, k, Arr(l + [Obj([Member(b, value)])]))))
  {
    var parts := [Part(k, [i]), Part(b, [])];
    var items := PartItems(parts);
    RowItems(k, i, b);
    PathTextItems(parts);
    assert SetByPathFixed(Obj(ms), PathText(parts), value, Add, options) == WalkFixed(Obj(ms), items, 1, value, Add, options);
    RowStart(ms, k, l);
    assert WalkFixed(Obj(ms), items, 1, value, Add, options) ==
      Within(InMember(ms, k), DescendFixed(Arr(l), [i], 0, items, 2, value, Add, options));
    FixedRowDescend(l, i, items, b, value, options);
  }

  /** With the corrected loop, adding `$.k[0].b` to `{}` gives `{k: [{b: value}]}`. */
  lemma FixedFromEmpty(k: string, b: string, value: Value)
    requires PlainKey(k) && PlainKey(b)
    ensures SetByPathFixed(Obj([]), "$." + k + "[0]." + b, value, Add, New()) ==
      Applied(Obj([Member(k, Arr([Obj([Member(b, value)])]))]))
  {
    var parts := [Part(k, [0]), Part(b, [])];
    assert PathText(parts) == "$." + k + "[0]." + b by {
      RowPath(k, 0, b);
      DigitPath(k, 0, b);
    }
    assert SetByPathFixed(Obj([]), PathText(parts), value, Add, New()) ==
      Applied(Obj([Member(k, Arr([Obj([Member(b, value)])]))])) by {
      FixedRowPastEnd([], k, [], 0, b, value, New());
      assert [] + [Obj([Member(b, value)])] == [Obj([Member(b, value)])];
    }
  }

  /** With the corrected loop, adding `$.k[1].b` next to one element appends it. */
  lemma FixedAtLength(k: string, b: string, x: Value, value: Value)
    requires PlainKey(k) && PlainKey(b)
    ensures SetByPathFixed(Obj([Member(k, Arr([x]))]), "$." + k + "[1]." + b, value, Add, New()) ==
      Applied(Obj([Member(k, Arr([x, Obj([Member(b, value)])]))]))
  {
    var parts := [Part(k, [1]), Part(b, [])];
    assert PathText(parts) == "$." + k + "[1]." + b by {
      RowPath(k, 1, b);
      DigitPath(k, 1, b);
    }
    assert SetByPathFixed(Obj([Member(k, Arr([x]))]), PathText(parts), value, Add, New()) ==
      Applied(Obj([Member(k, Arr([x, Obj([Member(b, value)])]))])) by {
      FixedRowPastEnd([Member(k, Arr([x]))], k, [x], 1, b, value, New());
      assert [x] + [Obj([Member(b, value)])] == [x, Obj([Member(b, value)])];
      assert Set([Member(k, Arr([x]))], k, Arr([x, Obj([Member(b, value)])])) == [Member(k, Arr([x, Obj([Member(b, value)])]))];
    }
  }
}
