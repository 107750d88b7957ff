/** What `patch_by_path` and `patch` do for paths written the way the differ writes them:
    `$` followed by `.`-separated segments, each a key and its `[i]` groups. */
module PatcherProperties {
  import opened Wrappers
  import opened Json
  import opened Deltas
  import opened Options
  import opened PathAnalysis
  import opened ArrayMutators
  import opened Patcher
  import Pruning
  import Text

  // ------------------------------------------------------------- written paths

  /** One segment of a path: a key and its index groups. */
  datatype Part = Part(key: string, indices: seq<nat>)

  /** A key that reads back as itself: no `.`, no `[`, and not the root marker. */
  predicate PlainKey(k: string) {
    '.' !in k && '[' !in k && k != "$"
  }

  predicate Readable(parts: seq<Part>) {
    forall i :: 0 <= i < |parts| ==>
      PlainKey(parts[i].key) && forall j :: 0 <= j < |parts[i].indices| ==> parts[i].indices[j] <= UsizeMax
  }

  function Segments(parts: seq<Part>): (segs: seq<string>)
    ensures |segs| == |parts|
    ensures forall i :: 0 <= i < |parts| ==> segs[i] == Segment(parts[i].key, parts[i].indices)
  {
    seq(|parts|, i requires 0 <= i < |parts| => Segment(parts[i].key, parts[i].indices))
  }

  /** The path `$.k1[..].k2[..]...` written from its parts. */
  function PathText(parts: seq<Part>): string {
    Text.JoinWith(["$"] + Segments(parts), '.')
  }

  /** The item a part reads as, at position `i` of `parts`. */
  function ItemOf(parts: seq<Part>, i: nat): PathItem
    requires i < |parts|
  {
    PathItem(parts[i].key, parts[i].indices != [], parts[i].indices, i == |parts| - 1)
  }

  /** The items a written path reads as: the root marker, then one item per part. */
  function PartItems(parts: seq<Part>): (items: seq<PathItem>)
    ensures |items| == |parts| + 1
    ensures items[0] == PathItem("$", false, [], parts == [])
    ensures forall i :: 0 <= i < |parts| ==> items[i + 1] == ItemOf(parts, i)
  {
    [PathItem("$", false, [], parts == [])] + seq(|parts|, i requires 0 <= i < |parts| => ItemOf(parts, i))
  }

  /** Every segment of a written path is readable and has no `.`. */
  lemma SegmentsReadable(parts: seq<Part>)
    requires Readable(parts)
    ensures var segs := ["$"] + Segments(parts);
      forall i :: 0 <= i < |segs| ==> '.' !in segs[i] && !Unreadable(segs[i])
  {
    var segs := ["$"] + Segments(parts);
    forall i | 0 <= i < |segs|
      ensures '.' !in segs[i] && !Unreadable(segs[i])
    {
      if i > 0 {
        SegmentItem(parts[i - 1].key, parts[i - 1].indices, false);
      }
    }
  }

  /** The item read from one segment of a written path is its part. */
  lemma SegmentItemAt(parts: seq<Part>, segs: seq<string>, i: nat)
    requires Readable(parts) && segs == ["$"] + Segments(parts) && i < |segs|
    ensures !Unreadable(segs[i]) && ItemFor(segs[i], i == |segs| - 1) == PartItems(parts)[i]
  {
    if i == 0 {
      RootSegmentItem(parts, segs);
    } else {
      PartSegmentItem(parts, segs, i);
    }
  }

  lemma RootSegmentItem(parts: seq<Part>, segs: seq<string>)
    requires segs == ["$"] + Segments(parts)
    ensures !Unreadable(segs[0]) && ItemFor(segs[0], 0 == |segs| - 1) == PartItems(parts)[0]
  {
    SegmentItem("$", [], parts == []);
    assert Segment("$", []) == "$" == segs[0];
  }

  lemma PartSegmentItem(parts: seq<Part>, segs: seq<string>, i: nat)
    requires Readable(parts) && segs == ["$"] + Segments(parts) && 0 < i < |segs|
    ensures !Unreadable(segs[i]) && ItemFor(segs[i], i == |segs| - 1) == PartItems(parts)[i]
  {
    var p := parts[i - 1];
    assert PlainKey(p.key) && forall j :: 0 <= j < |p.indices| ==> p.indices[j] <= UsizeMax;
    assert segs[i] == Segments(parts)[i - 1] == Segment(p.key, p.indices);
    SegmentItem(p.key, p.indices, i == |segs| - 1);
    assert PartItems(parts)[(i - 1) + 1] == ItemOf(parts, i - 1);
  }

  /** The items read from the segments of a written path are its parts. */
  lemma SegmentsItems(parts: seq<Part>, segs: seq<string>)
    requires Readable(parts) && segs == ["$"] + Segments(parts)
    requires forall i :: 0 <= i < |segs| ==> !Unreadable(segs[i])
    ensures ItemsFor(segs, |segs|) == PartItems(parts)
  {
    ItemsForShape(segs, |segs|);
    var items := ItemsFor(segs, |segs|);
    var expected := PartItems(parts);
    forall i | 0 <= i < |segs|
      ensures items[i] == expected[i]
    {
      SegmentItemAt(parts, segs, i);
    }
  }

  /** A written path reads back as its parts. */
  lemma PathTextItems(parts: seq<Part>)
    requires Readable(parts)
    ensures PathItems(PathText(parts)) == Ok(PartItems(parts))
  {
    var segs := ["$"] + Segments(parts);
    SegmentsReadable(parts);
    SegmentsItems(parts, segs);
    PathOfSegments(segs);
  }

  /** Patching a written path runs the walk from the first part, the root marker being
      skipped. */
  lemma SetByPathParts(json: Value, parts: seq<Part>, value: Value, op: Operation, options: PatchOptions)
    requires Readable(parts)
    ensures SetByPath(json, PathText(parts), value, op, options) == Walk(json, PartItems(parts), 1, value, op, options)
  {
    PathTextItems(parts);
    SetByPathOf(json, PathText(parts), PartItems(parts), value, op, options);
    WalkSkip(json, PartItems(parts), 0, value, op, options);
  }

  // ------------------------------------------------------------- single calls

  /** `$[i][j]...` reads as one item whose key is the root marker, so the whole call is a
      no-op on any document: indices written onto the root are never applied. */
  lemma RootIndicesIgnored(json: Value, indices: seq<nat>, value: Value, op: Operation, options: PatchOptions)
    requires forall i :: 0 <= i < |indices| ==> indices[i] <= UsizeMax
    ensures SetByPath(json, "$" + Brackets(indices), value, op, options) == Applied(json)
  {
    var seg := Segment("$", indices);
    SegmentItem("$", indices, true);
    SingleSegment(seg);
    var items := [ItemFor(seg, true)];
    SetByPathOf(json, seg, items, value, op, options);
    WalkSkip(json, items, 0, value, op, options);
  }

  /** A single plain key is written as `$.k`. */
  lemma TopLevelPath(k: string)
    ensures PathText([Part(k, [])]) == "$." + k
  {
    assert Segment(k, []) == k;
    assert Segments([Part(k, [])]) == [k];
    assert Text.JoinWith([k], '.') == k;
  }

  /** `$.k` on an object: Add and Change store the value under `k` and Delete removes `k`;
      every other key keeps what it held, and deleting an absent key changes nothing. */
  lemma TopLevelKey(ms: seq<Member>, k: string, value: Value, op: Operation, options: PatchOptions)
    requires PlainKey(k)
    ensures var r := SetByPath(Obj(ms), "$." + k, value, op, options);
      r == Applied(Obj(if op == Delete then Remove(ms, k) else Set(ms, k, value))) &&
      Get(r.json.members, k) == (if op == Delete then None else Some(value)) &&
      (forall j :: j != k ==> Get(r.json.members, j) == Get(ms, j)) &&
      (op == Delete && !Has(ms, k) ==> r == Applied(Obj(ms)))
  {
    var parts := [Part(k, [])];
    TopLevelPath(k);
    SetByPathParts(Obj(ms), parts, value, op, options);
    var items := PartItems(parts);
    assert items[1] == PathItem(k, false, [], true);
    WalkLastObject(Obj(ms), items, 1, value, op, options);
    SetGet(ms, k, value);
    RemoveSpec(ms, k);
    if op == Delete && !Has(ms, k) {
      GetSpec(ms, k);
      RemoveAbsent(ms, k);
    }
  }

  /** The parts of a path made of keys only. */
  function KeyParts(keys: seq<string>): (parts: seq<Part>)
    ensures |parts| == |keys|
    ensures forall i :: 0 <= i < |keys| ==> parts[i] == Part(keys[i], [])
  {
    seq(|keys|, i requires 0 <= i < |keys| => Part(keys[i], []))
  }

  /** The value reached by following `keys` through objects. */
  function Lookup(v: Value, keys: seq<string>): Option<Value>
    decreases |keys|
  {
    if keys == [] then Some(v)
    else if !v.Obj? then None
    else
      match Get(v.members, keys[0])
      case None => None
      case Some(child) => Lookup(child, keys[1..])
  }

  /** Following `keys` from `v` meets only objects, or stops at a missing key. */
  predicate ObjectsAlong(v: Value, keys: seq<string>)
    decreases |keys|
  {
    keys == [] ||
    (v.Obj? &&
     (|keys| == 1 ||
      match Get(v.members, keys[0])
      case None => true
      case Some(child) => ObjectsAlong(child, keys[1..])))
  }

  lemma {:induction false} WalkKeys(cur: Value, keys: seq<string>, i: nat, value: Value, op: Operation, options: PatchOptions)
    requires i < |keys| && forall j :: 0 <= j < |keys| ==> PlainKey(keys[j])
    requires ObjectsAlong(cur, keys[i..])
    ensures var o := Walk(cur, PartItems(KeyParts(keys)), i + 1, value, op, options);
      o.Applied? && Lookup(o.json, keys[i..]) == if op == Delete then None else Some(value)
    decreases |keys| - i, 1
  {
    if i == |keys| - 1 {
      WalkLastKey(cur, keys, i, value, op, options);
    } else {
      WalkInnerKey(cur, keys, i, value, op, options);
    }
  }

  /** The last key is set, or removed under Delete. */
  lemma WalkLastKey(cur: Value, keys: seq<string>, i: nat, value: Value, op: Operation, options: PatchOptions)
    requires i == |keys| - 1 && forall j :: 0 <= j < |keys| ==> PlainKey(keys[j])
    requires ObjectsAlong(cur, keys[i..])
    ensures var o := Walk(cur, PartItems(KeyParts(keys)), i + 1, value, op, options);
      o.Applied? && Lookup(o.json, keys[i..]) == if op == Delete then None else Some(value)
  {
    var k := keys[i];
    assert keys[i..] == [k];
    WalkLastObject(cur, PartItems(KeyParts(keys)), i + 1, value, op, options);
    SetGet(cur.members, k, value);
    RemoveSpec(cur.members, k);
  }

  /** An inner key is followed into its object, created when missing. */
  lemma {:induction false} WalkInnerKey(cur: Value, keys: seq<string>, i: nat, value: Value, op: Operation, options: PatchOptions)
    requires i < |keys| - 1 && forall j :: 0 <= j < |keys| ==> PlainKey(keys[j])
    requires ObjectsAlong(cur, keys[i..])
    ensures var o := Walk(cur, PartItems(KeyParts(keys)), i + 1, value, op, options);
      o.Applied? && Lookup(o.json, keys[i..]) == if op == Delete then None else Some(value)
    decreases |keys| - i, 0
  {
    var items := PartItems(KeyParts(keys));
    var k := keys[i];
    var ms := cur.members;
    assert keys[i..][0] == k && keys[i..][1..] == keys[i + 1..];
    WalkIntoMember(cur, items, i + 1, value, op, options);
    var child := if Has(ms, k) then Get(ms, k).value else Obj([]);
    WalkKeys(child, keys, i + 1, value, op, options);
    SetGet(ms, k, Walk(child, items, i + 2, value, op, options).json);
  }

  /** `$.k1.k2...kn` on a document where following the keys meets only objects (or stops
      at a missing key): the missing objects are created on the way down, and afterwards
      the path leads to the value under Add and Change and to nothing under Delete. */
  lemma NestedKeys(json: Value, keys: seq<string>, value: Value, op: Operation, options: PatchOptions)
    requires keys != [] && forall j :: 0 <= j < |keys| ==> PlainKey(keys[j])
    requires ObjectsAlong(json, keys)
    ensures var r := SetByPath(json, PathText(KeyParts(keys)), value, op, options);
      r.Applied? && Lookup(r.json, keys) == if op == Delete then None else Some(value)
  {
    KeyPartsReadable(keys);
    SetByPathParts(json, KeyParts(keys), value, op, options);
    WalkAllKeys(json, keys, value, op, options);
  }

  lemma KeyPartsReadable(keys: seq<string>)
    requires forall j :: 0 <= j < |keys| ==> PlainKey(keys[j])
    ensures Readable(KeyParts(keys))
  {
  }

  lemma WalkAllKeys(json: Value, keys: seq<string>, value: Value, op: Operation, options: PatchOptions)
    requires keys != [] && forall j :: 0 <= j < |keys| ==> PlainKey(keys[j])
    requires ObjectsAlong(json, keys)
    ensures var o := Walk(json, PartItems(KeyParts(keys)), 1, value, op, options);
      o.Applied? && Lookup(o.json, keys) == if op == Delete then None else Some(value)
  {
    assert keys[0..] == keys;
    WalkKeys(json, keys, 0, value, op, options);
  }

  /** `$.a.b` where `a` holds an array: a plain last segment appends `{b: value}` to that
      array whatever the operation; a bracketed one is an error that changes nothing. */
  lemma ArrayCursorAtLast(ms: seq<Member>, a: string, xs: seq<Value>, b: Part, value: Value, op: Operation, options: PatchOptions)
    requires Readable([Part(a, []), b])
    requires Get(ms, a) == Some(Arr(xs))
    ensures var r := SetByPath(Obj(ms), PathText([Part(a, []), b]), value, op, options);
      r == if b.indices == [] then Applied(Obj(Set(ms, a, Arr(xs + [Obj([Member(b.key, value)])]))))
           else Rejected(Obj(Set(ms, a, Arr(xs))))
    ensures Sorted(ms) && b.indices != [] ==> SetByPath(Obj(ms), PathText([Part(a, []), b]), value, op, options) == Rejected(Obj(ms))
  {
    var parts := [Part(a, []), b];
    var items := PartItems(parts);
    SetByPathParts(Obj(ms), parts, value, op, options);
    WalkIntoMember(Obj(ms), items, 1, value, op, options);
    WalkLastArray(Arr(xs), items, 2, value, op, options);
    if Sorted(ms) {
      SetExisting(ms, a);
    }
  }

  /** A path that has to go on through a leaf, or through an array before its last
      segment, is an error, and the document is left as it was. */
  lemma NotObjectRejects(ms: seq<Member>, a: string, c: Value, rest: seq<Part>, value: Value, op: Operation, options: PatchOptions)
    requires Readable([Part(a, [])] + rest) && rest != []
    requires Get(ms, a) == Some(c) && !c.Obj? && (IsLeaf(c) || |rest| >= 2)
    ensures SetByPath(Obj(ms), PathText([Part(a, [])] + rest), value, op, options) == Rejected(Obj(Set(ms, a, c)))
    ensures Sorted(ms) ==> SetByPath(Obj(ms), PathText([Part(a, [])] + rest), value, op, options) == Rejected(Obj(ms))
  {
    var parts := [Part(a, [])] + rest;
    var items := PartItems(parts);
    SetByPathParts(Obj(ms), parts, value, op, options);
    WalkIntoMember(Obj(ms), items, 1, value, op, options);
    WalkNotObject(c, items, 2, value, op, options);
    if Sorted(ms) {
      SetExisting(ms, a);
    }
  }

  /** The parts of `$.k[..path][i]`. */
  function IndexedParts(k: string, path: seq<nat>, i: nat): seq<Part> {
    [Part(k, path + [i])]
  }

  /** The array stored under `k`, `[]` when the key is missing. */
  function ArrayUnder(ms: seq<Member>, k: string): Option<seq<Value>> {
    match Get(ms, k)
    case None => Some([])
    case Some(Arr(l)) => Some(l)
    case Some(_) => None
  }

  /** The walk for `$.k[..path][i]` on an object is the last-item operation on it. */
  lemma IndexedWalk(ms: seq<Member>, k: string, path: seq<nat>, i: nat, value: Value, op: Operation, options: PatchOptions)
    requires Readable(IndexedParts(k, path, i))
    ensures SetByPath(Obj(ms), PathText(IndexedParts(k, path, i)), value, op, options) ==
      Last(ms, PathItem(k, true, path + [i], true), value, op, options)
  {
    var parts := IndexedParts(k, path, i);
    SetByPathParts(Obj(ms), parts, value, op, options);
    WalkLastObject(Obj(ms), PartItems(parts), 1, value, op, options);
  }

  /** `$.k[..path][i]` under Add: the array under `k` (created as `[]` when missing) gets
      the value inserted at index `i` of the nested array `path` selects. */
  lemma IndexedAdd(ms: seq<Member>, k: string, path: seq<nat>, i: nat, value: Value, options: PatchOptions)
    requires Readable(IndexedParts(k, path, i))
    requires ArrayUnder(ms, k).Some?
    requires var l := ArrayUnder(ms, k).value; ReachesArrays(l, path) && i <= |Level(l, path)|
    ensures var l := ArrayUnder(ms, k).value;
      var row := Level(l, path);
      SetByPath(Obj(ms), PathText(IndexedParts(k, path, i)), value, Add, options) ==
        Applied(Obj(Set(ms, k, Arr(Graft(l, path, row[..i] + [value] + row[i..])))))
  {
    var l := ArrayUnder(ms, k).value;
    IndexedWalk(ms, k, path, i, value, Add, options);
    InsertInPlace(l, path, i, value);
    LastAdd(ms, k, path + [i], l, value, options);
  }

  /** Add through a bracketed last segment inserts into the array under the key, or into
      `[]` when the key is missing. */
  lemma LastAdd(ms: seq<Member>, k: string, indices: seq<nat>, l: seq<Value>, value: Value, options: PatchOptions)
    requires ArrayUnder(ms, k) == Some(l) && AfterInsert(l, indices, value).Ok?
    ensures Last(ms, PathItem(k, true, indices, true), value, Add, options) ==
      Applied(Obj(Set(ms, k, Arr(AfterInsert(l, indices, value).value))))
  {
    if Has(ms, k) {
      assert Get(ms, k) == Some(Arr(l));
    }
  }

  /** `$.k[..path][i]` under Change, where a non-array value sits: that element is
      overwritten. */
  lemma IndexedChange(ms: seq<Member>, k: string, path: seq<nat>, i: nat, l: seq<Value>, value: Value, options: PatchOptions)
    requires Readable(IndexedParts(k, path, i))
    requires Get(ms, k) == Some(Arr(l)) && ReachesArrays(l, path)
    requires i < |Level(l, path)| && !Level(l, path)[i].Arr?
    ensures SetByPath(Obj(ms), PathText(IndexedParts(k, path, i)), value, Change, options) ==
      Applied(Obj(Set(ms, k, Arr(Graft(l, path, Level(l, path)[i := value])))))
  {
    IndexedWalk(ms, k, path, i, value, Change, options);
    ChangeInPlace(l, path, i, value);
    LastChange(ms, k, path + [i], l, value, options);
  }

  /** Change through a bracketed last segment overwrites in the array under the key. */
  lemma LastChange(ms: seq<Member>, k: string, indices: seq<nat>, l: seq<Value>, value: Value, options: PatchOptions)
    requires Get(ms, k) == Some(Arr(l)) && AfterChange(l, indices, value).Ok?
    ensures Last(ms, PathItem(k, true, indices, true), value, Change, options) ==
      Applied(Obj(Set(ms, k, Arr(AfterChange(l, indices, value).value))))
  {
  }

  /** `$.k[..path][i]` under Delete, where a non-array value sits: that element is removed
      and the later ones shift down (one-element rows under `omit_empty` aside). */
  lemma IndexedDelete(ms: seq<Member>, k: string, path: seq<nat>, i: nat, l: seq<Value>, value: Value, options: PatchOptions)
    requires Readable(IndexedParts(k, path, i))
    requires Get(ms, k) == Some(Arr(l)) && ReachesArrays(l, path)
    requires i < |Level(l, path)| && !Level(l, path)[i].Arr?
    requires options.omitEmpty ==> path == [] || |Level(l, path)| != 1
    ensures var row := Level(l, path);
      SetByPath(Obj(ms), PathText(IndexedParts(k, path, i)), value, Delete, options) ==
        Applied(Obj(Set(ms, k, Arr(Graft(l, path, row[..i] + row[i + 1..])))))
  {
    IndexedWalk(ms, k, path, i, value, Delete, options);
    RemoveInPlace(l, path, i, options.omitEmpty);
    LastDelete(ms, k, path + [i], l, value, options);
  }

  /** Delete through a bracketed last segment removes from the array under the key. */
  lemma LastDelete(ms: seq<Member>, k: string, indices: seq<nat>, l: seq<Value>, value: Value, options: PatchOptions)
    requires Get(ms, k) == Some(Arr(l))
    ensures Last(ms, PathItem(k, true, indices, true), value, Delete, options) ==
      Applied(Obj(Set(ms, k, Arr(AfterRemove(l, indices, options.omitEmpty)))))
  {
  }

  /** Change and Delete through a bracketed last segment need an array under the key: a
      missing key or any other value panics. */
  lemma IndexedNeedsArray(ms: seq<Member>, k: string, path: seq<nat>, i: nat, value: Value, op: Operation, options: PatchOptions)
    requires Readable(IndexedParts(k, path, i))
    requires op != Add && !(Get(ms, k).Some? && Get(ms, k).value.Arr?)
    ensures SetByPath(Obj(ms), PathText(IndexedParts(k, path, i)), value, op, options) == Panicked
  {
    IndexedWalk(ms, k, path, i, value, op, options);
  }

  // ------------------------------------------------------------- `force`

  /** `force` is never read: the walk gives the same outcome whatever it holds. */
  lemma {:induction false} WalkIgnoresForce(cur: Value, items: seq<PathItem>, i: nat, value: Value, op: Operation, options: PatchOptions, force: bool)
    requires i <= |items|
    ensures Walk(cur, items, i, value, op, options) == Walk(cur, items, i, value, op, WithForce(options, force))
    decreases |items| - i, 0
  {
    var other := WithForce(options, force);
    if i < |items| {
      var item := items[i];
      if item.key == "$" {
        WalkSkip(cur, items, i, value, op, options);
        WalkSkip(cur, items, i, value, op, other);
        WalkIgnoresForce(cur, items, i + 1, value, op, options, force);
      } else if item.isLast && cur.Arr? {
      } else if item.isLast && cur.Obj? {
        WalkLastObject(cur, items, i, value, op, options);
        WalkLastObject(cur, items, i, value, op, other);
      } else if cur.Obj? {
        WalkIntoMember(cur, items, i, value, op, options);
        WalkIntoMember(cur, items, i, value, op, other);
        var ms := cur.members;
        var child := if Has(ms, item.key) then Get(ms, item.key).value else if item.isArray then Arr([]) else Obj([]);
        if item.isArray {
          DescendIgnoresForce(child, item.indices, 0, items, i + 1, value, op, options, force);
        } else {
          WalkIgnoresForce(child, items, i + 1, value, op, options, force);
        }
      }
    }
  }

  lemma {:induction false} DescendIgnoresForce(cur: Value, indices: seq<nat>, j: nat, items: seq<PathItem>, i: nat, value: Value, op: Operation, options: PatchOptions, force: bool)
    requires j <= |indices| && i <= |items|
    ensures Descend(cur, indices, j, items, i, value, op, options) == Descend(cur, indices, j, items, i, value, op, WithForce(options, force))
    decreases |items| - i, |indices| - j + 1
  {
    if j == |indices| {
      WalkIgnoresForce(cur, items, i, value, op, options, force);
    } else if cur.Arr? {
      var a := cur.items;
      var index := indices[j];
      if (|a| == 0 || index > |a|) && op == Add {
        DescendIgnoresForce(Arr(a + [Placeholder(|indices|)]), indices, j + 1, items, i, value, op, options, force);
      } else if index < |a| {
        DescendIgnoresForce(a[index], indices, j + 1, items, i, value, op, options, force);
      }
    }
  }

  /** `patch` gives the same result whatever `force` holds. */
  lemma {:induction false} PatchIgnoresForce(base: Value, deltas: seq<Delta>, options: PatchOptions, force: bool)
    ensures PatchResult(base, deltas, options) == PatchResult(base, deltas, WithForce(options, force))
  {
    ApplyAllIgnoresForce(base, deltas, options, force);
  }

  lemma {:induction false} ApplyAllIgnoresForce(json: Value, deltas: seq<Delta>, options: PatchOptions, force: bool)
    ensures ApplyAll(json, deltas, options) == ApplyAll(json, deltas, WithForce(options, force))
    decreases |deltas|
  {
    if deltas != [] {
      var d := deltas[0];
      if PathItems(d.path).Ok? {
        WalkIgnoresForce(json, PathItems(d.path).value, 0, d.newValue, d.operation, options, force);
      }
      var s := Step(json, d, options);
      if s.Ok? {
        ApplyAllIgnoresForce(s.value, deltas[1..], options, force);
      }
    }
  }

  // ------------------------------------------------------------- whole patches

  /** The deltas are applied in list order: patching with `d1 + d2` applies `d1`, then `d2`
      to what `d1` left; a failure in `d1` ends it. */
  lemma {:induction false} ApplyAllAppend(json: Value, d1: seq<Delta>, d2: seq<Delta>, options: PatchOptions)
    ensures ApplyAll(json, d1 + d2, options) ==
      match ApplyAll(json, d1, options)
      case Ok(x) => ApplyAll(x, d2, options)
      case Panic => Panic
    decreases |d1|
  {
    if d1 == [] {
      assert d1 + d2 == d2;
    } else {
      assert (d1 + d2)[0] == d1[0];
      assert (d1 + d2)[1..] == d1[1..] + d2;
      var s := Step(json, d1[0], options);
      if s.Ok? {
        ApplyAllAppend(s.value, d1[1..], d2, options);
      }
    }
  }

  /** A delta that `patch_by_path` does not apply (an error or a panic) makes the whole
      `patch` panic, whatever follows it: its `unwrap` returns no partial result. */
  lemma FailureAborts(base: Value, deltas: seq<Delta>, k: nat, options: PatchOptions)
    requires k < |deltas| && ApplyAll(base, deltas[..k], options).Ok?
    requires var d := deltas[k];
      !SetByPath(ApplyAll(base, deltas[..k], options).value, d.path, d.newValue, d.operation, options).Applied?
    ensures PatchResult(base, deltas, options) == Panic
  {
    var before := ApplyAll(base, deltas[..k], options).value;
    Text.SplitConcat(deltas[..k], deltas[k..]);
    assert deltas[..k] + deltas[k..] == deltas;
    ApplyAllAppend(base, deltas[..k], deltas[k..], options);
    StepFails(before, deltas[k..], options);
  }

  /** A first delta that is not applied makes the rest panic. */
  lemma StepFails(json: Value, deltas: seq<Delta>, options: PatchOptions)
    requires deltas != []
    requires !SetByPath(json, deltas[0].path, deltas[0].newValue, deltas[0].operation, options).Applied?
    ensures ApplyAll(json, deltas, options) == Panic
  {
  }

  /** What `patch` returns: without `omit_empty`, exactly the deltas applied in order; with
      it, that document pruned, so that nothing below the root is empty. It fails exactly
      when applying the deltas does, and a well-formed base stays well formed. */
  lemma PatchShape(base: Value, deltas: seq<Delta>, options: PatchOptions)
    requires Wf(base) && ValuesWf(deltas)
    ensures var r := PatchResult(base, deltas, options);
      var applied := ApplyAll(base, deltas, options);
      (r.Ok? <==> applied.Ok?) &&
      (!options.omitEmpty ==> r == applied) &&
      (options.omitEmpty && r.Ok? ==> r.value == Pruning.Pruned(applied.value) && Pruning.NoEmptyBelow(r.value)) &&
      (r.Ok? ==> Wf(r.value))
  {
    ApplyAllWf(base, deltas, options);
    var applied := ApplyAll(base, deltas, options);
    if applied.Ok? {
      Pruning.PrunedHasNoEmpty(applied.value);
      Pruning.PrunedWf(applied.value);
    }
  }
}
