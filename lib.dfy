/** The older recursive walk `diff` of src/lib.rs. It visits the leaves of one document
    in order (members in key order, elements in index order), pushing a segment onto
    `current_path` before each child and popping it after, and for every leaf whose path
    text it has not seen it queries the other document, appends at most one delta, marks
    the path seen and lists it in `paths`. Its deltas carry no hash. The borrowed
    collections (`current_path`, `paths`, `deltas`, `seen`) are passed in and handed back,
    which is exact for exclusive `&mut` borrows. */
module LibDiff {
  import opened Wrappers
  import opened Json
  import opened LeafPaths
  import Deltas
  import Differs
  import DifferProperties
  import Text

  datatype Operation = Add | Change | Delete

  datatype Delta = Delta(operation: Operation, path: string, oldValue: Value, newValue: Value)

  /** The collections `diff` appends to. */
  datatype Acc = Acc(paths: seq<string>, deltas: seq<Delta>, seen: set<string>)

  /** The delta a leaf at `path` gives once `found` has been looked up in the other
      document: nothing when the same value is found, a Change to a different value,
      and when nothing is found an Add in the reverse pass and a Delete otherwise. */
  function Classify(leaf: Value, path: string, found: Option<Value>, reverse: bool): (r: seq<Delta>)
    ensures |r| <= 1
    ensures r == [] <==> found == Some(leaf)
    ensures r != [] ==> (r[0].path == path &&
      match r[0].operation
      case Change => found == Some(r[0].newValue) && r[0].oldValue == leaf
      case Delete => !reverse && found == None && r[0].oldValue == leaf && r[0].newValue == Null
      case Add => reverse && found == None && r[0].oldValue == Null && r[0].newValue == leaf)
  {
    match found
    case Some(w) => if leaf != w then [Delta(Change, path, leaf, w)] else []
    case None =>
      if reverse then [Delta(Add, path, Null, leaf)] else [Delta(Delete, path, leaf, Null)]
  }

  /** A leaf reached by the walk: skipped when its path text was seen, otherwise the
      other document is queried (a path that does not parse panics), the delta appended,
      the path marked seen and listed. */
  function LeafVisit(acc: Acc, e: Entry, other: Value, reverse: bool): Result<Acc> {
    var path := RenderPath(e.path);
    if path in acc.seen then Ok(acc)
    else
      match Query(other, path)
      case Panic => Panic
      case Ok(found) => Ok(Acc(acc.paths + [path], acc.deltas + Classify(e.value, path, found, reverse), acc.seen + {path}))
  }

  /** The leaves visited in order. */
  function LibPass(leaves: seq<Entry>, other: Value, reverse: bool, acc: Acc): Result<Acc>
    decreases |leaves|
  {
    if leaves == [] then Ok(acc)
    else
      match LeafVisit(acc, leaves[0], other, reverse)
      case Panic => Panic
      case Ok(next) => LibPass(leaves[1..], other, reverse, next)
  }

  // ------------------------------------------------------------- the walk

  /** `diff(a, b, current_path, paths, deltas, seen, reverse)`: the walk visits exactly the
      leaves of `a` below `currentPath`, in order, and hands `current_path` back as it
      found it. */
  method Diff(a: Value, b: Value, currentPath: seq<string>, acc: Acc, reverse: bool)
    returns (pathAfter: seq<string>, r: Result<Acc>)
    ensures r.Ok? ==> pathAfter == currentPath
    ensures r == LibPass(Leaves(a, currentPath, false), b, reverse, acc)
    decreases a, 1
  {
    match a {
      case Obj(ms) =>
        pathAfter, r := DiffMembers(ms, b, currentPath, acc, reverse);
      case Arr(items) =>
        pathAfter, r := DiffItems(items, b, currentPath, acc, reverse);
      case _ =>
        pathAfter := currentPath;
        r := DiffLeaf(a, b, currentPath, acc, reverse);
        assert [Entry(a, currentPath)][1..] == [];
    }
  }

  /** The loop over the members of an object. */
  method DiffMembers(ms: seq<Member>, b: Value, currentPath: seq<string>, acc: Acc, reverse: bool)
    returns (pathAfter: seq<string>, r: Result<Acc>)
    ensures r.Ok? ==> pathAfter == currentPath
    ensures r == LibPass(MemberLeaves(ms, currentPath, false), b, reverse, acc)
    decreases ms, 0
  {
    var cur := currentPath;
    var st := acc;
    for i := 0 to |ms|
      invariant cur == currentPath
      invariant LibPass(MemberLeaves(ms[..i], currentPath, false), b, reverse, acc) == Ok(st)
    {
      MembersAdvance(ms, i, currentPath, b, reverse, acc, st);
      assert ms[i] in ms;
      cur := cur + [KeySegment(cur, ms[i].key)];
      var res;
      cur, res := Diff(ms[i].value, b, cur, st, reverse);
      if res.Panic? {
        MembersPanic(ms, i, currentPath, b, reverse, acc);
        return cur, Panic;
      }
      st := res.value;
      cur := cur[..|cur| - 1];
    }
    assert ms[..|ms|] == ms;
    return cur, Ok(st);
  }

  /** The loop over the elements of an array. */
  method DiffItems(items: seq<Value>, b: Value, currentPath: seq<string>, acc: Acc, reverse: bool)
    returns (pathAfter: seq<string>, r: Result<Acc>)
    ensures r.Ok? ==> pathAfter == currentPath
    ensures r == LibPass(ItemLeaves(items, currentPath, 0, false), b, reverse, acc)
    decreases items, 0
  {
    var cur := currentPath;
    var st := acc;
    for i := 0 to |items|
      invariant cur == currentPath
      invariant LibPass(ItemLeaves(items[..i], currentPath, 0, false), b, reverse, acc) == Ok(st)
    {
      ItemsAdvance(items, i, currentPath, b, reverse, acc, st);
      assert items[i] in items;
      cur := cur + [IndexSegment(cur, i)];
      var res;
      cur, res := Diff(items[i], b, cur, st, reverse);
      if res.Panic? {
        ItemsPanic(items, i, currentPath, b, reverse, acc);
        return cur, Panic;
      }
      st := res.value;
      cur := cur[..|cur| - 1];
    }
    assert items[..|items|] == items;
    return cur, Ok(st);
  }

  /** A leaf: the path text is built, a seen path returns at once, otherwise the other
      document is queried and the delta, the seen mark and the path are recorded. */
  method DiffLeaf(a: Value, b: Value, currentPath: seq<string>, acc: Acc, reverse: bool) returns (r: Result<Acc>)
    ensures r == LeafVisit(acc, Entry(a, currentPath), b, reverse)
  {
    var path := JoinPath(currentPath);
    if path in acc.seen {
      return Ok(acc);
    }
    var query := Query(b, path);
    if query.Panic? {
      return Panic;
    }
    var deltas := acc.deltas;
    match query.value {
      case Some(bValue) =>
        if a != bValue {
          deltas := deltas + [Delta(Change, path, a, bValue)];
        }
      case None =>
        if reverse {
          deltas := deltas + [Delta(Add, path, Null, a)];
        } else {
          deltas := deltas + [Delta(Delete, path, a, Null)];
        }
    }
    assert deltas == acc.deltas + Classify(a, path, query.value, reverse);
    r := Ok(Acc(acc.paths + [path], deltas, acc.seen + {path}));
  }

  // ------------------------------------------------------------- leaf lists

  lemma {:induction false} MemberLeavesAppend(xs: seq<Member>, ys: seq<Member>, path: seq<string>)
    ensures MemberLeaves(xs + ys, path, false) == MemberLeaves(xs, path, false) + MemberLeaves(ys, path, false)
    decreases |xs|
  {
    if xs == [] {
      assert [] + ys == ys;
    } else {
      assert (xs + ys)[1..] == xs[1..] + ys;
      MemberLeavesAppend(xs[1..], ys, path);
      Text.Assoc(Leaves(xs[0].value, path + [KeySegment(path, xs[0].key)], false), MemberLeaves(xs[1..], path, false), MemberLeaves(ys, path, false));
    }
  }

  lemma {:induction false} ItemLeavesAppend(xs: seq<Value>, ys: seq<Value>, path: seq<string>, start: nat)
    ensures ItemLeaves(xs + ys, path, start, false) == ItemLeaves(xs, path, start, false) + ItemLeaves(ys, path, start + |xs|, false)
    decreases |xs|
  {
    if xs == [] {
      assert [] + ys == ys;
    } else {
      assert (xs + ys)[1..] == xs[1..] + ys;
      ItemLeavesAppend(xs[1..], ys, path, start + 1);
      Text.Assoc(Leaves(xs[0], path + [IndexSegment(path, start)], false), ItemLeaves(xs[1..], path, start + 1, false), ItemLeaves(ys, path, start + |xs|, false));
    }
  }

  /** The leaves of the first `i + 1` members. */
  lemma MembersStep(ms: seq<Member>, i: nat, path: seq<string>)
    requires i < |ms|
    ensures MemberLeaves(ms[..i + 1], path, false) ==
      MemberLeaves(ms[..i], path, false) + Leaves(ms[i].value, path + [KeySegment(path, ms[i].key)], false)
  {
    Text.PrefixSnoc(ms, i);
    MemberLeavesAppend(ms[..i], [ms[i]], path);
    assert [ms[i]][1..] == [];
    assert MemberLeaves([ms[i]], path, false) == Leaves(ms[i].value, path + [KeySegment(path, ms[i].key)], false) + [];
  }

  /** The leaves of the first `i + 1` elements. */
  lemma ItemsStep(items: seq<Value>, i: nat, path: seq<string>)
    requires i < |items|
    ensures ItemLeaves(items[..i + 1], path, 0, false) ==
      ItemLeaves(items[..i], path, 0, false) + Leaves(items[i], path + [IndexSegment(path, i)], false)
  {
    Text.PrefixSnoc(items, i);
    ItemLeavesAppend(items[..i], [items[i]], path, 0);
    assert [items[i]][1..] == [];
    assert ItemLeaves([items[i]], path, i, false) == Leaves(items[i], path + [IndexSegment(path, i)], false) + [];
  }

  /** The pass over the first `i + 1` members continues the pass over the first `i`
      with the leaves of member `i`. */
  lemma MembersAdvance(ms: seq<Member>, i: nat, path: seq<string>, other: Value, reverse: bool, acc: Acc, st: Acc)
    requires i < |ms|
    requires LibPass(MemberLeaves(ms[..i], path, false), other, reverse, acc) == Ok(st)
    ensures LibPass(MemberLeaves(ms[..i + 1], path, false), other, reverse, acc) ==
      LibPass(Leaves(ms[i].value, path + [KeySegment(path, ms[i].key)], false), other, reverse, st)
  {
    MembersStep(ms, i, path);
    LibPassAppend(MemberLeaves(ms[..i], path, false), Leaves(ms[i].value, path + [KeySegment(path, ms[i].key)], false), other, reverse, acc);
  }

  /** A panic within the first `i + 1` members is a panic of the whole loop. */
  lemma MembersPanic(ms: seq<Member>, i: nat, path: seq<string>, other: Value, reverse: bool, acc: Acc)
    requires i < |ms|
    requires LibPass(MemberLeaves(ms[..i + 1], path, false), other, reverse, acc) == Panic
    ensures LibPass(MemberLeaves(ms, path, false), other, reverse, acc) == Panic
  {
    LibPassAppend(MemberLeaves(ms[..i + 1], path, false), MemberLeaves(ms[i + 1..], path, false), other, reverse, acc);
    MemberLeavesAppend(ms[..i + 1], ms[i + 1..], path);
    assert ms[..i + 1] + ms[i + 1..] == ms;
  }

  lemma ItemsAdvance(items: seq<Value>, i: nat, path: seq<string>, other: Value, reverse: bool, acc: Acc, st: Acc)
    requires i < |items|
    requires LibPass(ItemLeaves(items[..i], path, 0, false), other, reverse, acc) == Ok(st)
    ensures LibPass(ItemLeaves(items[..i + 1], path, 0, false), other, reverse, acc) ==
      LibPass(Leaves(items[i], path + [IndexSegment(path, i)], false), other, reverse, st)
  {
    ItemsStep(items, i, path);
    LibPassAppend(ItemLeaves(items[..i], path, 0, false), Leaves(items[i], path + [IndexSegment(path, i)], false), other, reverse, acc);
  }

  lemma ItemsPanic(items: seq<Value>, i: nat, path: seq<string>, other: Value, reverse: bool, acc: Acc)
    requires i < |items|
    requires LibPass(ItemLeaves(items[..i + 1], path, 0, false), other, reverse, acc) == Panic
    ensures LibPass(ItemLeaves(items, path, 0, false), other, reverse, acc) == Panic
  {
    LibPassAppend(ItemLeaves(items[..i + 1], path, 0, false), ItemLeaves(items[i + 1..], path, i + 1, false), other, reverse, acc);
    ItemLeavesAppend(items[..i + 1], items[i + 1..], path, 0);
    assert items[..i + 1] + items[i + 1..] == items;
  }

  /** A pass over two lists of leaves is a pass over the first, then over the second. */
  lemma {:induction false} LibPassAppend(x: seq<Entry>, y: seq<Entry>, other: Value, reverse: bool, acc: Acc)
    ensures LibPass(x + y, other, reverse, acc) ==
      match LibPass(x, other, reverse, acc)
      case Panic => Panic
      case Ok(mid) => LibPass(y, other, reverse, mid)
    decreases |x|
  {
    if x == [] {
      assert [] + y == y;
    } else {
      assert (x + y)[0] == x[0];
      assert (x + y)[1..] == x[1..] + y;
      match LeafVisit(acc, x[0], other, reverse)
      case Panic =>
      case Ok(next) => LibPassAppend(x[1..], y, other, reverse, next);
    }
  }
}
