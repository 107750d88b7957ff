/** The differ of src/differ.rs: two passes over the leaves of each document, the first
    walking the left document and looking every leaf up in the right one, the second the
    other way round, with one set of visited paths shared by both. */
module Differs {
  import opened Wrappers
  import opened Json
  import opened Deltas
  import opened LeafPaths
  import Text

  // ------------------------------------------------------------- one pass

  /** What a pass carries from leaf to leaf: the deltas so far and the paths already
      visited (the `HashMap<String, bool>` whose values are always `true`). */
  datatype State = State(deltas: seq<Delta>, seen: set<string>)

  /** The deltas a visited leaf gives, once the other document has been queried at its
      path: a Change when a different value is found, nothing when the same value is
      found, and a Delete (first pass) or an Add (reverse pass) when nothing is found. */
  function Emitted(leaf: Value, path: string, found: Option<Value>, reverse: bool): seq<Delta> {
    match found
    case Some(w) => if leaf != w then [NewDelta(Change, path, leaf, w)] else []
    case None =>
      if reverse then [NewDelta(Add, path, Null, leaf)] else [NewDelta(Delete, path, leaf, Null)]
  }

  /** A leaf popped from the stack: skipped when its path was seen, otherwise the other
      document is queried (a path that does not parse panics), the deltas appended and
      the path marked seen. */
  function Visit(st: State, e: Entry, other: Value, reverse: bool): Result<State> {
    var path := RenderPath(e.path);
    if path in st.seen then Ok(st)
    else
      match Query(other, path)
      case Panic => Panic
      case Ok(found) => Ok(State(st.deltas + Emitted(e.value, path, found, reverse), st.seen + {path}))
  }

  /** The leaves visited in order. */
  function Pass(leaves: seq<Entry>, other: Value, reverse: bool, st: State): Result<State>
    decreases |leaves|
  {
    if leaves == [] then Ok(st)
    else
      match Visit(st, leaves[0], other, reverse)
      case Panic => Panic
      case Ok(next) => Pass(leaves[1..], other, reverse, next)
  }

  /** `diff`: the first pass over the left document from nothing, the reverse pass over
      the right one from where the first stopped. */
  function FirstPass(left: Value, right: Value): Result<State> {
    Pass(Leaves(left, [], true), right, false, State([], {}))
  }

  function DiffResult(left: Value, right: Value): Result<seq<Delta>> {
    match FirstPass(left, right)
    case Panic => Panic
    case Ok(st) =>
      match Pass(Leaves(right, [], true), left, true, st)
      case Panic => Panic
      case Ok(last) => Ok(last.deltas)
  }

  // ------------------------------------------------------------- the stack

  /** The number of values in a document, counting containers: what the stack still has
      to take apart. */
  function Size(v: Value): nat
    decreases v, 1
  {
    match v
    case Obj(ms) => 1 + MembersSize(ms)
    case Arr(a) => 1 + ItemsSize(a)
    case _ => 1
  }

  function MembersSize(ms: seq<Member>): nat
    decreases ms, 0
  {
    if ms == [] then 0 else MembersSize(ms[..|ms| - 1]) + Size(ms[|ms| - 1].value)
  }

  function ItemsSize(a: seq<Value>): nat
    decreases a, 0
  {
    if a == [] then 0 else ItemsSize(a[..|a| - 1]) + Size(a[|a| - 1])
  }

  function Weight(stack: seq<Entry>): nat {
    if stack == [] then 0 else Weight(stack[..|stack| - 1]) + Size(stack[|stack| - 1].value)
  }

  /** The leaves still to be visited: those of the top entry first, then those below. */
  function Pending(stack: seq<Entry>): seq<Entry> {
    if stack == [] then [] else Leaves(stack[|stack| - 1].value, stack[|stack| - 1].path, true) + Pending(stack[..|stack| - 1])
  }

  lemma PendingPush(stack: seq<Entry>, e: Entry)
    ensures Pending(stack + [e]) == Leaves(e.value, e.path, true) + Pending(stack)
    ensures Weight(stack + [e]) == Weight(stack) + Size(e.value)
  {
    assert (stack + [e])[..|stack|] == stack;
  }

  /** The children pushed so far, one more member. */
  lemma {:induction false} MemberLeavesSnoc(ms: seq<Member>, m: Member, path: seq<string>)
    ensures MemberLeaves(ms + [m], path, true) == Leaves(m.value, path + [KeySegment(path, m.key)], true) + MemberLeaves(ms, path, true)
    decreases |ms|
  {
    if ms == [] {
      assert [m][1..] == [];
    } else {
      assert (ms + [m])[1..] == ms[1..] + [m];
      MemberLeavesSnoc(ms[1..], m, path);
    }
  }

  lemma {:induction false} ItemLeavesSnoc(a: seq<Value>, x: Value, path: seq<string>, start: nat)
    ensures ItemLeaves(a + [x], path, start, true) == Leaves(x, path + [IndexSegment(path, start + |a|)], true) + ItemLeaves(a, path, start, true)
    decreases |a|
  {
    if a == [] {
      assert [x][1..] == [];
    } else {
      assert (a + [x])[1..] == a[1..] + [x];
      ItemLeavesSnoc(a[1..], x, path, start + 1);
    }
  }

  lemma MembersSizeSnoc(ms: seq<Member>, m: Member)
    ensures MembersSize(ms + [m]) == MembersSize(ms) + Size(m.value)
  {
    assert (ms + [m])[..|ms|] == ms;
  }

  lemma ItemsSizeSnoc(a: seq<Value>, x: Value)
    ensures ItemsSize(a + [x]) == ItemsSize(a) + Size(x)
  {
    assert (a + [x])[..|a|] == a;
  }

  /** Pushing member `i` keeps the pending leaves those of the popped object. */
  lemma PushMember(stack: seq<Entry>, rest: seq<Entry>, ms: seq<Member>, i: nat, path: seq<string>)
    requires i < |ms|
    requires Pending(stack) == MemberLeaves(ms[..i], path, true) + Pending(rest)
    requires Weight(stack) == Weight(rest) + MembersSize(ms[..i])
    ensures var child := Entry(ms[i].value, path + [KeySegment(path, ms[i].key)]);
      Pending(stack + [child]) == MemberLeaves(ms[..i + 1], path, true) + Pending(rest) &&
      Weight(stack + [child]) == Weight(rest) + MembersSize(ms[..i + 1])
  {
    var child := Entry(ms[i].value, path + [KeySegment(path, ms[i].key)]);
    PendingPush(stack, child);
    MemberPrefix(ms, i, path);
    Text.Assoc(Leaves(child.value, child.path, true), MemberLeaves(ms[..i], path, true), Pending(rest));
  }

  /** One more member of the object taken apart. */
  lemma MemberPrefix(ms: seq<Member>, i: nat, path: seq<string>)
    requires i < |ms|
    ensures MemberLeaves(ms[..i + 1], path, true) ==
      Leaves(ms[i].value, path + [KeySegment(path, ms[i].key)], true) + MemberLeaves(ms[..i], path, true)
    ensures MembersSize(ms[..i + 1]) == MembersSize(ms[..i]) + Size(ms[i].value)
  {
    Text.PrefixSnoc(ms, i);
    MemberLeavesSnoc(ms[..i], ms[i], path);
    MembersSizeSnoc(ms[..i], ms[i]);
  }

  lemma PushItem(stack: seq<Entry>, rest: seq<Entry>, a: seq<Value>, i: nat, path: seq<string>)
    requires i < |a|
    requires Pending(stack) == ItemLeaves(a[..i], path, 0, true) + Pending(rest)
    requires Weight(stack) == Weight(rest) + ItemsSize(a[..i])
    ensures var child := Entry(a[i], path + [IndexSegment(path, i)]);
      Pending(stack + [child]) == ItemLeaves(a[..i + 1], path, 0, true) + Pending(rest) &&
      Weight(stack + [child]) == Weight(rest) + ItemsSize(a[..i + 1])
  {
    var child := Entry(a[i], path + [IndexSegment(path, i)]);
    PendingPush(stack, child);
    ItemPrefix(a, i, path);
    Text.Assoc(Leaves(child.value, child.path, true), ItemLeaves(a[..i], path, 0, true), Pending(rest));
  }

  /** One more element of the array taken apart. */
  lemma ItemPrefix(a: seq<Value>, i: nat, path: seq<string>)
    requires i < |a|
    ensures ItemLeaves(a[..i + 1], path, 0, true) ==
      Leaves(a[i], path + [IndexSegment(path, i)], true) + ItemLeaves(a[..i], path, 0, true)
    ensures ItemsSize(a[..i + 1]) == ItemsSize(a[..i]) + Size(a[i])
  {
    Text.PrefixSnoc(a, i);
    assert 0 + |a[..i]| == i;
    ItemLeavesSnoc(a[..i], a[i], path, 0);
    ItemsSizeSnoc(a[..i], a[i]);
  }

  /** Visiting the first pending leaf. */
  lemma PassCons(e: Entry, later: seq<Entry>, other: Value, reverse: bool, st: State)
    ensures Pass([e] + later, other, reverse, st) ==
      match Visit(st, e, other, reverse)
      case Panic => Panic
      case Ok(next) => Pass(later, other, reverse, next)
  {
    assert ([e] + later)[1..] == later;
  }

  // ------------------------------------------------------------- the differ

  /** The position of the first delta with the given path (`Iterator::find`). */
  function FirstWithPath(ds: seq<Delta>, path: string): (r: Option<nat>)
    ensures r.None? <==> forall d :: d in ds ==> d.path != path
    ensures r.Some? ==> r.value < |ds| && ds[r.value].path == path && forall j :: 0 <= j < r.value ==> ds[j].path != path
    decreases |ds|
  {
    if ds == [] then None
    else if ds[0].path == path then Some(0)
    else
      match FirstWithPath(ds[1..], path)
      case None => None
      case Some(i) => Some(i + 1)
  }

  /** Some delta has the path and the operation (`Iterator::any`). */
  function AnyWith(ds: seq<Delta>, path: string, operation: Operation): (r: bool)
    ensures r <==> exists d :: d in ds && d.path == path && d.operation == operation
    decreases |ds|
  {
    if ds == [] then false
    else (ds[0].path == path && ds[0].operation == operation) || AnyWith(ds[1..], path, operation)
  }

  class Differ {
    var deltas: seq<Delta>
    const left: Value
    const right: Value

    /** `Differ::new_from_json_values`. */
    constructor NewFromJsonValues(a: Value, b: Value)
      ensures left == a && right == b && deltas == []
    {
      left := a;
      right := b;
      deltas := [];
    }

    /** `Differ::default`. */
    constructor Default()
      ensures left == Null && right == Null && deltas == []
    {
      left := Null;
      right := Null;
      deltas := [];
    }

    /** `get_deltas`: the delta list itself, which is non-empty exactly when there are
        changes. */
    function GetDeltas(): (r: seq<Delta>)
      reads this
      ensures r == deltas
      ensures r != [] <==> HasChanges()
    {
      deltas
    }

    /** `get_delta_by_path`: the first delta with exactly that path. */
    function GetDeltaByPath(path: string): (r: Option<Delta>)
      reads this
      ensures r.None? <==> forall d :: d in deltas ==> d.path != path
      ensures r.Some? ==> r.value.path == path
      ensures r.Some? ==>
        exists i :: 0 <= i < |deltas| && deltas[i] == r.value && (forall j :: 0 <= j < i ==> deltas[j].path != path)
    {
      match FirstWithPath(deltas, path)
      case None => None
      case Some(i) => Some(deltas[i])
    }

    /** `has_path_changed`: some delta has that path and that operation. */
    function HasPathChanged(path: string, operation: Operation): (r: bool)
      reads this
      ensures r <==> exists d :: d in deltas && d.path == path && d.operation == operation
    {
      AnyWith(deltas, path, operation)
    }

    /** `has_changes`. */
    function HasChanges(): (r: bool)
      reads this
      ensures r <==> exists d :: d in deltas
    {
      assert |deltas| > 0 ==> deltas[0] in deltas;
      |deltas| > 0
    }

    /** `diff`: both passes, sharing the deltas and the seen paths, then the delta list
        replaced by what they built. A panic in either pass leaves the list as it was. */
    method Diff() returns (ok: bool)
      modifies this
      ensures ok <==> DiffResult(left, right).Ok?
      ensures ok ==> deltas == DiffResult(left, right).value
      ensures !ok ==> deltas == old(deltas)
    {
      var first := DoDiff(left, right, [], {}, false);
      if first.Panic? {
        return false;
      }
      var second := DoDiff(right, left, first.value.deltas, first.value.seen, true);
      if second.Panic? {
        return false;
      }
      deltas := second.value.deltas;
      return true;
    }

    /** `do_diff`: the leaves of `left` popped from a stack and looked up in `right`. */
    method DoDiff(left: Value, right: Value, deltas: seq<Delta>, seen: set<string>, reverse: bool)
      returns (r: Result<State>)
      ensures r == Pass(Leaves(left, [], true), right, reverse, State(deltas, seen))
    {
      var st := State(deltas, seen);
      var stack := [Entry(left, [])];
      assert Pending(stack) == Leaves(left, [], true) by {
        PendingPush([], Entry(left, []));
        assert [] + stack == stack;
        assert Leaves(left, [], true) + [] == Leaves(left, [], true);
      }
      while stack != []
        invariant Pass(Pending(stack), right, reverse, st) == Pass(Leaves(left, [], true), right, reverse, State(deltas, seen))
        decreases Weight(stack)
      {
        var e := stack[|stack| - 1];
        var rest := stack[..|stack| - 1];
        assert Pending(stack) == Leaves(e.value, e.path, true) + Pending(rest);
        assert Weight(stack) == Weight(rest) + Size(e.value);
        if e.value.Obj? || e.value.Arr? {
          stack := PushChildren(rest, e);
        } else {
          stack := rest;
          assert Leaves(e.value, e.path, true) == [e];
          PassCons(e, Pending(rest), right, reverse, st);
          var next := VisitLeaf(e, right, reverse, st);
          if next.Panic? {
            return Panic;
          }
          st := next.value;
        }
      }
      return Ok(st);
    }

    /** The `for` loops of `do_diff`: the members or elements of a popped container
        pushed in order, each with its segment appended to the container's path. */
    method PushChildren(stack: seq<Entry>, e: Entry) returns (s: seq<Entry>)
      requires e.value.Obj? || e.value.Arr?
      ensures Pending(s) == Leaves(e.value, e.path, true) + Pending(stack)
      ensures Weight(s) + 1 == Weight(stack) + Size(e.value)
    {
      s := stack;
      if e.value.Obj? {
        var ms := e.value.members;
        for i := 0 to |ms|
          invariant Pending(s) == MemberLeaves(ms[..i], e.path, true) + Pending(stack)
          invariant Weight(s) == Weight(stack) + MembersSize(ms[..i])
        {
          var segment;
          if e.path == [] {
            segment := "$." + ms[i].key;
          } else {
            segment := ms[i].key;
          }
          PushMember(s, stack, ms, i, e.path);
          s := s + [Entry(ms[i].value, e.path + [segment])];
        }
        assert ms[..|ms|] == ms;
      } else {
        var a := e.value.items;
        for i := 0 to |a|
          invariant Pending(s) == ItemLeaves(a[..i], e.path, 0, true) + Pending(stack)
          invariant Weight(s) == Weight(stack) + ItemsSize(a[..i])
        {
          var segment;
          if |e.path| == 0 {
            segment := "$[" + Text.NatToString(i) + "]";
          } else {
            segment := "[" + Text.NatToString(i) + "]";
          }
          PushItem(s, stack, a, i, e.path);
          s := s + [Entry(a[i], e.path + [segment])];
        }
        assert a[..|a|] == a;
      }
    }

    /** The leaf branch of `do_diff`: the path text built, a seen path skipped, the other
        document queried and the leaf classified. */
    method VisitLeaf(e: Entry, right: Value, reverse: bool, st: State) returns (r: Result<State>)
      ensures r == Visit(st, e, right, reverse)
    {
      var path := JoinPath(e.path);
      if path in st.seen {
        return Ok(st);
      }
      var found := Query(right, path);
      if found.Panic? {
        return Panic;
      }
      var deltas := st.deltas;
      match found.value {
        case Some(w) =>
          if e.value != w {
            deltas := deltas + [NewDelta(Change, path, e.value, w)];
          } else {
            assert deltas == deltas + [];
          }
        case None =>
          if reverse {
            deltas := deltas + [NewDelta(Add, path, Null, e.value)];
          } else {
            deltas := deltas + [NewDelta(Delete, path, e.value, Null)];
          }
      }
      assert deltas == st.deltas + Emitted(e.value, path, found.value, reverse);
      return Ok(State(deltas, st.seen + {path}));
    }
  }
}
