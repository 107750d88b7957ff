/** What the two passes of src/differ.rs guarantee: every visited leaf path is marked
    seen, no path is reported twice, the first pass reports only Changes and Deletes and
    the reverse pass only Changes and Adds, each delta carries its own hash, and on
    documents whose keys are member-name shorthands every delta says what the two
    documents hold at its path. */
module DifferProperties {
  import opened Wrappers
  import opened Json
  import opened Deltas
  import opened LeafPaths
  import opened Differs

  // ------------------------------------------------------------- one visit, one pass

  /** The path texts of a list of leaves. */
  function PathsOf(leaves: seq<Entry>): set<string>
    decreases |leaves|
  {
    if leaves == [] then {} else {RenderPath(leaves[0].path)} + PathsOf(leaves[1..])
  }

  /** A delta a pass may emit: consistent hash, and no Add in the first pass and no
      Delete in the reverse one. */
  predicate Emits(d: Delta, reverse: bool) {
    HashConsistent(d) && d.operation != (if reverse then Delete else Add)
  }

  /** The deltas a pass adds to a state, each meeting `Emits`, at a path `paths` holds
      and `st.seen` does not. */
  predicate Extends(st: State, done: State, paths: set<string>, reverse: bool) {
    st.deltas <= done.deltas &&
    done.seen == st.seen + paths &&
    forall i :: |st.deltas| <= i < |done.deltas| ==>
      Emits(done.deltas[i], reverse) && done.deltas[i].path in paths && done.deltas[i].path !in st.seen
  }

  /** What `Visit` does: a seen path leaves the state alone, any other gets the emitted
      deltas and is marked seen. */
  lemma VisitCases(st: State, e: Entry, other: Value, reverse: bool)
    requires Visit(st, e, other, reverse).Ok?
    ensures var path := RenderPath(e.path);
      var next := Visit(st, e, other, reverse).value;
      (path in st.seen && next == st) ||
      (path !in st.seen && Query(other, path).Ok? &&
       next == State(st.deltas + Emitted(e.value, path, Query(other, path).value, reverse), st.seen + {path}))
  {
  }

  /** A leaf emits at most one delta, at its own path, with a consistent hash and never
      an Add in the first pass or a Delete in the reverse one. */
  lemma EmittedFacts(leaf: Value, path: string, found: Option<Value>, reverse: bool)
    ensures var ds := Emitted(leaf, path, found, reverse);
      |ds| <= 1 && (ds != [] ==> Emits(ds[0], reverse) && ds[0].path == path)
  {
    match found
    case Some(w) =>
    case None =>
  }

  lemma VisitExtends(st: State, e: Entry, other: Value, reverse: bool)
    requires Visit(st, e, other, reverse).Ok?
    ensures var next := Visit(st, e, other, reverse).value;
      Extends(st, next, {RenderPath(e.path)}, reverse) && |next.deltas| <= |st.deltas| + 1
  {
    var path := RenderPath(e.path);
    var next := Visit(st, e, other, reverse).value;
    VisitCases(st, e, other, reverse);
    if path !in st.seen {
      var ds := Emitted(e.value, path, Query(other, path).value, reverse);
      EmittedFacts(e.value, path, Query(other, path).value, reverse);
      AppendExtends(st, ds, path, reverse);
    } else {
      assert st.seen + {path} == st.seen;
    }
  }

  /** Appending at most one delta emitted at a new path. */
  lemma AppendExtends(st: State, ds: seq<Delta>, path: string, reverse: bool)
    requires path !in st.seen
    requires |ds| <= 1 && (ds != [] ==> Emits(ds[0], reverse) && ds[0].path == path)
    ensures Extends(st, State(st.deltas + ds, st.seen + {path}), {path}, reverse)
  {
    var done := State(st.deltas + ds, st.seen + {path});
    forall i | |st.deltas| <= i < |done.deltas|
      ensures Emits(done.deltas[i], reverse) && done.deltas[i].path == path
    {
      assert done.deltas[i] == ds[0];
    }
  }

  lemma ExtendsTrans(a: State, b: State, c: State, p: set<string>, q: set<string>, reverse: bool)
    requires Extends(a, b, p, reverse) && Extends(b, c, q, reverse)
    ensures Extends(a, c, p + q, reverse)
  {
    forall i | |a.deltas| <= i < |c.deltas|
      ensures Emits(c.deltas[i], reverse) && c.deltas[i].path in p + q && c.deltas[i].path !in a.seen
    {
      if i < |b.deltas| {
        assert c.deltas[i] == b.deltas[i];
      }
    }
  }

  /** A pass only appends, at most one delta per leaf, each at a leaf path it visits for
      the first time, and marks every leaf path it visits seen. */
  lemma {:induction false} PassExtends(leaves: seq<Entry>, other: Value, reverse: bool, st: State)
    requires Pass(leaves, other, reverse, st).Ok?
    ensures var done := Pass(leaves, other, reverse, st).value;
      Extends(st, done, PathsOf(leaves), reverse) && |done.deltas| <= |st.deltas| + |leaves|
    decreases |leaves|
  {
    if leaves == [] {
      assert Pass(leaves, other, reverse, st).value == st;
    } else {
      var next := Visit(st, leaves[0], other, reverse).value;
      VisitExtends(st, leaves[0], other, reverse);
      PassExtends(leaves[1..], other, reverse, next);
      ExtendsTrans(st, next, Pass(leaves, other, reverse, st).value, {RenderPath(leaves[0].path)}, PathsOf(leaves[1..]), reverse);
    }
  }

  /** Every delta's path is marked seen and no two deltas share a path. */
  predicate Tracked(st: State) {
    (forall i :: 0 <= i < |st.deltas| ==> st.deltas[i].path in st.seen) &&
    (forall i, j :: 0 <= i < j < |st.deltas| ==> st.deltas[i].path != st.deltas[j].path)
  }

  lemma ExtendsTracked(st: State, done: State, paths: set<string>, reverse: bool)
    requires Tracked(st) && Extends(st, done, paths, reverse)
    requires forall i, j :: |st.deltas| <= i < j < |done.deltas| ==> done.deltas[i].path != done.deltas[j].path
    ensures Tracked(done)
  {
    forall i, j | 0 <= i < j < |done.deltas|
      ensures done.deltas[i].path != done.deltas[j].path
    {
      if j < |st.deltas| {
        assert done.deltas[i] == st.deltas[i] && done.deltas[j] == st.deltas[j];
      } else if i < |st.deltas| {
        assert done.deltas[i] == st.deltas[i];
      }
    }
    forall i | 0 <= i < |done.deltas|
      ensures done.deltas[i].path in done.seen
    {
      if i < |st.deltas| {
        assert done.deltas[i] == st.deltas[i];
      }
    }
  }

  lemma {:induction false} PassTracked(leaves: seq<Entry>, other: Value, reverse: bool, st: State)
    requires Tracked(st) && Pass(leaves, other, reverse, st).Ok?
    ensures Tracked(Pass(leaves, other, reverse, st).value)
    decreases |leaves|
  {
    if leaves != [] {
      var next := Visit(st, leaves[0], other, reverse).value;
      VisitExtends(st, leaves[0], other, reverse);
      assert Tracked(next) by {
        ExtendsTracked(st, next, {RenderPath(leaves[0].path)}, reverse);
      }
      PassTracked(leaves[1..], other, reverse, next);
    }
  }

  /** A pass whose every leaf path parses does not panic. */
  lemma {:induction false} PassSucceeds(leaves: seq<Entry>, other: Value, reverse: bool, st: State)
    requires forall e :: e in leaves ==> Query(other, RenderPath(e.path)).Ok?
    ensures Pass(leaves, other, reverse, st).Ok?
    decreases |leaves|
  {
    if leaves != [] {
      assert leaves[0] in leaves;
      var next := Visit(st, leaves[0], other, reverse).value;
      assert forall e :: e in leaves[1..] ==> e in leaves;
      PassSucceeds(leaves[1..], other, reverse, next);
    }
  }

  // ------------------------------------------------------------- what a delta says

  /** A delta of a pass over `mine` looked up in `other`, read against both documents:
      a Change holds the visited leaf as old value and the other document's different
      value as new value; a Delete (first pass only) and an Add (reverse pass only)
      stand for a leaf the other document does not have. */
  predicate Oriented(d: Delta, mine: Value, other: Value, reverse: bool) {
    HashConsistent(d) &&
    match d.operation
    case Change =>
      Query(mine, d.path) == Ok(Some(d.oldValue)) && Query(other, d.path) == Ok(Some(d.newValue)) && d.oldValue != d.newValue
    case Delete =>
      !reverse && Query(mine, d.path) == Ok(Some(d.oldValue)) && Query(other, d.path) == Ok(None) && d.newValue == Null
    case Add =>
      reverse && Query(mine, d.path) == Ok(Some(d.newValue)) && Query(other, d.path) == Ok(None) && d.oldValue == Null
  }

  /** Every leaf of the list is found again in `mine` at its path text. */
  predicate Located(leaves: seq<Entry>, mine: Value) {
    forall e :: e in leaves ==> Query(mine, RenderPath(e.path)) == Ok(Some(e.value))
  }

  lemma EmittedOriented(leaf: Value, path: string, mine: Value, other: Value, reverse: bool)
    requires Query(mine, path) == Ok(Some(leaf)) && Query(other, path).Ok?
    ensures var ds := Emitted(leaf, path, Query(other, path).value, reverse);
      |ds| <= 1 && (ds != [] ==> Oriented(ds[0], mine, other, reverse))
  {
    match Query(other, path).value
    case Some(w) =>
      if leaf != w {
        ChangeOriented(leaf, w, path, mine, other, reverse);
      }
    case None =>
      if reverse {
        AddOriented(leaf, path, mine, other);
      } else {
        DeleteOriented(leaf, path, mine, other);
      }
  }

  lemma ChangeOriented(leaf: Value, w: Value, path: string, mine: Value, other: Value, reverse: bool)
    requires Query(mine, path) == Ok(Some(leaf)) && Query(other, path) == Ok(Some(w)) && leaf != w
    ensures Oriented(NewDelta(Change, path, leaf, w), mine, other, reverse)
  {
  }

  lemma AddOriented(leaf: Value, path: string, mine: Value, other: Value)
    requires Query(mine, path) == Ok(Some(leaf)) && Query(other, path) == Ok(None)
    ensures Oriented(NewDelta(Add, path, Null, leaf), mine, other, true)
  {
  }

  lemma DeleteOriented(leaf: Value, path: string, mine: Value, other: Value)
    requires Query(mine, path) == Ok(Some(leaf)) && Query(other, path) == Ok(None)
    ensures Oriented(NewDelta(Delete, path, leaf, Null), mine, other, false)
  {
  }

  lemma VisitOriented(st: State, e: Entry, mine: Value, other: Value, reverse: bool)
    requires Query(mine, RenderPath(e.path)) == Ok(Some(e.value))
    requires Visit(st, e, other, reverse).Ok?
    ensures var next := Visit(st, e, other, reverse).value;
      forall i :: |st.deltas| <= i < |next.deltas| ==> Oriented(next.deltas[i], mine, other, reverse)
  {
    var path := RenderPath(e.path);
    var next := Visit(st, e, other, reverse).value;
    VisitCases(st, e, other, reverse);
    if path !in st.seen {
      var ds := Emitted(e.value, path, Query(other, path).value, reverse);
      EmittedOriented(e.value, path, mine, other, reverse);
      forall i | |st.deltas| <= i < |next.deltas|
        ensures Oriented(next.deltas[i], mine, other, reverse)
      {
        assert next.deltas[i] == ds[0];
      }
    }
  }

  lemma {:induction false} PassOriented(leaves: seq<Entry>, mine: Value, other: Value, reverse: bool, st: State)
    requires Located(leaves, mine)
    requires Pass(leaves, other, reverse, st).Ok?
    ensures var done := Pass(leaves, other, reverse, st).value;
      forall i :: |st.deltas| <= i < |done.deltas| ==> Oriented(done.deltas[i], mine, other, reverse)
    decreases |leaves|
  {
    if leaves != [] {
      var done := Pass(leaves, other, reverse, st).value;
      assert leaves[0] in leaves;
      var next := Visit(st, leaves[0], other, reverse).value;
      VisitOriented(st, leaves[0], mine, other, reverse);
      assert Located(leaves[1..], mine) by {
        assert forall e :: e in leaves[1..] ==> e in leaves;
      }
      PassOriented(leaves[1..], mine, other, reverse, next);
      PassExtends(leaves[1..], other, reverse, next);
      forall i | |st.deltas| <= i < |done.deltas|
        ensures Oriented(done.deltas[i], mine, other, reverse)
      {
        if i < |next.deltas| {
          assert done.deltas[i] == next.deltas[i];
        }
      }
    }
  }

  // ------------------------------------------------------------- both passes

  /** A document the differ can walk without panicking: a container, every object a
      well-formed map, every key a member-name shorthand. */
  predicate Ready(v: Value) {
    IsContainer(v) && Wf(v) && NamesOnly(v)
  }

  lemma RootLocated(v: Value, lifo: bool)
    requires Ready(v)
    ensures Located(Leaves(v, [], lifo), v)
  {
    assert SegmentsOf([]) == [];
    LeavesLocated(v, v, [], lifo);
  }

  /** The path text of a leaf parses whatever document it is looked up in. */
  lemma ParsesAnywhere(leaves: seq<Entry>, mine: Value, other: Value)
    requires Located(leaves, mine)
    ensures forall e :: e in leaves ==> Query(other, RenderPath(e.path)).Ok?
  {
    forall e | e in leaves
      ensures Query(other, RenderPath(e.path)).Ok?
    {
      assert Query(mine, RenderPath(e.path)).Ok?;
    }
  }

  /** On two ready documents the differ does not panic. */
  lemma DiffSucceeds(left: Value, right: Value)
    requires Ready(left) && Ready(right)
    ensures DiffResult(left, right).Ok?
  {
    RootLocated(left, true);
    RootLocated(right, true);
    ParsesAnywhere(Leaves(left, [], true), left, right);
    ParsesAnywhere(Leaves(right, [], true), right, left);
    PassSucceeds(Leaves(left, [], true), right, false, State([], {}));
    PassSucceeds(Leaves(right, [], true), left, true, FirstPass(left, right).value);
  }

  /** The state after both passes. */
  function Passes(left: Value, right: Value): Result<State> {
    match FirstPass(left, right)
    case Panic => Panic
    case Ok(st) => Pass(Leaves(right, [], true), left, true, st)
  }

  /** The seen set ends up holding exactly the leaf paths of both documents, all the
      deltas of the first pass come before those of the reverse pass, and every delta
      is at a distinct path. */
  lemma DiffShape(left: Value, right: Value)
    requires DiffResult(left, right).Ok?
    ensures FirstPass(left, right).Ok? && Passes(left, right).Ok?
    ensures var first := FirstPass(left, right).value;
      var last := Passes(left, right).value;
      DiffResult(left, right).value == last.deltas &&
      last.seen == PathsOf(Leaves(left, [], true)) + PathsOf(Leaves(right, [], true)) &&
      first.deltas <= last.deltas &&
      (forall i :: 0 <= i < |first.deltas| ==> Emits(last.deltas[i], false)) &&
      (forall i :: |first.deltas| <= i < |last.deltas| ==> Emits(last.deltas[i], true)) &&
      Tracked(last)
  {
    var first := FirstPass(left, right).value;
    var last := Passes(left, right).value;
    PassExtends(Leaves(left, [], true), right, false, State([], {}));
    PassExtends(Leaves(right, [], true), left, true, first);
    PassTracked(Leaves(left, [], true), right, false, State([], {}));
    PassTracked(Leaves(right, [], true), left, true, first);
    forall i | 0 <= i < |first.deltas|
      ensures Emits(last.deltas[i], false)
    {
      assert last.deltas[i] == first.deltas[i];
    }
  }

  /** No path appears in two deltas. */
  lemma DiffPathsDistinct(left: Value, right: Value)
    requires DiffResult(left, right).Ok?
    ensures var ds := DiffResult(left, right).value;
      forall i, j :: 0 <= i < j < |ds| ==> ds[i].path != ds[j].path
  {
    DiffShape(left, right);
  }

  /** Every Delete comes before every Add, and every delta carries its own hash. */
  lemma DeletesBeforeAdds(left: Value, right: Value)
    requires DiffResult(left, right).Ok?
    ensures var ds := DiffResult(left, right).value;
      (forall i, j :: 0 <= i < |ds| && 0 <= j < |ds| && ds[i].operation == Delete && ds[j].operation == Add ==> i < j) &&
      (forall i :: 0 <= i < |ds| ==> HashConsistent(ds[i]))
  {
    DiffShape(left, right);
  }

  /** On ready documents, the first pass's deltas read left against right and the
      reverse pass's read right against left. */
  lemma DiffOriented(left: Value, right: Value)
    requires Ready(left) && Ready(right)
    ensures DiffResult(left, right).Ok? && FirstPass(left, right).Ok?
    ensures var ds := DiffResult(left, right).value;
      var k := |FirstPass(left, right).value.deltas|;
      k <= |ds| &&
      (forall i :: 0 <= i < k ==> Oriented(ds[i], left, right, false)) &&
      (forall i :: k <= i < |ds| ==> Oriented(ds[i], right, left, true))
  {
    DiffSucceeds(left, right);
    DiffShape(left, right);
    var first := FirstPass(left, right).value;
    var ds := DiffResult(left, right).value;
    RootLocated(left, true);
    RootLocated(right, true);
    PassOriented(Leaves(left, [], true), left, right, false, State([], {}));
    PassOriented(Leaves(right, [], true), right, left, true, first);
    forall i | 0 <= i < |first.deltas|
      ensures Oriented(ds[i], left, right, false)
    {
      assert ds[i] == first.deltas[i];
    }
  }

  /** A pass over leaves that the other document holds unchanged emits nothing. */
  lemma {:induction false} PassQuiet(leaves: seq<Entry>, other: Value, reverse: bool, st: State)
    requires Located(leaves, other)
    ensures Pass(leaves, other, reverse, st).Ok?
    ensures Pass(leaves, other, reverse, st).value.deltas == st.deltas
    decreases |leaves|
  {
    if leaves != [] {
      var e := leaves[0];
      assert e in leaves;
      var path := RenderPath(e.path);
      assert Emitted(e.value, path, Some(e.value), reverse) == [];
      assert st.deltas + [] == st.deltas;
      var next := Visit(st, e, other, reverse).value;
      assert next.deltas == st.deltas;
      assert Located(leaves[1..], other) by {
        assert forall x :: x in leaves[1..] ==> x in leaves;
      }
      PassQuiet(leaves[1..], other, reverse, next);
    }
  }

  /** Diffing a ready document with itself finds nothing. */
  lemma SelfDiffEmpty(v: Value)
    requires Ready(v)
    ensures DiffResult(v, v) == Ok([])
  {
    RootLocated(v, true);
    PassQuiet(Leaves(v, [], true), v, false, State([], {}));
    PassQuiet(Leaves(v, [], true), v, true, FirstPass(v, v).value);
  }
}
