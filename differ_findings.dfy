/** The reverse pass of src/differ.rs (lines 119-135) builds its Change deltas the same
    way as the first pass: the visited leaf as `old_value` and the value found in the
    other document as `new_value`. In the reverse pass the visited document is the right
    one, so such a Change records the value of the right document as old and that of the
    left document as new, and patching the left document with the deltas writes the left
    value back. The code as written is modelled by `Differs`; this module shows the
    discrepancy and proves the intended reading for a corrected reverse pass. */
module DifferFindings {
  import opened Wrappers
  import opened Json
  import opened Deltas
  import opened LeafPaths
  import opened Differs
  import opened DifferProperties
  import opened Options
  import opened Patcher
  import PatcherProperties
  import Text

  /** A delta that reads the left document against the right one: a Change from the
      left value to the right value, a Delete of a left value the right document lacks,
      an Add of a right value the left document lacks; the hash is the delta's own. */
  predicate Describes(d: Delta, left: Value, right: Value) {
    HashConsistent(d) &&
    match d.operation
    case Change =>
      Query(left, d.path) == Ok(Some(d.oldValue)) && Query(right, d.path) == Ok(Some(d.newValue)) && d.oldValue != d.newValue
    case Delete =>
      Query(left, d.path) == Ok(Some(d.oldValue)) && Query(right, d.path) == Ok(None) && d.newValue == Null
    case Add =>
      Query(left, d.path) == Ok(None) && Query(right, d.path) == Ok(Some(d.newValue)) && d.oldValue == Null
  }

  // ------------------------------------------------------------- as written

  /** A Change of the reverse pass holds the right document's value as its old value and
      the left document's as its new one, so it does not describe the left document
      against the right one. */
  lemma AsWrittenReverseChange(left: Value, right: Value)
    requires Ready(left) && Ready(right)
    ensures DiffResult(left, right).Ok? && FirstPass(left, right).Ok?
    ensures var ds := DiffResult(left, right).value;
      var k := |FirstPass(left, right).value.deltas|;
      forall i :: k <= i < |ds| && ds[i].operation == Change ==>
        Query(right, ds[i].path) == Ok(Some(ds[i].oldValue)) &&
        Query(left, ds[i].path) == Ok(Some(ds[i].newValue)) &&
        !Describes(ds[i], left, right)
  {
    DiffOriented(left, right);
  }

  /** The path text of a top-level key. */
  lemma TopLevelText(k: string)
    requires ShorthandName(k)
    ensures SegmentsOf([Key(k)]) == ["$." + k]
    ensures RenderPath(["$." + k]) == "$." + k
    ensures forall v :: Query(v, "$." + k) == Ok(Resolve(v, [Key(k)]))
  {
    var seg := "$." + k;
    assert SegmentsOf([Key(k)]) == [seg];
    assert RenderPath([seg]) == seg by {
      assert [seg][..0] == [];
      assert RenderPath([seg]) == RenderPath([]) + Piece(seg, 0);
      assert "" + seg == seg;
    }
    assert ShorthandSteps([Key(k)]);
    forall v
      ensures Query(v, seg) == Ok(Resolve(v, [Key(k)]))
    {
      QueryRendered(v, [Key(k)]);
    }
  }

  /** The leaves of `{k: x}` and of `{k: []}`. */
  lemma SingleMemberLeaves(k: string, x: Value)
    requires IsLeaf(x)
    ensures Leaves(Obj([Member(k, x)]), [], true) == [Entry(x, ["$." + k])]
    ensures Leaves(Obj([Member(k, Arr([]))]), [], true) == []
  {
    var path: seq<string> := [];
    assert path + [KeySegment(path, k)] == ["$." + k];
    assert [Member(k, x)][1..] == [];
    assert MemberLeaves([Member(k, x)], path, true) == [] + [Entry(x, ["$." + k])];
    assert [] + [Entry(x, ["$." + k])] == [Entry(x, ["$." + k])];
    assert [Member(k, Arr([]))][1..] == [];
    assert MemberLeaves([Member(k, Arr([]))], path, true) == [] + [];
  }

  /** Left `{k: []}`, right `{k: x}`: the only delta is a Change from `x` to `[]`, and
      patching the left document with it gives back the left document, not the right
      one. */
  lemma AsWrittenEmptyContainer(k: string, x: Value)
    requires ShorthandName(k) && IsLeaf(x)
    ensures var left := Obj([Member(k, Arr([]))]);
      var right := Obj([Member(k, x)]);
      DiffResult(left, right) == Ok([NewDelta(Change, "$." + k, x, Arr([]))]) &&
      PatchResult(left, [NewDelta(Change, "$." + k, x, Arr([]))], New()) == Ok(left) &&
      left != right
  {
    EmptyContainerDiff(k, x);
    PatchOne(k, Arr([]), Arr([]), NewDelta(Change, "$." + k, x, Arr([])));
  }

  lemma EmptyContainerDiff(k: string, x: Value)
    requires ShorthandName(k) && IsLeaf(x)
    ensures DiffResult(Obj([Member(k, Arr([]))]), Obj([Member(k, x)])) == Ok([NewDelta(Change, "$." + k, x, Arr([]))])
  {
    var left := Obj([Member(k, Arr([]))]);
    var right := Obj([Member(k, x)]);
    var e := Entry(x, ["$." + k]);
    SingleMemberLeaves(k, x);
    EmptyContainerQuery(k, x);
    OneLeafPass(e, left, true, Some(Arr([])));
    EmittedChange(x, Arr([]), "$." + k, true);
    assert FirstPass(left, right) == Ok(State([], {}));
  }

  lemma EmittedChange(leaf: Value, w: Value, path: string, reverse: bool)
    requires leaf != w
    ensures Emitted(leaf, path, Some(w), reverse) == [NewDelta(Change, path, leaf, w)]
  {
  }

  /** The right document's leaf is `x` at `$.k`, where the left one holds `[]`. */
  lemma EmptyContainerQuery(k: string, x: Value)
    requires ShorthandName(k)
    ensures RenderPath(["$." + k]) == "$." + k
    ensures Query(Obj([Member(k, Arr([]))]), "$." + k) == Ok(Some(Arr([])))
  {
    TopLevelText(k);
    assert [Key(k)][1..] == [];
    assert Resolve(Obj([Member(k, Arr([]))]), [Key(k)]) == Resolve(Arr([]), []);
  }

  /** A pass over a single leaf from the empty state. */
  lemma OneLeafPass(e: Entry, other: Value, reverse: bool, found: Option<Value>)
    requires Query(other, RenderPath(e.path)) == Ok(found)
    ensures var path := RenderPath(e.path);
      Pass([e], other, reverse, State([], {})) == Ok(State(Emitted(e.value, path, found, reverse), {path})) &&
      PassFixed([e], other, reverse, State([], {})) == Ok(State(EmittedFixed(e.value, path, found, reverse), {path}))
  {
    var path := RenderPath(e.path);
    assert [e][1..] == [];
    assert [] + Emitted(e.value, path, found, reverse) == Emitted(e.value, path, found, reverse);
    assert [] + EmittedFixed(e.value, path, found, reverse) == EmittedFixed(e.value, path, found, reverse);
    assert {} + {path} == {path};
  }

  /** Patching `{k: a}` with one Change of `$.k` to `b`. */
  lemma PatchOne(k: string, a: Value, b: Value, d: Delta)
    requires ShorthandName(k)
    requires d.operation == Change && d.path == "$." + k && d.newValue == b
    ensures PatchResult(Obj([Member(k, a)]), [d], New()) == Ok(Obj([Member(k, b)]))
  {
    var ms := [Member(k, a)];
    ShorthandPlain(k);
    PatcherProperties.TopLevelKey(ms, k, b, Change, New());
    assert Set(ms, k, b) == [Member(k, b)] by {
      assert ms[1..] == [];
    }
    assert SetByPath(Obj(ms), d.path, d.newValue, d.operation, New()) == Applied(Obj([Member(k, b)]));
    assert Patcher.Step(Obj(ms), d, New()) == Ok(Obj([Member(k, b)]));
    assert ApplyAll(Obj([Member(k, b)]), [d][1..], New()) == Ok(Obj([Member(k, b)])) by {
      assert [d][1..] == [];
    }
    assert ApplyAll(Obj(ms), [d], New()) == Ok(Obj([Member(k, b)]));
    assert !New().omitEmpty;
  }

  /** A member-name shorthand reads back as a plain key. */
  lemma ShorthandPlain(k: string)
    requires ShorthandName(k)
    ensures PatcherProperties.PlainKey(k)
  {
    assert forall i :: 0 <= i < |k| ==> NameChar(k[i]);
    assert k != "$" by {
      assert NameFirst(k[0]);
    }
  }

  // ------------------------------------------------------------- corrected

  /** The deltas of a visited leaf with the reverse pass's Change oriented from the left
      document (the one queried) to the right one (the one visited). */
  function EmittedFixed(leaf: Value, path: string, found: Option<Value>, reverse: bool): seq<Delta> {
    match found
    case Some(w) =>
      if leaf == w then []
      else if reverse then [NewDelta(Change, path, w, leaf)]
      else [NewDelta(Change, path, leaf, w)]
    case None =>
      if reverse then [NewDelta(Add, path, Null, leaf)] else [NewDelta(Delete, path, leaf, Null)]
  }

  function VisitFixed(st: State, e: Entry, other: Value, reverse: bool): Result<State> {
    var path := RenderPath(e.path);
    if path in st.seen then Ok(st)
    else
      match Query(other, path)
      case Panic => Panic
      case Ok(found) => Ok(State(st.deltas + EmittedFixed(e.value, path, found, reverse), st.seen + {path}))
  }

  function PassFixed(leaves: seq<Entry>, other: Value, reverse: bool, st: State): Result<State>
    decreases |leaves|
  {
    if leaves == [] then Ok(st)
    else
      match VisitFixed(st, leaves[0], other, reverse)
      case Panic => Panic
      case Ok(next) => PassFixed(leaves[1..], other, reverse, next)
  }

  function DiffFixed(left: Value, right: Value): Result<seq<Delta>> {
    match PassFixed(Leaves(left, [], true), right, false, State([], {}))
    case Panic => Panic
    case Ok(st) =>
      match PassFixed(Leaves(right, [], true), left, true, st)
      case Panic => Panic
      case Ok(last) => Ok(last.deltas)
  }

  /** A Change turned round: old and new exchanged, hash recomputed. */
  function Flipped(d: Delta): Delta {
    if d.operation == Change then NewDelta(Change, d.path, d.newValue, d.oldValue) else d
  }

  /** The deltas as the corrected pass emits them: unchanged in the first pass, every
      Change turned round in the reverse pass. */
  function Flips(ds: seq<Delta>, reverse: bool): (r: seq<Delta>)
    ensures |r| == |ds|
    ensures forall i :: 0 <= i < |ds| ==> r[i] == (if reverse then Flipped(ds[i]) else ds[i])
  {
    if reverse then seq(|ds|, i requires 0 <= i < |ds| => Flipped(ds[i])) else ds
  }

  lemma FlipsAppend(a: seq<Delta>, b: seq<Delta>, reverse: bool)
    ensures Flips(a + b, reverse) == Flips(a, reverse) + Flips(b, reverse)
  {
  }

  lemma EmittedFlips(leaf: Value, path: string, found: Option<Value>, reverse: bool)
    ensures EmittedFixed(leaf, path, found, reverse) == Flips(Emitted(leaf, path, found, reverse), reverse)
  {
    match found
    case Some(w) =>
      if leaf != w {
        var d := NewDelta(Change, path, leaf, w);
        assert Flipped(d) == NewDelta(Change, path, w, leaf);
        FlipsSingle(d, reverse);
      }
    case None =>
      var d := if reverse then NewDelta(Add, path, Null, leaf) else NewDelta(Delete, path, leaf, Null);
      assert Flipped(d) == d;
      FlipsSingle(d, reverse);
  }

  lemma FlipsSingle(d: Delta, reverse: bool)
    ensures Flips([d], reverse) == [if reverse then Flipped(d) else d]
  {
  }

  /** The corrected pass fails exactly when the pass as written does, marks the same
      paths seen and emits the same deltas, with the reverse pass's Changes turned
      round. */
  lemma {:induction false} PassFixedFlips(leaves: seq<Entry>, other: Value, reverse: bool, st: State, st2: State)
    requires st2.seen == st.seen
    ensures PassFixed(leaves, other, reverse, st2).Ok? == Pass(leaves, other, reverse, st).Ok?
    ensures Pass(leaves, other, reverse, st).Ok? ==>
      var done := Pass(leaves, other, reverse, st).value;
      var fixed := PassFixed(leaves, other, reverse, st2).value;
      st.deltas <= done.deltas && fixed.seen == done.seen &&
      fixed.deltas == st2.deltas + Flips(done.deltas[|st.deltas|..], reverse)
    decreases |leaves|
  {
    if leaves == [] {
      assert st.deltas[|st.deltas|..] == [];
      assert st2.deltas + [] == st2.deltas;
    } else {
      var e := leaves[0];
      VisitFlips(st, st2, e, other, reverse);
      if Visit(st, e, other, reverse).Ok? {
        var next := Visit(st, e, other, reverse).value;
        var next2 := VisitFixed(st2, e, other, reverse).value;
        assert Pass(leaves, other, reverse, st) == Pass(leaves[1..], other, reverse, next);
        assert PassFixed(leaves, other, reverse, st2) == PassFixed(leaves[1..], other, reverse, next2);
        PassFixedFlips(leaves[1..], other, reverse, next, next2);
        if Pass(leaves, other, reverse, st).Ok? {
          var done := Pass(leaves, other, reverse, st).value;
          var fixed := PassFixed(leaves, other, reverse, st2).value;
          FlipsCompose(st.deltas, next.deltas, done.deltas, st2.deltas, next2.deltas, fixed.deltas, reverse);
        }
      }
    }
  }

  /** One visit of the corrected pass against one of the pass as written. */
  lemma VisitFlips(st: State, st2: State, e: Entry, other: Value, reverse: bool)
    requires st2.seen == st.seen
    ensures VisitFixed(st2, e, other, reverse).Ok? == Visit(st, e, other, reverse).Ok?
    ensures Visit(st, e, other, reverse).Ok? ==>
      var next := Visit(st, e, other, reverse).value;
      var next2 := VisitFixed(st2, e, other, reverse).value;
      st.deltas <= next.deltas && next2.seen == next.seen &&
      next2.deltas == st2.deltas + Flips(next.deltas[|st.deltas|..], reverse)
  {
    var path := RenderPath(e.path);
    if path in st.seen {
      assert st.deltas[|st.deltas|..] == [];
      assert st2.deltas + [] == st2.deltas;
    } else if Query(other, path).Ok? {
      var found := Query(other, path).value;
      var ems := Emitted(e.value, path, found, reverse);
      EmittedFlips(e.value, path, found, reverse);
      assert (st.deltas + ems)[|st.deltas|..] == ems;
    }
  }

  /** Deltas appended in two steps, turned round step by step. */
  lemma FlipsCompose(a: seq<Delta>, n: seq<Delta>, d: seq<Delta>, a2: seq<Delta>, n2: seq<Delta>, f: seq<Delta>, reverse: bool)
    requires a <= n && n <= d
    requires n2 == a2 + Flips(n[|a|..], reverse)
    requires f == n2 + Flips(d[|n|..], reverse)
    ensures f == a2 + Flips(d[|a|..], reverse)
  {
    var x := n[|a|..];
    var y := d[|n|..];
    Text.PrefixRest(a, n);
    Text.SliceSplit(a, x, d);
    FlipsAppend(x, y, reverse);
    Text.Assoc(a2, Flips(x, reverse), Flips(y, reverse));
  }

  /** A delta of the first pass, or an Add of the reverse pass, as written already
      describes the left document against the right one; a Change of the reverse pass
      does once turned round. */
  lemma FlippedDescribes(d: Delta, left: Value, right: Value, reverse: bool)
    requires if reverse then Oriented(d, right, left, true) else Oriented(d, left, right, false)
    ensures Describes(if reverse then Flipped(d) else d, left, right)
  {
  }

  /** With the reverse pass corrected, every delta describes the left document against
      the right one. */
  lemma FixedDescribes(left: Value, right: Value)
    requires Ready(left) && Ready(right)
    ensures DiffFixed(left, right).Ok?
    ensures forall d :: d in DiffFixed(left, right).value ==> Describes(d, left, right)
  {
    DiffOriented(left, right);
    DiffFixedFlips(left, right);
    var first := FirstPass(left, right).value.deltas;
    var ds := DiffResult(left, right).value;
    var fixed := DiffFixed(left, right).value;
    forall d | d in fixed
      ensures Describes(d, left, right)
    {
      var i :| 0 <= i < |fixed| && fixed[i] == d;
      FixedAt(first, ds, fixed, i, left, right);
    }
  }

  /** The corrected diff succeeds exactly when the diff as written does, and then holds
      the same deltas with the Changes of the reverse pass turned round. */
  lemma DiffFixedFlips(left: Value, right: Value)
    ensures DiffFixed(left, right).Ok? == DiffResult(left, right).Ok?
    ensures DiffResult(left, right).Ok? ==>
      FirstPass(left, right).Ok? &&
      var first := FirstPass(left, right).value.deltas;
      var ds := DiffResult(left, right).value;
      first <= ds && DiffFixed(left, right).value == first + Flips(ds[|first|..], true)
  {
    var empty := State([], {});
    PassFixedFlips(Leaves(left, [], true), right, false, empty, empty);
    if FirstPass(left, right).Ok? {
      var first := FirstPass(left, right).value;
      var fixed1 := PassFixed(Leaves(left, [], true), right, false, empty).value;
      assert fixed1 == first by {
        assert first.deltas[0..] == first.deltas;
        assert [] + first.deltas == first.deltas;
      }
      PassFixedFlips(Leaves(right, [], true), left, true, first, fixed1);
    }
  }

  /** One delta of the corrected diff, taken from the diff as written. */
  lemma FixedAt(first: seq<Delta>, ds: seq<Delta>, fixed: seq<Delta>, i: nat, left: Value, right: Value)
    requires first <= ds && fixed == first + Flips(ds[|first|..], true) && i < |fixed|
    requires forall j :: 0 <= j < |first| ==> Oriented(ds[j], left, right, false)
    requires forall j :: |first| <= j < |ds| ==> Oriented(ds[j], right, left, true)
    ensures Describes(fixed[i], left, right)
  {
    if i < |first| {
      assert fixed[i] == ds[i];
      FlippedDescribes(ds[i], left, right, false);
    } else {
      assert fixed[i] == Flipped(ds[i]);
      FlippedDescribes(ds[i], left, right, true);
    }
  }

  /** Left `{k: []}`, right `{k: x}` with the corrected reverse pass: the Change goes
      from `[]` to `x`, and patching the left document with it gives the right one. */
  lemma FixedEmptyContainer(k: string, x: Value)
    requires ShorthandName(k) && IsLeaf(x)
    ensures var left := Obj([Member(k, Arr([]))]);
      var right := Obj([Member(k, x)]);
      DiffFixed(left, right) == Ok([NewDelta(Change, "$." + k, Arr([]), x)]) &&
      PatchResult(left, [NewDelta(Change, "$." + k, Arr([]), x)], New()) == Ok(right)
  {
    FixedEmptyContainerDiff(k, x);
    PatchOne(k, Arr([]), x, NewDelta(Change, "$." + k, Arr([]), x));
  }

  lemma FixedEmptyContainerDiff(k: string, x: Value)
    requires ShorthandName(k) && IsLeaf(x)
    ensures DiffFixed(Obj([Member(k, Arr([]))]), Obj([Member(k, x)])) == Ok([NewDelta(Change, "$." + k, Arr([]), x)])
  {
    var e := Entry(x, ["$." + k]);
    SingleMemberLeaves(k, x);
    EmptyContainerQuery(k, x);
    OneLeafFixed(Obj([Member(k, Arr([]))]), Obj([Member(k, x)]), e, Some(Arr([])));
    FixedReverseChange(x, Arr([]), "$." + k);
  }

  lemma FixedReverseChange(leaf: Value, w: Value, path: string)
    requires leaf != w
    ensures EmittedFixed(leaf, path, Some(w), true) == [NewDelta(Change, path, w, leaf)]
  {
  }

  /** The corrected diff of a document without leaves against one with a single leaf. */
  lemma OneLeafFixed(left: Value, right: Value, e: Entry, found: Option<Value>)
    requires Leaves(left, [], true) == [] && Leaves(right, [], true) == [e]
    requires Query(left, RenderPath(e.path)) == Ok(found)
    ensures DiffFixed(left, right) == Ok(EmittedFixed(e.value, RenderPath(e.path), found, true))
  {
    OneLeafPass(e, left, true, found);
    assert PassFixed([], right, false, State([], {})) == Ok(State([], {}));
  }
}
