/** Diff and patch composed on the scenario of src/lib_test.rs: the deltas of
    `{}` against `{a: x, t: [y]}` (with `a` before `t` in key order) are two Adds, and
    patching `{}` with them under the default options builds `{a: x, t: [y]}` again. */
module RoundTrip {
  import opened Wrappers
  import opened Json
  import opened Deltas
  import opened LeafPaths
  import opened Differs
  import opened Options
  import opened Patcher
  import PatcherProperties
  import DifferFindings
  import PathAnalysis
  import Text

  /** The leaves of `{a: x, t: [y]}` as the stack walk pops them: the later member first. */
  lemma RightLeaves(a: string, t: string, x: Value, y: Value)
    requires IsLeaf(x) && IsLeaf(y)
    ensures Leaves(Obj([Member(a, x), Member(t, Arr([y]))]), [], true) == [Entry(y, ["$." + t, "[0]"]), Entry(x, ["$." + a])]
  {
    var root: seq<string> := [];
    var ms := [Member(a, x), Member(t, Arr([y]))];
    assert root + [KeySegment(root, a)] == ["$." + a];
    assert root + [KeySegment(root, t)] == ["$." + t];
    assert IndexSegment(["$." + t], 0) == "[0]" by {
      assert Text.NatToString(0) == "0";
    }
    assert ["$." + t] + [IndexSegment(["$." + t], 0)] == ["$." + t, "[0]"];
    assert [y][1..] == [];
    assert ItemLeaves([y], ["$." + t], 0, true) == [] + [Entry(y, ["$." + t, "[0]"])];
    assert ms[1..][1..] == [];
    assert MemberLeaves(ms[1..], root, true) == [] + [Entry(y, ["$." + t, "[0]"])];
    assert MemberLeaves(ms, root, true) == [Entry(y, ["$." + t, "[0]"])] + [Entry(x, ["$." + a])];
  }

  /** The text of both leaf paths, the empty object's answer to them, and that they
      differ. */
  lemma LeafPathTexts(a: string, t: string)
    requires ShorthandName(a) && ShorthandName(t)
    ensures RenderPath(["$." + t, "[0]"]) == "$." + t + "[0]"
    ensures RenderPath(["$." + a]) == "$." + a
    ensures Query(Obj([]), "$." + t + "[0]") == Ok(None)
    ensures Query(Obj([]), "$." + a) == Ok(None)
    ensures "$." + t + "[0]" != "$." + a
  {
    IndexPathText(t);
    KeyPathText(a);
    PathsDiffer(a, t);
  }

  /** An index path holds a `[`, a member-name path does not. */
  lemma PathsDiffer(a: string, t: string)
    requires ShorthandName(a)
    ensures "$." + t + "[0]" != "$." + a
  {
    var p := "$." + t + "[0]";
    var q := "$." + a;
    assert p[|p| - 3] == '[';
    forall i | 2 <= i < |q|
      ensures q[i] != '['
    {
      assert q[i] == a[i - 2];
      assert NameChar(a[i - 2]);
    }
  }

  lemma IndexPathText(t: string)
    requires ShorthandName(t)
    ensures RenderPath(["$." + t, "[0]"]) == "$." + t + "[0]"
    ensures Query(Obj([]), "$." + t + "[0]") == Ok(None)
  {
    var steps := [Key(t), Index(0)];
    var segs := SegmentsOf(steps);
    assert segs == ["$." + t, "[0]"] by {
      assert segs[0] == KeySegment([], t);
      assert Text.NatToString(0) == "0";
      assert segs[1] == IndexSegment(["$"], 0) == "[0]";
    }
    assert RenderPath(segs) == RenderPath(["$." + t]) + Piece("[0]", 1) by {
      assert segs[..1] == ["$." + t];
    }
    assert RenderPath(["$." + t]) == "$." + t by {
      assert ["$." + t][..0] == [];
      assert "" + ("$." + t) == "$." + t;
    }
    assert '[' in "[0]";
    assert ShorthandSteps(steps);
    QueryRendered(Obj([]), steps);
  }

  lemma KeyPathText(a: string)
    requires ShorthandName(a)
    ensures RenderPath(["$." + a]) == "$." + a
    ensures Query(Obj([]), "$." + a) == Ok(None)
  {
    assert SegmentsOf([Key(a)]) == ["$." + a];
    assert RenderPath(["$." + a]) == "$." + a by {
      assert ["$." + a][..0] == [];
      assert "" + ("$." + a) == "$." + a;
    }
    assert ShorthandSteps([Key(a)]);
    QueryRendered(Obj([]), [Key(a)]);
  }

  /** The two deltas of the scenario. */
  lemma DiffFromEmpty(a: string, t: string, x: Value, y: Value)
    requires ShorthandName(a) && ShorthandName(t) && IsLeaf(x) && IsLeaf(y)
    ensures DiffResult(Obj([]), Obj([Member(a, x), Member(t, Arr([y]))])) ==
      Ok([NewDelta(Add, "$." + t + "[0]", Null, y), NewDelta(Add, "$." + a, Null, x)])
  {
    RightLeaves(a, t, x, y);
    LeafPathTexts(a, t);
    TwoAdds(Obj([Member(a, x), Member(t, Arr([y]))]), Entry(y, ["$." + t, "[0]"]), Entry(x, ["$." + a]));
  }

  /** The diff of `{}` against a document with two leaves the empty object lacks. */
  lemma TwoAdds(right: Value, e1: Entry, e2: Entry)
    requires Leaves(right, [], true) == [e1, e2]
    requires Query(Obj([]), RenderPath(e1.path)) == Ok(None) && Query(Obj([]), RenderPath(e2.path)) == Ok(None)
    requires RenderPath(e1.path) != RenderPath(e2.path)
    ensures DiffResult(Obj([]), right) ==
      Ok([NewDelta(Add, RenderPath(e1.path), Null, e1.value), NewDelta(Add, RenderPath(e2.path), Null, e2.value)])
  {
    var p1 := RenderPath(e1.path);
    var p2 := RenderPath(e2.path);
    var d1 := NewDelta(Add, p1, Null, e1.value);
    var d2 := NewDelta(Add, p2, Null, e2.value);
    NoLeaves();
    AddVisit(State([], {}), e1);
    assert [] + [d1] == [d1] && {} + {p1} == {p1};
    AddVisit(State([d1], {p1}), e2);
    Text.Pair(d1, d2);
    PassTwo(e1, e2, Obj([]), true, State([], {}), State([d1], {p1}), State([d1, d2], {p1} + {p2}));
    assert FirstPass(Obj([]), right) == Ok(State([], {}));
    DiffOfPasses(Obj([]), right, State([], {}), State([d1, d2], {p1} + {p2}));
  }

  lemma NoLeaves()
    ensures Leaves(Obj([]), [], true) == []
  {
  }

  lemma DiffOfPasses(left: Value, right: Value, st: State, last: State)
    requires FirstPass(left, right) == Ok(st) && Pass(Leaves(right, [], true), left, true, st) == Ok(last)
    ensures DiffResult(left, right) == Ok(last.deltas)
  {
  }

  lemma PassTwo(e1: Entry, e2: Entry, other: Value, reverse: bool, st: State, mid: State, last: State)
    requires Visit(st, e1, other, reverse) == Ok(mid) && Visit(mid, e2, other, reverse) == Ok(last)
    ensures Pass([e1, e2], other, reverse, st) == Ok(last)
  {
    assert [e2][1..] == [];
    assert Pass([e2], other, reverse, mid) == Ok(last);
    assert [e1, e2][0] == e1 && [e1, e2][1..] == [e2];
  }

  /** A reverse-pass leaf the empty object lacks gives an Add. */
  lemma AddVisit(st: State, e: Entry)
    requires RenderPath(e.path) !in st.seen && Query(Obj([]), RenderPath(e.path)) == Ok(None)
    ensures Visit(st, e, Obj([]), true) ==
      Ok(State(st.deltas + [NewDelta(Add, RenderPath(e.path), Null, e.value)], st.seen + {RenderPath(e.path)}))
  {
  }

  /** The path text the patcher reads as `$`, then `t` with index 0. */
  lemma IndexedText(t: string)
    requires PatcherProperties.PlainKey(t)
    ensures PatcherProperties.PathText(PatcherProperties.IndexedParts(t, [], 0)) == "$." + t + "[0]"
  {
    assert PathAnalysis.Brackets([0]) == "[0]" by {
      assert Text.NatToString(0) == "0";
      assert [0][1..] == [];
    }
    var segs := PatcherProperties.Segments(PatcherProperties.IndexedParts(t, [], 0));
    assert segs == [t + "[0]"] by {
      var none: seq<nat> := [];
      assert none + [0] == [0];
      assert PatcherProperties.IndexedParts(t, [], 0) == [PatcherProperties.Part(t, [0])];
      assert segs[0] == PathAnalysis.Segment(t, [0]);
    }
    assert (["$"] + segs)[1..] == segs;
    assert Text.JoinWith(["$"] + segs, '.') == "$" + ['.'] + (t + "[0]");
  }

  /** Patching `{}` with the two deltas builds `{a: x, t: [y]}`. */
  lemma PatchFromEmpty(a: string, t: string, x: Value, y: Value)
    requires ShorthandName(a) && ShorthandName(t) && Text.Less(a, t)
    ensures PatchResult(Obj([]), [NewDelta(Add, "$." + t + "[0]", Null, y), NewDelta(Add, "$." + a, Null, x)], New()) ==
      Ok(Obj([Member(a, x), Member(t, Arr([y]))]))
  {
    var d1 := NewDelta(Add, "$." + t + "[0]", Null, y);
    var d2 := NewDelta(Add, "$." + a, Null, x);
    var mid := Obj([Member(t, Arr([y]))]);
    AddIndexed(t, y, d1);
    AddInFront(a, t, x, y, d2);
    ApplyTwo(Obj([]), d1, d2, New(), mid, Obj([Member(a, x), Member(t, Arr([y]))]));
    assert !New().omitEmpty;
  }

  /** Add of `$.t[0]` on `{}`: a new array under `t` holding the value. */
  lemma AddIndexed(t: string, y: Value, d: Delta)
    requires ShorthandName(t)
    requires d.operation == Add && d.path == "$." + t + "[0]" && d.newValue == y
    ensures Patcher.Step(Obj([]), d, New()) == Ok(Obj([Member(t, Arr([y]))]))
  {
    DifferFindings.ShorthandPlain(t);
    IndexedText(t);
    PatcherProperties.IndexedAdd([], t, [], 0, y, New());
    var none: seq<Value> := [];
    assert none[..0] + [y] + none[0..] == [y];
  }

  /** Add of `$.a` on `{t: [y]}` with `a` before `t`: the member goes in front. */
  lemma AddInFront(a: string, t: string, x: Value, y: Value, d: Delta)
    requires ShorthandName(a) && Text.Less(a, t)
    requires d.operation == Add && d.path == "$." + a && d.newValue == x
    ensures Patcher.Step(Obj([Member(t, Arr([y]))]), d, New()) == Ok(Obj([Member(a, x), Member(t, Arr([y]))]))
  {
    var ms := [Member(t, Arr([y]))];
    DifferFindings.ShorthandPlain(a);
    PatcherProperties.TopLevelKey(ms, a, x, Add, New());
    Text.LessIrreflexive(a);
    assert Set(ms, a, x) == [Member(a, x)] + ms;
    assert [Member(a, x)] + ms == [Member(a, x), Member(t, Arr([y]))];
  }

  lemma ApplyTwo(json: Value, d1: Delta, d2: Delta, options: PatchOptions, mid: Value, last: Value)
    requires Patcher.Step(json, d1, options) == Ok(mid) && Patcher.Step(mid, d2, options) == Ok(last)
    ensures ApplyAll(json, [d1, d2], options) == Ok(last)
  {
    assert ApplyAll(last, [], options) == Ok(last);
    assert [d2][1..] == [];
    assert ApplyAll(mid, [d2], options) == Ok(last);
    assert [d1, d2][1..] == [d2];
  }

  /** Diffing `{}` against `{a: x, t: [y]}` and patching `{}` with the result gives
      `{a: x, t: [y]}` back, with two deltas in between. */
  lemma PatchUndoesDiff(a: string, t: string, x: Value, y: Value)
    requires ShorthandName(a) && ShorthandName(t) && Text.Less(a, t) && IsLeaf(x) && IsLeaf(y)
    ensures var right := Obj([Member(a, x), Member(t, Arr([y]))]);
      DiffResult(Obj([]), right).Ok? && |DiffResult(Obj([]), right).value| == 2 &&
      PatchResult(Obj([]), DiffResult(Obj([]), right).value, New()) == Ok(right)
  {
    DiffFromEmpty(a, t, x, y);
    PatchFromEmpty(a, t, x, y);
  }

  /** The scenario with the document of the source's test, `{"age": 20, "tags": ["test"]}`. */
  lemma AgeAndTags()
    ensures var right := Obj([Member("age", Num(20)), Member("tags", Arr([Str("test")]))]);
      DiffResult(Obj([]), right).Ok? && |DiffResult(Obj([]), right).value| == 2 &&
      PatchResult(Obj([]), DiffResult(Obj([]), right).value, New()) == Ok(right)
  {
    assert ShorthandName("age") by {
      assert forall i :: 0 <= i < |"age"| ==> NameChar("age"[i]);
    }
    assert ShorthandName("tags") by {
      assert forall i :: 0 <= i < |"tags"| ==> NameChar("tags"[i]);
    }
    assert Text.Less("age", "tags");
    PatchUndoesDiff("age", "tags", Num(20), Str("test"));
  }

  /** A key holding `[digits]` renders as a path that reads as another key followed by an
      index: diffing `{"a[0]": 1}` against `{"a": [1]}` finds the leaf at `$.a[0]` on both
      sides, and reports no delta although the documents differ. */
  lemma BracketKeyAlias()
    ensures DiffResult(Obj([Member("a[0]", Num(1))]), Obj([Member("a", Arr([Num(1)]))])) == Ok([])
  {
    var left := Obj([Member("a[0]", Num(1))]);
    var right := Obj([Member("a", Arr([Num(1)]))]);
    var p := "$.a[0]";
    var e1 := Entry(Num(1), ["$.a[0]"]);
    var e2 := Entry(Num(1), ["$.a", "[0]"]);
    AliasLeaves();
    AliasQuery();
    var st := State([], {p});
    assert Visit(State([], {}), e1, right, false) == Ok(st) by {
      assert [] + Emitted(Num(1), p, Some(Num(1)), false) == [];
      assert {} + {p} == {p};
    }
    PassOne(e1, right, false, State([], {}), st);
    assert Visit(st, e2, left, true) == Ok(st);
    PassOne(e2, left, true, st, st);
  }

  /** A pass over one leaf is one visit. */
  lemma PassOne(e: Entry, other: Value, reverse: bool, st: State, next: State)
    requires Visit(st, e, other, reverse) == Ok(next)
    ensures Pass([e], other, reverse, st) == Ok(next)
  {
    assert [e][1..] == [];
  }

  /** The leaves of the two documents, and their rendered paths. */
  lemma AliasLeaves()
    ensures Leaves(Obj([Member("a[0]", Num(1))]), [], true) == [Entry(Num(1), ["$.a[0]"])]
    ensures Leaves(Obj([Member("a", Arr([Num(1)]))]), [], true) == [Entry(Num(1), ["$.a", "[0]"])]
    ensures RenderPath(["$.a[0]"]) == "$.a[0]" && RenderPath(["$.a", "[0]"]) == "$.a[0]"
  {
    LeftAliasLeaves();
    RightAliasLeaves();
    AliasRender();
  }

  lemma AliasRender()
    ensures RenderPath(["$.a[0]"]) == "$.a[0]" && RenderPath(["$.a", "[0]"]) == "$.a[0]"
  {
    assert ["$.a", "[0]"][..1] == ["$.a"];
    assert ["$.a"][..0] == [];
    assert '[' in "[0]";
  }

  lemma LeftAliasLeaves()
    ensures Leaves(Obj([Member("a[0]", Num(1))]), [], true) == [Entry(Num(1), ["$.a[0]"])]
  {
    var none: seq<string> := [];
    assert KeySegment(none, "a[0]") == "$.a[0]";
    assert [Member("a[0]", Num(1))][1..] == [];
    assert none + ["$.a[0]"] == ["$.a[0]"];
  }

  lemma RightAliasLeaves()
    ensures Leaves(Obj([Member("a", Arr([Num(1)]))]), [], true) == [Entry(Num(1), ["$.a", "[0]"])]
  {
    var none: seq<string> := [];
    RowAliasLeaves();
    assert KeySegment(none, "a") == "$.a";
    assert [Member("a", Arr([Num(1)]))][1..] == [];
    assert none + ["$.a"] == ["$.a"];
    assert MemberLeaves([Member("a", Arr([Num(1)]))], none, true) == [] + Leaves(Arr([Num(1)]), ["$.a"], true);
  }

  lemma RowAliasLeaves()
    ensures Leaves(Arr([Num(1)]), ["$.a"], true) == [Entry(Num(1), ["$.a", "[0]"])]
  {
    assert Text.NatToString(0) == "0";
    assert IndexSegment(["$.a"], 0) == "[0]";
    assert [Num(1)][1..] == [];
    assert ItemLeaves([Num(1)], ["$.a"], 0, true) == [] + [Entry(Num(1), ["$.a"] + ["[0]"])];
    assert ["$.a"] + ["[0]"] == ["$.a", "[0]"];
  }

  /** `$.a[0]` selects element 0 under `a`. */
  lemma AliasQuery()
    ensures Query(Obj([Member("a", Arr([Num(1)]))]), "$.a[0]") == Ok(Some(Num(1)))
  {
    AliasParse();
    assert [Index(0)][1..] == [];
    assert Resolve(Arr([Num(1)]), [Index(0)]) == Some(Num(1));
    assert [Key("a"), Index(0)][1..] == [Index(0)];
  }

  lemma AliasParse()
    ensures ParseQuery("$.a[0]") == Some([Key("a"), Index(0)])
  {
    IndexZero();
    assert NameFirst('a');
    ParseKey("a", "[0]");
    assert "." + "a" + "[0]" == ".a[0]";
    assert [Key("a")] + [Index(0)] == [Key("a"), Index(0)];
    assert "$.a[0]"[1..] == ".a[0]";
  }

  lemma IndexZero()
    ensures ParseSelectors("[0]") == Some([Index(0)])
  {
    assert Text.NatToString(0) == "0";
    ParseIndex(0, "");
    assert "[" + Text.NatToString(0) + "]" + "" == "[0]";
    assert [Index(0)] + [] == [Index(0)];
  }
}
