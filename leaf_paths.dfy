/** How the differ names the leaves of a document and looks a name up in the other
    document (src/differ.rs, src/lib.rs). The leaves are listed in visiting order with
    the path segments that lead to them, `$.k` or `$[i]` first and `k` or `[i]` after.
    The path text is built from the segments. A path is looked up through the part of
    JSONPath (RFC 9535) that these paths use: the root `$`, member-name shorthands `.name`
    and index selectors `[i]`. */
module LeafPaths {
  import opened Wrappers
  import opened Json
  import Text

  // ------------------------------------------------------------- leaves

  /** A value together with the path segments that lead to it. An entry is what the
      stack of `do_diff` holds, and a visited leaf is the entry it pops. */
  datatype Entry = Entry(value: Value, path: seq<string>)

  /** The segment pushed for a member: `$.key` at the root, `key` below it. */
  function KeySegment(path: seq<string>, key: string): string {
    if path == [] then "$." + key else key
  }

  /** The segment pushed for an array element: `$[i]` at the root, `[i]` below it. */
  function IndexSegment(path: seq<string>, index: nat): string {
    if path == [] then "$[" + Text.NatToString(index) + "]" else "[" + Text.NatToString(index) + "]"
  }

  /** The leaves below `v` (values that are neither object nor array), depth first, with
      their paths. With `lifo` a container's children come last first, the order in
      which the stack of `do_diff` pops them. Without it they come in order, as the
      recursion in `lib.rs` visits them. An empty container has no leaves. */
  function Leaves(v: Value, path: seq<string>, lifo: bool): seq<Entry>
    decreases v, 1
  {
    match v
    case Obj(ms) => MemberLeaves(ms, path, lifo)
    case Arr(a) => ItemLeaves(a, path, 0, lifo)
    case _ => [Entry(v, path)]
  }

  function MemberLeaves(ms: seq<Member>, path: seq<string>, lifo: bool): seq<Entry>
    decreases ms, 0
  {
    if ms == [] then []
    else
      var first := Leaves(ms[0].value, path + [KeySegment(path, ms[0].key)], lifo);
      var rest := MemberLeaves(ms[1..], path, lifo);
      if lifo then rest + first else first + rest
  }

  /** The leaves of the elements of `a`, the first of which has index `start`. */
  function ItemLeaves(a: seq<Value>, path: seq<string>, start: nat, lifo: bool): seq<Entry>
    decreases a, 0
  {
    if a == [] then []
    else
      var first := Leaves(a[0], path + [IndexSegment(path, start)], lifo);
      var rest := ItemLeaves(a[1..], path, start + 1, lifo);
      if lifo then rest + first else first + rest
  }

  /** In the stack order a row of three leaves comes last element first: `[2]`, `[1]`,
      `[0]`. */
  lemma PopOrder(x: Value, y: Value, z: Value, path: seq<string>)
    requires IsLeaf(x) && IsLeaf(y) && IsLeaf(z)
    ensures Leaves(Arr([x, y, z]), path, true) ==
      [Entry(z, path + [IndexSegment(path, 2)]), Entry(y, path + [IndexSegment(path, 1)]), Entry(x, path + [IndexSegment(path, 0)])]
  {
    var ex := Entry(x, path + [IndexSegment(path, 0)]);
    var ey := Entry(y, path + [IndexSegment(path, 1)]);
    var ez := Entry(z, path + [IndexSegment(path, 2)]);
    assert [z][1..] == [];
    assert ItemLeaves([z], path, 2, true) == [ez];
    assert [y, z][1..] == [z];
    assert ItemLeaves([y, z], path, 1, true) == [ez] + [ey];
    assert [x, y, z][1..] == [y, z];
    assert ItemLeaves([x, y, z], path, 0, true) == [ez] + [ey] + [ex];
  }

  /** Every listed leaf is a leaf. */
  lemma {:induction false} LeavesAreLeaves(v: Value, path: seq<string>, lifo: bool)
    ensures forall e :: e in Leaves(v, path, lifo) ==> IsLeaf(e.value)
    decreases v, 1
  {
    match v
    case Obj(ms) => MemberLeavesAreLeaves(ms, path, lifo);
    case Arr(a) => ItemLeavesAreLeaves(a, path, 0, lifo);
    case _ =>
  }

  lemma {:induction false} MemberLeavesAreLeaves(ms: seq<Member>, path: seq<string>, lifo: bool)
    ensures forall e :: e in MemberLeaves(ms, path, lifo) ==> IsLeaf(e.value)
    decreases ms, 0
  {
    if ms != [] {
      LeavesAreLeaves(ms[0].value, path + [KeySegment(path, ms[0].key)], lifo);
      MemberLeavesAreLeaves(ms[1..], path, lifo);
    }
  }

  lemma {:induction false} ItemLeavesAreLeaves(a: seq<Value>, path: seq<string>, start: nat, lifo: bool)
    ensures forall e :: e in ItemLeaves(a, path, start, lifo) ==> IsLeaf(e.value)
    decreases a, 0
  {
    if a != [] {
      LeavesAreLeaves(a[0], path + [IndexSegment(path, start)], lifo);
      ItemLeavesAreLeaves(a[1..], path, start + 1, lifo);
    }
  }

  // ------------------------------------------------------------- path text

  /** How a segment is appended to the path text: the first one and any holding `[` as
      they are, any other after a `.`. */
  function Piece(segment: string, index: nat): string {
    if '[' in segment || index == 0 then segment else "." + segment
  }

  /** The path text of a list of segments. */
  function RenderPath(path: seq<string>): string
    decreases |path|
  {
    if path == [] then "" else RenderPath(path[..|path| - 1]) + Piece(path[|path| - 1], |path| - 1)
  }

  /** The loop that builds the path text of a leaf (src/differ.rs and src/lib.rs build it
      the same way). */
  method JoinPath(path: seq<string>) returns (s: string)
    ensures s == RenderPath(path)
  {
    s := "";
    for index := 0 to |path|
      invariant s == RenderPath(path[..index])
    {
      RenderPrefix(path, index);
      s := s + Piece(path[index], index);
    }
    assert path[..|path|] == path;
  }

  lemma RenderPrefix(path: seq<string>, index: nat)
    requires index < |path|
    ensures RenderPath(path[..index + 1]) == RenderPath(path[..index]) + Piece(path[index], index)
  {
    var p := path[..index + 1];
    assert p[..|p| - 1] == path[..index];
    assert p[|p| - 1] == path[index];
  }

  // ------------------------------------------------------------- JSONPath

  /** One selector of a singular JSONPath query. */
  datatype Step = Key(name: string) | Index(index: nat)

  /** A character that may start a member-name shorthand (RFC 9535, section 2.5.1.1). */
  predicate NameFirst(c: char) {
    'A' <= c <= 'Z' || 'a' <= c <= 'z' || c == '_' || c as int >= 0x80
  }

  predicate NameChar(c: char) {
    NameFirst(c) || Text.IsDigit(c)
  }

  /** A key that can be written as a member-name shorthand. */
  predicate ShorthandName(k: string) {
    |k| >= 1 && NameFirst(k[0]) && forall i :: 0 <= i < |k| ==> NameChar(k[i])
  }

  /** Every object key in `v`, at any depth, is a member-name shorthand. */
  predicate NamesOnly(v: Value)
    decreases v
  {
    match v
    case Obj(ms) => forall i :: 0 <= i < |ms| ==> ShorthandName(ms[i].key) && NamesOnly(ms[i].value)
    case Arr(a) => forall i :: 0 <= i < |a| ==> NamesOnly(a[i])
    case _ => true
  }

  predicate ShorthandSteps(steps: seq<Step>) {
    forall i :: 0 <= i < |steps| ==> steps[i].Key? ==> ShorthandName(steps[i].name)
  }

  /** Number of leading name characters of `s`. */
  function NameRun(s: string): (n: nat)
    ensures n <= |s|
    ensures forall i :: 0 <= i < n ==> NameChar(s[i])
    ensures n < |s| ==> !NameChar(s[n])
  {
    if s == [] || !NameChar(s[0]) then 0 else 1 + NameRun(s[1..])
  }

  /** The selectors of the text after `$`: `.name` with a shorthand name, or `[i]` with
      `i` written in decimal without leading zeros; anything else does not parse. */
  function ParseSelectors(t: string): Option<seq<Step>>
    decreases |t|
  {
    if t == [] then Some([])
    else if t[0] == '.' then
      var s := t[1..];
      var n := NameRun(s);
      if n == 0 || !NameFirst(s[0]) then None
      else
        match ParseSelectors(s[n..])
        case None => None
        case Some(rest) => Some([Key(s[..n])] + rest)
    else if t[0] == '[' then
      var s := t[1..];
      var n := Text.DigitRun(s);
      if n == 0 || n >= |s| || s[n] != ']' || (n > 1 && s[0] == '0') then None
      else
        match ParseSelectors(s[n + 1..])
        case None => None
        case Some(rest) => Some([Index(Text.DigitsValue(s[..n]))] + rest)
    else None
  }

  /** `JsonPath::parse` on the queries used here: `$` and its selectors. */
  function ParseQuery(s: string): Option<seq<Step>> {
    if |s| >= 1 && s[0] == '$' then ParseSelectors(s[1..]) else None
  }

  /** The value a singular query selects, if any: a name selects the member of an object,
      an index the element of an array; anything else selects nothing. */
  function Resolve(v: Value, steps: seq<Step>): Option<Value>
    decreases |steps|
  {
    if steps == [] then Some(v)
    else
      match steps[0]
      case Key(k) => if v.Obj? && Has(v.members, k) then Resolve(Get(v.members, k).value, steps[1..]) else None
      case Index(i) => if v.Arr? && i < |v.items| then Resolve(v.items[i], steps[1..]) else None
  }

  /** `JsonPath::parse(path).unwrap()` followed by `query(v).first()`: a path that does not
      parse panics. */
  function Query(v: Value, path: string): Result<Option<Value>> {
    match ParseQuery(path)
    case None => Panic
    case Some(steps) => Ok(Resolve(v, steps))
  }

  // ------------------------------------------------------------- written steps

  /** The segment the differ pushes for a selector, the first or a later one. */
  function StepSegment(first: bool, s: Step): string {
    match s
    case Key(k) => KeySegment(if first then [] else ["$"], k)
    case Index(i) => IndexSegment(if first then [] else ["$"], i)
  }

  function SegmentsOf(steps: seq<Step>): (segs: seq<string>)
    ensures |segs| == |steps|
    ensures forall i :: 0 <= i < |steps| ==> segs[i] == StepSegment(i == 0, steps[i])
  {
    seq(|steps|, i requires 0 <= i < |steps| => StepSegment(i == 0, steps[i]))
  }

  /** The canonical JSONPath text of a selector and of a list of them. */
  function StepText(s: Step): string {
    match s
    case Key(k) => "." + k
    case Index(i) => "[" + Text.NatToString(i) + "]"
  }

  function StepsText(steps: seq<Step>): string
    decreases |steps|
  {
    if steps == [] then "" else StepText(steps[0]) + StepsText(steps[1..])
  }

  lemma {:induction false} StepsTextSnoc(steps: seq<Step>, s: Step)
    ensures StepsText(steps + [s]) == StepsText(steps) + StepText(s)
    decreases |steps|
  {
    if steps == [] {
      assert StepsText([s]) == StepText(s) + StepsText([]);
    } else {
      assert (steps + [s])[1..] == steps[1..] + [s];
      StepsTextSnoc(steps[1..], s);
    }
  }

  /** The segments pushed for one more selector are the segments of the longer list. */
  lemma SegmentsSnoc(steps: seq<Step>, s: Step)
    ensures SegmentsOf(steps + [s]) == SegmentsOf(steps) + [StepSegment(steps == [], s)]
    ensures s.Key? ==> SegmentsOf(steps + [s]) == SegmentsOf(steps) + [KeySegment(SegmentsOf(steps), s.name)]
    ensures s.Index? ==> SegmentsOf(steps + [s]) == SegmentsOf(steps) + [IndexSegment(SegmentsOf(steps), s.index)]
  {
    assert SegmentsOf(steps + [s]) == SegmentsOf(steps) + [StepSegment(steps == [], s)];
  }

  lemma RenderSnoc(path: seq<string>, segment: string)
    ensures RenderPath(path + [segment]) == RenderPath(path) + Piece(segment, |path|)
  {
    assert (path + [segment])[..|path|] == path;
  }

  /** The piece appended for a selector: `$` and its text first, its text after. */
  lemma PieceOfStep(s: Step, index: nat)
    requires s.Key? ==> ShorthandName(s.name)
    ensures Piece(StepSegment(index == 0, s), index) == (if index == 0 then "$" else "") + StepText(s)
  {
    var seg := StepSegment(index == 0, s);
    if index == 0 {
      assert Piece(seg, index) == seg;
      match s
      case Key(k) =>
        assert seg == "$." + k == "$" + ("." + k);
      case Index(i) =>
        assert seg == "$[" + Text.NatToString(i) + "]" == "$" + ("[" + Text.NatToString(i) + "]");
    } else {
      match s
      case Key(k) =>
        assert seg == k;
        assert '[' !in k by {
          assert forall i :: 0 <= i < |k| ==> NameChar(k[i]);
        }
      case Index(i) =>
        assert seg[0] == '[';
    }
  }

  /** Dropping the last selector drops the last piece of the path text. */
  lemma RenderLast(steps: seq<Step>)
    requires steps != [] && ShorthandSteps(steps)
    ensures ShorthandSteps(steps[..|steps| - 1])
    ensures |steps| == 1 ==> RenderPath(SegmentsOf(steps)) == "$" + StepText(steps[0])
    ensures |steps| > 1 ==>
      RenderPath(SegmentsOf(steps)) == RenderPath(SegmentsOf(steps[..|steps| - 1])) + StepText(steps[|steps| - 1])
    ensures StepsText(steps) == StepsText(steps[..|steps| - 1]) + StepText(steps[|steps| - 1])
  {
    var n := |steps|;
    var init := steps[..n - 1];
    var last := steps[n - 1];
    InitShorthand(steps);
    Text.SnocSplit(steps);
    RenderInitLast(init, last, steps);
    PieceOfStep(last, n - 1);
    if n == 1 {
      assert SegmentsOf(init) == [];
    }
    StepsTextSnoc(init, last);
  }

  lemma InitShorthand(steps: seq<Step>)
    requires steps != [] && ShorthandSteps(steps)
    ensures ShorthandSteps(steps[..|steps| - 1])
  {
    var init := steps[..|steps| - 1];
    forall i | 0 <= i < |init| ensures init[i].Key? ==> ShorthandName(init[i].name) {
      assert init[i] == steps[i];
    }
  }

  lemma RenderInitLast(init: seq<Step>, last: Step, steps: seq<Step>)
    requires steps == init + [last]
    ensures RenderPath(SegmentsOf(steps)) == RenderPath(SegmentsOf(init)) + Piece(StepSegment(init == [], last), |init|)
  {
    SegmentsSnoc(init, last);
    RenderSnoc(SegmentsOf(init), StepSegment(init == [], last));
  }

  lemma Associative(a: string, b: string, c: string)
    ensures a + b + c == a + (b + c)
  { }

  /** The path text of the segments of non-empty selectors is `$` and their canonical
      text. */
  lemma {:induction false} RenderSteps(steps: seq<Step>)
    requires steps != [] && ShorthandSteps(steps)
    ensures RenderPath(SegmentsOf(steps)) == "$" + StepsText(steps)
    decreases |steps|
  {
    var init := steps[..|steps| - 1];
    var last := steps[|steps| - 1];
    RenderLast(steps);
    if |steps| == 1 {
      assert StepsText(init) == "";
      assert StepsText(steps) == StepText(last);
    } else {
      RenderSteps(init);
      Associative("$", StepsText(init), StepText(last));
    }
  }

  lemma {:induction false} NameRunOf(name: string, rest: string)
    requires forall i :: 0 <= i < |name| ==> NameChar(name[i])
    requires rest == [] || !NameChar(rest[0])
    ensures NameRun(name + rest) == |name|
    decreases |name|
  {
    if name == [] {
      assert name + rest == rest;
    } else {
      assert (name + rest)[1..] == name[1..] + rest;
      NameRunOf(name[1..], rest);
    }
  }

  /** A selector's text followed by more selectors parses as that selector first. */
  lemma ParseStep(s: Step, rest: string)
    requires s.Key? ==> ShorthandName(s.name)
    requires rest == [] || rest[0] == '.' || rest[0] == '['
    ensures ParseSelectors(StepText(s) + rest) ==
      match ParseSelectors(rest)
      case None => None
      case Some(r) => Some([s] + r)
  {
    match s
    case Key(k) => ParseKey(k, rest);
    case Index(i) => ParseIndex(i, rest);
  }

  lemma ParseKey(k: string, rest: string)
    requires ShorthandName(k)
    requires rest == [] || rest[0] == '.' || rest[0] == '['
    ensures ParseSelectors("." + k + rest) ==
      match ParseSelectors(rest)
      case None => None
      case Some(r) => Some([Key(k)] + r)
  {
    Text.HeadRest('.', k, rest);
    Text.SplitConcat(k, rest);
    NameRunOf(k, rest);
  }

  lemma ParseIndex(i: nat, rest: string)
    requires rest == [] || rest[0] == '.' || rest[0] == '['
    ensures ParseSelectors("[" + Text.NatToString(i) + "]" + rest) ==
      match ParseSelectors(rest)
      case None => None
      case Some(r) => Some([Index(i)] + r)
  {
    var d := Text.NatToString(i);
    Text.Enclosed('[', d, ']', rest);
    Text.DigitRunOfDigits(d, "]" + rest);
    Text.DigitsRoundTrip(i);
  }

  /** Canonical text parses back into the selectors it was written from. */
  lemma {:induction false} ParseStepsText(steps: seq<Step>)
    requires ShorthandSteps(steps)
    ensures ParseSelectors(StepsText(steps)) == Some(steps)
    decreases |steps|
  {
    if steps != [] {
      var tail := steps[1..];
      ShorthandTail(steps);
      ParseStepsText(tail);
      if tail != [] {
        TextStart(tail[0], StepsText(tail[1..]));
      }
      ParseStep(steps[0], StepsText(tail));
      Text.ConsSplit(steps);
    }
  }

  lemma ShorthandTail(steps: seq<Step>)
    requires steps != [] && ShorthandSteps(steps)
    ensures ShorthandSteps(steps[1..]) && (steps[0].Key? ==> ShorthandName(steps[0].name))
  {
    var tail := steps[1..];
    forall i | 0 <= i < |tail| ensures tail[i].Key? ==> ShorthandName(tail[i].name) {
      assert tail[i] == steps[i + 1];
    }
  }

  lemma TextStart(s: Step, more: string)
    ensures (StepText(s) + more)[0] == (if s.Key? then '.' else '[')
  {
  }

  /** The path text of non-empty shorthand selectors is a query that selects what
      `Resolve` selects. */
  lemma QueryRendered(v: Value, steps: seq<Step>)
    requires steps != [] && ShorthandSteps(steps)
    ensures Query(v, RenderPath(SegmentsOf(steps))) == Ok(Resolve(v, steps))
  {
    RenderSteps(steps);
    ParseStepsText(steps);
    assert ("$" + StepsText(steps))[1..] == StepsText(steps);
  }

  /** Following one more selector. */
  lemma {:induction false} ResolveSnoc(v: Value, steps: seq<Step>, s: Step)
    ensures Resolve(v, steps + [s]) ==
      match Resolve(v, steps)
      case None => None
      case Some(x) => Resolve(x, [s])
    decreases |steps|
  {
    if steps == [] {
      assert steps + [s] == [s];
    } else {
      assert (steps + [s])[1..] == steps[1..] + [s];
      match steps[0]
      case Key(k) =>
        if v.Obj? && Has(v.members, k) {
          ResolveSnoc(Get(v.members, k).value, steps[1..], s);
        }
      case Index(i) =>
        if v.Arr? && i < |v.items| {
          ResolveSnoc(v.items[i], steps[1..], s);
        }
    }
  }

  // ------------------------------------------------------------- leaves are found

  /** Every leaf below a value reached through `steps` is found again by querying the
      document with the leaf's path text, as long as every key on the way is a shorthand
      name and the path is not empty. */
  lemma {:induction false} LeavesLocated(root: Value, v: Value, steps: seq<Step>, lifo: bool)
    requires Resolve(root, steps) == Some(v) && NamesOnly(v) && ShorthandSteps(steps)
    requires steps != [] || IsContainer(v)
    requires Wf(v)
    ensures forall e :: e in Leaves(v, SegmentsOf(steps), lifo) ==> Query(root, RenderPath(e.path)) == Ok(Some(e.value))
    decreases v, 1
  {
    match v
    case Obj(ms) =>
      forall i | 0 <= i < |ms|
        ensures Resolve(root, steps + [Key(ms[i].key)]) == Some(ms[i].value)
      {
        ResolveSnoc(root, steps, Key(ms[i].key));
        GetSorted(ms, i);
      }
      MemberLeavesLocated(root, ms, steps, lifo);
    case Arr(a) =>
      forall i | 0 <= i < |a|
        ensures Resolve(root, steps + [Index(0 + i)]) == Some(a[i])
      {
        ResolveSnoc(root, steps, Index(i));
      }
      ItemLeavesLocated(root, a, steps, 0, lifo);
    case _ => QueryRendered(root, steps);
  }

  lemma {:induction false} MemberLeavesLocated(root: Value, ms: seq<Member>, steps: seq<Step>, lifo: bool)
    requires Wf(Obj(ms)) && NamesOnly(Obj(ms)) && ShorthandSteps(steps)
    requires forall i :: 0 <= i < |ms| ==> Resolve(root, steps + [Key(ms[i].key)]) == Some(ms[i].value)
    ensures forall e :: e in MemberLeaves(ms, SegmentsOf(steps), lifo) ==> Query(root, RenderPath(e.path)) == Ok(Some(e.value))
    decreases ms, 0
  {
    if ms != [] {
      var m := ms[0];
      MembersTail(root, ms, steps);
      ShorthandSnoc(steps, Key(m.key));
      SegmentsSnoc(steps, Key(m.key));
      LeavesLocated(root, m.value, steps + [Key(m.key)], lifo);
      MemberLeavesLocated(root, ms[1..], steps, lifo);
    }
  }

  lemma {:induction false} ItemLeavesLocated(root: Value, a: seq<Value>, steps: seq<Step>, start: nat, lifo: bool)
    requires Wf(Arr(a)) && NamesOnly(Arr(a)) && ShorthandSteps(steps)
    requires forall i :: 0 <= i < |a| ==> Resolve(root, steps + [Index(start + i)]) == Some(a[i])
    ensures forall e :: e in ItemLeaves(a, SegmentsOf(steps), start, lifo) ==> Query(root, RenderPath(e.path)) == Ok(Some(e.value))
    decreases a, 0
  {
    if a != [] {
      ItemsTail(root, a, steps, start);
      ShorthandSnoc(steps, Index(start));
      SegmentsSnoc(steps, Index(start));
      LeavesLocated(root, a[0], steps + [Index(start)], lifo);
      ItemLeavesLocated(root, a[1..], steps, start + 1, lifo);
    }
  }

  lemma ShorthandSnoc(steps: seq<Step>, s: Step)
    requires ShorthandSteps(steps) && (s.Key? ==> ShorthandName(s.name))
    ensures ShorthandSteps(steps + [s])
  {
    var longer := steps + [s];
    forall i | 0 <= i < |longer| ensures longer[i].Key? ==> ShorthandName(longer[i].name) {
      if i < |steps| { assert longer[i] == steps[i]; }
    }
  }

  /** The first member and the rest of a located object. */
  lemma MembersTail(root: Value, ms: seq<Member>, steps: seq<Step>)
    requires ms != [] && Wf(Obj(ms)) && NamesOnly(Obj(ms))
    requires forall i :: 0 <= i < |ms| ==> Resolve(root, steps + [Key(ms[i].key)]) == Some(ms[i].value)
    ensures Wf(ms[0].value) && NamesOnly(ms[0].value) && ShorthandName(ms[0].key)
    ensures Resolve(root, steps + [Key(ms[0].key)]) == Some(ms[0].value)
    ensures Wf(Obj(ms[1..])) && NamesOnly(Obj(ms[1..]))
    ensures forall i :: 0 <= i < |ms[1..]| ==> Resolve(root, steps + [Key(ms[1..][i].key)]) == Some(ms[1..][i].value)
  {
    var m := ms[0];
    var tail := ms[1..];
    assert Wf(Obj(tail)) by {
      SortedTail(m, tail);
      assert ms == [m] + tail;
    }
    forall i | 0 <= i < |tail|
      ensures ShorthandName(tail[i].key) && NamesOnly(tail[i].value) && Wf(tail[i].value)
      ensures Resolve(root, steps + [Key(tail[i].key)]) == Some(tail[i].value)
    {
      assert tail[i] == ms[i + 1];
    }
  }

  /** The first item and the rest of a located array. */
  lemma ItemsTail(root: Value, a: seq<Value>, steps: seq<Step>, start: nat)
    requires a != [] && Wf(Arr(a)) && NamesOnly(Arr(a))
    requires forall i :: 0 <= i < |a| ==> Resolve(root, steps + [Index(start + i)]) == Some(a[i])
    ensures Wf(a[0]) && NamesOnly(a[0])
    ensures Resolve(root, steps + [Index(start)]) == Some(a[0])
    ensures Wf(Arr(a[1..])) && NamesOnly(Arr(a[1..]))
    ensures forall i :: 0 <= i < |a[1..]| ==> Resolve(root, steps + [Index(start + 1 + i)]) == Some(a[1..][i])
  {
    assert Resolve(root, steps + [Index(start + 0)]) == Some(a[0]);
    var tail := a[1..];
    forall i | 0 <= i < |tail|
      ensures NamesOnly(tail[i]) && Wf(tail[i])
      ensures Resolve(root, steps + [Index(start + 1 + i)]) == Some(tail[i])
    {
      assert tail[i] == a[i + 1];
      assert start + 1 + i == start + (i + 1);
    }
  }
}
