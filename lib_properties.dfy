/** What the recursive walk of src/lib.rs keeps: its collections only grow, `paths`
    lists each newly seen path once and nothing else, at most one delta is appended per
    newly seen path, and every leaf is classified as the stack walk of src/differ.rs
    classifies it. */
module LibProperties {
  import opened Wrappers
  import opened Json
  import opened LeafPaths
  import opened LibDiff
  import Deltas
  import Differs
  import DifferProperties

  // ------------------------------------------------------------- growth

  /** From `acc` to `done`: `paths` and `deltas` are extended, never rewritten; the
      paths appended are exactly those added to `seen`, each once and none seen before;
      no more deltas are appended than paths. */
  ghost predicate Grows(acc: Acc, done: Acc) {
    acc.paths <= done.paths && acc.deltas <= done.deltas &&
    |done.deltas| - |acc.deltas| <= |done.paths| - |acc.paths| &&
    (forall p :: p in done.seen <==> p in acc.seen || p in done.paths[|acc.paths|..]) &&
    (forall i :: |acc.paths| <= i < |done.paths| ==> done.paths[i] !in acc.seen) &&
    (forall i, j :: |acc.paths| <= i < j < |done.paths| ==> done.paths[i] != done.paths[j])
  }

  lemma VisitGrows(acc: Acc, e: Entry, other: Value, reverse: bool)
    requires LeafVisit(acc, e, other, reverse).Ok?
    ensures var next := LeafVisit(acc, e, other, reverse).value;
      Grows(acc, next) && |next.paths| <= |acc.paths| + 1
  {
    var next := LeafVisit(acc, e, other, reverse).value;
    if RenderPath(e.path) in acc.seen {
      assert next.paths[|acc.paths|..] == [];
    } else {
      assert next.paths[|acc.paths|..] == [RenderPath(e.path)];
    }
  }

  lemma GrowsTrans(a: Acc, b: Acc, c: Acc)
    requires Grows(a, b) && Grows(b, c)
    ensures Grows(a, c)
  {
    assert c.paths[|a.paths|..] == b.paths[|a.paths|..] + c.paths[|b.paths|..] by {
      assert b.paths == a.paths + b.paths[|a.paths|..];
      assert c.paths == b.paths + c.paths[|b.paths|..];
    }
    forall i, j | |a.paths| <= i < j < |c.paths|
      ensures c.paths[i] != c.paths[j]
    {
      if i < |b.paths| && |b.paths| <= j {
        assert c.paths[i] == b.paths[i];
        assert b.paths[i] in b.paths[|a.paths|..];
      } else if j < |b.paths| {
        assert c.paths[i] == b.paths[i] && c.paths[j] == b.paths[j];
      }
    }
    forall i | |a.paths| <= i < |c.paths|
      ensures c.paths[i] !in a.seen
    {
      if i < |b.paths| {
        assert c.paths[i] == b.paths[i];
      } else {
        assert c.paths[i] !in b.seen;
      }
    }
  }

  /** A pass only extends the collections, lists every newly seen path once, appends at
      most one delta per newly seen path, and sees at most one new path per leaf. */
  lemma {:induction false} LibPassGrows(leaves: seq<Entry>, other: Value, reverse: bool, acc: Acc)
    requires LibPass(leaves, other, reverse, acc).Ok?
    ensures var done := LibPass(leaves, other, reverse, acc).value;
      Grows(acc, done) && |done.paths| <= |acc.paths| + |leaves|
    decreases |leaves|
  {
    if leaves == [] {
      assert acc.paths[|acc.paths|..] == [];
    } else {
      VisitGrows(acc, leaves[0], other, reverse);
      var next := LeafVisit(acc, leaves[0], other, reverse).value;
      LibPassGrows(leaves[1..], other, reverse, next);
      GrowsTrans(acc, next, LibPass(leaves, other, reverse, acc).value);
    }
  }

  /** Leaves whose paths are all seen already change nothing. */
  lemma {:induction false} LibPassSeen(leaves: seq<Entry>, other: Value, reverse: bool, acc: Acc)
    requires forall e :: e in leaves ==> RenderPath(e.path) in acc.seen
    ensures LibPass(leaves, other, reverse, acc) == Ok(acc)
    decreases |leaves|
  {
    if leaves != [] {
      assert leaves[0] in leaves;
      assert forall e :: e in leaves[1..] ==> e in leaves;
      LibPassSeen(leaves[1..], other, reverse, acc);
    }
  }

  // ------------------------------------------------------------- against differ.rs

  function Op(o: Deltas.Operation): Operation {
    match o
    case Add => Add
    case Change => Change
    case Delete => Delete
  }

  function OpBack(o: Operation): Deltas.Operation {
    match o
    case Add => Deltas.Add
    case Change => Deltas.Change
    case Delete => Deltas.Delete
  }

  /** A delta of src/differ.rs without its hash. */
  function Strip(d: Deltas.Delta): Delta {
    Delta(Op(d.operation), d.path, d.oldValue, d.newValue)
  }

  function Stripped(ds: seq<Deltas.Delta>): (r: seq<Delta>)
    ensures |r| == |ds|
    ensures forall i :: 0 <= i < |ds| ==> r[i] == Strip(ds[i])
  {
    seq(|ds|, i requires 0 <= i < |ds| => Strip(ds[i]))
  }

  /** A delta of src/differ.rs with the same fields and its own hash. */
  function Hashed(ds: seq<Delta>): (r: seq<Deltas.Delta>)
    ensures |r| == |ds|
    ensures forall i :: 0 <= i < |ds| ==> r[i] == Deltas.NewDelta(OpBack(ds[i].operation), ds[i].path, ds[i].oldValue, ds[i].newValue)
  {
    seq(|ds|, i requires 0 <= i < |ds| => Deltas.NewDelta(OpBack(ds[i].operation), ds[i].path, ds[i].oldValue, ds[i].newValue))
  }

  lemma StripHashed(ds: seq<Delta>)
    ensures Stripped(Hashed(ds)) == ds
  {
    assert forall i :: 0 <= i < |ds| ==> Op(OpBack(ds[i].operation)) == ds[i].operation;
  }

  lemma StrippedAppend(a: seq<Deltas.Delta>, b: seq<Deltas.Delta>)
    ensures Stripped(a + b) == Stripped(a) + Stripped(b)
  {
  }

  /** src/lib.rs classifies a leaf as src/differ.rs does. */
  lemma ClassifyStripped(leaf: Value, path: string, found: Option<Value>, reverse: bool)
    ensures Classify(leaf, path, found, reverse) == Stripped(Differs.Emitted(leaf, path, found, reverse))
  {
    var e := Differs.Emitted(leaf, path, found, reverse);
    if e != [] {
      assert Stripped(e)[0] == Strip(e[0]);
    }
  }

  lemma VisitAgrees(acc: Acc, st: Differs.State, e: Entry, other: Value, reverse: bool)
    requires acc.deltas == Stripped(st.deltas) && acc.seen == st.seen
    ensures LeafVisit(acc, e, other, reverse).Ok? == Differs.Visit(st, e, other, reverse).Ok?
    ensures LeafVisit(acc, e, other, reverse).Ok? ==>
      LeafVisit(acc, e, other, reverse).value.deltas == Stripped(Differs.Visit(st, e, other, reverse).value.deltas) &&
      LeafVisit(acc, e, other, reverse).value.seen == Differs.Visit(st, e, other, reverse).value.seen
  {
    var path := RenderPath(e.path);
    if path !in acc.seen && Query(other, path).Ok? {
      var found := Query(other, path).value;
      ClassifyStripped(e.value, path, found, reverse);
      StrippedAppend(st.deltas, Differs.Emitted(e.value, path, found, reverse));
    }
  }

  /** Over the same leaves, from matching collections, the recursive walk fails exactly
      when the stack walk does, sees the same paths and appends the same deltas without
      their hashes. */
  lemma {:induction false} LibAgrees(leaves: seq<Entry>, other: Value, reverse: bool, acc: Acc, st: Differs.State)
    requires acc.deltas == Stripped(st.deltas) && acc.seen == st.seen
    ensures LibPass(leaves, other, reverse, acc).Ok? == Differs.Pass(leaves, other, reverse, st).Ok?
    ensures LibPass(leaves, other, reverse, acc).Ok? ==>
      LibPass(leaves, other, reverse, acc).value.deltas == Stripped(Differs.Pass(leaves, other, reverse, st).value.deltas) &&
      LibPass(leaves, other, reverse, acc).value.seen == Differs.Pass(leaves, other, reverse, st).value.seen
    decreases |leaves|
  {
    if leaves != [] {
      VisitAgrees(acc, st, leaves[0], other, reverse);
      if LeafVisit(acc, leaves[0], other, reverse).Ok? {
        LibAgrees(leaves[1..], other, reverse, LeafVisit(acc, leaves[0], other, reverse).value, Differs.Visit(st, leaves[0], other, reverse).value);
      }
    }
  }

  // ------------------------------------------------------------- what a delta says

  /** A delta of a walk over `mine` looked up in `other`: a Change from the visited leaf
      to the other document's different value, a Delete (first pass) or an Add (reverse
      pass) of a leaf the other document lacks. */
  predicate Reads(d: Delta, mine: Value, other: Value, reverse: bool) {
    match d.operation
    case Change =>
      Query(mine, d.path) == Ok(Some(d.oldValue)) && Query(other, d.path) == Ok(Some(d.newValue)) && d.oldValue != d.newValue
    case Delete =>
      !reverse && Query(mine, d.path) == Ok(Some(d.oldValue)) && Query(other, d.path) == Ok(None) && d.newValue == Null
    case Add =>
      reverse && Query(mine, d.path) == Ok(Some(d.newValue)) && Query(other, d.path) == Ok(None) && d.oldValue == Null
  }

  /** On a ready document the walk does not panic, and every delta it appends reads the
      walked document against the other. */
  lemma LibOriented(a: Value, b: Value, reverse: bool, acc: Acc)
    requires DifferProperties.Ready(a)
    ensures LibPass(Leaves(a, [], false), b, reverse, acc).Ok?
    ensures var done := LibPass(Leaves(a, [], false), b, reverse, acc).value;
      forall i :: |acc.deltas| <= i < |done.deltas| ==> Reads(done.deltas[i], a, b, reverse)
  {
    var leaves := Leaves(a, [], false);
    var st := Differs.State(Hashed(acc.deltas), acc.seen);
    StripHashed(acc.deltas);
    DifferProperties.RootLocated(a, false);
    DifferProperties.ParsesAnywhere(leaves, a, b);
    DifferProperties.PassSucceeds(leaves, b, reverse, st);
    DifferProperties.PassOriented(leaves, a, b, reverse, st);
    LibAgrees(leaves, b, reverse, acc, st);
    var done := Differs.Pass(leaves, b, reverse, st).value;
    forall i | |acc.deltas| <= i < |LibPass(leaves, b, reverse, acc).value.deltas|
      ensures Reads(LibPass(leaves, b, reverse, acc).value.deltas[i], a, b, reverse)
    {
      StripReads(done.deltas[i], a, b, reverse);
    }
  }

  lemma StripReads(d: Deltas.Delta, mine: Value, other: Value, reverse: bool)
    requires DifferProperties.Oriented(d, mine, other, reverse)
    ensures Reads(Strip(d), mine, other, reverse)
  {
  }

  /** A walk of a ready document against itself appends no delta. */
  lemma LibSelfQuiet(v: Value, reverse: bool, acc: Acc)
    requires DifferProperties.Ready(v)
    ensures LibPass(Leaves(v, [], false), v, reverse, acc).Ok?
    ensures LibPass(Leaves(v, [], false), v, reverse, acc).value.deltas == acc.deltas
  {
    var st := Differs.State(Hashed(acc.deltas), acc.seen);
    StripHashed(acc.deltas);
    DifferProperties.RootLocated(v, false);
    DifferProperties.PassQuiet(Leaves(v, [], false), v, reverse, st);
    LibAgrees(Leaves(v, [], false), v, reverse, acc, st);
  }
}
