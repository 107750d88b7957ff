/** JSON documents as `serde_json::Value` holds them. serde_json's default `Map` is a
    `BTreeMap<String, Value>`: an object is modelled as its list of members kept strictly
    sorted by key, so two objects are equal exactly when their member lists are equal.
    Numbers are modelled as integers. */
module Json {
  import opened Wrappers
  import Text

  datatype Value =
    | Null
    | Bool(b: bool)
    | Num(n: int)
    | Str(s: string)
    | Arr(items: seq<Value>)
    | Obj(members: seq<Member>)

  datatype Member = Member(key: string, value: Value)

  /** A value that is neither an array nor an object. */
  predicate IsLeaf(v: Value) {
    !v.Arr? && !v.Obj?
  }

  predicate IsContainer(v: Value) {
    v.Arr? || v.Obj?
  }

  /** `Map::get`: the value stored under `k`. */
  function Get(ms: seq<Member>, k: string): Option<Value> {
    if ms == [] then None
    else if ms[0].key == k then Some(ms[0].value)
    else Get(ms[1..], k)
  }

  /** A key is found exactly when some member has it, and what is found is a member. */
  lemma {:induction false} GetSpec(ms: seq<Member>, k: string)
    ensures Get(ms, k).Some? ==> Member(k, Get(ms, k).value) in ms
    ensures Get(ms, k).None? <==> forall m :: m in ms ==> m.key != k
  {
    if ms != [] && ms[0].key != k {
      GetSpec(ms[1..], k);
      assert ms == [ms[0]] + ms[1..];
    }
  }

  /** `Map::contains_key`. */
  predicate Has(ms: seq<Member>, k: string) {
    Get(ms, k).Some?
  }

  /** Keys strictly increasing: the shape of a `BTreeMap`'s entries. */
  predicate Sorted(ms: seq<Member>) {
    forall i, j :: 0 <= i < j < |ms| ==> Text.Less(ms[i].key, ms[j].key)
  }

  /** Every object inside `v` (and `v` itself) is a well-formed map. */
  predicate Wf(v: Value) {
    match v
    case Arr(a) => forall i :: 0 <= i < |a| ==> Wf(a[i])
    case Obj(ms) => Sorted(ms) && forall i :: 0 <= i < |ms| ==> Wf(ms[i].value)
    case _ => true
  }

  lemma SortedCons(m: Member, xs: seq<Member>)
    ensures Sorted(xs) && (forall x :: x in xs ==> Text.Less(m.key, x.key)) ==> Sorted([m] + xs)
  {
    if Sorted(xs) && (forall x :: x in xs ==> Text.Less(m.key, x.key)) {
      var ys := [m] + xs;
      forall i, j | 0 <= i < j < |ys|
        ensures Text.Less(ys[i].key, ys[j].key)
      {
        if i == 0 {
          assert ys[j] == xs[j - 1];
        } else {
          assert ys[i] == xs[i - 1] && ys[j] == xs[j - 1];
        }
      }
    }
  }

  lemma SortedTail(m: Member, xs: seq<Member>)
    requires Sorted([m] + xs)
    ensures Sorted(xs)
    ensures forall x :: x in xs ==> Text.Less(m.key, x.key)
  {
    var ys := [m] + xs;
    forall i, j | 0 <= i < j < |xs|
      ensures Text.Less(xs[i].key, xs[j].key)
    {
      assert xs[i] == ys[i + 1] && xs[j] == ys[j + 1];
    }
    forall x | x in xs
      ensures Text.Less(m.key, x.key)
    {
      var j :| 0 <= j < |xs| && xs[j] == x;
      assert ys[0] == m && ys[j + 1] == x;
      assert Text.Less(ys[0].key, ys[j + 1].key);
    }
  }

  /** `Map::insert` (also `value[k] = v`): stores `v` under `k`, replacing what was there,
      or puts a new member where the key order places it. */
  function Set(ms: seq<Member>, k: string, v: Value): seq<Member> {
    if ms == [] then [Member(k, v)]
    else if ms[0].key == k then [Member(k, v)] + ms[1..]
    else if Text.Less(k, ms[0].key) then [Member(k, v)] + ms
    else [ms[0]] + Set(ms[1..], k, v)
  }

  /** After `Set`, the key holds the new value and every other key holds what it held. */
  lemma {:induction false} SetGet(ms: seq<Member>, k: string, v: Value)
    ensures Get(Set(ms, k, v), k) == Some(v)
    ensures forall j :: j != k ==> Get(Set(ms, k, v), j) == Get(ms, j)
  {
    if ms != [] && ms[0].key != k && !Text.Less(k, ms[0].key) {
      SetGet(ms[1..], k, v);
    }
  }

  /** `Set` keeps the old members, except the one it replaces, and adds only the new one. */
  lemma {:induction false} SetMembers(ms: seq<Member>, k: string, v: Value)
    ensures forall m :: m in Set(ms, k, v) ==> m in ms || m == Member(k, v)
  {
    if ms != [] && ms[0].key != k && !Text.Less(k, ms[0].key) {
      SetMembers(ms[1..], k, v);
    }
  }

  /** `Set` keeps a sorted list sorted. */
  lemma {:induction false} SetSorted(ms: seq<Member>, k: string, v: Value)
    requires Sorted(ms)
    ensures Sorted(Set(ms, k, v))
  {
    if ms == [] {
    } else {
      assert ms == [ms[0]] + ms[1..];
      SortedTail(ms[0], ms[1..]);
      if ms[0].key == k {
        SortedCons(Member(k, v), ms[1..]);
      } else if Text.Less(k, ms[0].key) {
        forall x | x in ms
          ensures Text.Less(k, x.key)
        {
          if x != ms[0] {
            Text.LessTransitive(k, ms[0].key, x.key);
          }
        }
        SortedCons(Member(k, v), ms);
      } else {
        var rest := Set(ms[1..], k, v);
        SetSorted(ms[1..], k, v);
        SetMembers(ms[1..], k, v);
        Text.LessTotal(k, ms[0].key);
        SortedCons(ms[0], rest);
      }
    }
  }

  /** A second `Set` of the same key overrides the first. */
  lemma {:induction false} SetSet(ms: seq<Member>, k: string, v: Value, w: Value)
    ensures Set(Set(ms, k, v), k, w) == Set(ms, k, w)
  {
    if ms != [] && ms[0].key != k && !Text.Less(k, ms[0].key) {
      SetSet(ms[1..], k, v, w);
    }
  }

  /** Storing a well-formed value in a well-formed object gives a well-formed object. */
  lemma WfSet(ms: seq<Member>, k: string, v: Value)
    requires Wf(Obj(ms)) && Wf(v)
    ensures Wf(Obj(Set(ms, k, v)))
  {
    SetSorted(ms, k, v);
    SetMembers(ms, k, v);
    var r := Set(ms, k, v);
    forall i | 0 <= i < |r|
      ensures Wf(r[i].value)
    {
      assert r[i] in r;
    }
  }

  /** Storing the value a sorted list already holds under a key changes nothing. */
  lemma {:induction false} SetExisting(ms: seq<Member>, k: string)
    requires Sorted(ms) && Get(ms, k).Some?
    ensures Set(ms, k, Get(ms, k).value) == ms
  {
    if ms[0].key != k {
      assert ms == [ms[0]] + ms[1..];
      SortedTail(ms[0], ms[1..]);
      GetSpec(ms[1..], k);
      var m := Member(k, Get(ms[1..], k).value);
      assert Text.Less(ms[0].key, k);
      Text.LessAsymmetric(ms[0].key, k);
      SetExisting(ms[1..], k);
    }
  }

  /** `Map::remove`: drops the member stored under `k`, if any. */
  function Remove(ms: seq<Member>, k: string): seq<Member> {
    if ms == [] then []
    else if ms[0].key == k then Remove(ms[1..], k)
    else [ms[0]] + Remove(ms[1..], k)
  }

  /** After `Remove`, the key is absent, every other key holds what it held, and a sorted
      list stays sorted. */
  lemma RemoveSpec(ms: seq<Member>, k: string)
    ensures Get(Remove(ms, k), k) == None
    ensures forall j :: j != k ==> Get(Remove(ms, k), j) == Get(ms, j)
    ensures forall m :: m in Remove(ms, k) ==> m in ms && m.key != k
    ensures Sorted(ms) ==> Sorted(Remove(ms, k))
    ensures |Remove(ms, k)| <= |ms|
  {
    RemoveGet(ms, k);
    RemoveMembers(ms, k);
    if Sorted(ms) {
      RemoveSorted(ms, k);
    }
  }

  lemma {:induction false} RemoveGet(ms: seq<Member>, k: string)
    ensures Get(Remove(ms, k), k) == None
    ensures forall j :: j != k ==> Get(Remove(ms, k), j) == Get(ms, j)
  {
    if ms != [] {
      RemoveGet(ms[1..], k);
    }
  }

  lemma {:induction false} RemoveMembers(ms: seq<Member>, k: string)
    ensures forall m :: m in Remove(ms, k) ==> m in ms && m.key != k
    ensures |Remove(ms, k)| <= |ms|
  {
    if ms != [] {
      RemoveMembers(ms[1..], k);
    }
  }

  lemma {:induction false} RemoveSorted(ms: seq<Member>, k: string)
    requires Sorted(ms)
    ensures Sorted(Remove(ms, k))
  {
    if ms != [] {
      assert ms == [ms[0]] + ms[1..];
      SortedTail(ms[0], ms[1..]);
      RemoveSorted(ms[1..], k);
      RemoveMembers(ms[1..], k);
      SortedCons(ms[0], Remove(ms[1..], k));
    }
  }

  /** Removing a key from a well-formed object gives a well-formed object. */
  lemma WfRemove(ms: seq<Member>, k: string)
    requires Wf(Obj(ms))
    ensures Wf(Obj(Remove(ms, k)))
  {
    RemoveSpec(ms, k);
    var r := Remove(ms, k);
    forall i | 0 <= i < |r|
      ensures Wf(r[i].value)
    {
      assert r[i] in r;
    }
  }

  /** In a sorted member list, looking up a member's key finds that member. */
  lemma {:induction false} GetSorted(ms: seq<Member>, i: nat)
    requires Sorted(ms) && i < |ms|
    ensures Get(ms, ms[i].key) == Some(ms[i].value)
  {
    if i > 0 {
      assert Text.Less(ms[0].key, ms[i].key);
      Text.LessIrreflexive(ms[0].key);
      assert ms == [ms[0]] + ms[1..];
      SortedTail(ms[0], ms[1..]);
      GetSorted(ms[1..], i - 1);
    }
  }

  /** A prefix of a sorted member list is sorted. */
  lemma SortedPrefix(ms: seq<Member>, n: nat)
    requires Sorted(ms) && n <= |ms|
    ensures Sorted(ms[..n])
  {
  }

  /** Every key of `xs` sorts before `k`. */
  predicate KeysBelow(xs: seq<Member>, k: string) {
    forall x :: x in xs ==> Text.Less(x.key, k)
  }

  /** Every key of `ys` sorts after `k`. */
  predicate KeysAbove(k: string, ys: seq<Member>) {
    forall y :: y in ys ==> Text.Less(k, y.key)
  }

  lemma SortedSnoc(xs: seq<Member>, m: Member)
    requires Sorted(xs) && KeysBelow(xs, m.key)
    ensures Sorted(xs + [m])
  {
    var ys := xs + [m];
    forall i, j | 0 <= i < j < |ys|
      ensures Text.Less(ys[i].key, ys[j].key)
    {
      assert ys[i] == xs[i];
      if j < |xs| {
        assert ys[j] == xs[j];
      }
    }
  }

  /** In a sorted list, the members before position `i` have smaller keys and the ones
      after it larger keys. */
  lemma SortedSplit(ms: seq<Member>, i: nat)
    requires Sorted(ms) && i < |ms|
    ensures KeysBelow(ms[..i], ms[i].key) && KeysAbove(ms[i].key, ms[i + 1..])
  {
    forall x | x in ms[..i]
      ensures Text.Less(x.key, ms[i].key)
    {
      var j :| 0 <= j < i && ms[..i][j] == x;
      assert ms[j] == x;
    }
    forall y | y in ms[i + 1..]
      ensures Text.Less(ms[i].key, y.key)
    {
      var j :| 0 <= j < |ms| - i - 1 && ms[i + 1..][j] == y;
      assert ms[i + 1 + j] == y;
    }
  }

  /** Looking up the key of a member whose key is not used before it finds that member. */
  lemma {:induction false} GetAfter(xs: seq<Member>, m: Member, ys: seq<Member>)
    requires forall x :: x in xs ==> x.key != m.key
    ensures Get(xs + [m] + ys, m.key) == Some(m.value)
  {
    if xs != [] {
      assert (xs + [m] + ys)[1..] == xs[1..] + [m] + ys;
      GetAfter(xs[1..], m, ys);
    }
  }

  /** Removing the key of a member whose key is used nowhere else leaves the others. */
  lemma {:induction false} RemoveBetween(xs: seq<Member>, m: Member, ys: seq<Member>)
    requires forall x :: x in xs ==> x.key != m.key
    requires forall y :: y in ys ==> y.key != m.key
    ensures Remove(xs + [m] + ys, m.key) == xs + ys
  {
    if xs == [] {
      assert xs + [m] + ys == [m] + ys;
      RemoveAbsent(ys, m.key);
    } else {
      assert (xs + [m] + ys)[1..] == xs[1..] + [m] + ys;
      RemoveBetween(xs[1..], m, ys);
      assert xs + ys == [xs[0]] + (xs[1..] + ys);
    }
  }

  lemma {:induction false} RemoveAbsent(ys: seq<Member>, k: string)
    requires forall y :: y in ys ==> y.key != k
    ensures Remove(ys, k) == ys
  {
    if ys != [] {
      RemoveAbsent(ys[1..], k);
      assert ys == [ys[0]] + ys[1..];
    }
  }

  /** Storing a key that sorts between two runs of members puts it between them. */
  lemma {:induction false} SetBetween(xs: seq<Member>, k: string, v: Value, ys: seq<Member>)
    requires KeysBelow(xs, k) && KeysAbove(k, ys)
    ensures Set(xs + ys, k, v) == xs + [Member(k, v)] + ys
  {
    if xs == [] {
      assert xs + ys == ys;
      if ys != [] {
        assert ys[0] in ys;
        Text.LessIrreflexive(k);
      }
    } else {
      assert xs[0] in xs;
      Text.LessIrreflexive(k);
      Text.LessAsymmetric(xs[0].key, k);
      assert (xs + ys)[1..] == xs[1..] + ys;
      SetBetween(xs[1..], k, v, ys);
      assert xs + [Member(k, v)] + ys == [xs[0]] + (xs[1..] + [Member(k, v)] + ys);
    }
  }

  // ---------------------------------------------------------------- rendering

  /** Compact JSON text, as `Value::to_string` writes it: no whitespace, object members in
      key order, strings escaped as serde_json escapes them. */
  function ToText(v: Value): string
    decreases v
  {
    match v
    case Null => "null"
    case Bool(b) => if b then "true" else "false"
    case Num(n) => Text.IntToString(n)
    case Str(s) => Quote(s)
    case Arr(a) => "[" + ItemsText(a) + "]"
    case Obj(ms) => "{" + MembersText(ms) + "}"
  }

  function ItemsText(a: seq<Value>): string
    decreases a
  {
    if a == [] then ""
    else if |a| == 1 then ToText(a[0])
    else ToText(a[0]) + "," + ItemsText(a[1..])
  }

  function MembersText(ms: seq<Member>): string
    decreases ms
  {
    if ms == [] then ""
    else
      var here := Quote(ms[0].key) + ":" + ToText(ms[0].value);
      if |ms| == 1 then here else here + "," + MembersText(ms[1..])
  }

  function Quote(s: string): string {
    "\"" + Escape(s) + "\""
  }

  function Escape(s: string): string {
    if s == [] then "" else EscapeChar(s[0]) + Escape(s[1..])
  }

  function HexDigit(d: nat): char
    requires d < 16
  {
    if d < 10 then ('0' as int + d) as char else ('a' as int + d - 10) as char
  }

  /** serde_json's escapes: the short forms for `"`, `\` and five control characters,
      `\u00xx` with lower-case hex for the other control characters. */
  function EscapeChar(c: char): string {
    if c == '"' then "\\\""
    else if c == '\\' then "\\\\"
    else if c == '\n' then "\\n"
    else if c == '\r' then "\\r"
    else if c == '\t' then "\\t"
    else if c == '\U{8}' then "\\b"
    else if c == '\U{C}' then "\\f"
    else if (c as int) < 0x20 then "\\u00" + [HexDigit(c as int / 16), HexDigit(c as int % 16)]
    else [c]
  }
}
