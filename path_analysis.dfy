/** How the patcher reads a JSONPath (src/utils.rs): the path is split at every `.`, and
    each segment becomes a `PathItem` holding the key in front of the first `[`, the
    array indices written as `[digits]` groups, and whether it is the last segment. */
module PathAnalysis {
  import opened Wrappers
  import Text

  /** `usize::MAX` on a 64-bit target: `str::parse::<usize>` rejects anything larger. */
  const UsizeMax: nat := 0xFFFF_FFFF_FFFF_FFFF

  /** `get_key`: the part of a segment in front of its first `[`. */
  function GetKey(segment: string): (key: string)
    ensures key <= segment
    ensures '[' !in key
    ensures key == segment || segment[|key|] == '['
  {
    if '[' !in segment then segment else segment[..Text.IndexOf(segment, '[')]
  }

  /** The indices the regex `\[(\d+)]` finds in `s`, left to right, keeping those that parse
      as a `usize`. A match is a `[`, a non-empty run of digits and a `]`; the search resumes
      after a match, or one character after a `[` that does not start one. */
  function ScanGroups(s: string): (indices: seq<nat>)
    ensures forall i :: 0 <= i < |indices| ==> indices[i] <= UsizeMax
    ensures '[' !in s ==> indices == []
    decreases |s|
  {
    var i := Text.IndexOf(s, '[');
    if i == |s| then []
    else
      var rest := s[i + 1..];
      var n := Text.DigitRun(rest);
      if 1 <= n < |rest| && rest[n] == ']' then
        var v := Text.DigitsValue(rest[..n]);
        var after := ScanGroups(rest[n + 1..]);
        if v <= UsizeMax then [v] + after else after
      else ScanGroups(rest)
  }

  /** The `[i]` groups written for a list of indices. */
  function Brackets(indices: seq<nat>): string {
    if indices == [] then "" else "[" + Text.NatToString(indices[0]) + "]" + Brackets(indices[1..])
  }

  /** Text without `[` in front of a group is skipped by the scan. */
  lemma {:induction false} ScanSkipsKey(key: string, t: string)
    requires '[' !in key
    requires t != [] && t[0] == '['
    ensures ScanGroups(key + t) == ScanGroups(t)
    ensures GetKey(key + t) == key
  {
    var s := key + t;
    assert s[|key|] == '[';
    assert forall j :: 0 <= j < |key| ==> s[j] == key[j];
    assert Text.IndexOf(s, '[') == |key|;
    assert Text.IndexOf(t, '[') == 0;
    assert s[|key| + 1..] == t[1..];
    assert s[..|key|] == key;
  }

  /** One written group `[n]` is read back as `n`. */
  lemma {:induction false} ScanOneGroup(n: nat, tail: string)
    requires n <= UsizeMax
    ensures ScanGroups("[" + Text.NatToString(n) + "]" + tail) == [n] + ScanGroups(tail)
  {
    var d := Text.NatToString(n);
    Text.Enclosed('[', d, ']', tail);
    Text.DigitRunOfDigits(d, "]" + tail);
    Text.DigitsRoundTrip(n);
  }

  /** The written groups are read back as the indices they were written from. */
  lemma {:induction false} ScanGroupsOfBrackets(indices: seq<nat>)
    requires forall i :: 0 <= i < |indices| ==> indices[i] <= UsizeMax
    ensures ScanGroups(Brackets(indices)) == indices
  {
    if indices != [] {
      ScanOneGroup(indices[0], Brackets(indices[1..]));
      ScanGroupsOfBrackets(indices[1..]);
      Text.ConsSplit(indices);
    }
  }

  /** A segment written as a key and index groups is read back as that key and those
      indices. */
  lemma ScanBrackets(key: string, indices: seq<nat>)
    requires '[' !in key
    requires forall i :: 0 <= i < |indices| ==> indices[i] <= UsizeMax
    ensures ScanGroups(key + Brackets(indices)) == indices
    ensures GetKey(key + Brackets(indices)) == key
  {
    ScanGroupsOfBrackets(indices);
    if indices == [] {
      assert key + Brackets(indices) == key;
    } else {
      ScanSkipsKey(key, Brackets(indices));
    }
  }

  /** A segment written as a key followed by its index groups, `key[i][j]...`. */
  function Segment(key: string, indices: seq<nat>): string {
    key + Brackets(indices)
  }

  lemma {:induction false} BracketsHaveNoDot(indices: seq<nat>)
    ensures '.' !in Brackets(indices)
  {
    if indices != [] {
      var d := Text.NatToString(indices[0]);
      assert forall c :: c in d ==> Text.IsDigit(c);
      BracketsHaveNoDot(indices[1..]);
    }
  }

  /** `is_multi_dimensional_array`: whether the segment has index groups, their count less
      one, and the indices. A segment holding `[` but no group makes `indices_len - 1`
      underflow, which panics. */
  function MultiDimensional(segment: string): (r: Result<(bool, nat, seq<nat>)>)
    ensures '[' !in segment ==> r == Ok((false, 0, []))
    ensures r.Panic? <==> '[' in segment && ScanGroups(segment) == []
    ensures r.Ok? ==> r.value.0 == (r.value.2 != []) && r.value.2 == ScanGroups(segment)
    ensures r.Ok? && r.value.0 ==> r.value.1 == |r.value.2| - 1
  {
    if '[' !in segment then Ok((false, 0, []))
    else
      var indices := ScanGroups(segment);
      if |indices| == 0 then Panic else Ok((true, |indices| - 1, indices))
  }

  datatype PathItem = PathItem(key: string, isArray: bool, indices: seq<nat>, isLast: bool)

  /** `PathItem::new`: the key is taken from the segment with `get_key`. */
  function NewPathItem(segment: string, isArray: bool, indices: seq<nat>, isLast: bool): (item: PathItem)
    ensures item.key == GetKey(segment) && item.isArray == isArray
    ensures item.indices == indices && item.isLast == isLast
  {
    PathItem(GetKey(segment), isArray, indices, isLast)
  }

  /** A segment `analyse_path` cannot handle: it holds `[` but no index group. */
  predicate Unreadable(segment: string) {
    '[' in segment && ScanGroups(segment) == []
  }

  /** The item built for a segment; `analyse_path` only builds it for a readable one. */
  function ItemFor(segment: string, isLast: bool): (item: PathItem) {
    var indices := ScanGroups(segment);
    PathItem(GetKey(segment), indices != [], indices, isLast)
  }

  /** The items built for the first `k` segments. */
  function ItemsFor(segments: seq<string>, k: nat): (items: seq<PathItem>)
    requires k <= |segments|
  {
    if k == 0 then []
    else ItemsFor(segments, k - 1) + [ItemFor(segments[k - 1], k - 1 == |segments| - 1)]
  }

  /** What the loop of `analyse_path` returns for the segments of a path: a panic when
      some segment cannot be read. */
  function SegmentItems(segments: seq<string>): Result<seq<PathItem>> {
    if exists i :: 0 <= i < |segments| && Unreadable(segments[i]) then Panic
    else Ok(ItemsFor(segments, |segments|))
  }

  /** What `analyse_path` returns for a path. */
  function PathItems(path: string): Result<seq<PathItem>> {
    SegmentItems(Text.Split(path, '.'))
  }

  lemma {:induction false} ItemsForLength(segments: seq<string>, k: nat)
    requires k <= |segments|
    ensures |ItemsFor(segments, k)| == k
  {
    if k > 0 {
      ItemsForLength(segments, k - 1);
    }
  }

  lemma {:induction false} ItemsForAt(segments: seq<string>, k: nat, i: nat)
    requires i < k <= |segments|
    ensures |ItemsFor(segments, k)| == k
    ensures ItemsFor(segments, k)[i] == ItemFor(segments[i], i == |segments| - 1)
  {
    ItemsForLength(segments, k - 1);
    ItemsForLength(segments, k);
    if i < k - 1 {
      ItemsForAt(segments, k - 1, i);
    }
  }

  lemma ItemsForShape(segments: seq<string>, k: nat)
    requires k <= |segments|
    ensures |ItemsFor(segments, k)| == k
    ensures forall i :: 0 <= i < k ==> ItemsFor(segments, k)[i] == ItemFor(segments[i], i == |segments| - 1)
  {
    ItemsForLength(segments, k);
    forall i | 0 <= i < k
      ensures ItemsFor(segments, k)[i] == ItemFor(segments[i], i == |segments| - 1)
    {
      ItemsForAt(segments, k, i);
    }
  }

  /** `analyse_path` yields one item per `.`-separated segment, in order: the key before the
      first `[`, the index groups, `is_array` exactly when there are indices, and `is_last`
      only on the final segment. It panics exactly when a segment holds a `[` but no group. */
  lemma PathItemsShape(path: string)
    ensures PathItems(path).Panic? <==>
      exists i :: 0 <= i < |Text.Split(path, '.')| && Unreadable(Text.Split(path, '.')[i])
    ensures var segments := Text.Split(path, '.');
      (PathItems(path).Ok? ==>
        var items := PathItems(path).value;
        |items| == |segments| &&
        forall i :: 0 <= i < |items| ==>
          items[i].key == GetKey(segments[i]) &&
          items[i].indices == ScanGroups(segments[i]) &&
          (items[i].isArray <==> items[i].indices != []) &&
          (items[i].isLast <==> i == |items| - 1))
  {
    var segments := Text.Split(path, '.');
    if exists i :: 0 <= i < |segments| && Unreadable(segments[i]) {
      var i :| 0 <= i < |segments| && Unreadable(segments[i]);
      assert PathItems(path) == Panic;
      assert 0 <= i < |segments| && Unreadable(segments[i]);
      assert PathItems(path).Panic?;
      assert exists j :: 0 <= j < |Text.Split(path, '.')| && Unreadable(Text.Split(path, '.')[j]);
    } else {
      assert PathItems(path) == Ok(ItemsFor(segments, |segments|));
      ItemsForShape(segments, |segments|);
    }
  }

  /** A written segment reads back as an item with its key and indices. */
  lemma SegmentItem(key: string, indices: seq<nat>, isLast: bool)
    requires '[' !in key
    requires forall i :: 0 <= i < |indices| ==> indices[i] <= UsizeMax
    ensures '.' !in key ==> '.' !in Segment(key, indices)
    ensures !Unreadable(Segment(key, indices))
    ensures ItemFor(Segment(key, indices), isLast) == PathItem(key, indices != [], indices, isLast)
  {
    ScanBrackets(key, indices);
    BracketsHaveNoDot(indices);
    if indices == [] {
      assert Segment(key, indices) == key;
    }
  }

  /** A path joined from readable segments without `.` reads as one item per segment. */
  lemma PathOfSegments(segments: seq<string>)
    requires |segments| >= 1
    requires forall i :: 0 <= i < |segments| ==> '.' !in segments[i] && !Unreadable(segments[i])
    ensures PathItems(Text.JoinWith(segments, '.')) == Ok(ItemsFor(segments, |segments|))
  {
    Text.SplitJoin(segments, '.');
  }

  /** A path of a single readable segment reads as one last item. */
  lemma SingleSegment(segment: string)
    requires '.' !in segment && !Unreadable(segment)
    ensures PathItems(segment) == Ok([ItemFor(segment, true)])
  {
    PathOfSegments([segment]);
    assert Text.JoinWith([segment], '.') == segment;
    assert ItemsFor([segment], 0) == [];
    assert ItemsFor([segment], 1) == [ItemFor(segment, true)];
  }

  /** `analyse_path`: the path is split at every `.` and the segments are read in turn. */
  method AnalysePath(path: string) returns (r: Result<seq<PathItem>>)
    ensures r == PathItems(path)
  {
    var segments := Text.Split(path, '.');
    r := AnalyseSegments(segments);
  }

  /** The loop of `analyse_path`, which pushes one item per segment. */
  method AnalyseSegments(segments: seq<string>) returns (r: Result<seq<PathItem>>)
    ensures r == SegmentItems(segments)
  {
    var total := |segments|;
    var items: seq<PathItem> := [];
    for index := 0 to |segments|
      invariant Built(segments, index, items)
    {
      var m := MultiDimensional(segments[index]);
      if m.Panic? {
        UnreadablePanics(segments, index);
        return Panic;
      }
      var item := NewPathItem(segments[index], m.value.0, m.value.2, index == total - 1);
      ItemsStep(segments, index, items, item);
      items := items + [item];
    }
    AllReadable(segments, items);
    return Ok(items);
  }

  /** After `k` segments the loop holds the items for them, all of which could be read. */
  ghost predicate Built(segments: seq<string>, k: nat, items: seq<PathItem>) {
    k <= |segments| && (forall i :: 0 <= i < k ==> !Unreadable(segments[i])) && items == ItemsFor(segments, k)
  }

  lemma AllReadable(segments: seq<string>, items: seq<PathItem>)
    requires Built(segments, |segments|, items)
    ensures SegmentItems(segments) == Ok(items)
  {
  }

  lemma UnreadablePanics(segments: seq<string>, index: nat)
    requires index < |segments| && MultiDimensional(segments[index]).Panic?
    ensures SegmentItems(segments) == Panic
  {
  }

  /** One more segment read by `is_multi_dimensional_array` and `PathItem::new`. */
  lemma ItemsStep(segments: seq<string>, index: nat, items: seq<PathItem>, item: PathItem)
    requires index < |segments| && Built(segments, index, items)
    requires MultiDimensional(segments[index]).Ok?
    requires var m := MultiDimensional(segments[index]).value;
      item == NewPathItem(segments[index], m.0, m.2, index == |segments| - 1)
    ensures Built(segments, index + 1, items + [item])
  {
    assert !Unreadable(segments[index]);
    assert item == ItemFor(segments[index], index == |segments| - 1);
    assert ItemsFor(segments, index + 1) == items + [item];
  }
}
