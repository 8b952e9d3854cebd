/** The chunked byte comparison of two installers, and the comparison of two extracted trees. */
module MismatchDiagnostics {
  import opened Prelude
  import opened Ordering

  const CHUNK_SIZE := 1024 * 1024
  const MAX_EXTRACTED_FILES := 8192
  const MAX_EXTRACTED_TOTAL_BYTES := 4 * 1024 * 1024 * 1024
  const MAX_DIFFERENCES := 64

  // ----- Longest common prefix and suffix

  ghost predicate LongestPrefix(a: Bytes, b: Bytes, limit: nat, n: nat) {
    && n <= limit <= |a| && limit <= |b|
    && a[..n] == b[..n] && (n < limit ==> a[n] != b[n])
  }

  ghost predicate LongestSuffix(a: Bytes, b: Bytes, limit: nat, n: nat) {
    && n <= limit <= |a| && limit <= |b|
    && a[|a| - n..] == b[|b| - n..] && (n < limit ==> a[|a| - n - 1] != b[|b| - n - 1])
  }

  method CommonPrefix(left: Bytes, right: Bytes, commonSize: nat) returns (matched: nat)
    requires commonSize <= |left| && commonSize <= |right|
    ensures LongestPrefix(left, right, commonSize, matched)
  {
    matched := 0;
    while matched < commonSize
      invariant matched <= commonSize && left[..matched] == right[..matched]
    {
      var width := Min(CHUNK_SIZE, commonSize - matched);
      var leftBlock, rightBlock := left[matched..matched + width], right[matched..matched + width];
      if leftBlock == rightBlock {
        assert left[..matched + width] == left[..matched] + leftBlock;
        assert right[..matched + width] == right[..matched] + rightBlock;
        matched := matched + width;
        continue;
      }
      ghost var start := matched;
      for i := 0 to width
        invariant matched == start + i && forall k | 0 <= k < i :: leftBlock[k] == rightBlock[k]
        invariant left[..matched] == right[..matched]
      {
        assert left[matched] == leftBlock[i] && right[matched] == rightBlock[i];
        if leftBlock[i] != rightBlock[i] { return; }
        matched := matched + 1;
      }
      assert false;
    }
  }

  method CommonSuffix(left: Bytes, right: Bytes, maximum: nat) returns (matched: nat)
    requires maximum <= |left| && maximum <= |right|
    ensures LongestSuffix(left, right, maximum, matched)
  {
    matched := 0;
    while matched < maximum
      invariant matched <= maximum && left[|left| - matched..] == right[|right| - matched..]
    {
      var width := Min(CHUNK_SIZE, maximum - matched);
      var l, r := |left| - matched - width, |right| - matched - width;
      var leftBlock, rightBlock := left[l..l + width], right[r..r + width];
      if leftBlock == rightBlock {
        assert left[l..] == leftBlock + left[|left| - matched..];
        assert right[r..] == rightBlock + right[|right| - matched..];
        matched := matched + width;
        continue;
      }
      ghost var start := matched;
      for index := 1 to width + 1
        invariant matched == start + index - 1 && forall k | width - index < k < width :: leftBlock[k] == rightBlock[k]
        invariant left[|left| - matched..] == right[|right| - matched..]
      {
        assert left[|left| - matched - 1] == leftBlock[width - index]
               && right[|right| - matched - 1] == rightBlock[width - index];
        if leftBlock[width - index] != rightBlock[width - index] { return; }
        matched := matched + 1;
      }
      assert false;
    }
  }

  datatype Difference = Difference(prefix: nat, suffix: nat, sizeDelta: int)

  /** The prefix is the longest common one, the suffix the longest that does not overlap it in either file. */
  ghost predicate Delimits(d: Difference, a: Bytes, b: Bytes) {
    var common := Min(|a|, |b|);
    LongestPrefix(a, b, common, d.prefix) && LongestSuffix(a, b, common - d.prefix, d.suffix)
      && d.sizeDelta == |b| - |a|
  }

  method ByteDifference(expected: Bytes, actual: Bytes) returns (d: Difference)
    ensures Delimits(d, expected, actual)
  {
    var common := Min(|expected|, |actual|);
    var prefix := CommonPrefix(expected, actual, common);
    var suffix := CommonSuffix(expected, actual, Max(0, common - prefix));
    d := Difference(prefix, suffix, |actual| - |expected|);
  }

  /** The numbers are determined by the files, and describe no difference exactly when there is none. */
  lemma DifferenceExact(d: Difference, e: Difference, a: Bytes, b: Bytes)
    requires Delimits(d, a, b) && Delimits(e, a, b)
    ensures d == e
    ensures d.sizeDelta == 0 && d.prefix + d.suffix == |a| <==> a == b
  {}

  // ----- Extracted trees

  /** A path is its UTF-8 text, which is also the sort key. */
  datatype FileRecord = FileRecord(path: Bytes, size: nat, sha: int)

  type ByPath = map<Bytes, FileRecord>

  function RecordKey(r: FileRecord): Codes { r.path }

  function PathKey(p: Bytes): Codes { p }

  function TotalSize(records: seq<FileRecord>): nat {
    if records == [] then 0 else TotalSize(records[..|records| - 1]) + records[|records| - 1].size
  }

  ghost predicate NoCollision(files: seq<FileRecord>, fold: Bytes -> Bytes) {
    forall i, j | 0 <= i < j < |files| :: fold(files[i].path) != fold(files[j].path)
  }

  /** The records of a walk, sorted by path; refused on a case collision or past the two limits. */
  method TreeInventory(files: seq<FileRecord>, fold: Bytes -> Bytes) returns (r: Result<seq<FileRecord>>)
    ensures r.Ok? <==>
            && NoCollision(files, fold)
            && |files| <= MAX_EXTRACTED_FILES && TotalSize(files) <= MAX_EXTRACTED_TOTAL_BYTES
    ensures r.Ok? ==> Ascending(RecordKey, r.value) && multiset(r.value) == multiset(files)
  {
    var seen: set<Bytes>, total := {}, 0;
    for i := 0 to |files|
      invariant i <= MAX_EXTRACTED_FILES && total == TotalSize(files[..i]) <= MAX_EXTRACTED_TOTAL_BYTES
      invariant seen == set k | 0 <= k < i :: fold(files[k].path)
      invariant NoCollision(files[..i], fold)
    {
      var folded := fold(files[i].path);
      CollisionStep(files, fold, i);
      if folded in seen { return Err; }
      seen := seen + {folded};
      assert files[..i + 1][..i] == files[..i];
      total := total + files[i].size;
      TotalGrows(files, i + 1);
      if i >= MAX_EXTRACTED_FILES || total > MAX_EXTRACTED_TOTAL_BYTES { return Err; }
    }
    assert files[..|files|] == files;
    SortedInventory(files, fold);
    return Ok(Sort(RecordKey, files));
  }

  lemma CollisionStep(files: seq<FileRecord>, fold: Bytes -> Bytes, i: nat)
    requires i < |files| && NoCollision(files[..i], fold)
    ensures var seen := set k | 0 <= k < i :: fold(files[k].path);
      && (fold(files[i].path) in seen ==> !NoCollision(files, fold))
      && (fold(files[i].path) !in seen ==> NoCollision(files[..i + 1], fold))
  {
    var seen := set k | 0 <= k < i :: fold(files[k].path);
    if fold(files[i].path) !in seen {
      var more := files[..i + 1];
      forall a, b | 0 <= a < b < |more| ensures fold(more[a].path) != fold(more[b].path) {
        if b < i { assert files[..i][a] == more[a] && files[..i][b] == more[b]; }
      }
    }
  }

  lemma SortedInventory(files: seq<FileRecord>, fold: Bytes -> Bytes)
    requires NoCollision(files, fold)
    ensures Ascending(RecordKey, Sort(RecordKey, files))
  {
    forall i, j | 0 <= i < j < |files| ensures RecordKey(files[i]) != RecordKey(files[j]) {
      assert fold(files[i].path) != fold(files[j].path);
    }
    SortAscending(RecordKey, files);
  }

  lemma {:induction false} TotalGrows(files: seq<FileRecord>, n: nat)
    requires n <= |files|
    ensures TotalSize(files[..n]) <= TotalSize(files)
    decreases |files| - n
  {
    if n == |files| {
      assert files[..n] == files;
    } else {
      assert files[..n + 1][..n] == files[..n];
      TotalGrows(files, n + 1);
    }
  }

  /** `{record["path"]: record for record in records}`. */
  function Indexed(records: seq<FileRecord>): ByPath {
    if records == [] then map[]
    else
      var last := records[|records| - 1];
      Indexed(records[..|records| - 1])[last.path := last]
  }

  lemma IndexedOfMore(init: seq<FileRecord>, last: FileRecord)
    ensures Indexed(init + [last]) == Indexed(init)[last.path := last]
  {
    assert (init + [last])[..|init|] == init;
  }

  lemma LastIsNew(init: seq<FileRecord>, last: FileRecord, r: FileRecord)
    requires Ascending(RecordKey, init + [last]) && r in init
    ensures r.path != last.path
  {
    var i :| 0 <= i < |init| && init[i] == r;
    assert (init + [last])[i] == r && (init + [last])[|init|] == last;
    Trichotomy(RecordKey(r), RecordKey(last));
  }

  lemma {:induction false} IndexedMember(records: seq<FileRecord>, path: Bytes)
    requires Ascending(RecordKey, records)
    ensures path in Indexed(records) ==> Indexed(records)[path] in records && Indexed(records)[path].path == path
    ensures forall r | r in records && r.path == path :: path in Indexed(records) && Indexed(records)[path] == r
  {
    if records != [] {
      var init, last := records[..|records| - 1], records[|records| - 1];
      assert records == init + [last];
      IndexedMember(init, path);
      IndexedOfMore(init, last);
      forall r | r in records && r.path == path ensures r == last || (r in init && path != last.path) {
        if r != last { LastIsNew(init, last, r); }
      }
    }
  }

  /** Two inventories are the same list exactly when they are the same dictionary. */
  lemma IndexedInjective(a: seq<FileRecord>, b: seq<FileRecord>)
    requires Ascending(RecordKey, a) && Ascending(RecordKey, b)
    ensures a == b <==> Indexed(a) == Indexed(b)
  {
    if Indexed(a) == Indexed(b) {
      forall r ensures r in a <==> r in b {
        IndexedMember(a, r.path);
        IndexedMember(b, r.path);
      }
      AscendingUnique(RecordKey, a, b);
    }
  }

  function Lookup(m: ByPath, p: Bytes): Option<FileRecord> { if p in m then Some(m[p]) else None }

  /** The paths at which the two trees differ. */
  ghost function Differing(a: ByPath, b: ByPath): set<Bytes> {
    set p | p in a.Keys + b.Keys && Lookup(a, p) != Lookup(b, p)
  }

  datatype Field = MissingExpected | MissingActual | Size | Sha

  function Fields(left: Option<FileRecord>, right: Option<FileRecord>): seq<Field> {
    if left.None? then [MissingExpected]
    else if right.None? then [MissingActual]
    else
      (if left.value.size != right.value.size then [Size] else [])
      + (if left.value.sha != right.value.sha then [Sha] else [])
  }

  /** Which label stands for which difference. */
  lemma FieldsLabel(left: ByPath, right: ByPath, p: Bytes)
    requires p in left || p in right
    ensures var fields := Fields(Lookup(left, p), Lookup(right, p));
      && (MissingExpected in fields <==> p !in left) && (MissingActual in fields <==> p !in right)
      && (Size in fields <==> p in left && p in right && left[p].size != right[p].size)
      && (Sha in fields <==> p in left && p in right && left[p].sha != right[p].sha)
      && forall i, j | 0 <= i < j < |fields| :: fields[i] != fields[j]
  {}

  datatype Listed = Listed(path: Bytes, fields: seq<Field>)

  datatype Comparison = Comparison(equivalent: bool, differenceCount: nat, differences: seq<Listed>)

  method SortedPaths(paths: set<Bytes>) returns (sorted: seq<Bytes>)
    ensures Ascending(PathKey, sorted) && forall p :: p in sorted <==> p in paths
  {
    var rest, listed := paths, [];
    while rest != {}
      invariant rest <= paths && DistinctKeys(PathKey, listed)
      invariant forall p :: p in listed <==> p in paths - rest
      decreases |rest|
    {
      var p :| p in rest;
      assert p !in listed;
      rest := rest - {p};
      listed := listed + [p];
    }
    SortAscending(PathKey, listed);
    sorted := Sort(PathKey, listed);
    forall p ensures p in sorted <==> p in paths {
      MultisetMember(sorted, p);
      MultisetMember(listed, p);
    }
  }

  /** The differing paths among `paths`, in order, with the fields that differ. */
  function Listing(left: ByPath, right: ByPath, paths: seq<Bytes>): seq<Listed> {
    if paths == [] then []
    else
      var n := |paths| - 1;
      var p := paths[n];
      if Lookup(left, p) == Lookup(right, p) then Listing(left, right, paths[..n])
      else Listing(left, right, paths[..n]) + [Listed(p, Fields(Lookup(left, p), Lookup(right, p)))]
  }

  ghost function DifferAmong(left: ByPath, right: ByPath, paths: seq<Bytes>): set<Bytes> {
    set p | p in paths && Lookup(left, p) != Lookup(right, p)
  }

  lemma DifferStep(left: ByPath, right: ByPath, init: seq<Bytes>, p: Bytes)
    requires p !in init
    ensures |DifferAmong(left, right, init + [p])| ==
            |DifferAmong(left, right, init)| + if Lookup(left, p) != Lookup(right, p) then 1 else 0
  {
    var before := DifferAmong(left, right, init);
    assert DifferAmong(left, right, init + [p]) == if Lookup(left, p) != Lookup(right, p) then before + {p} else before;
  }

  lemma ListingOfMore(left: ByPath, right: ByPath, init: seq<Bytes>, p: Bytes)
    ensures |Listing(left, right, init + [p])| ==
            |Listing(left, right, init)| + if Lookup(left, p) != Lookup(right, p) then 1 else 0
  {
    assert (init + [p])[..|init|] == init;
  }

  lemma {:induction false} ListingCount(left: ByPath, right: ByPath, paths: seq<Bytes>)
    requires forall i, j | 0 <= i < j < |paths| :: paths[i] != paths[j]
    ensures |Listing(left, right, paths)| == |DifferAmong(left, right, paths)|
  {
    if paths != [] {
      var init, p := paths[..|paths| - 1], paths[|paths| - 1];
      assert paths == init + [p];
      ListingCount(left, right, init);
      ListingOfMore(left, right, init, p);
      DifferStep(left, right, init, p);
    }
  }

  /** A listed path is one of `paths`, differs, and is listed with the fields that do. */
  lemma {:induction false} ListedDiffers(left: ByPath, right: ByPath, paths: seq<Bytes>, i: nat)
    requires i < |Listing(left, right, paths)|
    ensures var l := Listing(left, right, paths)[i];
      && l.path in paths && Lookup(left, l.path) != Lookup(right, l.path)
      && l.fields == Fields(Lookup(left, l.path), Lookup(right, l.path))
  {
    var n := |paths| - 1;
    if i < |Listing(left, right, paths[..n])| { ListedDiffers(left, right, paths[..n], i); }
  }

  /** The listing follows the order of the paths, which is strict. */
  lemma {:induction false} ListingAscends(left: ByPath, right: ByPath, paths: seq<Bytes>, i: nat, j: nat)
    requires Ascending(PathKey, paths) && i < j < |Listing(left, right, paths)|
    ensures Less(Listing(left, right, paths)[i].path, Listing(left, right, paths)[j].path)
  {
    var n := |paths| - 1;
    if j < |Listing(left, right, paths[..n])| {
      ListingAscends(left, right, paths[..n], i, j);
    } else {
      ListedDiffers(left, right, paths[..n], i);
    }
  }

  method ListDifferences(left: ByPath, right: ByPath, paths: seq<Bytes>) returns (differences: seq<Listed>, count: nat)
    requires forall p | p in paths ::
               Fields(Lookup(left, p), Lookup(right, p)) != [] <==> Lookup(left, p) != Lookup(right, p)
    ensures count == |Listing(left, right, paths)|
    ensures differences == Listing(left, right, paths)[..Min(MAX_DIFFERENCES, count)]
  {
    differences, count := [], 0;
    for i := 0 to |paths|
      invariant count == |Listing(left, right, paths[..i])|
      invariant differences == Listing(left, right, paths[..i])[..Min(MAX_DIFFERENCES, count)]
    {
      var p := paths[i];
      var fields := Fields(Lookup(left, p), Lookup(right, p));
      assert paths[..i + 1][..i] == paths[..i];
      if fields != [] && |differences| < MAX_DIFFERENCES { differences := differences + [Listed(p, fields)]; }
      if Lookup(left, p) != Lookup(right, p) { count := count + 1; }
    }
    assert paths[..|paths|] == paths;
  }

  /** "Equivalent" exactly when the difference count is zero; the list names the first 64 differing paths, with their
      fields. */
  method TreeComparison(expected: seq<FileRecord>, actual: seq<FileRecord>)
    returns (c: Comparison, ghost paths: seq<Bytes>)
    requires Ascending(RecordKey, expected) && Ascending(RecordKey, actual)
    ensures c.equivalent <==> expected == actual
    ensures c.equivalent <==> c.differenceCount == 0
    ensures var left, right := Indexed(expected), Indexed(actual);
      && Ascending(PathKey, paths) && (forall p :: p in paths <==> p in left.Keys + right.Keys)
      && c.differenceCount == |Differing(left, right)|
      && c.differences == Listing(left, right, paths)[..Min(MAX_DIFFERENCES, |Listing(left, right, paths)|)]
  {
    var left, right := Indexed(expected), Indexed(actual);
    var sorted := SortedPaths(left.Keys + right.Keys);
    paths := sorted;
    forall p | p in paths
      ensures Fields(Lookup(left, p), Lookup(right, p)) != [] <==> Lookup(left, p) != Lookup(right, p)
    {
      DifferIffFields(expected, actual, p);
    }
    var differences, count := ListDifferences(left, right, sorted);
    AscendingIrreflexive(PathKey, sorted);
    ListingCount(left, right, sorted);
    assert DifferAmong(left, right, sorted) == Differing(left, right);
    IndexedInjective(expected, actual);
    NoDifference(left, right);
    c := Comparison(expected == actual, count, differences);
  }

  lemma NoDifference(a: ByPath, b: ByPath)
    ensures |Differing(a, b)| == 0 <==> a == b
  {
    if Differing(a, b) == {} {
      forall p ensures Lookup(a, p) == Lookup(b, p) {
        assert p !in Differing(a, b);
      }
      forall p ensures (p in a <==> p in b) && (p in a ==> a[p] == b[p]) {
        assert Lookup(a, p) == Lookup(b, p);
      }
      assert a.Keys == b.Keys;
    }
  }

  lemma DifferIffFields(expected: seq<FileRecord>, actual: seq<FileRecord>, p: Bytes)
    requires Ascending(RecordKey, expected) && Ascending(RecordKey, actual)
    requires p in Indexed(expected).Keys + Indexed(actual).Keys
    ensures var left, right := Lookup(Indexed(expected), p), Lookup(Indexed(actual), p);
      Fields(left, right) != [] <==> left != right
  {}
}
