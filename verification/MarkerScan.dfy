/** The streaming search for the two Tauri bundle markers, with a tail carried from block to block. */
module MarkerScan {
  import opened Prelude

  /** The ASCII bytes of `__TAURI_BUNDLE_TYPE_VAR_`, followed by `UNK` or `NSS`. */
  const STEM: Bytes := [95, 95, 84, 65, 85, 82, 73, 95, 66, 85, 78, 68, 76, 69, 95, 84, 89, 80, 69, 95, 86, 65, 82, 95]
  const UNK: Bytes := STEM + [85, 78, 75]
  const NSS: Bytes := STEM + [78, 83, 83]
  const MARKER_LENGTH := 27
  const MAX_FILE_BYTES := 2 * 1024 * 1024 * 1024

  /** The constants spell the two markers. */
  lemma MarkersSpelled()
    ensures UNK == Ascii("__TAURI_BUNDLE_TYPE_VAR_UNK") && NSS == Ascii("__TAURI_BUNDLE_TYPE_VAR_NSS")
  {}

  predicate OccursAt(s: Bytes, m: Bytes, i: int) {
    0 <= i && i + |m| <= |s| && s[i..i + |m|] == m
  }

  ghost function Occurrences(s: Bytes, m: Bytes): set<nat> {
    set i: nat | i <= |s| && OccursAt(s, m, i)
  }

  lemma OccursByte(s: Bytes, m: Bytes, i: int, k: nat)
    requires OccursAt(s, m, i) && k < |m|
    ensures s[i + k] == m[k]
  {}

  ghost predicate IsMarker(m: Bytes) { m == UNK || m == NSS }

  /** Neither marker overlaps itself or the other: none has a proper prefix that ends one of them. */
  lemma NoOverlap(s: Bytes, m: Bytes, i: int, m': Bytes, j: int)
    requires IsMarker(m) && IsMarker(m')
    requires OccursAt(s, m, i) && OccursAt(s, m', j)
    requires i <= j < i + MARKER_LENGTH
    ensures i == j && m == m'
  {
    OccursByte(s, m, i, 26);
    if i == j {
      OccursByte(s, m', i, 26);
    } else {
      OccursByte(s, m', j, i + 26 - j);
      if j == i + 1 {
        OccursByte(s, m, i, 2);
        OccursByte(s, m', j, 1);
      }
    }
  }

  /** Python's `find`: the least occurrence at or after `from`, or -1. */
  function Find(s: Bytes, m: Bytes, from: nat): (r: int)
    ensures r == -1 || (from <= r && OccursAt(s, m, r))
    ensures forall k | from <= k && (r == -1 || k < r) :: !OccursAt(s, m, k)
    decreases |s| - from
  {
    if from + |m| > |s| then -1
    else if OccursAt(s, m, from) then from
    else Find(s, m, from + 1)
  }

  function LastBytes(s: Bytes, n: nat): Bytes {
    if |s| <= n then s else s[|s| - n..]
  }

  /** The occurrences in `s` that end beyond its first `seen` bytes. */
  ghost function NewOccurrences(s: Bytes, m: Bytes, seen: nat): set<nat> {
    set i: nat | i <= |s| && OccursAt(s, m, i) && i + |m| > seen
  }

  lemma OccurrencesGrow(s: Bytes, block: Bytes, m: Bytes)
    ensures Occurrences(s + block, m) == Occurrences(s, m) + NewOccurrences(s + block, m, |s|)
    ensures Occurrences(s, m) !! NewOccurrences(s + block, m, |s|)
    ensures |Occurrences(s + block, m)| == |Occurrences(s, m)| + |NewOccurrences(s + block, m, |s|)|
  {}

  lemma WindowIsSuffix(seen: Bytes, block: Bytes, tail: Bytes)
    requires tail == LastBytes(seen, MARKER_LENGTH - 1)
    ensures tail + block == (seen + block)[|seen| - |tail|..]
  {}

  lemma LastOfSuffix(s: Bytes, k: nat, n: nat)
    requires k + n <= |s|
    ensures LastBytes(s[k..], n) == LastBytes(s, n)
  {
    assert s[k..][|s| - k - n..] == s[|s| - n..];
  }

  lemma TailOfWindow(seen: Bytes, block: Bytes, tail: Bytes)
    requires tail == LastBytes(seen, MARKER_LENGTH - 1)
    ensures LastBytes(tail + block, MARKER_LENGTH - 1) == LastBytes(seen + block, MARKER_LENGTH - 1)
  {
    if |seen| > MARKER_LENGTH - 1 {
      WindowIsSuffix(seen, block, tail);
      LastOfSuffix(seen + block, |seen| - |tail|, MARKER_LENGTH - 1);
    }
  }

  ghost predicate FirstOf(offset: int, found: set<nat>) { offset in found && forall i | i in found :: offset <= i }

  /** The counts of both markers in what was seen, and the offset of one marker's first occurrence, or -1. */
  ghost predicate CountsOf(seen: Bytes, unknown: Bytes, nsis: Bytes, unknownCount: nat, nsisCount: nat, offset: int) {
    && unknownCount == |Occurrences(seen, unknown)| && nsisCount == |Occurrences(seen, nsis)|
    && (offset < 0 ==> offset == -1 && unknownCount + nsisCount == 0)
    && (offset >= 0 ==> FirstOf(offset, Occurrences(seen, unknown)) || FirstOf(offset, Occurrences(seen, nsis)))
  }

  ghost predicate IsNew(seen: Bytes, block: Bytes, marker: Bytes, found: nat, first: int) {
    var added := NewOccurrences(seen + block, marker, |seen|);
    found == |added| && (found > 0 ==> FirstOf(first, added))
  }

  function FirstOffset(offset: int, found: nat, first: int): int { if offset < 0 && found > 0 then first else offset }

  /** Adding what a block brings keeps counts and offset those of everything seen. */
  lemma CountsGrow(seen: Bytes, block: Bytes, unknown: Bytes, nsis: Bytes, unknownCount: nat, nsisCount: nat,
                   offset: int, unknownFound: nat, unknownFirst: int, nsisFound: nat, nsisFirst: int)
    requires CountsOf(seen, unknown, nsis, unknownCount, nsisCount, offset)
    requires IsNew(seen, block, unknown, unknownFound, unknownFirst) && IsNew(seen, block, nsis, nsisFound, nsisFirst)
    ensures CountsOf(seen + block, unknown, nsis, unknownCount + unknownFound, nsisCount + nsisFound,
                     FirstOffset(FirstOffset(offset, unknownFound, unknownFirst), nsisFound, nsisFirst))
  {
    OccurrencesGrow(seen, block, unknown);
    OccurrencesGrow(seen, block, nsis);
  }

  /** The search state both the scan and the reversal check carry from block to block. */
  class MarkerCounter {
    const unknown: Bytes
    const nsis: Bytes
    var seen: Bytes  // what the running digest has been fed
    var size: nat
    var tail: Bytes
    var unknownCount: nat
    var nsisCount: nat
    var offset: int

    ghost predicate Valid()
      reads this
    {
      && |unknown| == |nsis| == MARKER_LENGTH
      && size == |seen| && tail == LastBytes(seen, MARKER_LENGTH - 1)
      && CountsOf(seen, unknown, nsis, unknownCount, nsisCount, offset)
    }

    constructor (unknown: Bytes, nsis: Bytes)
      requires |unknown| == |nsis| == MARKER_LENGTH
      ensures Valid() && seen == [] && this.unknown == unknown && this.nsis == nsis
    {
      this.unknown, this.nsis := unknown, nsis;
      seen, size, tail, unknownCount, nsisCount, offset := [], 0, [], 0, 0, -1;
    }

    method Consume(block: Bytes)
      requires Valid()
      modifies this
      ensures Valid() && seen == old(seen) + block
    {
      var previousTotal := size;
      size := size + |block|;
      var window := tail + block;
      var windowBase := previousTotal - |tail|;
      var unknownFound, unknownFirst := CountNew(window, windowBase, previousTotal, unknown, seen, block);
      var nsisFound, nsisFirst := CountNew(window, windowBase, previousTotal, nsis, seen, block);
      CountsGrow(seen, block, unknown, nsis, unknownCount, nsisCount, offset, unknownFound, unknownFirst, nsisFound,
                 nsisFirst);
      TailOfWindow(seen, block, tail);
      offset := FirstOffset(FirstOffset(offset, unknownFound, unknownFirst), nsisFound, nsisFirst);
      unknownCount, nsisCount := unknownCount + unknownFound, nsisCount + nsisFound;
      tail := LastBytes(window, MARKER_LENGTH - 1);
      seen := seen + block;
    }
  }

  /** One marker's turn: the window is the carried tail and the block. */
  method CountNew(window: Bytes, windowBase: int, previousTotal: nat, marker: Bytes, ghost seen: Bytes,
                  ghost block: Bytes)
    returns (found: nat, first: int)
    requires |marker| == MARKER_LENGTH && previousTotal == |seen|
    requires window == LastBytes(seen, MARKER_LENGTH - 1) + block
    requires windowBase == |seen| - |LastBytes(seen, MARKER_LENGTH - 1)|
    ensures IsNew(seen, block, marker, found, first)
  {
    WindowIsSuffix(seen, block, LastBytes(seen, MARKER_LENGTH - 1));
    found, first := CountInWindow(window, windowBase, previousTotal, marker, seen + block);
  }

  /** Counts the occurrences in the window that reach beyond the bytes already counted, each once. */
  method CountInWindow(window: Bytes, windowBase: nat, previousTotal: nat, marker: Bytes, ghost all: Bytes)
    returns (count: nat, first: int)
    requires |marker| == MARKER_LENGTH && windowBase <= |all| && window == all[windowBase..]
    requires windowBase == Max(0, previousTotal - (MARKER_LENGTH - 1)) && previousTotal <= |all|
    ensures count == |NewOccurrences(all, marker, previousTotal)|
    ensures count > 0 ==> FirstOf(first, NewOccurrences(all, marker, previousTotal))
  {
    count, first := 0, -1;
    var searchFrom := 0;
    while true
      invariant 0 <= searchFrom <= |window| + 1
      invariant count == |NewBefore(all, marker, previousTotal, windowBase + searchFrom)|
      invariant count > 0 ==> FirstOf(first, NewBefore(all, marker, previousTotal, windowBase + searchFrom))
      decreases |window| + 1 - searchFrom
    {
      var index := Find(window, marker, searchFrom);
      if index < 0 {
        NoneLeft(all, windowBase, marker, previousTotal, searchFrom);
        return;
      }
      var absolute: nat := windowBase + index;
      assert count == 0 ==> NewBefore(all, marker, previousTotal, windowBase + searchFrom) == {};
      NextFound(all, windowBase, marker, previousTotal, searchFrom, index);
      if absolute + |marker| > previousTotal {
        count := count + 1;
        if count == 1 { first := absolute; }
      }
      searchFrom := index + 1;
    }
  }

  /** The new occurrences that start before `bound`. */
  ghost function NewBefore(all: Bytes, marker: Bytes, seen: nat, bound: nat): set<nat> {
    set a | a in NewOccurrences(all, marker, seen) && a < bound
  }

  /** When the window holds no occurrence from `from` on, every new occurrence lies before. */
  lemma NoneLeft(all: Bytes, windowBase: nat, marker: Bytes, seen: nat, from: nat)
    requires windowBase <= |all| && windowBase == Max(0, seen - (MARKER_LENGTH - 1)) && |marker| == MARKER_LENGTH
    requires forall k | from <= k :: !OccursAt(all[windowBase..], marker, k)
    ensures NewBefore(all, marker, seen, windowBase + from) == NewOccurrences(all, marker, seen)
  {
    forall a | a in NewOccurrences(all, marker, seen) ensures a < windowBase + from {
      WindowOccurrence(all, windowBase, marker, a);
    }
  }

  /** Up to and including the next occurrence in the window, that one is the only one to add, if it is new. */
  lemma NextFound(all: Bytes, windowBase: nat, marker: Bytes, seen: nat, from: nat, index: nat)
    requires windowBase <= |all| && windowBase == Max(0, seen - (MARKER_LENGTH - 1)) && |marker| == MARKER_LENGTH
    requires from <= index && OccursAt(all[windowBase..], marker, index)
    requires forall k | from <= k < index :: !OccursAt(all[windowBase..], marker, k)
    ensures var a := windowBase + index;
      var before, next := NewBefore(all, marker, seen, windowBase + from),
        NewBefore(all, marker, seen, windowBase + (index + 1));
      && next == (if a + |marker| > seen then before + {a} else before)
      && |next| == |before| + if a + |marker| > seen then 1 else 0
  {
    var a := windowBase + index;
    var before, next := NewBefore(all, marker, seen, windowBase + from),
      NewBefore(all, marker, seen, windowBase + (index + 1));
    WindowOccurrence(all, windowBase, marker, windowBase + index);
    forall b | b in NewOccurrences(all, marker, seen) && b < a ensures b < windowBase + from {
      WindowOccurrence(all, windowBase, marker, b);
    }
    assert next == if a + |marker| > seen then before + {a} else before;
  }

  lemma WindowOccurrence(all: Bytes, windowBase: nat, marker: Bytes, a: nat)
    requires windowBase <= a && windowBase <= |all|
    ensures OccursAt(all, marker, a) <==> OccursAt(all[windowBase..], marker, a - windowBase)
  {}

  // ----- The scan of a whole file

  function Concat(blocks: seq<Bytes>): Bytes {
    if blocks == [] then [] else Concat(blocks[..|blocks| - 1]) + blocks[|blocks| - 1]
  }

  /** A digest is a free constructor over what it hashes; `Other` is any digest text that hashes nothing at hand. */
  datatype Digest = Sha256(content: Bytes) | Other(id: nat)

  datatype Scan = Scan(size: nat, digest: Digest, unknownCount: nat, nsisCount: nat, offset: int)

  /** What a scan reports about a file, however it was split. */
  ghost predicate Describes(scan: Scan, file: Bytes) {
    && scan.size == |file| && scan.digest == Sha256(file)
    && scan.unknownCount == |Occurrences(file, UNK)| && scan.nsisCount == |Occurrences(file, NSS)|
    && (scan.unknownCount + scan.nsisCount == 0 <==> scan.offset == -1)
    && (scan.offset != -1 ==>
          FirstOf(scan.offset, Occurrences(file, UNK)) || FirstOf(scan.offset, Occurrences(file, NSS)))
  }

  /** `blocks` are what the successive reads return. */
  method ScanFile(blocks: seq<Bytes>, maxBytes: int) returns (r: Result<Scan>)
    ensures r.Err? <==> maxBytes < 1 || maxBytes > MAX_FILE_BYTES || |Concat(blocks)| > maxBytes
    ensures r.Ok? ==> Describes(r.value, Concat(blocks))
  {
    if maxBytes < 1 || maxBytes > MAX_FILE_BYTES { return Err; }
    var counter := new MarkerCounter(UNK, NSS);
    for i := 0 to |blocks|
      invariant counter.Valid() && fresh(counter) && counter.seen == Concat(blocks[..i])
      invariant counter.size <= maxBytes
    {
      assert blocks[..i + 1][..i] == blocks[..i];
      if counter.size + |blocks[i]| > maxBytes {
        ConcatLength(blocks, i + 1);
        return Err;
      }
      counter.Consume(blocks[i]);
    }
    assert blocks[..|blocks|] == blocks;
    ghost var file := counter.seen;
    assert counter.offset >= 0 ==> |Occurrences(file, UNK)| + |Occurrences(file, NSS)| > 0;
    return Ok(Scan(counter.size, Sha256(counter.seen), counter.unknownCount, counter.nsisCount, counter.offset));
  }

  lemma {:induction false} ConcatLength(blocks: seq<Bytes>, n: nat)
    requires n <= |blocks|
    ensures |Concat(blocks[..n])| <= |Concat(blocks)|
    decreases |blocks| - n
  {
    if n == |blocks| {
      assert blocks[..n] == blocks;
    } else {
      assert blocks[..n + 1][..n] == blocks[..n];
      ConcatLength(blocks, n + 1);
    }
  }

  /** With one occurrence in all, the reported offset is where it is. */
  lemma SingleOccurrence(scan: Scan, file: Bytes)
    requires Describes(scan, file) && scan.unknownCount + scan.nsisCount == 1
    ensures Occurrences(file, UNK) + Occurrences(file, NSS) == {scan.offset as nat}
  {
    var u, n := Occurrences(file, UNK), Occurrences(file, NSS);
    if |u| == 0 {
      OnlyMember(n, scan.offset);
    } else {
      OnlyMember(u, scan.offset);
    }
  }
}
