/** The in-place marker patch of the restored Tauri host, its record, and the check that reverses it. */
module TauriPatch {
  import opened Prelude
  import opened MarkerScan

  const ALGORITHM := "tauri-bundle-type-unk-to-nss-v1"
  const SOURCE_TAG := "tauri-cli-v2.11.4"
  const SOURCE_COMMIT := "8909f221d1515955fc843808032bdc5d62209c96"
  const SOURCE_PATH := "crates/tauri-bundler/src/bundle.rs"
  const PAYLOAD_PATH := "payload/stock-desk-desktop.exe"
  const CHUNK := 1024 * 1024

  datatype FileIdentity = FileIdentity(size: int, sha: Digest, beforeCount: int, afterCount: int)

  datatype Source = Source(tag: string, commit: string, path: string)

  datatype Body = Body(
    algorithm: string, source: Source, payloadPath: string, beforeToken: Bytes, afterToken: Bytes,
    offset: int, before: FileIdentity, after: FileIdentity)

  /** `transformation_sha256`: the digest of a body, or text that is no body's digest. */
  datatype Stamp = StampOf(body: Body) | OtherStamp(id: nat)

  datatype Transformation = Transformation(body: Body, stamp: Stamp)

  datatype FileRecord = FileRecord(path: string, role: string, size: int, sha: Digest)

  // ----- What the patch means

  function Spliced(file: Bytes, offset: nat, marker: Bytes): Bytes
    requires offset + |marker| <= |file|
  {
    file[..offset] + marker + file[offset + |marker|..]
  }

  ghost predicate Patchable(file: Bytes, offset: nat) {
    Occurrences(file, UNK) == {offset} && Occurrences(file, NSS) == {}
  }

  function BodyFor(file: Bytes, patched: Bytes, offset: int): Body {
    Body(ALGORITHM, Source(SOURCE_TAG, SOURCE_COMMIT, SOURCE_PATH), PAYLOAD_PATH, UNK, NSS, offset,
         FileIdentity(|file|, Sha256(file), 1, 0), FileIdentity(|file|, Sha256(patched), 0, 1))
  }

  /** Away from the edited window the occurrences are the same. */
  lemma SpliceElsewhere(file: Bytes, offset: nat, marker: Bytes, m: Bytes, i: int)
    requires |marker| == |m| == MARKER_LENGTH && offset + MARKER_LENGTH <= |file|
    requires i + MARKER_LENGTH <= offset || offset + MARKER_LENGTH <= i
    ensures OccursAt(Spliced(file, offset, marker), m, i) <==> OccursAt(file, m, i)
  {}

  /** Replacing one marker by another moves exactly one occurrence, because no marker straddles the edit. */
  lemma SpliceOccurrences(file: Bytes, offset: nat, old_: Bytes, new_: Bytes, m: Bytes)
    requires IsMarker(old_) && IsMarker(new_) && IsMarker(m) && old_ != new_
    requires OccursAt(file, old_, offset)
    ensures Occurrences(Spliced(file, offset, new_), m) ==
            if m == new_ then Occurrences(file, m) + {offset} else Occurrences(file, m) - {offset}
  {
    var edited := Spliced(file, offset, new_);
    assert OccursAt(edited, new_, offset);
    forall i: nat | i != offset ensures OccursAt(edited, m, i) <==> OccursAt(file, m, i) {
      if i + MARKER_LENGTH <= offset || offset + MARKER_LENGTH <= i {
        SpliceElsewhere(file, offset, new_, m, i);
      } else if OccursAt(edited, m, i) {
        if i < offset { NoOverlap(edited, m, i, new_, offset); } else { NoOverlap(edited, new_, offset, m, i); }
      } else if OccursAt(file, m, i) {
        if i < offset { NoOverlap(file, m, i, old_, offset); } else { NoOverlap(file, old_, offset, m, i); }
      }
    }
  }

  /** The counts the patch records without scanning its output are true of the output. */
  lemma PatchedCounts(file: Bytes, offset: nat)
    requires Patchable(file, offset)
    ensures offset + MARKER_LENGTH <= |file|
    ensures var patched := Spliced(file, offset, NSS);
      |patched| == |file| && Occurrences(patched, UNK) == {} && Occurrences(patched, NSS) == {offset}
  {
    assert offset in Occurrences(file, UNK);
    SpliceOccurrences(file, offset, UNK, NSS, UNK);
    SpliceOccurrences(file, offset, UNK, NSS, NSS);
  }

  lemma SpliceBack(file: Bytes, offset: nat, old_: Bytes, new_: Bytes)
    requires |old_| == |new_| && OccursAt(file, old_, offset)
    ensures Spliced(Spliced(file, offset, new_), offset, old_) == file
  {}

  // ----- Reading

  /** `read(n)` at `position` of an open file: the next n bytes, fewer only at the end. */
  function ReadAt(content: Bytes, position: nat, n: nat): (block: Bytes)
    requires position <= |content|
    ensures |block| == Min(n, |content| - position)
  {
    content[position..Min(position + n, |content|)]
  }

  /** `_copy_patch_range`: returns what was copied, which is also what both running digests were fed, and where the
      source is. */
  method CopyRange(source: Bytes, start: nat, count: Option<nat>) returns (copied: Bytes, position: nat)
    requires start <= |source|
    ensures position == if count.None? then |source| else Min(start + count.value, |source|)
    ensures copied == source[start..position]
  {
    copied, position := [], start;
    while count.None? || |copied| < count.value
      invariant start <= position <= |source| && copied == source[start..position]
      invariant count.Some? ==> |copied| <= count.value
      decreases |source| - position
    {
      var request := if count.None? then CHUNK else Min(CHUNK, count.value - |copied|);
      if request == 0 { break; }
      var block := ReadAt(source, position, request);
      if block == [] { break; }
      copied := copied + block;
      position := position + |block|;
    }
  }

  /** Writes the temporary copy: the prefix, the new marker, the rest. Returns what was read and what was written. */
  method PatchedCopy(payload: Bytes, offset: nat, present: Bytes, replacement: Bytes)
    returns (r: Result<(Bytes, Bytes)>)
    requires |present| == |replacement| == MARKER_LENGTH
    ensures r.Ok? <==> OccursAt(payload, present, offset)
    ensures r.Ok? ==> r.value == (payload, Spliced(payload, offset, replacement))
  {
    var prefix, position := CopyRange(payload, 0, Some(offset));
    var marker := ReadAt(payload, position, MARKER_LENGTH);
    if |prefix| != offset || marker != present { return Err; }
    var suffix, _ := CopyRange(payload, position + MARKER_LENGTH, None);
    assert prefix + marker + suffix == payload;
    return Ok((prefix + marker + suffix, prefix + replacement + suffix));
  }

  // ----- Patching in place

  class TauriHost {
    var payload: Bytes

    constructor (payload: Bytes)
      ensures this.payload == payload
    {
      this.payload := payload;
    }

    /** Refused, with the file untouched, unless the file holds exactly one UNK and no NSS marker. */
    method Patch(blocks: seq<Bytes>, maxBytes: int) returns (r: Result<Transformation>)
      requires Concat(blocks) == payload
      modifies this
      ensures r.Ok? <==> 1 <= maxBytes <= MAX_FILE_BYTES && |old(payload)| <= maxBytes
                         && |Occurrences(old(payload), UNK)| == 1 && Occurrences(old(payload), NSS) == {}
      ensures r.Err? ==> payload == old(payload)
      ensures r.Ok? ==>
        var body := r.value.body;
        && body.offset >= 0 && Patchable(old(payload), body.offset)
        && payload == Spliced(old(payload), body.offset, NSS)
        && body == BodyFor(old(payload), payload, body.offset) && r.value.stamp == StampOf(body)
    {
      var scanned := ScanFile(blocks, maxBytes);
      if scanned.Err? { return Err; }
      var scan := scanned.value;
      if scan.unknownCount != 1 || scan.nsisCount != 0 || scan.offset < 0 { return Err; }
      SingleOccurrence(scan, payload);
      assert Occurrences(payload, NSS) == {};
      ghost var original := payload;
      PatchedCounts(original, scan.offset);
      assert scan.offset in Occurrences(original, UNK);
      var copy := PatchedCopy(payload, scan.offset, UNK, NSS);
      if copy.Err? { assert false; return Err; }
      var before, patched := copy.value.0, copy.value.1;
      if |patched| != scan.size || Sha256(before) != scan.digest { assert false; return Err; }
      payload := patched;
      var body := BodyFor(before, patched, scan.offset);
      return Ok(Transformation(body, StampOf(body)));
    }
  }

  // ----- The stored record

  predicate ValidIdentity(i: FileIdentity) {
    1 <= i.size <= MAX_FILE_BYTES && i.beforeCount >= 0 && i.afterCount >= 0
  }

  function PayloadRecords(files: seq<FileRecord>): seq<FileRecord> {
    if files == [] then []
    else
      var rest := PayloadRecords(files[..|files| - 1]);
      var f := files[|files| - 1];
      if f.path == PAYLOAD_PATH && f.role == "payload" then rest + [f] else rest
  }

  /** `_normalize_transformation` accepts. */
  predicate Normalized(t: Transformation, files: seq<FileRecord>) {
    var b := t.body;
    && b.algorithm == ALGORITHM && b.source == Source(SOURCE_TAG, SOURCE_COMMIT, SOURCE_PATH)
    && b.payloadPath == PAYLOAD_PATH
    && b.beforeToken == UNK && b.afterToken == NSS
    && ValidIdentity(b.before) && ValidIdentity(b.after) && b.before.size == b.after.size
    && b.before.beforeCount == 1 && b.before.afterCount == 0 && b.after.beforeCount == 0 && b.after.afterCount == 1
    && 0 <= b.offset && b.offset + MARKER_LENGTH <= b.after.size
    && (var records := PayloadRecords(files);
        |records| == 1 && records[0].size == b.after.size && records[0].sha == b.after.sha)
    && t.stamp == StampOf(b)
  }

  /** `payload` is the patch, at the recorded offset, of the very file the record names. */
  ghost predicate IsPatchOfRecord(payload: Bytes, b: Body) {
    && b.before.sha.Sha256? && b.offset >= 0
    && var file := b.before.sha.content;
      && Patchable(file, b.offset) && b.offset + MARKER_LENGTH <= |file|
      && payload == Spliced(file, b.offset, NSS)
      && b.before.size == |file| && b.after.size == |file| && b.after.sha == Sha256(payload)
  }

  /** What a genuine patch looks like to the verifier. */
  lemma GenuinePatch(payload: Bytes, b: Body)
    requires IsPatchOfRecord(payload, b)
    ensures var file := b.before.sha.content;
      && |payload| == |file| && Occurrences(payload, UNK) == {} && Occurrences(payload, NSS) == {b.offset as nat}
      && OccursAt(payload, NSS, b.offset) && Spliced(payload, b.offset, UNK) == file
  {
    var file := b.before.sha.content;
    PatchedCounts(file, b.offset);
    assert b.offset as nat in Occurrences(payload, NSS);
    assert b.offset as nat in Occurrences(file, UNK);
    SpliceBack(file, b.offset, UNK, NSS);
  }

  /** Feeds the bytes of the file from `start` to `stop` to the counter, a block at a time. */
  method ConsumeRange(file: Bytes, start: nat, stop: nat, counter: MarkerCounter)
    requires start <= stop <= |file| && counter.Valid()
    modifies counter
    ensures counter.Valid() && counter.seen == old(counter.seen) + file[start..stop]
  {
    var position: nat := start;
    ghost var fed := counter.seen;
    while position < stop
      invariant start <= position <= stop && counter.Valid()
      invariant counter.seen == fed + file[start..position]
    {
      var block := ReadAt(file, position, Min(CHUNK, stop - position));
      SliceGrows(fed, file, start, position, |block|);
      counter.Consume(block);
      position := position + |block|;
    }
  }

  lemma SliceGrows(fed: Bytes, file: Bytes, start: nat, position: nat, n: nat)
    requires start <= position && position + n <= |file|
    ensures fed + file[start..position + n] == (fed + file[start..position]) + file[position..position + n]
  {}

  lemma SplicedParts(payload: Bytes, offset: nat, original: Bytes)
    requires offset + |original| <= |payload|
    ensures ([] + payload[0..offset]) + original + payload[offset + |original|..|payload|]
            == Spliced(payload, offset, original)
  {}

  /** The reversal: the file with the original marker back at the offset, counted block by block. */
  method Reconstruct(payload: Bytes, offset: nat, present: Bytes, original: Bytes) returns (r: Result<MarkerCounter>)
    requires |present| == |original| == MARKER_LENGTH
    ensures r.Err? <==> !OccursAt(payload, present, offset)
    ensures r.Ok? ==> fresh(r.value) && r.value.Valid() && offset + MARKER_LENGTH <= |payload|
                      && r.value.seen == Spliced(payload, offset, original)
                      && r.value.unknown == original && r.value.nsis == present
  {
    if offset > |payload| { return Err; }
    var marker := ReadAt(payload, offset, MARKER_LENGTH);
    if marker != present { return Err; }
    var counter := new MarkerCounter(original, present);
    ConsumeRange(payload, 0, offset, counter);
    counter.Consume(original);
    ConsumeRange(payload, offset + MARKER_LENGTH, |payload|, counter);
    SplicedParts(payload, offset, original);
    return Ok(counter);
  }

  /** Accepts exactly the patches of the recorded preimage. */
  method VerifyTransformationPayload(blocks: seq<Bytes>, t: Transformation, files: seq<FileRecord>)
    returns (accepted: bool)
    requires Normalized(t, files)
    ensures accepted <==> IsPatchOfRecord(Concat(blocks), t.body)
  {
    var b := t.body;
    ghost var payload := Concat(blocks);
    if IsPatchOfRecord(payload, b) { GenuinePatch(payload, b); }
    var scanned := ScanFile(blocks, MAX_FILE_BYTES);
    if scanned.Err? { return false; }
    var scan := scanned.value;
    if scan.unknownCount + scan.nsisCount == 1 { SingleOccurrence(scan, payload); }
    if scan.size != b.after.size || scan.digest != b.after.sha || scan.unknownCount != b.after.beforeCount
       || scan.nsisCount != b.after.afterCount || scan.offset != b.offset {
      return false;
    }
    var reversed := Reconstruct(Concat(blocks), b.offset, NSS, UNK);
    if reversed.Err? { return false; }
    var r := reversed.value;
    ghost var file := r.seen;
    SpliceBack(payload, b.offset, NSS, UNK);
    ghost var rescan := Scan(r.size, Sha256(file), r.unknownCount, r.nsisCount, r.offset);
    CounterDescribes(r);
    if r.unknownCount + r.nsisCount == 1 { SingleOccurrence(rescan, file); }
    return r.size == b.before.size && Sha256(r.seen) == b.before.sha && r.unknownCount == b.before.beforeCount
           && r.nsisCount == b.before.afterCount && r.offset == b.offset;
  }

  lemma CounterDescribes(c: MarkerCounter)
    requires c.Valid() && c.unknown == UNK && c.nsis == NSS
    ensures Describes(Scan(c.size, Sha256(c.seen), c.unknownCount, c.nsisCount, c.offset), c.seen)
  {}

  // ----- The two directions together

  /** Every file and record the patch produces is well-formed for the verifier and accepted, and reversing gives the
      original. */
  lemma PatchIsAccepted(file: Bytes, offset: nat, files: seq<FileRecord>)
    requires Patchable(file, offset) && |file| <= MAX_FILE_BYTES
    requires offset + MARKER_LENGTH <= |file|
    requires var patched := Spliced(file, offset, NSS);
      PayloadRecords(files) == [FileRecord(PAYLOAD_PATH, "payload", |patched|, Sha256(patched))]
    ensures var patched := Spliced(file, offset, NSS); var body := BodyFor(file, patched, offset);
      && Normalized(Transformation(body, StampOf(body)), files)
      && IsPatchOfRecord(patched, body)
      && Spliced(patched, offset, UNK) == file
  {}

  /** The payload records are those files that have the path and the role, as often as they are listed. */
  lemma {:induction false} PayloadRecordCount(files: seq<FileRecord>, f: FileRecord)
    ensures multiset(PayloadRecords(files))[f] ==
            if f.path == "payload/stock-desk-desktop.exe" && f.role == "payload" then multiset(files)[f] else 0
  {
    if files != [] {
      var init, last := files[..|files| - 1], files[|files| - 1];
      PayloadRecordCount(init, f);
      assert files == init + [last];
    }
  }

  /** A well-formed record that some payload satisfies is the record the patch makes of that payload, and the file list
      binds that payload once. */
  lemma OnlyPatchRecords(t: Transformation, files: seq<FileRecord>, payload: Bytes)
    requires Normalized(t, files) && IsPatchOfRecord(payload, t.body)
    ensures var body := BodyFor(t.body.before.sha.content, payload, t.body.offset);
      && t == Transformation(body, StampOf(body))
      && PayloadRecords(files) == [FileRecord(PAYLOAD_PATH, "payload", |payload|, Sha256(payload))]
  {
    GenuinePatch(payload, t.body);
    OneRecord(files);
  }

  lemma OneRecord(files: seq<FileRecord>)
    requires |PayloadRecords(files)| == 1
    ensures PayloadRecords(files)[0].path == PAYLOAD_PATH && PayloadRecords(files)[0].role == "payload"
  {
    var f := PayloadRecords(files)[0];
    PayloadRecordCount(files, f);
    assert f in multiset(PayloadRecords(files));
  }

  /** One accepted payload per record, and one preimage per accepted payload. */
  lemma AcceptedPayloadUnique(p: Bytes, p': Bytes, b: Body, b': Body)
    requires IsPatchOfRecord(p, b) && IsPatchOfRecord(p', b')
    ensures b == b' ==> p == p'
    ensures p == p' ==> b.offset == b'.offset && b.before.sha == b'.before.sha
  {
    GenuinePatch(p, b);
    GenuinePatch(p', b');
    if p == p' {
      assert b.offset as nat in {b'.offset as nat};
    }
  }
}
