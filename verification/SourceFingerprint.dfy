/** The length-prefixed byte stream behind the source fingerprint, and its unique decoding. */
module SourceFingerprint {
  import opened Prelude
  import opened Ordering
  import opened Paths

  /** What the stream starts with. */
  function Domain(): Bytes { Ascii("stock-desk-public-build-inputs-v1") + [0] }

  const SLASH: Byte := 47
  const DOT: Byte := 46
  const LIMIT := 0x1_0000_0000_0000_0000

  /** A path is its UTF-8 text; bytewise order is code point order. */
  type Path = Bytes

  datatype Input = Input(path: Path, content: Bytes)

  function PathKey(p: Path): Codes { p }

  // ----- Eight-byte lengths

  function BigEndian(n: nat, width: nat): (b: Bytes)
    ensures |b| == width
  {
    if width == 0 then [] else BigEndian(n / 256, width - 1) + [n % 256]
  }

  /** The byte at place `i` is the digit of weight 256 to the power of the places behind it: the highest comes first. */
  lemma {:induction false} BigEndianDigits(n: nat, width: nat, i: nat)
    requires i < width
    ensures Power256(width - 1 - i) > 0 && BigEndian(n, width)[i] == n / Power256(width - 1 - i) % 256
  {
    if i < width - 1 {
      BigEndianDigits(n / 256, width - 1, i);
      DivideAgain(n, Power256(width - 2 - i));
    }
  }

  lemma Scaled(d: nat, a: nat, b: nat)
    requires a < b
    ensures d * a + d <= d * b
  {
    assert d * (a + 1) <= d * b;
  }

  lemma DivisionUnique(n: nat, d: nat, k: nat, r: nat)
    requires r < d && n == d * k + r
    ensures n / d == k
  {
    var j := n / d;
    assert n == d * j + n % d;
    if j < k { Scaled(d, j, k); }
    if k < j { Scaled(d, k, j); }
  }

  lemma DivideAgain(n: nat, p: nat)
    requires p > 0
    ensures n / 256 / p == n / (256 * p)
  {
    var q := n / 256;
    var k, r := q / p, q % p;
    assert n == 256 * q + n % 256 && q == p * k + r;
    assert 256 * (p * k + r) == (256 * p) * k + 256 * r;
    assert 256 * r + n % 256 < 256 * p;
    DivisionUnique(n, 256 * p, k, 256 * r + n % 256);
  }

  function FromBigEndian(b: Bytes): nat {
    if b == [] then 0
    else
      var last: int := b[|b| - 1];
      256 * FromBigEndian(b[..|b| - 1]) + last
  }

  function Power256(width: nat): nat { if width == 0 then 1 else 256 * Power256(width - 1) }

  lemma {:induction false} BigEndianRoundTrip(n: nat, width: nat)
    requires n < Power256(width)
    ensures FromBigEndian(BigEndian(n, width)) == n
  {
    if width > 0 {
      BigEndianRoundTrip(n / 256, width - 1);
      assert BigEndian(n, width)[..width - 1] == BigEndian(n / 256, width - 1);
    }
  }

  /** `to_bytes(8, "big")`, which the callers only reach below the limit. */
  function Length8(n: nat): (b: Bytes)
    ensures |b| == 8
  {
    BigEndian(n, 8)
  }

  lemma Length8RoundTrip(n: nat)
    requires n < LIMIT
    ensures FromBigEndian(Length8(n)) == n
  {
    assert Power256(8) == 256 * (256 * (256 * (256 * (256 * (256 * (256 * 256 * Power256(0)))))));
    BigEndianRoundTrip(n, 8);
  }

  // ----- The stream and its decoding

  predicate Encodable(inputs: seq<Input>) {
    forall i | 0 <= i < |inputs| :: |inputs[i].path| < LIMIT && |inputs[i].content| < LIMIT
  }

  function Frame(data: Bytes): Bytes { Length8(|data|) + data }

  function Frames(inputs: seq<Input>): Bytes {
    if inputs == [] then []
    else Frame(inputs[0].path) + (Frame(inputs[0].content) + Frames(inputs[1..]))
  }

  function Stream(inputs: seq<Input>): Bytes { Domain() + Frames(inputs) }

  function ReadFrame(s: Bytes): (r: Option<(Bytes, Bytes)>)
    ensures r.Some? ==> |r.value.1| < |s|
  {
    if |s| < 8 || |s| - 8 < FromBigEndian(s[..8]) then None
    else
      var n := FromBigEndian(s[..8]);
      Some((s[8..8 + n], s[8 + n..]))
  }

  function DecodeFrames(s: Bytes): Option<seq<Input>>
    decreases |s|
  {
    if s == [] then Some([])
    else
      var path := ReadFrame(s);
      if path.None? then None
      else
        var content := ReadFrame(path.value.1);
        if content.None? then None
        else
          var rest := DecodeFrames(content.value.1);
          if rest.None? then None else Some([Input(path.value.0, content.value.0)] + rest.value)
  }

  lemma ReadFrameOfFrame(data: Bytes, rest: Bytes)
    requires |data| < LIMIT
    ensures ReadFrame(Frame(data) + rest) == Some((data, rest))
  {
    var s := Frame(data) + rest;
    assert s[..8] == Length8(|data|);
    Length8RoundTrip(|data|);
    assert s[8..8 + |data|] == data && s[8 + |data|..] == rest;
  }

  lemma DecodeFirst(input: Input, rest: Bytes)
    requires |input.path| < LIMIT && |input.content| < LIMIT
    ensures DecodeFrames(Frame(input.path) + (Frame(input.content) + rest)) ==
            if DecodeFrames(rest).None? then None else Some([input] + DecodeFrames(rest).value)
  {
    ReadFrameOfFrame(input.path, Frame(input.content) + rest);
    ReadFrameOfFrame(input.content, rest);
  }

  /** The stream decodes to the (path, content) list it was made from. */
  lemma {:induction false} DecodeOfStream(inputs: seq<Input>)
    requires Encodable(inputs)
    ensures DecodeFrames(Frames(inputs)) == Some(inputs)
  {
    if inputs != [] {
      var rest := Frames(inputs[1..]);
      DecodeOfStream(inputs[1..]);
      DecodeFirst(inputs[0], rest);
      assert inputs == [inputs[0]] + inputs[1..];
    }
  }

  lemma StreamInjective(a: seq<Input>, b: seq<Input>)
    requires Encodable(a) && Encodable(b) && Stream(a) == Stream(b)
    ensures a == b
  {
    assert Stream(a)[|Domain()|..] == Frames(a) && Stream(b)[|Domain()|..] == Frames(b);
    DecodeOfStream(a);
    DecodeOfStream(b);
  }

  // ----- Hashing a set of files

  type Files = map<Path, Bytes>

  predicate StaysInside(p: Path) { (p == [] || p[0] != SLASH) && [DOT, DOT] !in Split(p, SLASH) }

  /** A path joined from parts leaves the repository exactly when it starts with a slash or some part is `..`. */
  lemma StaysInsideIff(parts: seq<Bytes>)
    requires parts != [] && Unbroken(parts, SLASH)
    ensures StaysInside(Join(parts, SLASH)) <==>
            (Join(parts, SLASH) == [] || Join(parts, SLASH)[0] != SLASH) && [DOT, DOT] !in parts
  {
    SplitOfJoin(parts, SLASH);
  }

  predicate Hashable(files: Files, p: Path) {
    StaysInside(p) && p in files && |p| < LIMIT && |files[p]| < LIMIT
  }

  function Distinct(paths: seq<Path>): (d: seq<Path>)
    ensures forall p :: p in d <==> p in paths
    ensures DistinctKeys(PathKey, d)
  {
    if paths == [] then []
    else
      var n := |paths| - 1;
      var d := Distinct(paths[..n]);
      assert paths == paths[..n] + [paths[n]];
      if paths[n] in d then d else d + [paths[n]]
  }

  /** `sorted(set(paths), key=as_posix)`. */
  function Normalized(paths: seq<Path>): seq<Path> { Sort(PathKey, Distinct(paths)) }

  lemma NormalizedOrder(paths: seq<Path>)
    ensures Ascending(PathKey, Normalized(paths)) && forall p :: p in Normalized(paths) <==> p in paths
  {
    SortAscending(PathKey, Distinct(paths));
    forall p ensures p in Normalized(paths) <==> p in paths {
      MultisetMember(Normalized(paths), p);
      MultisetMember(Distinct(paths), p);
    }
  }

  function ContentOf(files: Files, p: Path): Bytes { if p in files then files[p] else [] }

  function Inputs(files: Files, paths: seq<Path>): (inputs: seq<Input>)
    ensures |inputs| == |paths| && forall i | 0 <= i < |paths| ::
            inputs[i] == Input(paths[i], ContentOf(files, paths[i]))
  {
    seq(|paths|, i requires 0 <= i < |paths| => Input(paths[i], ContentOf(files, paths[i])))
  }

  ghost predicate AllHashable(files: Files, paths: seq<Path>) { forall p | p in paths :: Hashable(files, p) }

  /** What the digest is fed. Refused when a path leaves the repository, is no file, or is too long for its length
      field. */
  method HashFiles(files: Files, paths: seq<Path>) returns (r: Result<Bytes>)
    ensures r.Err? <==>
            exists p :: p in paths && (!StaysInside(p) || p !in files || |p| >= LIMIT || |files[p]| >= LIMIT)
    ensures r.Ok? ==> r.value == Stream(Inputs(files, Normalized(paths)))
  {
    var normalized := Normalized(paths);
    NormalizedOrder(paths);
    r := FeedAll(files, normalized);
  }

  method FeedAll(files: Files, paths: seq<Path>) returns (r: Result<Bytes>)
    ensures r.Ok? <==> AllHashable(files, paths)
    ensures r.Ok? ==> r.value == Stream(Inputs(files, paths))
  {
    var digest := Domain();
    for i := 0 to |paths|
      invariant forall k | 0 <= k < i :: Hashable(files, paths[k])
      invariant digest == Stream(Inputs(files, paths[..i]))
    {
      var p := paths[i];
      if !Hashable(files, p) { return Err; }
      NextInput(files, paths, i);
      digest := FeedFile(digest, p, files[p]);
    }
    assert paths[..|paths|] == paths;
    return Ok(digest);
  }

  /** The four updates one file gives the digest. */
  method FeedFile(fed: Bytes, path: Path, content: Bytes) returns (digest: Bytes)
    ensures digest == fed + Length8(|path|) + path + Length8(|content|) + content
  {
    digest := fed + Length8(|path|);
    digest := digest + path;
    digest := digest + Length8(|content|);
    digest := digest + content;
  }

  lemma NextInput(files: Files, paths: seq<Path>, i: nat)
    requires i < |paths| && Hashable(files, paths[i])
    ensures Stream(Inputs(files, paths[..i + 1])) ==
            Stream(Inputs(files, paths[..i])) + Length8(|paths[i]|) + paths[i] + Length8(|files[paths[i]]|)
              + files[paths[i]]
  {
    var before, last := Inputs(files, paths[..i]), Input(paths[i], files[paths[i]]);
    assert Inputs(files, paths[..i + 1]) == before + [last];
    FramesAppend(before, last);
  }

  lemma {:induction false} FramesAppend(inputs: seq<Input>, last: Input)
    ensures Frames(inputs + [last]) == Frames(inputs) + (Frame(last.path) + Frame(last.content))
  {
    if inputs == [] {
      assert ([] + [last])[1..] == [];
      assert Frames([last]) == Frame(last.path) + (Frame(last.content) + Frames([]));
    } else {
      FramesAppend(inputs[1..], last);
      assert (inputs + [last])[1..] == inputs[1..] + [last];
    }
  }

  ghost predicate SameSources(files: Files, files': Files, paths: seq<Path>, paths': seq<Path>) {
    (forall p :: p in paths <==> p in paths') && forall p | p in paths :: ContentOf(files, p) == ContentOf(files', p)
  }

  /** Order and duplicates of the list do not matter. */
  lemma FingerprintIgnoresOrder(files: Files, files': Files, paths: seq<Path>, paths': seq<Path>)
    requires SameSources(files, files', paths, paths')
    ensures Stream(Inputs(files, Normalized(paths))) == Stream(Inputs(files', Normalized(paths')))
  {
    NormalizedOrder(paths);
    NormalizedOrder(paths');
    AscendingUnique(PathKey, Normalized(paths), Normalized(paths'));
    SameContents(files, files', Normalized(paths));
  }

  lemma SameContents(files: Files, files': Files, paths: seq<Path>)
    requires forall p | p in paths :: ContentOf(files, p) == ContentOf(files', p)
    ensures Inputs(files, paths) == Inputs(files', paths)
  {}

  lemma StreamPins(files: Files, files': Files, paths: seq<Path>, paths': seq<Path>)
    requires AllHashable(files, paths) && AllHashable(files', paths')
    requires Stream(Inputs(files, Normalized(paths))) == Stream(Inputs(files', Normalized(paths')))
    ensures SameSources(files, files', paths, paths')
  {
    var a, b := Normalized(paths), Normalized(paths');
    HashableEncodable(files, paths);
    HashableEncodable(files', paths');
    StreamInjective(Inputs(files, a), Inputs(files', b));
    SameInputs(files, files', a, b);
    NormalizedOrder(paths);
    NormalizedOrder(paths');
  }

  /** Which files, and every byte of them, do. */
  lemma FingerprintPinsSources(files: Files, files': Files, paths: seq<Path>, paths': seq<Path>)
    requires AllHashable(files, paths) && AllHashable(files', paths')
    ensures Stream(Inputs(files, Normalized(paths))) == Stream(Inputs(files', Normalized(paths'))) <==>
            SameSources(files, files', paths, paths')
  {
    if SameSources(files, files', paths, paths') {
      FingerprintIgnoresOrder(files, files', paths, paths');
    } else if Stream(Inputs(files, Normalized(paths))) == Stream(Inputs(files', Normalized(paths'))) {
      StreamPins(files, files', paths, paths');
    }
  }

  lemma HashableEncodable(files: Files, paths: seq<Path>)
    requires AllHashable(files, paths)
    ensures Encodable(Inputs(files, Normalized(paths)))
  {
    NormalizedOrder(paths);
    var n := Normalized(paths);
    forall i | 0 <= i < |n| ensures |n[i]| < LIMIT && |ContentOf(files, n[i])| < LIMIT {
      assert n[i] in paths;
    }
  }

  lemma SameInputs(files: Files, files': Files, a: seq<Path>, b: seq<Path>)
    requires Inputs(files, a) == Inputs(files', b)
    ensures a == b && forall p | p in a :: ContentOf(files, p) == ContentOf(files', p)
  {}
}
