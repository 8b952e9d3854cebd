/** What equal Authenticode normal forms pin down, and which files are signings of an unsigned image. */
module AuthenticodeSigning {
  import opened Prelude
  import opened PeImage
  import opened Paths

  // ----- The normal form

  lemma HeaderOf(d: Bytes, signed: bool) returns (h: Header)
    requires Accepted(d, signed)
    ensures Parse(d) == Some(h)
    ensures 0x40 <= h.ChecksumAt() && h.ChecksumAt() + 4 < h.front.securityAt
            && h.front.securityAt + 8 <= h.front.optionalEnd
    ensures h.front.optionalEnd < h.imageEnd <= |d| && h.imageEnd <= |NormalForm(d)| <= |d|
    ensures NormalForm(d) == ZeroedAt(h, d, if signed then CertificateOffset(d, h) else |d|)
  {
    HeaderGeometry(d);
    h := Parse(d).value;
  }

  /** The stub, and with it the normal form, parses to the header of the image itself. */
  lemma NormalFormHeader(d: Bytes, signed: bool, e: Bytes)
    requires Accepted(d, signed)
    requires Parse(d).value.imageEnd <= |e| && e <= NormalForm(d)
    ensures Parse(e) == Parse(d)
  {
    var h := HeaderOf(d, signed);
    ParseTransfers(d, e, h);
  }

  /** Every normal form is itself an accepted unsigned image, and its own normal form. */
  lemma NormalFormIsUnsigned(d: Bytes, signed: bool)
    requires Accepted(d, signed)
    ensures Accepted(NormalForm(d), false)
    ensures NormalForm(NormalForm(d)) == NormalForm(d)
  {
    var h := HeaderOf(d, signed);
    var n := NormalForm(d);
    NormalFormHeader(d, signed, n);
    HeaderGeometry(n);
    assert forall i | h.front.securityAt <= i < h.front.securityAt + 8 :: n[i] == 0;
    ZeroField(n, h.front.securityAt);
    ZeroField(n, h.front.securityAt + 4);
    ZeroedTwice(h, d, |n|);
  }

  lemma ZeroedTwice(h: Header, d: Bytes, n: nat)
    requires n <= |d|
    ensures ZeroedAt(h, ZeroedAt(h, d, n), n) == ZeroedAt(h, d, n)
  {}

  lemma ZeroField(d: Bytes, i: nat)
    requires i + 4 <= |d| && forall k | i <= k < i + 4 :: d[k] == 0
    ensures U32(d, i) == 0
  {}

  /** Equal stubs pin every header field and every byte of the image outside the two regions. */
  lemma StubPinsImage(d: Bytes, signed: bool, e: Bytes, signed': bool)
    requires Accepted(d, signed) && Accepted(e, signed')
    requires NormalForm(d)[..Parse(d).value.imageEnd] == NormalForm(e)[..Parse(e).value.imageEnd]
    ensures Parse(d) == Parse(e)
    ensures Parse(d).value.imageEnd <= |d| && Parse(d).value.imageEnd <= |e|
    ensures AgreeOutside(Parse(d).value, d, e, Parse(d).value.imageEnd)
  {
    var h := HeaderOf(d, signed);
    var h' := HeaderOf(e, signed');
    var stub := NormalForm(d)[..h.imageEnd];
    NormalFormHeader(d, signed, stub);
    NormalFormHeader(e, signed', stub);
    forall i | 0 <= i < h.imageEnd && !Excluded(h, i) ensures d[i] == e[i] {
      assert stub[i] == NormalForm(d)[i] == NormalForm(e)[i];
    }
  }

  // ----- Certificate tables

  function LE32(n: nat): Bytes
    requires n < 0x1_0000_0000
  {
    [n % 0x100, n / 0x100 % 0x100, n / 0x1_0000 % 0x100, n / 0x100_0000]
  }

  lemma DivideTwice(n: nat)
    ensures n / 0x100 / 0x100 == n / 0x1_0000 && n / 0x1_0000 / 0x100 == n / 0x100_0000
  {}

  lemma LE32Value(n: nat)
    requires n < 0x1_0000_0000
    ensures U32(LE32(n), 0) == n
  {
    DivideTwice(n);
    var q1, q2, q3 := n / 0x100, n / 0x1_0000, n / 0x100_0000;
    assert n == n % 0x100 + 0x100 * q1 && q1 == q1 % 0x100 + 0x100 * q2 && q2 == q2 % 0x100 + 0x100 * q3;
  }

  lemma Digits(a: Byte, b: Byte, c: Byte, e: Byte)
    ensures var n: int := a as int + 0x100 * (b as int + 0x100 * (c as int + 0x100 * e as int));
      0 <= n < 0x1_0000_0000 && n % 0x100 == a && n / 0x100 % 0x100 == b && n / 0x1_0000 % 0x100 == c
        && n / 0x100_0000 == e
  {
    var r2: int := c as int + 0x100 * e as int;
    var r1: int := b as int + 0x100 * r2;
    var n: int := a as int + 0x100 * r1;
    assert n / 0x100 == r1 && n % 0x100 == a;
    assert r1 / 0x100 == r2 && r1 % 0x100 == b;
    assert r2 / 0x100 == e && r2 % 0x100 == c;
    assert n / 0x1_0000 == r1 / 0x100 && n / 0x100_0000 == r2 / 0x100;
  }

  lemma LE32Bytes(d: Bytes, i: nat)
    requires i + 4 <= |d|
    ensures U32(d, i) < 0x1_0000_0000 && LE32(U32(d, i)) == d[i..i + 4]
  {
    Digits(d[i], d[i + 1], d[i + 2], d[i + 3]);
    assert U32(d, i) == d[i] as int + 0x100 * (d[i + 1] as int + 0x100 * (d[i + 2] as int + 0x100 * d[i + 3] as int));
  }

  lemma U32At(d: Bytes, prefix: nat, n: nat)
    requires n < 0x1_0000_0000 && prefix + 4 <= |d| && d[prefix..prefix + 4] == LE32(n)
    ensures U32(d, prefix) == n
  {
    LE32Value(n);
    var f := d[prefix..prefix + 4];
    assert d[prefix] == f[0] && d[prefix + 1] == f[1] && d[prefix + 2] == f[2] && d[prefix + 3] == f[3];
  }

  function Zeros(n: nat): Bytes { seq(n, _ => 0) }

  /** The padding after an entry of `n` bytes. */
  function Pad(n: nat): nat { RoundUp8(n) - n }

  /** A WIN_CERTIFICATE entry: length, revision 0x0200, type 0x0002, content, zero padding to 8 bytes. */
  function Entry(content: Bytes): Bytes
    requires 8 + |content| < 0x1_0000_0000
  {
    LE32(8 + |content|) + [0x00, 0x02] + [0x02, 0x00] + content + Zeros(Pad(8 + |content|))
  }

  predicate Fits(contents: seq<Bytes>) {
    forall i | 0 <= i < |contents| :: 8 + |contents[i]| < 0x1_0000_0000
  }

  function Table(contents: seq<Bytes>): Bytes
    requires Fits(contents)
  {
    if contents == [] then [] else Entry(contents[0]) + Table(contents[1..])
  }

  lemma RoundUpAligned(n: nat)
    ensures RoundUp8(n) % 8 == 0 && n <= RoundUp8(n) < n + 8
  {
    var eighths := (n + 7) / 8;
    assert RoundUp8(n) == eighths * 8;
  }

  lemma SumAligned(a: nat, b: nat)
    requires a % 8 == 0 && b % 8 == 0
    ensures (a + b) % 8 == 0
  {}

  lemma {:induction false} TableAligned(contents: seq<Bytes>)
    requires Fits(contents)
    ensures |Table(contents)| % 8 == 0 && (contents != [] ==> |Table(contents)| >= 8)
  {
    if contents != [] {
      TableAligned(contents[1..]);
      RoundUpAligned(8 + |contents[0]|);
      assert |Entry(contents[0])| == RoundUp8(8 + |contents[0]|);
      SumAligned(|Entry(contents[0])|, |Table(contents[1..])|);
    }
  }

  lemma RoundUpShift(cursor: nat, n: nat)
    requires cursor % 8 == 0
    ensures RoundUp8(cursor + n) == cursor + n + Pad(n) && 0 <= Pad(n) < 8
  {}

  /** What the walker checks of one entry that ends, padding included, at `next`. */
  predicate EntryOk(d: Bytes, cursor: nat, length: nat, next: nat) {
    && cursor + 8 <= cursor + length <= next <= |d| && next == RoundUp8(cursor + length)
    && U32(d, cursor) == length && U16(d, cursor + 4) == 0x0200 && U16(d, cursor + 6) == 0x0002
    && AllZero(d[cursor + length..next])
  }

  lemma EntryParts(content: Bytes)
    requires 8 + |content| < 0x1_0000_0000
    ensures var e, length := Entry(content), 8 + |content|;
      && |e| == RoundUp8(length) >= length && e[..4] == LE32(length)
      && e[4] == 0 && e[5] == 2 && e[6] == 2 && e[7] == 0
      && forall k | length <= k < |e| :: e[k] == 0
  {
    RoundUpAligned(8 + |content|);
  }

  lemma EntryStep(d: Bytes, cursor: nat, content: Bytes, next: nat)
    requires cursor % 8 == 0 && 8 + |content| < 0x1_0000_0000
    requires next == cursor + |Entry(content)| <= |d| && d[cursor..next] == Entry(content)
    ensures EntryOk(d, cursor, 8 + |content|, next) && next % 8 == 0
  {
    var e, length := Entry(content), 8 + |content|;
    EntryParts(content);
    RoundUpShift(cursor, length);
    RoundUpAligned(cursor + length);
    assert forall k | 0 <= k < |e| :: d[cursor + k] == e[k];
    assert d[cursor..cursor + 4] == e[..4];
    U32At(d, cursor, length);
    assert d[cursor + 4] == e[4] && d[cursor + 5] == e[5] && d[cursor + 6] == e[6] && d[cursor + 7] == e[7];
    var padding := d[cursor + length..next];
    forall i | 0 <= i < |padding| ensures padding[i] == 0 {
      assert padding[i] == d[cursor + (length + i)] == e[length + i];
    }
  }

  lemma TableStep(d: Bytes, cursor: nat, contents: seq<Bytes>)
    requires Fits(contents) && contents != [] && cursor <= |d| && d[cursor..] == Table(contents)
    ensures var next := cursor + |Entry(contents[0])|;
      next <= |d| && d[cursor..next] == Entry(contents[0]) && d[next..] == Table(contents[1..])
  {
    var e := Entry(contents[0]);
    assert d[cursor..][..|e|] == e;
    assert d[cursor..][|e|..] == Table(contents[1..]);
  }

  lemma WalkStep(d: Bytes, cursor: nat, length: nat, next: nat)
    requires EntryOk(d, cursor, length, next) && WalkOk(d, next)
    ensures WalkOk(d, cursor)
  {}

  /** Completeness of the walk: every concatenation of entries is accepted. */
  lemma {:induction false} WalkAccepts(d: Bytes, cursor: nat, contents: seq<Bytes>)
    requires Fits(contents) && cursor % 8 == 0 && cursor <= |d| && d[cursor..] == Table(contents)
    ensures WalkOk(d, cursor)
    decreases |contents|
  {
    if contents != [] {
      var next := cursor + |Entry(contents[0])|;
      TableStep(d, cursor, contents);
      EntryStep(d, cursor, contents[0], next);
      WalkAccepts(d, next, contents[1..]);
      WalkStep(d, cursor, 8 + |contents[0]|, next);
    }
  }

  lemma WalkOpens(d: Bytes, cursor: nat) returns (length: nat, next: nat)
    requires WalkOk(d, cursor) && cursor % 8 == 0 && cursor < |d|
    ensures 8 <= length < 0x1_0000_0000 && EntryOk(d, cursor, length, next) && WalkOk(d, next)
    ensures next % 8 == 0 && next == cursor + length + Pad(length)
  {
    length := U32(d, cursor);
    next := RoundUp8(cursor + length);
    RoundUpShift(cursor, length);
    RoundUpAligned(cursor + length);
    LE32Bytes(d, cursor);
  }

  lemma TableGrows(content: Bytes, rest: seq<Bytes>)
    requires 8 + |content| < 0x1_0000_0000 && Fits(rest)
    ensures Fits([content] + rest) && Table([content] + rest) == Entry(content) + Table(rest)
  {
    assert ([content] + rest)[1..] == rest;
  }

  /** Soundness of the walk: what it accepts is a concatenation of entries. */
  lemma {:induction false} WalkYieldsTable(d: Bytes, cursor: nat) returns (contents: seq<Bytes>)
    requires WalkOk(d, cursor) && cursor % 8 == 0 && cursor <= |d|
    ensures Fits(contents) && Table(contents) == d[cursor..]
    ensures cursor < |d| ==> contents != []
    decreases |d| - cursor
  {
    if cursor == |d| {
      contents := [];
    } else {
      var length, next := WalkOpens(d, cursor);
      var rest := WalkYieldsTable(d, next);
      contents := EntryBefore(d, cursor, length, next, rest);
    }
  }

  lemma EntryBefore(d: Bytes, cursor: nat, length: nat, next: nat, rest: seq<Bytes>) returns (contents: seq<Bytes>)
    requires 8 <= length < 0x1_0000_0000 && EntryOk(d, cursor, length, next) && next == cursor + length + Pad(length)
    requires Fits(rest) && Table(rest) == d[next..]
    ensures contents != [] && Fits(contents) && Table(contents) == d[cursor..]
  {
    var content := d[cursor + 8..cursor + length];
    EntryBytes(d, cursor, length, next);
    TableGrows(content, rest);
    contents := [content] + rest;
    Cut(d, cursor, next, |d|);
  }

  lemma Cut(d: Bytes, i: nat, j: nat, k: nat)
    requires i <= j <= k <= |d|
    ensures d[i..k] == d[i..j] + d[j..k]
  {}

  lemma HeadCuts(d: Bytes, i: nat)
    requires i + 8 <= |d|
    ensures d[i..i + 8] == d[i..i + 4] + d[i + 4..i + 6] + d[i + 6..i + 8]
  {
    Cut(d, i, i + 6, i + 8);
    Cut(d, i, i + 4, i + 6);
  }

  lemma EntryOf(head: Bytes, content: Bytes, padding: Bytes)
    requires 8 + |content| < 0x1_0000_0000
    requires head == LE32(8 + |content|) + [0x00, 0x02] + [0x02, 0x00] && padding == Zeros(Pad(8 + |content|))
    ensures head + content + padding == Entry(content)
  {}

  lemma EntryBytes(d: Bytes, cursor: nat, length: nat, next: nat)
    requires 8 <= length < 0x1_0000_0000 && EntryOk(d, cursor, length, next) && next == cursor + length + Pad(length)
    ensures d[cursor..next] == Entry(d[cursor + 8..cursor + length])
  {
    LE32Bytes(d, cursor);
    assert d[cursor + 4..cursor + 6] == [0x00, 0x02] && d[cursor + 6..cursor + 8] == [0x02, 0x00];
    HeadCuts(d, cursor);
    assert d[cursor + length..next] == Zeros(Pad(length));
    Cut(d, cursor, cursor + length, next);
    Cut(d, cursor, cursor + 8, cursor + length);
    EntryOf(d[cursor..cursor + 8], d[cursor + 8..cursor + length], d[cursor + length..next]);
  }

  // ----- Signing

  /** What a signer may produce from `u`: a checksum, the pointer to the table, and the table itself at the end. */
  ghost predicate IsSigning(u: Bytes, h: Header, s: Bytes, contents: seq<Bytes>)
    requires h.front.securityAt + 8 <= |u| && Fits(contents)
  {
    var table := Table(contents);
    && contents != [] && |u| % 8 == 0 && |u| < 0x1_0000_0000 && |table| < 0x1_0000_0000
    && |s| == |u| + |table| && s[|u|..] == table
    && U32(s, h.front.securityAt) == |u| && U32(s, h.front.securityAt + 4) == |table|
    && AgreeOutside(h, u, s, |u|)
  }

  lemma SigningTableOk(u: Bytes, h: Header, s: Bytes, contents: seq<Bytes>)
    requires h.front.securityAt + 8 <= h.imageEnd <= |u| && Fits(contents) && IsSigning(u, h, s, contents)
    ensures HasSignature(s, h) && TableOk(s, h) && CertificateOffset(s, h) == |u|
  {
    TableAligned(contents);
    WalkAccepts(s, |u|, contents);
  }

  lemma ZeroedSame(h: Header, u: Bytes, s: Bytes, n: nat)
    requires n <= |u| && n <= |s| && AgreeOutside(h, u, s, n)
    ensures ZeroedAt(h, s, n) == ZeroedAt(h, u, n)
  {}

  lemma ParsedAndSigned(s: Bytes, h: Header)
    requires Parse(s) == Some(h) && h.front.securityAt + 8 <= |s| && HasSignature(s, h) && TableOk(s, h)
    ensures Accepted(s, true) && CertificateOffset(s, h) <= |s|
    ensures NormalForm(s) == ZeroedAt(h, s, CertificateOffset(s, h))
  {
    HeaderGeometry(s);
  }

  /** Every signing of an accepted unsigned image is accepted and keeps its normal form. */
  lemma SigningAccepted(u: Bytes, h: Header, s: Bytes, contents: seq<Bytes>)
    requires Accepted(u, false) && Parse(u) == Some(h)
    requires h.front.securityAt + 8 <= |u| && Fits(contents) && IsSigning(u, h, s, contents)
    ensures Accepted(s, true) && NormalForm(s) == NormalForm(u)
  {
    var h' := HeaderOf(u, false);
    ParseTransfers(u, s, h);
    SigningTableOk(u, h, s, contents);
    ParsedAndSigned(s, h);
    ZeroedSame(h, u, s, |u|);
  }

  lemma SameNormalForm(u: Bytes, s: Bytes) returns (h: Header)
    requires Accepted(u, false) && Accepted(s, true) && NormalForm(u) == NormalForm(s)
    ensures Parse(u) == Parse(s) == Some(h)
    ensures h.front.securityAt + 8 <= |u| <= |s| && CertificateOffset(s, h) == |u| && AgreeOutside(h, u, s, |u|)
  {
    h := HeaderOf(u, false);
    var h' := HeaderOf(s, true);
    NormalFormHeader(u, false, NormalForm(u));
    NormalFormHeader(s, true, NormalForm(s));
    forall i | 0 <= i < |u| && !Excluded(h, i) ensures u[i] == s[i] {
      assert NormalForm(u)[i] == u[i] && NormalForm(s)[i] == s[i];
    }
  }

  /** Equal normal forms leave nothing else: an accepted signed file with the normal form of `u` is a signing of `u`. */
  lemma SignedIsSigning(u: Bytes, s: Bytes) returns (h: Header, contents: seq<Bytes>)
    requires Accepted(u, false) && Accepted(s, true) && NormalForm(u) == NormalForm(s)
    ensures Parse(u) == Parse(s) == Some(h)
    ensures h.front.securityAt + 8 <= |u| && Fits(contents) && IsSigning(u, h, s, contents)
  {
    h := SameNormalForm(u, s);
    assert TableOk(s, h);
    LE32Bytes(s, h.front.securityAt);
    LE32Bytes(s, h.front.securityAt + 4);
    contents := WalkYieldsTable(s, |u|);
  }

  ghost predicate SigningOf(u: Bytes, s: Bytes) {
    && Accepted(u, false)
    && (HeaderGeometry(u);
        exists contents | Fits(contents) :: IsSigning(u, Parse(u).value, s, contents))
  }

  /** The comparison the contract makes, in both directions. */
  lemma EquivalentIffSigning(u: Bytes, s: Bytes)
    ensures SigningOf(u, s) <==> Accepted(u, false) && Accepted(s, true) && NormalForm(u) == NormalForm(s)
  {
    if SigningOf(u, s) {
      HeaderGeometry(u);
      var contents :| Fits(contents) && IsSigning(u, Parse(u).value, s, contents);
      SigningAccepted(u, Parse(u).value, s, contents);
    }
    if Accepted(u, false) && Accepted(s, true) && NormalForm(u) == NormalForm(s) {
      var h, contents := SignedIsSigning(u, s);
    }
  }

  // ----- Which images can be signed

  /** `u` with a pointer to the table of these certificates, and that table at the end; the checksum is left as it
      is. */
  function Signed(u: Bytes, securityAt: nat, contents: seq<Bytes>): Bytes
    requires securityAt + 8 <= |u| < 0x1_0000_0000 && Fits(contents) && |Table(contents)| < 0x1_0000_0000
  {
    u[..securityAt] + LE32(|u|) + LE32(|Table(contents)|) + u[securityAt + 8..] + Table(contents)
  }

  /** Four pieces and a field in front of them, each where its length puts it. */
  lemma Pieces(front: Bytes, a: Bytes, b: Bytes, rest: Bytes, table: Bytes)
    requires |a| == |b| == 4
    ensures var s, n := front + a + b + rest + table, |front| + 8 + |rest|;
      && |s| == n + |table| && s[n..] == table && s[|front|..|front| + 4] == a && s[|front| + 4..|front| + 8] == b
      && (forall i | 0 <= i < |front| :: s[i] == front[i])
      && forall i | |front| + 8 <= i < n :: s[i] == rest[i - |front| - 8]
  {}

  lemma SignedParts(u: Bytes, at: nat, contents: seq<Bytes>)
    requires at + 8 <= |u| < 0x1_0000_0000 && Fits(contents) && |Table(contents)| < 0x1_0000_0000
    ensures var s, table := Signed(u, at, contents), Table(contents);
      && |s| == |u| + |table| && s[|u|..] == table && U32(s, at) == |u| && U32(s, at + 4) == |table|
      && forall i | 0 <= i < |u| && !(at <= i < at + 8) :: s[i] == u[i]
  {
    var s := Signed(u, at, contents);
    Pieces(u[..at], LE32(|u|), LE32(|Table(contents)|), u[at + 8..], Table(contents));
    U32At(s, at, |u|);
    U32At(s, at + 4, |Table(contents)|);
  }

  lemma SignedIsSigningFor(u: Bytes, h: Header, contents: seq<Bytes>)
    requires h.front.securityAt + 8 <= |u| && |u| % 8 == 0 && |u| < 0x1_0000_0000
    requires contents != [] && Fits(contents) && |Table(contents)| < 0x1_0000_0000
    ensures IsSigning(u, h, Signed(u, h.front.securityAt, contents), contents)
  {
    SignedParts(u, h.front.securityAt, contents);
  }

  /** Any certificates at all can be attached to an accepted unsigned image that is aligned and below 4 GiB. */
  lemma SignedIsSigningOf(u: Bytes, h: Header, contents: seq<Bytes>)
    requires Accepted(u, false) && Parse(u) == Some(h) && |u| % 8 == 0 && |u| < 0x1_0000_0000
    requires contents != [] && Fits(contents) && |Table(contents)| < 0x1_0000_0000
    ensures h.front.securityAt + 8 <= |u|
    ensures SigningOf(u, Signed(u, h.front.securityAt, contents))
  {
    HeaderGeometry(u);
    SignedIsSigningFor(u, h, contents);
  }

  ghost predicate Signable(u: Bytes) { exists s :: SigningOf(u, s) }

  /** An accepted unsigned image has an accepted signing exactly when its length is a multiple of 8 and below 4 GiB. */
  lemma SignableIffAligned(u: Bytes)
    requires Accepted(u, false)
    ensures Signable(u) <==> |u| % 8 == 0 && |u| < 0x1_0000_0000
  {
    if |u| % 8 == 0 && |u| < 0x1_0000_0000 {
      var contents: seq<Bytes> := [[]];
      EntryParts([]);
      assert Table(contents) == Entry([]) + Table(contents[1..]);
      var h := HeaderOf(u, false);
      SignedIsSigningOf(u, h, contents);
    }
  }

  /** In terms of the comparison: against an image of any other length every signed file is refused. */
  lemma UnalignedHasNoSigning(u: Bytes, s: Bytes)
    requires |u| % 8 != 0 || |u| >= 0x1_0000_0000
    ensures !SigningOf(u, s)
    ensures !(Accepted(u, false) && Accepted(s, true) && NormalForm(u) == NormalForm(s))
  {
    EquivalentIffSigning(u, s);
  }

  /** The bytes of a small PE32 image: headers, sixteen directories cut off after the fifth, one empty section. */
  function TinyByte(i: nat): Byte {
    match i
    case 0 => 0x4D
    case 1 => 0x5A
    case 60 => 0x40 // the PE header's offset
    case 64 => 0x50
    case 65 => 0x45
    case 70 => 1    // one section
    case 84 => 136  // the optional header's size
    case 88 => 0x0B // PE32
    case 89 => 0x01
    case 180 => 5   // directories
    case _ => 0
  }

  /** That image, and `extra` zero bytes behind it. */
  function TinyImage(extra: nat): Bytes { seq(264 + extra, i requires 0 <= i => TinyByte(i)) }

  lemma TinyFront(extra: nat)
    ensures ParseFront(TinyImage(extra)) == Some(Front(64, 1, 224, 0x10B, 5, 216))
  {
    var d := TinyImage(extra);
    assert d[..2] == [0x4D, 0x5A] && d[64..68] == [0x50, 0x45, 0, 0];
  }

  lemma TinyAccepted(extra: nat)
    ensures Accepted(TinyImage(extra), false)
  {
    var d := TinyImage(extra);
    TinyFront(extra);
    assert SectionFits(d, 224, 0);
    assert Parse(d).Some?;
    HeaderGeometry(d);
  }

  /** The parser accepts both images unsigned; one byte more or less decides whether a signing can be accepted. */
  lemma OneByteDecides()
    ensures Accepted(TinyImage(0), false) && Signable(TinyImage(0))
    ensures Accepted(TinyImage(1), false) && !Signable(TinyImage(1))
  {
    TinyAccepted(0);
    TinyAccepted(1);
    SignableIffAligned(TinyImage(0));
    SignableIffAligned(TinyImage(1));
  }

  // ----- A 64-bit image and a signed copy of it

  /** The bytes of a PE32+ image with one section of data and a base relocation directory. */
  function WideByte(i: nat): Byte {
    match i
    case 0 => 0x4D
    case 1 => 0x5A
    case 60 => 0x40 // the PE header's offset
    case 64 => 0x50
    case 65 => 0x45
    case 70 => 1    // one section
    case 84 => 240  // the optional header's size
    case 88 => 0x0B // PE32+
    case 89 => 0x02
    case 196 => 16  // directories
    case 240 => 1   // the base relocations, behind the security entry
    case 244 => 8
    case 344 => 8   // the section's raw size
    case 348 => 0x70 // and raw offset: 368
    case 349 => 0x01
    case 370 => 0x90
    case _ => 0
  }

  /** The first `n` bytes of the image, which is 376 bytes long. */
  function WideImage(n: nat): Bytes { seq(n, i requires 0 <= i => WideByte(i)) }

  /** A checksum, the pointer to a table of 16 bytes, and the table. */
  function WideSignedByte(i: nat): Byte {
    match i
    case 152 => 7    // the checksum
    case 232 => 0x78 // the security entry: 376
    case 233 => 0x01
    case 236 => 16
    case 376 => 16   // the certificate's length, revision and type
    case 381 => 0x02
    case 382 => 0x02
    case 387 => 0xA5 // its content
    case _ => if i < 376 then WideByte(i) else 0
  }

  function WideSigned(): Bytes { seq(392, i requires 0 <= i => WideSignedByte(i)) }

  const WIDE_HEADER := Header(Front(64, 1, 328, 0x20B, 16, 232), 376)

  lemma WideFront(n: nat)
    requires n >= 368
    ensures ParseFront(WideImage(n)) == Some(WIDE_HEADER.front)
    ensures U32(WideImage(n), 344) == 8 && U32(WideImage(n), 348) == 368
  {
    var d := WideImage(n);
    assert d[..2] == [0x4D, 0x5A] && d[64..68] == [0x50, 0x45, 0, 0];
  }

  lemma WideParsed()
    ensures Parse(WideImage(376)) == Some(WIDE_HEADER)
  {
    var d := WideImage(376);
    WideFront(376);
    assert SectionFits(d, 328, 0);
    assert SectionsEnd(d, 328, 1, 1) == Max(SectionsEnd(d, 328, 1, 0), 376);
  }

  /** Without the last byte of the section's data the image is no image. */
  lemma WideCutOff()
    ensures Parse(WideImage(375)).None?
  {
    WideFront(375);
    assert !SectionFits(WideImage(375), 328, 0);
  }

  lemma WideUnsigned()
    ensures U32(WideImage(376), 232) == 0 && U32(WideImage(376), 236) == 0
  {}

  /** The image is accepted as unsigned, although the directory behind the security entry is in use. */
  lemma WideAccepted()
    ensures Parse(WideImage(376)) == Some(WIDE_HEADER) && Accepted(WideImage(376), false)
  {
    WideParsed();
    WideUnsigned();
    HeaderGeometry(WideImage(376));
  }

  lemma WideTable()
    ensures Fits([WideSigned()[384..]]) && WideSigned()[376..] == Table([WideSigned()[384..]])
  {
    var content := WideSigned()[384..];
    var contents := [content];
    EntryParts(content);
    assert Table(contents) == Entry(content) + Table(contents[1..]);
    assert LE32(16) == [16, 0, 0, 0] && Pad(16) == 0;
    assert WideSigned()[376..384] == [16, 0, 0, 0, 0, 2, 2, 0];
    assert WideSigned()[376..] == WideSigned()[376..384] + content;
  }

  lemma WideCopy()
    ensures |WideSigned()| == 392 && U32(WideSigned(), 232) == 376 && U32(WideSigned(), 236) == 16
    ensures AgreeOutside(WIDE_HEADER, WideImage(376), WideSigned(), 376)
  {}

  lemma WideSigns()
    ensures Fits([WideSigned()[384..]])
    ensures IsSigning(WideImage(376), WIDE_HEADER, WideSigned(), [WideSigned()[384..]])
  {
    WideTable();
    WideCopy();
  }

  lemma SigningIs(u: Bytes, h: Header, s: Bytes, contents: seq<Bytes>)
    requires Accepted(u, false) && Parse(u) == Some(h)
    requires h.front.securityAt + 8 <= |u| && Fits(contents) && IsSigning(u, h, s, contents)
    ensures SigningOf(u, s) && Accepted(s, true) && NormalForm(s) == NormalForm(u)
  {
    HeaderGeometry(u);
    SigningAccepted(u, h, s, contents);
  }

  lemma WideNormal()
    requires Accepted(WideImage(376), false) && Parse(WideImage(376)) == Some(WIDE_HEADER)
    ensures NormalForm(WideImage(376)) == WideImage(376)
  {
    var u := WideImage(376);
    var h := HeaderOf(u, false);
    assert ZeroedAt(WIDE_HEADER, u, 376) == u;
  }

  /** The signed copy is accepted as signed and passes the comparison with the image. */
  lemma WideIsSigned()
    ensures SigningOf(WideImage(376), WideSigned()) && Accepted(WideSigned(), true)
    ensures NormalForm(WideSigned()) == WideImage(376)
  {
    WideAccepted();
    WideSigns();
    WideNormal();
    SigningIs(WideImage(376), WIDE_HEADER, WideSigned(), [WideSigned()[384..]]);
  }

  // ----- The equivalence of two installers

  type Tree = map<string, Bytes>

  const HOST_NAME := "stock-desk-desktop.exe"
  const SIDECAR_NAME := "stock-desk-sidecar.exe"

  /** What follows the last slash. */
  function FileName(path: string): string { Last(Split(path, '/')) }

  /** A path under any directory has the name it ends in. */
  lemma FileNameOf(directory: seq<string>, name: string)
    requires Unbroken(directory, '/') && '/' !in name
    ensures FileName(Join(directory + [name], '/')) == name
  {
    SplitOfJoin(directory + [name], '/');
  }

  ghost function Matches(tree: Tree, name: string): set<string> {
    set p | p in tree && FileName(p) == name
  }

  /** `_one_role_path`: the one path of the tree with the role's file name. */
  method OneRolePath(tree: Tree, name: string) returns (r: Option<string>)
    ensures r.Some? <==> |Matches(tree, name)| == 1
    ensures r.Some? ==> Matches(tree, name) == {r.value}
  {
    var rest, matches := tree.Keys, {};
    while rest != {}
      invariant rest <= tree.Keys && matches == set p | p in tree.Keys - rest && FileName(p) == name
      decreases |rest|
    {
      var p :| p in rest;
      rest := rest - {p};
      if FileName(p) == name { matches := matches + {p}; }
    }
    assert matches == Matches(tree, name);
    if |matches| != 1 { return None; }
    var p :| p in matches;
    OnlyMember(matches, p);
    return Some(p);
  }

  /** The digests a signing request expects of the three unsigned files, as the contents they hash. */
  datatype Expected = Expected(host: Bytes, sidecar: Bytes, installer: Bytes)

  /** Equal stubs: the signed installer has the headers and image bytes of the unsigned one outside the two regions. */
  ghost predicate SameStub(u: Bytes, s: Bytes) {
    && Accepted(u, false) && Accepted(s, true)
    && NormalForm(u)[..Parse(u).value.imageEnd] == NormalForm(s)[..Parse(s).value.imageEnd]
  }

  /** Exactly one file of the tree has the role's name; it is the expected one, and the signed tree holds a signing
      of it. */
  ghost predicate NestedSigned(unsigned: Tree, signed: Tree, name: string, expected: Bytes)
    requires signed.Keys == unsigned.Keys
  {
    && |Matches(unsigned, name)| == 1
    && forall p | p in Matches(unsigned, name) :: unsigned[p] == expected && SigningOf(unsigned[p], signed[p])
  }

  /** The signed tree holds the same paths, one signed host, one signed sidecar, and every other file unchanged. */
  ghost predicate OnlyNestedSigning(expected: Expected, unsigned: Tree, signed: Tree) {
    && signed.Keys == unsigned.Keys
    && NestedSigned(unsigned, signed, HOST_NAME, expected.host)
    && NestedSigned(unsigned, signed, SIDECAR_NAME, expected.sidecar)
    && forall p | p in unsigned && p !in Matches(unsigned, HOST_NAME) + Matches(unsigned, SIDECAR_NAME) ::
       unsigned[p] == signed[p]
  }

  method SamePair(unsigned: Bytes, signed: Bytes, expected: Bytes) returns (same: bool)
    ensures same <==> unsigned == expected && SigningOf(unsigned, signed)
  {
    EquivalentIffSigning(unsigned, signed);
    var u := AuthenticodeIdentity(unsigned, false);
    if u.Err? { return false; }
    var s := AuthenticodeIdentity(signed, true);
    if s.Err? { return false; }
    return u.value.raw == expected && u.value.normalized == s.value.normalized;
  }

  /** The files other than the two nested images are compared byte for byte. */
  method OthersUnchanged(unsigned: Tree, signed: Tree, nested: set<string>) returns (same: bool)
    requires signed.Keys == unsigned.Keys
    ensures same <==> forall p | p in unsigned && p !in nested :: unsigned[p] == signed[p]
  {
    var rest := unsigned.Keys - nested;
    while rest != {}
      invariant rest <= unsigned.Keys - nested
      invariant forall p | p in unsigned && p !in nested && p !in rest :: unsigned[p] == signed[p]
      decreases |rest|
    {
      var p :| p in rest;
      if unsigned[p] != signed[p] { return false; }
      rest := rest - {p};
    }
    return true;
  }

  /** The nested image under `name`: where it is, if it is one signed copy of the expected file. */
  method NestedImage(unsigned: Tree, signed: Tree, name: string, expected: Bytes) returns (r: Option<string>)
    requires signed.Keys == unsigned.Keys
    ensures r.Some? <==> NestedSigned(unsigned, signed, name, expected)
    ensures r.Some? ==> Matches(unsigned, name) == {r.value}
  {
    var path := OneRolePath(unsigned, name);
    if path.None? { return None; }
    assert path.value in Matches(unsigned, name);
    var signedPath := OneRolePath(signed, name);
    assert Matches(signed, name) == Matches(unsigned, name);
    assert signedPath.value in {path.value};
    if signedPath != path { return None; }
    var same := SamePair(unsigned[path.value], signed[path.value], expected);
    return if same then path else None;
  }

  /** Accepts exactly a nested signing of the extracted tree under an installer with the same stub. */
  method VerifySigningEquivalence(expected: Expected, unsigned: Tree, signed: Tree, unsignedInstaller: Bytes,
                                  signedInstaller: Bytes)
    returns (accepted: bool)
    ensures accepted <==> unsignedInstaller == expected.installer && SameStub(unsignedInstaller, signedInstaller)
                          && OnlyNestedSigning(expected, unsigned, signed)
  {
    if signed.Keys != unsigned.Keys { return false; }
    var host := NestedImage(unsigned, signed, HOST_NAME, expected.host);
    if host.None? { return false; }
    var sidecar := NestedImage(unsigned, signed, SIDECAR_NAME, expected.sidecar);
    if sidecar.None? { return false; }
    var u := AuthenticodeIdentity(unsignedInstaller, false);
    if u.Err? { return false; }
    var s := AuthenticodeIdentity(signedInstaller, true);
    if s.Err? || u.value.raw != expected.installer || u.value.stub != s.value.stub { return false; }
    accepted := OthersUnchanged(unsigned, signed, {host.value, sidecar.value});
  }
}
