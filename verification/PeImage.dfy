/** The PE header parse, the certificate-table walk, and the Authenticode normal form. */
module PeImage {
  import opened Prelude

  const CHECKSUM_LENGTH := 4
  const SECURITY_LENGTH := 8

  function U16(d: Bytes, i: nat): nat
    requires i + 2 <= |d|
  {
    var low: int, high: int := d[i], d[i + 1];
    low + 0x100 * high
  }

  function U32(d: Bytes, i: nat): nat
    requires i + 4 <= |d|
  {
    U16(d, i) + 0x1_0000 * U16(d, i + 2)
  }

  /** The fixed part of the headers. */
  datatype Front = Front(peOffset: nat, sections: nat, optionalEnd: nat, magic: nat, directories: nat, securityAt: nat)

  /** What the parser reads from an image, the certificate pointer apart. */
  datatype Header = Header(front: Front, imageEnd: nat) {
    function ChecksumAt(): nat { front.peOffset + 24 + 64 }
  }

  predicate SectionFits(d: Bytes, optionalEnd: nat, i: nat)
    requires optionalEnd + 40 * (i + 1) <= |d|
  {
    var section := optionalEnd + 40 * i;
    U32(d, section + 20) + U32(d, section + 16) <= |d|
  }

  /** The end of the headers and of the first `n` sections' raw data. */
  function SectionsEnd(d: Bytes, optionalEnd: nat, total: nat, n: nat): nat
    requires n <= total && optionalEnd + 40 * total <= |d|
  {
    if n == 0 then optionalEnd + 40 * total
    else
      var section := optionalEnd + 40 * (n - 1);
      Max(SectionsEnd(d, optionalEnd, total, n - 1), U32(d, section + 20) + U32(d, section + 16))
  }

  function NumberAt(optional: nat, magic: nat): nat { optional + if magic == 0x10B then 92 else 108 }

  function SecurityAt(optional: nat, magic: nat): nat { optional + (if magic == 0x10B then 96 else 112) + 4 * 8 }

  function ParseFront(d: Bytes): (r: Option<Front>)
    ensures r.Some? ==> r.value.optionalEnd <= |d|
  {
    if |d| < 0x40 || d[..2] != [0x4D, 0x5A] then None
    else
      var pe := U32(d, 0x3C);
      if pe + 24 > |d| || d[pe..pe + 4] != [0x50, 0x45, 0, 0] then None
      else
        var optional := pe + 24;
        var optionalEnd := optional + U16(d, pe + 20);
        if optionalEnd > |d| || optional + 2 > |d| then None
        else
          var magic := U16(d, optional);
          if magic != 0x10B && magic != 0x20B then None
          else if SecurityAt(optional, magic) + 8 > optionalEnd || NumberAt(optional, magic) + 4 > optionalEnd then None
          else
            Some(Front(pe, U16(d, pe + 6), optionalEnd, magic, U32(d, NumberAt(optional, magic)),
                       SecurityAt(optional, magic)))
  }

  /** The header of an image the parser accepts. */
  function Parse(d: Bytes): Option<Header> {
    var front := ParseFront(d);
    if front.None? then None
    else
      var f := front.value;
      if f.directories < 5 || f.sections == 0 || f.optionalEnd + 40 * f.sections > |d| then None
      else if exists i | 0 <= i < f.sections :: !SectionFits(d, f.optionalEnd, i) then None
      else Some(Header(f, SectionsEnd(d, f.optionalEnd, f.sections, f.sections)))
  }

  /** Inside one of the two regions that signing may change. */
  predicate Excluded(h: Header, i: int) {
    h.ChecksumAt() <= i < h.ChecksumAt() + CHECKSUM_LENGTH
      || h.front.securityAt <= i < h.front.securityAt + SECURITY_LENGTH
  }

  /** The first `n` bytes agree outside the excluded regions. */
  ghost predicate AgreeOutside(h: Header, d: Bytes, e: Bytes, n: nat)
    requires n <= |d| && n <= |e|
  {
    forall i | 0 <= i < n && !Excluded(h, i) :: d[i] == e[i]
  }

  lemma {:induction false} SectionsEndBounds(d: Bytes, optionalEnd: nat, total: nat, n: nat)
    requires n <= total && optionalEnd + 40 * total <= |d|
    requires forall i | 0 <= i < n :: SectionFits(d, optionalEnd, i)
    ensures optionalEnd + 40 * total <= SectionsEnd(d, optionalEnd, total, n) <= |d|
  {
    if n > 0 {
      SectionsEndBounds(d, optionalEnd, total, n - 1);
      assert SectionFits(d, optionalEnd, n - 1);
    }
  }

  /** The excluded regions lie inside the optional header, apart from every field the parser reads. */
  lemma HeaderGeometry(d: Bytes)
    requires Parse(d).Some?
    ensures var h := Parse(d).value;
      && 0x40 <= h.ChecksumAt() && h.ChecksumAt() == h.front.peOffset + 88 && h.ChecksumAt() + 4 < h.front.securityAt
      && h.front.securityAt + 8 <= h.front.optionalEnd
      && h.front.optionalEnd < h.front.optionalEnd + 40 * h.front.sections <= h.imageEnd <= |d|
  {
    var h := Parse(d).value;
    SectionsEndBounds(d, h.front.optionalEnd, h.front.sections, h.front.sections);
  }

  /** The directories follow their count; the security directory is the fifth of them, eight bytes each. */
  lemma DirectoriesFollowCount(d: Bytes)
    requires Parse(d).Some?
    ensures var f := Parse(d).value.front; var first := f.securityAt - 4 * 8;
      && f.peOffset + 24 <= first - 4 && f.securityAt + 8 <= |d|
      && f.directories == U32(d, first - 4) && f.directories > 4
  {
    HeaderGeometry(d);
  }

  lemma {:induction false} SectionsEndSame(d: Bytes, e: Bytes, optionalEnd: nat, total: nat, n: nat)
    requires n <= total && optionalEnd + 40 * total <= |d| && optionalEnd + 40 * total <= |e|
    requires forall i | optionalEnd <= i < optionalEnd + 40 * total :: d[i] == e[i]
    ensures SectionsEnd(e, optionalEnd, total, n) == SectionsEnd(d, optionalEnd, total, n)
  {
    if n > 0 { SectionsEndSame(d, e, optionalEnd, total, n - 1); }
  }

  lemma {:induction false} SectionsFitWithin(e: Bytes, optionalEnd: nat, total: nat, n: nat)
    requires n <= total && optionalEnd + 40 * total <= |e| && SectionsEnd(e, optionalEnd, total, n) <= |e|
    ensures forall i | 0 <= i < n :: SectionFits(e, optionalEnd, i)
  {
    if n > 0 { SectionsFitWithin(e, optionalEnd, total, n - 1); }
  }

  lemma SameU16(d: Bytes, e: Bytes, i: nat)
    requires i + 2 <= |d| && i + 2 <= |e| && d[i] == e[i] && d[i + 1] == e[i + 1]
    ensures U16(e, i) == U16(d, i)
  {}

  lemma SameU32(d: Bytes, e: Bytes, i: nat)
    requires i + 4 <= |d| && i + 4 <= |e| && forall k | i <= k < i + 4 :: d[k] == e[k]
    ensures U32(e, i) == U32(d, i)
  {}

  lemma FrontTransfers(d: Bytes, e: Bytes, h: Header)
    requires ParseFront(d) == Some(h.front) && h.front.optionalEnd <= |e|
    requires AgreeOutside(h, d, e, h.front.optionalEnd)
    ensures ParseFront(e) == Some(h.front)
  {
    var pe, f := h.front.peOffset, h.front;
    var number := NumberAt(pe + 24, f.magic);
    assert e[..2] == d[..2];
    SameU32(d, e, 0x3C);
    assert e[pe..pe + 4] == d[pe..pe + 4];
    SameU16(d, e, pe + 6);
    SameU16(d, e, pe + 20);
    SameU16(d, e, pe + 24);
    SameU32(d, e, number);
  }

  /** The parse depends on no excluded byte and on nothing past the image end. */
  lemma ParseTransfers(d: Bytes, e: Bytes, h: Header)
    requires Parse(d) == Some(h) && h.imageEnd <= |d| && h.imageEnd <= |e|
    requires AgreeOutside(h, d, e, h.imageEnd)
    ensures Parse(e) == Parse(d)
  {
    HeaderGeometry(d);
    FrontTransfers(d, e, h);
    var f := h.front;
    SectionsEndSame(d, e, f.optionalEnd, f.sections, f.sections);
    SectionsFitWithin(e, f.optionalEnd, f.sections, f.sections);
  }

  // ----- The certificate table

  function RoundUp8(n: nat): nat { (n + 7) / 8 * 8 }

  predicate AllZero(s: Bytes) { forall i | 0 <= i < |s| :: s[i] == 0 }

  /** Every WIN_CERTIFICATE entry from `cursor` on is well-formed and the last ends at the end of the file. */
  predicate WalkOk(d: Bytes, cursor: nat)
    decreases |d| - cursor
  {
    if cursor >= |d| then cursor == |d|
    else
      && cursor + 8 <= |d|
      && var length := U32(d, cursor);
        && length >= 8 && U16(d, cursor + 4) == 0x0200 && U16(d, cursor + 6) == 0x0002 && cursor + length <= |d|
        && var next := RoundUp8(cursor + length);
          next <= |d| && AllZero(d[cursor + length..next]) && WalkOk(d, next)
  }

  method WalkCertificates(d: Bytes, start: nat) returns (ok: bool)
    requires start <= |d|
    ensures ok <==> WalkOk(d, start)
  {
    var cursor := start;
    while cursor < |d|
      invariant start <= cursor <= |d| && (WalkOk(d, start) <==> WalkOk(d, cursor))
    {
      if cursor + 8 > |d| { return false; }
      var length := U32(d, cursor);
      if length < 8 || U16(d, cursor + 4) != 0x0200 || U16(d, cursor + 6) != 0x0002
        || cursor + length > |d| { return false; }
      var next := RoundUp8(cursor + length);
      if next > |d| || !AllZero(d[cursor + length..next]) { return false; }
      cursor := next;
    }
    return cursor == |d|;
  }

  // ----- The normal form

  function CertificateOffset(d: Bytes, h: Header): nat
    requires h.front.securityAt + 8 <= |d|
  {
    U32(d, h.front.securityAt)
  }

  function CertificateSize(d: Bytes, h: Header): nat
    requires h.front.securityAt + 8 <= |d|
  {
    U32(d, h.front.securityAt + 4)
  }

  predicate HasSignature(d: Bytes, h: Header)
    requires h.front.securityAt + 8 <= |d|
  {
    CertificateOffset(d, h) != 0 || CertificateSize(d, h) != 0
  }

  /** A terminal, 8-aligned certificate table that starts no earlier than the image ends. */
  predicate TableOk(d: Bytes, h: Header)
    requires h.front.securityAt + 8 <= |d|
  {
    var offset, size := CertificateOffset(d, h), CertificateSize(d, h);
    offset % 8 == 0 && size >= 8 && offset >= h.imageEnd && offset + size == |d| && WalkOk(d, offset)
  }

  predicate Accepted(d: Bytes, signed: bool) {
    && Parse(d).Some?
    && (HeaderGeometry(d); var h := Parse(d).value;
        HasSignature(d, h) == signed && (signed ==> TableOk(d, h)))
  }

  function ZeroedAt(h: Header, d: Bytes, n: nat): (r: Bytes)
    requires n <= |d|
    ensures |r| == n && forall i | 0 <= i < n :: r[i] == if Excluded(h, i) then 0 else d[i]
  {
    seq(n, i requires 0 <= i < n => if Excluded(h, i) then 0 else d[i])
  }

  /** The bytes the Authenticode digest covers: no table, checksum and security entry zeroed. */
  function NormalForm(d: Bytes): (n: Bytes)
    requires Parse(d).Some? && (HeaderGeometry(d); HasSignature(d, Parse(d).value) ==> TableOk(d, Parse(d).value))
    ensures Parse(d).value.imageEnd <= |n| <= |d|
  {
    HeaderGeometry(d);
    var h := Parse(d).value;
    ZeroedAt(h, d, if HasSignature(d, h) then CertificateOffset(d, h) else |d|)
  }

  datatype Identity = Identity(raw: Bytes, normalized: Bytes, stub: Bytes)

  method ZeroRange(a: array<Byte>, at: nat, n: nat)
    requires at + n <= a.Length
    modifies a
    ensures forall i | 0 <= i < a.Length :: a[i] == if at <= i < at + n then 0 else old(a[i])
  {
    for k := 0 to n
      invariant forall i | 0 <= i < a.Length :: a[i] == if at <= i < at + k then 0 else old(a[i])
    {
      a[at + k] := 0;
    }
  }

  /** Copies the covered bytes and zeroes the two regions in the copy; both lie inside it. */
  method Normalize(d: Bytes, h: Header, n: nat) returns (normalized: Bytes)
    requires h.front.securityAt + SECURITY_LENGTH <= n <= |d| && h.ChecksumAt() + CHECKSUM_LENGTH <= n
    ensures normalized == ZeroedAt(h, d, n)
  {
    var buffer := new Byte[n](i requires 0 <= i < n => d[i]);
    ZeroRange(buffer, h.ChecksumAt(), CHECKSUM_LENGTH);
    ZeroRange(buffer, h.front.securityAt, SECURITY_LENGTH);
    normalized := buffer[..];
  }

  method ParseHeader(d: Bytes) returns (r: Option<Header>)
    ensures r == Parse(d)
  {
    if |d| < 0x40 || d[..2] != [0x4D, 0x5A] { return None; }
    var pe := U32(d, 0x3C);
    if pe + 24 > |d| || d[pe..pe + 4] != [0x50, 0x45, 0, 0] { return None; }
    var sections, optional := U16(d, pe + 6), pe + 24;
    var optionalEnd := optional + U16(d, pe + 20);
    if optionalEnd > |d| || optional + 2 > |d| { return None; }
    var magic := U16(d, optional);
    var number, directory;
    if magic == 0x10B {
      number, directory := optional + 92, optional + 96;
    } else if magic == 0x20B {
      number, directory := optional + 108, optional + 112;
    } else {
      return None;
    }
    var security := directory + 4 * 8;
    if security + 8 > optionalEnd || number + 4 > optionalEnd { return None; }
    var front := Front(pe, sections, optionalEnd, magic, U32(d, number), security);
    assert ParseFront(d) == Some(front);
    r := ParseSections(d, front);
  }

  lemma SectionStep(d: Bytes, optionalEnd: nat, total: nat, i: nat)
    requires i < total && optionalEnd + 40 * total <= |d|
    ensures var section := optionalEnd + i * 40;
      && section + 24 <= |d|
      && (SectionFits(d, optionalEnd, i) <==> U32(d, section + 20) + U32(d, section + 16) <= |d|)
      && SectionsEnd(d, optionalEnd, total, i + 1) ==
         Max(SectionsEnd(d, optionalEnd, total, i), U32(d, section + 20) + U32(d, section + 16))
  {}

  method ParseSections(d: Bytes, front: Front) returns (r: Option<Header>)
    requires ParseFront(d) == Some(front)
    ensures r == Parse(d)
  {
    var sections, optionalEnd := front.sections, front.optionalEnd;
    var tableEnd := optionalEnd + sections * 40;
    if front.directories < 5 || sections == 0 || tableEnd > |d| { return None; }
    var imageEnd := tableEnd;
    for i := 0 to sections
      invariant imageEnd == SectionsEnd(d, optionalEnd, sections, i)
      invariant forall k | 0 <= k < i :: SectionFits(d, optionalEnd, k)
    {
      var section := optionalEnd + i * 40;
      SectionStep(d, optionalEnd, sections, i);
      var sectionEnd := U32(d, section + 20) + U32(d, section + 16);
      if sectionEnd > |d| {
        assert !SectionFits(d, optionalEnd, i);
        return None;
      }
      imageEnd := Max(imageEnd, sectionEnd);
    }
    return Some(Header(front, imageEnd));
  }

  /** The three digests, taken over their full contents. */
  method AuthenticodeIdentity(d: Bytes, requireSignature: bool) returns (r: Result<Identity>)
    ensures r.Ok? <==> Accepted(d, requireSignature)
    ensures r.Ok? ==> r.value == Identity(d, NormalForm(d), NormalForm(d)[..Parse(d).value.imageEnd])
  {
    var parsed := ParseHeader(d);
    if parsed.None? { return Err; }
    HeaderGeometry(d);
    var h := parsed.value;
    var offset, size := U32(d, h.front.securityAt), U32(d, h.front.securityAt + 4);
    var hasSignature := offset != 0 || size != 0;
    if requireSignature != hasSignature { return Err; }
    if hasSignature {
      if offset % 8 != 0 || size < 8 || offset < h.imageEnd || offset + size != |d| { return Err; }
      var walked := WalkCertificates(d, offset);
      if !walked { return Err; }
    }
    var n := if hasSignature then offset else |d|;
    var normalized := Normalize(d, h, n);
    return Ok(Identity(d, normalized, normalized[..h.imageEnd]));
  }
}
