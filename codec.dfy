/** The canonical string form of a UUID (section 3 of RFC 4122): lower-case
    hex in groups of 4, 2, 2, 2 and 6 bytes separated by hyphens, and the
    parsers `FromBytes` and `FromString` with their validation. */
module Codec {
  import opened UuidTypes

  // ---------------------------------------------------------------------
  // Hex digits

  predicate IsLowerHex(c: char) {
    '0' <= c <= '9' || 'a' <= c <= 'f'
  }

  /** Characters `encoding/hex` accepts: digits and either case of a to f. */
  predicate IsHexChar(c: char) {
    '0' <= c <= '9' || 'a' <= c <= 'f' || 'A' <= c <= 'F'
  }

  /** The lower-case digit `encoding/hex` writes for a nibble. */
  function HexDigit(n: byte): (c: char)
    requires n < 16
    ensures IsLowerHex(c)
    ensures n < 10 <==> '0' <= c <= '9'
  {
    if n < 10 then ('0' as int + n as int) as char else ('a' as int + n as int - 10) as char
  }

  /** The value of a hex digit, in either case; `None` for any other character. */
  function HexValue(c: char): (r: Option<byte>)
    ensures r.Some? <==> IsHexChar(c)
    ensures r.Some? ==> r.value < 16
  {
    if '0' <= c <= '9' then Some((c as int - '0' as int) as byte)
    else if 'a' <= c <= 'f' then Some((c as int - 'a' as int + 10) as byte)
    else if 'A' <= c <= 'F' then Some((c as int - 'A' as int + 10) as byte)
    else None
  }

  /** An upper-case hex letter has the value of its lower-case form. */
  lemma HexValueUpper(c: char)
    requires 'A' <= c <= 'F'
    ensures HexValue(c) == HexValue((c as int + 32) as char)
  {
  }

  /** Reading back a written digit gives the nibble. */
  lemma HexValueOfDigit(n: byte)
    requires n < 16
    ensures HexValue(HexDigit(n)) == Some(n)
  {
  }

  /** Two nibbles are written as the same digit only if they are equal. */
  lemma HexDigitInjective(m: byte, n: byte)
    requires m < 16 && n < 16
    ensures HexDigit(m) == HexDigit(n) <==> m == n
  {
    HexValueOfDigit(m);
    HexValueOfDigit(n);
  }

  // ---------------------------------------------------------------------
  // hex.EncodeToString and hex.DecodeString

  /** `hex.EncodeToString`: two lower-case digits per byte, high nibble first. */
  function Encode(bs: seq<byte>): (s: string)
    ensures |s| == 2 * |bs|
  {
    if bs == [] then [] else [HexDigit(bs[0] >> 4), HexDigit(bs[0] & 0x0F)] + Encode(bs[1..])
  }

  /** Byte `k` is written as the digits at `2 * k` and `2 * k + 1`. */
  lemma {:induction false} EncodeAt(bs: seq<byte>, k: nat)
    requires k < |bs|
    ensures Encode(bs)[2 * k] == HexDigit(bs[k] >> 4)
    ensures Encode(bs)[2 * k + 1] == HexDigit(bs[k] & 0x0F)
  {
    if k > 0 {
      EncodeAt(bs[1..], k - 1);
    }
  }

  /** Every character of an encoding is a lower-case hex digit. */
  lemma EncodeLowerHex(bs: seq<byte>)
    ensures forall i :: 0 <= i < |Encode(bs)| ==> IsLowerHex(Encode(bs)[i])
  {
    forall i | 0 <= i < |Encode(bs)|
      ensures IsLowerHex(Encode(bs)[i])
    {
      EncodeAt(bs, i / 2);
      assert i == 2 * (i / 2) || i == 2 * (i / 2) + 1;
    }
  }

  /** Encoding a concatenation is concatenating the encodings. */
  lemma {:induction false} EncodeAppend(a: seq<byte>, b: seq<byte>)
    ensures Encode(a + b) == Encode(a) + Encode(b)
  {
    if a == [] {
      assert a + b == b;
    } else {
      assert (a + b)[1..] == a[1..] + b;
      EncodeAppend(a[1..], b);
    }
  }

  /** The result of `hex.DecodeString`: the bytes, or the error it reports. */
  datatype Decoded = Decoded(bytes: seq<byte>) | DecodeError(err: Error)

  /** Every character of `s` is a hex digit. */
  predicate AllHex(s: string) {
    forall i :: 0 <= i < |s| ==> IsHexChar(s[i])
  }

  /** A string of two or more characters is all hex exactly when its first
      two characters are and the rest is. */
  lemma AllHexCons(s: string)
    requires |s| >= 2
    ensures AllHex(s) <==> IsHexChar(s[0]) && IsHexChar(s[1]) && AllHex(s[2..])
  {
    assert forall i :: 2 <= i < |s| ==> s[i] == s[2..][i - 2];
  }

  /** `c` is the first character of `s` that is not a hex digit. */
  predicate FirstNonHex(s: string, c: char) {
    exists i :: 0 <= i < |s| && s[i] == c && !IsHexChar(c) && AllHex(s[..i])
  }

  /** The first non-hex character of `s[2..]` is the first of `s` when the
      first two characters of `s` are hex digits. */
  lemma FirstNonHexCons(s: string, c: char)
    requires |s| >= 2 && IsHexChar(s[0]) && IsHexChar(s[1]) && FirstNonHex(s[2..], c)
    ensures FirstNonHex(s, c)
  {
    var i :| 0 <= i < |s[2..]| && s[2..][i] == c && !IsHexChar(c) && AllHex(s[2..][..i]);
    assert s[..i + 2] == s[..2] + s[2..][..i];
    assert AllHex(s[..i + 2]);
    assert s[i + 2] == c;
  }

  /** `hex.DecodeString`: reads pairs of digits left to right; the first
      character that is not a hex digit is reported, and a string whose
      digits are all valid but of odd number gives `ErrHexLength`. */
  function HexDecode(s: string): (r: Decoded)
    ensures r.Decoded? <==> |s| % 2 == 0 && AllHex(s)
    ensures r.Decoded? ==> |r.bytes| == |s| / 2
    ensures r == DecodeError(ErrHexLength) <==> |s| % 2 == 1 && AllHex(s)
    ensures r.DecodeError? ==> r.err == ErrHexLength || r.err.ErrHexInvalidByte?
    ensures r.DecodeError? && r.err.ErrHexInvalidByte? ==> FirstNonHex(s, r.err.c)
    ensures r.DecodeError? && r.err.ErrHexInvalidByte? ==> r.err.c in s
    decreases |s|
  {
    if |s| == 0 then Decoded([])
    else if HexValue(s[0]).None? then
      assert s[..0] == [];
      assert FirstNonHex(s, s[0]);
      DecodeError(ErrHexInvalidByte(s[0]))
    else if |s| == 1 then
      assert AllHex(s);
      DecodeError(ErrHexLength)
    else if HexValue(s[1]).None? then
      assert AllHex(s[..1]);
      assert FirstNonHex(s, s[1]);
      DecodeError(ErrHexInvalidByte(s[1]))
    else
      AllHexCons(s);
      match HexDecode(s[2..])
      case DecodeError(e) =>
        assert forall c :: c in s[2..] ==> c in s;
        if e.ErrHexInvalidByte? then
          FirstNonHexCons(s, e.c);
          DecodeError(e)
        else
          DecodeError(e)
      case Decoded(tail) =>
        Decoded([PairValue(s[0], s[1])] + tail)
  }

  /** The byte a pair of hex digits stands for, high nibble first. */
  function PairValue(hi: char, lo: char): byte
    requires IsHexChar(hi) && IsHexChar(lo)
  {
    (HexValue(hi).value << 4) | HexValue(lo).value
  }

  /** A decoded string of two or more digits decodes to the value of its
      first pair followed by the decoding of the rest. */
  lemma HexDecodeCons(s: string)
    requires HexDecode(s).Decoded? && |s| >= 2
    ensures IsHexChar(s[0]) && IsHexChar(s[1]) && HexDecode(s[2..]).Decoded?
    ensures HexDecode(s).bytes == [PairValue(s[0], s[1])] + HexDecode(s[2..]).bytes
  {
    AllHexCons(s);
  }

  /** Decoded byte `k` is the value of digits `2 * k` (high nibble) and
      `2 * k + 1` (low nibble). */
  lemma {:induction false} HexDecodeAt(s: string, k: nat)
    requires HexDecode(s).Decoded? && k < |HexDecode(s).bytes|
    ensures IsHexChar(s[2 * k]) && IsHexChar(s[2 * k + 1])
    ensures HexDecode(s).bytes[k] == PairValue(s[2 * k], s[2 * k + 1])
    decreases |s|
  {
    HexDecodeCons(s);
    if k > 0 {
      var t := s[2..];
      HexDecodeAt(t, k - 1);
      assert t[2 * (k - 1)] == s[2 * k] && t[2 * (k - 1) + 1] == s[2 * k + 1];
    }
  }

  /** Decoding undoes encoding. */
  lemma {:induction false} DecodeEncode(bs: seq<byte>)
    ensures HexDecode(Encode(bs)) == Decoded(bs)
  {
    var s := Encode(bs);
    EncodeLowerHex(bs);
    var r := HexDecode(s);
    assert r.Decoded?;
    assert |r.bytes| == |bs|;
    forall k | 0 <= k < |bs|
      ensures r.bytes[k] == bs[k]
    {
      HexDecodeAt(s, k);
      EncodeAt(bs, k);
      HexValueOfDigit(bs[k] >> 4);
      HexValueOfDigit(bs[k] & 0x0F);
      assert ((bs[k] >> 4) << 4) | (bs[k] & 0x0F) == bs[k];
    }
  }

  // ---------------------------------------------------------------------
  // strings.Replace(s, "-", "", -1)

  /** `s` with every hyphen removed. */
  function RemoveDashes(s: string): (r: string)
    ensures '-' !in r
    ensures forall c :: c in r ==> c in s
    ensures '-' !in s ==> r == s
  {
    if s == [] then []
    else if s[0] == '-' then RemoveDashes(s[1..])
    else [s[0]] + RemoveDashes(s[1..])
  }

  /** Removing hyphens works piece by piece. */
  lemma {:induction false} RemoveDashesAppend(a: string, b: string)
    ensures RemoveDashes(a + b) == RemoveDashes(a) + RemoveDashes(b)
  {
    if a == [] {
      assert a + b == b;
    } else {
      assert (a + b)[1..] == a[1..] + b;
      RemoveDashesAppend(a[1..], b);
    }
  }

  // ---------------------------------------------------------------------
  // String

  /** The string positions that hold a hyphen. */
  predicate IsDashPosition(i: int) {
    i == 8 || i == 13 || i == 18 || i == 23
  }

  /** Where byte `k`'s two digits start in the canonical string: two digits
      per earlier byte plus one per hyphen before the byte's group. */
  function CharIndex(k: nat): nat
    requires k < UuidSize
  {
    if k < 4 then 2 * k
    else if k < 6 then 2 * k + 1
    else if k < 8 then 2 * k + 2
    else if k < 10 then 2 * k + 3
    else 2 * k + 4
  }

  /** `UUID.String`: bytes 0-3, 4-5, 6-7, 8-9 and 10-15 in lower-case hex,
      joined with hyphens. */
  function String(u: UUID): (s: string)
    ensures |s| == 36
  {
    Encode(u[..4]) + "-" + Encode(u[4..6]) + "-" + Encode(u[6..8]) + "-" + Encode(u[8..10]) + "-" + Encode(u[10..16])
  }

  /** The five hex groups of the canonical string and the four hyphens
      between them, in order. */
  lemma StringGroups(u: UUID)
    ensures String(u)[..8] == Encode(u[..4]) && String(u)[8] == '-'
    ensures String(u)[9..13] == Encode(u[4..6]) && String(u)[13] == '-'
    ensures String(u)[14..18] == Encode(u[6..8]) && String(u)[18] == '-'
    ensures String(u)[19..23] == Encode(u[8..10]) && String(u)[23] == '-'
    ensures String(u)[24..] == Encode(u[10..16])
  {
    var e0, e1, e2, e3, e4 := Encode(u[..4]), Encode(u[4..6]), Encode(u[6..8]), Encode(u[8..10]), Encode(u[10..16]);
    var p1 := e0 + "-";
    var p2 := p1 + e1 + "-";
    var p3 := p2 + e2 + "-";
    var p4 := p3 + e3 + "-";
    assert String(u) == p4 + e4;
    assert p4[..23] == p3 + e3 && (p3 + e3)[..19] == p3 && (p3 + e3)[19..] == e3;
    assert p3[..18] == p2 + e2 && (p2 + e2)[..14] == p2 && (p2 + e2)[14..] == e2;
    assert p2[..13] == p1 + e1 && (p1 + e1)[..9] == p1 && (p1 + e1)[9..] == e1;
  }

  /** A piece of `s` at `off` that is the encoding of `u[lo..hi]` holds
      byte `k` of `u` at offset `off + 2 * (k - lo)`. */
  lemma EncodedPieceAt(s: string, off: nat, u: UUID, lo: nat, hi: nat, k: nat)
    requires lo <= k < hi <= |u| && off + 2 * (hi - lo) <= |s|
    requires s[off..off + 2 * (hi - lo)] == Encode(u[lo..hi])
    ensures s[off + 2 * (k - lo)] == HexDigit(u[k] >> 4) && s[off + 2 * (k - lo) + 1] == HexDigit(u[k] & 0x0F)
  {
    var g := u[lo..hi];
    EncodeAt(g, k - lo);
    assert g[k - lo] == u[k];
    assert s[off + 2 * (k - lo)] == s[off..off + 2 * |g|][2 * (k - lo)];
    assert s[off + 2 * (k - lo) + 1] == s[off..off + 2 * |g|][2 * (k - lo) + 1];
  }

  /** A string made of the five groups of `u` holds byte `k` at `CharIndex(k)`. */
  lemma GroupedByte(s: string, u: UUID, k: nat)
    requires |s| == 36
    requires s[..8] == Encode(u[..4]) && s[9..13] == Encode(u[4..6]) && s[14..18] == Encode(u[6..8])
    requires s[19..23] == Encode(u[8..10]) && s[24..] == Encode(u[10..16])
    requires k < UuidSize
    ensures s[CharIndex(k)] == HexDigit(u[k] >> 4) && s[CharIndex(k) + 1] == HexDigit(u[k] & 0x0F)
  {
    var off, lo, hi;
    if k < 4 {
      off, lo, hi := 0, 0, 4;
      assert s[0..8] == s[..8] && u[0..4] == u[..4];
    } else if k < 6 {
      off, lo, hi := 9, 4, 6;
    } else if k < 8 {
      off, lo, hi := 14, 6, 8;
    } else if k < 10 {
      off, lo, hi := 19, 8, 10;
    } else {
      off, lo, hi := 24, 10, 16;
      assert s[24..36] == s[24..];
    }
    assert CharIndex(k) == off + 2 * (k - lo);
    EncodedPieceAt(s, off, u, lo, hi, k);
  }

  /** Byte `k` of the UUID is written as two digits at `CharIndex(k)`. */
  lemma StringByte(u: UUID, k: nat)
    requires k < UuidSize
    ensures String(u)[CharIndex(k)] == HexDigit(u[k] >> 4)
    ensures String(u)[CharIndex(k) + 1] == HexDigit(u[k] & 0x0F)
  {
    StringGroups(u);
    GroupedByte(String(u), u, k);
  }

  /** The canonical string: 36 characters, hyphens at 8, 13, 18 and 23 and
      lower-case hex elsewhere, with the k-th pair of digits encoding byte k. */
  lemma StringLayout(u: UUID)
    ensures |String(u)| == 36
    ensures forall i :: 0 <= i < 36 ==> (String(u)[i] == '-' <==> IsDashPosition(i))
    ensures forall i :: 0 <= i < 36 && !IsDashPosition(i) ==> IsLowerHex(String(u)[i])
    ensures forall k :: 0 <= k < UuidSize ==>
      String(u)[CharIndex(k)] == HexDigit(u[k] >> 4) && String(u)[CharIndex(k) + 1] == HexDigit(u[k] & 0x0F)
  {
    StringGroups(u);
    GroupedLayout(String(u), u);
  }

  /** The layout of any string made of the five groups of `u` and four hyphens. */
  lemma GroupedLayout(s: string, u: UUID)
    requires |s| == 36
    requires s[..8] == Encode(u[..4]) && s[9..13] == Encode(u[4..6]) && s[14..18] == Encode(u[6..8])
    requires s[19..23] == Encode(u[8..10]) && s[24..] == Encode(u[10..16])
    requires s[8] == '-' && s[13] == '-' && s[18] == '-' && s[23] == '-'
    ensures forall i :: 0 <= i < 36 ==> (s[i] == '-' <==> IsDashPosition(i))
    ensures forall i :: 0 <= i < 36 && !IsDashPosition(i) ==> IsLowerHex(s[i])
    ensures forall k :: 0 <= k < UuidSize ==>
      s[CharIndex(k)] == HexDigit(u[k] >> 4) && s[CharIndex(k) + 1] == HexDigit(u[k] & 0x0F)
  {
    forall k | 0 <= k < UuidSize
      ensures s[CharIndex(k)] == HexDigit(u[k] >> 4) && s[CharIndex(k) + 1] == HexDigit(u[k] & 0x0F)
    {
      GroupedByte(s, u, k);
    }
    forall i | 0 <= i < 36 && !IsDashPosition(i)
      ensures IsLowerHex(s[i])
    {
      GroupedByte(s, u, ByteAt(i));
    }
  }

  /** The byte whose digits stand at a non-hyphen position of the string. */
  function ByteAt(i: nat): (k: nat)
    requires i < 36 && !IsDashPosition(i)
    ensures k < UuidSize && (i == CharIndex(k) || i == CharIndex(k) + 1)
  {
    if i < 8 then i / 2 else if i < 13 then (i - 1) / 2
    else if i < 18 then (i - 2) / 2 else if i < 23 then (i - 3) / 2 else (i - 4) / 2
  }

  /** Removing the hyphen between two pieces joins them. */
  lemma RemoveJoiningDash(a: string, b: string)
    ensures RemoveDashes(a + "-" + b) == RemoveDashes(a) + RemoveDashes(b)
  {
    RemoveDashesAppend(a + "-", b);
    RemoveDashesAppend(a, "-");
  }

  /** The hex of the five groups, put together, is the hex of the whole UUID. */
  lemma EncodeGroups(u: UUID)
    ensures Encode(u[..4]) + Encode(u[4..6]) + Encode(u[6..8]) + Encode(u[8..10]) + Encode(u[10..16]) == Encode(u)
  {
    EncodeJoin(u, 4, 6);
    EncodeJoin(u, 6, 8);
    EncodeJoin(u, 8, 10);
    EncodeJoin(u, 10, 16);
    assert u[..16] == u;
  }

  /** Encoding a prefix and the slice after it is encoding the longer prefix. */
  lemma EncodeJoin(u: seq<byte>, j: nat, k: nat)
    requires j <= k <= |u|
    ensures Encode(u[..j]) + Encode(u[j..k]) == Encode(u[..k])
  {
    EncodeAppend(u[..j], u[j..k]);
    assert u[..j] + u[j..k] == u[..k];
  }

  /** Removing the hyphens from the canonical string leaves its five hex groups. */
  lemma StringDashesRemoved(u: UUID)
    ensures RemoveDashes(String(u)) == Encode(u[..4]) + Encode(u[4..6]) + Encode(u[6..8]) + Encode(u[8..10]) + Encode(u[10..16])
  {
    var e0, e1, e2, e3, e4 := Encode(u[..4]), Encode(u[4..6]), Encode(u[6..8]), Encode(u[8..10]), Encode(u[10..16]);
    EncodeLowerHex(u[..4]);
    EncodeLowerHex(u[4..6]);
    EncodeLowerHex(u[6..8]);
    EncodeLowerHex(u[8..10]);
    EncodeLowerHex(u[10..16]);
    assert '-' !in e0 && '-' !in e1 && '-' !in e2 && '-' !in e3 && '-' !in e4;
    var p1 := e0 + "-" + e1;
    var p2 := p1 + "-" + e2;
    var p3 := p2 + "-" + e3;
    RemoveJoiningDash(e0, e1);
    RemoveJoiningDash(p1, e2);
    RemoveJoiningDash(p2, e3);
    RemoveJoiningDash(p3, e4);
  }

  /** Without its hyphens, the canonical string is the plain hex of all 16 bytes. */
  lemma StringWithoutDashes(u: UUID)
    ensures RemoveDashes(String(u)) == Encode(u)
  {
    StringDashesRemoved(u);
    EncodeGroups(u);
  }

  // ---------------------------------------------------------------------
  // The validation pattern

  /** A run of lower-case hex digits. */
  predicate LowerHexRun(s: string) {
    forall i :: 0 <= i < |s| ==> IsLowerHex(s[i])
  }

  /** `^[0-9a-f]{8}-[0-9a-f]{4}-[1-5][0-9a-f]{3}-[89ab][0-9a-f]{3}-[0-9a-f]{12}$`,
      the pattern `FromBytes` matches the rendered string against. */
  predicate MatchesUuidPattern(s: string) {
    && |s| == 36
    && LowerHexRun(s[0..8]) && s[8] == '-'
    && LowerHexRun(s[9..13]) && s[13] == '-'
    && '1' <= s[14] <= '5' && LowerHexRun(s[15..18]) && s[18] == '-'
    && (s[19] == '8' || s[19] == '9' || s[19] == 'a' || s[19] == 'b') && LowerHexRun(s[20..23]) && s[23] == '-'
    && LowerHexRun(s[24..36])
  }

  /** The byte form of the pattern: version nibble 1 to 5 and variant bits `10`. */
  predicate WellFormed(u: UUID) {
    1 <= u[6] >> 4 <= 5 && u[8] >> 6 == 2
  }

  /** Because `String` always has the 8-4-4-4-12 shape, the pattern holds of
      it exactly when the version and variant bits are right. */
  lemma PatternIffWellFormed(u: UUID)
    ensures MatchesUuidPattern(String(u)) <==> WellFormed(u)
  {
    StringLayout(u);
    LaidOutPattern(String(u), u);
  }

  /** The pattern on any string laid out as the canonical form of `u`. */
  lemma LaidOutPattern(s: string, u: UUID)
    requires |s| == 36
    requires forall i :: 0 <= i < 36 ==> (s[i] == '-' <==> IsDashPosition(i))
    requires forall i :: 0 <= i < 36 && !IsDashPosition(i) ==> IsLowerHex(s[i])
    requires forall k :: 0 <= k < UuidSize ==>
      s[CharIndex(k)] == HexDigit(u[k] >> 4) && s[CharIndex(k) + 1] == HexDigit(u[k] & 0x0F)
    ensures MatchesUuidPattern(s) <==> WellFormed(u)
  {
    assert s[14] == HexDigit(u[6] >> 4) by { assert CharIndex(6) == 14; }
    assert s[19] == HexDigit(u[8] >> 4) by { assert CharIndex(8) == 19; }
    // Only hex digits stand between the hyphens.
    assert LowerHexRun(s[0..8]) && LowerHexRun(s[9..13]) && LowerHexRun(s[15..18])
        && LowerHexRun(s[20..23]) && LowerHexRun(s[24..36]) by {
      assert forall i :: 0 <= i < 8 ==> s[0..8][i] == s[i];
      assert forall i :: 0 <= i < 4 ==> s[9..13][i] == s[9 + i];
      assert forall i :: 0 <= i < 3 ==> s[15..18][i] == s[15 + i];
      assert forall i :: 0 <= i < 3 ==> s[20..23][i] == s[20 + i];
      assert forall i :: 0 <= i < 12 ==> s[24..36][i] == s[24 + i];
    }
    var n6, n8 := u[6] >> 4, u[8] >> 4;
    assert '1' <= s[14] <= '5' <==> 1 <= n6 <= 5;
    assert (s[19] == '8' || s[19] == '9' || s[19] == 'a' || s[19] == 'b') <==> 8 <= n8 <= 11;
    assert 8 <= n8 <= 11 <==> u[8] >> 6 == 2;
  }

  // ---------------------------------------------------------------------
  // FromBytes and FromString

  /** `FromBytes`: a slice that is not 16 bytes long gives `ErrUUIDSize` and
      the zero UUID; otherwise the bytes are copied and the rendered string
      is matched against the pattern. */
  function FromBytes(b: seq<byte>): (r: UuidResult)
    ensures |b| != UuidSize ==> r == UuidResult(ZeroUuid, Some(ErrUUIDSize))
    ensures |b| == UuidSize ==> r.uuid == b
    ensures |b| == UuidSize ==> (r.err == None <==> WellFormed(b))
    ensures |b| == UuidSize && r.err != None ==> r.err == Some(ErrUUIDFormat)
  {
    if |b| != UuidSize then UuidResult(ZeroUuid, Some(ErrUUIDSize))
    else
      var u: UUID := b;
      PatternIffWellFormed(u);
      if !MatchesUuidPattern(String(u)) then UuidResult(u, Some(ErrUUIDFormat))
      else UuidResult(u, None)
  }

  /** `FromString`: removes every hyphen, hex-decodes what is left, and
      hands the bytes to `FromBytes`; a decoding error is returned beside
      the zero UUID. */
  function FromString(s: string): (r: UuidResult)
    ensures r.err == None ==> WellFormed(r.uuid) && |RemoveDashes(s)| == 2 * UuidSize
    ensures r.err == None ==> AllHex(RemoveDashes(s))
    ensures HexDecode(RemoveDashes(s)).DecodeError? ==> r == UuidResult(ZeroUuid, Some(HexDecode(RemoveDashes(s)).err))
    ensures AllHex(RemoveDashes(s)) && |RemoveDashes(s)| % 2 == 0 && |RemoveDashes(s)| != 2 * UuidSize ==>
      r == UuidResult(ZeroUuid, Some(ErrUUIDSize))
    ensures AllHex(RemoveDashes(s)) && |RemoveDashes(s)| == 2 * UuidSize ==>
      && r.uuid == HexDecode(RemoveDashes(s)).bytes
      && (r.err == None <==> WellFormed(r.uuid))
      && (r.err != None ==> r.err == Some(ErrUUIDFormat))
  {
    match HexDecode(RemoveDashes(s))
    case DecodeError(e) => UuidResult(ZeroUuid, Some(e))
    case Decoded(b) => FromBytes(b)
  }

  /** Hyphens anywhere are ignored. */
  lemma DashesIgnored(s: string)
    ensures FromString(s) == FromString(RemoveDashes(s))
  {
  }

  /** The canonical string parses back to the same bytes, without error
      exactly when the bytes are well formed. */
  lemma FromStringOfString(u: UUID)
    ensures FromString(String(u)) == UuidResult(u, if WellFormed(u) then None else Some(ErrUUIDFormat))
  {
    StringWithoutDashes(u);
    DecodeEncode(u);
  }
}
