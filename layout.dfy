/** The bit layout of a UUID (RFC 4122, sections 4.1.1 to 4.1.3): stamping
    the version nibble and the variant bits, and writing a 64-bit timestamp
    big-endian into the time fields. These operations change a buffer in
    place, so they are methods on `array<byte>`; each one is specified by a
    function on bytes that says what the new contents are. */
module Layout {
  import opened UuidTypes

  /** Variant selectors passed to `variant` (shifted left by five). */
  const Rfc4122: byte := 0x04
  const Future: byte := 0x07

  // ---------------------------------------------------------------------
  // Version nibble (byte 6)

  /** The new byte 6 after stamping version `v`: the top nibble holds the
      low four bits of `v` (Go's `v << 4` drops the rest), the bottom
      nibble is the old one. */
  function VersionByte(b: byte, v: byte): (r: byte)
    ensures r & 0x0F == b & 0x0F
    ensures r >> 4 == v & 0x0F
    ensures v <= 0x0F ==> r >> 4 == v
  {
    (b & 0x0F) | (v << 4)
  }

  /** Stamping any version on a zero byte leaves exactly `v << 4`. */
  lemma VersionOnZero(v: byte)
    ensures VersionByte(0, v) == v << 4
  {
  }

  method SetVersion(u: array<byte>, v: byte)
    requires u.Length == UuidSize
    modifies u
    ensures u[..] == old(u[..])[6 := VersionByte(old(u[6]), v)]
  {
    u[6] := VersionByte(u[6], v);
  }

  // ---------------------------------------------------------------------
  // Variant bits (byte 8)

  /** The mask picked by the `switch` in `variant`: the future variant
      clears the top three bits, every other selector the top two. */
  function VariantMask(v: byte): (m: byte)
    ensures m == 0x1F || m == 0x3F
    ensures m == 0x1F <==> v == Future
  {
    if v == Future then 0x1F else 0x3F
  }

  /** The new byte 8 after stamping variant selector `v` as one masked
      update: the RFC 4122 variant leaves top bits `10` and keeps the low
      six; the future variant leaves top bits `111` and keeps the low five. */
  function VariantByte(b: byte, v: byte): (r: byte)
    ensures r & 0x1F == b & 0x1F
    ensures v == Rfc4122 ==> r >> 6 == 2 && r & 0x3F == b & 0x3F
    ensures v == Rfc4122 ==> 0x80 <= r <= 0xBF
    ensures v == Future ==> r >> 5 == 7
  {
    (b & VariantMask(v)) | (v << 5)
  }

  method SetVariant(u: array<byte>, v: byte)
    requires u.Length == UuidSize
    modifies u
    ensures u[..] == old(u[..])[8 := VariantByte(old(u[8]), v)]
  {
    u[8] := VariantByte(u[8], v);
  }

  // ---------------------------------------------------------------------
  // Big-endian integers (encoding/binary's BigEndian)

  /** `BigEndian.Uint16`: the first two bytes as a big-endian number. */
  function Uint16Of(s: seq<byte>): bv16
    requires |s| >= 2
  {
    (s[0] as bv16 << 8) | s[1] as bv16
  }

  /** `BigEndian.Uint32`: the first four bytes as a big-endian number. */
  function Uint32Of(s: seq<byte>): bv32
    requires |s| >= 4
  {
    (s[0] as bv32 << 24) | (s[1] as bv32 << 16) | (s[2] as bv32 << 8) | s[3] as bv32
  }

  /** The two bytes `BigEndian.PutUint16` writes: most significant first. */
  function BigEndian16(v: bv16): (s: seq<byte>)
    ensures |s| == 2 && Uint16Of(s) == v
  {
    [(v >> 8) as byte, (v & 0xFF) as byte]
  }

  /** The four bytes `BigEndian.PutUint32` writes: most significant first. */
  function BigEndian32(v: bv32): (s: seq<byte>)
    ensures |s| == 4 && Uint32Of(s) == v
  {
    [(v >> 24) as byte, ((v >> 16) & 0xFF) as byte, ((v >> 8) & 0xFF) as byte, (v & 0xFF) as byte]
  }

  method PutUint16(b: array<byte>, off: nat, v: bv16)
    requires off + 2 <= b.Length
    modifies b
    ensures b[..] == old(b[..off]) + BigEndian16(v) + old(b[off + 2..])
  {
    b[off] := (v >> 8) as byte;
    b[off + 1] := (v & 0xFF) as byte;
  }

  method PutUint32(b: array<byte>, off: nat, v: bv32)
    requires off + 4 <= b.Length
    modifies b
    ensures b[..] == old(b[..off]) + BigEndian32(v) + old(b[off + 4..])
  {
    b[off] := (v >> 24) as byte;
    b[off + 1] := ((v >> 16) & 0xFF) as byte;
    b[off + 2] := ((v >> 8) & 0xFF) as byte;
    b[off + 3] := (v & 0xFF) as byte;
  }

  // ---------------------------------------------------------------------
  // Timestamp fields (bytes 0 to 7)

  /** The eight bytes `insertTimestamp` writes: time_low (the low 32 bits),
      time_mid (bits 32 to 47) and time_hi (bits 48 to 63), each big-endian. */
  function TimeFields(t: bv64): (f: seq<byte>)
    ensures |f| == 8
    ensures Uint32Of(f[0..4]) == (t & 0xFFFF_FFFF) as bv32
    ensures Uint16Of(f[4..6]) == ((t >> 32) & 0xFFFF) as bv16
    ensures Uint16Of(f[6..8]) == (t >> 48) as bv16
  {
    BigEndian32((t & 0xFFFF_FFFF) as bv32) + BigEndian16(((t >> 32) & 0xFFFF) as bv16) + BigEndian16((t >> 48) as bv16)
  }

  /** Reads the timestamp back out of the three time fields. */
  function ReadTimestamp(f: seq<byte>): bv64
    requires |f| >= 8
  {
    (Uint16Of(f[6..8]) as bv64 << 48) | (Uint16Of(f[4..6]) as bv64 << 32) | Uint32Of(f[0..4]) as bv64
  }

  /** The time fields lose nothing: reading them back gives the timestamp. */
  lemma TimeFieldsRoundTrip(t: bv64)
    ensures ReadTimestamp(TimeFields(t)) == t
  {
    var f := TimeFields(t);
    assert Uint32Of(f[0..4]) as bv64 == t & 0xFFFF_FFFF;
    assert Uint16Of(f[4..6]) as bv64 == (t >> 32) & 0xFFFF;
    assert Uint16Of(f[6..8]) as bv64 == t >> 48;
  }

  /** An all-ones timestamp sets all eight bytes to 0xFF. */
  lemma TimeFieldsAllOnes()
    ensures TimeFields(0xFFFF_FFFF_FFFF_FFFF) == [0xFF, 0xFF, 0xFF, 0xFF, 0xFF, 0xFF, 0xFF, 0xFF]
  {
  }

  method InsertTimestamp(b: array<byte>, t: bv64)
    requires b.Length >= 8
    modifies b
    ensures b[..] == TimeFields(t) + old(b[8..])
  {
    var low, mid, high := (t & 0xFFFF_FFFF) as bv32, ((t >> 32) & 0xFFFF) as bv16, (t >> 48) as bv16;
    ghost var rest := b[8..];
    PutUint32(b, 0, low);
    assert b[..] == BigEndian32(low) + b[4..8] + rest;
    PutUint16(b, 4, mid);
    assert b[..] == BigEndian32(low) + BigEndian16(mid) + b[6..8] + rest;
    PutUint16(b, 6, high);
    assert b[..] == BigEndian32(low) + BigEndian16(mid) + BigEndian16(high) + rest;
  }

  // ---------------------------------------------------------------------
  // Go's built-in `copy`

  /** `copy(dst[off:], src)`: copies as many bytes as fit in both, and
      returns how many it copied. */
  method Copy(dst: array<byte>, off: nat, src: seq<byte>) returns (n: nat)
    requires off <= dst.Length
    modifies dst
    ensures n == if |src| < dst.Length - off then |src| else dst.Length - off
    ensures dst[..] == old(dst[..off]) + src[..n] + old(dst[off + n..])
  {
    n := if |src| < dst.Length - off then |src| else dst.Length - off;
    var i := 0;
    while i < n
      invariant 0 <= i <= n
      invariant dst[..] == old(dst[..off]) + src[..i] + old(dst[off + i..])
    {
      dst[off + i] := src[i];
      i := i + 1;
    }
  }
}
