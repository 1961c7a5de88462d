/** UUID generation: the time-based versions 1 and 2 share a clock sequence
    and a node address (the package globals `clockSeq`, `addr` and
    `timeSource`, here the fields of a `Generator`), version 4 fills random
    bytes, and versions 3 and 5 hash a namespace and a name (section 4.3 of
    RFC 4122). Each generator call is one atomic method; the mutex that
    makes it atomic in Go is not modelled. */
module Generator {
  import opened UuidTypes
  import opened Layout
  import opened Codec
  import opened Timestamp

  // ---------------------------------------------------------------------
  // Specifications of the generated identifiers

  /** The identifier versions 1 and 2 build: the timestamp in bytes 0-7,
      the version in byte 6's top nibble, the clock sequence big-endian in
      bytes 8-9 with the RFC 4122 variant stamped over byte 8, and the node
      address in bytes 10-15. */
  function TimeBased(t: bv64, version: byte, clockSeq: bv16, node: NodeAddr): (u: UUID)
  {
    var f := TimeFields(t);
    var cs := BigEndian16(clockSeq);
    f[..6] + [VersionByte(f[6], version), f[7], VariantByte(cs[0], Rfc4122), cs[1]] + node
  }

  /** The buffer updates of a time-based call, applied in order to a
      16-byte buffer, give `TimeBased`. */
  lemma TimeBasedSteps(t: bv64, version: byte, clockSeq: bv16, node: NodeAddr,
                       s0: seq<byte>, s1: seq<byte>, s2: seq<byte>, s3: seq<byte>, s4: seq<byte>, s5: seq<byte>)
    requires |s0| == UuidSize
    requires s1 == TimeFields(t) + s0[8..]
    requires s2 == s1[6 := VersionByte(s1[6], version)]
    requires s3 == s2[..8] + BigEndian16(clockSeq) + s2[10..]
    requires s4 == s3[8 := VariantByte(s3[8], Rfc4122)]
    requires s5 == s4[..10] + node[..6] + s4[16..]
    ensures s5 == TimeBased(t, version, clockSeq, node)
  {
    assert node[..6] == node;
  }

  /** What a time-based identifier holds, field by field. */
  lemma TimeBasedFields(t: bv64, version: byte, clockSeq: bv16, node: NodeAddr)
    ensures var u := TimeBased(t, version, clockSeq, node);
      && u[..6] == TimeFields(t)[..6]
      && u[6] & 0x0F == TimeFields(t)[6] & 0x0F && u[7] == TimeFields(t)[7]
      && u[6] >> 4 == version & 0x0F
      && u[8] == ((clockSeq >> 8) as byte & 0x3F) | 0x80
      && u[9] == (clockSeq & 0xFF) as byte
      && u[10..] == node
  {
    var u := TimeBased(t, version, clockSeq, node);
    assert u[10..] == node;
  }

  /** A version 1 or 2 identifier passes `FromBytes` without error. */
  lemma TimeBasedAccepted(t: bv64, version: byte, clockSeq: bv16, node: NodeAddr)
    requires version == 1 || version == 2
    ensures FromBytes(TimeBased(t, version, clockSeq, node)) == UuidResult(TimeBased(t, version, clockSeq, node), None)
  {
  }

  /** Bytes 4-7 (time_mid and time_hi) depend only on the upper 32 bits. */
  lemma TimeMidAndHighFromHighHalf(x: bv64, y: bv64)
    requires x & HighHalf == y & HighHalf
    ensures TimeFields(x)[4..] == TimeFields(y)[4..]
  {
    assert ((x >> 32) & 0xFFFF) as bv16 == ((y >> 32) & 0xFFFF) as bv16;
    assert (x >> 48) as bv16 == (y >> 48) as bv16;
    TimeFieldsTail(x);
    TimeFieldsTail(y);
  }

  lemma TimeFieldsTail(x: bv64)
    ensures TimeFields(x)[4..] == BigEndian16(((x >> 32) & 0xFFFF) as bv16) + BigEndian16((x >> 48) as bv16)
  {
    var a := BigEndian32((x & 0xFFFF_FFFF) as bv32);
    var b := BigEndian16(((x >> 32) & 0xFFFF) as bv16) + BigEndian16((x >> 48) as bv16);
    assert TimeFields(x) == a + b;
    assert (a + b)[4..] == b;
  }

  /** For a user id below 2^32 the DCE timestamp leaves bytes 4-7 (time_mid
      and time_hi) as the plain timestamp would; only time_low differs. */
  lemma DceKeepsTimeMidAndHigh(t: bv64, uid: bv64)
    requires uid & HighHalf == 0
    ensures TimeFields(DceTimestamp(t, uid))[4..] == TimeFields(t)[4..]
  {
    TimeMidAndHighFromHighHalf(DceTimestamp(t, uid), t);
  }

  /** The identifier version 4 builds: the timestamp in bytes 0-7, version
      4, the RFC 4122 variant stamped on a zero byte 8, and the seven random
      bytes in 9-15. */
  function RandomBased(t: bv64, random: seq<byte>): (u: UUID)
    requires |random| == 7
  {
    var f := TimeFields(t);
    f[..6] + [VersionByte(f[6], 4), f[7], VariantByte(0, Rfc4122)] + random
  }

  /** A version 4 identifier: version nibble 4, byte 8 exactly 0x80, the
      random bytes in 9-15, and it passes `FromBytes`. */
  lemma RandomBasedFields(t: bv64, random: seq<byte>)
    requires |random| == 7
    ensures var u := RandomBased(t, random);
      && u[..6] == TimeFields(t)[..6]
      && u[6] >> 4 == 4 && u[6] & 0x0F == TimeFields(t)[6] & 0x0F
      && u[8] == 0x80
      && u[9..] == random
      && FromBytes(u) == UuidResult(u, None)
  {
    var u := RandomBased(t, random);
    assert u[9..] == random;
  }

  /** The first 16 bytes of a digest as `copy` puts them into a zero UUID:
      a shorter digest leaves the remaining bytes zero. */
  function DigestPrefix(d: seq<byte>): (c: UUID)
    ensures forall k :: 0 <= k < UuidSize ==> c[k] == if k < |d| then d[k] else 0
  {
    if |d| >= UuidSize then d[..UuidSize] else d + ZeroUuid[|d|..]
  }

  /** The identifier versions 3 and 5 build from a digest: its first 16
      bytes with the version and the RFC 4122 variant stamped over them. */
  function NameBased(d: seq<byte>, version: byte): (u: UUID)
  {
    var c := DigestPrefix(d);
    c[6 := VersionByte(c[6], version)][8 := VariantByte(c[8], Rfc4122)]
  }

  /** A name-based identifier is the digest's first 16 bytes, changed only
      in byte 6's top nibble and byte 8's top two bits; versions 3 and 5
      pass `FromBytes`. */
  lemma NameBasedFields(d: seq<byte>, version: byte)
    requires |d| >= UuidSize
    ensures var u := NameBased(d, version);
      && (forall k :: 0 <= k < UuidSize && k != 6 && k != 8 ==> u[k] == d[k])
      && u[6] >> 4 == version & 0x0F && u[6] & 0x0F == d[6] & 0x0F
      && u[8] >> 6 == 2 && u[8] & 0x3F == d[8] & 0x3F
      && (version == 3 || version == 5 ==> FromBytes(u) == UuidResult(u, None))
  {
  }

  // ---------------------------------------------------------------------
  // Name-based generation (no shared state)

  /** Copies the digest of `namespace ++ name` into a zero buffer and
      stamps `version` and the RFC 4122 variant. */
  method NewHashBased(namespace: UUID, name: seq<byte>, hash: seq<byte> -> seq<byte>, version: byte)
    returns (u: UUID)
    ensures u == NameBased(hash(namespace + name), version)
  {
    var b := new byte[UuidSize](_ => 0);
    var d := hash(namespace + name);
    var n := Copy(b, 0, d);
    assert b[..] == DigestPrefix(d);
    SetVersion(b, version);
    SetVariant(b, Rfc4122);
    u := b[..];
  }

  /** `NewV3`: the MD5 digest (a parameter here) of the namespace's 16
      bytes followed by the name's bytes, stamped as version 3. */
  method NewV3(namespace: UUID, name: seq<byte>, md5: seq<byte> -> seq<byte>) returns (u: UUID)
    ensures u == NameBased(md5(namespace + name), 3)
  {
    u := NewHashBased(namespace, name, md5, 3);
  }

  /** `NewV5`: as `NewV3`, with SHA-1 (whose 20-byte digest is cut to 16)
      and version 5. */
  method NewV5(namespace: UUID, name: seq<byte>, sha1: seq<byte> -> seq<byte>) returns (u: UUID)
    ensures u == NameBased(sha1(namespace + name), 5)
  {
    u := NewHashBased(namespace, name, sha1, 5);
  }

  // ---------------------------------------------------------------------
  // Node address

  /** The address `hardwareAddr` settles on: the first interface address
      longer than five bytes, cut to six; `fallback` (the random bytes) if
      the interfaces cannot be listed or none is long enough. */
  function SelectAddr(interfaces: Option<seq<seq<byte>>>, fallback: NodeAddr): NodeAddr {
    match interfaces
    case None => fallback
    case Some(list) => FirstLongAddr(list, fallback)
  }

  function FirstLongAddr(list: seq<seq<byte>>, fallback: NodeAddr): NodeAddr {
    if list == [] then fallback
    else if |list[0]| > 5 then list[0][..6]
    else FirstLongAddr(list[1..], fallback)
  }

  /** The first long-enough address is the one chosen. */
  lemma {:induction false} FirstLongAddrChosen(list: seq<seq<byte>>, fallback: NodeAddr, i: nat)
    requires i < |list| && |list[i]| > 5
    requires forall j :: 0 <= j < i ==> |list[j]| <= 5
    ensures FirstLongAddr(list, fallback) == list[i][..6]
  {
    if i > 0 {
      FirstLongAddrChosen(list[1..], fallback, i - 1);
    }
  }

  /** With no address longer than five bytes the fallback is chosen. */
  lemma {:induction false} FirstLongAddrFallback(list: seq<seq<byte>>, fallback: NodeAddr)
    requires forall j :: 0 <= j < |list| ==> |list[j]| <= 5
    ensures FirstLongAddr(list, fallback) == fallback
  {
    if list != [] {
      FirstLongAddrFallback(list[1..], fallback);
    }
  }

  /** `hardwareAddr`, over the interface addresses `net.Interfaces` would
      list (`None` for its error) and the bytes `randomBytes` would give. */
  method HardwareAddr(interfaces: Option<seq<seq<byte>>>, random: NodeAddr) returns (addr: NodeAddr)
    ensures addr == SelectAddr(interfaces, random)
  {
    if interfaces.None? {
      return random;
    }
    var list := interfaces.value;
    var i := 0;
    while i < |list|
      invariant 0 <= i <= |list|
      invariant forall j :: 0 <= j < i ==> |list[j]| <= 5
    {
      if |list[i]| > 5 {
        FirstLongAddrChosen(list, random, i);
        return list[i][..6];
      }
      i := i + 1;
    }
    FirstLongAddrFallback(list, random);
    return random;
  }

  /** `clockSeqInit`: two random bytes read big-endian. */
  function ClockSeqInit(b: seq<byte>): (cs: bv16)
    requires |b| == 2
    ensures BigEndian16(cs) == b
  {
    Uint16Of(b)
  }

  // ---------------------------------------------------------------------
  // The shared generator state

  /** The buffer work of a time-based call: timestamp, version, clock
      sequence, variant (after the clock sequence, which it partly
      overwrites), node address, on a zeroed array. */
  method BuildTimeBased(t: bv64, version: byte, clockSeq: bv16, node: NodeAddr) returns (u: UUID)
    ensures u == TimeBased(t, version, clockSeq, node)
  {
    var b := new byte[UuidSize](_ => 0);
    ghost var s0 := b[..];
    InsertTimestamp(b, t);
    ghost var s1 := b[..];
    SetVersion(b, version);
    ghost var s2 := b[..];
    PutUint16(b, 8, clockSeq);
    ghost var s3 := b[..];
    SetVariant(b, Rfc4122);
    ghost var s4 := b[..];
    var n := Copy(b, 10, node);
    u := b[..];
    TimeBasedSteps(t, version, clockSeq, node, s0, s1, s2, s3, s4, u);
  }

  /** The buffer work of `NewV4`: timestamp, version 4, the variant on the
      zero byte 8, then the random bytes over bytes 9-15. */
  method BuildRandomBased(t: bv64, random: seq<byte>) returns (u: UUID)
    requires |random| == 7
    ensures u == RandomBased(t, random)
  {
    var b := new byte[UuidSize](_ => 0);
    InsertTimestamp(b, t);
    SetVersion(b, 4);
    SetVariant(b, Rfc4122);
    var n := Copy(b, 9, random);
    u := b[..];
  }

  class Generator {
    /** The clock sequence, bumped (mod 2^16) by every v1 and v2 call. */
    var clockSeq: bv16
    /** The node address, fixed when the generator starts. */
    const addr: NodeAddr
    /** The source last used; `None` before the first call. */
    var timeSource: Option<TimeSource>

    /** Start-up: the clock sequence from two random bytes, the node
        address from the interfaces (or the random fallback). */
    constructor (clockBytes: seq<byte>, interfaces: Option<seq<seq<byte>>>, randomNode: NodeAddr)
      requires |clockBytes| == 2
      ensures clockSeq == ClockSeqInit(clockBytes)
      ensures addr == SelectAddr(interfaces, randomNode)
      ensures timeSource == None
    {
      var a := HardwareAddr(interfaces, randomNode);
      clockSeq := ClockSeqInit(clockBytes);
      addr := a;
      timeSource := None;
    }

    /** The body shared by `NewV1` and `NewV2`: the source is recorded, the
        clock sequence incremented, and the identifier built from them. */
    method NewTimeBased(src: TimeSource, version: byte, env: Environment) returns (u: UUID)
      requires env.Valid()
      modifies this
      ensures timeSource == Some(src)
      ensures clockSeq == old(clockSeq) + 1
      ensures u == TimeBased(Produce(src, env), version, clockSeq, addr)
    {
      timeSource := Some(src);
      var t := Produce(src, env);
      clockSeq := clockSeq + 1;
      u := BuildTimeBased(t, version, clockSeq, addr);
    }

    /** `NewV1`: a time-based identifier from `getUUIDEpochTime` as written. The clock
        sequence wraps from 0xFFFF to 0. */
    method NewV1(env: Environment) returns (u: UUID)
      requires env.Valid()
      modifies this
      ensures timeSource == Some(UuidTime)
      ensures clockSeq == old(clockSeq) + 1
      ensures old(clockSeq) == 0xFFFF ==> clockSeq == 0
      ensures u == TimeBased(Produce(UuidTime, env), 1, clockSeq, addr)
    {
      u := NewTimeBased(UuidTime, 1, env);
    }

    /** `NewV2`: as `NewV1`, with the DCE timestamp and version 2; the node
        address is copied as well. */
    method NewV2(env: Environment) returns (u: UUID)
      requires env.Valid()
      modifies this
      ensures timeSource == Some(UuidDCE)
      ensures clockSeq == old(clockSeq) + 1
      ensures old(clockSeq) == 0xFFFF ==> clockSeq == 0
      ensures u == TimeBased(Produce(UuidDCE, env), 2, clockSeq, addr)
    {
      u := NewTimeBased(UuidDCE, 2, env);
    }

    /** `NewV4`: the random timestamp, version 4, the variant on a zero byte
        8, then the seven bytes `randomBytes` would write into bytes 9-15.
        The clock sequence is not touched. */
    method NewV4(env: Environment, random: seq<byte>) returns (u: UUID)
      requires env.Valid() && |random| == 7
      modifies this
      ensures timeSource == Some(UuidRand)
      ensures clockSeq == old(clockSeq)
      ensures u == RandomBased(Produce(UuidRand, env), random)
    {
      timeSource := Some(UuidRand);
      var t := Produce(UuidRand, env);
      u := BuildRandomBased(t, random);
    }
  }
}
