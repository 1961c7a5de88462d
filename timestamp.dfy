/** The timestamp sources (section 4.1.4 of RFC 4122 and Appendix A of
    DCE 1.1): a 64-bit value produced from the current time, from the time
    mixed with the user's numeric id, or from a pseudo-random number. The
    clock, the user lookup and the random generator are outside the model:
    their readings arrive as an `Environment`. */
module Timestamp {

  /** Offset between the Unix epoch and 1582-10-15, in 100-ns intervals. */
  const EpochOffset: int := 122192928000000000

  const MinInt64: int := -0x8000_0000_0000_0000
  const MaxInt64: int := 0x7FFF_FFFF_FFFF_FFFF
  const TwoTo63: int := 0x8000_0000_0000_0000
  const TwoTo64: int := 0x1_0000_0000_0000_0000

  predicate IsInt64(x: int) {
    MinInt64 <= x <= MaxInt64
  }

  /** A uint64 value. */
  type Uint64 = x: int | 0 <= x < TwoTo64

  // ---------------------------------------------------------------------
  // Go's integer semantics

  /** The result of an int64 operation whose exact value is `x`: Go wraps
      it around into the int64 range. */
  function WrapInt64(x: int): (r: int)
    ensures IsInt64(r)
    ensures IsInt64(x) ==> r == x
    ensures (r - x) % TwoTo64 == 0
  {
    (x - MinInt64) % TwoTo64 + MinInt64
  }

  /** Go's integer `a / 100`, which truncates toward zero (Dafny's `/`
      rounds toward negative infinity for a negative `a`). */
  function TruncDiv100(a: int): (q: int)
    ensures -100 < a - 100 * q < 100
    ensures a > 0 ==> a - 100 * q >= 0
    ensures a < 0 ==> a - 100 * q <= 0
    ensures a >= 0 ==> q == a / 100
  {
    if a >= 0 then a / 100 else -((-a) / 100)
  }

  /** Go's `uint64(x)` for an int64 `x`: the same 64 bits, read unsigned. */
  function ToUint64(x: int): (r: Uint64)
    requires IsInt64(x)
    ensures x >= 0 ==> r == x
    ensures x < 0 ==> r == x + TwoTo64
  {
    x % TwoTo64
  }

  // ---------------------------------------------------------------------
  // The sources

  /** `getUUIDEpochTime` as written: the offset is added to the Unix time in
      nanoseconds (an int64 sum), the sum is divided by 100 with Go's
      truncating division and the quotient is converted to uint64. While
      the sum is a non-negative int64 this is plain division. */
  function EpochTime(unixNano: int): (r: Uint64)
    requires IsInt64(unixNano)
    ensures 0 <= unixNano + EpochOffset <= MaxInt64 ==> r == (unixNano + EpochOffset) / 100
  {
    ToUint64(TruncDiv100(WrapInt64(unixNano + EpochOffset)))
  }

  /** Later clock readings never give an earlier timestamp, as long as the
      sum stays a non-negative int64. */
  lemma EpochTimeMonotone(a: int, b: int)
    requires IsInt64(a) && IsInt64(b)
    requires 0 <= a + EpochOffset && a <= b && b + EpochOffset <= MaxInt64
    ensures EpochTime(a) <= EpochTime(b)
  {
  }

  /** `getUUIDEpochTime` as section 4.1.4 of RFC 4122 intends it: the
      clock reading is first turned into 100-ns intervals, and then the
      offset, which is in those units, is added. For every int64 clock
      reading the sum is a positive int64, so nothing wraps. The result counts
      the 100-ns intervals since 1582-10-15 00:00 UTC. */
  function GregorianTime(unixNano: int): (r: Uint64)
    requires IsInt64(unixNano)
    ensures 0 < r < TwoTo63
    ensures -100 < unixNano - 100 * (r - EpochOffset) < 100
    ensures unixNano >= 0 ==> r == (unixNano + 100 * EpochOffset) / 100
  {
    ToUint64(WrapInt64(TruncDiv100(unixNano) + EpochOffset))
  }

  /** The Unix epoch lies `EpochOffset` intervals after the Gregorian epoch. */
  lemma GregorianTimeAtUnixEpoch()
    ensures GregorianTime(0) == EpochOffset
  {
  }

  /** Later clock readings never give an earlier corrected timestamp. */
  lemma GregorianTimeMonotone(a: int, b: int)
    requires IsInt64(a) && IsInt64(b) && a <= b
    ensures GregorianTime(a) <= GregorianTime(b)
  {
  }

  /** Adding whole hundreds before dividing by 100 adds whole units after. */
  lemma DivAddHundreds(n: int, k: int)
    requires n >= 0 && k >= 0
    ensures (n + 100 * k) / 100 == n / 100 + k
  {
  }

  /** The code as written adds the offset to nanoseconds, so it gives one
      hundredth of the offset where the corrected time gives the whole of it:
      wherever nothing wraps, every as-written timestamp lies
      `EpochOffset - EpochOffset / 100` intervals (about 383 years) before
      the corrected one. */
  lemma {:induction false} EpochTimeShifted(unixNano: int)
    requires IsInt64(unixNano)
    requires 0 <= unixNano && unixNano + EpochOffset <= MaxInt64
    ensures GregorianTime(unixNano) - EpochTime(unixNano) == EpochOffset - EpochOffset / 100
    ensures EpochTime(0) == EpochOffset / 100 != GregorianTime(0)
  {
    assert EpochOffset == 100 * (EpochOffset / 100);
    DivAddHundreds(unixNano, EpochOffset / 100);
    DivAddHundreds(unixNano, EpochOffset);
  }

  /** The upper and lower 32 bits of a 64-bit value. */
  const HighHalf: bv64 := 0xFFFF_FFFF_0000_0000
  const LowHalf: bv64 := 0x0000_0000_FFFF_FFFF

  /** The `uuidDCE` combine `t ^ 0xFFFFFFFF | uint64(uid)`, given the
      uint64 bits of the user id: in Go `^` and `|` have the same precedence
      and group to the left, so the low 32 bits of `t` are inverted and then
      the user id is or-ed in. For an id below 2^32 only time_low changes. */
  function DceTimestamp(t: bv64, uid: bv64): (r: bv64)
    ensures r & uid == uid
    ensures uid & HighHalf == 0 ==> r & HighHalf == t & HighHalf
    ensures uid & HighHalf == 0 ==> r & LowHalf == (!t & LowHalf) | uid
  {
    (t ^ 0xFFFF_FFFF) | uid
  }

  /** The `uuidRand` value `uint64(rand.Int63())`: `rand.Int63` returns a
      number in [0, 2^63), which the conversion leaves as it is. */
  function RandTimestamp(r63: int): (r: Uint64)
    requires 0 <= r63 < TwoTo63
    ensures r == r63 && r < TwoTo63
  {
    ToUint64(r63)
  }

  // ---------------------------------------------------------------------
  // The `timestamp` interface

  /** The three implementations of the `timestamp` interface. */
  datatype TimeSource = UuidTime | UuidDCE | UuidRand

  /** What the outside world would report: `time.Now().UnixNano()`, the
      current user's numeric id, and the next `rand.Int63()`. */
  datatype Environment = Environment(unixNano: int, uid: int, rand63: int) {
    predicate Valid() {
      IsInt64(unixNano) && IsInt64(uid) && 0 <= rand63 < TwoTo63
    }
  }

  /** `timeSource.timestamp()`, dispatched on the source: `uuidTime` gives
      `getUUIDEpochTime()` as written, `uuidDCE` mixes that value with the
      user id, and `uuidRand` gives the `Int63` value; the uint64 result as
      64 bits. */
  function Produce(src: TimeSource, env: Environment): (r: bv64)
    requires env.Valid()
    ensures src.UuidTime? && 0 <= env.unixNano + EpochOffset <= MaxInt64 ==>
      r == PlainEpoch(env.unixNano) as bv64
    ensures src.UuidDCE? ==> r == DceTimestamp(UuidTimeBits(env.unixNano), ToUint64(env.uid) as bv64)
    ensures src.UuidRand? ==> r == env.rand63 as bv64
  {
    match src
    case UuidTime => UuidTimeBits(env.unixNano)
    case UuidDCE => UuidDceBits(env.unixNano, env.uid)
    case UuidRand => UuidRandBits(env.rand63)
  }

  /** For a user id below 2^32, the `uuidDCE` value keeps the upper 32
      bits of the `uuidTime` value. */
  lemma DceKeepsUpperHalf(env: Environment)
    requires env.Valid() && 0 <= env.uid < 0x1_0000_0000
    ensures Produce(UuidDCE, env) & HighHalf == Produce(UuidTime, env) & HighHalf
  {
    var t := Produce(UuidTime, env);
    var uid := ToUint64(env.uid) as bv64;
    assert uid & HighHalf == 0;
    assert Produce(UuidDCE, env) == DceTimestamp(t, uid);
  }

  /** `uuidDCE.timestamp()` as 64 bits: the DCE combine of the `uuidTime`
      value and the user id's uint64 bits. */
  function UuidDceBits(unixNano: int, uid: int): (r: bv64)
    requires IsInt64(unixNano) && IsInt64(uid)
    ensures r & (ToUint64(uid) as bv64) == ToUint64(uid) as bv64
  {
    DceTimestamp(UuidTimeBits(unixNano), ToUint64(uid) as bv64)
  }

  /** The plain quotient `(unixNano + EpochOffset) / 100`, defined while the
      sum is a non-negative int64. */
  function PlainEpoch(unixNano: int): (q: Uint64)
    requires 0 <= unixNano + EpochOffset <= MaxInt64
  {
    (unixNano + EpochOffset) / 100
  }

  /** `uuidTime.timestamp()` as 64 bits. */
  function UuidTimeBits(unixNano: int): (r: bv64)
    requires IsInt64(unixNano)
    ensures 0 <= unixNano + EpochOffset <= MaxInt64 ==> r == PlainEpoch(unixNano) as bv64
  {
    EpochTime(unixNano) as bv64
  }

  /** `uuidRand.timestamp()` as 64 bits. */
  function UuidRandBits(r63: int): (r: bv64)
    requires 0 <= r63 < TwoTo63
    ensures r == r63 as bv64
  {
    RandTimestamp(r63) as bv64
  }
}
