# UUID generation and parsing (RFC 4122), modelled in Dafny

This project models the core of a small Go library that builds and parses
RFC 4122 identifiers. A UUID is 16 bytes. The library can:

- stamp the version nibble (byte 6) and the variant bits (byte 8);
- write a 64-bit timestamp big-endian into time_low, time_mid and time_hi (bytes 0-7);
- produce version 1 (Gregorian time), version 2 (DCE: time mixed with the user id) and version 4 (random) identifiers, sharing a clock sequence and a node address;
- produce versions 3 and 5 from an MD5 or SHA-1 digest of a namespace and a name;
- render the canonical 8-4-4-4-12 lower-case string;
- parse a string back (hyphens removed, hex decoded, then checked against the canonical pattern);
- parse the four predefined namespaces of Appendix C of RFC 4122 at start-up.

Modules, one per part of the program:

- `UuidTypes`: the byte (`bv8`, so Go's truncating shifts come for free), the 16-byte `UUID`, the errors, and Go's `(UUID, error)` pair.
- `Layout`: `version`, `variant`, `insertTimestamp`, `PutUint16`/`PutUint32` and Go's `copy`. These are methods on `array<byte>`, each specified by a function on the new contents.
- `Codec`: `hex.EncodeToString`, `hex.DecodeString`, the removal of hyphens, `String`, `FromBytes` and `FromString`. The regular expression becomes the predicate `MatchesUuidPattern`, and a lemma shows it is the byte predicate `WellFormed`.
- `Timestamp`: the epoch arithmetic with Go's int64 wrap-around, truncating division and uint64 conversion; the DCE combine; the range of the random value.
- `Generator`: a class whose fields are the package globals `clockSeq`, `addr` and `timeSource`, with `NewV1`, `NewV2` and `NewV4` on it. `NewV3`/`NewV5`, `hardwareAddr` and `clockSeqInit` are module-level.
- `Namespace`: the four constants and a class holding the four package variables that `initNamespace` assigns.

The clock, the user lookup, the random generator, the network interfaces and the hash functions are parameters:

- `Environment` carries the clock reading, the user id and the random value;
- the random bytes are given directly;
- `interfaces` is an option of a list of addresses;
- `md5` and `sha1` are functions.

## Model

| member | source | states |
|---|---|---|
| Layout.VersionByte | uuid.go:213-215 | the new byte 6 keeps the old low nibble and has the low four bits of `v` on top; for `v <= 15` the top nibble is `v` |
| Layout.VersionOnZero | uuid.go:214 | stamping version `v` on a zero byte gives exactly `v << 4` |
| Layout.SetVersion | uuid.go:213-215 | only byte 6 changes, to `VersionByte` of its old value |
| Layout.VariantMask | uuid.go:219-231 | the mask is 0x1F exactly for the future selector, else 0x3F |
| Layout.VariantByte | uuid.go:218-234 | RFC 4122: top bits `10`, low six kept, value in 0x80..0xBF; future: top bits `111`; the low five bits are always kept |
| Layout.SetVariant | uuid.go:218-234 | only byte 8 changes, to `VariantByte` of its old value |
| Layout.BigEndian16 | uuid.go:67 | two bytes, most significant first, that read back as the value |
| Layout.BigEndian32 | uuid.go:238 | four bytes, most significant first, that read back as the value |
| Layout.PutUint16 | uuid.go:67 | bytes `off`, `off+1` become the big-endian value, the rest of the buffer is unchanged |
| Layout.PutUint32 | uuid.go:238 | bytes `off` to `off+3` become the big-endian value, the rest of the buffer is unchanged |
| Layout.TimeFields | uuid.go:236-241 | the 8 bytes read as: time_low = low 32 bits, time_mid = bits 32-47, time_hi = bits 48-63 |
| Layout.TimeFieldsRoundTrip | uuid.go:236-241 | reading the three fields back gives the whole 64-bit timestamp |
| Layout.TimeFieldsAllOnes | uuid_test.go:17-28 | an all-ones timestamp writes eight 0xFF bytes |
| Layout.InsertTimestamp | uuid.go:236-241 | bytes 0-7 become `TimeFields(t)`, bytes 8 onward are unchanged |
| Layout.Copy | uuid.go:70 | copies `min(len(src), room)` bytes at `off` and reports that count; nothing else changes |
| Codec.HexDigit | uuid.go:207 | a lower-case hex digit, a decimal digit exactly for nibbles below 10 |
| Codec.HexValue | uuid.go:176 | a value exactly for the 22 hex characters of either case, and it is below 16 |
| Codec.HexValueUpper | uuid.go:176 | an upper-case letter `A`-`F` has the value of its lower-case form |
| Codec.HexValueOfDigit | uuid.go:176 | the value of the digit written for a nibble is that nibble |
| Codec.HexDigitInjective | uuid.go:207 | two nibbles give the same digit iff they are equal |
| Codec.Encode | uuid.go:207 | two characters per byte |
| Codec.EncodeAt | uuid.go:207 | byte `k` is written as its high then its low nibble at `2k`, `2k+1` |
| Codec.EncodeLowerHex | uuid.go:207 | every encoded character is lower-case hex |
| Codec.EncodeAppend | uuid.go:207 | encoding distributes over concatenation |
| Codec.HexDecode | uuid.go:176-180 | success iff even length and all hex; half as many bytes; `ErrHexLength` iff odd length and all hex; otherwise the first non-hex character of the input is reported |
| Codec.HexDecodeAt | uuid.go:176 | decoded byte `k` is the value of the digits at `2k` (high) and `2k+1` (low) |
| Codec.DecodeEncode | uuid.go:176-207 | decoding an encoding gives the bytes back |
| Codec.RemoveDashes | uuid.go:174 | no hyphen is left, only characters of the input appear, and a hyphen-free string is unchanged |
| Codec.RemoveDashesAppend | uuid.go:174 | hyphen removal distributes over concatenation |
| Codec.String | uuid.go:205-208 | 36 characters |
| Codec.StringGroups | uuid.go:207 | the string is the five hex groups of 4-2-2-2-6 bytes with hyphens between them |
| Codec.StringByte | uuid.go:207 | byte `k` is written as two lower-case digits at its position in the string |
| Codec.StringLayout | uuid.go:205-208 | a hyphen exactly at 8, 13, 18 and 23; lower-case hex elsewhere; the k-th pair encodes byte k |
| Codec.StringDashesRemoved | uuid.go:174-207 | removing the hyphens leaves the five groups' hex joined |
| Codec.EncodeGroups | uuid.go:207 | the five groups' hex joined is the hex of all 16 bytes |
| Codec.StringWithoutDashes | uuid.go:174-207 | the canonical string without hyphens is the plain hex of the UUID |
| Codec.MatchesUuidPattern | uuid.go:31 | the regular expression as a predicate: 36 characters, lower-case hex groups of 8-4-4-4-12 separated by hyphens, `[1-5]` first in the third group and `[89ab]` first in the fourth |
| Codec.PatternIffWellFormed | uuid.go:198 | the pattern holds of `String(u)` iff byte 6 >> 4 is in 1..5 and byte 8 >> 6 is 2 |
| Codec.FromBytes | uuid.go:186-203 | wrong length: zero UUID and `ErrUUIDSize`; else the UUID is the input, and no error iff well formed, else `ErrUUIDFormat` |
| Codec.FromString | uuid.go:168-184 | on a decoding error the zero UUID and that error; an even number of hex digits other than 32 gives the zero UUID and `ErrUUIDSize`; 32 hex digits give the decoded bytes, with no error iff they are well formed and `ErrUUIDFormat` otherwise |
| Codec.DashesIgnored | uuid.go:174 | hyphens anywhere do not change the result |
| Codec.FromStringOfString | uuid.go:168-208 | parsing the canonical string gives the same bytes, without error iff they are well formed, else `ErrUUIDFormat` |
| Timestamp.WrapInt64 | timestamp.go:22 | the int64 result congruent to the exact sum mod 2^64, equal to it when it fits |
| Timestamp.TruncDiv100 | timestamp.go:22 | Go's integer division by 100: `a - 100*q` lies strictly between -100 and 100 and has the sign of `a`; for `a >= 0` it is Dafny's `a / 100` |
| Timestamp.ToUint64 | timestamp.go:22 | `uint64(x)`: unchanged if non-negative, plus 2^64 if negative |
| Timestamp.EpochTime | timestamp.go:21-34 | `(unixNano + 122192928000000000) / 100` whenever the sum is a non-negative int64 |
| Timestamp.EpochTimeMonotone | timestamp.go:21-23 | a later clock reading never gives a smaller timestamp, while both sums `unixNano + 122192928000000000` are non-negative int64 values |
| Timestamp.GregorianTime | timestamp.go:21-23 | corrected: a positive int64 for every clock reading, within one interval of the clock reading in 100-ns units plus the offset; for a reading `>= 0`, exactly the nanoseconds since 1582-10-15 divided by 100 |
| Timestamp.GregorianTimeAtUnixEpoch | timestamp.go:10-11 | the Unix epoch is 122192928000000000 intervals after the Gregorian epoch |
| Timestamp.GregorianTimeMonotone | timestamp.go:21-23 | a later clock reading never gives a smaller corrected timestamp |
| Timestamp.EpochTimeShifted | timestamp.go:21-23 | as written, for clock readings from 1970 on whose sum does not wrap, every timestamp lies `EpochOffset - EpochOffset/100` intervals before the corrected one; at the Unix epoch it is one hundredth of the offset |
| Timestamp.Produce | timestamp.go:17-45 | the `timestamp()` dispatch: `uuidTime` gives `getUUIDEpochTime()` as written, `(unixNano + 122192928000000000) / 100` while the sum is a non-negative int64; `uuidDCE` gives `DceTimestamp` of the `uuidTime` value and the uid's uint64 bits; `uuidRand` gives the `Int63` value |
| Timestamp.DceKeepsUpperHalf | timestamp.go:41-45 | for a uid below 2^32, the `uuidDCE` value has the same upper 32 bits as the `uuidTime` value |
| Timestamp.UuidDceBits | timestamp.go:41-45 | `uuidDCE.timestamp()`: every bit of the uid's uint64 form is set in the result |
| Timestamp.UuidTimeBits | timestamp.go:32-34 | `uuidTime.timestamp()`: `(unixNano + 122192928000000000) / 100` as 64 bits while the sum is a non-negative int64 |
| Timestamp.UuidRandBits | timestamp.go:70-73 | `uuidRand.timestamp()`: the `Int63` value as 64 bits |
| Timestamp.DceTimestamp | timestamp.go:41-45 | every bit of the uid is set; for a uid below 2^32 the upper 32 bits are t's and the lower 32 are `~t_low` or-ed with the uid |
| Timestamp.RandTimestamp | timestamp.go:70-73 | the value is the `Int63` result, below 2^63 |
| Generator.TimeBasedSteps | uuid.go:62-70 | the buffer steps of a time-based call, applied in order, give `TimeBased` |
| Generator.TimeBasedFields | uuid.go:53-95 | bytes 0-5 and 7 from the timestamp; version in byte 6's top; byte 8 = (clockSeq high & 0x3F) \| 0x80; byte 9 = clockSeq low; bytes 10-15 = the node |
| Generator.TimeBasedAccepted | uuid.go:63-95 | versions 1 and 2 pass `FromBytes` without error |
| Generator.TimeMidAndHighFromHighHalf | uuid.go:239-240 | time_mid and time_hi depend only on the upper 32 bits |
| Generator.DceKeepsTimeMidAndHigh | timestamp.go:36-44 | for a uid below 2^32, bytes 4-7 of a v2 timestamp equal those of the plain timestamp |
| Generator.RandomBasedFields | uuid.go:124-140 | version 4, byte 8 exactly 0x80, bytes 9-15 the random bytes, passes `FromBytes` |
| Generator.DigestPrefix | uuid.go:115 | byte k of the buffer is digest byte k, or 0 past a short digest |
| Generator.NameBasedFields | uuid.go:115-118 | the digest's first 16 bytes, changed only in byte 6's top nibble (the version) and byte 8's top two bits (`10`); versions 3 and 5 pass `FromBytes` |
| Generator.NewHashBased | uuid.go:98-166 | the result is `NameBased` of the digest of namespace ++ name, so equal inputs give equal outputs |
| Generator.NewV3 | uuid.go:98-121 | `NameBased(md5(namespace ++ name), 3)` |
| Generator.NewV5 | uuid.go:143-166 | `NameBased(sha1(namespace ++ name), 5)` |
| Generator.FirstLongAddrChosen | uuid.go:259-264 | the first address longer than five bytes is chosen, cut to six |
| Generator.FirstLongAddrFallback | uuid.go:266-269 | with no such address the random fallback is chosen |
| Generator.HardwareAddr | uuid.go:247-270 | the loop with early return gives `SelectAddr`: the fallback on an interface error, else the first long address, else the fallback |
| Generator.ClockSeqInit | uuid.go:273-277 | the initial clock sequence is the two random bytes read big-endian |
| Generator.BuildTimeBased | uuid.go:62-70 | the array steps of v1/v2 produce `TimeBased` |
| Generator.BuildRandomBased | uuid.go:132-137 | the array steps of v4 produce `RandomBased` |
| Generator.Generator.constructor | uuid.go:27-29 | clock sequence from the random bytes, node address from `hardwareAddr`, no time source yet |
| Generator.Generator.NewTimeBased | uuid.go:57-72 | records the source, increments the clock sequence, and builds `TimeBased` with the new value |
| Generator.Generator.NewV1 | uuid.go:53-73 | clock sequence + 1 mod 2^16 (0xFFFF wraps to 0); the result is `TimeBased` of the `uuidTime` value as written (`getUUIDEpochTime`), version 1, the new clock sequence and `addr` |
| Generator.Generator.NewV2 | uuid.go:76-95 | as `NewV1` with the DCE timestamp and version 2; the node address is copied too |
| Generator.Generator.NewV4 | uuid.go:124-140 | clock sequence unchanged; the result is `RandomBased` of the random timestamp and the random bytes |
| Namespace.NamespaceParses | namespace.go:15-27 | a namespace rendered from its bytes is its literal, has version 1 and variant `10`, and parses back without error |
| Namespace.DnsParses | namespace.go:15 | `String` of the DNS bytes is the literal, and `FromString` of the literal gives those bytes and no error |
| Namespace.UrlParses | namespace.go:19 | the same for the URL namespace |
| Namespace.IodParses | namespace.go:23 | the same for the ISO OID namespace |
| Namespace.X500Parses | namespace.go:27 | the same for the X.500 namespace |
| Namespace.NamespacesDifferOnlyInByte3 | namespace.go:15-27 | the four namespaces agree except at byte 3 (0x10, 0x11, 0x12, 0x14), where they are pairwise distinct |
| Namespace.Namespaces.constructor | namespace.go:3-8 | the four variables start as the zero UUID |
| Namespace.Namespaces.Init | namespace.go:12-31 | each variable in turn gets `FromString`'s UUID; the first error is returned and the later variables are left as they were; no error iff all four parse |
| Namespace.Namespaces.InitNamespace | namespace.go:12-31 | on the Appendix C literals: no error, and the variables hold the four namespace byte values |

## Left out

- The mutex (uuid.go:26, 57-58, 80-81, 128-129) and concurrency: each generator call is one atomic method on the `Generator` object.
- `time.Now`, `user.Current` with `strconv.Atoi`, `rand.Seed`, `rand.Int63` and `rand.Read`, and the panics they raise (timestamp.go:22, 48-63, 71-72; uuid.go:280-286): their results are parameters (`Environment`, the random byte sequences, `clockBytes`).
- `net.Interfaces` (uuid.go:250): its result is the parameter `interfaces`, with `None` standing for its error.
- MD5 and SHA-1: they are function parameters. The library checks the error of `h.Write` (uuid.go:105-107, 111-113, 150-152, 156-158). These hash writers never fail, so those branches are not modelled.
- The regexp engine: replaced by the predicate `MatchesUuidPattern`, which is proved equal to `WellFormed`.
- Strings are sequences of characters, not UTF-8 bytes. So `ErrHexInvalidByte` names the offending character, and a name for v3/v5 is given as bytes.
- `hex.DecodeString` is modelled as current Go releases define it: pairs are decoded left to right, the first non-hex character is reported, and a trailing odd digit is checked before `ErrHexLength` is returned. Early Go releases checked for an odd length first, so for them `ErrHexLength` would win over an invalid character. On an error the function also returns the bytes decoded so far; `FromString` discards them, so the model does not keep them.
- `init` (uuid.go:40-46) only wires `hardwareAddr` and `initNamespace` together and panics on an error. It is not modelled; the `Generator` constructor and `Namespaces.InitNamespace` stand for its two steps.
- The statistical collision and clock-seed tests (uuid_test.go:77-180) are probabilistic.
- Timestamp.DceTimestamp: the limit "uid below 2^32" is stated on the uint64 bits (`uid & 0xFFFF_FFFF_0000_0000 == 0`), not on the Go `int`.
- Timestamp.Produce: its uint64 result is carried as 64 bits.
- A version 2 identifier gets the node address `addr` in bytes 10-15, exactly as version 1 does (uuid.go:91), and its clock sequence bytes are not replaced by a DCE domain; the model follows the code.

## Findings

| source | as written | input that shows it | evidently intended | confidence | as-written member | corrected member |
|---|---|---|---|---|---|---|
| timestamp.go:22 | `uint64((time.Now().UnixNano() + epochOffset) / 100)`: the offset, counted in 100-ns intervals (section 4.1.4 of RFC 4122), is added to a count of nanoseconds | a clock reading of 0 (1970-01-01) gives 1221929280000000, one hundredth of the 122192928000000000 intervals between 1582-10-15 and the Unix epoch; every timestamp is about 383 years early | `uint64(time.Now().UnixNano()/100 + epochOffset)` | high; not executed | Timestamp.EpochTimeShifted | Timestamp.GregorianTime |

The version 1 and version 2 generators (`Timestamp.Produce`) follow the code as written and use `EpochTime`. `GregorianTime` is the corrected definition, and `EpochTimeShifted` gives the gap between the two for every non-negative clock reading without wrap-around.
