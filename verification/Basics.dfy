/** Shared vocabulary: optional values, results, machine-integer bounds, instants and
    the length arithmetic of unpadded base64url. */
module Basics {
  datatype Option<+T> = None | Some(value: T)

  datatype Result<+T> = Ok(value: T) | Err(reason: string)

  const MAX_U64: nat := 0xFFFF_FFFF_FFFF_FFFF

  type U64 = n: nat | n <= MAX_U64
  type Pos = n: nat | n > 0 witness 1
  type U32 = n: nat | n <= 0xFFFF_FFFF
  type U16 = n: nat | n <= 0xFFFF

  /** An instant in nanoseconds since Go's zero `time.Time`; 0 is the instant whose
      `IsZero` is true. */
  type Time = int

  const SECOND: nat := 1_000_000_000
  const MINUTE: nat := 60 * SECOND
  const HOUR: nat := 60 * MINUTE

  /** `time.Time.Truncate(time.Second)`. */
  function TruncateToSecond(t: Time): (r: Time)
    ensures r <= t < r + SECOND
    ensures r % SECOND == 0
  {
    t - t % SECOND
  }

  function Min(a: int, b: int): int {
    if a < b then a else b
  }

  /** `base64.RawURLEncoding.EncodedLen`: unpadded base64, section 5 of RFC 4648. The fewest
      characters of six bits that hold `n` bytes of eight. */
  function EncodedLen(n: nat): (r: nat)
    ensures 6 * r >= 8 * n && (r > 0 ==> 6 * (r - 1) < 8 * n)
  {
    n / 3 * 4 + (n % 3 * 8 + 5) / 6
  }

  lemma {:induction false} EncodedLenMonotone(a: nat, b: nat)
    requires a <= b
    ensures EncodedLen(a) <= EncodedLen(b)
    ensures a > 0 ==> EncodedLen(a) > 0
  {
    if a / 3 < b / 3 {
      assert a / 3 * 4 + 4 <= b / 3 * 4;
    }
  }

  /** A base64 SHA-256 digest held as text. The hash is taken to be collision free, so a
      computed digest is represented by the bytes it was computed from. `OtherText` is any
      text that is no such digest; `decodes` says whether it decodes to 32 bytes anyway. */
  datatype Digest<+T> = NoDigest | DigestOf(content: T) | OtherText(text: string, decodes: bool)

  /** `validSHA256Digest`. */
  predicate ValidDigest<T>(d: Digest<T>) {
    d.DigestOf? || (d.OtherText? && d.decodes)
  }
}
