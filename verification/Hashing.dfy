/** Bytes, the hash as a parameter, and the big-endian integers hashed with it. */
module Hashing {

  datatype Option<+T> = None | Some(value: T)

  type byte = x: int | 0 <= x < 256

  type Bytes = seq<byte>

  /** A 32-byte string: what keccak256 returns. */
  type Digest = b: Bytes | |b| == 32 witness seq(32, _ => 0)

  /** Every result below holds for every hash function, so keccak256 is a parameter. */
  type Hash = Bytes -> Digest

  /** Two different inputs with one digest: a concrete break of the hash. */
  ghost predicate Collides(H: Hash, pair: (Bytes, Bytes)) {
    pair.0 != pair.1 && H(pair.0) == H(pair.1)
  }

  const U32 := 0x1_0000_0000

  /** `u32be`: DataView.setUint32 keeps the value modulo 2^32. */
  function U32be(n: nat): (b: Bytes)
    ensures |b| == 4
  {
    var a := n / 256;
    var b := a / 256;
    [b / 256 % 256, b % 256, a % 256, n % 256]
  }

  /** DataView.getUint32 on the first four bytes. */
  function FirstU32(b: Bytes): nat
    requires |b| >= 4
  {
    (((b[0] as int) * 256 + b[1]) * 256 + b[2]) * 256 + b[3]
  }

  lemma {:induction false} LowDigits(n: nat, high: nat, d: nat, c: nat, b: nat, a: nat)
    requires n == (((high * 256 + d) * 256 + c) * 256 + b) * 256 + a
    requires d < 256 && c < 256 && b < 256 && a < 256
    ensures ((d * 256 + c) * 256 + b) * 256 + a == n % U32
  {
    assert n == high * U32 + (((d * 256 + c) * 256 + b) * 256 + a);
  }

  /** Reading back what was written gives the value modulo 2^32. */
  lemma {:induction false} U32RoundTrip(n: nat)
    ensures FirstU32(U32be(n)) == n % U32
  {
    var a := n / 256;
    var b := a / 256;
    var c := b / 256;
    LowDigits(n, c / 256, c % 256, b % 256, a % 256, n % 256);
  }

  /** The counter wraps: counters 2^32 apart are encoded alike. */
  lemma {:induction false} U32Wraps(n: nat)
    ensures U32be(n) == U32be(n % U32)
  {
    var q := n / U32;
    var m := n % U32;
    assert n == q * U32 + m;
    assert n / 256 == q * 0x100_0000 + m / 256;
    assert n / 256 / 256 == q * 0x1_0000 + m / 256 / 256;
    assert n / 256 / 256 / 256 == q * 256 + m / 256 / 256 / 256;
  }

  lemma {:induction false} SameReading(x: Bytes, y: Bytes, a: nat, b: nat)
    requires |x| >= 4 && x == y && a < U32 && b < U32
    requires FirstU32(x) == a % U32 && FirstU32(y) == b % U32
    ensures a == b
  {
  }

  /** Distinct 32-bit values have distinct encodings. */
  lemma {:induction false} U32Injective(a: nat, b: nat)
    requires a < U32 && b < U32
    requires U32be(a) == U32be(b)
    ensures a == b
  {
    U32RoundTrip(a);
    U32RoundTrip(b);
    SameReading(U32be(a), U32be(b), a, b);
  }

  /** Most significant byte first. */
  lemma {:induction false} U32BigEndian(n: nat)
    requires n < U32
    ensures var b := U32be(n);
      n == b[0] as int * 0x100_0000 + b[1] as int * 0x1_0000 + b[2] as int * 0x100 + b[3]
  {
    U32RoundTrip(n);
    SmallModulo(n, U32);
  }

  lemma {:induction false} FirstU32BigEndian(b: Bytes)
    requires |b| >= 4
    ensures FirstU32(b) == b[0] as int * 0x100_0000 + b[1] as int * 0x1_0000 + b[2] as int * 0x100 + b[3]
  {
  }

  lemma {:induction false} SmallModulo(j: nat, m: nat)
    requires j < m
    ensures j % m == j
  {
  }
}
