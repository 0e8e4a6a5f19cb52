/** Bytes, little-endian words and the 64-bit FNV-1a checksum. */
module Words {

  type Byte = x: int | 0 <= x < 256

  const U32_MAX: nat := 0xffff_ffff
  const U64_MAX: nat := 0xffff_ffff_ffff_ffff
  const TWO_TO_THE_64: nat := 0x1_0000_0000_0000_0000

  /* ----- Little-endian words ----- */

  /** 256 to the power k: the number of values that k bytes can hold. */
  function Capacity(k: nat): (r: nat)
    ensures r > 0
  {
    if k == 0 then 1 else 256 * Capacity(k - 1)
  }

  lemma CapacityOfWords()
    ensures Capacity(4) == U32_MAX + 1
    ensures Capacity(8) == U64_MAX + 1
  {
    assert Capacity(4) == 256 * Capacity(3) == 256 * (256 * Capacity(2));
    assert Capacity(8) == 256 * (256 * (256 * (256 * Capacity(4))));
  }

  /** The k low bytes of n, least significant first. */
  function ToLe(n: nat, k: nat): (r: seq<Byte>)
    ensures |r| == k
  {
    if k == 0 then [] else [n % 256] + ToLe(n / 256, k - 1)
  }

  function FromLe(bytes: seq<Byte>): nat {
    if bytes == [] then 0 else bytes[0] + 256 * FromLe(bytes[1..])
  }

  lemma {:induction false} LeRoundTrip(n: nat, k: nat)
    requires n < Capacity(k)
    ensures FromLe(ToLe(n, k)) == n
  {
    if k > 0 {
      LeRoundTrip(n / 256, k - 1);
      assert ToLe(n, k)[1..] == ToLe(n / 256, k - 1);
    }
  }

  lemma {:induction false} FromLeBound(bytes: seq<Byte>)
    ensures FromLe(bytes) < Capacity(|bytes|)
  {
    if bytes != [] {
      FromLeBound(bytes[1..]);
    }
  }

  /** The byte at position i of a word counts 256 to the power i: the least significant byte comes first. */
  lemma {:induction false} LeByte(n: nat, k: nat, i: nat)
    requires i < k
    ensures ToLe(n, k)[i] == n / Capacity(i) % 256
  {
    if i > 0 {
      LeByte(n / 256, k - 1, i - 1);
      DivideTwice(n, 256, Capacity(i - 1));
    }
  }

  lemma {:induction false} LeBack(bytes: seq<Byte>)
    ensures ToLe(FromLe(bytes), |bytes|) == bytes
  {
    if bytes != [] {
      LeBack(bytes[1..]);
      assert bytes == [bytes[0]] + bytes[1..];
    }
  }

  lemma Multiple(d: nat, x: int)
    ensures x >= 1 ==> d * x >= d
    ensures x <= -1 ==> d * x + d <= 0
  {
    assert d * x == d * (x - 1) + d == d * (x + 1) - d;
  }

  lemma QuotientIs(n: nat, d: nat, q: nat, r: nat)
    requires n == d * q + r && r < d
    ensures n / d == q
  {
    var p := n / d;
    assert n == d * p + n % d;
    assert d * (p - q) == d * p - d * q;
    Multiple(d, p - q);
  }

  lemma Scaled(a: nat, b: nat, q: nat, r: nat, low: nat)
    requires low < a && r < b
    ensures a * (b * q + r) + low == a * b * q + (a * r + low)
    ensures a * r + low < a * b
  {
    assert a * (r + 1) <= a * b;
    calc {
      a * (b * q + r) + low;
      a * (b * q) + a * r + low;
      a * b * q + (a * r + low);
    }
  }

  lemma QuotientOfQuotient(n: nat, a: nat, b: nat, m: nat, low: nat, q: nat, r: nat)
    requires n == a * m + low && low < a && m == b * q + r && r < b && a * b > 0
    ensures n / (a * b) == q
  {
    Scaled(a, b, q, r, low);
    QuotientIs(n, a * b, q, a * r + low);
  }

  lemma Divides(n: nat, a: nat)
    requires a > 0
    ensures n == a * (n / a) + n % a && 0 <= n % a < a && 0 <= n / a
  {
  }

  lemma DivideTwice(n: nat, a: nat, b: nat)
    requires a > 0 && b > 0 && a * b > 0
    ensures n / (a * b) == n / a / b
  {
    Divides(n, a);
    Divides(n / a, b);
    QuotientOfQuotient(n, a, b, n / a, n % a, n / a / b, n / a % b);
  }

  /* ----- FNV-1a ----- */

  const FNV_OFFSET: nat := 0xcbf2_9ce4_8422_2325
  const FNV_PRIME: nat := 0x0000_0100_0000_01b3

  // The multiplicative inverse of FNV_PRIME modulo 2^64.
  const FNV_PRIME_INVERSE: nat := 0xce96_5057_aff6_957b

  /** Bitwise exclusive or of two naturals of any width. */
  function Xor(a: nat, b: nat): nat
    decreases a + b
  {
    if a == 0 && b == 0 then 0
    else (if a % 2 != b % 2 then 1 else 0) + 2 * Xor(a / 2, b / 2)
  }

  function WrappingMul(a: nat, b: nat): nat {
    (a * b) % TWO_TO_THE_64
  }

  function FnvStep(hash: nat, byte: Byte): nat {
    WrappingMul(Xor(hash, byte), FNV_PRIME)
  }

  function FnvFold(hash: nat, bytes: seq<Byte>): nat
    decreases |bytes|
  {
    if bytes == [] then hash else FnvFold(FnvStep(hash, bytes[0]), bytes[1..])
  }

  function Fnv(bytes: seq<Byte>): nat {
    FnvFold(FNV_OFFSET, bytes)
  }

  lemma {:induction false} FnvFoldSnoc(hash: nat, bytes: seq<Byte>, b: Byte)
    ensures FnvFold(hash, bytes + [b]) == FnvStep(FnvFold(hash, bytes), b)
    decreases |bytes|
  {
    if bytes == [] {
      assert bytes + [b] == [b];
      assert FnvFold(FnvStep(hash, b), [b][1..]) == FnvStep(hash, b);
    } else {
      assert (bytes + [b])[1..] == bytes[1..] + [b];
      FnvFoldSnoc(FnvStep(hash, bytes[0]), bytes[1..], b);
    }
  }

  method Checksum(bytes: seq<Byte>) returns (hash: nat)
    ensures hash == Fnv(bytes)
    ensures hash <= U64_MAX
  {
    FnvBound(FNV_OFFSET, bytes);
    hash := FNV_OFFSET;
    for i := 0 to |bytes|
      invariant hash == FnvFold(FNV_OFFSET, bytes[..i])
    {
      assert bytes[..i + 1] == bytes[..i] + [bytes[i]];
      FnvFoldSnoc(FNV_OFFSET, bytes[..i], bytes[i]);
      hash := WrappingMul(Xor(hash, bytes[i]), FNV_PRIME);
    }
    assert bytes[..|bytes|] == bytes;
  }

  lemma {:induction false} FnvBound(hash: nat, bytes: seq<Byte>)
    requires hash <= U64_MAX
    ensures FnvFold(hash, bytes) <= U64_MAX
    decreases |bytes|
  {
    if bytes != [] {
      FnvBound(FnvStep(hash, bytes[0]), bytes[1..]);
    }
  }

  /** The lowest bit of an exclusive or, and the rest of it. */
  lemma XorUnfolds(a: nat, b: nat)
    ensures Xor(a, b) % 2 == (if a % 2 != b % 2 then 1 else 0)
    ensures Xor(a, b) / 2 == Xor(a / 2, b / 2)
  {
  }

  lemma {:induction false} XorCancels(a: nat, b: nat)
    ensures Xor(Xor(a, b), b) == a
    ensures Xor(a, b) == Xor(b, a)
    decreases a + b
  {
    if a != 0 || b != 0 {
      XorCancels(a / 2, b / 2);
      hide Xor;
      XorUnfolds(a, b);
      XorUnfolds(b, a);
      XorUnfolds(Xor(a, b), b);
    }
  }

  /** 2 to the power k. */
  function Pow2(k: nat): nat {
    if k == 0 then 1 else 2 * Pow2(k - 1)
  }

  lemma {:induction false} Pow2Positive(k: nat)
    ensures Pow2(k) > 0
  {
    if k > 0 {
      Pow2Positive(k - 1);
    }
  }

  function Bit(n: nat, k: nat): nat {
    Pow2Positive(k);
    n / Pow2(k) % 2
  }

  lemma BitAbove(n: nat, k: nat)
    ensures Bit(n, k + 1) == Bit(n / 2, k)
  {
    Pow2Positive(k);
    DivideTwice(n, 2, Pow2(k));
  }

  /** A bit of the exclusive or is set where exactly one of the two is. */
  lemma {:induction false} XorBit(a: nat, b: nat, k: nat)
    ensures Bit(Xor(a, b), k) == (Bit(a, k) + Bit(b, k)) % 2
  {
    XorUnfolds(a, b);
    if k > 0 {
      hide Xor, Bit;
      BitAbove(a, k - 1);
      BitAbove(b, k - 1);
      BitAbove(Xor(a, b), k - 1);
      XorBit(a / 2, b / 2, k - 1);
    }
  }

  /** The bits decide the number. */
  lemma {:induction false} SameBits(a: nat, b: nat)
    requires forall k :: Bit(a, k) == Bit(b, k)
    ensures a == b
    decreases a + b
  {
    if a != b {
      assert Bit(a, 0) == Bit(b, 0);
      forall k ensures Bit(a / 2, k) == Bit(b / 2, k) {
        BitAbove(a, k);
        BitAbove(b, k);
      }
      SameBits(a / 2, b / 2);
    }
  }

  lemma {:induction false} XorBound(a: nat, b: nat, k: nat)
    requires a < Pow2(k) && b < Pow2(k)
    ensures Xor(a, b) < Pow2(k)
  {
    if k > 0 {
      XorBound(a / 2, b / 2, k - 1);
    }
  }

  lemma Pow2Of64()
    ensures Pow2(64) == TWO_TO_THE_64
  {
    assert Pow2(8) == 256;
    assert Pow2(16) == 256 * Pow2(8) by { Pow2Adds(8, 8); }
    assert Pow2(32) == Pow2(16) * Pow2(16) by { Pow2Adds(16, 16); }
    assert Pow2(64) == Pow2(32) * Pow2(32) by { Pow2Adds(32, 32); }
  }

  lemma {:induction false} Pow2Adds(a: nat, b: nat)
    ensures Pow2(a + b) == Pow2(a) * Pow2(b)
  {
    if a > 0 {
      Pow2Adds(a - 1, b);
      assert Pow2(a) * Pow2(b) == 2 * (Pow2(a - 1) * Pow2(b));
    }
  }

  lemma WrapsToItself(x: nat, k: int)
    requires x <= U64_MAX
    ensures (x + TWO_TO_THE_64 * k) % TWO_TO_THE_64 == x
  {
  }

  lemma ProductOfRemainder(x: int, p: int, q: int, m: int, inverse: int, k: int)
    requires p * inverse == 1 + k * m
    ensures (x * p - m * q) * inverse == x + m * (x * k - q * inverse)
  {
    calc {
      (x * p - m * q) * inverse;
      x * (p * inverse) - m * (q * inverse);
      x * (1 + k * m) - m * (q * inverse);
      x + m * (x * k) - m * (q * inverse);
      x + m * (x * k - q * inverse);
    }
  }

  /** Multiplying by the odd FNV prime loses nothing modulo 2^64. */
  lemma PrimeIsInvertible(x: nat)
    requires x <= U64_MAX
    ensures WrappingMul(WrappingMul(x, FNV_PRIME), FNV_PRIME_INVERSE) == x
  {
    var q := x * FNV_PRIME / TWO_TO_THE_64;
    var r := x * FNV_PRIME % TWO_TO_THE_64;
    var k := FNV_PRIME * FNV_PRIME_INVERSE / TWO_TO_THE_64;
    assert FNV_PRIME * FNV_PRIME_INVERSE == 1 + k * TWO_TO_THE_64;
    assert r == x * FNV_PRIME - TWO_TO_THE_64 * q;
    ProductOfRemainder(x, FNV_PRIME, q, TWO_TO_THE_64, FNV_PRIME_INVERSE, k);
    WrapsToItself(x, x * k - q * FNV_PRIME_INVERSE);
  }

  /** One round is injective in the running hash and, separately, in the byte. */
  lemma FnvStepInjective(h1: nat, h2: nat, b1: Byte, b2: Byte)
    requires h1 <= U64_MAX && h2 <= U64_MAX
    requires FnvStep(h1, b1) == FnvStep(h2, b2)
    ensures b1 == b2 ==> h1 == h2
    ensures h1 == h2 ==> b1 == b2
  {
    Pow2Of64();
    XorBound(h1, b1, 64);
    XorBound(h2, b2, 64);
    PrimeIsInvertible(Xor(h1, b1));
    PrimeIsInvertible(Xor(h2, b2));
    assert Xor(h1, b1) == Xor(h2, b2);
    XorCancels(h1, b1);
    XorCancels(h2, b2);
    XorCancels(b1, h1);
    XorCancels(b2, h2);
  }

  lemma {:induction false} FnvFoldInjective(h1: nat, h2: nat, bytes: seq<Byte>)
    requires h1 <= U64_MAX && h2 <= U64_MAX
    requires FnvFold(h1, bytes) == FnvFold(h2, bytes)
    ensures h1 == h2
    decreases |bytes|
  {
    if bytes != [] {
      FnvFoldInjective(FnvStep(h1, bytes[0]), FnvStep(h2, bytes[0]), bytes[1..]);
      FnvStepInjective(h1, h2, bytes[0], bytes[0]);
    }
  }

  lemma {:induction false} FnvFoldConcat(hash: nat, a: seq<Byte>, b: seq<Byte>)
    ensures FnvFold(hash, a + b) == FnvFold(FnvFold(hash, a), b)
    decreases |a|
  {
    if a == [] {
      assert a + b == b;
    } else {
      assert (a + b)[1..] == a[1..] + b;
      FnvFoldConcat(FnvStep(hash, a[0]), a[1..], b);
    }
  }

  /** Replacing one byte by a different one always changes the checksum. */
  lemma OneByteChangesFnv(bytes: seq<Byte>, i: nat, b: Byte)
    requires i < |bytes| && bytes[i] != b
    ensures Fnv(bytes[i := b]) != Fnv(bytes)
  {
    var front, back := bytes[..i], bytes[i + 1..];
    var h := FnvFold(FNV_OFFSET, front);
    FnvBound(FNV_OFFSET, front);
    assert bytes == front + ([bytes[i]] + back);
    assert bytes[i := b] == front + ([b] + back);
    FnvFoldConcat(FNV_OFFSET, front, [bytes[i]] + back);
    FnvFoldConcat(FNV_OFFSET, front, [b] + back);
    assert ([bytes[i]] + back)[1..] == back && ([b] + back)[1..] == back;
    if Fnv(bytes[i := b]) == Fnv(bytes) {
      FnvFoldInjective(FnvStep(h, bytes[i]), FnvStep(h, b), back);
      FnvStepInjective(h, h, bytes[i], b);
    }
  }

  /* ----- What the checksum is ----- */

  lemma FnvOfNothing()
    ensures Fnv([]) == 0xcbf2_9ce4_8422_2325
  {
  }

  /** One more byte: exclusive or, bit by bit, and then the product with the FNV prime modulo 2^64. */
  lemma FnvOfMore(bytes: seq<Byte>, b: Byte) returns (x: nat)
    ensures forall k :: Bit(x, k) == (Bit(Fnv(bytes), k) + Bit(b, k)) % 2
    ensures Fnv(bytes + [b]) == x * 0x100_0000_01b3 % 0x1_0000_0000_0000_0000
  {
    FnvFoldSnoc(FNV_OFFSET, bytes, b);
    hide Bit, Xor, FnvFold;
    x := Xor(Fnv(bytes), b);
    forall k ensures Bit(x, k) == (Bit(Fnv(bytes), k) + Bit(b, k)) % 2 {
      XorBit(Fnv(bytes), b, k);
    }
  }

  /** The published checksum of the letter "a". */
  lemma FnvOfA()
    ensures Fnv([0x61]) == 0xaf63_dc4c_8601_ec8c
  {
    hide Xor;
    assert [0x61][1..] == [];
    XorHigh(FNV_OFFSET / 128);
    XorLow();
  }

  lemma {:induction false} XorHigh(a: nat)
    ensures Xor(a, 0) == a
  {
    if a > 0 {
      XorHigh(a / 2);
    }
  }

  lemma XorLow()
    requires Xor(FNV_OFFSET / 128, 0) == FNV_OFFSET / 128
    ensures Xor(FNV_OFFSET, 0x61) == 0xcbf2_9ce4_8422_2344
  {
    assert Xor(FNV_OFFSET / 64, 1) == 1 - FNV_OFFSET / 64 % 2 + 2 * (FNV_OFFSET / 128);
    assert Xor(FNV_OFFSET / 32, 3) == 1 - FNV_OFFSET / 32 % 2 + 2 * Xor(FNV_OFFSET / 64, 1);
    assert Xor(FNV_OFFSET / 16, 6) == FNV_OFFSET / 16 % 2 + 2 * Xor(FNV_OFFSET / 32, 3);
    assert Xor(FNV_OFFSET / 8, 12) == FNV_OFFSET / 8 % 2 + 2 * Xor(FNV_OFFSET / 16, 6);
    assert Xor(FNV_OFFSET / 4, 24) == FNV_OFFSET / 4 % 2 + 2 * Xor(FNV_OFFSET / 8, 12);
    assert Xor(FNV_OFFSET / 2, 48) == FNV_OFFSET / 2 % 2 + 2 * Xor(FNV_OFFSET / 4, 24);
    assert Xor(FNV_OFFSET, 0x61) == 1 - FNV_OFFSET % 2 + 2 * Xor(FNV_OFFSET / 2, 48);
  }
}
