/** Bytes, little-endian words and the FNV-1a hash, as src/bulk_snapshot.c uses them. */
module Bytes {
  import opened Common

  type Byte = n: nat | n < 256

  const U64_LIMIT: nat := 0x1_0000_0000_0000_0000

  // ----- little-endian words -----

  function Pow256(n: nat): (p: nat)
    ensures p >= 1
  {
    if n == 0 then 1 else 256 * Pow256(n - 1)
  }

  lemma WordSizes()
    ensures Pow256(4) == 0x1_0000_0000 && Pow256(8) == U64_LIMIT
  {
    assert Pow256(1) == 256 && Pow256(2) == 0x1_0000 && Pow256(3) == 0x100_0000 && Pow256(4) == 0x1_0000_0000;
    assert Pow256(5) == 0x100_0000_0000 && Pow256(6) == 0x1_0000_0000_0000 && Pow256(7) == 0x100_0000_0000_0000;
  }

  /** `write_u32_le` and `write_u64_le`: byte `i` is the value shifted right by `8 * i` bits. */
  function WriteLE(n: nat, width: nat): (s: seq<Byte>)
    ensures |s| == width
  {
    if width == 0 then [] else [n % 256] + WriteLE(n / 256, width - 1)
  }

  /** `read_u32_le` and `read_u64_le` */
  function ReadLE(s: seq<Byte>): nat {
    if s == [] then 0 else s[0] + 256 * ReadLE(s[1..])
  }

  lemma {:induction false} ReadWrite(n: nat, width: nat)
    requires n < Pow256(width)
    ensures ReadLE(WriteLE(n, width)) == n
  {
    if width > 0 {
      ReadWrite(n / 256, width - 1);
      assert WriteLE(n, width)[1..] == WriteLE(n / 256, width - 1);
    }
  }

  /** The least significant byte comes first. */
  lemma {:induction false} WriteAt(n: nat, width: nat, i: nat)
    requires i < width
    ensures WriteLE(n, width)[i] == n / Pow256(i) % 256
  {
    if i > 0 {
      WriteAt(n / 256, width - 1, i - 1);
      DivideTwice(n, 256, Pow256(i - 1));
    }
  }

  lemma DivideTwice(n: nat, a: nat, b: nat)
    requires a > 0 && b > 0
    ensures a * b > 0 && n / a / b == n / (a * b)
  {
    var q, r := n / a / b, n / a % b;
    assert n / a == q * b + r;
    var s := n % a;
    assert n == (n / a) * a + s;
    assert n == q * (a * b) + (r * a + s) by {
      assert (q * b + r) * a == q * (a * b) + r * a;
    }
    MulBelow(r, b, a, s);
    QuotientIs(n, a * b, q, r * a + s);
  }

  lemma MulBelow(r: nat, b: nat, a: nat, s: nat)
    requires r < b && s < a
    ensures r * a + s < a * b
  {
    MulMonotone(r + 1, b, a);
  }

  lemma QuotientIs(n: nat, m: nat, q: nat, r: nat)
    requires m > 0 && n == q * m + r && r < m
    ensures n / m == q
  {
    SameDivision(m, n / m, n % m, q, r);
  }

  lemma SameDivision(m: nat, p: nat, e: nat, q: nat, r: nat)
    requires p * m + e == q * m + r && e < m && r < m
    ensures p == q
  {
    if p < q {
      MulMonotone(p + 1, q, m);
    } else if q < p {
      MulMonotone(q + 1, p, m);
    }
  }

  lemma {:induction false} WriteRead(s: seq<Byte>)
    ensures WriteLE(ReadLE(s), |s|) == s && ReadLE(s) < Pow256(|s|)
  {
    if s != [] {
      WriteRead(s[1..]);
      LowByte(s[0], ReadLE(s[1..]));
    }
  }

  lemma LowByte(b: Byte, r: nat)
    ensures (b + 256 * r) % 256 == b && (b + 256 * r) / 256 == r
  {
  }

  /** Two words of the same width with the same value are the same bytes. */
  lemma ReadInjective(a: seq<Byte>, b: seq<Byte>)
    requires |a| == |b| && ReadLE(a) == ReadLE(b)
    ensures a == b
  {
    WriteRead(a);
    WriteRead(b);
  }

  // ----- FNV-1a -----

  const FNV_OFFSET: nat := 14695981039346656037
  const FNV_PRIME: nat := 1099511628211
  /** The inverse of the prime modulo 2^64. */
  const FNV_INVERSE: nat := 14886173955864302971

  type U64 = n: nat | n < U64_LIMIT

  /** The binary digit of a number at the place of value `p`. */
  function Digit(a: nat, p: nat): (d: nat)
    requires p > 0
    ensures d < 2
  {
    a / p % 2
  }

  function Differ(a: nat, b: nat, p: nat): (d: nat)
    requires p > 0
    ensures d < 2
  {
    if Digit(a, p) == Digit(b, p) then 0 else 1
  }

  /** Bitwise exclusive or. */
  function Xor(a: Byte, b: Byte): Byte {
    128 * Differ(a, b, 128) + 64 * Differ(a, b, 64) + 32 * Differ(a, b, 32) + 16 * Differ(a, b, 16)
    + 8 * Differ(a, b, 8) + 4 * Differ(a, b, 4) + 2 * Differ(a, b, 2) + Differ(a, b, 1)
  }

  predicate IsPlace(p: nat) { p == 1 || p == 2 || p == 4 || p == 8 || p == 16 || p == 32 || p == 64 || p == 128 }

  /** The digits of a sum of places. */
  lemma DigitsOf(a: nat, b: nat, c: nat, d: nat, e: nat, f: nat, g: nat, h: nat)
    requires a < 2 && b < 2 && c < 2 && d < 2 && e < 2 && f < 2 && g < 2 && h < 2
    ensures var v := 128 * a + 64 * b + 32 * c + 16 * d + 8 * e + 4 * f + 2 * g + h;
            && Digit(v, 128) == a && Digit(v, 64) == b && Digit(v, 32) == c && Digit(v, 16) == d
            && Digit(v, 8) == e && Digit(v, 4) == f && Digit(v, 2) == g && Digit(v, 1) == h
  {
    var v := 128 * a + 64 * b + 32 * c + 16 * d + 8 * e + 4 * f + 2 * g + h;
    assert v / 2 == 64 * a + 32 * b + 16 * c + 8 * d + 4 * e + 2 * f + g;
    assert v / 4 == 32 * a + 16 * b + 8 * c + 4 * d + 2 * e + f;
    assert v / 8 == 16 * a + 8 * b + 4 * c + 2 * d + e;
    assert v / 16 == 8 * a + 4 * b + 2 * c + d && v / 32 == 4 * a + 2 * b + c && v / 64 == 2 * a + b && v / 128 == a;
  }

  /** Four digits in a row, by repeated halving. */
  lemma LowDigits(a: nat, b: nat, c: nat, d: nat, e: nat)
    requires b == a / 2 && c == b / 2 && d == c / 2 && e == d / 2
    ensures a == 16 * e + 8 * (d % 2) + 4 * (c % 2) + 2 * (b % 2) + a % 2
  {
    assert a == 2 * b + a % 2 && b == 2 * c + b % 2 && c == 2 * d + c % 2 && d == 2 * e + d % 2;
  }

  lemma NoDigits(p: nat)
    requires IsPlace(p)
    ensures Digit(0, p) == 0
  {
  }

  /** A byte is the sum of its digits' places. */
  lemma SumOfDigits(a: Byte)
    ensures a == 128 * Digit(a, 128) + 64 * Digit(a, 64) + 32 * Digit(a, 32) + 16 * Digit(a, 16)
                 + 8 * Digit(a, 8) + 4 * Digit(a, 4) + 2 * Digit(a, 2) + Digit(a, 1)
  {
    LowDigits(a, a / 2, a / 4, a / 8, a / 16);
    LowDigits(a / 16, a / 32, a / 64, a / 128, 0);
  }

  /** A digit of the exclusive or is set exactly where the digits differ. */
  lemma XorDigits(a: Byte, b: Byte, p: nat)
    requires IsPlace(p)
    ensures Digit(Xor(a, b), p) == 1 <==> Digit(a, p) != Digit(b, p)
  {
    DigitsOf(Differ(a, b, 128), Differ(a, b, 64), Differ(a, b, 32), Differ(a, b, 16),
             Differ(a, b, 8), Differ(a, b, 4), Differ(a, b, 2), Differ(a, b, 1));
  }

  /** Digits determine a byte. */
  lemma SameDigits(a: Byte, b: Byte)
    requires forall p: nat | IsPlace(p) :: Digit(a, p) == 1 <==> Digit(b, p) == 1
    ensures a == b
  {
    forall p: nat | IsPlace(p) ensures Digit(a, p) == Digit(b, p) {
      BinaryDigits(Digit(a, p), Digit(b, p));
    }
    assert IsPlace(1) && IsPlace(2) && IsPlace(4) && IsPlace(8);
    assert IsPlace(16) && IsPlace(32) && IsPlace(64) && IsPlace(128);
    SameSum(a, b);
  }

  lemma BinaryDigits(d: nat, e: nat)
    requires d < 2 && e < 2 && (d == 1 <==> e == 1)
    ensures d == e
  {
  }

  lemma SameSum(a: Byte, b: Byte)
    requires Digit(a, 128) == Digit(b, 128) && Digit(a, 64) == Digit(b, 64) && Digit(a, 32) == Digit(b, 32)
    requires Digit(a, 16) == Digit(b, 16) && Digit(a, 8) == Digit(b, 8) && Digit(a, 4) == Digit(b, 4)
    requires Digit(a, 2) == Digit(b, 2) && Digit(a, 1) == Digit(b, 1)
    ensures a == b
  {
    SumOfDigits(a);
    SumOfDigits(b);
  }

  lemma XorCancels(a: Byte, b: Byte)
    ensures Xor(Xor(a, b), b) == a && Xor(Xor(a, b), a) == b
  {
    forall p: nat | IsPlace(p)
      ensures Digit(Xor(Xor(a, b), b), p) == 1 <==> Digit(a, p) == 1
      ensures Digit(Xor(Xor(a, b), a), p) == 1 <==> Digit(b, p) == 1
    {
      XorDigits(a, b, p);
      XorDigits(Xor(a, b), b, p);
      XorDigits(Xor(a, b), a, p);
    }
    SameDigits(Xor(Xor(a, b), b), a);
    SameDigits(Xor(Xor(a, b), a), b);
  }

  /** `hash ^= byte`, which touches the low eight bits only */
  function XorByte(h: U64, b: Byte): U64 {
    LowByteFits(h, Xor(h % 256, b));
    h / 256 * 256 + Xor(h % 256, b)
  }

  /** Replacing the low byte of a 64-bit word gives a 64-bit word. */
  lemma LowByteFits(h: nat, x: nat)
    requires h < U64_LIMIT && x < 256
    ensures h / 256 * 256 + x < U64_LIMIT
  {
    var q := h / 256;
    assert q * 256 <= h;
    assert q <= U64_LIMIT / 256 - 1;
  }

  /** `hash ^= byte; hash *= prime`, modulo 2^64 */
  function Step(h: U64, b: Byte): U64 {
    XorByte(h, b) * FNV_PRIME % U64_LIMIT
  }

  function Fnv(h: U64, s: seq<Byte>): U64
    decreases s
  {
    if s == [] then h else Fnv(Step(h, s[0]), s[1..])
  }

  /**
   A step multiplies, modulo 2^64, by the FNV prime what differs from the running hash in exactly the
   digits of the byte.
   */
  lemma StepMeans(h: U64, b: Byte, x: nat)
    requires x / 256 == h / 256
    requires forall p: nat | IsPlace(p) :: Digit(x % 256, p) == 1 <==> Digit(h % 256, p) != Digit(b, p)
    ensures Step(h, b) == x * 1099511628211 % 0x1_0000_0000_0000_0000
  {
    forall p: nat | IsPlace(p) ensures Digit(x % 256, p) == 1 <==> Digit(Xor(h % 256, b), p) == 1 {
      XorDigits(h % 256, b, p);
    }
    SameDigits(x % 256, Xor(h % 256, b));
    assert x == x / 256 * 256 + x % 256;
    assert XorByte(h, b) == x;
  }

  /** From a hash with a zero low byte, a step adds the byte and multiplies by the prime. */
  lemma StepFromZero(h: U64, b: Byte)
    requires h % 256 == 0
    ensures Step(h, b) == (h + b) * 1099511628211 % 0x1_0000_0000_0000_0000
  {
    LowByte(b, h / 256);
    assert h + b == b + 256 * (h / 256);
    forall p: nat | IsPlace(p) ensures Digit(b, p) == 1 <==> Digit(h % 256, p) != Digit(b, p) {
      NoDigits(p);
    }
    StepMeans(h, b, h + b);
  }

  lemma HighAndLow(p: nat, q: nat, x: nat, y: nat)
    requires p * 256 + x == q * 256 + y && x < 256 && y < 256
    ensures p == q && x == y
  {
  }

  lemma XorInjective(g: U64, h: U64, b: Byte, c: Byte)
    requires XorByte(g, b) == XorByte(h, c)
    ensures b == c <==> g == h
  {
    HighAndLow(g / 256, h / 256, Xor(g % 256, b), Xor(h % 256, c));
    XorCancels(g % 256, b);
    XorCancels(h % 256, c);
  }

  /** Multiplication by the prime is undone by its inverse. */
  lemma PrimeInvertible(x: U64)
    ensures (x * FNV_PRIME % U64_LIMIT) * FNV_INVERSE % U64_LIMIT == x
  {
    var r := x * FNV_PRIME % U64_LIMIT;
    var k := x * FNV_PRIME / U64_LIMIT;
    assert x * FNV_PRIME == U64_LIMIT * k + r;
    var c := (FNV_PRIME * FNV_INVERSE - 1) / U64_LIMIT;
    assert FNV_PRIME * FNV_INVERSE == 1 + U64_LIMIT * c;
    assert r * FNV_INVERSE == x + U64_LIMIT * (c * x - k * FNV_INVERSE);
    RemainderUnique(r * FNV_INVERSE, c * x - k * FNV_INVERSE, x);
  }

  lemma RemainderUnique(a: int, q: int, r: nat)
    requires a == r + U64_LIMIT * q && r < U64_LIMIT
    ensures a % U64_LIMIT == r
  {
  }

  /** The step is injective in the byte and bijective in the running hash. */
  lemma StepInjective(g: U64, h: U64, b: Byte, c: Byte)
    requires Step(g, b) == Step(h, c)
    ensures b == c <==> g == h
  {
    PrimeInvertible(XorByte(g, b));
    PrimeInvertible(XorByte(h, c));
    XorInjective(g, h, b, c);
  }

  lemma {:induction false} FnvInjectiveInSeed(g: U64, h: U64, s: seq<Byte>)
    requires Fnv(g, s) == Fnv(h, s)
    ensures g == h
    decreases s
  {
    if s != [] {
      FnvInjectiveInSeed(Step(g, s[0]), Step(h, s[0]), s[1..]);
      StepInjective(g, h, s[0], s[0]);
    }
  }

  /** Hashing in pieces is hashing the concatenation. */
  lemma {:induction false} FnvConcat(h: U64, a: seq<Byte>, b: seq<Byte>)
    ensures Fnv(h, a + b) == Fnv(Fnv(h, a), b)
    decreases a
  {
    if a == [] {
      assert a + b == b;
    } else {
      assert (a + b)[1..] == a[1..] + b;
      FnvConcat(Step(h, a[0]), a[1..], b);
    }
  }

  /** A hash never misses a change of a single byte. */
  lemma FnvSeesOneByte(h: U64, s: seq<Byte>, i: nat, b: Byte)
    requires i < |s| && s[i] != b
    ensures Fnv(h, s[i := b]) != Fnv(h, s)
  {
    var front, back := s[..i], s[i + 1..];
    assert s == front + ([s[i]] + back);
    assert s[i := b] == front + ([b] + back);
    FnvConcat(h, front, [s[i]] + back);
    FnvConcat(h, front, [b] + back);
    var g := Fnv(h, front);
    assert ([s[i]] + back)[1..] == back && ([b] + back)[1..] == back;
    if Step(g, s[i]) == Step(g, b) {
      StepInjective(g, g, s[i], b);
    } else if Fnv(Step(g, s[i]), back) == Fnv(Step(g, b), back) {
      FnvInjectiveInSeed(Step(g, s[i]), Step(g, b), back);
    }
  }

  /** The loop of `hash_bytes`. */
  method HashBytes(seed: U64, bytes: seq<Byte>) returns (hash: U64)
    ensures hash == Fnv(seed, bytes)
  {
    hash := seed;
    for i := 0 to |bytes|
      invariant hash == Fnv(seed, bytes[..i])
    {
      assert bytes[..i + 1] == bytes[..i] + [bytes[i]];
      FnvConcat(seed, bytes[..i], [bytes[i]]);
      hash := Step(hash, bytes[i]);
      assert [bytes[i]][1..] == [];
    }
    assert bytes[..|bytes|] == bytes;
  }
}
