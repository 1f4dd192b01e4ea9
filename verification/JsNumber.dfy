/**
 The part of ECMAScript number arithmetic that the hash and codec loops rely on.
 A Number that holds an integer is an `int`; the bitwise operators convert their
 operands to 32-bit two's complement bit strings, work on those strings, and read
 the result back as a signed (or, for `>>>`, unsigned) integer. Bit strings are
 written most significant bit first.
 */
module JsNumber {

  type Bits = seq<bool>
  type Word = w: Bits | |w| == 32 witness Zeros(32)

  function Pow2(k: nat): (p: nat)
    ensures p >= 1
  {
    if k == 0 then 1 else 2 * Pow2(k - 1)
  }

  function Zeros(k: nat): (b: Bits)
    ensures |b| == k
  {
    seq(k, _ => false)
  }

  /** The unsigned integer a bit string denotes. */
  function Value(b: Bits): (v: nat)
    ensures v < Pow2(|b|)
  {
    if b == [] then 0 else 2 * Value(b[..|b| - 1]) + (if b[|b| - 1] then 1 else 0)
  }

  /** The low `k` bits of `v`. */
  function ToBits(v: nat, k: nat): (b: Bits)
    ensures |b| == k
  {
    if k == 0 then [] else ToBits(v / 2, k - 1) + [v % 2 == 1]
  }

  /** The integer a 32-bit two's complement string denotes. */
  function Signed(w: Word): (n: int)
    ensures -0x8000_0000 <= n < 0x8000_0000
  {
    Pow2Of32();
    if Value(w) < 0x8000_0000 then Value(w) else Value(w) - 0x1_0000_0000
  }

  /** The bit string an operand is converted to: its residue modulo 2^32. */
  function Word32(n: int): Word {
    ToBits(n % 0x1_0000_0000, 32)
  }

  function AndBits(a: Word, b: Word): Word {
    seq(32, i requires 0 <= i < 32 => a[i] && b[i])
  }

  function OrBits(a: Word, b: Word): Word {
    seq(32, i requires 0 <= i < 32 => a[i] || b[i])
  }

  function XorBits(a: Word, b: Word): Word {
    seq(32, i requires 0 <= i < 32 => a[i] != b[i])
  }

  function NotBits(a: Word): Word {
    seq(32, i requires 0 <= i < 32 => !a[i])
  }

  // The operators `&`, `|`, `^`, `~`, `<<`, `>>` and `>>>`.

  function And(x: int, y: int): int {
    Signed(AndBits(Word32(x), Word32(y)))
  }

  function Or(x: int, y: int): int {
    Signed(OrBits(Word32(x), Word32(y)))
  }

  function Xor(x: int, y: int): int {
    Signed(XorBits(Word32(x), Word32(y)))
  }

  function Not(x: int): int {
    Signed(NotBits(Word32(x)))
  }

  function Shl(x: int, k: nat): int
    requires k < 32
  {
    Signed(Word32(x)[k..] + Zeros(k))
  }

  function Shr(x: int, k: nat): int
    requires k < 32
  {
    Signed(seq(k, _ => Word32(x)[0]) + Word32(x)[..32 - k])
  }

  function ShrU(x: int, k: nat): nat
    requires k < 32
  {
    Value(Zeros(k) + Word32(x)[..32 - k])
  }

  // ----- conversions

  lemma Pow2Of32()
    ensures Pow2(31) == 0x8000_0000 && Pow2(32) == 0x1_0000_0000
  {
    assert Pow2(7) == 0x80 && Pow2(8) == 0x100;
    hide Pow2;
    Pow2Add(8, 8);
    Pow2Add(16, 8);
    Pow2Add(24, 7);
    Pow2Add(24, 8);
  }

  lemma {:induction false} Pow2Add(a: nat, b: nat)
    ensures Pow2(a + b) == Pow2(a) * Pow2(b)
  {
    if b != 0 {
      Pow2Add(a, b - 1);
      assert 2 * (Pow2(a) * Pow2(b - 1)) == Pow2(a) * (2 * Pow2(b - 1));
    }
  }

  lemma {:induction false} ToBitsOfValue(b: Bits)
    ensures ToBits(Value(b), |b|) == b
  {
    if b != [] {
      ToBitsOfValue(b[..|b| - 1]);
      assert b == b[..|b| - 1] + [b[|b| - 1]];
    }
  }

  lemma {:induction false} ValueOfToBits(v: nat, k: nat)
    ensures Value(ToBits(v, k)) == v % Pow2(k)
  {
    if k != 0 {
      ValueOfToBits(v / 2, k - 1);
      assert ToBits(v, k)[..k - 1] == ToBits(v / 2, k - 1);
      HalveModulus(v, Pow2(k - 1));
    }
  }

  lemma {:induction false} ValueOfToBitsExact(v: nat, k: nat)
    requires v < Pow2(k)
    ensures Value(ToBits(v, k)) == v
  {
    if k != 0 {
      ValueOfToBitsExact(v / 2, k - 1);
      assert ToBits(v, k)[..k - 1] == ToBits(v / 2, k - 1);
    }
  }

  lemma HalveModulus(v: nat, m: nat)
    requires m > 0
    ensures v % (2 * m) == 2 * (v / 2 % m) + v % 2
  {
    var q, r := v / 2 / m, v / 2 % m;
    assert v == 2 * (q * m + r) + v % 2;
    assert v == q * (2 * m) + (2 * r + v % 2);
    ModUnique(v, 2 * m, q, 2 * r + v % 2);
  }

  lemma ModUnique(v: int, m: int, q: int, r: int)
    requires m > 0 && 0 <= r < m && v == q * m + r
    ensures v % m == r && v / m == q
  {
    var d := v / m - q;
    assert d * m == r - v % m;
    assert d >= 1 ==> d * m >= m;
    assert d <= -1 ==> d * m <= -m;
  }

  /** A word is the bit string of every number congruent to its value. */
  lemma WordOfCongruent(n: int, w: Word)
    requires n % 0x1_0000_0000 == Value(w)
    ensures Word32(n) == w
  {
    ToBitsOfValue(w);
  }

  /** Reading a two's complement result back as an operand restores its bit string. */
  lemma WordOfSigned(w: Word)
    ensures Word32(Signed(w)) == w
  {
    Pow2Of32();
    WordOfCongruent(Signed(w), w);
  }

  lemma WordOfValue(w: Word)
    ensures Word32(Value(w)) == w
  {
    Pow2Of32();
    WordOfCongruent(Value(w), w);
  }

  lemma ValueOfWord(n: int)
    ensures Value(Word32(n)) == n % 0x1_0000_0000
  {
    hide ToBits, Value, Pow2;
    Pow2Of32();
    ValueOfToBits(n % 0x1_0000_0000, 32);
  }

  lemma {:induction false} ValueOfAppend(a: Bits, b: Bits)
    ensures Value(a + b) == Value(a) * Pow2(|b|) + Value(b)
  {
    if b == [] {
      assert a + b == a;
    } else {
      var c := b[..|b| - 1];
      var last := if b[|b| - 1] then 1 else 0;
      assert (a + b)[..|a + b| - 1] == a + c;
      ValueOfAppend(a, c);
      DoubleProduct(Value(a), Pow2(|c|), Value(c), last);
    }
  }

  lemma DoubleProduct(x: int, p: int, y: int, z: int)
    ensures 2 * (x * p + y) + z == x * (2 * p) + (2 * y + z)
  {
  }

  lemma {:induction false} ValueOfZeros(k: nat)
    ensures Value(Zeros(k)) == 0
  {
    if k != 0 {
      ValueOfZeros(k - 1);
      assert Zeros(k)[..k - 1] == Zeros(k - 1);
    }
  }

  /** Leading zeros do not change the number. */
  lemma ValueOfPadded(k: nat, b: Bits)
    ensures Value(Zeros(k) + b) == Value(b)
  {
    ValueOfZeros(k);
    ValueOfAppend(Zeros(k), b);
  }

  /** Bits split into an upper and a lower part as quotient and remainder. */
  lemma ToBitsSplit(v: nat, a: nat, b: nat, hi: nat, lo: nat)
    requires v == hi * Pow2(b) + lo && hi < Pow2(a) && lo < Pow2(b)
    ensures ToBits(v, a + b) == ToBits(hi, a) + ToBits(lo, b)
  {
    var w := ToBits(hi, a) + ToBits(lo, b);
    ValueOfAppend(ToBits(hi, a), ToBits(lo, b));
    ValueOfToBitsExact(hi, a);
    ValueOfToBitsExact(lo, b);
    ToBitsOfValue(w);
  }

  // ----- what each operator does to the bit string of its result

  lemma WordOfAnd(x: int, y: int)
    ensures Word32(And(x, y)) == AndBits(Word32(x), Word32(y))
  {
    WordOfSigned(AndBits(Word32(x), Word32(y)));
  }

  lemma WordOfOr(x: int, y: int)
    ensures Word32(Or(x, y)) == OrBits(Word32(x), Word32(y))
  {
    WordOfSigned(OrBits(Word32(x), Word32(y)));
  }

  lemma WordOfXor(x: int, y: int)
    ensures Word32(Xor(x, y)) == XorBits(Word32(x), Word32(y))
  {
    WordOfSigned(XorBits(Word32(x), Word32(y)));
  }

  lemma WordOfNot(x: int)
    ensures Word32(Not(x)) == NotBits(Word32(x))
  {
    WordOfSigned(NotBits(Word32(x)));
  }

  lemma WordOfShl(x: int, k: nat)
    requires k < 32
    ensures Word32(Shl(x, k)) == Word32(x)[k..] + Zeros(k)
  {
    WordOfSigned(Word32(x)[k..] + Zeros(k));
  }

  lemma WordOfShrU(x: int, k: nat)
    requires k < 32
    ensures Word32(ShrU(x, k)) == Zeros(k) + Word32(x)[..32 - k]
  {
    WordOfValue(Zeros(k) + Word32(x)[..32 - k]);
  }

  lemma WordOfShr(x: int, k: nat)
    requires k < 32
    ensures Word32(Shr(x, k))[k..] == Word32(x)[..32 - k]
  {
    WordOfSigned(seq(k, _ => Word32(x)[0]) + Word32(x)[..32 - k]);
  }

  /** `x >>> 0` reduces modulo 2^32. */
  lemma ShrUByZero(x: int)
    ensures ShrU(x, 0) == x % 0x1_0000_0000 && Word32(ShrU(x, 0)) == Word32(x)
  {
    var w := Word32(x);
    assert Zeros(0) + w[..32] == w;
    ValueOfWord(x);
    WordOfValue(w);
  }

  // ----- accumulators and masks

  /** A number below 2^k is held in the last `k` bits. */
  lemma SmallWord(n: nat, k: nat)
    requires k <= 32 && n < Pow2(k)
    ensures Word32(n) == Zeros(32 - k) + ToBits(n, k)
  {
    var w: Word := Zeros(32 - k) + ToBits(n, k);
    ValueOfPadded(32 - k, ToBits(n, k));
    ValueOfToBitsExact(n, k);
    assert Value(w) == n;
    WordOfValue(w);
  }

  /** `(x << k) | n` pushes the `k` bits of `n` in from the right and drops the first `k` bits of `x`. */
  lemma WordOfPush(x: int, n: nat, k: nat)
    requires k < 32 && n < Pow2(k)
    ensures Word32(Or(Shl(x, k), n)) == Word32(x)[k..] + ToBits(n, k)
  {
    WordOfShl(x, k);
    SmallWord(n, k);
    WordOfOr(Shl(x, k), n);
    OrOfDisjoint(Word32(x)[k..], ToBits(n, k));
  }

  lemma OrOfDisjoint(a: Bits, b: Bits)
    requires |a| + |b| == 32
    ensures OrBits(a + Zeros(|b|), Zeros(|a|) + b) == a + b
  {
  }

  function Ones(k: nat): (b: Bits)
    ensures |b| == k
  {
    seq(k, _ => true)
  }

  lemma {:induction false} ValueOfOnes(k: nat)
    ensures Value(Ones(k)) == Pow2(k) - 1
  {
    if k != 0 {
      ValueOfOnes(k - 1);
      assert Ones(k)[..k - 1] == Ones(k - 1);
    }
  }

  /** `x & (2^k - 1)` reads the last `k` bits of `x`. */
  lemma MaskOfLowBits(x: int, k: nat, mask: nat)
    requires k < 32 && mask == Pow2(k) - 1
    ensures And(x, mask) == Value(Word32(x)[32 - k..])
  {
    ValueOfOnes(k);
    ToBitsOfValue(Ones(k));
    SmallWord(mask, k);
    var low := Word32(x)[32 - k..];
    assert AndBits(Word32(x), Word32(mask)) == Zeros(32 - k) + low;
    ValueOfPadded(32 - k, low);
    Pow2Of32();
    Pow2Monotone(k, 31);
  }

  /** `(x >>> s) & (2^k - 1)` reads the `k` bits before the last `s`. */
  lemma MaskOfShift(x: int, s: nat, k: nat, mask: nat)
    requires s + k <= 32 && k < 32 && s < 32 && mask == Pow2(k) - 1
    ensures And(ShrU(x, s), mask) == Value(Word32(x)[32 - s - k..32 - s])
    ensures And(Shr(x, s), mask) == Value(Word32(x)[32 - s - k..32 - s])
  {
    hide ToBits, Value, Pow2, ShrU, Shr, And, Word32;
    var w := Word32(x);
    WordOfShrU(x, s);
    MaskOfLowBits(ShrU(x, s), k, mask);
    SliceOfShift(Zeros(s), w, k);
    WordOfShr(x, s);
    MaskOfLowBits(Shr(x, s), k, mask);
    SliceOfShift(Word32(Shr(x, s))[..s], w, k);
    assert Word32(Shr(x, s)) == Word32(Shr(x, s))[..s] + Word32(Shr(x, s))[s..];
  }

  /** `(x << k) & (2^n - 1)` reads the last `n - k` bits of `x`, filled with zeros. */
  lemma MaskOfShl(x: int, k: nat, n: nat, mask: nat)
    requires k <= n < 32 && mask == Pow2(n) - 1
    ensures And(Shl(x, k), mask) == Value(Word32(x)[32 - n + k..] + Zeros(k))
  {
    WordOfShl(x, k);
    MaskOfLowBits(Shl(x, k), n, mask);
    ShiftedTail(Word32(x), k, n);
  }

  lemma ShiftedTail(w: Word, k: nat, n: nat)
    requires k <= n < 32
    ensures (w[k..] + Zeros(k))[32 - n..] == w[32 - n + k..] + Zeros(k)
  {
  }

  lemma SliceOfShift(a: Bits, w: Word, k: nat)
    requires |a| + k <= 32
    ensures (a + w[..32 - |a|])[32 - k..] == w[32 - |a| - k..32 - |a|]
  {
  }

  // ----- a queue of bits kept in the last `n` bits of a word

  /** Pushing `k` bits keeps the queue, as long as it does not outgrow the word. */
  lemma PushBits(x: int, n: nat, k: nat, size: nat, stream: Bits, done: Bits)
    requires k < 32 && n < Pow2(k) && size + k <= 32
    requires stream == done + Word32(x)[32 - size..]
    ensures stream + ToBits(n, k) == done + Word32(Or(Shl(x, k), n))[32 - size - k..]
  {
    WordOfPush(x, n, k);
    TailOfPush(Word32(x), ToBits(n, k), size);
    AppendAssociative(done, Word32(x)[32 - size..], ToBits(n, k));
  }

  lemma AppendAssociative(a: Bits, b: Bits, c: Bits)
    ensures a + b + c == a + (b + c)
  {
  }

  lemma TailOfPush(w: Word, chunk: Bits, size: nat)
    requires size + |chunk| <= 32
    ensures (w[|chunk|..] + chunk)[32 - size - |chunk|..] == w[32 - size..] + chunk
  {
  }

  lemma PopBits(w: Word, n: nat, k: nat, stream: Bits, done: Bits)
    requires k <= n <= 32
    requires stream == done + w[32 - n..]
    ensures stream == done + w[32 - n..32 - n + k] + w[32 - n + k..]
  {
    assert w[32 - n..] == w[32 - n..32 - n + k] + w[32 - n + k..];
    AppendAssociative(done, w[32 - n..32 - n + k], w[32 - n + k..]);
  }

  lemma {:induction false} Pow2Monotone(a: nat, b: nat)
    requires a <= b
    ensures Pow2(a) <= Pow2(b)
  {
    if a < b {
      Pow2Monotone(a, b - 1);
    }
  }

  // ----- shifts as arithmetic, where nothing overflows

  lemma {:induction false} SignOfSmall(q: nat, n: nat)
    requires 0 < n && q < Pow2(n - 1)
    ensures !ToBits(q, n)[0]
  {
    if n > 1 {
      SignOfSmall(q / 2, n - 1);
    }
  }

  /** Dividing by 2^k: `q` is the quotient of `x`, `r` the remainder. */
  lemma ShrIsDivision(x: nat, k: nat, q: nat, r: nat)
    requires k < 31 && x == q * Pow2(k) + r < 0x8000_0000 && r < Pow2(k) && q < Pow2(31 - k)
    ensures Shr(x, k) == q
  {
    hide Value, ToBits;
    var upper := ToBits(q, 32 - k);
    ToBitsSplit(x, 32 - k, k, q, r);
    assert Word32(x)[..32 - k] == upper;
    SignOfSmall(q, 32 - k);
    assert seq(k, _ => Word32(x)[0]) == Zeros(k);
    ValueOfPadded(k, upper);
    ValueOfToBitsExact(q, 32 - k);
    Pow2Monotone(31 - k, 31);
    Pow2Of32();
  }

  /** Multiplying by 2^k. */
  lemma ShlIsProduct(x: nat, k: nat)
    requires 0 < k < 32 && x < Pow2(31 - k)
    ensures Shl(x, k) == x * Pow2(k)
  {
    hide Value, ToBits, Pow2;
    var lower := ToBits(x, 32 - k);
    Pow2Monotone(31 - k, 31);
    Pow2Of32();
    ZeroBelowPow2(k);
    Pow2Monotone(31 - k, 32 - k);
    ToBitsSplit(x, k, 32 - k, 0, x);
    assert Word32(x)[k..] == lower;
    ValueOfToBitsExact(x, 32 - k);
    ValueOfZeros(k);
    ValueOfAppend(lower, Zeros(k));
    Pow2Add(31 - k, k);
    ProductBelow(x, Pow2(31 - k), Pow2(k));
  }

  lemma ZeroBelowPow2(k: nat)
    ensures 0 < Pow2(k)
  {
  }

  lemma ProductBelow(x: nat, y: nat, m: nat)
    requires x < y && m > 0
    ensures x * m < y * m
  {
  }
}
