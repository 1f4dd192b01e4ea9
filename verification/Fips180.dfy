/**
 SHA-256 as FIPS 180-4 defines it, on bit strings: padding (section 5.1.1), parsing
 (section 5.2.1), the functions and constants of sections 4.1.2, 4.2.2 and 5.3.3, and
 the hash computation of section 6.2.2.
 */
module Fips180 {
  import opened JsNumber

  /** Addition modulo 2^32 (section 3.2). */
  function Add(a: Word, b: Word): Word {
    ToBits((Value(a) + Value(b)) % 0x1_0000_0000, 32)
  }

  function Rotr(w: Word, n: nat): Word
    requires n <= 32
  {
    w[32 - n..] + w[..32 - n]
  }

  function ShiftRight(w: Word, n: nat): Word
    requires n <= 32
  {
    Zeros(n) + w[..32 - n]
  }

  function Xor3(a: Word, b: Word, c: Word): Word {
    XorBits(XorBits(a, b), c)
  }

  function Ch(x: Word, y: Word, z: Word): Word {
    XorBits(AndBits(x, y), AndBits(NotBits(x), z))
  }

  function Maj(x: Word, y: Word, z: Word): Word {
    Xor3(AndBits(x, y), AndBits(x, z), AndBits(y, z))
  }

  function BigSigma0(x: Word): Word {
    Xor3(Rotr(x, 2), Rotr(x, 13), Rotr(x, 22))
  }

  function BigSigma1(x: Word): Word {
    Xor3(Rotr(x, 6), Rotr(x, 11), Rotr(x, 25))
  }

  function SmallSigma0(x: Word): Word {
    Xor3(Rotr(x, 7), Rotr(x, 18), ShiftRight(x, 3))
  }

  function SmallSigma1(x: Word): Word {
    Xor3(Rotr(x, 17), Rotr(x, 19), ShiftRight(x, 10))
  }

  // ----- constants: fractional parts of roots of the first primes

  /** Eight primes in a row: the `8 * i`-th up to the `8 * i + 7`-th. */
  function PrimeRow(i: nat): (row: seq<nat>)
    requires i < 8
    ensures |row| == 8
  {
    match i
    case 0 => [2, 3, 5, 7, 11, 13, 17, 19]
    case 1 => [23, 29, 31, 37, 41, 43, 47, 53]
    case 2 => [59, 61, 67, 71, 73, 79, 83, 89]
    case 3 => [97, 101, 103, 107, 109, 113, 127, 131]
    case 4 => [137, 139, 149, 151, 157, 163, 167, 173]
    case 5 => [179, 181, 191, 193, 197, 199, 211, 223]
    case 6 => [227, 229, 233, 239, 241, 251, 257, 263]
    case _ => [269, 271, 277, 281, 283, 293, 307, 311]
  }

  function Prime(t: nat): nat
    requires t < 64
  {
    PrimeRow(t / 8)[t % 8]
  }

  function Cube(r: nat): nat {
    r * r * r
  }

  ghost predicate IsCubeRoot(r: nat, n: nat) {
    Cube(r) <= n < Cube(r + 1)
  }

  ghost predicate IsSquareRoot(r: nat, n: nat) {
    r * r <= n < (r + 1) * (r + 1)
  }

  /** `w` is the first 32 bits of the fractional part of the cube root of `p`. */
  ghost predicate IsCubeRootFraction(w: nat, p: nat) {
    exists r: nat :: IsCubeRoot(r, p * 0x1_0000_0000_0000_0000_0000_0000) && w == r % 0x1_0000_0000
  }

  ghost predicate IsSquareRootFraction(w: nat, p: nat) {
    exists r: nat :: IsSquareRoot(r, p * 0x1_0000_0000_0000_0000) && w == r % 0x1_0000_0000
  }

  /** Section 4.2.2: the 64 round constants. */
  ghost predicate AreRoundConstants(k: seq<nat>) {
    |k| == 64 && forall t :: 0 <= t < 64 ==> IsCubeRootFraction(k[t], Prime(t))
  }

  /** Section 5.3.3: the initial hash value. */
  ghost predicate AreInitialValues(h: seq<nat>) {
    |h| == 8 && forall t :: 0 <= t < 8 ==> IsSquareRootFraction(h[t], Prime(t))
  }

  // ----- section 6.2.2

  /** The eight working variables, or the eight words of a hash value. */
  datatype Regs = Regs(a: Word, b: Word, c: Word, d: Word, e: Word, f: Word, g: Word, h: Word)

  function RegsOf(h: seq<nat>): Regs
    requires |h| == 8
  {
    Regs(Word32(h[0]), Word32(h[1]), Word32(h[2]), Word32(h[3]),
         Word32(h[4]), Word32(h[5]), Word32(h[6]), Word32(h[7]))
  }

  /** The first `n` words of the message schedule of a block. */
  function Schedule(block: seq<Word>, n: nat): (w: seq<Word>)
    requires |block| == 16
    ensures |w| == n
    decreases n
  {
    if n <= 16 then block[..n]
    else
      var t := n - 1;
      var w := Schedule(block, t);
      w + [ScheduleWord(w, t)]
  }

  function ScheduleWord(w: seq<Word>, t: nat): Word
    requires 16 <= t <= |w|
  {
    Add(Add(Add(SmallSigma1(w[t - 2]), w[t - 7]), SmallSigma0(w[t - 15])), w[t - 16])
  }

  function Round(r: Regs, k: Word, w: Word): Regs {
    var t1 := Add(Add(Add(Add(r.h, BigSigma1(r.e)), Ch(r.e, r.f, r.g)), k), w);
    var t2 := Add(BigSigma0(r.a), Maj(r.a, r.b, r.c));
    Regs(Add(t1, t2), r.a, r.b, r.c, Add(r.d, t1), r.e, r.f, r.g)
  }

  function Rounds(r: Regs, k: seq<nat>, w: seq<Word>, n: nat): Regs
    requires n <= |k| && n <= |w|
  {
    if n == 0 then r else Round(Rounds(r, k, w, n - 1), Word32(k[n - 1]), w[n - 1])
  }

  function AddRegs(r: Regs, s: Regs): Regs {
    Regs(Add(r.a, s.a), Add(r.b, s.b), Add(r.c, s.c), Add(r.d, s.d),
         Add(r.e, s.e), Add(r.f, s.f), Add(r.g, s.g), Add(r.h, s.h))
  }

  function Compress(r: Regs, k: seq<nat>, block: seq<Word>): Regs
    requires |k| == 64 && |block| == 16
  {
    AddRegs(Rounds(r, k, Schedule(block, 64), 64), r)
  }

  /** Section 5.2.1: word `j` of block `i` of a padded message. */
  function MessageWord(p: Bits, i: nat, j: nat): Word
    requires j < 16 && 512 * i + 512 <= |p|
  {
    p[512 * i + 32 * j..512 * i + 32 * j + 32]
  }

  function Block(p: Bits, i: nat): (b: seq<Word>)
    requires 512 * i + 512 <= |p|
    ensures |b| == 16
  {
    seq(16, j requires 0 <= j < 16 => MessageWord(p, i, j))
  }

  /** The hash value after `n` blocks. */
  function HashValue(h: Regs, k: seq<nat>, p: Bits, n: nat): Regs
    requires |k| == 64 && 512 * n <= |p|
  {
    if n == 0 then h else Compress(HashValue(h, k, p, n - 1), k, Block(p, n - 1))
  }

  /** Section 5.1.1: the number of zero bits after the closing one bit. */
  function PadLength(l: nat): nat {
    (447 - l) % 512
  }

  function Pad(m: Bits): Bits {
    m + [true] + Zeros(PadLength(|m|)) + ToBits(|m|, 64)
  }

  /** The number of zero bits is the smallest one that lets the length field end a block. */
  lemma PadLengthIsLeast(l: nat, k: nat)
    ensures (l + 1 + PadLength(l)) % 512 == 448
    ensures (l + 1 + k) % 512 == 448 ==> PadLength(l) <= k
  {
  }

  function RegBits(r: Regs): Bits {
    r.a + r.b + r.c + r.d + r.e + r.f + r.g + r.h
  }

  /** The 256-bit digest of a message shorter than 2^64 bits, for given constants. */
  function DigestWith(k: seq<nat>, h: seq<nat>, m: Bits): Bits
    requires |k| == 64 && |h| == 8
  {
    var p := Pad(m);
    RegBits(HashValue(RegsOf(h), k, p, |p| / 512))
  }

  /** `d` is the SHA-256 digest of `m`. */
  ghost predicate IsDigest(d: Bits, m: Bits) {
    exists k, h :: AreRoundConstants(k) && AreInitialValues(h) && d == DigestWith(k, h, m)
  }

  // ----- the constants, hence the digest, are determined

  lemma CubeMonotone(r: nat, s: nat)
    requires r <= s
    ensures Cube(r) <= Cube(s)
  {
    assert r * r <= s * s;
    assert r * r * r <= s * s * r <= s * s * s;
  }

  lemma CubeRootUnique(r: nat, s: nat, n: nat)
    requires IsCubeRoot(r, n) && IsCubeRoot(s, n)
    ensures r == s
  {
    if r < s {
      CubeMonotone(r + 1, s);
    } else if s < r {
      CubeMonotone(s + 1, r);
    }
  }

  lemma SquareRootUnique(r: nat, s: nat, n: nat)
    requires IsSquareRoot(r, n) && IsSquareRoot(s, n)
    ensures r == s
  {
    if r < s {
      SquareMonotone(r + 1, s);
    } else if s < r {
      SquareMonotone(s + 1, r);
    }
  }

  lemma SquareMonotone(r: nat, s: nat)
    requires r <= s
    ensures r * r <= s * s
  {
    assert r * r <= r * s <= s * s;
  }

  lemma CubeFractionUnique(w: nat, w': nat, p: nat)
    requires IsCubeRootFraction(w, p) && IsCubeRootFraction(w', p)
    ensures w == w'
  {
    var r: nat :| IsCubeRoot(r, p * 0x1_0000_0000_0000_0000_0000_0000) && w == r % 0x1_0000_0000;
    var s: nat :| IsCubeRoot(s, p * 0x1_0000_0000_0000_0000_0000_0000) && w' == s % 0x1_0000_0000;
    CubeRootUnique(r, s, p * 0x1_0000_0000_0000_0000_0000_0000);
  }

  lemma SquareFractionUnique(w: nat, w': nat, p: nat)
    requires IsSquareRootFraction(w, p) && IsSquareRootFraction(w', p)
    ensures w == w'
  {
    var r: nat :| IsSquareRoot(r, p * 0x1_0000_0000_0000_0000) && w == r % 0x1_0000_0000;
    var s: nat :| IsSquareRoot(s, p * 0x1_0000_0000_0000_0000) && w' == s % 0x1_0000_0000;
    SquareRootUnique(r, s, p * 0x1_0000_0000_0000_0000);
  }

  lemma ConstantsUnique(k: seq<nat>, k': seq<nat>)
    requires AreRoundConstants(k) && AreRoundConstants(k')
    ensures k == k'
  {
    forall t | 0 <= t < 64
      ensures k[t] == k'[t]
    {
      CubeFractionUnique(k[t], k'[t], Prime(t));
    }
  }

  lemma InitialValuesUnique(h: seq<nat>, h': seq<nat>)
    requires AreInitialValues(h) && AreInitialValues(h')
    ensures h == h'
  {
    forall t | 0 <= t < 8
      ensures h[t] == h'[t]
    {
      SquareFractionUnique(h[t], h'[t], Prime(t));
    }
  }

  /** A message has one digest. */
  lemma DigestUnique(d: Bits, d': Bits, m: Bits)
    requires IsDigest(d, m) && IsDigest(d', m)
    ensures d == d'
  {
    var k, h :| AreRoundConstants(k) && AreInitialValues(h) && d == DigestWith(k, h, m);
    var k', h' :| AreRoundConstants(k') && AreInitialValues(h') && d' == DigestWith(k', h', m);
    ConstantsUnique(k, k');
    InitialValuesUnique(h, h');
  }
}
