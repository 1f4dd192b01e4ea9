/**
 packages/shared/src/diff.ts: the dependency-free SHA-256. Numbers are integers, sums
 are exact, and only the bitwise operators and `>>> 0` bring them back to 32 bits.
 */
module Sha256 {
  import opened JsNumber
  import opened Rfc4648
  import opened Sha256Constants
  import F = Fips180

  /** `x` is the unsigned number of the word `w`. */
  ghost predicate Holds(x: int, w: Word) {
    0 <= x < 0x1_0000_0000 && Word32(x) == w
  }

  /** Integers a double holds exactly. */
  predicate Safe(x: int) {
    -0x20_0000_0000_0000 < x < 0x20_0000_0000_0000
  }

  function Rotr(value: int, shift: nat): nat
    requires 0 < shift < 32
  {
    ShrU(Or(ShrU(value, shift), Shl(value, 32 - shift)), 0)
  }

  /** Conversion to words turns exact sums into additions modulo 2^32. */
  lemma WordOfSum(x: int, y: int)
    ensures Word32(x + y) == F.Add(Word32(x), Word32(y))
  {
    ValueOfWord(x);
    ValueOfWord(y);
    WordOfResidues(x, y, Word32(x), Word32(y));
  }

  lemma WordOfResidues(x: int, y: int, a: Word, b: Word)
    requires Value(a) == x % 0x1_0000_0000 && Value(b) == y % 0x1_0000_0000
    ensures Word32(x + y) == F.Add(a, b)
  {
    assert (Value(a) + Value(b)) % 0x1_0000_0000 == (x + y) % 0x1_0000_0000;
  }

  lemma HoldsReduced(x: int)
    ensures Holds(ShrU(x, 0), Word32(x))
  {
    ShrUByZero(x);
  }

  lemma WordOfRotr(value: int, shift: nat)
    requires 0 < shift < 32
    ensures Holds(Rotr(value, shift), F.Rotr(Word32(value), shift))
  {
    var w := Word32(value);
    var joined := Or(ShrU(value, shift), Shl(value, 32 - shift));
    WordOfShrU(value, shift);
    WordOfShl(value, 32 - shift);
    WordOfOr(ShrU(value, shift), Shl(value, 32 - shift));
    OrOfHalves(w[32 - shift..], w[..32 - shift]);
    HoldsReduced(joined);
  }

  lemma OrOfHalves(a: Bits, b: Bits)
    requires |a| + |b| == 32
    ensures OrBits(Zeros(|a|) + b, a + Zeros(|b|)) == a + b
  {
  }

  // ----- the functions of one round

  lemma WordOfXor3(x: int, y: int, z: int)
    ensures Word32(Xor(Xor(x, y), z)) == F.Xor3(Word32(x), Word32(y), Word32(z))
    ensures -0x8000_0000 <= Xor(Xor(x, y), z) < 0x8000_0000
  {
    WordOfXor(x, y);
    WordOfXor(Xor(x, y), z);
  }

  lemma WordOfSigma(x: int, i: nat, j: nat, k: nat)
    requires 0 < i < 32 && 0 < j < 32 && 0 < k < 32
    ensures var n := Xor(Xor(Rotr(x, i), Rotr(x, j)), Rotr(x, k));
            Word32(n) == F.Xor3(F.Rotr(Word32(x), i), F.Rotr(Word32(x), j), F.Rotr(Word32(x), k))
            && -0x8000_0000 <= n < 0x8000_0000
  {
    WordOfRotr(x, i);
    WordOfRotr(x, j);
    WordOfRotr(x, k);
    WordOfXor3(Rotr(x, i), Rotr(x, j), Rotr(x, k));
  }

  lemma WordOfSmallSigma(x: int, i: nat, j: nat, k: nat)
    requires 0 < i < 32 && 0 < j < 32 && 0 < k < 32
    ensures var n := Xor(Xor(Rotr(x, i), Rotr(x, j)), ShrU(x, k));
            Word32(n) == F.Xor3(F.Rotr(Word32(x), i), F.Rotr(Word32(x), j), F.ShiftRight(Word32(x), k))
            && -0x8000_0000 <= n < 0x8000_0000
  {
    WordOfRotr(x, i);
    WordOfRotr(x, j);
    WordOfShrU(x, k);
    WordOfXor3(Rotr(x, i), Rotr(x, j), ShrU(x, k));
  }

  lemma WordOfCh(e: int, f: int, g: int)
    ensures var n := Xor(And(e, f), And(Not(e), g));
            Word32(n) == F.Ch(Word32(e), Word32(f), Word32(g)) && -0x8000_0000 <= n < 0x8000_0000
  {
    WordOfAnd(e, f);
    WordOfNot(e);
    WordOfAnd(Not(e), g);
    WordOfXor(And(e, f), And(Not(e), g));
  }

  lemma WordOfMaj(a: int, b: int, c: int)
    ensures var n := Xor(Xor(And(a, b), And(a, c)), And(b, c));
            Word32(n) == F.Maj(Word32(a), Word32(b), Word32(c)) && -0x8000_0000 <= n < 0x8000_0000
  {
    WordOfAnd(a, b);
    WordOfAnd(a, c);
    WordOfAnd(b, c);
    WordOfXor3(And(a, b), And(a, c), And(b, c));
  }

  lemma HoldsSum(x: int, y: int)
    ensures Holds(ShrU(x + y, 0), F.Add(Word32(x), Word32(y)))
  {
    WordOfSum(x, y);
    HoldsReduced(x + y);
  }

  lemma HoldsSum4(x: int, y: int, z: int, u: int)
    ensures Holds(ShrU(x + y + z + u, 0), F.Add(F.Add(F.Add(Word32(x), Word32(y)), Word32(z)), Word32(u)))
  {
    WordOfSum(x, y);
    WordOfSum(x + y, z);
    HoldsSum(x + y + z, u);
  }

  lemma HoldsSum5(x: int, y: int, z: int, u: int, v: int)
    ensures Holds(ShrU(x + y + z + u + v, 0),
                  F.Add(F.Add(F.Add(F.Add(Word32(x), Word32(y)), Word32(z)), Word32(u)), Word32(v)))
  {
    WordOfSum(x, y);
    WordOfSum(x + y, z);
    WordOfSum(x + y + z, u);
    HoldsSum(x + y + z + u, v);
  }

  // ----- big-endian access to the padded bytes (DataView)

  function BigEndian(v: nat): (b: seq<Byte>)
    requires v < 0x1_0000_0000
    ensures |b| == 4
  {
    [v / 0x100_0000, v / 0x1_0000 % 0x100, v / 0x100 % 0x100, v % 0x100]
  }

  lemma BigEndianValue(v: nat)
    requires v < 0x1_0000_0000
    ensures var b := BigEndian(v); FromBytes(b[0], b[1], b[2], b[3]) == v
  {
  }

  function FromBytes(b0: nat, b1: nat, b2: nat, b3: nat): nat {
    b0 * 0x100_0000 + b1 * 0x1_0000 + b2 * 0x100 + b3
  }

  function GetUint32(view: seq<Byte>, i: nat): nat
    requires i + 4 <= |view|
  {
    FromBytes(view[i], view[i + 1], view[i + 2], view[i + 3])
  }

  lemma BitsOfFour(b: seq<Byte>)
    requires |b| == 4
    ensures BitsOfBytes(b) == ToBits(b[0], 8) + ToBits(b[1], 8) + ToBits(b[2], 8) + ToBits(b[3], 8)
  {
    hide BitsOfBytes, ToBits;
    assert b == [b[0]] + [b[1]] + [b[2]] + [b[3]];
    BitsOfConcat([b[0]] + [b[1]] + [b[2]], [b[3]]);
    BitsOfConcat([b[0]] + [b[1]], [b[2]]);
    BitsOfConcat([b[0]], [b[1]]);
    BitsOfOne(b[0]);
    BitsOfOne(b[1]);
    BitsOfOne(b[2]);
    BitsOfOne(b[3]);
  }

  lemma ByteBits(hi: nat, lo: nat, n: nat)
    requires hi < Pow2(n) && lo < 256
    ensures ToBits(hi * 256 + lo, n + 8) == ToBits(hi, n) + ToBits(lo, 8)
  {
    assert Pow2(8) == 256;
    ToBitsSplit(hi * 256 + lo, n, 8, hi, lo);
  }

  lemma FourByteBits(b0: nat, b1: nat, b2: nat, b3: nat)
    requires b0 < 256 && b1 < 256 && b2 < 256 && b3 < 256
    ensures ToBits(FromBytes(b0, b1, b2, b3), 32) == ToBits(b0, 8) + ToBits(b1, 8) + ToBits(b2, 8) + ToBits(b3, 8)
    ensures FromBytes(b0, b1, b2, b3) < 0x1_0000_0000
  {
    hide ToBits, Pow2;
    PowersOfBytes();
    ByteBits(b0, b1, 8);
    ByteBits(b0 * 256 + b1, b2, 16);
    ByteBits((b0 * 256 + b1) * 256 + b2, b3, 24);
  }

  lemma BitsOfBigEndian(b: seq<Byte>, v: nat)
    requires |b| == 4 && v == FromBytes(b[0], b[1], b[2], b[3])
    ensures BitsOfBytes(b) == ToBits(v, 32) && v < 0x1_0000_0000
  {
    hide *;
    BitsOfFour(b);
    FourByteBits(b[0], b[1], b[2], b[3]);
  }

  lemma PowersOfBytes()
    ensures Pow2(8) == 0x100 && Pow2(16) == 0x1_0000 && Pow2(24) == 0x100_0000
  {
    Pow2Add(8, 8);
    Pow2Add(16, 8);
  }

  lemma WordOfGetUint32(view: seq<Byte>, i: nat)
    requires i + 4 <= |view|
    ensures Holds(GetUint32(view, i), BitsOfBytes(view)[8 * i..8 * i + 32])
  {
    hide BitsOfBytes, ToBits, FromBytes;
    BitsOfSlice(view, i, i + 4);
    BitsOfBigEndian(view[i..i + 4], GetUint32(view, i));
    assert GetUint32(view, i) % 0x1_0000_0000 == GetUint32(view, i);
  }

  method SetUint32(view: array<Byte>, offset: nat, value: nat)
    requires offset + 4 <= view.Length && value < 0x1_0000_0000
    modifies view
    ensures view[..] == old(view[..offset]) + BigEndian(value) + old(view[offset + 4..])
  {
    view[offset] := value / 0x100_0000;
    view[offset + 1] := value / 0x1_0000 % 0x100;
    view[offset + 2] := value / 0x100 % 0x100;
    view[offset + 3] := value % 0x100;
  }

  // ----- padding

  function PaddedLength(n: nat): nat {
    ((n + 8) / 64 + 1) * 64
  }

  /** `(((n + 8) >> 6) + 1) << 6`, as long as nothing reaches 2^31. */
  lemma PaddedLengthOfShifts(n: nat)
    requires n < 0x8000_0000 - 72
    ensures Shl(Shr(n + 8, 6) + 1, 6) == PaddedLength(n)
    ensures n + 9 <= PaddedLength(n)
  {
    hide *;
    PowersOfShifts();
    PaddedLengthUnfolds(n);
    ShrIsDivision(n + 8, 6, (n + 8) / 64, (n + 8) % 64);
    ShlIsProduct((n + 8) / 64 + 1, 6);
  }

  lemma PowersOfShifts()
    ensures Pow2(6) == 64 && Pow2(25) == 0x200_0000
  {
    PowersOfBytes();
    Pow2Add(24, 1);
  }

  lemma PaddedLengthUnfolds(n: nat)
    ensures PaddedLength(n) == ((n + 8) / 64 + 1) * 64
  {
  }

  /** The bytes written before the length field, followed by that field, spell the padded message. */
  lemma PaddedBits(bytes: seq<Byte>, zeros: nat, hi: nat, lo: nat, padded: seq<Byte>)
    requires |bytes| + 1 + zeros + 8 == PaddedLength(|bytes|)
    requires 8 * |bytes| == hi * 0x1_0000_0000 + lo && hi < 0x1_0000_0000 && lo < 0x1_0000_0000
    requires padded == bytes + [0x80] + seq(zeros, _ => 0) + BigEndian(hi) + BigEndian(lo)
    ensures BitsOfBytes(padded) == F.Pad(BitsOfBytes(bytes))
  {
    hide *;
    PadUnfolds(|bytes|, zeros, BitsOfBytes(bytes));
    var z: seq<Byte> := seq(zeros, _ => 0);
    BitsOfConcat(bytes + [0x80] + z + BigEndian(hi), BigEndian(lo));
    BitsOfConcat(bytes + [0x80] + z, BigEndian(hi));
    BitsOfConcat(bytes + [0x80], z);
    BitsOfConcat(bytes, [0x80]);
    BitsOfLength(8 * |bytes|, hi, lo);
    BitsOfEnd(zeros);
    Regroup(BitsOfBytes(bytes), BitsOfBytes([0x80]), BitsOfBytes(z),
            BitsOfBytes(BigEndian(hi)), BitsOfBytes(BigEndian(lo)), Zeros(7 + 8 * zeros));
  }

  lemma PadUnfolds(n: nat, zeros: nat, m: Bits)
    requires n + 1 + zeros + 8 == PaddedLength(n) && |m| == 8 * n
    ensures F.Pad(m) == m + [true] + Zeros(7 + 8 * zeros) + ToBits(8 * n, 64)
  {
    assert F.PadLength(8 * n) == 7 + 8 * zeros;
  }

  lemma BitsOfLength(l: nat, hi: nat, lo: nat)
    requires l == hi * 0x1_0000_0000 + lo && hi < 0x1_0000_0000 && lo < 0x1_0000_0000
    ensures BitsOfBytes(BigEndian(hi)) + BitsOfBytes(BigEndian(lo)) == ToBits(l, 64)
  {
    hide *;
    BigEndianValue(hi);
    BigEndianValue(lo);
    BitsOfBigEndian(BigEndian(hi), hi);
    BitsOfBigEndian(BigEndian(lo), lo);
    Pow2Of32();
    ToBitsSplit(l, 32, 32, hi, lo);
  }

  lemma BitsOfEnd(zeros: nat)
    ensures BitsOfBytes([0x80]) + BitsOfBytes(seq(zeros, _ => 0)) == [true] + Zeros(7 + 8 * zeros)
  {
    hide BitsOfBytes, ToBits;
    BitsOfOne(0x80);
    EndMark();
    ZeroBytes(zeros);
  }

  lemma EndMark()
    ensures ToBits(0x80, 8) == [true] + Zeros(7)
  {
  }

  lemma {:induction false} ZeroBytes(zeros: nat)
    ensures BitsOfBytes(seq(zeros, _ => 0)) == Zeros(8 * zeros)
  {
    var z: seq<Byte> := seq(zeros, _ => 0);
    if zeros != 0 {
      ZeroBytes(zeros - 1);
      assert z[..zeros - 1] == seq(zeros - 1, _ => 0);
      assert ToBits(0, 8) == Zeros(8);
    }
  }

  lemma Regroup(m: Bits, one: Bits, z: Bits, hi: Bits, lo: Bits, k: Bits)
    requires one + z == [true] + k
    ensures m + one + z + hi + lo == m + [true] + k + (hi + lo)
  {
    AppendAssociative(m, one, z);
    AppendAssociative(m, [true], k);
    AppendAssociative(m + [true] + k, hi, lo);
  }

  /** The message, the bit one, and zeros where the length will be. */
  lemma BeforeTheLength(p: seq<Byte>, bytes: seq<Byte>, zeros: int)
    requires zeros + 8 >= 0 && |p| == |bytes| + 1 + zeros + 8
    requires forall i :: 0 <= i < |bytes| ==> p[i] == bytes[i]
    requires p[|bytes|] == 0x80 && forall i :: |bytes| < i < |p| ==> p[i] == 0
    ensures p == bytes + [0x80] + seq(zeros + 8, _ => 0)
  {
  }

  method PadMessage(bytes: seq<Byte>) returns (padded: array<Byte>)
    requires |bytes| < 0x8000_0000 - 72
    ensures fresh(padded) && padded.Length == PaddedLength(|bytes|)
    ensures BitsOfBytes(padded[..]) == F.Pad(BitsOfBytes(bytes))
  {
    hide *;
    PaddedLengthOfShifts(|bytes|);
    padded := new Byte[Shl(Shr(|bytes| + 8, 6) + 1, 6)](_ => 0);
    forall i | 0 <= i < |bytes| {
      padded[i] := bytes[i];
    }
    padded[|bytes|] := 0x80;
    ghost var zeros := padded.Length - |bytes| - 9;
    BeforeTheLength(padded[..], bytes, zeros);
    var bitLength := |bytes| * 8;
    ShrUByZero(bitLength);
    SetUint32(padded, padded.Length - 8, bitLength / 0x1_0000_0000);
    SetUint32(padded, padded.Length - 4, ShrU(bitLength, 0));
    PaddedBits(bytes, zeros, bitLength / 0x1_0000_0000, ShrU(bitLength, 0), padded[..]);
  }

  // ----- message schedule

  lemma {:induction false} SchedulePrefix(block: seq<Word>, n: nat, m: nat)
    requires |block| == 16 && n <= m
    ensures F.Schedule(block, n) == F.Schedule(block, m)[..n]
    decreases m
  {
    hide F.ScheduleWord;
    if n < m {
      SchedulePrefix(block, n, m - 1);
    }
  }

  /** The recurrence of the schedule, read inside the complete schedule. */
  lemma ScheduleEntry(block: seq<Word>, t: nat)
    requires |block| == 16 && t < 64
    ensures var s := F.Schedule(block, 64);
            s[t] == if t < 16 then block[t] else F.ScheduleWord(s, t)
  {
    var s := F.Schedule(block, 64);
    if t < 16 {
      SchedulePrefix(block, 16, 64);
      assert s[t] == F.Schedule(block, 16)[t];
    } else {
      SchedulePrefix(block, t + 1, 64);
      SchedulePrefix(block, t, 64);
      assert s[t] == F.Schedule(block, t + 1)[t];
    }
  }

  /** One extended schedule word, from the four earlier ones it needs. */
  lemma WordOfSchedule(w2: nat, w7: nat, w15: nat, w16: nat)
    ensures var s0 := Xor(Xor(Rotr(w15, 7), Rotr(w15, 18)), ShrU(w15, 3));
            var s1 := Xor(Xor(Rotr(w2, 17), Rotr(w2, 19)), ShrU(w2, 10));
            Holds(ShrU(w16 + s0 + w7 + s1, 0),
                  F.Add(F.Add(F.Add(F.SmallSigma1(Word32(w2)), Word32(w7)), F.SmallSigma0(Word32(w15))), Word32(w16)))
            && -0x8000_0000 <= s0 < 0x8000_0000 && -0x8000_0000 <= s1 < 0x8000_0000
  {
    hide Word32, Xor, Rotr, ShrU, F.Add, F.Xor3, F.Rotr, F.ShiftRight, Holds;
    var s0 := Xor(Xor(Rotr(w15, 7), Rotr(w15, 18)), ShrU(w15, 3));
    var s1 := Xor(Xor(Rotr(w2, 17), Rotr(w2, 19)), ShrU(w2, 10));
    WordOfSmallSigma(w15, 7, 18, 3);
    WordOfSmallSigma(w2, 17, 19, 10);
    HoldsSum4(s1, w7, s0, w16);
    assert w16 + s0 + w7 + s1 == s1 + w7 + s0 + w16;
  }

  ghost predicate ScheduleHolds(w: seq<nat>, block: seq<Word>, n: nat)
    requires |block| == 16 && |w| == 64 && n <= 64
  {
    forall t :: 0 <= t < n ==> Holds(w[t], F.Schedule(block, 64)[t])
  }

  lemma NextScheduleWord(w: seq<nat>, block: seq<Word>, j: nat)
    requires |block| == 16 && |w| == 64 && 16 <= j < 64 && ScheduleHolds(w, block, j)
    ensures var s0 := Xor(Xor(Rotr(w[j - 15], 7), Rotr(w[j - 15], 18)), ShrU(w[j - 15], 3));
            var s1 := Xor(Xor(Rotr(w[j - 2], 17), Rotr(w[j - 2], 19)), ShrU(w[j - 2], 10));
            Holds(ShrU(w[j - 16] + s0 + w[j - 7] + s1, 0), F.Schedule(block, 64)[j])
            && Safe(w[j - 16] + s0 + w[j - 7] + s1)
  {
    hide Word32, Xor, Rotr, ShrU, F.Add, F.SmallSigma0, F.SmallSigma1, F.Schedule;
    WordOfSchedule(w[j - 2], w[j - 7], w[j - 15], w[j - 16]);
    ScheduleEntry(block, j);
  }

  lemma FirstScheduleWord(view: seq<Byte>, i: nat, j: nat)
    requires 64 * i + 64 <= |view| && j < 16
    ensures Holds(GetUint32(view, 64 * i + j * 4), F.Schedule(F.Block(BitsOfBytes(view), i), 64)[j])
  {
    hide BitsOfBytes, GetUint32, F.Schedule, Holds;
    WordOfGetUint32(view, 64 * i + j * 4);
    ScheduleEntry(F.Block(BitsOfBytes(view), i), j);
  }

  /** The inner loops on `w`, for the block at byte `i`; what `w` held before does not matter. */
  method FillSchedule(view: array<Byte>, i: nat, w: array<nat>, ghost n: nat)
    requires i == 64 * n && i + 64 <= view.Length && w.Length == 64
    modifies w
    ensures ScheduleHolds(w[..], F.Block(BitsOfBytes(view[..]), n), 64)
  {
    hide BitsOfBytes, F.Block, F.Schedule, Holds, Xor, Rotr, ShrU, GetUint32;
    ghost var block := F.Block(BitsOfBytes(view[..]), n);
    var j := 0;
    while j < 16
      invariant j <= 16 && ScheduleHolds(w[..], block, j)
    {
      FirstScheduleWord(view[..], n, j);
      w[j] := GetUint32(view[..], i + j * 4);
      j := j + 1;
    }
    while j < 64
      invariant 16 <= j <= 64 && ScheduleHolds(w[..], block, j)
    {
      NextScheduleWord(w[..], block, j);
      var s0 := Xor(Xor(Rotr(w[j - 15], 7), Rotr(w[j - 15], 18)), ShrU(w[j - 15], 3));
      var s1 := Xor(Xor(Rotr(w[j - 2], 17), Rotr(w[j - 2], 19)), ShrU(w[j - 2], 10));
      assert Safe(w[j - 16] + s0 + w[j - 7] + s1);
      w[j] := ShrU(w[j - 16] + s0 + w[j - 7] + s1, 0);
      j := j + 1;
    }
  }

  // ----- rounds

  ghost predicate RegsHold(a: int, b: int, c: int, d: int, e: int, f: int, g: int, h: int, r: F.Regs) {
    && Holds(a, r.a) && Holds(b, r.b) && Holds(c, r.c) && Holds(d, r.d)
    && Holds(e, r.e) && Holds(f, r.f) && Holds(g, r.g) && Holds(h, r.h)
  }

  lemma Temp1(e: int, f: int, g: int, h: int, k: nat, w: nat, r: F.Regs)
    requires Holds(e, r.e) && Holds(f, r.f) && Holds(g, r.g) && Holds(h, r.h)
    requires k < 0x1_0000_0000 && w < 0x1_0000_0000
    ensures var s1 := Xor(Xor(Rotr(e, 6), Rotr(e, 11)), Rotr(e, 25));
            var ch := Xor(And(e, f), And(Not(e), g));
            Holds(ShrU(h + s1 + ch + k + w, 0),
                  F.Add(F.Add(F.Add(F.Add(r.h, F.BigSigma1(r.e)), F.Ch(r.e, r.f, r.g)), Word32(k)), Word32(w)))
            && Safe(h + s1 + ch + k + w)
  {
    hide Word32, Xor, And, Not, Rotr, ShrU, F.Add, F.Ch, F.Xor3, F.Rotr;
    var s1 := Xor(Xor(Rotr(e, 6), Rotr(e, 11)), Rotr(e, 25));
    var ch := Xor(And(e, f), And(Not(e), g));
    WordOfSigma(e, 6, 11, 25);
    WordOfCh(e, f, g);
    HoldsSum5(h, s1, ch, k, w);
  }

  lemma Temp2(a: int, b: int, c: int, r: F.Regs)
    requires Holds(a, r.a) && Holds(b, r.b) && Holds(c, r.c)
    ensures var s0 := Xor(Xor(Rotr(a, 2), Rotr(a, 13)), Rotr(a, 22));
            var maj := Xor(Xor(And(a, b), And(a, c)), And(b, c));
            Holds(ShrU(s0 + maj, 0), F.Add(F.BigSigma0(r.a), F.Maj(r.a, r.b, r.c)))
            && Safe(s0 + maj)
  {
    hide Word32, Xor, And, Rotr, ShrU, F.Add, F.Maj, F.Xor3, F.Rotr;
    WordOfSigma(a, 2, 13, 22);
    WordOfMaj(a, b, c);
    HoldsSum(Xor(Xor(Rotr(a, 2), Rotr(a, 13)), Rotr(a, 22)), Xor(Xor(And(a, b), And(a, c)), And(b, c)));
  }

  /** Two held words add up to the held sum. */
  lemma HoldsAdd(x: int, y: int, u: Word, v: Word)
    requires Holds(x, u) && Holds(y, v)
    ensures Holds(ShrU(x + y, 0), F.Add(u, v)) && Safe(x + y)
  {
    HoldsSum(x, y);
  }

  method RunRounds(h0: int, h1: int, h2: int, h3: int, h4: int, h5: int, h6: int, h7: int,
                   w: array<nat>, ghost r: F.Regs, ghost block: seq<Word>)
    returns (a: int, b: int, c: int, d: int, e: int, f: int, g: int, h: int)
    requires |block| == 16 && w.Length == 64 && ScheduleHolds(w[..], block, 64)
    requires RegsHold(h0, h1, h2, h3, h4, h5, h6, h7, r)
    ensures RegsHold(a, b, c, d, e, f, g, h, F.Rounds(r, SHA256_K, F.Schedule(block, 64), 64))
  {
    hide F.Rounds, F.Schedule, F.Round, Holds, Word32, Xor, And, Not, Rotr, ShrU;
    hide F.Add, F.Ch, F.Maj, F.BigSigma0, F.BigSigma1;
    a, b, c, d, e, f, g, h := h0, h1, h2, h3, h4, h5, h6, h7;
    RoundsUnfold(r, F.Schedule(block, 64), 0);
    ghost var s := F.Schedule(block, 64);
    for j := 0 to 64
      invariant RegsHold(a, b, c, d, e, f, g, h, F.Rounds(r, SHA256_K, s, j))
    {
      ghost var now := F.Rounds(r, SHA256_K, s, j);
      RoundsUnfold(r, s, j + 1);
      ScheduleWordHolds(w[j], s[j]);
      TableBelow(j);
      Temp1(e, f, g, h, SHA256_K[j], w[j], now);
      Temp2(a, b, c, now);
      var s1 := Xor(Xor(Rotr(e, 6), Rotr(e, 11)), Rotr(e, 25));
      var ch := Xor(And(e, f), And(Not(e), g));
      var temp1 := ShrU(h + s1 + ch + SHA256_K[j] + w[j], 0);
      var s0 := Xor(Xor(Rotr(a, 2), Rotr(a, 13)), Rotr(a, 22));
      var maj := Xor(Xor(And(a, b), And(a, c)), And(b, c));
      var temp2 := ShrU(s0 + maj, 0);
      RoundHolds(a, b, c, d, e, f, g, temp1, temp2, now, Word32(SHA256_K[j]), s[j]);
      h := g;
      g := f;
      f := e;
      e := ShrU(d + temp1, 0);
      d := c;
      c := b;
      b := a;
      a := ShrU(temp1 + temp2, 0);
    }
  }

  lemma RoundsUnfold(r: F.Regs, s: seq<Word>, n: nat)
    requires |s| == 64 && n <= 64
    ensures F.Rounds(r, SHA256_K, s, n)
            == if n == 0 then r else F.Round(F.Rounds(r, SHA256_K, s, n - 1), Word32(SHA256_K[n - 1]), s[n - 1])
  {
  }

  lemma ScheduleWordHolds(x: nat, w: Word)
    requires Holds(x, w)
    ensures x < 0x1_0000_0000 && Word32(x) == w
  {
  }

  lemma TableBelow(j: nat)
    requires j < 64
    ensures SHA256_K[j] < 0x1_0000_0000
  {
  }

  lemma RoundHolds(a: int, b: int, c: int, d: int, e: int, f: int, g: int, temp1: int, temp2: int,
                   r: F.Regs, k: Word, w: Word)
    requires Holds(a, r.a) && Holds(b, r.b) && Holds(c, r.c) && Holds(d, r.d)
    requires Holds(e, r.e) && Holds(f, r.f) && Holds(g, r.g)
    requires Holds(temp1, F.Add(F.Add(F.Add(F.Add(r.h, F.BigSigma1(r.e)), F.Ch(r.e, r.f, r.g)), k), w))
    requires Holds(temp2, F.Add(F.BigSigma0(r.a), F.Maj(r.a, r.b, r.c)))
    ensures RegsHold(ShrU(temp1 + temp2, 0), a, b, c, ShrU(d + temp1, 0), e, f, g, F.Round(r, k, w))
  {
    hide Holds, ShrU, F.Add, F.Ch, F.Maj, F.BigSigma0, F.BigSigma1;
    var t1 := F.Add(F.Add(F.Add(F.Add(r.h, F.BigSigma1(r.e)), F.Ch(r.e, r.f, r.g)), k), w);
    HoldsAdd(temp1, temp2, t1, F.Add(F.BigSigma0(r.a), F.Maj(r.a, r.b, r.c)));
    HoldsAdd(d, temp1, r.d, t1);
  }

  // ----- hexadecimal output

  function HexDigit(v: nat): char
    requires v < 16
  {
    if v < 10 then '0' + v as char else 'a' + (v - 10) as char
  }

  lemma HexDigitIs(v: nat)
    requires v < 16
    ensures HexDigit(v) == "0123456789abcdef"[v]
  {
  }

  /** `value.toString(16)`: no leading zeros. */
  function ToString16(v: nat): (s: string)
    ensures |s| > 0
  {
    if v < 16 then [HexDigit(v)] else ToString16(v / 16) + [HexDigit(v % 16)]
  }

  function PadStart(s: string, n: nat): string {
    if |s| >= n then s else seq(n - |s|, _ => '0') + s
  }

  function ToHex(value: nat): string {
    PadStart(ToString16(value), 8)
  }

  /** One digit for every four bits. */
  function HexOfBits(b: Bits): (s: string)
    requires |b| % 4 == 0
    decreases |b|
  {
    if b == [] then [] else HexOfBits(b[..|b| - 4]) + [HexOfNibble(b[|b| - 4..])]
  }

  function HexOfNibble(b: Bits): char
    requires |b| == 4
  {
    assert Pow2(4) == 16;
    HexDigit(Value(b))
  }

  lemma {:induction false} ToHexOfBits(v: nat, k: nat)
    requires k > 0 && v < Pow2(4 * k)
    ensures |ToString16(v)| <= k && PadStart(ToString16(v), k) == HexOfBits(ToBits(v, 4 * k))
  {
    var q, r := v / 16, v % 16;
    SplitNibble(v, k);
    HexOfSnoc(ToBits(q, 4 * (k - 1)), ToBits(r, 4));
    hide *;
    if k > 1 {
      ToHexOfBits(q, k - 1);
      PadOneMore(v, k);
    } else {
      HexOfNothing(q);
      OneDigit(v);
    }
  }

  lemma PadOneMore(v: nat, k: nat)
    requires k > 1 && |ToString16(v / 16)| <= k - 1
    ensures |ToString16(v)| <= k
    ensures PadStart(ToString16(v), k) == PadStart(ToString16(v / 16), k - 1) + [HexDigit(v % 16)]
  {
    if v < 16 {
      assert ToString16(v / 16) == ['0'];
      assert PadStart(['0'], k - 1) == seq(k - 1, _ => '0');
    }
  }

  lemma OneDigit(v: nat)
    ensures v < 16 ==> PadStart(ToString16(v), 1) == [HexDigit(v % 16)]
  {
  }

  lemma HexOfNothing(q: nat)
    ensures HexOfBits(ToBits(q, 0)) == []
  {
  }

  lemma SplitNibble(v: nat, k: nat)
    requires k > 0 && v < Pow2(4 * k)
    ensures ToBits(v, 4 * k) == ToBits(v / 16, 4 * (k - 1)) + ToBits(v % 16, 4)
    ensures v / 16 < Pow2(4 * (k - 1)) && (k == 1 ==> v < 16) && HexOfNibble(ToBits(v % 16, 4)) == HexDigit(v % 16)
  {
    assert Pow2(4) == 16;
    Pow2Add(4 * (k - 1), 4);
    hide ToBits, Value, Pow2;
    ToBitsSplit(v, 4 * (k - 1), 4, v / 16, v % 16);
    ValueOfToBitsExact(v % 16, 4);
  }

  lemma HexOfSnoc(front: Bits, last: Bits)
    requires |front| % 4 == 0 && |last| == 4
    ensures HexOfBits(front + last) == HexOfBits(front) + [HexOfNibble(last)]
  {
    assert (front + last)[..|front|] == front;
    assert (front + last)[|front|..] == last;
  }

  lemma {:induction false} HexOfConcat(a: Bits, b: Bits)
    requires |a| % 4 == 0 && |b| % 4 == 0
    ensures HexOfBits(a + b) == HexOfBits(a) + HexOfBits(b)
    decreases |b|
  {
    hide HexOfNibble;
    if b == [] {
      assert a + b == a;
    } else {
      var front, last := b[..|b| - 4], b[|b| - 4..];
      HexOfConcat(a, front);
      assert a + b == (a + front) + last;
      HexOfSnoc(a + front, last);
    }
  }

  lemma HexOfHeld(x: int, w: Word)
    requires Holds(x, w)
    ensures ToHex(x) == HexOfBits(w)
  {
    hide ToBits, HexOfBits, ToString16;
    Pow2Of32();
    ToHexOfBits(x, 8);
    assert x % 0x1_0000_0000 == x;
  }

  lemma HexOfRegs(h0: int, h1: int, h2: int, h3: int, h4: int, h5: int, h6: int, h7: int, r: F.Regs)
    requires RegsHold(h0, h1, h2, h3, h4, h5, h6, h7, r)
    ensures ToHex(h0) + ToHex(h1) + ToHex(h2) + ToHex(h3) + ToHex(h4) + ToHex(h5) + ToHex(h6) + ToHex(h7)
            == HexOfBits(F.RegBits(r))
  {
    hide Holds, ToHex, HexOfBits;
    HexOfHeld(h0, r.a);
    HexOfHeld(h1, r.b);
    HexOfHeld(h2, r.c);
    HexOfHeld(h3, r.d);
    HexOfHeld(h4, r.e);
    HexOfHeld(h5, r.f);
    HexOfHeld(h6, r.g);
    HexOfHeld(h7, r.h);
    HexOfConcat(r.a, r.b);
    HexOfConcat(r.a + r.b, r.c);
    HexOfConcat(r.a + r.b + r.c, r.d);
    HexOfConcat(r.a + r.b + r.c + r.d, r.e);
    HexOfConcat(r.a + r.b + r.c + r.d + r.e, r.f);
    HexOfConcat(r.a + r.b + r.c + r.d + r.e + r.f, r.g);
    HexOfConcat(r.a + r.b + r.c + r.d + r.e + r.f + r.g, r.h);
  }

  // ----- the hash

  function Digest(m: Bits): (d: Bits)
    ensures |d| == 256
  {
    F.DigestWith(SHA256_K, INITIAL, m)
  }

  /** The tables of the source make this the digest of the standard. */
  lemma DigestIsSha256(m: Bits)
    ensures F.IsDigest(Digest(m), m)
  {
    TableIsRoundConstants();
    TableIsInitialValues();
  }

  lemma InitialHolds()
    ensures RegsHold(0x6a09e667, 0xbb67ae85, 0x3c6ef372, 0xa54ff53a,
                     0x510e527f, 0x9b05688c, 0x1f83d9ab, 0x5be0cd19, F.RegsOf(INITIAL))
  {
    hide Word32;
  }

  method Sha256Hex(bytes: seq<Byte>) returns (hex: string)
    requires |bytes| < 0x8000_0000 - 72
    ensures hex == HexOfBits(Digest(BitsOfBytes(bytes)))
    ensures F.IsDigest(Digest(BitsOfBytes(bytes)), BitsOfBytes(bytes))
  {
    hide *;
    TableSizes();
    var padded := PadMessage(bytes);
    PaddedLengthUnfolds(|bytes|);
    ghost var view := padded[..];
    ghost var p := BitsOfBytes(view);
    ghost var initial := F.RegsOf(INITIAL);
    var h0: nat, h1: nat, h2: nat, h3: nat := 0x6a09e667, 0xbb67ae85, 0x3c6ef372, 0xa54ff53a;
    var h4: nat, h5: nat, h6: nat, h7: nat := 0x510e527f, 0x9b05688c, 0x1f83d9ab, 0x5be0cd19;
    InitialHolds();
    HashValueUnfolds(initial, p, 0);
    var w := new nat[64](_ => 0);
    var i := 0;
    ghost var n := 0;
    while i < padded.Length
      invariant padded[..] == view && i == 64 * n <= padded.Length && padded.Length % 64 == 0
      invariant RegsHold(h0, h1, h2, h3, h4, h5, h6, h7, F.HashValue(initial, SHA256_K, p, n))
    {
      ghost var r := F.HashValue(initial, SHA256_K, p, n);
      ghost var block := F.Block(p, n);
      FillSchedule(padded, i, w, n);
      var a, b, c, d, e, f, g, h := RunRounds(h0, h1, h2, h3, h4, h5, h6, h7, w, r, block);
      RegsAdd(h0, h1, h2, h3, h4, h5, h6, h7, a, b, c, d, e, f, g, h, r, block);
      HashValueUnfolds(initial, p, n + 1);
      h0 := ShrU(h0 + a, 0);
      h1 := ShrU(h1 + b, 0);
      h2 := ShrU(h2 + c, 0);
      h3 := ShrU(h3 + d, 0);
      h4 := ShrU(h4 + e, 0);
      h5 := ShrU(h5 + f, 0);
      h6 := ShrU(h6 + g, 0);
      h7 := ShrU(h7 + h, 0);
      i := i + 64;
      n := n + 1;
    }
    HexOfRegs(h0, h1, h2, h3, h4, h5, h6, h7, F.HashValue(initial, SHA256_K, p, n));
    DigestUnfolds(BitsOfBytes(bytes), n);
    DigestIsSha256(BitsOfBytes(bytes));
    hex := ToHex(h0) + ToHex(h1) + ToHex(h2) + ToHex(h3) + ToHex(h4) + ToHex(h5) + ToHex(h6) + ToHex(h7);
  }

  lemma TableSizes()
    ensures |SHA256_K| == 64 && |INITIAL| == 8
  {
  }

  lemma HashValueUnfolds(h: F.Regs, p: Bits, n: nat)
    requires 512 * n <= |p|
    ensures F.HashValue(h, SHA256_K, p, n)
            == if n == 0 then h
               else F.Compress(F.HashValue(h, SHA256_K, p, n - 1), SHA256_K, F.Block(p, n - 1))
  {
  }

  lemma DigestUnfolds(m: Bits, n: nat)
    requires |F.Pad(m)| == 512 * n
    ensures Digest(m) == F.RegBits(F.HashValue(F.RegsOf(INITIAL), SHA256_K, F.Pad(m), n))
  {
    hide F.HashValue, F.Pad, F.RegBits, F.RegsOf;
  }

  lemma RegsAdd(h0: int, h1: int, h2: int, h3: int, h4: int, h5: int, h6: int, h7: int,
                a: int, b: int, c: int, d: int, e: int, f: int, g: int, h: int, r: F.Regs, block: seq<Word>)
    requires |block| == 16 && RegsHold(h0, h1, h2, h3, h4, h5, h6, h7, r)
    requires RegsHold(a, b, c, d, e, f, g, h, F.Rounds(r, SHA256_K, F.Schedule(block, 64), 64))
    ensures RegsHold(ShrU(h0 + a, 0), ShrU(h1 + b, 0), ShrU(h2 + c, 0), ShrU(h3 + d, 0),
                     ShrU(h4 + e, 0), ShrU(h5 + f, 0), ShrU(h6 + g, 0), ShrU(h7 + h, 0),
                     F.Compress(r, SHA256_K, block))
  {
    hide Holds, ShrU, F.Add, F.Rounds, F.Schedule;
    var s := F.Rounds(r, SHA256_K, F.Schedule(block, 64), 64);
    HoldsAdd(a, h0, s.a, r.a);
    HoldsAdd(b, h1, s.b, r.b);
    HoldsAdd(c, h2, s.c, r.c);
    HoldsAdd(d, h3, s.d, r.d);
    HoldsAdd(e, h4, s.e, r.e);
    HoldsAdd(f, h5, s.f, r.f);
    HoldsAdd(g, h6, s.g, r.g);
    HoldsAdd(h, h7, s.h, r.h);
  }
}
