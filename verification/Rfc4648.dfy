/**
 The encodings of RFC 4648 stated on bit strings: the bits of the data are cut into
 groups of five (section 6) or six (section 5) bits, a short last group is filled
 with zero bits, and each group selects a symbol of the alphabet. No padding symbol
 is written.
 */
module Rfc4648 {
  import opened JsNumber

  type Byte = b: nat | b < 256

  /** The bits of a byte string, first byte first, most significant bit first. */
  function BitsOfBytes(bytes: seq<Byte>): (b: Bits)
    ensures |b| == 8 * |bytes|
  {
    if bytes == [] then [] else BitsOfBytes(bytes[..|bytes| - 1]) + ToBits(bytes[|bytes| - 1], 8)
  }

  /** The values of the successive `k`-bit groups of `b`, the last one filled with zeros. */
  function Groups(b: Bits, k: nat): (g: seq<nat>)
    requires k > 0
    ensures forall i :: 0 <= i < |g| ==> g[i] < Pow2(k)
    decreases |b|
  {
    if b == [] then []
    else if |b| < k then [Value(b + Zeros(k - |b|))]
    else [Value(b[..k])] + Groups(b[k..], k)
  }

  lemma {:induction false} GroupsLength(b: Bits, k: nat)
    requires k > 0
    ensures |Groups(b, k)| == (|b| + k - 1) / k
    decreases |b|
  {
    hide Value;
    if b == [] {
      DivBelow(k - 1, k);
    } else {
      DivBetween(|b| - 1, k);
      if |b| >= k {
        GroupsLength(b[k..], k);
      }
    }
  }

  lemma DivBelow(a: nat, k: nat)
    requires a < k
    ensures a / k == 0
  {
    ModUnique(a, k, 0, a);
  }

  lemma DivBetween(a: nat, k: nat)
    requires k > 0
    ensures (a + k) / k == a / k + 1
    ensures a < k ==> a / k == 0
  {
    ModUnique(a + k, k, a / k + 1, a % k);
    if a < k {
      DivBelow(a, k);
    }
  }

  /** Value of a base32 symbol: table 3 of section 6. */
  function Symbol32(v: nat): char
    requires v < 32
  {
    if v < 26 then 'A' + v as char else '2' + (v - 26) as char
  }

  /** Value of a base64url symbol: table 2 of section 5. */
  function Symbol64Url(v: nat): char
    requires v < 64
  {
    if v < 26 then 'A' + v as char
    else if v < 52 then 'a' + (v - 26) as char
    else if v < 62 then '0' + (v - 52) as char
    else if v == 62 then '-'
    else '_'
  }

  lemma SymbolIsTable2(v: nat)
    requires v < 64
    ensures v < 26 ==> Symbol64Url(v) == "ABCDEFGHIJKLMNOPQRSTUVWXYZ"[v]
    ensures 26 <= v < 52 ==> Symbol64Url(v) == "abcdefghijklmnopqrstuvwxyz"[v - 26]
    ensures 52 <= v ==> Symbol64Url(v) == "0123456789-_"[v - 52]
  {
  }

  function Spell32(g: seq<nat>): (s: string)
    requires forall i :: 0 <= i < |g| ==> g[i] < Pow2(5)
    ensures |s| == |g|
  {
    seq(|g|, i requires 0 <= i < |g| => assert Pow2(5) == 32; Symbol32(g[i]))
  }

  function Spell64Url(g: seq<nat>): (s: string)
    requires forall i :: 0 <= i < |g| ==> g[i] < Pow2(6)
    ensures |s| == |g|
  {
    seq(|g|, i requires 0 <= i < |g| => assert Pow2(6) == 64; Symbol64Url(g[i]))
  }

  function Base32(bytes: seq<Byte>): (s: string)
    ensures |s| == (8 * |bytes| + 4) / 5
  {
    GroupsLength(BitsOfBytes(bytes), 5);
    Spell32(Groups(BitsOfBytes(bytes), 5))
  }

  function Base64Url(bytes: seq<Byte>): (s: string)
    ensures |s| == (8 * |bytes| + 5) / 6
  {
    GroupsLength(BitsOfBytes(bytes), 6);
    Spell64Url(Groups(BitsOfBytes(bytes), 6))
  }

  // ----- laws of grouping

  lemma {:induction false} GroupsOfAppend(a: Bits, b: Bits, k: nat)
    requires k > 0 && |a| % k == 0
    ensures Groups(a + b, k) == Groups(a, k) + Groups(b, k)
    decreases |a|
  {
    if a == [] {
      assert a + b == b;
    } else {
      assert |a| >= k by {
        if |a| < k {
          ModUnique(|a|, k, 0, |a|);
        }
      }
      ModUnique(|a| - k, k, |a| / k - 1, 0);
      assert (a + b)[..k] == a[..k];
      assert (a + b)[k..] == a[k..] + b;
      GroupsOfAppend(a[k..], b, k);
    }
  }

  lemma GroupsOfOne(b: Bits, k: nat)
    requires |b| == k > 0
    ensures Groups(b, k) == [Value(b)]
  {
    assert b[..k] == b;
    assert b[k..] == [];
  }

  lemma GroupsOfSnoc(done: Bits, group: Bits)
    requires |group| > 0 && |done| % |group| == 0
    ensures Groups(done + group, |group|) == Groups(done, |group|) + [Value(group)]
    ensures |done + group| % |group| == 0
  {
    hide Groups, Value;
    GroupsOfAppend(done, group, |group|);
    GroupsOfOne(group, |group|);
    AddModulus(|done|, |group|);
  }

  lemma GroupsOfRest(done: Bits, rest: Bits, k: nat)
    requires 0 < |rest| < k && |done| % k == 0
    ensures Groups(done + rest, k) == Groups(done, k) + [Value(rest + Zeros(k - |rest|))]
  {
    GroupsOfAppend(done, rest, k);
  }

  lemma AddModulus(a: nat, m: nat)
    requires m > 0
    ensures (a + m) % m == a % m
  {
    ModUnique(a + m, m, a / m + 1, a % m);
  }

  /** The bits of a sequence of `k`-bit groups. */
  function Ungroup(g: seq<nat>, k: nat): Bits {
    if g == [] then [] else Ungroup(g[..|g| - 1], k) + ToBits(g[|g| - 1], k)
  }

  lemma {:induction false} UngroupOfAppend(a: seq<nat>, b: seq<nat>, k: nat)
    ensures Ungroup(a + b, k) == Ungroup(a, k) + Ungroup(b, k)
  {
    if b == [] {
      assert a + b == a;
    } else {
      hide ToBits;
      var n := |b| - 1;
      assert (a + b)[..|a| + n] == a + b[..n];
      UngroupOfAppend(a, b[..n], k);
      AppendAssociative(Ungroup(a, k), Ungroup(b[..n], k), ToBits(b[n], k));
    }
  }

  lemma UngroupOfNothing(k: nat)
    ensures Ungroup([], k) == []
  {
  }

  lemma UngroupOfOne(b: Bits)
    ensures Ungroup([Value(b)], |b|) == b
  {
    ToBitsOfValue(b);
    assert [Value(b)][..0] == [];
  }

  /** Grouping only ever adds fewer than `k` zero bits at the end. */
  lemma {:induction false} UngroupOfGroups(b: Bits, k: nat) returns (pad: nat)
    requires k > 0
    ensures pad < k && Ungroup(Groups(b, k), k) == b + Zeros(pad)
    decreases |b|
  {
    hide ToBits, Value, Ungroup;
    if b == [] {
      pad := 0;
      UngroupOfNothing(k);
    } else if |b| < k {
      pad := k - |b|;
      UngroupOfOne(b + Zeros(pad));
    } else {
      pad := UngroupOfGroups(b[k..], k);
      UngroupOfOne(b[..k]);
      UngroupOfAppend([Value(b[..k])], Groups(b[k..], k), k);
      assert b == b[..k] + b[k..];
      AppendAssociative(b[..k], b[k..], Zeros(pad));
    }
  }

  lemma {:induction false} BitsOfBytesInjective(x: seq<Byte>, y: seq<Byte>)
    requires BitsOfBytes(x) == BitsOfBytes(y)
    ensures x == y
  {
    if x != [] {
      var n := |x| - 1;
      var xBits, yBits := ToBits(x[n], 8), ToBits(y[n], 8);
      assert |x| == |y|;
      assert BitsOfBytes(x)[8 * n..] == xBits && BitsOfBytes(y)[8 * n..] == yBits;
      assert BitsOfBytes(x)[..8 * n] == BitsOfBytes(x[..n]) && BitsOfBytes(y)[..8 * n] == BitsOfBytes(y[..n]);
      ByteOfBits(x[n]);
      ByteOfBits(y[n]);
      BitsOfBytesInjective(x[..n], y[..n]);
      assert x == x[..n] + [x[n]] && y == y[..n] + [y[n]];
    }
  }

  lemma ByteOfBits(b: Byte)
    ensures Value(ToBits(b, 8)) == b
  {
    assert Pow2(8) == 256;
    ValueOfToBits(b, 8);
  }

  lemma Symbol32Injective(u: nat, v: nat)
    requires u < 32 && v < 32 && Symbol32(u) == Symbol32(v)
    ensures u == v
  {
  }

  /** Base32 loses nothing: no two byte strings share an encoding. */
  lemma Base32Injective(x: seq<Byte>, y: seq<Byte>)
    requires Base32(x) == Base32(y)
    ensures x == y
  {
    var gx, gy := Groups(BitsOfBytes(x), 5), Groups(BitsOfBytes(y), 5);
    assert Pow2(5) == 32;
    assert |gx| == |Base32(x)| == |Base32(y)| == |gy|;
    assert |x| == |y|;
    forall i | 0 <= i < |gx|
      ensures gx[i] == gy[i]
    {
      assert Base32(x)[i] == Base32(y)[i];
      Symbol32Injective(gx[i], gy[i]);
    }
    assert gx == gy;
    var padX := UngroupOfGroups(BitsOfBytes(x), 5);
    var padY := UngroupOfGroups(BitsOfBytes(y), 5);
    assert BitsOfBytes(x) == Ungroup(gx, 5)[..8 * |x|] == Ungroup(gy, 5)[..8 * |y|] == BitsOfBytes(y);
    BitsOfBytesInjective(x, y);
  }

  // ----- bits of concatenated and cut byte strings

  lemma {:induction false} BitsOfConcat(x: seq<Byte>, y: seq<Byte>)
    ensures BitsOfBytes(x + y) == BitsOfBytes(x) + BitsOfBytes(y)
  {
    if y == [] {
      assert x + y == x;
    } else {
      hide ToBits;
      var n := |y| - 1;
      assert (x + y)[..|x| + n] == x + y[..n];
      BitsOfConcat(x, y[..n]);
      AppendAssociative(BitsOfBytes(x), BitsOfBytes(y[..n]), ToBits(y[n], 8));
    }
  }

  lemma BitsOfSlice(x: seq<Byte>, i: nat, j: nat)
    requires i <= j <= |x|
    ensures BitsOfBytes(x)[8 * i..8 * j] == BitsOfBytes(x[i..j])
  {
    hide BitsOfBytes;
    var front, middle, back := x[..i], x[i..j], x[j..];
    JoinParts(x, i, j);
    BitsOfParts(front, middle, back);
  }

  lemma JoinParts(x: seq<Byte>, i: nat, j: nat)
    requires i <= j <= |x|
    ensures x == x[..i] + x[i..j] + x[j..] && |x[..i] + x[i..j]| == j
  {
  }

  lemma BitsOfParts(x: seq<Byte>, y: seq<Byte>, z: seq<Byte>)
    ensures BitsOfBytes(x + y + z)[8 * |x|..8 * |x + y|] == BitsOfBytes(y)
  {
    hide BitsOfBytes;
    BitsOfConcat(x + y, z);
    BitsOfConcat(x, y);
    MiddleOf(BitsOfBytes(x), BitsOfBytes(y), BitsOfBytes(z));
  }

  lemma MiddleOf(a: Bits, b: Bits, c: Bits)
    ensures (a + b + c)[|a|..|a| + |b|] == b
  {
  }

  lemma BitsOfOne(b: Byte)
    ensures BitsOfBytes([b]) == ToBits(b, 8)
  {
    assert [b][..0] == [];
  }
}
