/** packages/scan-core/src/ownership.ts: the token encoder. */
module Base32Encoder {
  import opened JsNumber
  import opened Rfc4648

  const BASE32_ALPHABET := "ABCDEFGHIJKLMNOPQRSTUVWXYZ234567"

  lemma AlphabetIsTable3(v: nat)
    requires v < 32
    ensures |BASE32_ALPHABET| == 32 && BASE32_ALPHABET[v] == Symbol32(v) == "ABCDEFGHIJKLMNOPQRSTUVWXYZ234567"[v]
  {
  }

  /**
   Between two steps: `done` is what of `stream` has been written as symbols, and
   the accumulator holds the rest in its last `bits` bits. What else the accumulator
   still holds, or has lost at the top, does not matter.
   */
  ghost predicate Encoding(value: int, bits: nat, output: string, stream: Bits, done: Bits) {
    && bits <= 32
    && |done| % 5 == 0
    && stream == done + Word32(value)[32 - bits..]
    && output == Spell32(Groups(done, 5))
  }

  lemma EncodingStarts()
    ensures Encoding(0, 0, "", BitsOfBytes([]), [])
  {
  }

  lemma PushByte(value: int, bits: nat, output: string, stream: Bits, done: Bits, b: Byte)
    requires Encoding(value, bits, output, stream, done) && bits <= 24
    ensures Encoding(Or(Shl(value, 8), b), bits + 8, output, stream + ToBits(b, 8), done)
  {
    assert Pow2(8) == 256;
    PushBits(value, b, 8, bits, stream, done);
  }

  lemma PopGroup(value: int, bits: nat, output: string, stream: Bits, done: Bits) returns (v: nat, done': Bits)
    requires Encoding(value, bits, output, stream, done) && 5 <= bits < 32
    ensures v < |BASE32_ALPHABET| && And(ShrU(value, bits - 5), 31) == v
    ensures Encoding(value, bits - 5, output + [BASE32_ALPHABET[v]], stream, done')
  {
    assert Pow2(5) == 32;
    hide ToBits, Value, Word32, And, ShrU, Groups, Spell32, BASE32_ALPHABET, Pow2;
    var group := Word32(value)[32 - bits..37 - bits];
    v, done' := Value(group), done + group;
    MaskOfShift(value, bits - 5, 5, 31);
    PopBits(Word32(value), bits, 5, stream, done);
    GroupsOfSnoc(done, group);
    SpellOfSnoc(Groups(done, 5), v);
  }

  lemma SpellOfSnoc(g: seq<nat>, v: nat)
    requires (forall i :: 0 <= i < |g| ==> g[i] < Pow2(5)) && v < Pow2(5)
    ensures v < |BASE32_ALPHABET| && Spell32(g + [v]) == Spell32(g) + [BASE32_ALPHABET[v]]
  {
    assert Pow2(5) == 32;
    AlphabetIsTable3(v);
  }

  lemma LastSymbol(value: int, bits: nat)
    requires 0 < bits < 5
    ensures And(Shl(value, 5 - bits), 31) == Value(Word32(value)[32 - bits..] + Zeros(5 - bits)) < 32
  {
    assert Pow2(5) == 32;
    hide *;
    MaskOfShl(value, 5 - bits, 5, 31);
  }

  lemma PopRest(value: int, bits: nat, output: string, stream: Bits, done: Bits) returns (v: nat)
    requires Encoding(value, bits, output, stream, done) && 0 < bits < 5
    ensures v < |BASE32_ALPHABET| && And(Shl(value, 5 - bits), 31) == v
    ensures output + [BASE32_ALPHABET[v]] == Spell32(Groups(stream, 5))
  {
    assert Pow2(5) == 32;
    hide ToBits, Value, Word32, And, Shl, Groups, Spell32, BASE32_ALPHABET, Pow2, Zeros;
    var pending := Word32(value)[32 - bits..];
    v := Value(pending + Zeros(5 - bits));
    LastSymbol(value, bits);
    GroupsOfRest(done, pending, 5);
    SpellOfSnoc(Groups(done, 5), v);
  }

  method EncodeBase32(bytes: seq<Byte>) returns (output: string)
    ensures output == Base32(bytes)
  {
    hide Or, Shl, And, ShrU, Word32, BASE32_ALPHABET, ToBits, Groups, Spell32;
    var bits: nat, value := 0, 0;
    output := "";
    ghost var done: Bits := [];
    EncodingStarts();
    for i := 0 to |bytes|
      invariant bits < 5 && Encoding(value, bits, output, BitsOfBytes(bytes[..i]), done)
    {
      PushByte(value, bits, output, BitsOfBytes(bytes[..i]), done, bytes[i]);
      assert bytes[..i + 1][..i] == bytes[..i];
      value := Or(Shl(value, 8), bytes[i]);
      bits := bits + 8;
      while bits >= 5
        invariant bits < 13 && Encoding(value, bits, output, BitsOfBytes(bytes[..i + 1]), done)
      {
        ghost var v, done' := PopGroup(value, bits, output, BitsOfBytes(bytes[..i + 1]), done);
        output := output + [BASE32_ALPHABET[And(ShrU(value, bits - 5), 31)]];
        bits := bits - 5;
        done := done';
      }
    }
    assert bytes[..|bytes|] == bytes;
    if bits > 0 {
      ghost var v := PopRest(value, bits, output, BitsOfBytes(bytes), done);
      output := output + [BASE32_ALPHABET[And(Shl(value, 5 - bits), 31)]];
    } else {
      assert BitsOfBytes(bytes) == done;
    }
  }
}
