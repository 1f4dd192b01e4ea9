/**
 packages/shared/src/bundle-secrets.ts: the token decoder. The decoder in
 packages/shared/src/browser-storage.ts has the same text.
 */
module Base64UrlDecoder {
  import opened JsNumber
  import opened Rfc4648

  const UPPER_CASE := "ABCDEFGHIJKLMNOPQRSTUVWXYZ"
  const LOWER_CASE := "abcdefghijklmnopqrstuvwxyz"
  const BASE64_CHARS := UPPER_CASE + LOWER_CASE + "0123456789+/"

  /** What a character stands for; `-` and `+`, and `_` and `/`, are the same symbol. */
  function Sextet(c: char): (n: int)
    ensures -1 <= n < 64
  {
    if 'A' <= c <= 'Z' then (c - 'A') as int
    else if 'a' <= c <= 'z' then (c - 'a') as int + 26
    else if '0' <= c <= '9' then (c - '0') as int + 52
    else if c == '-' || c == '+' then 62
    else if c == '_' || c == '/' then 63
    else -1
  }

  /** The bits of the symbols of `s`, other characters being skipped. */
  function SextetBits(s: string): Bits {
    if s == [] then [] else
      var c := s[|s| - 1];
      SextetBits(s[..|s| - 1]) + if Sextet(c) == -1 then [] else ToBits(Sextet(c), 6)
  }

  /** What precedes the first `=`. */
  function Body(s: string): (r: string)
    ensures |r| <= |s| && r == s[..|r|] && '=' !in r
    ensures |r| < |s| ==> s[|r|] == '='
  {
    if s == [] || s[0] == '=' then [] else [s[0]] + Body(s[1..])
  }

  /** The complete octets of a bit string, as character codes. */
  function Octets(b: Bits): (s: string)
    ensures |s| == |b| / 8
    decreases |b|
  {
    if |b| < 8 then [] else [CharOf(Value(b[..8]))] + Octets(b[8..])
  }

  function CharOf(code: nat): char {
    (code % 256) as char
  }

  function Decode(s: string): string {
    Octets(SextetBits(Body(s)))
  }

  // ----- the loop

  /** `replace(/-/g, "+").replace(/_/g, "/")` on one character. */
  function Standard(c: char): char {
    if c == '-' then '+' else if c == '_' then '/' else c
  }

  function ToStandard(s: string): (r: string)
    ensures |r| == |s|
    ensures forall i :: 0 <= i < |s| ==> r[i] == Standard(s[i])
  {
    seq(|s|, i requires 0 <= i < |s| => Standard(s[i]))
  }

  method BuildTable() returns (table: map<char, nat>)
    ensures forall c :: Standard(c) in table <==> Sextet(c) != -1
    ensures forall c :: Sextet(c) != -1 ==> table[Standard(c)] == Sextet(c)
  {
    table := map[];
    var i := 0;
    while i < |BASE64_CHARS|
      invariant i <= 64 == |BASE64_CHARS|
      invariant forall c: char :: c in table <==> 0 <= Sextet(c) < i && Standard(c) == c
      invariant forall c: char :: c in table ==> table[c] == Sextet(c)
    {
      CharsAreTable1(i);
      SextetUnique(BASE64_CHARS[i]);
      table := table[BASE64_CHARS[i] := i];
      i := i + 1;
    }
  }

  lemma SextetUnique(d: char)
    requires Standard(d) == d
    ensures forall c: char :: Standard(c) == c && Sextet(c) == Sextet(d) != -1 ==> c == d
  {
  }

  lemma CharsAreTable1(i: nat)
    requires i < |BASE64_CHARS|
    ensures |BASE64_CHARS| == 64
    ensures Sextet(BASE64_CHARS[i]) == i && Standard(BASE64_CHARS[i]) == BASE64_CHARS[i]
  {
    if i < 26 {
      assert BASE64_CHARS[i] == UPPER_CASE[i];
      LettersInOrder(i);
    } else if i < 52 {
      assert BASE64_CHARS[i] == LOWER_CASE[i - 26];
      LettersInOrder(i - 26);
    }
  }

  lemma LettersInOrder(i: nat)
    requires i < 26
    ensures |UPPER_CASE| == |LOWER_CASE| == 26
    ensures UPPER_CASE[i] == 'A' + i as char && LOWER_CASE[i] == 'a' + i as char
  {
  }

  /** What is not yet in `result` waits in the last `bits` bits of `buffer`. */
  ghost predicate Decoding(buffer: int, bits: nat, result: string, stream: Bits, done: Bits) {
    && bits <= 32
    && |done| % 8 == 0
    && stream == done + Word32(buffer)[32 - bits..]
    && result == Octets(done)
  }

  lemma PushSextet(buffer: int, bits: nat, result: string, stream: Bits, done: Bits, n: nat)
    requires Decoding(buffer, bits, result, stream, done) && bits <= 26 && n < 64
    ensures Decoding(Or(Shl(buffer, 6), n), bits + 6, result, stream + ToBits(n, 6), done)
  {
    assert Pow2(6) == 64;
    hide *;
    PushBits(buffer, n, 6, bits, stream, done);
  }

  lemma PopOctet(buffer: int, bits: nat, result: string, stream: Bits, done: Bits) returns (code: nat, done': Bits)
    requires Decoding(buffer, bits, result, stream, done) && 8 <= bits <= 32
    ensures code < 256 && And(Shr(buffer, bits - 8), 0xff) == code
    ensures Decoding(buffer, bits - 8, result + [CharOf(code)], stream, done')
  {
    assert Pow2(8) == 256;
    var octet := Word32(buffer)[32 - bits..40 - bits];
    code, done' := Value(octet), done + octet;
    MaskOfShift(buffer, bits - 8, 8, 0xff);
    PopBits(Word32(buffer), bits, 8, stream, done);
    OctetsOfSnoc(done, octet);
  }

  lemma {:induction false} OctetsOfSnoc(done: Bits, octet: Bits)
    requires |done| % 8 == 0 && |octet| == 8
    ensures Octets(done + octet) == Octets(done) + [CharOf(Value(octet))]
    decreases |done|
  {
    if |done| == 0 {
      assert done + octet == octet && octet[..8] == octet;
    } else {
      assert (done + octet)[..8] == done[..8];
      assert (done + octet)[8..] == done[8..] + octet;
      OctetsOfSnoc(done[8..], octet);
    }
  }

  lemma {:induction false} OctetsIgnoreRest(done: Bits, rest: Bits)
    requires |done| % 8 == 0 && |rest| < 8
    ensures Octets(done + rest) == Octets(done)
    decreases |done|
  {
    if |done| == 0 {
      assert done + rest == rest;
    } else {
      assert (done + rest)[..8] == done[..8];
      assert (done + rest)[8..] == done[8..] + rest;
      OctetsIgnoreRest(done[8..], rest);
    }
  }

  method DecodeBase64Url(value: string) returns (result: string)
    ensures result == Decode(value)
  {
    hide Or, Shl, And, Shr, Word32, ToBits, Octets, CharOf;
    var b64 := ToStandard(value);
    var table := BuildTable();
    result := "";
    var buffer, bits: nat := 0, 0;
    ghost var done: Bits := [];
    var i := 0;
    while i < |b64|
      invariant i <= |Body(value)|
      invariant bits < 8 && Decoding(buffer, bits, result, SextetBits(value[..i]), done)
    {
      var ch := b64[i];
      assert ch == '=' <==> i == |Body(value)|;
      if ch == '=' {
        break;
      }
      ghost var stream := SextetBits(value[..i]);
      assert value[..i + 1][..i] == value[..i];
      i := i + 1;
      if ch !in table {
        continue;
      }
      var n := table[ch];
      PushSextet(buffer, bits, result, stream, done, n);
      buffer := Or(Shl(buffer, 6), n);
      bits := bits + 6;
      if bits >= 8 {
        ghost var code, done' := PopOctet(buffer, bits, result, SextetBits(value[..i]), done);
        bits := bits - 8;
        result := result + [CharOf(And(Shr(buffer, bits), 0xff))];
        done := done';
      }
    }
    assert value[..i] == Body(value);
    OctetsIgnoreRest(done, Word32(buffer)[32 - bits..]);
  }

  // ----- what decoding is for

  lemma {:induction false} SextetBitsOfSpelling(g: seq<nat>)
    requires forall i :: 0 <= i < |g| ==> g[i] < Pow2(6)
    ensures SextetBits(Spell64Url(g)) == Ungroup(g, 6)
    ensures '=' !in Spell64Url(g)
  {
    assert Pow2(6) == 64;
    if g != [] {
      var n := |g| - 1;
      SextetBitsOfSpelling(g[..n]);
      assert Spell64Url(g)[..n] == Spell64Url(g[..n]);
      assert Sextet(Symbol64Url(g[n])) == g[n];
    }
  }

  lemma {:induction false} BodyOfPlain(s: string)
    requires '=' !in s
    ensures Body(s) == s
  {
    if s != [] {
      BodyOfPlain(s[1..]);
    }
  }

  function Text(bytes: seq<Byte>): string {
    seq(|bytes|, i requires 0 <= i < |bytes| => CharOf(bytes[i]))
  }

  lemma {:induction false} OctetsOfBytes(bytes: seq<Byte>)
    ensures Octets(BitsOfBytes(bytes)) == Text(bytes)
  {
    if bytes != [] {
      var n := |bytes| - 1;
      OctetsOfBytes(bytes[..n]);
      OctetsOfSnoc(BitsOfBytes(bytes[..n]), ToBits(bytes[n], 8));
      ByteOfBits(bytes[n]);
    }
  }

  /** Decoding undoes the unpadded encoding, for byte strings of any length. */
  lemma DecodeUndoesEncode(bytes: seq<Byte>)
    ensures Decode(Base64Url(bytes)) == Text(bytes)
  {
    hide BitsOfBytes, Groups, Ungroup, SextetBits, Octets, Text, Body, Spell64Url;
    var g := Groups(BitsOfBytes(bytes), 6);
    SextetBitsOfSpelling(g);
    BodyOfPlain(Base64Url(bytes));
    var pad := UngroupOfGroups(BitsOfBytes(bytes), 6);
    OctetsIgnoreRest(BitsOfBytes(bytes), Zeros(pad));
    OctetsOfBytes(bytes);
  }

  /** The symbols and `=` signs of a text. */
  function Clean(s: string): string {
    if s == [] then [] else (if s[0] == '=' || Sextet(s[0]) != -1 then [s[0]] else []) + Clean(s[1..])
  }

  /** Characters outside the alphabet, other than `=`, do not change the result. */
  lemma DecodeSkipsNoise(s: string)
    ensures Decode(Clean(s)) == Decode(s)
  {
    CleanBody(s);
  }

  lemma {:induction false} CleanBody(s: string)
    ensures SextetBits(Body(Clean(s))) == SextetBits(Body(s))
  {
    if s != [] && s[0] != '=' {
      CleanBody(s[1..]);
      SextetBitsOfCons(s[0], Body(s[1..]));
      if Sextet(s[0]) != -1 {
        assert Clean(s)[1..] == Clean(s[1..]);
        SextetBitsOfCons(s[0], Body(Clean(s[1..])));
      } else {
        assert Clean(s) == Clean(s[1..]);
      }
    }
  }

  lemma {:induction false} SextetBitsOfCons(c: char, s: string)
    ensures SextetBits([c] + s) == (if Sextet(c) == -1 then [] else ToBits(Sextet(c), 6)) + SextetBits(s)
  {
    if s == [] {
      assert [c] + s == [c] && [c][..0] == [];
    } else {
      var n := |s| - 1;
      SextetBitsOfCons(c, s[..n]);
      assert ([c] + s)[..|s|] == [c] + s[..n] && ([c] + s)[|s|] == s[n];
      var first := if Sextet(c) == -1 then [] else ToBits(Sextet(c), 6);
      var last := if Sextet(s[n]) == -1 then [] else ToBits(Sextet(s[n]), 6);
      AppendAssociative(first, SextetBits(s[..n]), last);
    }
  }

  /** Nothing after the first `=` is read. */
  lemma DecodeStopsAtPadding(s: string, rest: string)
    ensures Decode(s + "=" + rest) == Decode(s)
  {
    BodyOfPadded(s, rest);
  }

  lemma {:induction false} BodyOfPadded(s: string, rest: string)
    ensures Body(s + "=" + rest) == Body(s)
  {
    if s != [] && s[0] != '=' {
      BodyOfPadded(s[1..], rest);
      assert (s + "=" + rest)[1..] == s[1..] + "=" + rest;
    }
  }
}
