/** packages/shared/src/diff.ts: the constant tables of the hash, against FIPS 180-4. */
module Sha256Constants {
  import opened JsNumber
  import opened Fips180

  /** Row `i` of the table, eight constants each. */
  function ConstantRow(i: nat): (row: seq<nat>)
    requires i < 8
    ensures |row| == 8
  {
    match i
    case 0 => [0x428a2f98, 0x71374491, 0xb5c0fbcf, 0xe9b5dba5, 0x3956c25b, 0x59f111f1, 0x923f82a4, 0xab1c5ed5]
    case 1 => [0xd807aa98, 0x12835b01, 0x243185be, 0x550c7dc3, 0x72be5d74, 0x80deb1fe, 0x9bdc06a7, 0xc19bf174]
    case 2 => [0xe49b69c1, 0xefbe4786, 0x0fc19dc6, 0x240ca1cc, 0x2de92c6f, 0x4a7484aa, 0x5cb0a9dc, 0x76f988da]
    case 3 => [0x983e5152, 0xa831c66d, 0xb00327c8, 0xbf597fc7, 0xc6e00bf3, 0xd5a79147, 0x06ca6351, 0x14292967]
    case 4 => [0x27b70a85, 0x2e1b2138, 0x4d2c6dfc, 0x53380d13, 0x650a7354, 0x766a0abb, 0x81c2c92e, 0x92722c85]
    case 5 => [0xa2bfe8a1, 0xa81a664b, 0xc24b8b70, 0xc76c51a3, 0xd192e819, 0xd6990624, 0xf40e3585, 0x106aa070]
    case 6 => [0x19a4c116, 0x1e376c08, 0x2748774c, 0x34b0bcb5, 0x391c0cb3, 0x4ed8aa4a, 0x5b9cca4f, 0x682e6ff3]
    case _ => [0x748f82ee, 0x78a5636f, 0x84c87814, 0x8cc70208, 0x90befffa, 0xa4506ceb, 0xbef9a3f7, 0xc67178f2]
  }

  const SHA256_K: seq<nat> :=
    ConstantRow(0) + ConstantRow(1) + ConstantRow(2) + ConstantRow(3)
    + ConstantRow(4) + ConstantRow(5) + ConstantRow(6) + ConstantRow(7)

  /** The initial values of `h0` to `h7`. */
  const INITIAL: seq<nat> := [
    0x6a09e667, 0xbb67ae85, 0x3c6ef372, 0xa54ff53a,
    0x510e527f, 0x9b05688c, 0x1f83d9ab, 0x5be0cd19
  ]

  /** The whole part of the cube root of a prime of the table. */
  function WholePart(p: nat): nat {
    if p < 8 then 1 else if p < 27 then 2 else if p < 64 then 3 else if p < 125 then 4 else if p < 216 then 5 else 6
  }

  lemma RootFraction(w: nat, p: nat)
    requires w < 0x1_0000_0000
    requires IsCubeRoot(WholePart(p) * 0x1_0000_0000 + w, p * 0x1_0000_0000_0000_0000_0000_0000)
    ensures IsCubeRootFraction(w, p)
  {
  }

  lemma RowOfConstants(i: nat, j: nat)
    requires i < 8 && j < 8
    ensures IsCubeRootFraction(ConstantRow(i)[j], PrimeRow(i)[j])
  {
    var w, p := ConstantRow(i)[j], PrimeRow(i)[j];
    RootFraction(w, p);
  }

  lemma TableIsRoundConstants()
    ensures AreRoundConstants(SHA256_K)
  {
    hide ConstantRow, PrimeRow, IsCubeRootFraction;
    forall t | 0 <= t < 64
      ensures IsCubeRootFraction(SHA256_K[t], Prime(t))
    {
      RowOfConstants(t / 8, t % 8);
      assert SHA256_K[t] == ConstantRow(t / 8)[t % 8];
    }
  }

  lemma SquareFraction(w: nat, p: nat, whole: nat)
    requires w < 0x1_0000_0000 && IsSquareRoot(whole * 0x1_0000_0000 + w, p * 0x1_0000_0000_0000_0000)
    ensures IsSquareRootFraction(w, p)
  {
  }

  lemma TableIsInitialValues()
    ensures AreInitialValues(INITIAL)
  {
    forall t | 0 <= t < 8
      ensures IsSquareRootFraction(INITIAL[t], Prime(t))
    {
      var p := PrimeRow(0)[t];
      SquareFraction(INITIAL[t], p, if p < 4 then 1 else if p < 9 then 2 else if p < 16 then 3 else 4);
    }
  }
}
