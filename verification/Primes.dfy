/** The table of primes in `Fips180` holds the first 64 primes: each of them, in order, and none is left out. */
module Primes {
  import opened Fips180

  predicate Divides(d: nat, n: nat) {
    exists e: nat :: e <= n && d * e == n
  }

  predicate IsPrime(n: nat) {
    n >= 2 && forall d: nat :: 1 < d < n ==> !Divides(d, n)
  }

  predicate IsSmallPrime(p: nat) {
    p == 2 || p == 3 || p == 5 || p == 7 || p == 11 || p == 13 || p == 17
  }

  /** Not divisible by a prime up to 17, unless it is that prime. */
  predicate Undivided(n: nat) {
    || IsSmallPrime(n)
    || (n % 2 != 0 && n % 3 != 0 && n % 5 != 0 && n % 7 != 0 && n % 11 != 0 && n % 13 != 0 && n % 17 != 0)
  }

  lemma Product(f: nat, e: nat)
    requires f >= 18 && e >= 18
    ensures f * e >= 324
  {
    assert f * e == 18 * e + (f - 18) * e;
  }

  /** The smaller factor of a number below 324 is at most 17. */
  lemma SmallFactor(n: nat, d: nat) returns (f: nat, e: nat)
    requires 1 < d < n < 324 && Divides(d, n)
    ensures 2 <= f <= 17 && f < n && n == f * e
  {
    e :| e <= n && d * e == n;
    if d <= 17 {
      f := d;
    } else {
      if e >= 18 {
        Product(d, e);
      }
      assert e != 0 && e != 1;
      f, e := e, d;
    }
  }

  /** Such a factor leaves a factor among the primes up to 17. */
  lemma PrimeFactor(n: nat, f: nat, e: nat) returns (p: nat, m: nat)
    requires 2 <= f <= 17 && n == f * e
    ensures IsSmallPrime(p) && p <= f && n == p * m
  {
    if f % 2 == 0 {
      assert n == 2 * (f / 2) * e;
      p, m := 2, (f / 2) * e;
    } else if f % 3 == 0 {
      assert n == 3 * (f / 3) * e;
      p, m := 3, (f / 3) * e;
    } else {
      p, m := f, e;
    }
  }

  lemma NoRest(n: nat, p: nat, m: nat)
    requires p > 0 && n == p * m
    ensures n % p == 0
  {
    UniqueRest(n, p, m, n / p);
  }

  lemma UniqueRest(n: nat, p: nat, m: nat, q: nat)
    requires p > 0 && n == p * m && q == n / p
    ensures m == q
  {
    assert p * q <= n < p * q + p;
    assert m < q ==> p * (m + 1) <= p * q;
    assert q < m ==> p * (q + 1) <= p * m;
  }

  lemma MultipleIsDivided(n: nat, p: nat, m: nat)
    requires IsSmallPrime(p) && n == p * m && p < n
    ensures !Undivided(n)
  {
    NoRest(n, p, m);
  }

  /** Trial division by the primes up to 17 decides below the square of 18. */
  lemma UndividedIffPrime(n: nat)
    requires 2 <= n < 324
    ensures Undivided(n) <==> IsPrime(n)
  {
    if d: nat :| 1 < d < n && Divides(d, n) {
      var f, e := SmallFactor(n, d);
      var p, m := PrimeFactor(n, f, e);
      MultipleIsDivided(n, p, m);
    } else if !Undivided(n) {
      DividedHasDivisor(n);
    }
  }

  lemma DividedHasDivisor(n: nat)
    requires n >= 2 && !Undivided(n)
    ensures !IsPrime(n)
  {
    var p := if n % 2 == 0 then 2 else if n % 3 == 0 then 3 else if n % 5 == 0 then 5 else if n % 7 == 0 then 7
             else if n % 11 == 0 then 11 else if n % 13 == 0 then 13 else 17;
    assert n % p == 0 && p * (n / p) == n;
    assert Divides(p, n);
  }

  // ----- row by row

  predicate InRow(i: nat, n: nat)
    requires i < 8
  {
    var r := PrimeRow(i);
    n == r[0] || n == r[1] || n == r[2] || n == r[3] || n == r[4] || n == r[5] || n == r[6] || n == r[7]
  }

  lemma OddsOfRow0(h: nat)
    requires 1 <= h < 11
    ensures InRow(0, 2 * h + 1) <==> Undivided(2 * h + 1)
  {
    match h
    case 1 | 2 | 3 | 4 | 5 | 6 | 7 | 8 | 9 | 10 =>
    case _ =>
  }

  lemma OddsOfRow1(h: nat)
    requires 11 <= h < 29
    ensures InRow(1, 2 * h + 1) <==> Undivided(2 * h + 1)
  {
    match h
    case 11 | 12 | 13 | 14 | 15 | 16 | 17 | 18 | 19 | 20 | 21 | 22 | 23 | 24 | 25 | 26 | 27 | 28 =>
    case _ =>
  }

  lemma OddsOfRow2(h: nat)
    requires 29 <= h < 48
    ensures InRow(2, 2 * h + 1) <==> Undivided(2 * h + 1)
  {
    match h
    case 29 | 30 | 31 | 32 | 33 | 34 | 35 | 36 | 37 | 38 | 39 | 40 | 41 | 42 | 43 | 44 | 45 | 46 | 47 =>
    case _ =>
  }

  lemma OddsOfRow3(h: nat)
    requires 48 <= h < 68
    ensures InRow(3, 2 * h + 1) <==> Undivided(2 * h + 1)
  {
    match h
    case 48 | 49 | 50 | 51 | 52 | 53 | 54 | 55 | 56 | 57 | 58 | 59 | 60 | 61 | 62 | 63 | 64 | 65 | 66 | 67 =>
    case _ =>
  }

  lemma OddsOfRow4(h: nat)
    requires 68 <= h < 89
    ensures InRow(4, 2 * h + 1) <==> Undivided(2 * h + 1)
  {
    match h
    case 68 | 69 | 70 | 71 | 72 | 73 | 74 | 75 | 76 | 77 | 78 | 79 | 80 | 81 | 82 | 83 | 84 | 85 | 86 | 87 | 88 =>
    case _ =>
  }

  lemma OddsOfRow5(h: nat)
    requires 89 <= h < 113
    ensures InRow(5, 2 * h + 1) <==> Undivided(2 * h + 1)
  {
    match h
    case 89 | 90 | 91 | 92 | 93 | 94 | 95 | 96 | 97 | 98 | 99 | 100 | 101 | 102 | 103 | 104 | 105 | 106 | 107 |
       108 | 109 | 110 | 111 | 112 =>
    case _ =>
  }

  lemma OddsOfRow6(h: nat)
    requires 113 <= h < 134
    ensures InRow(6, 2 * h + 1) <==> Undivided(2 * h + 1)
  {
    match h
    case 113 | 114 | 115 | 116 | 117 | 118 | 119 | 120 | 121 | 122 | 123 | 124 | 125 | 126 | 127 | 128 | 129 | 130
       | 131 | 132 | 133 =>
    case _ =>
  }

  lemma OddsOfRow7(h: nat)
    requires 134 <= h < 156
    ensures InRow(7, 2 * h + 1) <==> Undivided(2 * h + 1)
  {
    match h
    case 134 | 135 | 136 | 137 | 138 | 139 | 140 | 141 | 142 | 143 | 144 | 145 | 146 | 147 | 148 | 149 | 150 | 151
       | 152 | 153 | 154 | 155 =>
    case _ =>
  }

  lemma EvensAreDivided(i: nat, n: nat)
    requires i < 8 && n % 2 == 0 && n >= 2
    ensures InRow(i, n) <==> i == 0 && n == 2
    ensures Undivided(n) <==> n == 2
  {
  }

  /** Where a row begins. */
  function First(i: nat): nat
    requires i <= 8
  {
    if i < 8 then PrimeRow(i)[0] else 312
  }

  lemma RowIsComplete(i: nat, n: nat)
    requires i < 8 && First(i) <= n < First(i + 1)
    ensures InRow(i, n) <==> IsPrime(n)
  {
    hide Undivided, IsPrime, InRow;
    UndividedIffPrime(n);
    var h := n / 2;
    if n % 2 == 0 {
      EvensAreDivided(i, n);
    } else {
      match i
      case 0 => OddsOfRow0(h);
      case 1 => OddsOfRow1(h);
      case 2 => OddsOfRow2(h);
      case 3 => OddsOfRow3(h);
      case 4 => OddsOfRow4(h);
      case 5 => OddsOfRow5(h);
      case 6 => OddsOfRow6(h);
      case _ => OddsOfRow7(h);
    }
  }

  lemma RowIsAscending(i: nat)
    requires i < 8
    ensures forall k :: 0 <= k < 7 ==> PrimeRow(i)[k] < PrimeRow(i)[k + 1]
    ensures PrimeRow(i)[7] < First(i + 1)
  {
  }

  lemma RowOf(n: nat) returns (i: nat)
    requires 2 <= n < 312
    ensures i < 8 && First(i) <= n < First(i + 1)
  {
    i := if n < 23 then 0 else if n < 59 then 1 else if n < 97 then 2 else if n < 137 then 3
         else if n < 179 then 4 else if n < 227 then 5 else if n < 269 then 6 else 7;
  }

  lemma TableIsAscending(t: nat)
    requires t < 63
    ensures Prime(t) < Prime(t + 1)
  {
    RowIsAscending(t / 8);
    hide PrimeRow;
  }

  lemma WithinRow(i: nat, n: nat)
    requires i < 8 && InRow(i, n)
    ensures First(i) <= n < First(i + 1)
  {
  }

  lemma InRowIsInTable(n: nat, i: nat)
    requires i < 8 && InRow(i, n)
    ensures exists t :: 0 <= t < 64 && Prime(t) == n
  {
    var k: nat :| k < 8 && PrimeRow(i)[k] == n;
    assert (8 * i + k) / 8 == i && (8 * i + k) % 8 == k;
    assert Prime(8 * i + k) == n;
    hide PrimeRow;
  }

  /** The table begins at 2, ascends, and holds a number up to its last one exactly if that is prime. */
  lemma PrimesInOrder(n: nat)
    requires 2 <= n <= Prime(63)
    ensures Prime(0) == 2 && forall t :: 0 <= t < 63 ==> Prime(t) < Prime(t + 1)
    ensures IsPrime(n) <==> exists t :: 0 <= t < 64 && Prime(t) == n
  {
    forall t | 0 <= t < 63
      ensures Prime(t) < Prime(t + 1)
    {
      TableIsAscending(t);
    }
    assert Prime(63) == 311 && Prime(0) == 2;
    var i := RowOf(n);
    RowIsComplete(i, n);
    if InRow(i, n) {
      InRowIsInTable(n, i);
    }
    hide IsPrime, InRow;
    if t: nat :| t < 64 && Prime(t) == n {
      EntryIsInRow(t);
      WithinRow(t / 8, n);
      RowIsComplete(t / 8, n);
    }
    hide PrimeRow;
  }

  lemma EntryIsInRow(t: nat)
    requires t < 64
    ensures InRow(t / 8, Prime(t))
  {
    hide PrimeRow;
  }
}
