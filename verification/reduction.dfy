/** Digit reduction with the Master-Number exception (utils/numerology.ts, reduceNumber). */
module Reduction {

  /** MASTER_NUMBERS.includes(n): 11, 22 and 33 are the Master Numbers. */
  predicate IsMasterNumber(n: nat) {
    n == 11 || n == 22 || n == 33
  }

  /** A value reduceNumber may return without `final`: a single digit or a Master Number. */
  predicate IsNumerologyNumber(n: nat) {
    n <= 9 || IsMasterNumber(n)
  }

  /** Sum of the decimal digits of n, i.e. of the characters of n.toString(). */
  function DigitSum(n: nat): (s: nat)
    ensures n < 10 ==> s == n
    ensures n >= 10 ==> 1 <= s < n
    ensures s <= n
    ensures (s == 0) == (n == 0)
  {
    if n < 10 then n else DigitSum(n / 10) + n % 10
  }

  /** The digit sum keeps the residue modulo 9 (casting out nines). */
  lemma {:induction false} DigitSumResidue(n: nat)
    ensures DigitSum(n) % 9 == n % 9
  {
    if n >= 10 {
      var q, d := n / 10, n % 10;
      DigitSumResidue(q);
      ResidueOfAdd(DigitSum(q), q, d);
      NineMultipleVanishes(q, q + d);
    }
  }

  /** Adding the same amount keeps two numbers congruent modulo 9. */
  lemma ResidueOfAdd(a: nat, b: nat, d: nat)
    requires a % 9 == b % 9
    ensures (a + d) % 9 == (b + d) % 9
  {
    assert a == 9 * (a / 9) + a % 9 && b == 9 * (b / 9) + b % 9;
    NineMultipleVanishes(a / 9, a % 9 + d);
    NineMultipleVanishes(b / 9, b % 9 + d);
  }

  /** Ten times q plus x is congruent to q plus x modulo 9. */
  lemma {:induction false} NineMultipleVanishes(q: nat, x: nat)
    ensures (10 * q + x - q) % 9 == x % 9
  {
    if q > 0 {
      NineMultipleVanishes(q - 1, x);
      assert 10 * q + x - q == (10 * (q - 1) + x - (q - 1)) + 9;
    }
  }

  /**
    * reduceNumber(num, final): with `final` false a Master Number input is
    * returned as is; otherwise the digit sum is taken and reduced further
    * as ReduceDigitSum says. The result is 0 only for 0, at most 9 with
    * `final`, and a digit or a Master Number in every case.
    */
  function Reduce(n: nat, final: bool): (r: nat)
    ensures (r == 0) == (n == 0)
    ensures final ==> r <= 9
    ensures IsNumerologyNumber(r)
    decreases n, 1
  {
    if !final && IsMasterNumber(n) then n else ReduceDigitSum(n, final)
  }

  /**
    * The rest of reduceNumber once the Master-Number check has passed: the
    * digit sum of n is returned when it is at most 9, or (without `final`)
    * when it is a Master Number, and reduced again otherwise.
    */
  function ReduceDigitSum(n: nat, final: bool): (r: nat)
    ensures (r == 0) == (n == 0)
    ensures final ==> r <= 9
    ensures IsNumerologyNumber(r)
    decreases n, 0
  {
    var s := DigitSum(n);
    if s > 9 && (final || !IsMasterNumber(s)) then Reduce(s, final) else s
  }

  /** Reduction keeps the residue modulo 9. */
  lemma {:induction false} ReduceResidue(n: nat, final: bool)
    ensures Reduce(n, final) % 9 == n % 9
    decreases n
  {
    if final || !IsMasterNumber(n) {
      var s := DigitSum(n);
      DigitSumResidue(n);
      assert Reduce(n, final) == ReduceDigitSum(n, final);
      if s > 9 && (final || !IsMasterNumber(s)) {
        ReduceResidue(s, final);
      }
    }
  }

  /** A finalized reduction of n >= 1 is its digital root 1 + (n - 1) mod 9. */
  lemma {:induction false} FinalIsDigitalRoot(n: nat)
    requires n >= 1
    ensures 1 <= Reduce(n, true) <= 9
    ensures !IsMasterNumber(Reduce(n, true))
    ensures Reduce(n, true) == 1 + (n - 1) % 9
  {
    ReduceResidue(n, true);
    DigitOfResidue(Reduce(n, true), n);
  }

  /** The digit 1..9 congruent to n >= 1 modulo 9 is 1 + (n - 1) mod 9. */
  lemma DigitOfResidue(r: nat, n: nat)
    requires 1 <= r <= 9 && n >= 1
    requires r % 9 == n % 9
    ensures r == 1 + (n - 1) % 9
  {
    var q, m := (n - 1) / 9, (n - 1) % 9;
    assert n == (m + 1) + 9 * q;
    NinesVanish(m + 1, q);
    SameResidueDigits(r, m + 1);
  }

  /** Adding a multiple of 9 keeps the residue modulo 9. */
  lemma {:induction false} NinesVanish(n: nat, k: nat)
    ensures (n + 9 * k) % 9 == n % 9
  {
    if k > 0 {
      NinesVanish(n, k - 1);
      assert n + 9 * k == (n + 9 * (k - 1)) + 9;
    }
  }

  /** Reduction fixes every single digit, whatever `final` is. */
  lemma SingleDigitFixed(d: nat, final: bool)
    requires d <= 9
    ensures Reduce(d, final) == d
  {
  }

  /** Finalized reduction is idempotent. */
  lemma {:induction false} FinalIdempotent(n: nat)
    ensures Reduce(Reduce(n, true), true) == Reduce(n, true)
  {
    SingleDigitFixed(Reduce(n, true), true);
  }

  /** Without `final`, a Master Number is returned unchanged. */
  lemma MasterKept(m: nat)
    requires IsMasterNumber(m)
    ensures Reduce(m, false) == m
  {
  }

  /** With `final`, the Master Numbers collapse to 2, 4 and 6. */
  lemma MasterCollapsed()
    ensures Reduce(11, true) == 2 && Reduce(22, true) == 4 && Reduce(33, true) == 6
  {
  }

  /** A Master Number found as an intermediate digit sum stops the recursion: 29 gives 11, or 2 when finalized. */
  lemma IntermediateMasterStops()
    ensures DigitSum(29) == 11
    ensures Reduce(29, false) == 11 && Reduce(29, true) == 2
    ensures Reduce(1990, false) == 1
  {
    assert DigitSum(29) == 11;
    assert DigitSum(1990) == 19 && DigitSum(19) == 10 && DigitSum(10) == 1;
  }

  /**
    * One step of a non-final reduction: a number that is not a Master
    * Number reduces as its digit sum does. With MasterKept and
    * SingleDigitFixed this determines the non-final reduction of every n,
    * and it stops at an intermediate digit sum 11, 22 or 33.
    */
  lemma NonFinalStep(n: nat)
    requires !IsMasterNumber(n)
    ensures Reduce(n, false) == Reduce(DigitSum(n), false)
    ensures IsMasterNumber(DigitSum(n)) ==> Reduce(n, false) == DigitSum(n)
  {
    var s := DigitSum(n);
    assert Reduce(n, false) == ReduceDigitSum(n, false);
    if s <= 9 {
      SingleDigitFixed(s, false);
    } else if IsMasterNumber(s) {
      MasterKept(s);
    }
  }

  /** One step of a final reduction: every number reduces as its digit sum does. */
  lemma FinalStep(n: nat)
    ensures Reduce(n, true) == Reduce(DigitSum(n), true)
  {
    var s := DigitSum(n);
    assert Reduce(n, true) == ReduceDigitSum(n, true);
    if s <= 9 {
      SingleDigitFixed(s, true);
    }
  }

  /**
    * Two numbers with the same residue mod 9, both zero or both non-zero,
    * have the same finalized reduction: it depends on nothing else.
    */
  lemma {:induction false} FinalDeterminedByResidue(a: nat, b: nat)
    requires a % 9 == b % 9
    requires (a == 0) == (b == 0)
    ensures Reduce(a, true) == Reduce(b, true)
  {
    if a != 0 {
      ReduceResidue(a, true);
      ReduceResidue(b, true);
      SameResidueDigits(Reduce(a, true), Reduce(b, true));
    }
  }

  /** Two digits 1..9 with the same residue modulo 9 are equal. */
  lemma SameResidueDigits(x: nat, y: nat)
    requires 1 <= x <= 9 && 1 <= y <= 9
    requires x % 9 == y % 9
    ensures x == y
  {
  }

  /**
    * Finalizing after a non-final reduction gives the finalized reduction,
    * and the two agree unless the non-final one stopped at a Master Number,
    * which then collapses to 11 -> 2, 22 -> 4, 33 -> 6.
    */
  lemma {:induction false} PartialThenFinal(n: nat)
    ensures Reduce(Reduce(n, false), true) == Reduce(n, true)
    ensures !IsMasterNumber(Reduce(n, false)) ==> Reduce(n, false) == Reduce(n, true)
    ensures IsMasterNumber(Reduce(n, false)) ==> Reduce(n, true) == Reduce(n, false) / 11 * 2
  {
    var p := Reduce(n, false);
    ReduceResidue(n, false);
    FinalDeterminedByResidue(p, n);
    if !IsMasterNumber(p) {
      SingleDigitFixed(p, true);
    } else {
      MasterCollapsed();
    }
  }

  /**
    * Reducing two parts separately and then their sum agrees modulo 9 with
    * reducing the whole, and finalizing either gives the same digit.
    */
  lemma ReducedSum(a: nat, b: nat, whole: nat, ra: nat, rb: nat)
    requires whole == Reduce(a + b, false)
    requires ra == Reduce(a, false) && rb == Reduce(b, false)
    ensures whole % 9 == (ra + rb) % 9
    ensures Reduce(whole, true) == Reduce(ra + rb, true)
  {
    assert (ra + rb) % 9 == (a + b) % 9 && (ra + rb == 0) == (a + b == 0) by {
      ReducedPartsResidue(a, b);
    }
    assert whole % 9 == (a + b) % 9 by {
      ReduceResidue(a + b, false);
    }
    FinalDeterminedByResidue(whole, ra + rb);
  }

  /** The sum of two non-final reductions keeps the residue of the plain sum, and is 0 only with it. */
  lemma ReducedPartsResidue(a: nat, b: nat)
    ensures (Reduce(a, false) + Reduce(b, false)) % 9 == (a + b) % 9
    ensures (Reduce(a, false) + Reduce(b, false) == 0) == (a + b == 0)
  {
    ReduceResidue(a, false);
    ReduceResidue(b, false);
    SumOfCongruent(Reduce(a, false), Reduce(b, false), 0, a, b, 0);
  }

  /**
    * Reducing three components and then their sum (as the date numbers do)
    * keeps the residue of the plain sum modulo 9, and is 0 only when all
    * three are 0.
    */
  lemma {:induction false} ReducedParts(a: nat, b: nat, c: nat, final: bool)
    ensures Reduce(Reduce(a, final) + Reduce(b, final) + Reduce(c, final), final) % 9 == (a + b + c) % 9
    ensures (Reduce(Reduce(a, final) + Reduce(b, final) + Reduce(c, final), final) == 0) == (a + b + c == 0)
  {
    var ra, rb, rc := Reduce(a, final), Reduce(b, final), Reduce(c, final);
    ReduceResidue(a, final);
    ReduceResidue(b, final);
    ReduceResidue(c, final);
    ReduceResidue(ra + rb + rc, final);
    SumOfCongruent(ra, rb, rc, a, b, c);
  }

  /** Sums of pairwise congruent numbers are congruent modulo 9. */
  lemma SumOfCongruent(x: nat, y: nat, z: nat, a: nat, b: nat, c: nat)
    requires x % 9 == a % 9 && y % 9 == b % 9 && z % 9 == c % 9
    ensures (x + y + z) % 9 == (a + b + c) % 9
  {
    ResidueOfAdd(x, a, y);
    ResidueOfAdd(y, b, a);
    ResidueOfAdd(x + y, a + b, z);
    ResidueOfAdd(z, c, a + b);
  }
}
