/**
  * The number-keyed data built on the reducer (services/numerologyData.ts):
  * the love-compatibility score, the loops that fill the report, personal
  * year and career tables, and the entry choice of getInteractionText.
  * Table entries are modelled by the icons of their points; their
  * narrative text is not part of this model.
  */
module NumerologyData {
  import opened Reduction

  /** The keys of `interpretations`: the digits 1..9 and the Master Numbers. */
  const InterpretationKeys: set<nat> := {1, 2, 3, 4, 5, 6, 7, 8, 9, 11, 22, 33}

  /** The interpretation keys are exactly the positive values a non-final reduction can return. */
  lemma InterpretationKeysAreReductions(n: nat)
    ensures n in InterpretationKeys <==> n >= 1 && IsNumerologyNumber(n)
    ensures n >= 1 ==> Reduce(n, false) in InterpretationKeys
  {
  }

  // ---------------------------------------------------------------------
  // getLoveCompatibility
  // ---------------------------------------------------------------------

  /** Math.abs(a - b). */
  function Distance(a: nat, b: nat): (d: nat)
    ensures a + d == b || b + d == a
  {
    if a >= b then a - b else b - a
  }

  /** `num1 % 2 === num2 % 2` on the raw inputs. */
  predicate SameParity(num1: nat, num2: nat) {
    num1 % 2 == num2 % 2
  }

  /**
    * The score as a closed formula in the distance d of the finalized
    * reductions: 100 - 10d floored at 30, plus 10 for equal parity,
    * capped at 100.
    */
  function CompatibilityScore(num1: nat, num2: nat): (score: int)
    ensures 30 <= score <= 100 && score % 10 == 0
  {
    var d := Distance(Reduce(num1, true), Reduce(num2, true));
    var floored := if 100 - 10 * d < 30 then 30 else 100 - 10 * d;
    var bonus := if SameParity(num1, num2) then 10 else 0;
    if floored + bonus > 100 then 100 else floored + bonus
  }

  /**
    * getLoveCompatibility, the score: a local score set to 100 - 10 * diff,
    * raised to 30, given the parity bonus and capped at 100, step by step.
    * Math.round leaves the integer score unchanged.
    */
  method GetLoveCompatibility(num1: nat, num2: nat) returns (score: int)
    ensures score == CompatibilityScore(num1, num2)
    ensures 30 <= score <= 100 && score % 10 == 0
  {
    var diff := Distance(Reduce(num1, true), Reduce(num2, true));
    score := 100 - diff * 10;
    if score < 30 {
      score := 30;
    }
    if num1 % 2 == num2 % 2 {
      score := score + 10;
    }
    if score > 100 {
      score := 100;
    }
  }

  /** Swapping the two numbers leaves the score unchanged. */
  lemma CompatibilitySymmetric(num1: nat, num2: nat)
    ensures CompatibilityScore(num1, num2) == CompatibilityScore(num2, num1)
  {
  }

  /**
    * The score by the distance d of the finalized reductions: with equal
    * parity 100 for d <= 1, 110 - 10d for d in 2..7 and 40 beyond; without
    * it 100 - 10d for d <= 7 and 30 beyond.
    */
  lemma CompatibilityByDistance(num1: nat, num2: nat)
    ensures var d := Distance(Reduce(num1, true), Reduce(num2, true));
      CompatibilityScore(num1, num2) ==
        if SameParity(num1, num2) then
          (if d <= 1 then 100 else if d <= 7 then 110 - 10 * d else 40)
        else
          (if d <= 7 then 100 - 10 * d else 30)
  {
  }

  /** A perfect score needs equal finalized reductions, or neighbouring ones with equal parity. */
  lemma PerfectScore(num1: nat, num2: nat)
    ensures var d := Distance(Reduce(num1, true), Reduce(num2, true));
      CompatibilityScore(num1, num2) == 100 <==> d == 0 || (d == 1 && SameParity(num1, num2))
  {
    CompatibilityByDistance(num1, num2);
  }

  /**
    * The distance uses finalized reductions but the bonus the raw inputs:
    * (2, 4) scores 90, (11, 4) scores 80 although 11 reduces to 2, and
    * (4, 6) scores 90.
    */
  lemma CompatibilityExamples()
    ensures CompatibilityScore(2, 4) == 90
    ensures CompatibilityScore(11, 4) == 80
    ensures CompatibilityScore(4, 6) == 90
  {
    MasterCollapsed();
    SingleDigitFixed(2, true);
    SingleDigitFixed(4, true);
    SingleDigitFixed(6, true);
  }

  // ---------------------------------------------------------------------
  // The module-level tables
  // ---------------------------------------------------------------------

  /** The icons of the four points of a personalReportPoints entry. */
  const ReportIcons: seq<string> := ["military_tech", "menu_book", "favorite", "psychology"]

  /** The icons of the four points of a personalYearInterpretations entry. */
  const YearIcons: seq<string> := ["flag", "trending_up", "shield", "key"]

  /** A careerInterpretations entry: the icons of its points and of its pitfalls. */
  datatype CareerEntry = CareerEntry(points: seq<string>, pitfalls: seq<string>)

  const CareerIcons: seq<string> := ["insights", "work", "psychology", "payments"]
  const PitfallIcons: seq<string> := ["warning"]

  /**
    * The personalReportPoints loop: for i from 1 to 33, skip i without an
    * interpretation, otherwise store the four report points under i. The
    * table ends up with an entry of four points for exactly the
    * interpretation keys.
    */
  method BuildPersonalReportPoints() returns (table: map<nat, seq<string>>)
    ensures table.Keys == InterpretationKeys
    ensures forall i :: i in table ==> table[i] == ReportIcons && |table[i]| == 4
  {
    table := map[];
    var i := 1;
    while i <= 33
      invariant 1 <= i <= 34
      invariant table.Keys == set k | k in InterpretationKeys && k < i
      invariant forall k :: k in table ==> table[k] == ReportIcons
    {
      if i !in InterpretationKeys {
        i := i + 1;
        continue;
      }
      table := table[i := ReportIcons];
      i := i + 1;
    }
  }

  /**
    * The personalYearInterpretations loop: for i from 1 to 9, store the four
    * personal-year points under i. The table has an entry of four points
    * for exactly the keys 1..9.
    */
  method BuildPersonalYearInterpretations() returns (table: map<nat, seq<string>>)
    ensures forall k :: k in table <==> 1 <= k <= 9
    ensures forall i :: i in table ==> table[i] == YearIcons && |table[i]| == 4
  {
    table := map[];
    var i := 1;
    while i <= 9
      invariant 1 <= i <= 10
      invariant forall k :: k in table <==> 1 <= k < i
      invariant forall k :: k in table ==> table[k] == YearIcons
    {
      table := table[i := YearIcons];
      i := i + 1;
    }
  }

  /**
    * The careerInterpretations loop: for i from 1 to 33, skip i without an
    * interpretation, otherwise store four career points and one pitfall
    * under i.
    */
  method BuildCareerInterpretations() returns (table: map<nat, CareerEntry>)
    ensures table.Keys == InterpretationKeys
    ensures forall i :: i in table ==>
      table[i] == CareerEntry(CareerIcons, PitfallIcons) && |table[i].points| == 4 && |table[i].pitfalls| == 1
  {
    table := map[];
    var i := 1;
    while i <= 33
      invariant 1 <= i <= 34
      invariant table.Keys == set k | k in InterpretationKeys && k < i
      invariant forall k :: k in table ==> table[k] == CareerEntry(CareerIcons, PitfallIcons)
    {
      if i !in InterpretationKeys {
        i := i + 1;
        continue;
      }
      table := table[i := CareerEntry(CareerIcons, PitfallIcons)];
      i := i + 1;
    }
  }

  // ---------------------------------------------------------------------
  // getInteractionText
  // ---------------------------------------------------------------------

  /** The `type` argument of getInteractionText. */
  datatype InsightType = Destiny | SoulUrge | Personality

  /** The keys of interactionInsights[type]. */
  function InsightKeys(t: InsightType): (ks: set<nat>)
    ensures |ks| == 3 && forall k :: k in ks ==> 1 <= k <= 9
  {
    match t
    case Destiny => {1, 4, 9}
    case SoulUrge => {2, 5, 7}
    case Personality => {3, 6, 8}
  }

  /** Which text getInteractionText produces: the insight stored under a key, or the fallback. */
  datatype InteractionChoice = Insight(key: nat) | Fallback

  /**
    * getInteractionText's choice: look the finalized reduction of num up
    * among the insights of the type; the fallback when there is none.
    */
  function SelectInteraction(t: InsightType, num: nat): (c: InteractionChoice)
    ensures c.Insight? ==> c.key in InsightKeys(t) && 1 <= c.key <= 9
    ensures c.Fallback? <==> Reduce(num, true) !in InsightKeys(t)
    ensures c.Insight? ==> c.key == Reduce(num, true)
  {
    var reduced := Reduce(num, true);
    if reduced in InsightKeys(t) then Insight(reduced) else Fallback
  }

  /**
    * For a positive number the chosen key is its digital root 1 + (num - 1)
    * mod 9 whenever the type has an insight under it, and the fallback
    * otherwise.
    */
  lemma SelectionIsDigitalRoot(t: InsightType, num: nat)
    requires num >= 1
    ensures var root := 1 + (num - 1) % 9;
      SelectInteraction(t, num) == if root in InsightKeys(t) then Insight(root) else Fallback
  {
    FinalIsDigitalRoot(num);
  }

  /** Selecting by a number or by its finalized reduction makes the same choice. */
  lemma {:induction false} SelectionIgnoresReduction(t: InsightType, num: nat)
    ensures SelectInteraction(t, Reduce(num, true)) == SelectInteraction(t, num)
  {
    FinalIdempotent(num);
  }

  /** A Master Number selects the entry of its collapsed digit: destiny 22 the 4, soul urge 11 the 2, personality 33 the 6. */
  lemma MasterSelectsDigit()
    ensures SelectInteraction(Destiny, 22) == Insight(4)
    ensures SelectInteraction(SoulUrge, 11) == Insight(2)
    ensures SelectInteraction(Personality, 33) == Insight(6)
    ensures SelectInteraction(Destiny, 11) == Fallback
  {
    MasterCollapsed();
  }

  /** Numbers with the same residue modulo 9, both positive, make the same choice. */
  lemma SelectionByResidue(t: InsightType, a: nat, b: nat)
    requires a >= 1 && b >= 1 && a % 9 == b % 9
    ensures SelectInteraction(t, a) == SelectInteraction(t, b)
  {
    FinalDeterminedByResidue(a, b);
  }

  /**
    * The three key sets split the digits 1..9: a positive number selects an
    * insight under exactly one type, and 0 selects the fallback under all.
    */
  lemma ExactlyOneInsight(num: nat)
    ensures num == 0 ==>
      && SelectInteraction(Destiny, num) == Fallback
      && SelectInteraction(SoulUrge, num) == Fallback
      && SelectInteraction(Personality, num) == Fallback
    ensures num >= 1 ==>
      var d, s, p := SelectInteraction(Destiny, num).Insight?, SelectInteraction(SoulUrge, num).Insight?,
                     SelectInteraction(Personality, num).Insight?;
      (d || s || p) && !(d && s) && !(d && p) && !(s && p)
  {
  }
}
