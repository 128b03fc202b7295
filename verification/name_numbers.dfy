/**
  * Destiny, Soul Urge and Personality numbers
  * (utils/numerology.ts: calculateNameNumber and its three callers).
  */
module NameNumbers {
  import opened Letters
  import opened Reduction

  /** Which letters calculateNameNumber adds up: 'all', 'vowels' or 'consonants'. */
  datatype LetterFilter = All | VowelsOnly | ConsonantsOnly

  predicate Matches(filter: LetterFilter, c: char) {
    match filter
    case All => true
    case VowelsOnly => IsVowel(c)
    case ConsonantsOnly => !IsVowel(c)
  }

  /** The sum of the letter values of the characters of s that pass the filter. */
  function Total(s: string, filter: LetterFilter): nat
  {
    if s == [] then 0
    else
      var c := s[|s| - 1];
      Total(s[..|s| - 1], filter) + (if Matches(filter, c) then ValueOf(c) else 0)
  }

  /** Each character adds at most 9: the total is at most nine times the length. */
  lemma {:induction false} TotalBound(s: string, filter: LetterFilter)
    ensures Total(s, filter) <= 9 * |s|
  {
    if s != [] {
      TotalBound(s[..|s| - 1], filter);
    }
  }

  /** True when no letter of s passes the filter. */
  predicate NoneMatch(s: string, filter: LetterFilter) {
    forall c :: c in s ==> !Matches(filter, c)
  }

  /** On letters, the total is 0 exactly when no letter passes the filter. */
  lemma {:induction false} TotalZeroIffNoneMatch(s: string, filter: LetterFilter)
    requires forall c :: c in s ==> c in LetterValues
    ensures (Total(s, filter) == 0) == NoneMatch(s, filter)
  {
    if s != [] {
      var init := s[..|s| - 1];
      var c := s[|s| - 1];
      assert s == init + [c];
      TotalZeroIffNoneMatch(init, filter);
      LettersHaveDigitValues(c);
    }
  }

  /** Every letter is a vowel or a consonant: the two partial totals add up to the total. */
  lemma {:induction false} VowelsPlusConsonants(s: string)
    ensures Total(s, VowelsOnly) + Total(s, ConsonantsOnly) == Total(s, All)
  {
    if s != [] {
      VowelsPlusConsonants(s[..|s| - 1]);
    }
  }

  /**
    * calculateNameNumber: normalise the name, add the values of the letters
    * that pass the filter, then reduce without `final`, so the result may be
    * a Master Number; it is 0 exactly when no letter passes the filter.
    */
  method CalculateNameNumber(name: string, filter: LetterFilter) returns (r: nat)
    ensures r == Reduce(Total(Normalize(name), filter), false)
    ensures IsNumerologyNumber(r)
    ensures (r == 0) == NoneMatch(Normalize(name), filter)
  {
    var normalized := Normalize(name);
    var total := 0;
    var i := 0;
    while i < |normalized|
      invariant 0 <= i <= |normalized|
      invariant total == Total(normalized[..i], filter)
    {
      var c := normalized[i];
      var isVowel := IsVowel(c);
      TotalStep(normalized, i, filter);
      if filter == All || (filter == VowelsOnly && isVowel) || (filter == ConsonantsOnly && !isVowel) {
        total := total + ValueOf(c);
      }
      i := i + 1;
    }
    assert normalized[..i] == normalized;
    r := Reduce(total, false);
    NameTotalZero(name, filter);
  }

  /** One more character of s adds its value to the total when it passes the filter. */
  lemma TotalStep(s: string, i: nat, filter: LetterFilter)
    requires i < |s|
    ensures Total(s[..i + 1], filter) == Total(s[..i], filter) + (if Matches(filter, s[i]) then ValueOf(s[i]) else 0)
  {
    assert s[..i + 1][..i] == s[..i];
  }

  /** The reduced total of a normalised name is 0 exactly when none of its letters passes the filter. */
  lemma NameTotalZero(name: string, filter: LetterFilter)
    ensures (Reduce(Total(Normalize(name), filter), false) == 0) == NoneMatch(Normalize(name), filter)
  {
    NormalizedHasValues(name);
    TotalZeroIffNoneMatch(Normalize(name), filter);
  }

  /** getDestinyNumber: every letter counts; 0 only for a name without letters. */
  method GetDestinyNumber(name: string) returns (r: nat)
    ensures r == Reduce(Total(Normalize(name), All), false)
    ensures IsNumerologyNumber(r)
    ensures (r == 0) == (Normalize(name) == [])
    ensures (r == 0) == forall c :: c in name ==> !IsKept(Lower(c))
  {
    r := CalculateNameNumber(name, All);
    NormalizeEmpty(name);
    if Normalize(name) != [] {
      assert Normalize(name)[0] in Normalize(name);
    }
  }

  /** getSoulUrgeNumber: only the vowels count; 0 for a name without vowels. */
  method GetSoulUrgeNumber(name: string) returns (r: nat)
    ensures r == Reduce(Total(Normalize(name), VowelsOnly), false)
    ensures IsNumerologyNumber(r)
    ensures (r == 0) == (forall c :: c in Normalize(name) ==> !IsVowel(c))
  {
    r := CalculateNameNumber(name, VowelsOnly);
  }

  /** getPersonalityNumber: only the consonants count; 0 for a name without consonants. */
  method GetPersonalityNumber(name: string) returns (r: nat)
    ensures r == Reduce(Total(Normalize(name), ConsonantsOnly), false)
    ensures IsNumerologyNumber(r)
    ensures (r == 0) == (forall c :: c in Normalize(name) ==> IsVowel(c))
  {
    r := CalculateNameNumber(name, ConsonantsOnly);
  }

  /**
    * Since reduction keeps the residue modulo 9, the Destiny number computed
    * from a (normalised) name s is congruent to its Soul Urge plus
    * Personality numbers modulo 9, and finalizing the Destiny number gives
    * the finalized reduction of their sum.
    */
  lemma {:induction false} DestinyFromParts(s: string, destiny: nat, soul: nat, personality: nat)
    requires destiny == Reduce(Total(s, All), false)
    requires soul == Reduce(Total(s, VowelsOnly), false)
    requires personality == Reduce(Total(s, ConsonantsOnly), false)
    ensures destiny % 9 == (soul + personality) % 9
    ensures Reduce(destiny, true) == Reduce(soul + personality, true)
  {
    assert Total(s, VowelsOnly) + Total(s, ConsonantsOnly) == Total(s, All) by {
      VowelsPlusConsonants(s);
    }
    ReducedSum(Total(s, VowelsOnly), Total(s, ConsonantsOnly), destiny, soul, personality);
  }

  /** Upper- and lower-case spellings give the same name numbers: "ELİF" and "elif". */
  lemma CaseInsensitiveExample(filter: LetterFilter)
    ensures Reduce(Total(Normalize("ELİF"), filter), false) == Reduce(Total(Normalize("elif"), filter), false)
  {
    NormalizeIgnoresCase("ELİF", "elif");
  }
}
