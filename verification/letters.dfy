/**
  * The Pythagorean letter table, the vowel set and name normalisation
  * (utils/numerology.ts: letterValues, vowels, normalizeName).
  */
module Letters {

  /** letterValues: Latin a-z plus the Turkish letters ç ğ ı ö ş ü, each mapped to 1..9. */
  const LetterValues: map<char, nat> := map[
    'a' := 1, 'j' := 1, 's' := 1, 'ş' := 1,
    'b' := 2, 'k' := 2, 't' := 2,
    'c' := 3, 'ç' := 3, 'l' := 3, 'u' := 3, 'ü' := 3,
    'd' := 4, 'm' := 4, 'v' := 4,
    'e' := 5, 'n' := 5, 'w' := 5,
    'f' := 6, 'o' := 6, 'ö' := 6, 'x' := 6,
    'g' := 7, 'ğ' := 7, 'p' := 7, 'y' := 7,
    'h' := 8, 'q' := 8, 'z' := 8,
    'ı' := 9, 'i' := 9, 'r' := 9
  ]

  /** vowels: the eight Turkish vowels. */
  const Vowels: string := "aeıioöuü"

  /** vowels.includes(char); every vowel is a character the normalisation keeps. */
  function IsVowel(c: char): (b: bool)
    ensures b ==> IsKept(c)
  {
    c in Vowels
  }

  /** `letterValues[char] || 0`: the letter's value, or 0 for a character outside the table. */
  function ValueOf(c: char): (v: nat)
    ensures v <= 9
    ensures (v == 0) == (c !in LetterValues)
  {
    if c in LetterValues then LetterValues[c] else 0
  }

  /**
    * Lower-casing of one character as far as it can change which characters
    * survive the filter: A-Z, the Turkish capitals Ç Ğ Ö Ş Ü, İ (whose
    * lower case is i followed by a combining dot that the filter drops) and
    * the Kelvin sign, whose lower case is k. Every other character is
    * either kept as it is or dropped by the filter either way.
    */
  function Lower(c: char): (r: char)
    ensures IsKept(c) ==> r == c
    ensures 'A' <= c <= 'Z' ==> IsKept(r) && r as int - 'a' as int == c as int - 'A' as int
    ensures c in "ÇĞİÖŞÜ\U{212A}" ==> IsKept(r)
  {
    if 'A' <= c <= 'Z' then (c as int + 32) as char
    else if c == 'Ç' then 'ç'
    else if c == 'Ğ' then 'ğ'
    else if c == 'İ' then 'i'
    else if c == 'Ö' then 'ö'
    else if c == 'Ş' then 'ş'
    else if c == 'Ü' then 'ü'
    else if c == '\U{212A}' then 'k'
    else c
  }

  /** The character class [a-zçğıöşü] that normalizeName keeps. */
  predicate IsKept(c: char) {
    'a' <= c <= 'z' || c == 'ç' || c == 'ğ' || c == 'ı' || c == 'ö' || c == 'ş' || c == 'ü'
  }

  /** normalizeName: lower-case, then drop every character outside [a-zçğıöşü]. */
  function Normalize(name: string): (r: string)
    ensures |r| <= |name|
    ensures forall c :: c in r ==> IsKept(c)
  {
    if name == [] then []
    else
      var c := Lower(name[0]);
      (if IsKept(c) then [c] else []) + Normalize(name[1..])
  }

  /** The kept characters are exactly the keys of the letter table. */
  lemma KeptAreLetters(c: char)
    ensures IsKept(c) <==> c in LetterValues
  {
  }

  /** Every value of the letter table is a digit 1..9. */
  lemma LettersHaveDigitValues(c: char)
    ensures c in LetterValues ==> 1 <= LetterValues[c] <= 9
  {
  }

  /** Every character of a normalised name has a letter value in 1..9. */
  lemma {:induction false} NormalizedHasValues(name: string)
    ensures forall c :: c in Normalize(name) ==> c in LetterValues && 1 <= ValueOf(c) <= 9
  {
    forall c | c in Normalize(name)
      ensures c in LetterValues && 1 <= ValueOf(c) <= 9
    {
      KeptAreLetters(c);
      LettersHaveDigitValues(c);
    }
  }

  /** The normalised name is empty exactly when no character of the name lower-cases to a kept one. */
  lemma {:induction false} NormalizeEmpty(name: string)
    ensures (Normalize(name) == []) <==> forall c :: c in name ==> !IsKept(Lower(c))
  {
    if name != [] {
      NormalizeEmpty(name[1..]);
      assert forall c :: c in name ==> c == name[0] || c in name[1..];
    }
  }

  /** Normalisation works character by character: it distributes over concatenation. */
  lemma {:induction false} NormalizeAppend(a: string, b: string)
    ensures Normalize(a + b) == Normalize(a) + Normalize(b)
  {
    if a != [] {
      var c := Lower(a[0]);
      var head := if IsKept(c) then [c] else [];
      assert Normalize(a + b) == head + Normalize(a[1..] + b) by {
        assert (a + b)[0] == a[0] && (a + b)[1..] == a[1..] + b;
      }
      assert Normalize(a) == head + Normalize(a[1..]);
      NormalizeAppend(a[1..], b);
      assert head + (Normalize(a[1..]) + Normalize(b)) == (head + Normalize(a[1..])) + Normalize(b);
    } else {
      assert a + b == b;
    }
  }

  /** A single character survives normalisation, lower-cased, exactly when its lower case is kept. */
  lemma NormalizeOne(c: char)
    ensures Normalize([c]) == if IsKept(Lower(c)) then [Lower(c)] else []
  {
    assert [c][1..] == [];
  }

  /** Kept characters are already lower case, so normalising twice changes nothing. */
  lemma {:induction false} NormalizeIdempotent(name: string)
    ensures Normalize(Normalize(name)) == Normalize(name)
  {
    if name != [] {
      NormalizeIdempotent(name[1..]);
      var c := Lower(name[0]);
      var rest := Normalize(name[1..]);
      if IsKept(c) {
        assert Normalize(name) == [c] + rest;
        assert Lower(c) == c;
        assert (([c] + rest)[1..]) == rest;
      } else {
        assert Normalize(name) == rest;
      }
    }
  }

  /** Normalisation ignores case: names that agree after lower-casing each character normalise alike. */
  lemma {:induction false} NormalizeIgnoresCase(a: string, b: string)
    requires |a| == |b|
    requires forall i :: 0 <= i < |a| ==> Lower(a[i]) == Lower(b[i])
    ensures Normalize(a) == Normalize(b)
  {
    if a != [] {
      NormalizeIgnoresCase(a[1..], b[1..]);
    }
  }

  /** Dotted and dotless capital I both become vowels of value 9, so I and İ contribute alike. */
  lemma CapitalIsAlike()
    ensures Lower('I') == 'i' && Lower('İ') == 'i'
    ensures ValueOf('i') == ValueOf('ı') == 9 && IsVowel('i') && IsVowel('ı')
  {
  }

  /** "ELİF" normalises to "elif". */
  lemma NormalizeExample()
    ensures Normalize("ELİF") == "elif"
  {
  }
}
