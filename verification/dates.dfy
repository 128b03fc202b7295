/**
  * The date-derived numbers and the date reshaper (utils/numerology.ts:
  * getUniversalDayNumber, getLifePathNumber, getPersonalYearNumber,
  * getPersonalDayNumber, formatDateForApi).
  */
module DateNumbers {
  import opened Wrappers
  import opened Reduction

  /** String.prototype.split with a one-character separator: "" gives [""], "a." gives ["a", ""]. */
  function Split(s: string, sep: char): (parts: seq<string>)
    ensures |parts| >= 1
    ensures forall p :: p in parts ==> sep !in p
  {
    if s == [] then [[]]
    else
      var rest := Split(s[1..], sep);
      if s[0] == sep then [[]] + rest
      else [[s[0]] + rest[0]] + rest[1..]
  }

  /** Array.prototype.join with a one-character separator, the inverse of Split. */
  function Join(parts: seq<string>, sep: char): string
    requires |parts| >= 1
  {
    if |parts| == 1 then parts[0] else parts[0] + [sep] + Join(parts[1..], sep)
  }

  /** Joining the pieces of a split gives back the string. */
  lemma {:induction false} JoinSplit(s: string, sep: char)
    ensures Join(Split(s, sep), sep) == s
  {
    if s != [] {
      JoinSplit(s[1..], sep);
      var rest := Split(s[1..], sep);
      if s[0] == sep {
        assert ([[]] + rest)[1..] == rest;
      } else {
        JoinGlue([s[0]], rest, sep);
        assert [s[0]] + s[1..] == s;
      }
    }
  }

  /** Gluing a piece onto the first part of a split adds it in front of the join. */
  lemma JoinGlue(p: string, parts: seq<string>, sep: char)
    requires |parts| >= 1
    ensures Join([p + parts[0]] + parts[1..], sep) == p + Join(parts, sep)
  {
    var glued := [p + parts[0]] + parts[1..];
    if |parts| > 1 {
      assert glued[1..] == parts[1..];
    }
  }

  /** Splitting a string that starts with a separator-free piece p glues p to the first part. */
  lemma {:induction false} SplitAfterPiece(p: string, x: string, sep: char)
    requires sep !in p
    ensures Split(p + x, sep) == [p + Split(x, sep)[0]] + Split(x, sep)[1..]
  {
    var tail := Split(x, sep);
    if p != [] {
      var rest := Split(p[1..] + x, sep);
      assert Split(p + x, sep) == [[p[0]] + rest[0]] + rest[1..] by {
        assert p + x == [p[0]] + (p[1..] + x);
        assert p[0] in p;
        SplitAfterChar(p[0], p[1..] + x, sep);
      }
      assert rest[0] == p[1..] + tail[0] && rest[1..] == tail[1..] by {
        SplitAfterPiece(p[1..], x, sep);
      }
      assert [p[0]] + (p[1..] + tail[0]) == p + tail[0];
    } else {
      assert p + x == x && p + tail[0] == tail[0];
      assert tail == [tail[0]] + tail[1..];
    }
  }

  /** Splitting a string that starts with a non-separator glues it to the first part. */
  lemma SplitAfterChar(c: char, y: string, sep: char)
    requires c != sep
    ensures Split([c] + y, sep) == [[c] + Split(y, sep)[0]] + Split(y, sep)[1..]
  {
    assert ([c] + y)[0] == c && ([c] + y)[1..] == y;
  }

  /** Joining three pieces puts the separator between them. */
  lemma JoinThree(a: string, b: string, c: string, sep: char)
    ensures Join([a, b, c], sep) == a + [sep] + b + [sep] + c
  {
    assert [a, b, c][1..] == [b, c];
    assert [b, c][1..] == [c];
    assert Join([b, c], sep) == b + [sep] + c;
    assert a + [sep] + (b + [sep] + c) == a + [sep] + b + [sep] + c;
  }

  /** Splitting the join of separator-free pieces gives back the pieces. */
  lemma {:induction false} SplitJoin(parts: seq<string>, sep: char)
    requires |parts| >= 1
    requires forall i :: 0 <= i < |parts| ==> sep !in parts[i]
    ensures Split(Join(parts, sep), sep) == parts
  {
    if |parts| == 1 {
      SplitAfterPiece(parts[0], [], sep);
      assert parts[0] + [] == parts[0];
    } else {
      var tail := Join(parts[1..], sep);
      SplitJoin(parts[1..], sep);
      SplitAfterPiece(parts[0], [sep] + tail, sep);
      assert parts[0] + [sep] + tail == parts[0] + ([sep] + tail);
      assert ([sep] + tail)[1..] == tail;
      assert Split([sep] + tail, sep) == [[]] + parts[1..];
      assert parts[0] + [] == parts[0];
      assert parts == [parts[0]] + parts[1..];
    }
  }

  predicate IsDigit(c: char) {
    '0' <= c <= '9'
  }

  predicate AllDigits(s: string) {
    forall i :: 0 <= i < |s| ==> IsDigit(s[i])
  }

  /** The value of a string of decimal digits; the empty string is 0, as Number("") is. */
  function DecimalValue(s: string): nat
    requires AllDigits(s)
  {
    if s == [] then 0 else DecimalValue(s[..|s| - 1]) * 10 + (s[|s| - 1] as int - '0' as int)
  }

  /** Number(part): a decimal value, or None where JavaScript gives NaN. */
  function ParseNumber(part: string): (r: Option<nat>)
    ensures r.Some? <==> AllDigits(part)
  {
    if AllDigits(part) then Some(DecimalValue(part)) else None
  }

  /** The numeric parts of a "DD.MM.YYYY" date of birth. */
  datatype Dob = Dob(day: nat, month: nat, year: nat)

  /**
    * `dob.split('.').map(Number)` followed by the check that there are
    * exactly three parts and none is NaN.
    */
  function ParseDob(dob: string): (r: Option<Dob>)
    ensures r.Some? <==>
      var parts := Split(dob, '.');
      |parts| == 3 && AllDigits(parts[0]) && AllDigits(parts[1]) && AllDigits(parts[2])
  {
    var parts := Split(dob, '.');
    if |parts| != 3 then None
    else
      match (ParseNumber(parts[0]), ParseNumber(parts[1]), ParseNumber(parts[2]))
      case (Some(day), Some(month), Some(year)) => Some(Dob(day, month, year))
      case _ => None
  }

  /**
    * getLifePathNumber: 0 for a malformed date; otherwise day, month and
    * year are reduced without `final`, summed, and the sum reduced without
    * `final`, so the result is a digit or a Master Number with the residue
    * of day + month + year modulo 9.
    */
  function LifePathNumber(dob: string): (r: nat)
    ensures IsNumerologyNumber(r)
    ensures ParseDob(dob).None? ==> r == 0
    ensures ParseDob(dob).Some? ==>
      var d := ParseDob(dob).value;
      r % 9 == (d.day + d.month + d.year) % 9 && ((r == 0) == (d.day + d.month + d.year == 0))
  {
    match ParseDob(dob)
    case None => 0
    case Some(d) => LifePathOf(d)
  }

  /** The Life Path computation on the parsed parts of a well-formed date. */
  function LifePathOf(d: Dob): (r: nat)
    ensures IsNumerologyNumber(r)
    ensures var sum := Reduce(d.day, false) + Reduce(d.month, false) + Reduce(d.year, false);
      IsMasterNumber(sum) ==> r == sum
    ensures r % 9 == (d.day + d.month + d.year) % 9
    ensures (r == 0) == (d.day + d.month + d.year == 0)
  {
    ReducedParts(d.day, d.month, d.year, false);
    Reduce(Reduce(d.day, false) + Reduce(d.month, false) + Reduce(d.year, false), false)
  }

  /** Finalizing a Life Path number gives the digital root of day + month + year. */
  lemma LifePathFinalized(dob: string, d: Dob)
    requires ParseDob(dob) == Some(d)
    ensures Reduce(LifePathNumber(dob), true) == Reduce(d.day + d.month + d.year, true)
  {
    assert LifePathNumber(dob) == LifePathOf(d);
    LifePathOfFinalized(d);
  }

  /** Finalizing the Life Path of parsed parts gives the final reduction of their sum. */
  lemma LifePathOfFinalized(d: Dob)
    ensures Reduce(LifePathOf(d), true) == Reduce(d.day + d.month + d.year, true)
  {
    FinalDeterminedByResidue(LifePathOf(d), d.day + d.month + d.year);
  }

  /** "15.06.1990" parses as day 15, month 6, year 1990. */
  lemma ParseDobExample()
    ensures ParseDob("15.06.1990") == Some(Dob(15, 6, 1990))
  {
    JoinThree("15", "06", "1990", '.');
    assert Join(["15", "06", "1990"], '.') == "15.06.1990";
    ParseJoined("15", "06", "1990");
    assert DecimalValue("15") == 15 by { assert "15"[..1] == "1"; }
    assert DecimalValue("06") == 6 by { assert "06"[..1] == "0"; }
    assert DecimalValue("1990") == 1990 by {
      assert "19"[..1] == "1";
      assert DecimalValue("19") == 19;
      assert "199"[..2] == "19";
      assert DecimalValue("199") == 199;
      assert "1990"[..3] == "199";
    }
  }

  /** Life Path of "15.06.1990": 6 + 6 + 1 = 13, which reduces to 4. */
  lemma LifePathExample()
    ensures LifePathNumber("15.06.1990") == 4
  {
    ParseDobExample();
    LifePathOfExample();
  }

  /** The parts 15, 6 and 1990 reduce to 6, 6 and 1, and their sum 13 to 4. */
  lemma LifePathOfExample()
    ensures LifePathOf(Dob(15, 6, 1990)) == 4
  {
    IntermediateMasterStops();
    SingleDigitFixed(6, false);
    assert Reduce(15, false) == 6;
    assert Reduce(13, false) == 4;
  }

  /** "01.08.2000" parses as day 1, month 8, year 2000. */
  lemma ParseDobMasterExample()
    ensures ParseDob("01.08.2000") == Some(Dob(1, 8, 2000))
  {
    JoinThree("01", "08", "2000", '.');
    assert Join(["01", "08", "2000"], '.') == "01.08.2000";
    ParseJoined("01", "08", "2000");
    assert DecimalValue("01") == 1 by { assert "01"[..1] == "0"; }
    assert DecimalValue("08") == 8 by { assert "08"[..1] == "0"; }
    assert DecimalValue("2000") == 2000 by {
      assert "20"[..1] == "2";
      assert DecimalValue("20") == 20;
      assert "200"[..2] == "20";
      assert DecimalValue("200") == 200;
      assert "2000"[..3] == "200";
    }
  }

  /** Life Path of "01.08.2000": 1 + 8 + 2 = 11, a Master Number, which stays 11. */
  lemma LifePathMasterExample()
    ensures LifePathNumber("01.08.2000") == 11
  {
    ParseDobMasterExample();
    LifePathOfMasterExample();
  }

  /** The parts 1, 8 and 2000 reduce to 1, 8 and 2; their sum 11 is kept, not collapsed to 2. */
  lemma LifePathOfMasterExample()
    ensures LifePathOf(Dob(1, 8, 2000)) == 11
    ensures Reduce(LifePathOf(Dob(1, 8, 2000)), true) == 2
  {
    SingleDigitFixed(1, false);
    SingleDigitFixed(8, false);
    assert DigitSum(2000) == 2;
    assert Reduce(2000, false) == 2;
    MasterCollapsed();
  }

  /** Day 11, month 11, year 7: the reduced parts add up to 29, whose digit sum 11 stops the reduction. */
  lemma LifePathOfIntermediateMaster()
    ensures LifePathOf(Dob(11, 11, 7)) == 11
  {
    MasterKept(11);
    SingleDigitFixed(7, false);
    IntermediateMasterStops();
  }

  /** A calendar date as getDate(), getMonth() + 1 and getFullYear() give it. */
  datatype CalendarDate = CalendarDate(day: nat, month: nat, year: nat)

  /**
    * getUniversalDayNumber: day, month and year each reduced with `final`,
    * and their sum reduced with `final`: a single digit with the residue of
    * day + month + year modulo 9, 0 only when all three are 0.
    */
  function UniversalDayNumber(date: CalendarDate): (r: nat)
    ensures r <= 9
    ensures r % 9 == (date.day + date.month + date.year) % 9
    ensures (r == 0) == (date.day + date.month + date.year == 0)
  {
    ReducedParts(date.day, date.month, date.year, true);
    Reduce(Reduce(date.day, true) + Reduce(date.month, true) + Reduce(date.year, true), true)
  }

  /** For a date with a positive component the Universal Day is 1..9, never a Master Number. */
  lemma UniversalDayRange(date: CalendarDate)
    requires date.day >= 1 || date.month >= 1 || date.year >= 1
    ensures 1 <= UniversalDayNumber(date) <= 9
    ensures !IsMasterNumber(UniversalDayNumber(date))
    ensures UniversalDayNumber(date) == Reduce(date.day + date.month + date.year, true)
  {
    FinalDeterminedByResidue(UniversalDayNumber(date), date.day + date.month + date.year);
    SingleDigitFixed(UniversalDayNumber(date), true);
  }

  /** Universal Day of 8 August 2024: 8 + 8 + 8 = 24, which reduces to 6. */
  lemma UniversalDayExample()
    ensures UniversalDayNumber(CalendarDate(8, 8, 2024)) == 6
  {
    assert DigitSum(2024) == 8 by {
      assert DigitSum(202) == 4;
    }
    assert Reduce(2024, true) == 8;
    assert Reduce(24, true) == 6;
  }

  /** The role of each entry of a Personal Year breakdown: 'Doğum Günü', 'Doğum Ayı', 'Evrensel Yıl'. */
  datatype Role = BirthDay | BirthMonth | UniversalYear

  datatype BreakdownEntry = BreakdownEntry(number: nat, role: Role)

  datatype PersonalYear = PersonalYear(personalYear: nat, breakdown: seq<BreakdownEntry>)

  /**
    * getPersonalYearNumber: {0, []} for a malformed date; otherwise the
    * Personal Year of the parsed day and month. The birth year plays no part.
    */
  function PersonalYearNumber(dob: string, targetYear: nat): (r: PersonalYear)
    ensures ParseDob(dob).None? ==> r == PersonalYear(0, [])
    ensures ParseDob(dob).Some? ==> r == PersonalYearOf(ParseDob(dob).value.day, ParseDob(dob).value.month, targetYear)
  {
    match ParseDob(dob)
    case None => PersonalYear(0, [])
    case Some(d) => PersonalYearOf(d.day, d.month, targetYear)
  }

  /**
    * The Personal Year computation on a well-formed date: the breakdown
    * holds the finalized reductions of the birth day, the birth month and
    * the target year, in that order, and the Personal Year is the finalized
    * reduction of their sum, a single digit with the residue of
    * day + month + targetYear modulo 9.
    */
  function PersonalYearOf(day: nat, month: nat, targetYear: nat): (r: PersonalYear)
    ensures |r.breakdown| == 3
    ensures r.breakdown[0] == BreakdownEntry(Reduce(day, true), BirthDay)
    ensures r.breakdown[1] == BreakdownEntry(Reduce(month, true), BirthMonth)
    ensures r.breakdown[2] == BreakdownEntry(Reduce(targetYear, true), UniversalYear)
    ensures r.personalYear <= 9
    ensures r.personalYear % 9 == (day + month + targetYear) % 9
    ensures (r.personalYear == 0) == (day + month + targetYear == 0)
  {
    var dayReduced := Reduce(day, true);
    var monthReduced := Reduce(month, true);
    var yearReduced := Reduce(targetYear, true);
    ReducedParts(day, month, targetYear, true);
    PersonalYear(
      Reduce(dayReduced + monthReduced + yearReduced, true),
      [BreakdownEntry(dayReduced, BirthDay), BreakdownEntry(monthReduced, BirthMonth),
       BreakdownEntry(yearReduced, UniversalYear)])
  }

  /** Two dates of birth that differ only in the year give the same Personal Year and breakdown. */
  lemma PersonalYearIgnoresBirthYear(dob1: string, dob2: string, targetYear: nat)
    requires ParseDob(dob1).Some? && ParseDob(dob2).Some?
    requires ParseDob(dob1).value.day == ParseDob(dob2).value.day
    requires ParseDob(dob1).value.month == ParseDob(dob2).value.month
    ensures PersonalYearNumber(dob1, targetYear) == PersonalYearNumber(dob2, targetYear)
  {
  }

  /** "01.01.2000" parses as day 1, month 1, year 2000. */
  lemma ParseDobFirstJanuaryExample()
    ensures ParseDob("01.01.2000") == Some(Dob(1, 1, 2000))
  {
    JoinThree("01", "01", "2000", '.');
    assert Join(["01", "01", "2000"], '.') == "01.01.2000";
    ParseJoined("01", "01", "2000");
    assert DecimalValue("01") == 1 by { assert "01"[..1] == "0"; }
    assert DecimalValue("2000") == 2000 by {
      assert "20"[..1] == "2";
      assert DecimalValue("20") == 20;
      assert "200"[..2] == "20";
      assert DecimalValue("200") == 200;
      assert "2000"[..3] == "200";
    }
  }

  /** Personal Year of "01.01.2000" in 2024: 1 + 1 + 8 = 10, which reduces to 1. */
  lemma PersonalYearExample()
    ensures PersonalYearNumber("01.01.2000", 2024)
         == PersonalYear(1, [BreakdownEntry(1, BirthDay), BreakdownEntry(1, BirthMonth), BreakdownEntry(8, UniversalYear)])
  {
    ParseDobFirstJanuaryExample();
    PersonalYearOfExample();
  }

  /** Day 1, month 1 in 2024: the breakdown 1, 1, 8 and the Personal Year 1. */
  lemma PersonalYearOfExample()
    ensures PersonalYearOf(1, 1, 2024)
         == PersonalYear(1, [BreakdownEntry(1, BirthDay), BreakdownEntry(1, BirthMonth), BreakdownEntry(8, UniversalYear)])
  {
    assert DigitSum(2024) == 8 by {
      assert DigitSum(202) == 4;
    }
    SingleDigitFixed(1, true);
    assert Reduce(2024, true) == 8;
    assert Reduce(10, true) == 1;
  }

  /**
    * getPersonalDayNumber: the finalized reduction of the Life Path number
    * plus the Universal Day: a single digit with the residue of
    * lifePath + day + month + year modulo 9.
    */
  function PersonalDayNumber(lifePath: nat, date: CalendarDate): (r: nat)
    ensures r <= 9
    ensures r % 9 == (lifePath + date.day + date.month + date.year) % 9
    ensures (r == 0) == (lifePath + date.day + date.month + date.year == 0)
  {
    var universal := UniversalDayNumber(date);
    ResidueOfAdd(universal, date.day + date.month + date.year, lifePath);
    ReduceResidue(lifePath + universal, true);
    Reduce(lifePath + universal, true)
  }

  /** A Master Life Path gives the same Personal Day as its collapsed digit: 11 as 2, 22 as 4, 33 as 6. */
  lemma PersonalDayOfMaster(lifePath: nat, date: CalendarDate)
    requires IsMasterNumber(lifePath)
    ensures PersonalDayNumber(lifePath, date) == PersonalDayNumber(Reduce(lifePath, true), date)
  {
    ReduceResidue(lifePath, true);
    PersonalDayByResidue(lifePath, Reduce(lifePath, true), date);
  }

  /** Two positive Life Path numbers with the same residue modulo 9 give the same Personal Day. */
  lemma PersonalDayByResidue(a: nat, b: nat, date: CalendarDate)
    requires a >= 1 && b >= 1 && a % 9 == b % 9
    ensures PersonalDayNumber(a, date) == PersonalDayNumber(b, date)
  {
    var u := UniversalDayNumber(date);
    FinalOfShifted(a, b, u);
    assert PersonalDayNumber(a, date) == Reduce(a + u, true);
  }

  /** Adding the same amount to two positive congruent numbers leaves equal final reductions. */
  lemma FinalOfShifted(a: nat, b: nat, u: nat)
    requires a >= 1 && b >= 1 && a % 9 == b % 9
    ensures Reduce(a + u, true) == Reduce(b + u, true)
  {
    ResidueOfAdd(a, b, u);
    FinalDeterminedByResidue(a + u, b + u);
  }

  /** The regular expression ^\d{4}-\d{2}-\d{2}$ (ASCII digits). */
  predicate IsIsoDate(s: string) {
    && |s| == 10
    && IsDigit(s[0]) && IsDigit(s[1]) && IsDigit(s[2]) && IsDigit(s[3])
    && s[4] == '-'
    && IsDigit(s[5]) && IsDigit(s[6])
    && s[7] == '-'
    && IsDigit(s[8]) && IsDigit(s[9])
  }

  /** An ISO date splits on '-' into its year, month and day. */
  lemma IsoDateParts(s: string)
    requires IsIsoDate(s)
    ensures Split(s, '-') == [s[..4], s[5..7], s[8..]]
  {
    var parts := [s[..4], s[5..7], s[8..]];
    JoinThree(s[..4], s[5..7], s[8..], '-');
    assert s == s[..4] + ['-'] + s[5..7] + ['-'] + s[8..];
    SplitJoin(parts, '-');
  }

  /**
    * formatDateForApi: "" unless the input matches ^\d{4}-\d{2}-\d{2}$;
    * otherwise its day, month and year pieces reassembled as DD.MM.YYYY.
    */
  function FormatDateForApi(s: string): (r: string)
    ensures !IsIsoDate(s) ==> r == ""
    ensures IsIsoDate(s) ==> r == s[8..10] + "." + s[5..7] + "." + s[..4]
  {
    if s == [] || !IsIsoDate(s) then ""
    else
      IsoDateParts(s);
      var parts := Split(s, '-');
      var year, month, day := parts[0], parts[1], parts[2];
      day + "." + month + "." + year
  }

  /** The ISO form of a DD.MM.YYYY string: the inverse reshaping. */
  function IsoFromDotted(r: string): string
    requires |r| == 10
  {
    r[6..] + "-" + r[3..5] + "-" + r[..2]
  }

  /**
    * Every non-empty result of formatDateForApi passes the three-numeric-parts
    * check of getLifePathNumber with the input's day, month and year, and
    * reshaping it back gives the input.
    */
  lemma FormatThenParse(s: string)
    requires FormatDateForApi(s) != ""
    ensures IsIsoDate(s)
    ensures |FormatDateForApi(s)| == 10 && IsoFromDotted(FormatDateForApi(s)) == s
    ensures AllDigits(s[8..]) && AllDigits(s[5..7]) && AllDigits(s[..4])
    ensures ParseDob(FormatDateForApi(s)) == Some(Dob(DecimalValue(s[8..]), DecimalValue(s[5..7]), DecimalValue(s[..4])))
  {
    DottedOfIso(s);
    IsoPiecesAreDigits(s);
    ParseJoined(s[8..], s[5..7], s[..4]);
  }

  /** The year, month and day pieces of an ISO date are digit strings. */
  lemma IsoPiecesAreDigits(s: string)
    requires IsIsoDate(s)
    ensures AllDigits(s[8..]) && AllDigits(s[5..7]) && AllDigits(s[..4])
  {
  }

  /** A digit string holds no '.'. */
  lemma DigitsHaveNoDot(t: string)
    requires AllDigits(t)
    ensures '.' !in t
  {
  }

  /** Three digit strings joined with '.' are accepted as a date with their values as day, month and year. */
  lemma ParseJoined(day: string, month: string, year: string)
    requires AllDigits(day) && AllDigits(month) && AllDigits(year)
    ensures ParseDob(Join([day, month, year], '.')) == Some(Dob(DecimalValue(day), DecimalValue(month), DecimalValue(year)))
  {
    var parts := [day, month, year];
    DigitsHaveNoDot(day);
    DigitsHaveNoDot(month);
    DigitsHaveNoDot(year);
    SplitJoin(parts, '.');
  }

  /** The reshaped form of an ISO date is the join of its day, month and year with '.', and reshapes back. */
  lemma DottedOfIso(s: string)
    requires IsIsoDate(s)
    ensures FormatDateForApi(s) == Join([s[8..], s[5..7], s[..4]], '.')
    ensures |FormatDateForApi(s)| == 10 && IsoFromDotted(FormatDateForApi(s)) == s
  {
    var r := FormatDateForApi(s);
    JoinThree(s[8..], s[5..7], s[..4], '.');
    assert s[8..10] == s[8..];
    assert r[6..] == s[..4] && r[3..5] == s[5..7] && r[..2] == s[8..];
    assert s == s[..4] + "-" + s[5..7] + "-" + s[8..];
  }

  /** "1990-06-15" becomes "15.06.1990". */
  lemma FormatExample()
    ensures FormatDateForApi("1990-06-15") == "15.06.1990"
  {
    var s := "1990-06-15";
    assert IsIsoDate(s);
    assert s[8..10] == "15" && s[5..7] == "06" && s[..4] == "1990";
    assert "15" + "." + "06" + "." + "1990" == "15.06.1990";
  }

  /** "1990-6-15", with a one-digit month, is rejected. */
  lemma FormatRejectsExample()
    ensures FormatDateForApi("1990-6-15") == ""
  {
    assert !IsIsoDate("1990-6-15");
  }
}
