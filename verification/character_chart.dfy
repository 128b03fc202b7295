/** The 9-bin letter-value histogram (utils/numerology.ts: getCharacterChart). */
module CharacterChart {
  import opened Letters
  import NameNumbers

  /** The chart's keys, the strings "1" to "9". */
  const ChartKeys: set<string> := {"1", "2", "3", "4", "5", "6", "7", "8", "9"}

  /** value.toString() for a letter value 1..9. */
  function Key(v: nat): (k: string)
    requires 1 <= v <= 9
    ensures |k| == 1 && k[0] as int == '0' as int + v
    ensures k in ChartKeys
  {
    [('0' as int + v) as char]
  }

  /** How many characters of s have letter value v. */
  function Count(s: string, v: nat): nat
  {
    if s == [] then 0
    else Count(s[..|s| - 1], v) + (if ValueOf(s[|s| - 1]) == v then 1 else 0)
  }

  /** The sum of the nine bins of a chart. */
  function ChartSum(chart: map<string, nat>): nat
    requires chart.Keys == ChartKeys
  {
    chart["1"] + chart["2"] + chart["3"] + chart["4"] + chart["5"]
    + chart["6"] + chart["7"] + chart["8"] + chart["9"]
  }

  /** The sum of the nine bins weighted by their letter value. */
  function WeightedChartSum(chart: map<string, nat>): nat
    requires chart.Keys == ChartKeys
  {
    1 * chart["1"] + 2 * chart["2"] + 3 * chart["3"] + 4 * chart["4"] + 5 * chart["5"]
    + 6 * chart["6"] + 7 * chart["7"] + 8 * chart["8"] + 9 * chart["9"]
  }

  /** Histogram conservation: on letters, the nine counts add up to the length. */
  lemma {:induction false} CountsAddUpToLength(s: string)
    requires forall c :: c in s ==> c in LetterValues
    ensures Count(s, 1) + Count(s, 2) + Count(s, 3) + Count(s, 4) + Count(s, 5)
            + Count(s, 6) + Count(s, 7) + Count(s, 8) + Count(s, 9) == |s|
  {
    if s != [] {
      var init, c := s[..|s| - 1], s[|s| - 1];
      assert s == init + [c];
      CountsAddUpToLength(init);
      LettersHaveDigitValues(c);
    }
  }

  /** Weighting each count by its value gives back the all-letters total behind the Destiny number. */
  lemma {:induction false} WeightedCountsGiveTotal(s: string)
    ensures 1 * Count(s, 1) + 2 * Count(s, 2) + 3 * Count(s, 3) + 4 * Count(s, 4) + 5 * Count(s, 5)
            + 6 * Count(s, 6) + 7 * Count(s, 7) + 8 * Count(s, 8) + 9 * Count(s, 9)
            == NameNumbers.Total(s, NameNumbers.All)
  {
    if s != [] {
      WeightedCountsGiveTotal(s[..|s| - 1]);
    }
  }

  /** The chart has the nine keys "1".."9" and bin v counts the characters of s with value v. */
  predicate CountsLetters(chart: map<string, nat>, s: string) {
    chart.Keys == ChartKeys && forall v :: 1 <= v <= 9 ==> chart[Key(v)] == Count(s, v)
  }

  /** The initial chart counts the letters of the empty name. */
  lemma EmptyChartCountsNothing()
    ensures CountsLetters(map["1" := 0, "2" := 0, "3" := 0, "4" := 0, "5" := 0, "6" := 0, "7" := 0, "8" := 0, "9" := 0], [])
  {
  }

  /** Incrementing the bin of c's value (when c has one) turns a chart counting s into one counting s + [c]. */
  lemma CountingStep(chart: map<string, nat>, s: string, c: char)
    requires CountsLetters(chart, s)
    ensures
      var value := ValueOf(c);
      CountsLetters(if value != 0 then chart[Key(value) := chart[Key(value)] + 1] else chart, s + [c])
  {
    assert (s + [c])[..|s + [c]| - 1] == s;
  }

  /** A chart whose bins count the letters of s by value adds up to the length of s. */
  lemma ChartSumOfCounts(chart: map<string, nat>, s: string)
    requires chart.Keys == ChartKeys
    requires chart["1"] == Count(s, 1) && chart["2"] == Count(s, 2) && chart["3"] == Count(s, 3)
    requires chart["4"] == Count(s, 4) && chart["5"] == Count(s, 5) && chart["6"] == Count(s, 6)
    requires chart["7"] == Count(s, 7) && chart["8"] == Count(s, 8) && chart["9"] == Count(s, 9)
    requires forall c :: c in s ==> c in LetterValues
    ensures ChartSum(chart) == |s|
  {
    CountsAddUpToLength(s);
  }

  /** Weighted by value, such a chart adds up to the all-letters total of s. */
  lemma WeightedSumOfCounts(chart: map<string, nat>, s: string)
    requires chart.Keys == ChartKeys
    requires chart["1"] == Count(s, 1) && chart["2"] == Count(s, 2) && chart["3"] == Count(s, 3)
    requires chart["4"] == Count(s, 4) && chart["5"] == Count(s, 5) && chart["6"] == Count(s, 6)
    requires chart["7"] == Count(s, 7) && chart["8"] == Count(s, 8) && chart["9"] == Count(s, 9)
    ensures WeightedChartSum(chart) == NameNumbers.Total(s, NameNumbers.All)
  {
    WeightedCountsGiveTotal(s);
  }

  /** The bins of a chart counting s, one by one. */
  lemma BinsOfCountingChart(chart: map<string, nat>, s: string)
    requires CountsLetters(chart, s)
    ensures chart["1"] == Count(s, 1) && chart["2"] == Count(s, 2) && chart["3"] == Count(s, 3)
    ensures chart["4"] == Count(s, 4) && chart["5"] == Count(s, 5) && chart["6"] == Count(s, 6)
    ensures chart["7"] == Count(s, 7) && chart["8"] == Count(s, 8) && chart["9"] == Count(s, 9)
  {
    assert Key(1) == "1" && Key(2) == "2" && Key(3) == "3";
    assert Key(4) == "4" && Key(5) == "5" && Key(6) == "6";
    assert Key(7) == "7" && Key(8) == "8" && Key(9) == "9";
  }

  /**
    * getCharacterChart: start from nine zero bins "1".."9" and, for each
    * letter of the normalised name, increment the bin of its value. The
    * keys stay exactly "1".."9", each bin counts the letters of that value,
    * the bins add up to the length of the normalised name, and weighted by
    * value they add up to the name's all-letters total.
    */
  method GetCharacterChart(name: string) returns (chart: map<string, nat>)
    ensures chart.Keys == ChartKeys
    ensures forall v :: 1 <= v <= 9 ==> chart[Key(v)] == Count(Normalize(name), v)
    ensures ChartSum(chart) == |Normalize(name)|
    ensures WeightedChartSum(chart) == NameNumbers.Total(Normalize(name), NameNumbers.All)
  {
    EmptyChartCountsNothing();
    chart := map["1" := 0, "2" := 0, "3" := 0, "4" := 0, "5" := 0, "6" := 0, "7" := 0, "8" := 0, "9" := 0];
    var normalized := Normalize(name);
    var i := 0;
    while i < |normalized|
      invariant 0 <= i <= |normalized|
      invariant CountsLetters(chart, normalized[..i])
    {
      var value := ValueOf(normalized[i]);
      CountingStep(chart, normalized[..i], normalized[i]);
      if value != 0 {
        chart := chart[Key(value) := chart[Key(value)] + 1];
      }
      assert normalized[..i + 1] == normalized[..i] + [normalized[i]];
      i := i + 1;
    }
    assert normalized[..i] == normalized;
    ChartOfName(chart, name);
  }

  /** A chart counting the letters of the normalised name has the properties getCharacterChart promises. */
  lemma ChartOfName(chart: map<string, nat>, name: string)
    requires CountsLetters(chart, Normalize(name))
    ensures chart.Keys == ChartKeys
    ensures forall v :: 1 <= v <= 9 ==> chart[Key(v)] == Count(Normalize(name), v)
    ensures ChartSum(chart) == |Normalize(name)|
    ensures WeightedChartSum(chart) == NameNumbers.Total(Normalize(name), NameNumbers.All)
  {
    var normalized := Normalize(name);
    NormalizedHasValues(name);
    BinsOfCountingChart(chart, normalized);
    ChartSumOfCounts(chart, normalized);
    WeightedSumOfCounts(chart, normalized);
  }
}
