/**
 * The rule engine of fire_analysis_pipeline: the voltage ratio and the
 * first-match-wins decision list that turns the lowercased symptom text, the
 * burn-smell answer, the photo brightness and the voltage ratio into a tier.
 * Python floats are modelled as reals.
 */
module Risk {
  import opened Wrappers

  datatype Tier = Electrical | Overheat | Structural | Low

  /** The string the analyzer stores in the record's "tier" field. */
  function TierName(t: Tier): string
  {
    match t
    case Electrical => "Electrical"
    case Overheat => "Overheat"
    case Structural => "Structural"
    case Low => "Low"
  }

  // ---------------------------------------------------------------------
  // Lowercasing and substring search (str.lower and the `in` operator)
  // ---------------------------------------------------------------------

  /** Lowercase one character; only the ASCII letters A-Z are mapped. */
  function LowerChar(c: char): char
  {
    if 'A' <= c <= 'Z' then (c as int + 32) as char else c
  }

  function Lower(s: string): (r: string)
    ensures |r| == |s|
    ensures forall k :: 0 <= k < |s| ==> !('A' <= r[k] <= 'Z')
    ensures forall k :: 0 <= k < |s| ==>
      if 'A' <= s[k] <= 'Z' then r[k] as int == s[k] as int + 32 else r[k] == s[k]
  {
    seq(|s|, i requires 0 <= i < |s| => LowerChar(s[i]))
  }

  /** Lowercasing a slice is slicing the lowercased text. */
  lemma LowerSlice(s: string, i: nat, j: nat)
    requires i <= j <= |s|
    ensures Lower(s)[i..j] == Lower(s[i..j])
  {
  }

  /** `word` occurs in `text` starting at index i. */
  predicate OccursAt(text: string, word: string, i: nat)
  {
    i + |word| <= |text| && text[i..i + |word|] == word
  }

  /** Python's `word in text` for strings. */
  function Contains(text: string, word: string): (b: bool)
    ensures b <==> exists i: nat :: OccursAt(text, word, i)
    decreases |text|
  {
    if |text| < |word| then
      assert forall i: nat :: !OccursAt(text, word, i);
      false
    else if text[..|word|] == word then
      assert OccursAt(text, word, 0);
      true
    else
      var rest := Contains(text[1..], word);
      ShiftOccurrence(text, word);
      rest
  }

  /** The occurrences in text[1..] are those of text after index 0, shifted by one. */
  lemma ShiftOccurrence(text: string, word: string)
    requires |text| > 0
    requires !OccursAt(text, word, 0)
    ensures (exists i: nat :: OccursAt(text[1..], word, i)) <==> (exists i: nat :: OccursAt(text, word, i))
  {
    forall i: nat | OccursAt(text[1..], word, i)
      ensures OccursAt(text, word, i + 1)
    {
      assert text[i + 1..i + 1 + |word|] == text[1..][i..i + |word|];
    }
    forall i: nat | OccursAt(text, word, i)
      ensures i > 0 && OccursAt(text[1..], word, i - 1)
    {
      assert text[1..][i - 1..i - 1 + |word|] == text[i..i + |word|];
    }
  }

  // ---------------------------------------------------------------------
  // The decision list
  // ---------------------------------------------------------------------

  /** Rule 1 of the decision list: a burn is mentioned or smelled. */
  predicate BurnReported(symptoms: string, burnSmell: string)
  {
    Contains(Lower(symptoms), "burn") || burnSmell == "yes"
  }

  /** Rule 4: the symptoms mention a panel or something loose. */
  predicate StructuralReported(symptoms: string)
  {
    Contains(Lower(symptoms), "panel") || Contains(Lower(symptoms), "loose")
  }

  /** The ordered decision list; the first rule that fires decides the tier. */
  function Classify(symptoms: string, burnSmell: string, brightness: real, ratio: real): Tier
  {
    if BurnReported(symptoms, burnSmell) then Electrical
    else if brightness < 0.3 then Overheat
    else if ratio < 0.75 then Electrical
    else if StructuralReported(symptoms) then Structural
    else Low
  }

  /** Each tier, characterised by the rules that must and must not have fired before it. */
  lemma ClassifyCharacterised(symptoms: string, burnSmell: string, brightness: real, ratio: real)
    ensures var t := Classify(symptoms, burnSmell, brightness, ratio);
      && (t == Electrical <==> BurnReported(symptoms, burnSmell) || (brightness >= 0.3 && ratio < 0.75))
      && (t == Overheat <==> !BurnReported(symptoms, burnSmell) && brightness < 0.3)
      && (t == Structural <==>
            !BurnReported(symptoms, burnSmell) && brightness >= 0.3 && ratio >= 0.75 && StructuralReported(symptoms))
      && (t == Low <==>
            !BurnReported(symptoms, burnSmell) && brightness >= 0.3 && ratio >= 0.75 && !StructuralReported(symptoms))
  {
  }

  /**
   * Matching is case-insensitive: a word spelled "burn" in any mix of upper
   * and lower case anywhere in the symptoms makes the tier Electrical,
   * whatever the brightness and the ratio.
   */
  lemma BurnInAnyCaseIsElectrical(symptoms: string, i: nat, burnSmell: string, brightness: real, ratio: real)
    requires i + 4 <= |symptoms| && Lower(symptoms[i..i + 4]) == "burn"
    ensures Classify(symptoms, burnSmell, brightness, ratio) == Electrical
  {
    LowerSlice(symptoms, i, i + 4);
    assert OccursAt(Lower(symptoms), "burn", i);
  }

  /** Texts that agree after lowercasing are classified alike. */
  lemma ClassifyIgnoresCase(s1: string, s2: string, burnSmell: string, brightness: real, ratio: real)
    requires Lower(s1) == Lower(s2)
    ensures Classify(s1, burnSmell, brightness, ratio) == Classify(s2, burnSmell, brightness, ratio)
  {
  }

  /** A reported burn smell wins over a low voltage ratio (rule 1 before rule 3). */
  lemma BurnSmellBeatsRatio(brightness: real)
    ensures Classify("", "yes", brightness, 0.5) == Electrical
  {
  }

  /** No rule fires for a quiet, bright, steady report. */
  lemma QuietReportIsLow()
    ensures Classify("", "no", 0.9, 0.95) == Low
  {
    assert !Contains(Lower(""), "burn") by { assert !OccursAt(Lower(""), "burn", 0); }
  }

  // ---------------------------------------------------------------------
  // The voltage ratio
  // ---------------------------------------------------------------------

  /** The ratio cannot be computed: Python raises ZeroDivisionError. */
  datatype RatioError = FirstVoltageZero

  /** Python's min over a non-empty list. */
  function MinOf(s: seq<real>): (m: real)
    requires |s| > 0
    ensures m in s
    ensures forall k :: 0 <= k < |s| ==> m <= s[k]
  {
    if |s| == 1 then s[0]
    else
      var rest := MinOf(s[1..]);
      assert forall k :: 1 <= k < |s| ==> s[k] == s[1..][k - 1];
      if rest < s[0] then rest else s[0]
  }

  /** `min(v / voltages[0] for v in voltages)`, or 1.0 for no voltages. */
  function VoltageRatio(voltages: seq<real>): (r: Result<real, RatioError>)
    ensures voltages == [] ==> r == Success(1.0)
    ensures voltages != [] ==> (r.Failure? <==> voltages[0] == 0.0)
    ensures r.Success? && voltages != [] ==>
      && r.value <= 1.0
      && (forall k :: 0 <= k < |voltages| ==> r.value <= voltages[k] / voltages[0])
      && (exists k :: 0 <= k < |voltages| && r.value == voltages[k] / voltages[0])
  {
    if voltages == [] then Success(1.0)
    else if voltages[0] == 0.0 then Failure(FirstVoltageZero)
    else
      var ratios := seq(|voltages|, k requires 0 <= k < |voltages| => voltages[k] / voltages[0]);
      var m := MinOf(ratios);
      assert ratios[0] == 1.0;
      assert forall k :: 0 <= k < |voltages| ==> ratios[k] == voltages[k] / voltages[0];
      Success(m)
  }

  /** The two worked examples: a sagging supply and no readings at all. */
  lemma VoltageRatioExamples()
    ensures VoltageRatio([120.0, 90.0, 60.0]) == Success(0.5)
    ensures VoltageRatio([]) == Success(1.0)
  {
    var r := VoltageRatio([120.0, 90.0, 60.0]);
    var k :| 0 <= k < 3 && r.value == [120.0, 90.0, 60.0][k] / 120.0;
    assert r.value <= 60.0 / 120.0;
  }
}
