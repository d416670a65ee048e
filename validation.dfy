/** The post-analysis checks (`_validate_analysis`) and the SSA age brackets
    (`_get_age_category`): the generated analysis is checked for its required
    sections, for an age category that contradicts the age found in the
    findings, and, for vision cases, for refused calculations and for
    hearing-related recommendations. */
module Validation {
  import opened Wrappers
  import opened Text

  // ---------------------------------------------------------------------
  // Age brackets

  const Younger: string := "younger individual"
  const Closely: string := "closely approaching advanced age"
  const Advanced: string := "advanced age"
  const NearRetirement: string := "closely approaching retirement age"
  const Retirement: string := "retirement age"

  /** The brackets in increasing order of age. */
  const Brackets: seq<string> := [Younger, Closely, Advanced, NearRetirement, Retirement]

  /** The SSA age category for `age`: cut points at 50, 55, 60 and 65, each
      the first age of the next bracket. */
  function AgeCategory(age: int): (c: string)
    ensures c in Brackets
    ensures c == Younger <==> age < 50
    ensures c == Closely <==> 50 <= age < 55
    ensures c == Advanced <==> 55 <= age < 60
    ensures c == NearRetirement <==> 60 <= age < 65
    ensures c == Retirement <==> 65 <= age
  {
    if age < 50 then Younger
    else if age < 55 then Closely
    else if age < 60 then Advanced
    else if age < 65 then NearRetirement
    else Retirement
  }

  /** The position of a category in `Brackets`. */
  function BracketIndex(c: string): (k: nat)
    requires c in Brackets
    ensures k < |Brackets| && Brackets[k] == c
  {
    if c == Younger then 0
    else if c == Closely then 1
    else if c == Advanced then 2
    else if c == NearRetirement then 3
    else 4
  }

  /** An older claimant is never in a younger bracket. */
  lemma AgeCategoryMonotonic(a: int, b: int)
    requires a <= b
    ensures BracketIndex(AgeCategory(a)) <= BracketIndex(AgeCategory(b))
  {
  }

  /** 55 is the first age of "advanced age"; 54 is the last of "closely
      approaching advanced age". */
  lemma AgeBoundaries()
    ensures AgeCategory(54) == Closely && AgeCategory(55) == Advanced
    ensures AgeCategory(49) == Younger && AgeCategory(50) == Closely
    ensures AgeCategory(59) == Advanced && AgeCategory(60) == NearRetirement
    ensures AgeCategory(64) == NearRetirement && AgeCategory(65) == Retirement
  {
  }

  // ---------------------------------------------------------------------
  // Finding the age in the findings text

  /** A character of the run between "age" and the number: `[:\s]`. */
  predicate IsAgeSeparator(c: char) {
    c == ':' || IsSpace(c)
  }

  /** The end of the longest run of separators starting at `i`. */
  function SeparatorRunEnd(s: string, i: nat): (e: nat)
    requires i <= |s|
    ensures i <= e <= |s|
    ensures forall k :: i <= k < e ==> IsAgeSeparator(s[k])
    ensures e < |s| ==> !IsAgeSeparator(s[e])
    decreases |s| - i
  {
    if i < |s| && IsAgeSeparator(s[i]) then SeparatorRunEnd(s, i + 1) else i
  }

  predicate TwoDigitsAt(s: string, i: int) {
    0 <= i && i + 2 <= |s| && IsDigit(s[i]) && IsDigit(s[i + 1])
  }

  /** `int()` of the two digits at `i`. */
  function TwoDigitValue(s: string, i: int): (n: nat)
    requires TwoDigitsAt(s, i)
    ensures n < 100
  {
    10 * DigitValue(s[i]) + DigitValue(s[i + 1])
  }

  /** Where the separators start after "age" or "aged" at `p`. */
  function AgeWordEnd(s: string, p: int): (q: nat)
    requires StartsAt(s, p, "age")
    ensures p + 3 <= q <= |s|
  {
    if p + 3 < |s| && s[p + 3] == 'd' then p + 4 else p + 3
  }

  /** The first alternative, `(?:age|aged?)\s*[:\s]*(\d{2})`, matches at `p`:
      "age" or "aged", any run of colons and whitespace, two digits. The
      run is always taken whole, since giving back a separator never puts
      a digit in its place. */
  predicate AgeWordMatch(s: string, p: int) {
    StartsAt(s, p, "age") && TwoDigitsAt(s, SeparatorRunEnd(s, AgeWordEnd(s, p)))
  }

  /** `(?=-year-old|year\s*old)` holds at `q`. */
  predicate YearOldAt(s: string, q: nat)
    requires q <= |s|
  {
    || StartsAt(s, q, "-year-old")
    || (StartsAt(s, q, "year") && StartsAt(s, SpaceRunEnd(s, q + 4), "old"))
  }

  /** The second alternative, `(\d{2})\s*(?=-year-old|year\s*old)`, matches
      at `p`. */
  predicate NumberYearMatch(s: string, p: int) {
    TwoDigitsAt(s, p) && YearOldAt(s, SpaceRunEnd(s, p + 2))
  }

  predicate AgeMatchAt(s: string, p: int) {
    AgeWordMatch(s, p) || NumberYearMatch(s, p)
  }

  /** `group(1) or group(2)` of a match at `p`, as a number. */
  function AgeValueAt(s: string, p: int): (n: nat)
    requires AgeMatchAt(s, p)
    ensures n < 100
  {
    if AgeWordMatch(s, p) then TwoDigitValue(s, SeparatorRunEnd(s, AgeWordEnd(s, p)))
    else TwoDigitValue(s, p)
  }

  /** `re.search` from `from` on: the leftmost position where the pattern
      matches. */
  function FindAgeFrom(s: string, from: nat): (r: Option<nat>)
    ensures r.Some? ==> from <= r.value < |s| && AgeMatchAt(s, r.value)
    ensures r.Some? ==> forall q :: from <= q < r.value ==> !AgeMatchAt(s, q)
    ensures r.None? ==> forall q :: from <= q ==> !AgeMatchAt(s, q)
    decreases |s| - from
  {
    if from >= |s| then None
    else if AgeMatchAt(s, from) then Some(from)
    else FindAgeFrom(s, from + 1)
  }

  /** The age the findings state, if the pattern finds one. */
  function FindAge(findingsLower: string): Option<nat> {
    match FindAgeFrom(findingsLower, 0)
    case None => None
    case Some(p) => Some(AgeValueAt(findingsLower, p))
  }

  /** The age found is that of the leftmost match, and always two digits. */
  lemma FindAgeSpec(findingsLower: string)
    ensures FindAge(findingsLower).Some? ==>
              exists p :: AgeMatchAt(findingsLower, p) && FindAge(findingsLower).value == AgeValueAt(findingsLower, p)
                          && forall q :: 0 <= q < p ==> !AgeMatchAt(findingsLower, q)
    ensures FindAge(findingsLower).None? <==> forall q :: 0 <= q ==> !AgeMatchAt(findingsLower, q)
    ensures FindAge(findingsLower).Some? ==> FindAge(findingsLower).value < 100
  {
  }

  /** "Age 55" reads as 55. */
  lemma AgeFormPlain()
    ensures FindAge("age 55") == Some(55)
  {
    var s := "age 55";
    assert s[..3] == "age";
    assert SeparatorRunEnd(s, 3) == 4 by {
      assert IsAgeSeparator(s[3]) && !IsAgeSeparator(s[4]);
    }
    assert AgeWordMatch(s, 0);
  }

  /** "Aged: 61" reads as 61. */
  lemma AgeFormAged()
    ensures FindAge("aged: 61") == Some(61)
  {
    var s := "aged: 61";
    assert s[..3] == "age";
    assert AgeWordEnd(s, 0) == 4;
    assert SeparatorRunEnd(s, 4) == 6 by {
      assert IsAgeSeparator(s[4]) && IsAgeSeparator(s[5]) && !IsAgeSeparator(s[6]);
    }
    assert AgeWordMatch(s, 0);
  }

  /** "47-year-old" reads as 47, found past the words before it. */
  lemma AgeFormHyphenated()
    ensures FindAge("a 47-year-old") == Some(47)
  {
    var s := "a 47-year-old";
    HyphenatedNoEarlierMatch();
    HyphenatedMatch();
    assert FindAgeFrom(s, 2) == Some(2);
    assert FindAgeFrom(s, 1) == Some(2);
    assert !StartsAt(s, 2, "age") by {
      assert s[2] == '4';
    }
    assert AgeValueAt(s, 2) == TwoDigitValue(s, 2);
  }

  lemma HyphenatedNoEarlierMatch()
    ensures !AgeMatchAt("a 47-year-old", 0) && !AgeMatchAt("a 47-year-old", 1)
  {
    var s := "a 47-year-old";
    assert !StartsAt(s, 0, "age") && !TwoDigitsAt(s, 0) by {
      assert s[1] == ' ';
    }
    assert !StartsAt(s, 1, "age") && !TwoDigitsAt(s, 1) by {
      assert s[1] == ' ';
    }
  }

  lemma HyphenatedMatch()
    ensures NumberYearMatch("a 47-year-old", 2)
  {
    var s := "a 47-year-old";
    assert SpaceRunEnd(s, 4) == 4 by {
      assert s[4] == '-';
    }
    assert s[4..13] == "-year-old";
  }

  /** "52 year old" reads as 52. */
  lemma AgeFormSpaced()
    ensures FindAge("52 year old") == Some(52)
  {
    var s := "52 year old";
    assert SpaceRunEnd(s, 2) == 3 by {
      assert IsSpace(s[2]) && !IsSpace(s[3]);
    }
    assert s[3..7] == "year";
    assert SpaceRunEnd(s, 7) == 8 by {
      assert IsSpace(s[7]) && !IsSpace(s[8]);
    }
    assert s[8..11] == "old";
    assert NumberYearMatch(s, 0);
  }

  // ---------------------------------------------------------------------
  // The warnings

  /** One required section: the keyword looked for and the label reported (`text`). */
  datatype RequiredSection = RequiredSection(keyword: string, text: string)

  const RequiredSections: seq<RequiredSection> := [
    RequiredSection("POTENTIALLY MATCHING LISTINGS", "Listing identification section"),
    RequiredSection("CRITERIA ANALYSIS", "Criteria analysis section"),
    RequiredSection("EVIDENCE GAPS", "Evidence gaps section"),
    RequiredSection("STRENGTH ASSESSMENT", "Strength assessment section"),
    RequiredSection("STRATEGIC PATHWAY RANKING", "Strategic pathway ranking"),
    RequiredSection("RFC", "RFC considerations section"),
    RequiredSection("STRENGTHS AND WEAKNESSES", "Case strengths and weaknesses"),
    RequiredSection("SOURCES", "Sources section with Blue Book links")
  ]

  function MissingMessage(r: RequiredSection): string {
    "Missing section: " + r.text
  }

  /** One message per required section whose keyword is absent, in table
      order. */
  function MissingSections(analysisUpper: string, sections: seq<RequiredSection>): seq<string> {
    if sections == [] then []
    else
      var last := sections[|sections| - 1];
      MissingSections(analysisUpper, sections[..|sections| - 1])
      + (if !Contains(analysisUpper, last.keyword) then [MissingMessage(last)] else [])
  }

  /** `AGE ERROR: Patient is {age} years old = "{category}". ` */
  function AgeErrorHead(age: nat): string {
    "AGE ERROR: Patient is " + NatToString(age) + " years old = \"" + AgeCategory(age) + "\". "
  }

  function TooOldMessage(age: nat): string {
    AgeErrorHead(age) + "Analysis incorrectly says \"closely approaching advanced age\" (that category is for ages 50-54 only)."
  }

  function WrongCategoryMessage(age: nat): string {
    AgeErrorHead(age) + "Analysis may have the wrong age category."
  }

  /** The age warnings for a claimant aged `age`. */
  function AgeWarnings(age: nat, analysisLower: string): seq<string> {
    (if age >= 55 && Contains(analysisLower, Closely) then [TooOldMessage(age)] else [])
    + (if 50 <= age < 55 && Contains(analysisLower, Advanced) && !Contains(analysisLower, Closely)
       then [WrongCategoryMessage(age)]
       else [])
  }

  const VisionKeywords: seq<string> :=
    ["visual acuity", "snellen", "retinopathy", "visual field", "vision loss", "macular", "optic"]

  const HearingContaminants: seq<string> :=
    ["audiologist", "audiometric", "otoscopic", "hearing evaluation", "cochlear", "audiological"]

  const CalculationGap: string :=
    "CALCULATION GAP: " + "Analysis says values 'cannot be calculated' or 'cannot be determined' despite visual acuity data being available. Use the Visual Acuity Reference Table to look up exact values."

  /** `any(kw in findings_lower for kw in vision_keywords)`: a plain
      substring test, not a whole-word one. */
  predicate IsVisionCase(findingsLower: string) {
    exists k :: 0 <= k < |VisionKeywords| && Contains(findingsLower, VisionKeywords[k])
  }

  /** The terms of `terms` that occur in the analysis, in order. */
  function FoundTerms(analysisLower: string, terms: seq<string>): (found: seq<string>)
    ensures forall t :: t in found <==> t in terms && Contains(analysisLower, t)
  {
    if terms == [] then []
    else
      var last := terms[|terms| - 1];
      assert terms == terms[..|terms| - 1] + [last];
      FoundTerms(analysisLower, terms[..|terms| - 1]) + (if Contains(analysisLower, last) then [last] else [])
  }

  function ContaminationMessage(found: seq<string>): string {
    "CONTAMINATION WARNING: " + "Vision case contains hearing-related recommendations: " + Join(found, ", ") + ". These should be removed."
  }

  /** The warnings of the vision checks. */
  function VisionWarnings(findingsLower: string, analysisLower: string): seq<string> {
    if !IsVisionCase(findingsLower) then []
    else
      var found := FoundTerms(analysisLower, HearingContaminants);
      (if Contains(analysisLower, "cannot be calculated") || Contains(analysisLower, "cannot be determined")
       then [CalculationGap] else [])
      + (if found != [] then [ContaminationMessage(found)] else [])
  }

  /** The age warnings, when the findings state an age. */
  function AgeFound(findingsLower: string, analysisLower: string): seq<string> {
    match FindAge(findingsLower)
    case None => []
    case Some(age) => AgeWarnings(age, analysisLower)
  }

  /** What `_validate_analysis(analysis, medical_findings)` returns. */
  function Warnings(analysis: string, medicalFindings: string): seq<string> {
    var findingsLower := Lower(medicalFindings);
    MissingSections(Upper(analysis), RequiredSections)
    + AgeFound(findingsLower, Lower(analysis))
    + VisionWarnings(findingsLower, Lower(analysis))
  }

  method ValidateAnalysis(analysis: string, medicalFindings: string) returns (warnings: seq<string>)
    ensures warnings == Warnings(analysis, medicalFindings)
  {
    warnings := SectionWarnings(Upper(analysis));
    var findingsLower := Lower(medicalFindings);
    var agePart := AgeChecks(findingsLower, Lower(analysis));
    warnings := warnings + agePart;
    var visionPart := VisionChecks(findingsLower, Lower(analysis));
    warnings := warnings + visionPart;
  }

  /** The age check: the age the findings state against the category the
      analysis uses. */
  method AgeChecks(findingsLower: string, analysisLower: string) returns (warnings: seq<string>)
    ensures warnings == AgeFound(findingsLower, analysisLower)
  {
    warnings := [];
    var ageMatch := FindAgeFrom(findingsLower, 0);
    if ageMatch.Some? {
      var age := AgeValueAt(findingsLower, ageMatch.value);
      assert AgeFound(findingsLower, analysisLower) == AgeWarnings(age, analysisLower);
      if age >= 55 && Contains(analysisLower, Closely) {
        warnings := warnings + [TooOldMessage(age)];
      }
      if age >= 50 && age < 55 && Contains(analysisLower, Advanced) {
        if !Contains(analysisLower, Closely) {
          warnings := warnings + [WrongCategoryMessage(age)];
        }
      }
    } else {
      assert AgeFound(findingsLower, analysisLower) == [];
    }
  }

  /** The vision checks: the refusal phrases, then the hearing terms. */
  method VisionChecks(findingsLower: string, analysisLower: string) returns (warnings: seq<string>)
    ensures warnings == VisionWarnings(findingsLower, analysisLower)
  {
    warnings := [];
    var hasVision := HasVisionKeyword(findingsLower);
    if hasVision {
      if Contains(analysisLower, "cannot be calculated") || Contains(analysisLower, "cannot be determined") {
        warnings := warnings + [CalculationGap];
      }
    }
    if hasVision {
      var found := FoundTerms(analysisLower, HearingContaminants);
      if found != [] {
        warnings := warnings + [ContaminationMessage(found)];
      }
    }
  }

  /** The first loop: one message per missing required section. */
  method SectionWarnings(analysisUpper: string) returns (warnings: seq<string>)
    ensures warnings == MissingSections(analysisUpper, RequiredSections)
  {
    warnings := [];
    var i := 0;
    while i < |RequiredSections|
      invariant 0 <= i <= |RequiredSections|
      invariant warnings == MissingSections(analysisUpper, RequiredSections[..i])
    {
      assert RequiredSections[..i + 1][..i] == RequiredSections[..i];
      if !Contains(analysisUpper, RequiredSections[i].keyword) {
        warnings := warnings + ["Missing section: " + RequiredSections[i].text];
      }
      i := i + 1;
    }
    assert RequiredSections[..|RequiredSections|] == RequiredSections;
  }

  /** `any(kw in findings_lower for kw in vision_keywords)`, keyword by
      keyword. */
  method HasVisionKeyword(findingsLower: string) returns (hasVision: bool)
    ensures hasVision == IsVisionCase(findingsLower)
  {
    hasVision := false;
    var k := 0;
    while k < |VisionKeywords| && !hasVision
      invariant 0 <= k <= |VisionKeywords|
      invariant hasVision <==> exists j :: 0 <= j < k && Contains(findingsLower, VisionKeywords[j])
    {
      hasVision := Contains(findingsLower, VisionKeywords[k]);
      k := k + 1;
    }
  }

  // ---------------------------------------------------------------------
  // Properties

  /** A section warning is reported exactly for each absent keyword. */
  lemma {:induction false} MissingSectionsSpec(analysisUpper: string, sections: seq<RequiredSection>)
    ensures forall r :: r in sections && !Contains(analysisUpper, r.keyword) ==>
              MissingMessage(r) in MissingSections(analysisUpper, sections)
    ensures forall m :: m in MissingSections(analysisUpper, sections) ==>
              exists r :: r in sections && !Contains(analysisUpper, r.keyword) && m == MissingMessage(r)
    ensures |MissingSections(analysisUpper, sections)| <= |sections|
    ensures MissingSections(analysisUpper, sections) == [] <==>
              forall r :: r in sections ==> Contains(analysisUpper, r.keyword)
  {
    if sections != [] {
      var init := sections[..|sections| - 1];
      assert sections == init + [sections[|sections| - 1]];
      MissingSectionsSpec(analysisUpper, init);
    }
  }

  /** No two required sections share a label. */
  predicate LabelsDistinct(sections: seq<RequiredSection>) {
    forall i, j :: 0 <= i < j < |sections| ==> sections[i].text != sections[j].text
  }

  lemma RequiredLabelsDistinct()
    ensures LabelsDistinct(RequiredSections)
  {
  }

  /** Distinct labels give distinct messages: no heading is reported
      twice. */
  lemma {:induction false} MissingSectionsDistinct(analysisUpper: string, sections: seq<RequiredSection>)
    requires LabelsDistinct(sections)
    ensures forall i, j :: 0 <= i < j < |MissingSections(analysisUpper, sections)| ==>
              MissingSections(analysisUpper, sections)[i] != MissingSections(analysisUpper, sections)[j]
  {
    if sections != [] {
      var n := |sections| - 1;
      var init, last := sections[..n], sections[n];
      assert LabelsDistinct(init) by {
        forall i, j | 0 <= i < j < |init| ensures init[i].text != init[j].text {
          assert init[i] == sections[i] && init[j] == sections[j];
        }
      }
      MissingSectionsDistinct(analysisUpper, init);
      MissingSectionsSpec(analysisUpper, init);
      var before := MissingSections(analysisUpper, init);
      if !Contains(analysisUpper, last.keyword) {
        var m := MissingMessage(last);
        forall k | 0 <= k < |before| ensures before[k] != m {
          assert before[k] in before;
          var r :| r in init && !Contains(analysisUpper, r.keyword) && before[k] == MissingMessage(r);
          var i :| 0 <= i < |init| && init[i] == r;
          assert sections[i] == r;
          assert MissingMessage(r)[|"Missing section: "|..] == r.text;
          assert m[|"Missing section: "|..] == last.text;
        }
        assert MissingSections(analysisUpper, sections) == before + [m];
      }
    }
  }

  /** `_validate_analysis` reports each missing heading at most once. */
  lemma SectionWarningsDistinct(analysis: string)
    ensures forall i, j :: 0 <= i < j < |MissingSections(Upper(analysis), RequiredSections)| ==>
              MissingSections(Upper(analysis), RequiredSections)[i] != MissingSections(Upper(analysis), RequiredSections)[j]
  {
    RequiredLabelsDistinct();
    MissingSectionsDistinct(Upper(analysis), RequiredSections);
  }

  /** No section warning exactly when every required keyword occurs,
      whatever the case of the headings. */
  lemma SectionWarningsIffComplete(analysis: string)
    ensures MissingSections(Upper(analysis), RequiredSections) == [] <==>
            forall k :: 0 <= k < |RequiredSections| ==> Contains(Upper(analysis), RequiredSections[k].keyword)
  {
    MissingSectionsSpec(Upper(analysis), RequiredSections);
  }

  /** The "closely approaching" error is raised exactly when a claimant of
      55 or more is given that category; the "wrong category" notice
      exactly when a claimant of 50 to 54 is called "advanced age" without
      the "closely approaching" phrase. */
  lemma AgeWarningsSpec(age: nat, analysisLower: string)
    ensures |AgeWarnings(age, analysisLower)| <= 1
    ensures AgeWarnings(age, analysisLower) != [] <==>
              (age >= 55 && Contains(analysisLower, Closely))
              || (50 <= age < 55 && Contains(analysisLower, Advanced) && !Contains(analysisLower, Closely))
    ensures age < 50 ==> AgeWarnings(age, analysisLower) == []
  {
  }

  /** An analysis that names the right category for a claimant of 55 or
      more draws no age warning. */
  lemma CorrectAdvancedAgePasses(age: nat, analysisLower: string)
    requires 55 <= age
    requires !Contains(analysisLower, Closely)
    ensures AgeWarnings(age, analysisLower) == []
  {
  }

  lemma MessagesDiffer(found: seq<string>)
    ensures ContaminationMessage(found) != CalculationGap
  {
    assert ContaminationMessage(found)[1] == 'O';
    assert CalculationGap[1] == 'A';
  }

  /** The vision checks fire only for vision cases; a calculation warning
      only on a refusal phrase; a contamination warning exactly when a
      hearing term occurs, and it names every such term. */
  lemma VisionWarningsSpec(findingsLower: string, analysisLower: string)
    ensures !IsVisionCase(findingsLower) ==> VisionWarnings(findingsLower, analysisLower) == []
    ensures CalculationGap in VisionWarnings(findingsLower, analysisLower) <==>
              IsVisionCase(findingsLower)
              && (Contains(analysisLower, "cannot be calculated") || Contains(analysisLower, "cannot be determined"))
    ensures IsVisionCase(findingsLower) ==>
              ((exists k :: 0 <= k < |HearingContaminants| && Contains(analysisLower, HearingContaminants[k])) <==>
               ContaminationMessage(FoundTerms(analysisLower, HearingContaminants)) in VisionWarnings(findingsLower, analysisLower))
  {
    var found := FoundTerms(analysisLower, HearingContaminants);
    if IsVisionCase(findingsLower) {
      MessagesDiffer(found);
      FoundTermsNonEmpty(analysisLower);
    }
  }

  /** Some hearing term occurs exactly when the list of those found is not
      empty. */
  lemma FoundTermsNonEmpty(analysisLower: string)
    ensures (exists k :: 0 <= k < |HearingContaminants| && Contains(analysisLower, HearingContaminants[k])) <==>
            FoundTerms(analysisLower, HearingContaminants) != []
  {
    var found := FoundTerms(analysisLower, HearingContaminants);
    if exists k :: 0 <= k < |HearingContaminants| && Contains(analysisLower, HearingContaminants[k]) {
      var k :| 0 <= k < |HearingContaminants| && Contains(analysisLower, HearingContaminants[k]);
      assert HearingContaminants[k] in found;
    }
    if found != [] {
      assert found[0] in HearingContaminants;
    }
  }

  /** No age warning exactly when no age is stated, or neither age
      condition holds for the stated one. */
  lemma AgeFoundEmpty(findingsLower: string, analysisLower: string)
    ensures AgeFound(findingsLower, analysisLower) == [] <==>
      (FindAge(findingsLower).Some? ==>
         !(FindAge(findingsLower).value >= 55 && Contains(analysisLower, Closely))
         && !(50 <= FindAge(findingsLower).value < 55 && Contains(analysisLower, Advanced) && !Contains(analysisLower, Closely)))
  {
    if FindAge(findingsLower).Some? {
      AgeWarningsSpec(FindAge(findingsLower).value, analysisLower);
    }
  }

  /** No vision warning exactly when the case is not a vision case, or the
      analysis has neither a refusal phrase nor a hearing term. */
  lemma VisionWarningsEmpty(findingsLower: string, analysisLower: string)
    ensures VisionWarnings(findingsLower, analysisLower) == [] <==>
      (IsVisionCase(findingsLower) ==>
         && !Contains(analysisLower, "cannot be calculated")
         && !Contains(analysisLower, "cannot be determined")
         && (forall k :: 0 <= k < |HearingContaminants| ==> !Contains(analysisLower, HearingContaminants[k])))
  {
    FoundTermsNonEmpty(analysisLower);
  }

  /** The analysis passes validation exactly when no check fires: every
      required keyword occurs, no age warning applies to an age stated in
      the findings, and in a vision case there is neither a refusal phrase
      nor a hearing term. */
  lemma WarningsEmptySpec(analysis: string, medicalFindings: string)
    ensures Warnings(analysis, medicalFindings) == [] <==>
      && (forall k :: 0 <= k < |RequiredSections| ==> Contains(Upper(analysis), RequiredSections[k].keyword))
      && AgeFound(Lower(medicalFindings), Lower(analysis)) == []
      && VisionWarnings(Lower(medicalFindings), Lower(analysis)) == []
  {
    SectionWarningsIffComplete(analysis);
  }

  /** Validation ignores the case of the findings: the same warnings come
      back for upper-cased findings. */
  lemma WarningsIgnoreFindingsCase(analysis: string, medicalFindings: string)
    ensures Warnings(analysis, Upper(medicalFindings)) == Warnings(analysis, medicalFindings)
  {
    LowerOfUpper(medicalFindings);
  }
}
