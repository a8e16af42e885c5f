/** Properties of the trust analyzer. The step-by-step model in `Analyzer`
    is related to a closed-form description of its outcome (the matched
    rules' weights, the gated penalties, the reasons grouped by kind), and
    the promises of `analyzeJob` are proved from that description. */
module TrustProperties {
  import opened Strings
  import opened Catalog
  import opened Analyzer
  import Caps

  /** Points taken off by the rules of catalog `rules` that match `text`. */
  function RuleDeduction(rules: seq<Rule>, matches: Matcher, text: string): nat {
    SumWeights(Matched(rules, matches, text))
  }

  function ShortPenalty(text: string): nat {
    if |text| < ShortLength then ShortWeight else 0
  }

  predicate Missing(matches: Matcher, text: string, s: SectionPattern) {
    !matches(Section(s), text)
  }

  /** A missing section is penalised only above its length gate. */
  predicate ResponsibilitiesPenalised(matches: Matcher, text: string) {
    Missing(matches, text, Responsibilities) && |text| > ResponsibilitiesGate
  }

  predicate QualificationsPenalised(matches: Matcher, text: string) {
    Missing(matches, text, Qualifications) && |text| > QualificationsGate
  }

  predicate CompanyInfoPenalised(matches: Matcher, text: string) {
    Missing(matches, text, CompanyInfo) && |text| > CompanyInfoGate
  }

  function SectionPenalty(matches: Matcher, text: string): nat {
    (if ResponsibilitiesPenalised(matches, text) then MissingResponsibilitiesWeight else 0)
    + (if QualificationsPenalised(matches, text) then MissingQualificationsWeight else 0)
    + (if CompanyInfoPenalised(matches, text) then MissingCompanyInfoWeight else 0)
  }

  function SectionReasons(matches: Matcher, text: string): seq<Reason> {
    (if ResponsibilitiesPenalised(matches, text) then [MissingResponsibilities] else [])
    + (if QualificationsPenalised(matches, text) then [MissingQualifications] else [])
    + (if CompanyInfoPenalised(matches, text) then [MissingCompanyInfo] else [])
  }

  function SignalReasons(matches: Matcher, text: string): seq<Reason> {
    (if |text| > DetailedLength && !Missing(matches, text, Responsibilities) && !Missing(matches, text, Qualifications)
     then [DetailedPosting] else [])
    + (if matches(Signal(BenefitsWords), text) then [BenefitsMentioned] else [])
    + (if matches(Signal(EqualOpportunityWords), text) then [EqualOpportunityStatement] else [])
  }

  /** Everything the detailed analysis collects before the default reason,
      grouped by kind: red flags in catalog order, the short-description
      reason, missing sections, positive signals. */
  function CollectedReasons(rules: seq<Rule>, matches: Matcher, text: string): seq<Reason> {
    FlagReasons(Matched(rules, matches, text))
    + (if |text| < ShortLength then [ShortDescription] else [])
    + SectionReasons(matches, text)
    + SignalReasons(matches, text)
  }

  /** The reasons the analysis records: none without the flag; with it, the
      collected ones, or the single default reason when there are none. */
  function ExpectedReasons(rules: seq<Rule>, matches: Matcher, text: string, includeReasons: bool): seq<Reason> {
    if !includeReasons then []
    else if CollectedReasons(rules, matches, text) == [] then [NoRedFlags]
    else CollectedReasons(rules, matches, text)
  }

  /** The score before clamping: 100 less every deduction that applies. The
      section penalties apply only with the flag. */
  function RawScore(rules: seq<Rule>, matches: Matcher, text: string, includeReasons: bool): int {
    InitialScore - RuleDeduction(rules, matches, text) - ShortPenalty(text)
    - (if includeReasons then SectionPenalty(matches, text) else 0)
  }

  lemma SectionPassEffect(text: string, matches: Matcher, t: Tally)
    ensures SectionPass(text, matches, t)
      == Tally(t.score - SectionPenalty(matches, text), t.reasons + SectionReasons(matches, text))
  {
    var a := if ResponsibilitiesPenalised(matches, text) then [MissingResponsibilities] else [];
    var b := if QualificationsPenalised(matches, text) then [MissingQualifications] else [];
    var c := if CompanyInfoPenalised(matches, text) then [MissingCompanyInfo] else [];
    assert t.reasons + a + b + c == t.reasons + (a + b + c);
  }

  lemma SignalPassEffect(text: string, matches: Matcher, t: Tally)
    ensures SignalPass(text, matches, t) == Tally(t.score, t.reasons + SignalReasons(matches, text))
  {
    var a := if |text| > DetailedLength && !Missing(matches, text, Responsibilities) && !Missing(matches, text, Qualifications)
      then [DetailedPosting] else [];
    var b := if matches(Signal(BenefitsWords), text) then [BenefitsMentioned] else [];
    var c := if matches(Signal(EqualOpportunityWords), text) then [EqualOpportunityStatement] else [];
    assert t.reasons + a + b + c == t.reasons + (a + b + c);
  }

  /** The capitals heuristic leaves every tally as it found it, because it
      searches the lower-cased posting. */
  lemma CapsPassIsIdentity(jobText: string, includeReasons: bool, t: Tally)
    ensures CapsPass(Lower(jobText), includeReasons, t) == t
  {
    Caps.CapsNeverFoundAfterLowering(jobText);
  }


  /** The step-by-step analysis ends with the closed-form score and reasons. */
  lemma CollectIsReference(rules: seq<Rule>, jobText: string, includeReasons: bool, matches: Matcher)
    ensures Collect(rules, jobText, includeReasons, matches)
      == Tally(RawScore(rules, matches, Lower(jobText), includeReasons),
               ExpectedReasons(rules, matches, Lower(jobText), includeReasons))
  {
    var text := Lower(jobText);
    var flags := FlagReasons(Matched(rules, matches, text));
    var t1 := FlagPass(rules, matches, text, includeReasons, Tally(InitialScore, []));
    assert t1 == Tally(InitialScore - RuleDeduction(rules, matches, text), if includeReasons then flags else []);
    var t2 := ShortPass(text, includeReasons, t1);
    var short := if |text| < ShortLength then [ShortDescription] else [];
    assert t2 == Tally(t1.score - ShortPenalty(text), if includeReasons then flags + short else []);
    CapsPassIsIdentity(jobText, includeReasons, t2);
    if includeReasons {
      SectionPassEffect(text, matches, t2);
      var t4 := SectionPass(text, matches, t2);
      SignalPassEffect(text, matches, t4);
      var t5 := SignalPass(text, matches, t4);
      assert t5.reasons == CollectedReasons(rules, matches, text);
    }
  }

  /** The returned reasons are the first six recorded reasons, rendered, in
      the order they were recorded. */
  lemma ReasonsArePrefix(rules: seq<Rule>, jobText: string, includeReasons: bool, matches: Matcher)
    ensures AnalyzeWith(rules, jobText, includeReasons, matches).reasons
      == RenderAll(Take(ExpectedReasons(rules, matches, Lower(jobText), includeReasons), ReasonCap))
  {
    CollectIsReference(rules, jobText, includeReasons, matches);
  }

  /** The recorded reasons open with one reason per matched rule, in
      catalog order: the k-th reason belongs to the k-th matched position,
      and the positions strictly increase. */
  lemma FlagReasonsInCatalogOrder(rules: seq<Rule>, jobText: string, matches: Matcher)
    ensures var text := Lower(jobText);
      var ps := MatchedPositions(rules, matches, text, 0);
      var rs := ExpectedReasons(rules, matches, text, true);
      && StrictlyIncreasing(ps)
      && |ps| <= |rs|
      && (forall k :: 0 <= k < |ps| ==> rs[k] == Flagged(rules[ps[k]]))
  {
    var text := Lower(jobText);
    MatchedPositionsIncrease(rules, matches, text, 0);
    MatchedAtPositions(rules, matches, text, 0);
    assert rules[0..] == rules;
    var flags := FlagReasons(Matched(rules, matches, text));
    var short: seq<Reason> := if |text| < ShortLength then [ShortDescription] else [];
    var c := CollectedReasons(rules, matches, text);
    assert c == flags + (short + SectionReasons(matches, text) + SignalReasons(matches, text));
    assert c[..|flags|] == flags;
  }

  /** The returned score is the clamped closed-form score. */
  lemma ScoreIsClampedRaw(rules: seq<Rule>, jobText: string, includeReasons: bool, matches: Matcher)
    ensures AnalyzeWith(rules, jobText, includeReasons, matches).score
      == Clamp(RawScore(rules, matches, Lower(jobText), includeReasons))
  {
    CollectIsReference(rules, jobText, includeReasons, matches);
  }

  /** Without the flag there are no reasons, and the score is exactly the
      clamped 100 less the matched rules' weights and the short penalty. */
  lemma ScoreWithoutReasons(rules: seq<Rule>, jobText: string, matches: Matcher)
    ensures var text := Lower(jobText);
      AnalyzeWith(rules, jobText, false, matches).score
        == Clamp(InitialScore - RuleDeduction(rules, matches, text) - ShortPenalty(text))
    ensures AnalyzeWith(rules, jobText, false, matches).reasons == []
  {
    ScoreIsClampedRaw(rules, jobText, false, matches);
  }

  /** With the flag the missing-section penalties come on top, so asking
      for reasons can only lower the score. */
  lemma ReasonsFlagOnlyLowersScore(rules: seq<Rule>, jobText: string, matches: Matcher)
    ensures var text := Lower(jobText);
      AnalyzeWith(rules, jobText, true, matches).score
        == Clamp(RawScore(rules, matches, text, false) - SectionPenalty(matches, text))
    ensures AnalyzeWith(rules, jobText, true, matches).score <= AnalyzeWith(rules, jobText, false, matches).score
  {
    var text := Lower(jobText);
    ScoreIsClampedRaw(rules, jobText, true, matches);
    ScoreIsClampedRaw(rules, jobText, false, matches);
    ClampMonotone(RawScore(rules, matches, text, true), RawScore(rules, matches, text, false));
  }

  /** With the red-flag catalog the unclamped score lies between
      100 - (193 + 10 + 21) and 100: the clamp is what keeps the result
      inside [0, 100]. */
  lemma RawScoreRange(matches: Matcher, text: string, includeReasons: bool)
    ensures InitialScore - (193 + ShortWeight + 21) <= RawScore(RedFlags, matches, text, includeReasons) <= InitialScore
  {
    CatalogTotal();
    MatchedWeightBound(RedFlags, matches, text);
  }

  /** When every red-flag pattern matches, every rule is selected. */
  lemma {:induction false} MatchedAll(rules: seq<Rule>, matches: Matcher, text: string)
    requires forall p: FlagPattern :: matches(Flag(p), text)
    ensures Matched(rules, matches, text) == rules
    decreases |rules|
  {
    if |rules| > 0 {
      MatchedAll(rules[1..], matches, text);
    }
  }

  /** A posting in which all fifteen red flags occur loses at least 193
      points, so the clamp raises its score to 0: Low Trust, with or without
      reasons. */
  lemma ClampRaisesToZero(jobText: string, includeReasons: bool, matches: Matcher)
    requires forall p: FlagPattern :: matches(Flag(p), Lower(jobText))
    ensures RawScore(RedFlags, matches, Lower(jobText), includeReasons) <= InitialScore - 193
    ensures Analyze(jobText, includeReasons, matches).score == 0
    ensures Analyze(jobText, includeReasons, matches).trustLabel == "Low Trust"
  {
    CatalogTotal();
    MatchedAll(RedFlags, matches, Lower(jobText));
    ScoreIsClampedRaw(RedFlags, jobText, includeReasons, matches);
  }

  lemma SectionReasonsKinds(matches: Matcher, text: string)
    ensures forall r :: r in SectionReasons(matches, text) ==>
      r.MissingResponsibilities? || r.MissingQualifications? || r.MissingCompanyInfo?
    ensures MissingResponsibilities in SectionReasons(matches, text) <==> ResponsibilitiesPenalised(matches, text)
    ensures MissingQualifications in SectionReasons(matches, text) <==> QualificationsPenalised(matches, text)
    ensures MissingCompanyInfo in SectionReasons(matches, text) <==> CompanyInfoPenalised(matches, text)
  {
  }

  lemma SignalReasonsKinds(matches: Matcher, text: string)
    ensures forall r :: r in SignalReasons(matches, text) ==>
      r.DetailedPosting? || r.BenefitsMentioned? || r.EqualOpportunityStatement?
  {
  }

  /** Which kinds of reason the collection can hold: never the default or
      the capitals reason, and a missing-section reason exactly when that
      section's penalty applies. */
  lemma CollectedKinds(rules: seq<Rule>, matches: Matcher, text: string)
    ensures var c := CollectedReasons(rules, matches, text);
      && NoRedFlags !in c
      && ExcessiveCaps !in c
      && (MissingResponsibilities in c <==> ResponsibilitiesPenalised(matches, text))
      && (MissingQualifications in c <==> QualificationsPenalised(matches, text))
      && (MissingCompanyInfo in c <==> CompanyInfoPenalised(matches, text))
  {
    var flags := FlagReasons(Matched(rules, matches, text));
    assert forall r :: r in flags ==> r.Flagged?;
    var short: seq<Reason> := if |text| < ShortLength then [ShortDescription] else [];
    assert forall r :: r in short ==> r.ShortDescription?;
    var sections := SectionReasons(matches, text);
    var signals := SignalReasons(matches, text);
    SectionReasonsKinds(matches, text);
    SignalReasonsKinds(matches, text);
    var c := CollectedReasons(rules, matches, text);
    assert c == flags + short + sections + signals;
    InConcat(flags, short, sections, signals, NoRedFlags);
    InConcat(flags, short, sections, signals, ExcessiveCaps);
    InConcat(flags, short, sections, signals, MissingResponsibilities);
    InConcat(flags, short, sections, signals, MissingQualifications);
    InConcat(flags, short, sections, signals, MissingCompanyInfo);
  }

  lemma InConcat<T>(a: seq<T>, b: seq<T>, c: seq<T>, d: seq<T>, x: T)
    ensures x in a + b + c + d <==> x in a || x in b || x in c || x in d
  {
  }

  /** The section penalties apply exactly when the section is missing and
      the posting is longer than the section's gate (200, 200 and 300
      characters): the reason is recorded with the flag if and only if that
      holds, and never without the flag. */
  lemma SectionGating(rules: seq<Rule>, jobText: string, matches: Matcher)
    ensures var text := Lower(jobText);
      var rs := ExpectedReasons(rules, matches, text, true);
      && (MissingResponsibilities in rs <==> !matches(Section(Responsibilities), text) && |text| > 200)
      && (MissingQualifications in rs <==> !matches(Section(Qualifications), text) && |text| > 200)
      && (MissingCompanyInfo in rs <==> !matches(Section(CompanyInfo), text) && |text| > 300)
    ensures ExpectedReasons(rules, matches, Lower(jobText), false) == []
  {
    CollectedKinds(rules, matches, Lower(jobText));
  }

  /** With the flag the reason list is never empty, and the default reason
      is recorded exactly when nothing else was, and then alone. */
  lemma DefaultReasonExactly(rules: seq<Rule>, jobText: string, matches: Matcher)
    ensures var text := Lower(jobText);
      var rs := ExpectedReasons(rules, matches, text, true);
      && |rs| >= 1
      && (NoRedFlags in rs <==> CollectedReasons(rules, matches, text) == [])
      && (NoRedFlags in rs ==> rs == [NoRedFlags])
  {
    CollectedKinds(rules, matches, Lower(jobText));
  }

  /** The excessive-capitals penalty never applies: its reason is never
      recorded and it takes nothing off, whatever the posting and the flag. */
  lemma CapsPenaltyNeverApplies(rules: seq<Rule>, jobText: string, includeReasons: bool, matches: Matcher, t: Tally)
    ensures ExcessiveCaps !in Collect(rules, jobText, includeReasons, matches).reasons
    ensures CapsPass(Lower(jobText), includeReasons, t) == t
  {
    CollectIsReference(rules, jobText, includeReasons, matches);
    CollectedKinds(rules, matches, Lower(jobText));
    CapsPassIsIdentity(jobText, includeReasons, t);
  }

  /** The heuristic is dead only because it searches the lower-cased text:
      on sixteen runs of "ABC " the search would pass the limit of 15 and take
      off 4 points, while the same posting lower-cased loses nothing. */
  lemma CapsWouldFireOnOriginalText(includeReasons: bool, t: Tally)
    ensures var posting := Caps.Repeat("ABC ", CapsRunLimit + 1);
      && Caps.CapsRunCount(posting) > CapsRunLimit
      && CapsPass(posting, includeReasons, t).score == t.score - CapsWeight
      && CapsPass(Lower(posting), includeReasons, t) == t
  {
    var posting := Caps.Repeat("ABC ", CapsRunLimit + 1);
    Caps.RepeatedRunsCount(CapsRunLimit + 1);
    CapsPassIsIdentity(posting, includeReasons, t);
  }

  /** Positive signals never change the score: two matchers that differ only
      on the positive-signal patterns give the same score. */
  lemma SignalsDoNotAffectScore(rules: seq<Rule>, jobText: string, includeReasons: bool, m1: Matcher, m2: Matcher)
    requires forall p: Pattern :: !p.Signal? ==> m1(p, Lower(jobText)) == m2(p, Lower(jobText))
    ensures AnalyzeWith(rules, jobText, includeReasons, m1).score == AnalyzeWith(rules, jobText, includeReasons, m2).score
  {
    var text := Lower(jobText);
    SameMatchesSameRules(rules, m1, text, m2, text);
    assert m1(Section(Responsibilities), text) == m2(Section(Responsibilities), text);
    assert m1(Section(Qualifications), text) == m2(Section(Qualifications), text);
    assert m1(Section(CompanyInfo), text) == m2(Section(CompanyInfo), text);
    ScoreIsClampedRaw(rules, jobText, includeReasons, m1);
    ScoreIsClampedRaw(rules, jobText, includeReasons, m2);
  }

  /** Each rule deducts its weight once, as a presence test: when two
      matchers agree on everything but one rule of a well-formed catalog,
      matching that rule lowers the unclamped score by exactly the rule's
      weight, which is positive. */
  lemma MatchedRuleLowersScore(rules: seq<Rule>, i: nat, text: string, includeReasons: bool, m1: Matcher, m2: Matcher)
    requires WellFormed(rules)
    requires i < |rules|
    requires m1(Flag(rules[i].pattern), text) && !m2(Flag(rules[i].pattern), text)
    requires forall p :: p != Flag(rules[i].pattern) ==> m1(p, text) == m2(p, text)
    ensures RawScore(rules, m1, text, includeReasons) == RawScore(rules, m2, text, includeReasons) - rules[i].weight
    ensures RawScore(rules, m1, text, includeReasons) < RawScore(rules, m2, text, includeReasons)
  {
    assert forall p: FlagPattern :: p != rules[i].pattern ==> Flag(p) != Flag(rules[i].pattern);
    OneRuleDeductsItsWeight(rules, i, m1, m2, text);
    assert Section(Responsibilities) != Flag(rules[i].pattern);
    assert Section(Qualifications) != Flag(rules[i].pattern);
    assert Section(CompanyInfo) != Flag(rules[i].pattern);
  }

  /** Two texts on the same side of every length gate of the analysis. */
  predicate SameLengthClass(a: string, b: string) {
    && (|a| < ShortLength <==> |b| < ShortLength)
    && (|a| > ResponsibilitiesGate <==> |b| > ResponsibilitiesGate)
    && (|a| > QualificationsGate <==> |b| > QualificationsGate)
    && (|a| > CompanyInfoGate <==> |b| > CompanyInfoGate)
    && (|a| > DetailedLength <==> |b| > DetailedLength)
  }

  /** Two postings with the same pattern outcomes on their lower-cased texts
      and on the same side of every length gate get the same result: the
      analysis depends on whether each pattern occurs, not on how often. */
  lemma DependsOnlyOnPresence(rules: seq<Rule>, jobText1: string, m1: Matcher, jobText2: string, m2: Matcher, includeReasons: bool)
    requires forall p :: m1(p, Lower(jobText1)) == m2(p, Lower(jobText2))
    requires SameLengthClass(Lower(jobText1), Lower(jobText2))
    ensures AnalyzeWith(rules, jobText1, includeReasons, m1) == AnalyzeWith(rules, jobText2, includeReasons, m2)
  {
    var t1 := Lower(jobText1);
    var t2 := Lower(jobText2);
    SameMatchesSameRules(rules, m1, t1, m2, t2);
    assert m1(Section(Responsibilities), t1) == m2(Section(Responsibilities), t2);
    assert m1(Section(Qualifications), t1) == m2(Section(Qualifications), t2);
    assert m1(Section(CompanyInfo), t1) == m2(Section(CompanyInfo), t2);
    assert m1(Signal(BenefitsWords), t1) == m2(Signal(BenefitsWords), t2);
    assert m1(Signal(EqualOpportunityWords), t1) == m2(Signal(EqualOpportunityWords), t2);
    assert SectionReasons(m1, t1) == SectionReasons(m2, t2);
    assert SignalReasons(m1, t1) == SignalReasons(m2, t2);
    assert SectionPenalty(m1, t1) == SectionPenalty(m2, t2);
    assert CollectedReasons(rules, m1, t1) == CollectedReasons(rules, m2, t2);
    assert RawScore(rules, m1, t1, includeReasons) == RawScore(rules, m2, t2, includeReasons);
    assert ExpectedReasons(rules, m1, t1, includeReasons) == ExpectedReasons(rules, m2, t2, includeReasons);
    CollectIsReference(rules, jobText1, includeReasons, m1);
    CollectIsReference(rules, jobText2, includeReasons, m2);
    assert Collect(rules, jobText1, includeReasons, m1) == Collect(rules, jobText2, includeReasons, m2);
  }

  /** Total points the given reasons stand for. */
  function SumDeductions(rs: seq<Reason>): nat
    decreases |rs|
  {
    if |rs| == 0 then 0 else rs[0].Deduction() + SumDeductions(rs[1..])
  }

  lemma {:induction false} SumDeductionsAppend(a: seq<Reason>, b: seq<Reason>)
    ensures SumDeductions(a + b) == SumDeductions(a) + SumDeductions(b)
    decreases |a|
  {
    if |a| == 0 {
      assert a + b == b;
    } else {
      assert (a + b)[1..] == a[1..] + b;
      SumDeductionsAppend(a[1..], b);
    }
  }

  lemma {:induction false} FlagReasonsDeduct(rules: seq<Rule>)
    ensures SumDeductions(FlagReasons(rules)) == SumWeights(rules)
    decreases |rules|
  {
    if |rules| > 0 {
      assert FlagReasons(rules)[1..] == FlagReasons(rules[1..]);
      FlagReasonsDeduct(rules[1..]);
    }
  }

  lemma SectionReasonsDeduct(matches: Matcher, text: string)
    ensures SumDeductions(SectionReasons(matches, text)) == SectionPenalty(matches, text)
  {
    var a: seq<Reason> := if ResponsibilitiesPenalised(matches, text) then [MissingResponsibilities] else [];
    var b: seq<Reason> := if QualificationsPenalised(matches, text) then [MissingQualifications] else [];
    var c: seq<Reason> := if CompanyInfoPenalised(matches, text) then [MissingCompanyInfo] else [];
    SumDeductionsAppend(a, b);
    SumDeductionsAppend(a + b, c);
  }

  lemma SignalReasonsDeductNothing(matches: Matcher, text: string)
    ensures SumDeductions(SignalReasons(matches, text)) == 0
  {
    var d: seq<Reason> := if |text| > DetailedLength && !Missing(matches, text, Responsibilities) && !Missing(matches, text, Qualifications)
      then [DetailedPosting] else [];
    var e: seq<Reason> := if matches(Signal(BenefitsWords), text) then [BenefitsMentioned] else [];
    var f: seq<Reason> := if matches(Signal(EqualOpportunityWords), text) then [EqualOpportunityStatement] else [];
    SumDeductionsAppend(d, e);
    SumDeductionsAppend(d + e, f);
  }

  /** With the flag, the recorded reasons account for the score exactly:
      the points they stand for add up to 100 less the unclamped score. */
  lemma ReasonsAccountForScore(rules: seq<Rule>, jobText: string, matches: Matcher)
    ensures var t := Collect(rules, jobText, true, matches);
      InitialScore - t.score == SumDeductions(t.reasons)
  {
    var text := Lower(jobText);
    CollectIsReference(rules, jobText, true, matches);
    var flags := FlagReasons(Matched(rules, matches, text));
    var short: seq<Reason> := if |text| < ShortLength then [ShortDescription] else [];
    var sections := SectionReasons(matches, text);
    var signals := SignalReasons(matches, text);
    FlagReasonsDeduct(Matched(rules, matches, text));
    SumDeductionsAppend(flags, short);
    SumDeductionsAppend(flags + short, sections);
    SumDeductionsAppend(flags + short + sections, signals);
    SectionReasonsDeduct(matches, text);
    SignalReasonsDeductNothing(matches, text);
    assert SumDeductions([NoRedFlags]) == 0;
  }
}
