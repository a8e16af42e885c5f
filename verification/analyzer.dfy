/** The trust analyzer `analyzeJob` (content.js:22-94): a pure function from a
    job posting and an include-reasons flag to a score, a label, a colour and
    a capped list of reasons.

    The script mutates a running score and a reason list step by step; here
    each step is a function from one `Tally` to the next, composed in the
    script's order by `Collect`. */
module Analyzer {
  import opened Strings
  import opened Catalog
  import Caps

  const InitialScore: int := 100
  /** Postings shorter than this are penalised as suspiciously short. */
  const ShortLength: nat := 120
  const ShortWeight: nat := 10
  /** More capital runs than this would be penalised. */
  const CapsRunLimit: nat := 15
  const CapsWeight: nat := 4
  /** Length above which a missing section is penalised. */
  const ResponsibilitiesGate: nat := 200
  const QualificationsGate: nat := 200
  const CompanyInfoGate: nat := 300
  const MissingResponsibilitiesWeight: nat := 8
  const MissingQualificationsWeight: nat := 8
  const MissingCompanyInfoWeight: nat := 5
  /** Length above which a posting with both sections counts as detailed. */
  const DetailedLength: nat := 500
  /** At most this many reasons are returned. */
  const ReasonCap: nat := 6
  const HighTrustFloor: int := 80
  const MediumTrustFloor: int := 50

  /** One reason the analysis may report. */
  datatype Reason =
    | Flagged(rule: Rule)
    | ShortDescription
    | ExcessiveCaps
    | MissingResponsibilities
    | MissingQualifications
    | MissingCompanyInfo
    | DetailedPosting
    | BenefitsMentioned
    | EqualOpportunityStatement
    | NoRedFlags
  {
    /** Points this reason takes off the score; positive signals and the
        default reason take off none. */
    function Deduction(): nat {
      match this
      case Flagged(rule) => rule.weight
      case ShortDescription => ShortWeight
      case ExcessiveCaps => CapsWeight
      case MissingResponsibilities => MissingResponsibilitiesWeight
      case MissingQualifications => MissingQualificationsWeight
      case MissingCompanyInfo => MissingCompanyInfoWeight
      case _ => 0
    }

    predicate IsPositive() {
      DetailedPosting? || BenefitsMentioned? || EqualOpportunityStatement? || NoRedFlags?
    }
  }

  /** A penalty reason reads "-<points>: <description>". */
  function PenaltyText(points: nat, description: string): string {
    "-" + NatToDecimal(points) + ": " + description
  }

  /** The text shown for a reason. */
  function Render(r: Reason): string {
    match r
    case Flagged(rule) => PenaltyText(rule.weight, rule.Name())
    case ShortDescription => PenaltyText(ShortWeight, "Suspiciously short description")
    case ExcessiveCaps => PenaltyText(CapsWeight, "Excessive use of capital letters")
    case MissingResponsibilities => PenaltyText(MissingResponsibilitiesWeight, "Missing job responsibilities")
    case MissingQualifications => PenaltyText(MissingQualificationsWeight, "Missing qualifications/requirements")
    case MissingCompanyInfo => PenaltyText(MissingCompanyInfoWeight, "Missing company information")
    case DetailedPosting => "✓ Detailed, structured job posting"
    case BenefitsMentioned => "✓ Benefits mentioned"
    case EqualOpportunityStatement => "✓ Professional EEO statement"
    case NoRedFlags => "✓ No red flags detected"
  }

  function RenderAll(rs: seq<Reason>): (out: seq<string>)
    ensures |out| == |rs|
    ensures forall i :: 0 <= i < |rs| ==> out[i] == Render(rs[i])
  {
    seq(|rs|, i requires 0 <= i < |rs| => Render(rs[i]))
  }

  /** The points a displayed reason stands for, read back from its text: the
      digits after a leading minus sign, or nothing for any other reason. */
  function ParseDeduction(s: string): nat {
    if |s| > 0 && s[0] == '-' then DecimalValue(DigitPrefix(s[1..])) else 0
  }

  /** A penalty text carries its points in a form that reads back exactly. */
  lemma PenaltyTextRoundTrip(points: nat, description: string)
    ensures ParseDeduction(PenaltyText(points, description)) == points
  {
    var s := PenaltyText(points, description);
    assert s[1..] == NatToDecimal(points) + (": " + description);
    DigitPrefixOfDigitsThen(NatToDecimal(points), ": " + description);
    DecimalRoundTrip(points);
  }

  /** The displayed text of every reason carries exactly its deduction. */
  lemma RenderedDeduction(r: Reason)
    ensures ParseDeduction(Render(r)) == r.Deduction()
  {
    match r
    case Flagged(rule) => PenaltyTextRoundTrip(rule.weight, rule.Name());
    case ShortDescription => PenaltyTextRoundTrip(ShortWeight, "Suspiciously short description");
    case ExcessiveCaps => PenaltyTextRoundTrip(CapsWeight, "Excessive use of capital letters");
    case MissingResponsibilities => PenaltyTextRoundTrip(MissingResponsibilitiesWeight, "Missing job responsibilities");
    case MissingQualifications => PenaltyTextRoundTrip(MissingQualificationsWeight, "Missing qualifications/requirements");
    case MissingCompanyInfo => PenaltyTextRoundTrip(MissingCompanyInfoWeight, "Missing company information");
    case DetailedPosting =>
    case BenefitsMentioned =>
    case EqualOpportunityStatement =>
    case NoRedFlags =>
  }

  /** The running score and the reasons collected so far. */
  datatype Tally = Tally(score: int, reasons: seq<Reason>)

  /** Takes a penalty reason's points off the score, and records the reason
      when reasons are requested. */
  function Deduct(t: Tally, r: Reason, includeReasons: bool): (u: Tally)
    ensures u.score == t.score - r.Deduction()
    ensures u.reasons == if includeReasons then t.reasons + [r] else t.reasons
  {
    Tally(t.score - r.Deduction(), if includeReasons then t.reasons + [r] else t.reasons)
  }

  /** Records a reason without touching the score. */
  function Note(t: Tally, r: Reason): Tally {
    Tally(t.score, t.reasons + [r])
  }

  /** One `Flagged` reason per rule, in the rules' order. */
  function FlagReasons(rules: seq<Rule>): (rs: seq<Reason>)
    ensures |rs| == |rules|
    ensures forall i :: 0 <= i < |rules| ==> rs[i] == Flagged(rules[i])
  {
    seq(|rules|, i requires 0 <= i < |rules| => Flagged(rules[i]))
  }

  lemma FlagReasonsAppend(a: seq<Rule>, b: seq<Rule>)
    ensures FlagReasons(a + b) == FlagReasons(a) + FlagReasons(b)
  {
  }

  /** One step of the red-flag loop in terms of the matched rules. */
  lemma FlagReasonsUnfold(rules: seq<Rule>, matches: Matcher, text: string)
    requires |rules| > 0
    ensures var hit := matches(Flag(rules[0].pattern), text);
      && SumWeights(Matched(rules, matches, text))
         == (if hit then rules[0].weight else 0) + SumWeights(Matched(rules[1..], matches, text))
      && FlagReasons(Matched(rules, matches, text))
         == (if hit then [Flagged(rules[0])] else []) + FlagReasons(Matched(rules[1..], matches, text))
  {
    var tail := Matched(rules[1..], matches, text);
    if matches(Flag(rules[0].pattern), text) {
      assert Matched(rules, matches, text) == [rules[0]] + tail;
      SumWeightsAppend([rules[0]], tail);
      FlagReasonsAppend([rules[0]], tail);
    } else {
      assert Matched(rules, matches, text) == tail;
    }
  }

  /** The red-flag loop (content.js:28-35): each rule whose pattern matches
      takes its weight off once and, when requested, adds its reason. The
      net effect is the matched rules' total weight, and their reasons in
      catalog order. */
  function FlagPass(rules: seq<Rule>, matches: Matcher, text: string, includeReasons: bool, t: Tally): (u: Tally)
    ensures u.score == t.score - SumWeights(Matched(rules, matches, text))
    ensures u.reasons == t.reasons + (if includeReasons then FlagReasons(Matched(rules, matches, text)) else [])
    decreases |rules|
  {
    if |rules| == 0 then t
    else
      var rule := rules[0];
      FlagReasonsUnfold(rules, matches, text);
      if matches(Flag(rule.pattern), text) then
        var rest := FlagReasons(Matched(rules[1..], matches, text));
        assert t.reasons + [Flagged(rule)] + rest == t.reasons + ([Flagged(rule)] + rest);
        FlagPass(rules[1..], matches, text, includeReasons, Deduct(t, Flagged(rule), includeReasons))
      else
        FlagPass(rules[1..], matches, text, includeReasons, t)
  }

  /** The short-description heuristic (content.js:37-41). */
  function ShortPass(text: string, includeReasons: bool, t: Tally): Tally {
    if |text| < ShortLength then Deduct(t, ShortDescription, includeReasons) else t
  }

  /** The excessive-capitals heuristic (content.js:43-48), searching `text`
      as the script does, that is after lower-casing. */
  function CapsPass(text: string, includeReasons: bool, t: Tally): Tally {
    if Caps.CapsRunCount(text) > CapsRunLimit then Deduct(t, ExcessiveCaps, includeReasons) else t
  }

  /** The missing-section penalties (content.js:51-67), run only when reasons
      are requested. */
  function SectionPass(text: string, matches: Matcher, t: Tally): Tally {
    var hasResponsibilities := matches(Section(Responsibilities), text);
    var hasQualifications := matches(Section(Qualifications), text);
    var hasCompanyInfo := matches(Section(CompanyInfo), text);
    var t1 := if !hasResponsibilities && |text| > ResponsibilitiesGate then Deduct(t, MissingResponsibilities, true) else t;
    var t2 := if !hasQualifications && |text| > QualificationsGate then Deduct(t1, MissingQualifications, true) else t1;
    if !hasCompanyInfo && |text| > CompanyInfoGate then Deduct(t2, MissingCompanyInfo, true) else t2
  }

  /** The positive signals (content.js:69-78): reasons only. */
  function SignalPass(text: string, matches: Matcher, t: Tally): (u: Tally)
    ensures u.score == t.score
    ensures |t.reasons| <= |u.reasons| && u.reasons[..|t.reasons|] == t.reasons
    ensures forall i :: |t.reasons| <= i < |u.reasons| ==> u.reasons[i].IsPositive()
  {
    var hasResponsibilities := matches(Section(Responsibilities), text);
    var hasQualifications := matches(Section(Qualifications), text);
    var t1 := if |text| > DetailedLength && hasResponsibilities && hasQualifications then Note(t, DetailedPosting) else t;
    var t2 := if matches(Signal(BenefitsWords), text) then Note(t1, BenefitsMentioned) else t1;
    if matches(Signal(EqualOpportunityWords), text) then Note(t2, EqualOpportunityStatement) else t2
  }

  /** The default reason (content.js:80-82): added exactly when nothing else
      was collected, so the list is never empty afterwards. */
  function DefaultPass(t: Tally): (u: Tally)
    ensures u.score == t.score
    ensures |u.reasons| >= 1
    ensures t.reasons != [] ==> u.reasons == t.reasons
    ensures t.reasons == [] ==> u.reasons == [NoRedFlags]
  {
    if |t.reasons| == 0 then Note(t, NoRedFlags) else t
  }

  /** The whole sequence of steps of the analysis with the catalog `rules`,
      before clamping and truncation. */
  function Collect(rules: seq<Rule>, jobText: string, includeReasons: bool, matches: Matcher): Tally {
    var text := Lower(jobText);
    var t1 := FlagPass(rules, matches, text, includeReasons, Tally(InitialScore, []));
    var t2 := ShortPass(text, includeReasons, t1);
    var t3 := CapsPass(text, includeReasons, t2);
    if includeReasons then DefaultPass(SignalPass(text, matches, SectionPass(text, matches, t3))) else t3
  }

  /** Clamping to [0, 100] (content.js:85): the identity inside the range,
      the nearest bound outside it. */
  function Clamp(score: int): (r: int)
    ensures 0 <= r <= 100
    ensures 0 <= score <= 100 ==> r == score
    ensures score < 0 ==> r == 0
    ensures score > 100 ==> r == 100
  {
    if score < 0 then 0 else if score > 100 then 100 else score
  }

  /** Clamping never reverses the order of two scores. */
  lemma ClampMonotone(a: int, b: int)
    requires a <= b
    ensures Clamp(a) <= Clamp(b)
  {
  }

  function LabelFor(score: int): string {
    if score >= HighTrustFloor then "High Trust"
    else if score >= MediumTrustFloor then "Medium Trust"
    else "Low Trust"
  }

  function ColorFor(score: int): string {
    if score >= HighTrustFloor then "#16a34a"
    else if score >= MediumTrustFloor then "#f59e0b"
    else "#dc2626"
  }

  /** The first `n` elements, or all of them when there are fewer. */
  function Take<T>(s: seq<T>, n: nat): (r: seq<T>)
    ensures |r| <= n && |r| <= |s|
    ensures |s| <= n ==> r == s
    ensures r == s[..|r|]
  {
    if |s| <= n then s else s[..n]
  }

  datatype AnalysisResult = AnalysisResult(score: int, trustLabel: string, color: string, reasons: seq<string>)

  /** The analysis with the catalog `rules`: the score is clamped to
      [0, 100], label and colour follow the score's band, at most six
      reasons are returned, none without the flag and at least one with it. */
  function AnalyzeWith(rules: seq<Rule>, jobText: string, includeReasons: bool, matches: Matcher): (r: AnalysisResult)
    ensures 0 <= r.score <= 100
    ensures r.score >= HighTrustFloor <==> r.trustLabel == "High Trust"
    ensures MediumTrustFloor <= r.score < HighTrustFloor <==> r.trustLabel == "Medium Trust"
    ensures r.score < MediumTrustFloor <==> r.trustLabel == "Low Trust"
    ensures r.score >= HighTrustFloor <==> r.color == "#16a34a"
    ensures MediumTrustFloor <= r.score < HighTrustFloor <==> r.color == "#f59e0b"
    ensures r.score < MediumTrustFloor <==> r.color == "#dc2626"
    ensures |r.reasons| <= ReasonCap
    ensures !includeReasons ==> r.reasons == []
    ensures includeReasons ==> |r.reasons| >= 1
  {
    var t := Collect(rules, jobText, includeReasons, matches);
    var finalScore := Clamp(t.score);
    AnalysisResult(finalScore, LabelFor(finalScore), ColorFor(finalScore), RenderAll(Take(t.reasons, ReasonCap)))
  }

  /** `analyzeJob(jobText, includeReasons)`: the analysis with the red-flag
      catalog. */
  function Analyze(jobText: string, includeReasons: bool, matches: Matcher): (r: AnalysisResult)
    ensures 0 <= r.score <= 100
    ensures r.score >= HighTrustFloor <==> r.trustLabel == "High Trust"
    ensures MediumTrustFloor <= r.score < HighTrustFloor <==> r.trustLabel == "Medium Trust"
    ensures r.score < MediumTrustFloor <==> r.trustLabel == "Low Trust"
    ensures r.score >= HighTrustFloor <==> r.color == "#16a34a"
    ensures MediumTrustFloor <= r.score < HighTrustFloor <==> r.color == "#f59e0b"
    ensures r.score < MediumTrustFloor <==> r.color == "#dc2626"
    ensures |r.reasons| <= ReasonCap
    ensures !includeReasons ==> r.reasons == []
    ensures includeReasons ==> |r.reasons| >= 1
  {
    AnalyzeWith(RedFlags, jobText, includeReasons, matches)
  }
}
