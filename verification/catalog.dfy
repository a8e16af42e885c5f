/** The fixed red-flag catalog of the analyzer (content.js:4-20) and the
    abstract pattern tests the analyzer and the job-card test rely on.

    Every regular expression of the script is named by a `Pattern`; what a
    pattern matches is left to a `Matcher` supplied by the caller, so the
    proofs are about how match results are aggregated, not about regular
    expressions. */
module Catalog {

  /** One constructor per red-flag rule, in catalog order. */
  datatype FlagPattern =
    | ImmediateHire | NoExperience | EarnThousands | SendPayment | TrainingFee
    | QuickMoney | WireTransfer | GiftCard | Messenger | Crypto
    | UpfrontFee | ExternalForm | DirectMessage | HighPay | Scarcity
  {
    /** The name the catalog gives the rule with this pattern. */
    function Name(): string {
      match this
      case ImmediateHire => "Immediate hire pressure"
      case NoExperience => "No experience required"
      case EarnThousands => "Unrealistic earnings claim"
      case SendPayment => "Payment request"
      case TrainingFee => "Training fee required"
      case QuickMoney => "Quick money promise"
      case WireTransfer => "Wire transfer mention"
      case GiftCard => "Gift card mention"
      case Messenger => "Unofficial communication channel"
      case Crypto => "Cryptocurrency mention"
      case UpfrontFee => "Upfront fee required"
      case ExternalForm => "External application form"
      case DirectMessage => "DM-only contact"
      case HighPay => "Unusually high weekly/daily pay"
      case Scarcity => "Artificial scarcity"
    }
  }

  /** The three section-presence tests of the detailed analysis. */
  datatype SectionPattern = Responsibilities | Qualifications | CompanyInfo

  /** The two regular-expression positive signals of the detailed analysis. */
  datatype SignalPattern = BenefitsWords | EqualOpportunityWords

  /** The job keywords counted by the job-card test (content.js:99-111). */
  datatype KeywordPattern =
    | Responsibil | Qualification | Requirement | Preferred | Benefit
    | JobDescription | ApplicationDeadline | WhatYoullDo | WhoYouAre
    | AboutTheRole | ApplyNow

  datatype Pattern =
    | Flag(flag: FlagPattern)
    | Section(section: SectionPattern)
    | Signal(signal: SignalPattern)
    | Keyword(keyword: KeywordPattern)
    | JobWord

  /** The outcome of testing a pattern against a text. */
  type Matcher = (Pattern, string) -> bool

  /** A red-flag rule: its pattern and the number of points it deducts. The
      name shown in the rule's reason is its pattern's `Name()`. */
  datatype Rule = Rule(pattern: FlagPattern, weight: nat) {
    function Name(): string {
      pattern.Name()
    }
  }

  const RedFlags: seq<Rule> := [
    Rule(ImmediateHire, 12),
    Rule(NoExperience, 8),
    Rule(EarnThousands, 15),
    Rule(SendPayment, 20),
    Rule(TrainingFee, 20),
    Rule(QuickMoney, 15),
    Rule(WireTransfer, 18),
    Rule(GiftCard, 18),
    Rule(Messenger, 10),
    Rule(Crypto, 8),
    Rule(UpfrontFee, 20),
    Rule(ExternalForm, 8),
    Rule(DirectMessage, 6),
    Rule(HighPay, 10),
    Rule(Scarcity, 5)
  ]

  /** Position of a flag pattern's rule in the catalog. */
  function CatalogPosition(p: FlagPattern): nat {
    match p
    case ImmediateHire => 0
    case NoExperience => 1
    case EarnThousands => 2
    case SendPayment => 3
    case TrainingFee => 4
    case QuickMoney => 5
    case WireTransfer => 6
    case GiftCard => 7
    case Messenger => 8
    case Crypto => 9
    case UpfrontFee => 10
    case ExternalForm => 11
    case DirectMessage => 12
    case HighPay => 13
    case Scarcity => 14
  }

  function SumWeights(rules: seq<Rule>): nat
    decreases |rules|
  {
    if |rules| == 0 then 0 else rules[0].weight + SumWeights(rules[1..])
  }

  predicate DistinctPatterns(rules: seq<Rule>) {
    forall i, j :: 0 <= i < j < |rules| ==> rules[i].pattern != rules[j].pattern
  }

  /** Every rule has a positive weight, and no pattern appears twice. */
  predicate WellFormed(rules: seq<Rule>) {
    (forall i :: 0 <= i < |rules| ==> rules[i].weight > 0) && DistinctPatterns(rules)
  }

  lemma SumWeightsStep(rules: seq<Rule>, k: nat)
    requires k < |rules|
    ensures SumWeights(rules[k..]) == rules[k].weight + SumWeights(rules[k + 1..])
  {
    assert rules[k..][1..] == rules[k + 1..];
  }

  /** The catalog holds fifteen rules whose weights total 193. */
  lemma CatalogTotal()
    ensures |RedFlags| == 15
    ensures SumWeights(RedFlags) == 193
  {
    var r := RedFlags;
    assert SumWeights(r[15..]) == 0;
    SumWeightsStep(r, 14);
    SumWeightsStep(r, 13);
    SumWeightsStep(r, 12);
    SumWeightsStep(r, 11);
    SumWeightsStep(r, 10);
    SumWeightsStep(r, 9);
    SumWeightsStep(r, 8);
    SumWeightsStep(r, 7);
    SumWeightsStep(r, 6);
    SumWeightsStep(r, 5);
    SumWeightsStep(r, 4);
    SumWeightsStep(r, 3);
    SumWeightsStep(r, 2);
    SumWeightsStep(r, 1);
    SumWeightsStep(r, 0);
    assert r[0..] == r;
  }

  /** Each rule of the catalog sits at the position of its pattern. */
  lemma CatalogPositions()
    ensures forall i :: 0 <= i < |RedFlags| ==> CatalogPosition(RedFlags[i].pattern) == i
  {
  }

  /** Every catalog weight is positive and no pattern appears twice. */
  lemma CatalogWellFormed()
    ensures WellFormed(RedFlags)
  {
    CatalogPositions();
    forall i, j | 0 <= i < j < |RedFlags|
      ensures RedFlags[i].pattern != RedFlags[j].pattern
    {
      assert CatalogPosition(RedFlags[i].pattern) != CatalogPosition(RedFlags[j].pattern);
    }
  }

  /** The rules whose pattern matches `text`, in catalog order: each rule is
      a presence test and appears at most once, however often it occurs. */
  function Matched(rules: seq<Rule>, matches: Matcher, text: string): (r: seq<Rule>)
    ensures |r| <= |rules|
    decreases |rules|
  {
    if |rules| == 0 then []
    else (if matches(Flag(rules[0].pattern), text) then [rules[0]] else []) + Matched(rules[1..], matches, text)
  }

  /** A rule is matched exactly when it is in the catalog and its pattern
      matches. */
  lemma {:induction false} MatchedMembers(rules: seq<Rule>, matches: Matcher, text: string)
    ensures forall x :: x in Matched(rules, matches, text) <==> x in rules && matches(Flag(x.pattern), text)
    decreases |rules|
  {
    if |rules| > 0 {
      MatchedMembers(rules[1..], matches, text);
      assert rules == [rules[0]] + rules[1..];
    }
  }

  /** Catalog positions, from `from` on, of the rules whose pattern matches. */
  function MatchedPositions(rules: seq<Rule>, matches: Matcher, text: string, from: nat): (ps: seq<nat>)
    requires from <= |rules|
    ensures forall k :: 0 <= k < |ps| ==> from <= ps[k] < |rules|
    decreases |rules| - from
  {
    if from == |rules| then []
    else
      (if matches(Flag(rules[from].pattern), text) then [from] else [])
      + MatchedPositions(rules, matches, text, from + 1)
  }

  predicate StrictlyIncreasing(ps: seq<nat>) {
    forall k, l :: 0 <= k < l < |ps| ==> ps[k] < ps[l]
  }

  /** Catalog order: the positions of the matched rules strictly increase. */
  lemma {:induction false} MatchedPositionsIncrease(rules: seq<Rule>, matches: Matcher, text: string, from: nat)
    requires from <= |rules|
    ensures StrictlyIncreasing(MatchedPositions(rules, matches, text, from))
    decreases |rules| - from
  {
    if from < |rules| {
      MatchedPositionsIncrease(rules, matches, text, from + 1);
      var rest := MatchedPositions(rules, matches, text, from + 1);
      var head: seq<nat> := if matches(Flag(rules[from].pattern), text) then [from] else [];
      var ps := head + rest;
      forall k, l | 0 <= k < l < |ps|
        ensures ps[k] < ps[l]
      {
        if k < |head| {
          assert ps[k] == from;
          assert ps[l] == rest[l - |head|];
          assert from + 1 <= rest[l - |head|];
        } else {
          assert ps[k] == rest[k - |head|] && ps[l] == rest[l - |head|];
        }
      }
    }
  }

  /** The matched positions are exactly the positions whose pattern matches. */
  lemma {:induction false} MatchedPositionsExact(rules: seq<Rule>, matches: Matcher, text: string, from: nat)
    requires from <= |rules|
    ensures var ps := MatchedPositions(rules, matches, text, from);
      forall i :: from <= i < |rules| ==> (i in ps <==> matches(Flag(rules[i].pattern), text))
    decreases |rules| - from
  {
    if from < |rules| {
      MatchedPositionsExact(rules, matches, text, from + 1);
    }
  }

  /** The rules at the given positions, in the order of the positions. */
  function RulesAt(rules: seq<Rule>, ps: seq<nat>): (r: seq<Rule>)
    requires forall k :: 0 <= k < |ps| ==> ps[k] < |rules|
    ensures |r| == |ps|
    ensures forall k :: 0 <= k < |ps| ==> r[k] == rules[ps[k]]
  {
    seq(|ps|, k requires 0 <= k < |ps| => rules[ps[k]])
  }

  /** The matched rules are the catalog's rules at the matched positions, in
      that order. */
  lemma {:induction false} MatchedAtPositions(rules: seq<Rule>, matches: Matcher, text: string, from: nat)
    requires from <= |rules|
    ensures Matched(rules[from..], matches, text) == RulesAt(rules, MatchedPositions(rules, matches, text, from))
    decreases |rules| - from
  {
    if from < |rules| {
      MatchedAtPositions(rules, matches, text, from + 1);
      var rest := MatchedPositions(rules, matches, text, from + 1);
      assert rules[from..][1..] == rules[from + 1..];
      if matches(Flag(rules[from].pattern), text) {
        assert MatchedPositions(rules, matches, text, from) == [from] + rest;
        assert RulesAt(rules, [from] + rest) == [rules[from]] + RulesAt(rules, rest);
      } else {
        assert MatchedPositions(rules, matches, text, from) == rest;
      }
    }
  }

  /** The matched rules never deduct more than the whole catalog. */
  lemma {:induction false} MatchedWeightBound(rules: seq<Rule>, matches: Matcher, text: string)
    ensures SumWeights(Matched(rules, matches, text)) <= SumWeights(rules)
    decreases |rules|
  {
    if |rules| > 0 {
      MatchedWeightBound(rules[1..], matches, text);
      SumWeightsAppend(if matches(Flag(rules[0].pattern), text) then [rules[0]] else [], Matched(rules[1..], matches, text));
    }
  }

  lemma {:induction false} SumWeightsAppend(a: seq<Rule>, b: seq<Rule>)
    ensures SumWeights(a + b) == SumWeights(a) + SumWeights(b)
    decreases |a|
  {
    if |a| == 0 {
      assert a + b == b;
    } else {
      assert (a + b)[1..] == a[1..] + b;
      SumWeightsAppend(a[1..], b);
    }
  }

  /** Presence, not count: when two matchers agree on every rule but one,
      and only the first matches that rule, the matched weight differs by
      exactly that rule's weight. */
  lemma {:induction false} OneRuleDeductsItsWeight(rules: seq<Rule>, i: nat, m1: Matcher, m2: Matcher, text: string)
    requires DistinctPatterns(rules)
    requires i < |rules|
    requires m1(Flag(rules[i].pattern), text) && !m2(Flag(rules[i].pattern), text)
    requires forall p :: p != rules[i].pattern ==> m1(Flag(p), text) == m2(Flag(p), text)
    ensures SumWeights(Matched(rules, m1, text)) == SumWeights(Matched(rules, m2, text)) + rules[i].weight
    decreases |rules|
  {
    var h1 := if m1(Flag(rules[0].pattern), text) then [rules[0]] else [];
    var h2 := if m2(Flag(rules[0].pattern), text) then [rules[0]] else [];
    SumWeightsAppend(h1, Matched(rules[1..], m1, text));
    SumWeightsAppend(h2, Matched(rules[1..], m2, text));
    if i == 0 {
      assert forall p :: p in rules[1..] ==> p.pattern != rules[0].pattern;
      SameMatchesSameRules(rules[1..], m1, text, m2, text);
    } else {
      assert rules[0].pattern != rules[i].pattern;
      OneRuleDeductsItsWeight(rules[1..], i - 1, m1, m2, text);
    }
  }

  /** Two matchers that agree on every rule of `rules`, each on its own
      text, select the same rules. */
  lemma {:induction false} SameMatchesSameRules(rules: seq<Rule>, m1: Matcher, text1: string, m2: Matcher, text2: string)
    requires forall x :: x in rules ==> m1(Flag(x.pattern), text1) == m2(Flag(x.pattern), text2)
    ensures Matched(rules, m1, text1) == Matched(rules, m2, text2)
    decreases |rules|
  {
    if |rules| > 0 {
      assert forall x :: x in rules[1..] ==> x in rules;
      SameMatchesSameRules(rules[1..], m1, text1, m2, text2);
    }
  }
}
