/** The text part of `isLikelyJobCard` (content.js:184-198), which decides
    whether a page element is a job card worth scoring. The element's
    selector tests are reduced to the four booleans of `NodeTraits`. */
module JobCard {
  import opened Catalog

  /** Texts shorter than this are never job cards. */
  const MinCardLength: nat := 40
  /** Keyword evidence only counts for texts shorter than this. */
  const MaxKeywordCardLength: nat := 1000
  /** Keyword hits needed when no element attribute decides. */
  const KeywordHitsNeeded: nat := 2

  /** What the selector tests of the element report: a job data attribute,
      a job-card class, a link into the job listings, a list-item role. */
  datatype NodeTraits = NodeTraits(jobAttribute: bool, jobCardClass: bool, jobsLink: bool, listItem: bool)

  const JobKeywords: seq<KeywordPattern> := [
    Responsibil, Qualification, Requirement, Preferred, Benefit, JobDescription,
    ApplicationDeadline, WhatYoullDo, WhoYouAre, AboutTheRole, ApplyNow
  ]

  /** The keywords of `keywords` that occur in `text`, in order. */
  function MatchedKeywords(keywords: seq<KeywordPattern>, matches: Matcher, text: string): (r: seq<KeywordPattern>)
    ensures |r| <= |keywords|
    decreases |keywords|
  {
    if |keywords| == 0 then []
    else (if matches(Keyword(keywords[0]), text) then [keywords[0]] else []) + MatchedKeywords(keywords[1..], matches, text)
  }

  /** The keyword count, as the script's left fold adds one per matching
      keyword to the accumulator `acc`. */
  function KeywordHits(keywords: seq<KeywordPattern>, matches: Matcher, text: string, acc: nat): (n: nat)
    ensures n == acc + |MatchedKeywords(keywords, matches, text)|
    ensures acc <= n <= acc + |keywords|
    decreases |keywords|
  {
    if |keywords| == 0 then acc
    else KeywordHits(keywords[1..], matches, text, acc + (if matches(Keyword(keywords[0]), text) then 1 else 0))
  }

  predicate TwoKeywordsMatch(keywords: seq<KeywordPattern>, matches: Matcher, text: string) {
    exists i, j :: 0 <= i < j < |keywords| && matches(Keyword(keywords[i]), text) && matches(Keyword(keywords[j]), text)
  }

  /** At least one matched keyword exactly when some keyword matches. */
  lemma {:induction false} OneKeywordIff(keywords: seq<KeywordPattern>, matches: Matcher, text: string)
    ensures |MatchedKeywords(keywords, matches, text)| >= 1
      <==> exists i :: 0 <= i < |keywords| && matches(Keyword(keywords[i]), text)
    decreases |keywords|
  {
    if |keywords| > 0 {
      OneKeywordIff(keywords[1..], matches, text);
      if exists i :: 0 <= i < |keywords| && matches(Keyword(keywords[i]), text) {
        var i :| 0 <= i < |keywords| && matches(Keyword(keywords[i]), text);
        if i > 0 {
          assert keywords[1..][i - 1] == keywords[i];
        }
      }
      if exists i :: 0 <= i < |keywords[1..]| && matches(Keyword(keywords[1..][i]), text) {
        var i :| 0 <= i < |keywords[1..]| && matches(Keyword(keywords[1..][i]), text);
        assert keywords[i + 1] == keywords[1..][i];
      }
    }
  }

  /** Two or more hits exactly when two different keywords of the list match. */
  lemma {:induction false} TwoKeywordsIff(keywords: seq<KeywordPattern>, matches: Matcher, text: string)
    ensures |MatchedKeywords(keywords, matches, text)| >= 2 <==> TwoKeywordsMatch(keywords, matches, text)
    decreases |keywords|
  {
    if |keywords| > 0 {
      var rest := keywords[1..];
      TwoKeywordsIff(rest, matches, text);
      OneKeywordIff(rest, matches, text);
      if TwoKeywordsMatch(keywords, matches, text) {
        var i, j :| 0 <= i < j < |keywords| && matches(Keyword(keywords[i]), text) && matches(Keyword(keywords[j]), text);
        assert rest[j - 1] == keywords[j];
        if i > 0 {
          assert rest[i - 1] == keywords[i];
          assert TwoKeywordsMatch(rest, matches, text);
        }
      }
      if TwoKeywordsMatch(rest, matches, text) {
        var i, j :| 0 <= i < j < |rest| && matches(Keyword(rest[i]), text) && matches(Keyword(rest[j]), text);
        assert keywords[i + 1] == rest[i] && keywords[j + 1] == rest[j];
      }
      if matches(Keyword(keywords[0]), text) && |MatchedKeywords(rest, matches, text)| >= 1 {
        var j :| 0 <= j < |rest| && matches(Keyword(rest[j]), text);
        assert keywords[j + 1] == rest[j];
      }
    }
  }

  /** The element itself marks the text as a job: a job attribute, a job-card
      class, a link into the job listings, or a list item whose text says "job". */
  predicate ElementEvidence(node: NodeTraits, text: string, matches: Matcher) {
    node.jobAttribute || node.jobCardClass || node.jobsLink || (node.listItem && matches(JobWord, text))
  }

  /** `isLikelyJobCard(node, text)`: short texts are never cards; otherwise
      the element decides, and failing it, at least two job keywords in a
      text under 1000 characters. The contract states the keyword test as
      two different keywords occurring, not as a count. */
  function IsLikelyJobCard(node: NodeTraits, text: string, matches: Matcher): (r: bool)
    ensures r <==> (MinCardLength <= |text|
                    && (ElementEvidence(node, text, matches)
                        || (|text| < MaxKeywordCardLength && TwoKeywordsMatch(JobKeywords, matches, text))))
    ensures |text| < MinCardLength ==> !r
    ensures r && !node.jobAttribute && !node.jobCardClass && !node.jobsLink && !node.listItem
      ==> |text| < MaxKeywordCardLength
  {
    TwoKeywordsIff(JobKeywords, matches, text);
    if |text| == 0 || |text| < MinCardLength then false
    else if node.jobAttribute then true
    else if node.jobCardClass then true
    else if node.jobsLink then true
    else if node.listItem && matches(JobWord, text) then true
    else KeywordHits(JobKeywords, matches, text, 0) >= KeywordHitsNeeded && |text| < MaxKeywordCardLength
  }

  /** When the element gives no evidence (a list item whose text does not
      say "job" included), being a job card means exactly: 40 to 999
      characters, and two different job keywords occurring in the text. */
  lemma KeywordEvidence(node: NodeTraits, text: string, matches: Matcher)
    requires !node.jobAttribute && !node.jobCardClass && !node.jobsLink && !(node.listItem && matches(JobWord, text))
    ensures IsLikelyJobCard(node, text, matches)
      <==> MinCardLength <= |text| < MaxKeywordCardLength && TwoKeywordsMatch(JobKeywords, matches, text)
  {
    TwoKeywordsIff(JobKeywords, matches, text);
  }

  /** Any evidence from the element (a job attribute, class or link, or a
      list item whose text says "job") makes a text of 40 characters or more
      a job card, whatever its keywords. */
  lemma AttributesDecide(node: NodeTraits, text: string, matches: Matcher)
    requires ElementEvidence(node, text, matches)
    ensures IsLikelyJobCard(node, text, matches) <==> |text| >= MinCardLength
  {
  }
}
