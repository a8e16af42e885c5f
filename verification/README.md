# Handshake trust checker: the scoring engine in Dafny

The browser extension scores job postings on Handshake for scam likelihood.
Its core is `analyzeJob` in `content.js`, a pure function of a posting's text
and an include-reasons flag. It works in these steps:

1. Lower-case the text and start the score at 100.
2. Take off the weight of every rule of the fixed red-flag catalog whose
   pattern occurs. There are fifteen rules with weights totalling 193.
3. Take off 10 points when the text is under 120 characters.
4. Apply an excessive-capitals heuristic.
5. With the flag only: apply the missing-section penalties (8, 8 and 5
   points, gated at lengths above 200, 200 and 300), record the positive
   signals, and add the default reason when nothing else was recorded.
6. Clamp the score to [0, 100], map it to a label and a colour at the
   thresholds 80 and 50, and cut the reasons to six.

The project also models the text part of `isLikelyJobCard`, which decides
which page elements get scored.

Files and modules:

- `strings.dfy` (`Strings`): ASCII lower-casing, and decimal rendering of
  the weights that head each penalty reason, with its inverse.
- `caps.dfy` (`Caps`): the count of matches of the global capitals search,
  proved equal to the number of maximal runs of three or more capitals, and
  the proof that it finds nothing in a lower-cased text.
- `catalog.dfy` (`Catalog`): the pattern names, the rule catalog
  `RedFlags`, matched rules as a presence filter, and catalog order.
- `analyzer.dfy` (`Analyzer`): the steps of `analyzeJob` as functions from
  one running `Tally` (score and reasons) to the next, in the script's order.
  `AnalyzeWith(rules, …)` is the analysis for any catalog, and `Analyze` is
  that analysis with `RedFlags`.
- `properties.dfy` (`TrustProperties`): a closed-form description of the
  outcome and the promises proved from it. The outcome is the matched
  weights, the gated penalties, and the reasons grouped by kind.
- `job_card.dfy` (`JobCard`): `isLikelyJobCard` with the selector tests
  reduced to booleans, and its keyword count.

Each regular expression is a constructor of `Catalog.Pattern`. Whether it
matches a text is up to a `Matcher` argument, so every result holds for any
matcher. The lemmas are about how match outcomes are combined, not about
regular-expression semantics. The patterns are applied to the lower-cased
text, as in the script. The analysis lemmas are stated for an arbitrary
catalog `rules`, and `Analyze` is the case `rules == RedFlags`. Facts about
the catalog itself are proved separately: its size, its total of 193, its
positive weights and its distinct patterns.

Three behaviours of the code are easy to misread. The model follows the
code in each case:

- The capitals heuristic searches the lower-cased text for capitals, so it
  can never fire. It is not searching an unmodified copy. The model keeps
  the search on the lower-cased text and proves that it never fires
  (`Caps.CapsNeverFoundAfterLowering`,
  `TrustProperties.CapsPenaltyNeverApplies`). On text that is not
  lower-cased it could fire (`TrustProperties.CapsWouldFireOnOriginalText`).
- The missing-section checks are not explanation only. They lower the
  score, but only when reasons are requested, so the score depends on the
  flag. It is never higher with the flag than without
  (`TrustProperties.ReasonsFlagOnlyLowersScore`).
- The reason cap is 6. The default reason is added before clamping.
  Clamping does not touch the reasons, so this order changes nothing.

## Model

| member | source | states |
|---|---|---|
| `Strings.Lower` | content.js:25 | Lower-casing keeps the length, turns each ASCII capital into its own small letter, and keeps every other character in place, so no capital survives |
| `Strings.DecimalRoundTrip` | content.js:32 | The decimal text of a weight reads back as the same number |
| `Caps.CapsCountIsRunCount` | content.js:44 | The number of matches of the global search for three or more capitals equals the number of maximal runs of three or more capitals, counted by where each run starts |
| `Caps.CapsFoundIff` | content.js:44 | The search finds a match if and only if three capitals stand in a row somewhere in the text |
| `Caps.RepeatedRunsCount` | content.js:44 | On text that is not lower-cased the count is unbounded: `n` copies of "ABC " give exactly `n` matches |
| `Caps.CapsNeverFoundAfterLowering` | content.js:25-45 | Run on the lower-cased text, the capitals search finds no match for any posting |
| `Catalog.CatalogTotal` | content.js:4-20 | The catalog has fifteen rules, and their weights sum to 193 |
| `Catalog.CatalogWellFormed` | content.js:4-20 | Every catalog weight is positive and no pattern appears twice |
| `Catalog.MatchedWeightBound` | content.js:28-35 | The matched rules never deduct more than the whole catalog's weight |
| `Catalog.OneRuleDeductsItsWeight` | content.js:28-35 | Take two matchers that agree on every rule but one, where only the first matches that rule. The matched weights then differ by exactly that rule's weight, deducted once |
| `Catalog.MatchedPositionsIncrease` | content.js:28-35 | The catalog positions of the matched rules strictly increase, so rules are visited and recorded in catalog order |
| `Catalog.MatchedPositionsExact` | content.js:28-35 | A position is among the matched positions if and only if its rule's pattern matches |
| `Catalog.MatchedAtPositions` | content.js:28-35 | The matched rules are the catalog's rules at the matched positions, in that order |
| `Catalog.SameMatchesSameRules` | content.js:28-35 | The rules selected depend only on each rule's match outcome, not on the text itself |
| `Analyzer.FlagPass` | content.js:28-35 | The red-flag loop lowers the score by exactly the matched rules' total weight. With the flag it appends one reason per matched rule in catalog order; without it, none |
| `Analyzer.SignalPass` | content.js:69-78 | The positive signals leave the score unchanged, keep the earlier reasons as a prefix, and append only positive reasons |
| `Analyzer.DefaultPass` | content.js:80-82 | The default reason is added exactly when no reason was recorded, and then it is the only one. The list is never empty afterwards |
| `Analyzer.Clamp` | content.js:85 | The clamped score lies in [0, 100]. It equals the input inside that range and the nearest bound outside it |
| `Analyzer.RenderedDeduction` | content.js:32-66 | The points at the head of every displayed penalty reason read back as that reason's deduction. Positive reasons read as zero |
| `Analyzer.AnalyzeWith` | content.js:22-94 | For any catalog: the score is in [0, 100]; label and colour match the score band in both directions (80 and above green/High, 50 to 79 amber/Medium, below 50 red/Low); at most six reasons; none without the flag; at least one with it |
| `Analyzer.Analyze` | content.js:22-94 | The same guarantees for `analyzeJob` with the red-flag catalog |
| `TrustProperties.CollectIsReference` | content.js:22-83 | The sequential analysis ends at 100 minus the matched weights, the short penalty and, with the flag only, the section penalties. The reasons recorded are the flags, the short-description reason, the missing sections and the positive signals, in that order, or the default reason alone |
| `TrustProperties.ReasonsArePrefix` | content.js:93 | The returned reasons are the first six recorded reasons, rendered in recording order |
| `TrustProperties.FlagReasonsInCatalogOrder` | content.js:28-35 | With the flag, the reasons open with one reason per matched rule, at strictly increasing catalog positions |
| `TrustProperties.ScoreIsClampedRaw` | content.js:85 | The returned score is the clamped value of the closed-form unclamped score |
| `TrustProperties.ScoreWithoutReasons` | content.js:28-48 | Without the flag, reasons are empty. The score is exactly clamp(100 - matched weights - 10 if under 120 characters) |
| `TrustProperties.ReasonsFlagOnlyLowersScore` | content.js:50-67 | With the flag, the score is the flag-free unclamped score less the section penalties, clamped. It is never above the flag-free score |
| `TrustProperties.RawScoreRange` | content.js:23-67 | With the red-flag catalog the unclamped score lies in [100 - (193 + 10 + 21), 100] |
| `TrustProperties.ClampRaisesToZero` | content.js:28-88 | For any posting in which all fifteen red-flag patterns occur, with or without reasons, the unclamped score is at most 100 - 193. The returned score is then 0, Low Trust |
| `TrustProperties.SectionGating` | content.js:56-67 | With the flag, each missing-section reason is recorded if and only if the section is missing and the text is longer than 200, 200 or 300 characters. Without the flag, none is recorded |
| `TrustProperties.DefaultReasonExactly` | content.js:80-82 | With the flag, the reasons are never empty. The default reason appears if and only if nothing else was recorded, and then alone |
| `TrustProperties.CapsPenaltyNeverApplies` | content.js:43-48 | The excessive-capitals reason is never recorded for any posting or flag, and the capitals step leaves every running score and reason list unchanged |
| `TrustProperties.CapsWouldFireOnOriginalText` | content.js:25-48 | The heuristic is dead only because it searches the lower-cased text. Sixteen runs of "ABC " give more than 15 matches and would cost 4 points, while the same posting lower-cased costs nothing |
| `TrustProperties.SignalsDoNotAffectScore` | content.js:69-78 | Two matchers that differ only on the positive-signal patterns give the same score |
| `TrustProperties.MatchedRuleLowersScore` | content.js:28-35 | In a well-formed catalog, matching one more rule lowers the unclamped score by exactly that rule's weight, so it strictly lowers it |
| `TrustProperties.DependsOnlyOnPresence` | content.js:22-94 | Two postings get identical results when they have the same outcome for every pattern and fall on the same side of every length gate. How often a pattern occurs is irrelevant |
| `TrustProperties.ReasonsAccountForScore` | content.js:28-82 | With the flag, the deductions of the recorded reasons add up to exactly 100 minus the unclamped score |
| `JobCard.KeywordHits` | content.js:194 | The left fold over the job keywords adds to its accumulator the number of keywords that match. That is at most the number of keywords |
| `JobCard.TwoKeywordsIff` | content.js:194-195 | At least two keyword hits if and only if two different keywords of the list match |
| `JobCard.IsLikelyJobCard` | content.js:184-198 | An element is a job card if and only if its text has at least 40 characters and either the element gives evidence (a job attribute, job-card class or jobs link, or a list item whose text says "job"), or the text is under 1000 characters and two different job keywords occur in it |
| `JobCard.KeywordEvidence` | content.js:185-197 | For an element with no job attribute, class or link, and not a list item whose text says "job": it is a card if and only if the text has 40 to 999 characters and two different job keywords occur |
| `JobCard.AttributesDecide` | content.js:185-191 | A job attribute, job-card class, jobs link, or list-item role with "job" in the text makes the element a card if and only if its text has at least 40 characters |

## Left out

- `Strings.Lower`: only ASCII capitals are mapped, and the length is kept. JavaScript's `toLowerCase` also maps other Unicode capitals, and a few of them change the length. The length gates use the lower-cased length, as in the script.
- Lengths count Unicode characters, where JavaScript counts UTF-16 code units. The two differ only for characters outside the Basic Multilingual Plane.
- The meaning of each regular expression is not modelled. The red flags, section tests, positive signals, job keywords and the "job" test are `Matcher` outcomes. Only the capitals search is modelled concretely, since its dead-code behaviour is the point.
- The default argument `includeReasons = false` is not modelled separately. `Analyze` always takes the flag explicitly.
- DOM work (`markCard`, `markDetailedJobPosting`, `extractText`, `candidateJobCards`, `findMainJobContent`, `scanJobCards`, `scanDetailedJobPosting`, `scanAll`): browser plumbing with no pure behaviour to state.
- The selector tests inside `isLikelyJobCard` are the booleans of `JobCard.NodeTraits`. CSS selector matching is not modelled.
- The MutationObserver, the `setTimeout` scheduling and the message listener (content.js:379-411): event and timer wiring.
- popup.js: a button that sends a message to the page.
- The HTML built from the reasons (content.js:156-166) and console logging: presentation only.
