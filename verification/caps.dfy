/** The excessive-capitals heuristic of the analyzer counts the matches of a
    global search for runs of three or more ASCII capitals (content.js:44).
    A global search resumes after each match and each match is greedy, so
    every maximal run of at least three capitals yields exactly one match. */
module Caps {
  import opened Strings

  /** Length of the run of capitals at the start of `s`. */
  function UpperRun(s: string): (k: nat)
    ensures k <= |s|
    ensures forall j :: 0 <= j < k ==> IsUpper(s[j])
    ensures k < |s| ==> !IsUpper(s[k])
    decreases |s|
  {
    if |s| > 0 && IsUpper(s[0]) then 1 + UpperRun(s[1..]) else 0
  }

  /** Number of matches the global capitals search returns on `s`: a match
      consumes the whole greedy run, otherwise the search moves one character
      on. `CapsCountIsRunCount` shows this is the number of maximal runs. */
  function CapsRunCount(s: string): (n: nat)
    ensures 3 * n <= |s|
    ensures n > 0 ==> exists i :: 0 <= i < |s| && IsUpper(s[i])
    decreases |s|
  {
    if |s| == 0 then 0
    else
      var k := UpperRun(s);
      if k >= 3 then 1 + CapsRunCount(s[k..]) else CapsRunCount(s[1..])
  }

  /** Three capitals in a row start at position `i`. */
  predicate ThreeCapitalsAt(s: string, i: int) {
    0 <= i && i + 3 <= |s| && IsUpper(s[i]) && IsUpper(s[i + 1]) && IsUpper(s[i + 2])
  }

  /** A maximal run of three or more capitals starts at position `i`. */
  predicate StartsRun(s: string, i: int) {
    ThreeCapitalsAt(s, i) && (i == 0 || !IsUpper(s[i - 1]))
  }

  /** The number of maximal runs of three or more capitals that start at or
      after position `from`. */
  function RunStarts(s: string, from: nat): nat
    requires from <= |s|
    decreases |s| - from
  {
    if from == |s| then 0 else (if StartsRun(s, from) then 1 else 0) + RunStarts(s, from + 1)
  }

  /** A run of one or two capitals yields no match; the search moves past it. */
  lemma {:induction false} ShortRunSkip(t: string)
    requires UpperRun(t) < 3
    ensures CapsRunCount(t) == CapsRunCount(t[UpperRun(t)..])
    decreases |t|
  {
    var k := UpperRun(t);
    if k == 0 {
      assert t[k..] == t;
    } else {
      assert UpperRun(t[1..]) == k - 1;
      ShortRunSkip(t[1..]);
      assert t[1..][k - 1..] == t[k..];
    }
  }

  /** The run of capitals at position `from`, read back in `s`. */
  lemma RunInSuffix(s: string, from: nat)
    requires from < |s|
    ensures from + UpperRun(s[from..]) <= |s|
    ensures forall m :: from <= m < from + UpperRun(s[from..]) ==> IsUpper(s[m])
    ensures from + UpperRun(s[from..]) < |s| ==> !IsUpper(s[from + UpperRun(s[from..])])
  {
    var t := s[from..];
    var k := UpperRun(t);
    forall m | from <= m < from + k ensures IsUpper(s[m]) {
      assert t[m - from] == s[m];
    }
    if from + k < |s| {
      assert t[k] == s[from + k];
    }
  }

  /** A position holding no capital adds no match and starts no run. */
  lemma AfterRun(s: string, j: nat)
    requires j < |s| && !IsUpper(s[j])
    ensures CapsRunCount(s[j..]) == CapsRunCount(s[j + 1..])
    ensures RunStarts(s, j) == RunStarts(s, j + 1)
  {
    assert s[j..][1..] == s[j + 1..];
    assert UpperRun(s[j..]) == 0;
    assert !StartsRun(s, j);
  }

  /** The search at a run of capitals counts one match when the run is long
      enough, and resumes after the run. */
  lemma SkipRun(s: string, from: nat)
    requires from < |s|
    ensures var k := UpperRun(s[from..]);
      CapsRunCount(s[from..]) == (if k >= 3 then 1 else 0) + CapsRunCount(s[from + k..])
  {
    var t := s[from..];
    var k := UpperRun(t);
    if k < 3 {
      ShortRunSkip(t);
    }
    assert t[k..] == s[from + k..];
  }

  /** Inside a run of capitals at `from`, no further run starts. */
  lemma {:induction false} NoStartInRun(s: string, from: nat)
    requires from < |s| && UpperRun(s[from..]) >= 1
    ensures from + UpperRun(s[from..]) <= |s|
    ensures RunStarts(s, from + 1) == RunStarts(s, from + UpperRun(s[from..]))
    decreases |s| - from
  {
    var k := UpperRun(s[from..]);
    if k > 1 {
      assert s[from..][0] == s[from];
      assert s[from..][1..] == s[from + 1..];
      assert !StartsRun(s, from + 1);
      NoStartInRun(s, from + 1);
    }
  }

  /** A run of capitals at a position not preceded by a capital is a counted
      run exactly when it is at least three long. */
  lemma RunStartIff(s: string, from: nat)
    requires from < |s| && UpperRun(s[from..]) >= 1
    requires from == 0 || !IsUpper(s[from - 1])
    ensures StartsRun(s, from) <==> UpperRun(s[from..]) >= 3
  {
    RunInSuffix(s, from);
    var k := UpperRun(s[from..]);
    if k < 3 && from + k < |s| {
      assert !IsUpper(s[from + k]);
    }
  }

  /** The position right after a run holds no capital. */
  lemma RunEnd(s: string, from: nat)
    requires from < |s|
    ensures from + UpperRun(s[from..]) <= |s|
    ensures from + UpperRun(s[from..]) < |s| ==> !IsUpper(s[from + UpperRun(s[from..])])
  {
    RunInSuffix(s, from);
  }

  /** One step of the count at a run of capitals, given the count after
      the character that ends the run. */
  lemma CountAtRun(s: string, from: nat, k: nat)
    requires from < |s| && k == UpperRun(s[from..]) && k >= 1
    requires from == 0 || !IsUpper(s[from - 1])
    requires from + k < |s| ==> CapsRunCount(s[from + k + 1..]) == RunStarts(s, from + k + 1)
    ensures CapsRunCount(s[from..]) == RunStarts(s, from)
  {
    var c := if k >= 3 then 1 else 0;
    assert RunStarts(s, from) == c + RunStarts(s, from + k) by {
      RunStartIff(s, from);
      NoStartInRun(s, from);
    }
    assert CapsRunCount(s[from..]) == c + CapsRunCount(s[from + k..]) by {
      SkipRun(s, from);
    }
    assert CapsRunCount(s[from + k..]) == RunStarts(s, from + k) by {
      RunEnd(s, from);
      if from + k < |s| {
        AfterRun(s, from + k);
      } else {
        assert s[from + k..] == [];
      }
    }
  }

  /** From a position not preceded by a capital, the search finds one match
      per maximal run of three or more capitals. */
  lemma {:induction false} CountFrom(s: string, from: nat)
    requires from <= |s|
    requires from == 0 || !IsUpper(s[from - 1])
    ensures CapsRunCount(s[from..]) == RunStarts(s, from)
    decreases |s| - from
  {
    if from < |s| {
      var k := UpperRun(s[from..]);
      RunEnd(s, from);
      if k == 0 {
        AfterRun(s, from);
        CountFrom(s, from + 1);
      } else {
        if from + k < |s| {
          CountFrom(s, from + k + 1);
        }
        CountAtRun(s, from, k);
      }
    }
  }

  /** The global search returns exactly one match per maximal run of three
      or more capitals. */
  lemma CapsCountIsRunCount(s: string)
    ensures CapsRunCount(s) == RunStarts(s, 0)
  {
    CountFrom(s, 0);
    assert s[0..] == s;
  }

  lemma {:induction false} RunStartsPositive(s: string, from: nat)
    requires from <= |s|
    ensures RunStarts(s, from) > 0 <==> exists i :: from <= i < |s| && StartsRun(s, i)
    decreases |s| - from
  {
    if from < |s| {
      RunStartsPositive(s, from + 1);
    }
  }

  /** Three capitals in a row lie inside a maximal run that starts no later. */
  lemma {:induction false} ThreeCapitalsInRun(s: string, i: nat)
    requires ThreeCapitalsAt(s, i)
    ensures exists j :: 0 <= j <= i && StartsRun(s, j)
    decreases i
  {
    if i > 0 && IsUpper(s[i - 1]) {
      ThreeCapitalsInRun(s, i - 1);
    } else {
      assert StartsRun(s, i);
    }
  }

  /** The search finds something exactly when three capitals stand in a row. */
  lemma CapsFoundIff(s: string)
    ensures CapsRunCount(s) > 0 <==> exists i :: ThreeCapitalsAt(s, i)
  {
    CapsCountIsRunCount(s);
    RunStartsPositive(s, 0);
    if exists i :: ThreeCapitalsAt(s, i) {
      var i :| ThreeCapitalsAt(s, i);
      ThreeCapitalsInRun(s, i);
    }
  }

  /** The capitals search runs on the already lower-cased posting, so it never
      finds anything and the heuristic can never fire. */
  lemma CapsNeverFoundAfterLowering(jobText: string)
    ensures CapsRunCount(Lower(jobText)) == 0
  {
    CapsFoundIff(Lower(jobText));
  }

  /** `n` copies of `w`, one after another. */
  function Repeat(w: string, n: nat): string {
    if n == 0 then [] else w + Repeat(w, n - 1)
  }

  /** One run of three capitals and a space, in front of any text, adds one match. */
  lemma OneRunThenSpace(t: string)
    ensures CapsRunCount("ABC " + t) == 1 + CapsRunCount(t)
  {
    var u := "ABC " + t;
    assert u[1..] == "BC " + t;
    assert u[1..][1..] == "C " + t;
    assert u[1..][1..][1..] == " " + t;
    assert UpperRun(" " + t) == 0;
    assert UpperRun("C " + t) == 1;
    assert UpperRun("BC " + t) == 2;
    assert UpperRun(u) == 3;
    assert u[3..] == " " + t;
    assert (" " + t)[1..] == t;
  }

  /** Text that is not lower-cased can hold any number of matches: `n` runs
      of "ABC " give `n`. */
  lemma {:induction false} RepeatedRunsCount(n: nat)
    ensures CapsRunCount(Repeat("ABC ", n)) == n
  {
    if n > 0 {
      RepeatedRunsCount(n - 1);
      OneRunThenSpace(Repeat("ABC ", n - 1));
      assert Repeat("ABC ", n) == "ABC " + Repeat("ABC ", n - 1);
    }
  }
}
