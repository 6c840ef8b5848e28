/**
 * `normalizeWindowsPath`: the global replace of every pair of adjacent
 * backslashes by a single backslash. The regular expression is matched left to
 * right from a moving position and matches do not overlap, so a maximal run of
 * n backslashes keeps ceil(n/2) of them.
 */
module PathNormalize {
  const Backslash: char := '\\'

  /** The replace, scanning from position `i`: a pair found there is emitted as one backslash. */
  function NormalizeFrom(s: string, i: nat): (r: string)
    requires i <= |s|
    ensures |r| <= |s| - i
    decreases |s| - i
  {
    if i == |s| then []
    else if i + 1 < |s| && s[i] == Backslash && s[i + 1] == Backslash then
      [Backslash] + NormalizeFrom(s, i + 2)
    else
      [s[i]] + NormalizeFrom(s, i + 1)
  }

  /** The scan from `i` emits at most one character per input character, and at least one per two. */
  lemma {:induction false} NormalizeFromBounds(s: string, i: nat)
    requires i <= |s|
    ensures |NormalizeFrom(s, i)| <= |s| - i <= 2 * |NormalizeFrom(s, i)|
    decreases |s| - i
  {
    if i + 1 < |s| && s[i] == Backslash && s[i + 1] == Backslash {
      NormalizeFromBounds(s, i + 2);
    } else if i < |s| {
      NormalizeFromBounds(s, i + 1);
    }
  }

  /** `s.replace(/\\\\/g, "\\")`. */
  function NormalizeWindowsPath(s: string): (r: string)
    ensures |r| <= |s| <= 2 * |r|
  {
    NormalizeFromBounds(s, 0);
    NormalizeFrom(s, 0)
  }

  /** A run of `n` backslashes. */
  function Backslashes(n: nat): (r: string)
    ensures |r| == n
  {
    if n == 0 then [] else [Backslash] + Backslashes(n - 1)
  }

  /** Positions `i` up to `j` (exclusive) of `s` all hold backslashes. */
  predicate AllBackslashes(s: string, i: nat, j: nat)
    requires i <= j <= |s|
  {
    forall k :: i <= k < j ==> s[k] == Backslash
  }

  /** Somewhere in `s` two backslashes stand next to each other. */
  predicate HasDoubleBackslash(s: string) {
    exists i :: 0 <= i < |s| - 1 && s[i] == Backslash && s[i + 1] == Backslash
  }

  /** The characters of `s` other than backslashes, in their order. */
  function WithoutBackslashes(s: string): string {
    if s == [] then []
    else if s[0] == Backslash then WithoutBackslashes(s[1..])
    else [s[0]] + WithoutBackslashes(s[1..])
  }

  /** The scan from `i` keeps the non-backslash characters of the rest of the string. */
  lemma {:induction false} KeepsOtherCharactersFrom(s: string, i: nat)
    requires i <= |s|
    ensures WithoutBackslashes(NormalizeFrom(s, i)) == WithoutBackslashes(s[i..])
    decreases |s| - i
  {
    if i < |s| {
      assert s[i..][1..] == s[i + 1..];
      if i + 1 < |s| && s[i] == Backslash && s[i + 1] == Backslash {
        assert s[i + 1..][1..] == s[i + 2..];
        assert ([Backslash] + NormalizeFrom(s, i + 2))[1..] == NormalizeFrom(s, i + 2);
        KeepsOtherCharactersFrom(s, i + 2);
      } else {
        assert ([s[i]] + NormalizeFrom(s, i + 1))[1..] == NormalizeFrom(s, i + 1);
        KeepsOtherCharactersFrom(s, i + 1);
      }
    }
  }

  /** Every character that is not a backslash is kept, unchanged and in order. */
  lemma KeepsOtherCharacters(s: string)
    ensures WithoutBackslashes(NormalizeWindowsPath(s)) == WithoutBackslashes(s)
  {
    KeepsOtherCharactersFrom(s, 0);
    assert s[0..] == s;
  }

  /** A pair at or after `i` makes the scan from `i` emit fewer characters than it reads. */
  lemma {:induction false} ShrinksFrom(s: string, i: nat, k: nat)
    requires i <= k && k + 1 < |s| && s[k] == Backslash && s[k + 1] == Backslash
    ensures |NormalizeFrom(s, i)| < |s| - i
    decreases k - i
  {
    if i + 1 < |s| && s[i] == Backslash && s[i + 1] == Backslash {
      NormalizeFromBounds(s, i + 2);
    } else {
      ShrinksFrom(s, i + 1, k);
    }
  }

  /** With a double backslash present, the result is strictly shorter. */
  lemma ShrinksOnDoubleBackslash(s: string)
    requires HasDoubleBackslash(s)
    ensures |NormalizeWindowsPath(s)| < |s|
  {
    var k :| 0 <= k < |s| - 1 && s[k] == Backslash && s[k + 1] == Backslash;
    ShrinksFrom(s, 0, k);
  }

  /** Without a double backslash, the scan from `i` copies the rest of the string. */
  lemma {:induction false} UnchangedFrom(s: string, i: nat)
    requires i <= |s| && !HasDoubleBackslash(s)
    ensures NormalizeFrom(s, i) == s[i..]
    decreases |s| - i
  {
    if i < |s| {
      UnchangedFrom(s, i + 1);
      assert s[i..] == [s[i]] + s[i + 1..];
    }
  }

  /** Without a double backslash, the input comes back unchanged. */
  lemma UnchangedWithoutDoubleBackslash(s: string)
    requires !HasDoubleBackslash(s)
    ensures NormalizeWindowsPath(s) == s
  {
    UnchangedFrom(s, 0);
    assert s[0..] == s;
  }

  /** The string is a fixed point exactly when it holds no two adjacent backslashes. */
  lemma UnchangedIffNoDoubleBackslash(s: string)
    ensures NormalizeWindowsPath(s) == s <==> !HasDoubleBackslash(s)
  {
    if HasDoubleBackslash(s) {
      ShrinksOnDoubleBackslash(s);
    } else {
      UnchangedWithoutDoubleBackslash(s);
    }
  }

  lemma ConsAppend(c: char, a: string, b: string)
    ensures [c] + (a + b) == ([c] + a) + b
  {
  }

  /** A lone backslash before another character or the end is copied. */
  lemma RunOfOne(s: string, i: nat)
    requires i < |s| && s[i] == Backslash && (i + 1 == |s| || s[i + 1] != Backslash)
    ensures NormalizeFrom(s, i) == Backslashes(1) + NormalizeFrom(s, i + 1)
  {
    assert Backslashes(1) == [Backslash];
  }

  /** A pair in front of a run emits one more backslash than the run after it. */
  lemma RunStep(s: string, i: nat, j: nat)
    requires i + 2 <= j <= |s| && s[i] == Backslash && s[i + 1] == Backslash
    requires NormalizeFrom(s, i + 2) == Backslashes((j - i - 1) / 2) + NormalizeFrom(s, j)
    ensures NormalizeFrom(s, i) == Backslashes((j - i + 1) / 2) + NormalizeFrom(s, j)
  {
    var rest := NormalizeFrom(s, j);
    var fewer := Backslashes((j - i - 1) / 2);
    calc {
      NormalizeFrom(s, i);
      [Backslash] + (fewer + rest);
      { ConsAppend(Backslash, fewer, rest); }
      ([Backslash] + fewer) + rest;
      { assert Backslashes((j - i + 1) / 2) == [Backslash] + fewer; }
      Backslashes((j - i + 1) / 2) + rest;
    }
  }

  /**
   * A run of backslashes at positions `i` to `j`, followed by another character
   * or the end, is emitted as ceil((j - i)/2) backslashes before the scan goes on at `j`.
   */
  lemma {:induction false} RunFrom(s: string, i: nat, j: nat)
    requires i <= j <= |s| && AllBackslashes(s, i, j)
    requires j == |s| || s[j] != Backslash
    ensures NormalizeFrom(s, i) == Backslashes((j - i + 1) / 2) + NormalizeFrom(s, j)
    decreases j - i
  {
    if j - i >= 2 {
      RunFrom(s, i + 2, j);
      RunStep(s, i, j);
    } else if j - i == 1 {
      RunOfOne(s, i);
    }
  }

  /** A pair emitted at `i + d` is emitted at `d` in the suffix from `i` too. */
  lemma SuffixStepPair(s: string, i: nat, d: nat)
    requires i + d + 1 < |s| && s[i + d] == Backslash && s[i + d + 1] == Backslash
    requires NormalizeFrom(s, i + d + 2) == NormalizeFrom(s[i..], d + 2)
    ensures NormalizeFrom(s, i + d) == NormalizeFrom(s[i..], d)
  {
    assert s[i..][d] == s[i + d] && s[i..][d + 1] == s[i + d + 1];
  }

  /** A character copied at `i + d` is copied at `d` in the suffix from `i` too. */
  lemma SuffixStepCopy(s: string, i: nat, d: nat)
    requires i + d < |s| && !(i + d + 1 < |s| && s[i + d] == Backslash && s[i + d + 1] == Backslash)
    requires NormalizeFrom(s, i + d + 1) == NormalizeFrom(s[i..], d + 1)
    ensures NormalizeFrom(s, i + d) == NormalizeFrom(s[i..], d)
  {
    assert s[i..][d] == s[i + d];
    assert d + 1 < |s[i..]| ==> s[i..][d + 1] == s[i + d + 1];
  }

  /** The scan from `i + d` equals the scan of the suffix from `i`, started at `d`. */
  lemma {:induction false} ScanOfSuffix(s: string, i: nat, d: nat)
    requires i + d <= |s|
    ensures NormalizeFrom(s, i + d) == NormalizeFrom(s[i..], d)
    decreases |s| - i - d
  {
    if i + d < |s| {
      if i + d + 1 < |s| && s[i + d] == Backslash && s[i + d + 1] == Backslash {
        ScanOfSuffix(s, i, d + 2);
        SuffixStepPair(s, i, d);
      } else {
        ScanOfSuffix(s, i, d + 1);
        SuffixStepCopy(s, i, d);
      }
    }
  }

  /**
   * A boundary `k` right after a character other than a backslash is never inside
   * a matched pair, so the scan up to `k` and the scan from `k` can be done apart.
   */
  lemma {:induction false} ScanSplits(s: string, i: nat, k: nat)
    requires i <= k <= |s| && (k == 0 || s[k - 1] != Backslash)
    ensures NormalizeFrom(s, i) == NormalizeFrom(s[..k], i) + NormalizeFrom(s, k)
    decreases k - i
  {
    if i < k {
      assert s[..k][i] == s[i];
      if i + 1 < k {
        assert s[..k][i + 1] == s[i + 1];
      }
      if i + 1 < |s| && s[i] == Backslash && s[i + 1] == Backslash {
        ScanSplits(s, i + 2, k);
      } else {
        ScanSplits(s, i + 1, k);
      }
    }
  }

  /**
   * A maximal run of backslashes, at positions `i` to `j`, becomes ceil((j - i)/2)
   * backslashes, and what stands before and after it is normalized on its own.
   */
  lemma MaximalRun(s: string, i: nat, j: nat)
    requires i <= j <= |s| && AllBackslashes(s, i, j)
    requires i == 0 || s[i - 1] != Backslash
    requires j == |s| || s[j] != Backslash
    ensures NormalizeWindowsPath(s)
         == NormalizeWindowsPath(s[..i]) + Backslashes((j - i + 1) / 2) + NormalizeWindowsPath(s[j..])
  {
    calc {
      NormalizeWindowsPath(s);
      { ScanSplits(s, 0, i); }
      NormalizeFrom(s[..i], 0) + NormalizeFrom(s, i);
      { RunFrom(s, i, j); }
      NormalizeFrom(s[..i], 0) + (Backslashes((j - i + 1) / 2) + NormalizeFrom(s, j));
      { ScanOfSuffix(s, j, 0); }
      NormalizeFrom(s[..i], 0) + Backslashes((j - i + 1) / 2) + NormalizeFrom(s[j..], 0);
    }
  }

  /** Normalizing twice is not normalizing once: four backslashes become two, then one. */
  lemma NotIdempotent()
    ensures NormalizeWindowsPath(Backslashes(4)) == Backslashes(2)
    ensures NormalizeWindowsPath(NormalizeWindowsPath(Backslashes(4))) == Backslashes(1)
  {
    RunFrom(Backslashes(4), 0, 4);
    RunFrom(Backslashes(2), 0, 2);
  }

  /** Where the run of backslashes starting at `i` ends. */
  function RunEnd(s: string, i: nat): (j: nat)
    requires i <= |s|
    ensures i <= j <= |s| && AllBackslashes(s, i, j)
    ensures j == |s| || s[j] != Backslash
    decreases |s| - i
  {
    if i == |s| || s[i] != Backslash then i else RunEnd(s, i + 1)
  }

  /**
   * An independent description by maximal runs: every run of n backslashes is
   * replaced by ceil(n/2) backslashes, every other character is copied.
   */
  function CollapseRunsFrom(s: string, i: nat): string
    requires i <= |s|
    decreases |s| - i
  {
    if i == |s| then []
    else if s[i] == Backslash then
      var j := RunEnd(s, i);
      Backslashes((j - i + 1) / 2) + CollapseRunsFrom(s, j)
    else [s[i]] + CollapseRunsFrom(s, i + 1)
  }

  /** The number of pairs removed: n/2 (rounded down) for every maximal run of n backslashes. */
  function PairsInRunsFrom(s: string, i: nat): nat
    requires i <= |s|
    decreases |s| - i
  {
    if i == |s| then 0
    else if s[i] == Backslash then
      var j := RunEnd(s, i);
      (j - i) / 2 + PairsInRunsFrom(s, j)
    else PairsInRunsFrom(s, i + 1)
  }

  /** A character other than a backslash is copied. */
  lemma CopiesOther(s: string, i: nat)
    requires i < |s| && s[i] != Backslash
    ensures NormalizeFrom(s, i) == [s[i]] + NormalizeFrom(s, i + 1)
  {
  }

  /** The scan from `i` agrees with the run-by-run description from `i`. */
  lemma {:induction false} ScanCollapsesRuns(s: string, i: nat)
    requires i <= |s|
    ensures NormalizeFrom(s, i) == CollapseRunsFrom(s, i)
    decreases |s| - i
  {
    if i < |s| {
      if s[i] == Backslash {
        var j := RunEnd(s, i);
        RunFrom(s, i, j);
        ScanCollapsesRuns(s, j);
      } else {
        CopiesOther(s, i);
        ScanCollapsesRuns(s, i + 1);
      }
    }
  }

  /** The pairwise scan agrees with the run-by-run description on every input. */
  lemma NormalizeCollapsesRuns(s: string)
    ensures NormalizeWindowsPath(s) == CollapseRunsFrom(s, 0)
  {
    ScanCollapsesRuns(s, 0);
  }

  /** The run-by-run description loses exactly the counted pairs. */
  lemma {:induction false} CollapseRunsLength(s: string, i: nat)
    requires i <= |s|
    ensures |CollapseRunsFrom(s, i)| + PairsInRunsFrom(s, i) == |s| - i
    decreases |s| - i
  {
    if i < |s| {
      if s[i] == Backslash {
        CollapseRunsLength(s, RunEnd(s, i));
      } else {
        CollapseRunsLength(s, i + 1);
      }
    }
  }

  /** The output is shorter than the input by exactly the number of pairs replaced. */
  lemma LengthLosesOnePerPair(s: string)
    ensures |NormalizeWindowsPath(s)| == |s| - PairsInRunsFrom(s, 0)
  {
    NormalizeCollapsesRuns(s);
    CollapseRunsLength(s, 0);
  }
}
