/**
 * The string operations of Go's `strings` package that the event processor
 * uses: `Contains`, `Join` and `ReplaceAll`.
 */
module Text {

  /** `sub` occurs in `s` at position `i`. */
  predicate OccursAt(s: string, sub: string, i: int)
  {
    0 <= i && i + |sub| <= |s| && s[i..i + |sub|] == sub
  }

  /** `strings.Contains(s, sub)`. */
  ghost predicate Contains(s: string, sub: string)
  {
    exists i :: OccursAt(s, sub, i)
  }

  /** `strings.Join(parts, sep)`. */
  function Join(parts: seq<string>, sep: string): (s: string)
    ensures |parts| == 0 ==> s == ""
  {
    if |parts| == 0 then ""
    else if |parts| == 1 then parts[0]
    else parts[0] + sep + Join(parts[1..], sep)
  }

  /**
   * `strings.ReplaceAll(s, pat, r)` for a non-empty `pat`: occurrences are
   * replaced left to right without overlapping.
   */
  function ReplaceAll(s: string, pat: string, r: string): string
    requires |pat| > 0
    decreases |s|
  {
    if |s| < |pat| then s
    else if s[..|pat|] == pat then r + ReplaceAll(s[|pat|..], pat, r)
    else [s[0]] + ReplaceAll(s[1..], pat, r)
  }

  lemma OccursAtShift(s: string, sub: string, i: int, k: nat)
    requires k <= |s| && OccursAt(s[k..], sub, i)
    ensures OccursAt(s, sub, i + k)
  {
    assert s[k..][i..i + |sub|] == s[i + k..i + k + |sub|];
  }

  lemma OccursAtTail(s: string, sub: string, i: int)
    requires OccursAt(s, sub, i) && i >= 1
    ensures OccursAt(s[1..], sub, i - 1)
  {
    assert s[1..][i - 1..i - 1 + |sub|] == s[i..i + |sub|];
  }

  /** Every part of a four-piece concatenation `a + b + c + d` is contained in it. */
  lemma PiecesContained(a: string, b: string, c: string, d: string)
    ensures Contains(a + b + c + d, a) && Contains(a + b + c + d, b)
    ensures Contains(a + b + c + d, c) && Contains(a + b + c + d, d)
  {
    var w := a + b + c + d;
    assert w[0..|a|] == a;
    assert w[|a|..|a| + |b|] == b;
    assert w[|a + b|..|a + b| + |c|] == c;
    assert w[|a + b + c|..|a + b + c| + |d|] == d;
    assert OccursAt(w, a, 0) && OccursAt(w, b, |a|);
    assert OccursAt(w, c, |a + b|) && OccursAt(w, d, |a + b + c|);
  }

  /** Containment is transitive. */
  lemma ContainsTransitive(s: string, mid: string, sub: string)
    requires Contains(s, mid) && Contains(mid, sub)
    ensures Contains(s, sub)
  {
    var i :| OccursAt(s, mid, i);
    var j :| OccursAt(mid, sub, j);
    forall t | 0 <= t < |sub|
      ensures s[i + j + t] == sub[t]
    {
      assert s[i + j + t] == s[i..i + |mid|][j + t];
    }
    assert OccursAt(s, sub, i + j);
  }

  /** Every part of a join occurs in it. */
  lemma {:induction false} JoinContains(parts: seq<string>, sep: string, k: int)
    requires 0 <= k < |parts|
    ensures Contains(Join(parts, sep), parts[k])
    decreases |parts|
  {
    var j := Join(parts, sep);
    if |parts| == 1 {
      assert OccursAt(j, parts[0], 0);
    } else if k == 0 {
      assert j[..|parts[0]|] == parts[0];
      assert OccursAt(j, parts[0], 0);
    } else {
      JoinContains(parts[1..], sep, k - 1);
      var rest := Join(parts[1..], sep);
      var i :| OccursAt(rest, parts[k], i);
      var n := |parts[0] + sep|;
      assert j[n..] == rest;
      OccursAtShift(j, parts[k], i, n);
    }
  }

  /** Text without an occurrence of the pattern is left unchanged. */
  lemma {:induction false} ReplaceAllAbsent(s: string, pat: string, r: string)
    requires |pat| > 0 && !Contains(s, pat)
    ensures ReplaceAll(s, pat, r) == s
    decreases |s|
  {
    if |s| >= |pat| {
      assert !OccursAt(s, pat, 0);
      assert !Contains(s[1..], pat) by {
        if Contains(s[1..], pat) {
          var i :| OccursAt(s[1..], pat, i);
          OccursAtShift(s, pat, i, 1);
        }
      }
      ReplaceAllAbsent(s[1..], pat, r);
      assert [s[0]] + s[1..] == s;
    }
  }

  /**
   * A longer replacement never gives a shorter result, and gives a strictly
   * longer one once the pattern occurs.
   */
  lemma {:induction false} LongerReplacement(s: string, pat: string, r1: string, r2: string)
    requires |pat| > 0 && |r1| < |r2|
    ensures |ReplaceAll(s, pat, r1)| <= |ReplaceAll(s, pat, r2)|
    ensures Contains(s, pat) ==> |ReplaceAll(s, pat, r1)| < |ReplaceAll(s, pat, r2)|
    decreases |s|
  {
    if |s| >= |pat| {
      if s[..|pat|] == pat {
        LongerReplacement(s[|pat|..], pat, r1, r2);
      } else {
        LongerReplacement(s[1..], pat, r1, r2);
        if Contains(s, pat) {
          var i :| OccursAt(s, pat, i);
          assert i >= 1;
          OccursAtTail(s, pat, i);
        }
      }
    }
  }

  /**
   * When the pattern occurs, different replacements give different results:
   * ReplaceAll is injective in the replacement.
   */
  lemma ReplaceAllInjective(s: string, pat: string, r1: string, r2: string)
    requires |pat| > 0 && Contains(s, pat) && r1 != r2
    ensures ReplaceAll(s, pat, r1) != ReplaceAll(s, pat, r2)
  {
    if |r1| < |r2| {
      LongerReplacement(s, pat, r1, r2);
    } else if |r2| < |r1| {
      LongerReplacement(s, pat, r2, r1);
    } else {
      SameLengthInjective(s, pat, r1, r2);
    }
  }

  lemma {:induction false} SameLengthInjective(s: string, pat: string, r1: string, r2: string)
    requires |pat| > 0 && Contains(s, pat) && r1 != r2 && |r1| == |r2|
    ensures ReplaceAll(s, pat, r1) != ReplaceAll(s, pat, r2)
    decreases |s|
  {
    var i :| OccursAt(s, pat, i);
    var a, b := ReplaceAll(s, pat, r1), ReplaceAll(s, pat, r2);
    if s[..|pat|] == pat {
      assert a[..|r1|] == r1 && b[..|r2|] == r2;
    } else {
      assert i >= 1;
      OccursAtTail(s, pat, i);
      SameLengthInjective(s[1..], pat, r1, r2);
      assert a[1..] == ReplaceAll(s[1..], pat, r1) && b[1..] == ReplaceAll(s[1..], pat, r2);
    }
  }
}
