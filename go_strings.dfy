/**
 * The piece of Go's `strings` package the image resolver relies on: `strings.ReplaceAll`
 * for a non-empty pattern, with `Count` as the measure its contracts are written in.
 * Both scan left to right and take the leftmost match, skipping past it,
 * so the matches they see never overlap.
 */
module GoStrings {

  /** `p` occurs in `s` starting at index `i`. */
  predicate MatchAt(s: string, p: string, i: nat) {
    i + |p| <= |s| && s[i..i + |p|] == p
  }

  /** `strings.Contains(s, p)`. */
  predicate Contains(s: string, p: string) {
    exists i: nat | i <= |s| :: MatchAt(s, p, i)
  }

  /** `strings.ReplaceAll(s, p, r)`: every leftmost, non-overlapping occurrence of `p` becomes `r`. */
  function ReplaceAll(s: string, p: string, r: string): string
    requires |p| > 0
    decreases |s|
  {
    if |s| == 0 then []
    else if p <= s then r + ReplaceAll(s[|p|..], p, r)
    else [s[0]] + ReplaceAll(s[1..], p, r)
  }

  /** The number of non-overlapping occurrences that `ReplaceAll` rewrites (what `strings.Count` returns). */
  function Count(s: string, p: string): nat
    requires |p| > 0
    decreases |s|
  {
    if |s| == 0 then 0
    else if p <= s then 1 + Count(s[|p|..], p)
    else Count(s[1..], p)
  }

  /** A match that is not at the front of `s` is a match in `s[1..]`, one place earlier. */
  lemma MatchAtTail(s: string, p: string, i: nat)
    requires |s| > 0 && i > 0
    ensures MatchAt(s, p, i) <==> MatchAt(s[1..], p, i - 1)
  {
  }

  /** A match at the front of `s` is exactly a prefix. */
  lemma MatchAtFront(s: string, p: string)
    ensures MatchAt(s, p, 0) <==> p <= s
  {
  }

  /** `Count` is zero exactly when the pattern does not occur. */
  lemma {:induction false} CountZeroIff(s: string, p: string)
    requires |p| > 0
    ensures Count(s, p) == 0 <==> !Contains(s, p)
  {
    if |s| == 0 {
      assert forall i: nat :: !MatchAt(s, p, i);
    } else if p <= s {
      MatchAtFront(s, p);
    } else {
      CountZeroIff(s[1..], p);
      MatchAtFront(s, p);
      if Contains(s, p) {
        var i: nat :| MatchAt(s, p, i);
        MatchAtTail(s, p, i);
      }
      if Contains(s[1..], p) {
        var i: nat :| MatchAt(s[1..], p, i);
        MatchAtTail(s, p, i + 1);
      }
    }
  }

  /** Without an occurrence of the pattern, `ReplaceAll` is the identity. */
  lemma {:induction false} ReplaceAllNoMatch(s: string, p: string, r: string)
    requires |p| > 0 && !Contains(s, p)
    ensures ReplaceAll(s, p, r) == s
  {
    if |s| > 0 {
      MatchAtFront(s, p);
      forall i: nat | MatchAt(s[1..], p, i) ensures false {
        MatchAtTail(s, p, i + 1);
      }
      ReplaceAllNoMatch(s[1..], p, r);
    }
  }

  /** Each rewritten occurrence changes the length by `|r| - |p|`; nothing else changes it. */
  lemma {:induction false} ReplaceAllLength(s: string, p: string, r: string)
    requires |p| > 0
    ensures |ReplaceAll(s, p, r)| == |s| + Count(s, p) * (|r| - |p|)
  {
    if |s| > 0 {
      if p <= s {
        ReplaceAllLength(s[|p|..], p, r);
        MulSucc(Count(s[|p|..], p), |r| - |p|);
      } else {
        ReplaceAllLength(s[1..], p, r);
      }
    }
  }

  /**
   * When the replacement has a different length from the pattern, `ReplaceAll` leaves `s`
   * unchanged exactly when the pattern does not occur in it.
   */
  lemma ReplaceAllUnchangedIff(s: string, p: string, r: string)
    requires |p| > 0 && |r| != |p|
    ensures ReplaceAll(s, p, r) == s <==> !Contains(s, p)
  {
    CountZeroIff(s, p);
    if !Contains(s, p) {
      ReplaceAllNoMatch(s, p, r);
    } else {
      ReplaceAllLength(s, p, r);
      MulNonZero(Count(s, p), |r| - |p|);
    }
  }

  /** The first character `ReplaceAll` produces: the replacement's, or the kept one. */
  lemma ReplaceAllHead(t: string, p: string, r: string)
    requires |p| > 0 && |r| > 0 && |t| > 0
    ensures |ReplaceAll(t, p, r)| > 0
    ensures ReplaceAll(t, p, r)[0] == if p <= t then r[0] else t[0]
  {
  }

  /** Helper arithmetic for `ReplaceAllLength`: one more match adds one more length change. */
  lemma MulSucc(c: int, d: int)
    ensures (c + 1) * d == c * d + d
  {
  }

  /** Helper arithmetic for `ReplaceAllUnchangedIff`: at least one match of a length change is a change. */
  lemma MulNonZero(c: int, d: int)
    requires c >= 1 && d != 0
    ensures c * d != 0
  {
  }

  /**
   * If the output begins with a text `w` that does not contain the first character of the
   * replacement, no replacement happened inside that prefix, so the input begins with `w` too.
   */
  lemma {:induction false} ReplaceAllPrefix(t: string, p: string, r: string, w: string)
    requires |p| > 0 && |r| > 0 && r[0] !in w
    ensures w <= ReplaceAll(t, p, r) ==> w <= t
  {
    if |w| > 0 && |t| > 0 {
      ReplaceAllHead(t, p, r);
      var rest := ReplaceAll(t[1..], p, r);
      assert r[0] !in w[1..] by {
        forall k | 0 <= k < |w[1..]| ensures w[1..][k] != r[0] {
          assert w[1..][k] == w[k + 1];
        }
      }
      ReplaceAllPrefix(t[1..], p, r, w[1..]);
      if !(p <= t) {
        assert ReplaceAll(t, p, r) == [t[0]] + rest;
        assert w == [w[0]] + w[1..];
      }
    }
  }

  /**
   * The pattern cannot survive `ReplaceAll` when (i) the replacement does not begin with it
   * and is at least as long, (ii) the pattern's first character occurs in the replacement
   * only at its front, and (iii) the replacement's first character does not occur after the
   * pattern's front. Then no occurrence lies inside a replacement, straddles one, or is
   * assembled from a kept character and what follows it.
   */
  lemma {:induction false} ReplaceAllRemovesPattern(s: string, p: string, r: string)
    requires |p| > 0 && |r| >= |p| && !(p <= r)
    requires p[0] !in r[1..] && r[0] !in p[1..]
    ensures !Contains(ReplaceAll(s, p, r), p)
  {
    if |s| > 0 {
      var o := ReplaceAll(s, p, r);
      if p <= s {
        var rest := ReplaceAll(s[|p|..], p, r);
        ReplaceAllRemovesPattern(s[|p|..], p, r);
        assert o == r + rest;
        forall j: nat ensures !MatchAt(o, p, j) {
          if j == 0 {
            assert o[..|p|] == r[..|p|];
          } else if j < |r| {
            assert r[1..][j - 1] == r[j];
            if j + |p| <= |o| {
              assert o[j..j + |p|][0] == r[j];
            }
          } else if j + |p| <= |o| {
            assert o[j..j + |p|] == rest[j - |r|..j - |r| + |p|];
            assert !MatchAt(rest, p, j - |r|);
          }
        }
      } else {
        var rest := ReplaceAll(s[1..], p, r);
        ReplaceAllRemovesPattern(s[1..], p, r);
        assert o == [s[0]] + rest;
        forall j: nat ensures !MatchAt(o, p, j) {
          if j == 0 {
            ReplaceAllPrefix(s[1..], p, r, p[1..]);
            assert p == [p[0]] + p[1..];
            assert (p <= o) == (s[0] == p[0] && p[1..] <= rest);
          } else {
            assert o[1..] == rest;
            MatchAtTail(o, p, j);
          }
        }
      }
    }
  }

  /** A pattern whose first character is absent from `s` does not occur in `s`. */
  lemma AbsentFirstChar(s: string, p: string)
    requires |p| > 0 && p[0] !in s
    ensures !Contains(s, p)
  {
  }
}
