/** Literal (non-regex) string replacement, as JavaScript's `String.prototype.replace`
    and `String.prototype.replaceAll` perform it for a string pattern: occurrences are
    found scanning left to right, and after a match the scan resumes behind it, so
    matches never overlap. An empty pattern matches at every position. The
    replacement is inserted literally: the `$` substitution patterns (`$&`, `$$`, ...)
    that JavaScript interprets in a replacement string are not modelled. */
module Replace {
  import opened Strings

  /** `s.replace(pat, rep)`: only the leftmost occurrence is replaced, so the result
      is `|pat|` characters shorter and `|rep|` longer when there is one, and the
      same length otherwise. */
  function ReplaceFirst(s: string, pat: string, rep: string): (r: string)
    ensures |r| == if Contains(s, pat) then |s| - |pat| + |rep| else |s|
    decreases |s|
  {
    if StartsWith(s, pat) then rep + s[|pat|..]
    else if s == [] then []
    else [s[0]] + ReplaceFirst(s[1..], pat, rep)
  }

  /** `s.replaceAll(pat, rep)`. Replacing a pattern by itself changes nothing. */
  function ReplaceAll(s: string, pat: string, rep: string): (r: string)
    ensures rep == pat ==> r == s
    decreases |s|
  {
    if pat == [] then
      if s == [] then rep else rep + [s[0]] + ReplaceAll(s[1..], pat, rep)
    else if StartsWith(s, pat) then rep + ReplaceAll(s[|pat|..], pat, rep)
    else if s == [] then []
    else [s[0]] + ReplaceAll(s[1..], pat, rep)
  }

  /** `replace` in terms of positions: when `i` is the leftmost index at which the
      pattern occurs, the result is the text before `i`, the replacement, and the
      text after that occurrence. */
  lemma {:induction false} ReplaceFirstLeftmost(s: string, pat: string, rep: string, i: nat)
    requires OccursAt(s, pat, i)
    requires forall j :: 0 <= j < i ==> !OccursAt(s, pat, j)
    ensures ReplaceFirst(s, pat, rep) == s[..i] + rep + s[i + |pat|..]
    decreases i
  {
    if i == 0 {
      LeftmostAtFront(s, pat, rep);
    } else {
      LeftmostInTail(s, pat, i);
      ReplaceFirstLeftmost(s[1..], pat, rep, i - 1);
      LeftmostCombine(s, pat, rep, i);
    }
  }

  /** An occurrence at index 0 is the one `replace` swaps. */
  lemma LeftmostAtFront(s: string, pat: string, rep: string)
    requires OccursAt(s, pat, 0)
    ensures ReplaceFirst(s, pat, rep) == s[..0] + rep + s[|pat|..]
  {
    assert StartsWith(s, pat);
    assert s[..0] + rep == rep;
  }

  /** Dropping the first character of a string whose leftmost occurrence is at
      `i > 0` moves that leftmost occurrence to `i - 1`. */
  lemma LeftmostInTail(s: string, pat: string, i: nat)
    requires 0 < i && OccursAt(s, pat, i)
    requires forall j :: 0 <= j < i ==> !OccursAt(s, pat, j)
    ensures s != [] && !StartsWith(s, pat)
    ensures OccursAt(s[1..], pat, i - 1)
    ensures forall j :: 0 <= j < i - 1 ==> !OccursAt(s[1..], pat, j)
  {
    assert !OccursAt(s, pat, 0);
    forall j | 0 <= j < i - 1
      ensures !OccursAt(s[1..], pat, j)
    {
      assert !OccursAt(s, pat, j + 1);
      assert s[1..][j..j + |pat|] == s[j + 1..j + 1 + |pat|];
    }
    assert s[1..][i - 1..i - 1 + |pat|] == s[i..i + |pat|];
  }

  /** The step of `ReplaceFirstLeftmost`: the first character is copied in front of
      the tail's result. */
  lemma LeftmostCombine(s: string, pat: string, rep: string, i: nat)
    requires 0 < i && i + |pat| <= |s| && !StartsWith(s, pat)
    requires ReplaceFirst(s[1..], pat, rep) == s[1..][..i - 1] + rep + s[1..][i - 1 + |pat|..]
    ensures ReplaceFirst(s, pat, rep) == s[..i] + rep + s[i + |pat|..]
  {
    UnfoldFirstCopy(s, pat, rep);
    TailSlices(s, i, i + |pat|);
    var x, y := s[1..][..i - 1], s[1..][i - 1 + |pat|..];
    ConcatAssoc([s[0]], x, rep);
    ConcatAssoc([s[0]], x + rep, y);
  }

  /** One step of `replace` where the pattern does not match at the front. */
  lemma UnfoldFirstCopy(s: string, pat: string, rep: string)
    requires s != [] && !StartsWith(s, pat)
    ensures ReplaceFirst(s, pat, rep) == [s[0]] + ReplaceFirst(s[1..], pat, rep)
  {
  }

  /** Slices of `s` expressed through slices of its tail `s[1..]`. */
  lemma TailSlices(s: string, i: nat, j: nat)
    requires 0 < i <= j <= |s|
    ensures s[..i] == [s[0]] + s[1..][..i - 1]
    ensures s[j..] == s[1..][j - 1..]
  {
  }

  /** A string without the pattern is left unchanged by `replace`. */
  lemma {:induction false} ReplaceFirstAbsent(s: string, pat: string, rep: string)
    requires !Contains(s, pat)
    ensures ReplaceFirst(s, pat, rep) == s
    decreases |s|
  {
    if s != [] {
      ReplaceFirstAbsent(s[1..], pat, rep);
    }
  }

  /** A string without the (non-empty) pattern is left unchanged by `replaceAll`. */
  lemma {:induction false} ReplaceAllAbsent(s: string, pat: string, rep: string)
    requires pat != []
    requires !Contains(s, pat)
    ensures ReplaceAll(s, pat, rep) == s
    decreases |s|
  {
    if s != [] {
      ReplaceAllAbsent(s[1..], pat, rep);
      assert s == [s[0]] + s[1..];
    }
  }

  /** An occurrence at the front is replaced and the scan continues behind it. */
  lemma ReplaceAllLeading(pat: string, rep: string, rest: string)
    requires pat != []
    ensures ReplaceAll(pat + rest, pat, rep) == rep + ReplaceAll(rest, pat, rep)
  {
    assert (pat + rest)[..|pat|] == pat;
    assert (pat + rest)[|pat|..] == rest;
  }

  /** The replacement can never help form a new occurrence of the pattern:
      - the pattern's first character does not occur in the replacement, so no
        occurrence can begin inside an inserted replacement;
      - no proper suffix `pat[k..]` of the pattern is compatible with the
        replacement (neither is a prefix of the other), so no occurrence that
        begins in copied text can run into an inserted replacement. */
  ghost predicate CannotRejoin(pat: string, rep: string) {
    && pat != []
    && pat[0] !in rep
    && forall k :: 1 <= k < |pat| ==> !StartsWith(rep, pat[k..]) && !StartsWith(pat[k..], rep)
  }

  /** If the output of `replaceAll` starts with a proper suffix of the pattern,
      then so did its input: no such text is produced by a replacement. */
  lemma {:induction false} SuffixComesFromInput(t: string, pat: string, rep: string, k: nat)
    requires CannotRejoin(pat, rep)
    requires 1 <= k <= |pat|
    requires StartsWith(ReplaceAll(t, pat, rep), pat[k..])
    ensures StartsWith(t, pat[k..])
    decreases |t|
  {
    var w := pat[k..];
    var out := ReplaceAll(t, pat, rep);
    if k == |pat| {
      assert w == [];
    } else if t == [] {
      assert false;
    } else if StartsWith(t, pat) {
      assert false;
    } else {
      var tail := ReplaceAll(t[1..], pat, rep);
      assert out == [t[0]] + tail;
      assert t[0] == w[0];
      assert pat[k + 1..] == w[1..];
      assert tail[..|w| - 1] == out[1..|w|];
      SuffixComesFromInput(t[1..], pat, rep, k + 1);
      assert t[..|w|] == [t[0]] + t[1..][..|w| - 1];
    }
  }

  /** A replacement placed in front of text free of the pattern leaves it free of the pattern. */
  lemma {:induction false} PrefixReplacementKeepsAbsent(rep: string, tail: string, pat: string)
    requires pat != [] && pat[0] !in rep
    requires !Contains(tail, pat)
    ensures !Contains(rep + tail, pat)
    decreases |rep|
  {
    if rep != [] {
      assert (rep + tail)[0] == rep[0];
      assert !StartsWith(rep + tail, pat);
      assert forall c :: c in rep[1..] ==> c in rep;
      PrefixReplacementKeepsAbsent(rep[1..], tail, pat);
      assert (rep + tail)[1..] == rep[1..] + tail;
    } else {
      assert rep + tail == tail;
    }
  }

  /** After `replaceAll` with a replacement that cannot rejoin, no occurrence of the
      pattern is left. */
  lemma {:induction false} ReplaceAllRemovesPattern(s: string, pat: string, rep: string)
    requires CannotRejoin(pat, rep)
    ensures !Contains(ReplaceAll(s, pat, rep), pat)
    decreases |s|
  {
    var out := ReplaceAll(s, pat, rep);
    if s == [] {
      assert out == [];
    } else if StartsWith(s, pat) {
      ReplaceAllRemovesPattern(s[|pat|..], pat, rep);
      PrefixReplacementKeepsAbsent(rep, ReplaceAll(s[|pat|..], pat, rep), pat);
    } else {
      var tail := ReplaceAll(s[1..], pat, rep);
      ReplaceAllRemovesPattern(s[1..], pat, rep);
      assert out == [s[0]] + tail && out[1..] == tail;
      if StartsWith(out, pat) {
        assert s[0] == pat[0];
        assert tail[..|pat| - 1] == out[1..|pat|] == pat[1..];
        SuffixComesFromInput(s[1..], pat, rep, 1);
        assert false;
      }
    }
  }

  /** Rewriting twice is the same as rewriting once. */
  lemma ReplaceAllIdempotent(s: string, pat: string, rep: string)
    requires CannotRejoin(pat, rep)
    ensures ReplaceAll(ReplaceAll(s, pat, rep), pat, rep) == ReplaceAll(s, pat, rep)
  {
    ReplaceAllRemovesPattern(s, pat, rep);
    ReplaceAllAbsent(ReplaceAll(s, pat, rep), pat, rep);
  }

  /** The pattern's first character does not recur inside it, so two occurrences
      can never overlap. */
  ghost predicate NoSelfOverlap(pat: string) {
    pat != [] && forall k :: 1 <= k < |pat| ==> pat[k] != pat[0]
  }

  /** When the text before an occurrence does not itself start with the pattern, no
      occurrence that overlaps it can start at the front either. */
  lemma NoEarlyMatch(a: string, pat: string, b: string)
    requires NoSelfOverlap(pat)
    requires a != [] && !StartsWith(a, pat)
    ensures !StartsWith(a + pat + b, pat)
  {
    var s := a + pat + b;
    if |a| >= |pat| {
      assert s[..|pat|] == a[..|pat|];
    } else {
      // The occurrence at |a| would put pat[0] at index |a| < |pat| of a match.
      assert s[|a|] == pat[0];
      assert s[..|pat|][|a|] != pat[|a|];
    }
  }

  /** `replaceAll` splits at an occurrence of a pattern that cannot overlap itself:
      the text before it and the text after it are rewritten independently, and the
      occurrence itself becomes the replacement. */
  lemma {:induction false} ReplaceAllSplit(a: string, pat: string, rep: string, b: string)
    requires NoSelfOverlap(pat)
    ensures ReplaceAll(a + pat + b, pat, rep) == ReplaceAll(a, pat, rep) + rep + ReplaceAll(b, pat, rep)
    decreases |a|
  {
    if a == [] {
      assert a + pat + b == pat + b;
      ReplaceAllLeading(pat, rep, b);
    } else if StartsWith(a, pat) {
      ReplaceAllSplit(a[|pat|..], pat, rep, b);
      SplitAfterMatch(a, pat, rep, b);
    } else {
      ReplaceAllSplit(a[1..], pat, rep, b);
      SplitAfterCopy(a, pat, rep, b);
    }
  }

  /** The step of `ReplaceAllSplit` where the text before the occurrence starts with
      an occurrence of its own. */
  lemma SplitAfterMatch(a: string, pat: string, rep: string, b: string)
    requires pat != [] && StartsWith(a, pat)
    requires ReplaceAll(a[|pat|..] + pat + b, pat, rep)
      == ReplaceAll(a[|pat|..], pat, rep) + rep + ReplaceAll(b, pat, rep)
    ensures ReplaceAll(a + pat + b, pat, rep) == ReplaceAll(a, pat, rep) + rep + ReplaceAll(b, pat, rep)
  {
    var s := a + pat + b;
    var a' := a[|pat|..];
    assert s[..|pat|] == a[..|pat|];
    UnfoldMatch(s, pat, rep);
    UnfoldMatch(a, pat, rep);
    DropFront(a, pat, b, |pat|);
    var x, y := ReplaceAll(a', pat, rep), ReplaceAll(b, pat, rep);
    ConcatAssoc(rep, x, rep);
    ConcatAssoc(rep, x + rep, y);
  }

  /** The step of `ReplaceAllSplit` where the text before the occurrence starts with
      a character that is copied. */
  lemma SplitAfterCopy(a: string, pat: string, rep: string, b: string)
    requires NoSelfOverlap(pat) && a != [] && !StartsWith(a, pat)
    requires ReplaceAll(a[1..] + pat + b, pat, rep)
      == ReplaceAll(a[1..], pat, rep) + rep + ReplaceAll(b, pat, rep)
    ensures ReplaceAll(a + pat + b, pat, rep) == ReplaceAll(a, pat, rep) + rep + ReplaceAll(b, pat, rep)
  {
    var s := a + pat + b;
    NoEarlyMatch(a, pat, b);
    UnfoldCopy(s, pat, rep);
    UnfoldCopy(a, pat, rep);
    assert s[0] == a[0];
    DropFront(a, pat, b, 1);
    var x, y := ReplaceAll(a[1..], pat, rep), ReplaceAll(b, pat, rep);
    ConcatAssoc([a[0]], x, rep);
    ConcatAssoc([a[0]], x + rep, y);
  }

  /** Dropping the first `k` characters of `a + m + b`, with `k` within `a`. */
  lemma DropFront(a: string, m: string, b: string, k: nat)
    requires k <= |a|
    ensures (a + m + b)[k..] == a[k..] + m + b
  {
  }

  /** One step of `replaceAll` at a match of a non-empty pattern. */
  lemma UnfoldMatch(s: string, pat: string, rep: string)
    requires pat != [] && StartsWith(s, pat)
    ensures ReplaceAll(s, pat, rep) == rep + ReplaceAll(s[|pat|..], pat, rep)
  {
  }

  /** One step of `replaceAll` where a non-empty pattern does not match. */
  lemma UnfoldCopy(s: string, pat: string, rep: string)
    requires pat != [] && s != [] && !StartsWith(s, pat)
    ensures ReplaceAll(s, pat, rep) == [s[0]] + ReplaceAll(s[1..], pat, rep)
  {
  }

  /** Inside an occurrence of a pattern that cannot overlap itself no other
      occurrence starts, so counting from any position within it is counting from
      its end. */
  lemma {:induction false} SkipInside(s: string, pat: string, k: nat)
    requires NoSelfOverlap(pat) && StartsWith(s, pat)
    requires 1 <= k <= |pat|
    ensures Occurrences(s[k..], pat) == Occurrences(s[|pat|..], pat)
    decreases |pat| - k
  {
    if k < |pat| {
      assert s[k] == pat[k];
      assert !StartsWith(s[k..], pat);
      assert s[k..][1..] == s[k + 1..];
      SkipInside(s, pat, k + 1);
    }
  }

  /** Every occurrence of a pattern that cannot overlap itself is replaced, so the
      result holds at least as many occurrences of the (non-empty) replacement as the
      input held of the pattern. */
  lemma {:induction false} ReplaceAllKeepsCount(s: string, pat: string, rep: string)
    requires NoSelfOverlap(pat) && rep != []
    ensures Occurrences(ReplaceAll(s, pat, rep), rep) >= Occurrences(s, pat)
    decreases |s|
  {
    var out := ReplaceAll(s, pat, rep);
    if s == [] {
      assert !StartsWith(s, pat);
    } else if StartsWith(s, pat) {
      var tail := ReplaceAll(s[|pat|..], pat, rep);
      SkipInside(s, pat, 1);
      ReplaceAllKeepsCount(s[|pat|..], pat, rep);
      OccurrencesSuperadditive(rep, tail, rep);
      assert StartsWith(rep, rep);
    } else {
      var tail := ReplaceAll(s[1..], pat, rep);
      ReplaceAllKeepsCount(s[1..], pat, rep);
      assert out == [s[0]] + tail && out[1..] == tail;
    }
  }

  /** A step of the scan at index `i` that copies one character: every step for an
      empty pattern (after inserting the replacement), or a step where no match starts. */
  lemma ScanCopy(s: string, i: nat, pat: string, rep: string)
    requires i < |s|
    requires pat != [] ==> !StartsWith(s[i..], pat)
    ensures ReplaceAll(s[i..], pat, rep)
      == (if pat == [] then rep else []) + [s[i]] + ReplaceAll(s[i + 1..], pat, rep)
  {
    assert s[i..][1..] == s[i + 1..];
  }

  /** A step of the scan at index `i` where a match starts: it is replaced whole. */
  lemma ScanMatch(s: string, i: nat, pat: string, rep: string)
    requires i < |s|
    requires pat != [] && StartsWith(s[i..], pat)
    ensures ReplaceAll(s[i..], pat, rep) == rep + ReplaceAll(s[i + |pat|..], pat, rep)
  {
    assert s[i..][|pat|..] == s[i + |pat|..];
  }

  lemma ConcatAssoc(a: string, b: string, c: string)
    ensures (a + b) + c == a + (b + c)
  {
  }

  /** The left-to-right scan of `replaceAll`: collect the match positions, advancing
      past each match (or by one position for an empty pattern), and copy the text
      between them. */
  method ReplaceAllScan(s: string, pat: string, rep: string) returns (r: string)
    ensures r == ReplaceAll(s, pat, rep)
  {
    r := [];
    var i := 0;
    assert s[i..] == s;
    while i < |s|
      invariant 0 <= i <= |s|
      invariant r + ReplaceAll(s[i..], pat, rep) == ReplaceAll(s, pat, rep)
    {
      var chunk: string, next: nat;
      if pat != [] && StartsWith(s[i..], pat) {
        ScanMatch(s, i, pat, rep);
        chunk, next := rep, i + |pat|;
      } else {
        ScanCopy(s, i, pat, rep);
        chunk, next := (if pat == [] then rep else []) + [s[i]], i + 1;
      }
      ConcatAssoc(r, chunk, ReplaceAll(s[next..], pat, rep));
      r, i := r + chunk, next;
    }
    assert s[i..] == [];
    if pat == [] {
      r := r + rep;
    }
  }
}
