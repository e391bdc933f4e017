/** The few Python string operations the stop rules rely on. */
module Text {

  predicate IsPrefix(p: string, s: string) {
    |p| <= |s| && s[..|p|] == p
  }

  /** Python's `w in s` for strings: `w` occurs somewhere in `s` (the empty string occurs everywhere). */
  predicate Contains(s: string, w: string)
    decreases |s|
  {
    IsPrefix(w, s) || (|s| > 0 && Contains(s[1..], w))
  }

  /** An occurrence of `w` in `s` at offset `i`. */
  predicate OccursAt(s: string, w: string, i: nat) {
    i + |w| <= |s| && s[i..i + |w|] == w
  }

  lemma {:induction false} ContainsIffOccurs(s: string, w: string)
    ensures Contains(s, w) <==> exists i: nat :: OccursAt(s, w, i)
    decreases |s|
  {
    if IsPrefix(w, s) {
      assert OccursAt(s, w, 0);
    } else if |s| == 0 {
      assert !OccursAt(s, w, 0);
    } else {
      ContainsIffOccurs(s[1..], w);
      if Contains(s[1..], w) {
        var i: nat :| OccursAt(s[1..], w, i);
        assert s[i + 1..i + 1 + |w|] == s[1..][i..i + |w|];
        assert OccursAt(s, w, i + 1);
      } else {
        forall i: nat ensures !OccursAt(s, w, i) {
          OccursShift(s, w, i);
        }
      }
    }
  }

  lemma OccursShift(s: string, w: string, i: nat)
    requires |s| > 0
    ensures OccursAt(s, w, i) && i > 0 ==> OccursAt(s[1..], w, i - 1)
  {
    if OccursAt(s, w, i) && i > 0 {
      assert s[1..][i - 1..i - 1 + |w|] == s[i..i + |w|];
    }
  }

  lemma OccursUnshift(s: string, w: string, i: nat)
    requires |s| > 0
    ensures OccursAt(s[1..], w, i) ==> OccursAt(s, w, i + 1)
  {
    if OccursAt(s[1..], w, i) {
      assert s[1..][i..i + |w|] == s[i + 1..i + 1 + |w|];
    }
  }

  predicate IsLowerAscii(c: char) {
    'a' <= c <= 'z'
  }

  /** Python's `str.upper()` restricted to ASCII letters. */
  function UpperChar(c: char): (u: char)
    ensures !IsLowerAscii(u)
    ensures IsLowerAscii(c) ==> u as int == c as int - 32
    ensures !IsLowerAscii(c) ==> u == c
  {
    if IsLowerAscii(c) then (c as int - 32) as char else c
  }

  function Upper(s: string): (r: string)
    ensures |r| == |s|
    ensures forall i :: 0 <= i < |s| ==> r[i] == UpperChar(s[i])
  {
    seq(|s|, i requires 0 <= i < |s| => UpperChar(s[i]))
  }

  /** Upper-casing leaves no lower-case ASCII letter behind, and doing it twice changes nothing. */
  lemma UpperIsUpperAndIdempotent(s: string)
    ensures forall i :: 0 <= i < |s| ==> !IsLowerAscii(Upper(s)[i])
    ensures Upper(Upper(s)) == Upper(s)
  {
  }

  /** Python's `s.replace(pat, rep)`: every non-overlapping occurrence of `pat`, scanning left to right. */
  function Replace(s: string, pat: string, rep: string): (r: string)
    requires |pat| > 0
    ensures !Contains(s, pat) ==> r == s
    ensures |rep| == |pat| ==> |r| == |s|
    decreases |s|
  {
    if |s| < |pat| then s
    else if s[..|pat|] == pat then rep + Replace(s[|pat|..], pat, rep)
    else [s[0]] + Replace(s[1..], pat, rep)
  }

  /** Replacing a pattern by itself changes nothing. */
  lemma {:induction false} ReplaceByItself(s: string, pat: string)
    requires |pat| > 0
    ensures Replace(s, pat, pat) == s
    decreases |s|
  {
    if |s| >= |pat| {
      if s[..|pat|] == pat {
        ReplaceByItself(s[|pat|..], pat);
        assert s == pat + s[|pat|..];
      } else {
        ReplaceByItself(s[1..], pat);
        assert s == [s[0]] + s[1..];
      }
    }
  }

  /** A prefix none of whose characters can start `pat` passes through unchanged. */
  lemma {:induction false} ReplaceKeepsPrefix(p: string, s: string, pat: string, rep: string)
    requires |pat| > 0
    requires forall i :: 0 <= i < |p| ==> p[i] != pat[0]
    ensures Replace(p + s, pat, rep) == p + Replace(s, pat, rep)
    decreases |p|
  {
    if |p| > 0 {
      var t := p + s;
      assert t[0] == p[0];
      assert t[1..] == p[1..] + s;
      ReplaceKeepsPrefix(p[1..], s, pat, rep);
      if |t| >= |pat| {
        assert t[..|pat|][0] != pat[0];
        assert t[..|pat|] != pat;
        assert Replace(t, pat, rep) == [t[0]] + Replace(t[1..], pat, rep);
        assert [p[0]] + (p[1..] + Replace(s, pat, rep)) == p + Replace(s, pat, rep);
      } else {
        assert Replace(s, pat, rep) == s;
      }
    } else {
      assert p + s == s;
    }
  }

  /** An occurrence of `pat` at the front is replaced. */
  lemma ReplaceAtFront(s: string, pat: string, rep: string)
    requires |pat| > 0
    ensures Replace(pat + s, pat, rep) == rep + Replace(s, pat, rep)
  {
    var t := pat + s;
    assert t[..|pat|] == pat;
    assert t[|pat|..] == s;
  }

  /** A string holding exactly one possible start of `pat`, at an occurrence of it, has that occurrence replaced. */
  lemma ReplaceSingle(pre: string, pat: string, post: string, rep: string)
    requires |pat| > 0
    requires forall i :: 0 <= i < |pre| ==> pre[i] != pat[0]
    requires forall i :: 0 <= i < |post| ==> post[i] != pat[0]
    ensures Replace(pre + pat + post, pat, rep) == pre + rep + post
  {
    ReplaceKeepsPrefix(post, [], pat, rep);
    assert post + [] == post;
    assert Replace([], pat, rep) == [];
    var tail := Replace(post, pat, rep);
    assert tail == post;
    ReplaceAtFront(post, pat, rep);
    ReplaceKeepsPrefix(pre, pat + post, pat, rep);
    assert pre + pat + post == pre + (pat + post);
    assert pre + (rep + post) == pre + rep + post;
  }

  /** Where `pat` does not occur at the front, the first character is kept and the scan moves on by one. */
  lemma ReplaceStep(t: string, pat: string, rep: string)
    requires |pat| > 0 && |t| > 0 && !OccursAt(t, pat, 0)
    ensures Replace(t, pat, rep) == [t[0]] + Replace(t[1..], pat, rep)
  {
    if |t| < |pat| {
      assert Replace(t[1..], pat, rep) == t[1..];
      assert [t[0]] + t[1..] == t;
    } else {
      assert t[..|pat|] != pat;
    }
  }

  /** Dropping the first character of a prefix free of `pat` leaves a prefix free of `pat`. */
  lemma NoOccurrenceInTail(p: string, s: string, pat: string)
    requires |p| > 0
    requires forall i :: 0 <= i < |p| ==> !OccursAt(p + s, pat, i)
    ensures forall i :: 0 <= i < |p| - 1 ==> !OccursAt(p[1..] + s, pat, i)
  {
    var t := p + s;
    assert t[1..] == p[1..] + s;
    forall i | 0 <= i < |p| - 1 ensures !OccursAt(p[1..] + s, pat, i) {
      OccursUnshift(t, pat, i);
    }
  }

  /** A prefix at none of whose offsets `pat` occurs in `p + s` passes through unchanged. */
  lemma {:induction false} ReplaceSkipsPrefix(p: string, s: string, pat: string, rep: string)
    requires |pat| > 0
    requires forall i :: 0 <= i < |p| ==> !OccursAt(p + s, pat, i)
    ensures Replace(p + s, pat, rep) == p + Replace(s, pat, rep)
    decreases |p|
  {
    var t := p + s;
    if |p| == 0 {
      assert t == s;
    } else {
      ReplaceStep(t, pat, rep);
      assert t[1..] == p[1..] + s;
      NoOccurrenceInTail(p, s, pat);
      ReplaceSkipsPrefix(p[1..], s, pat, rep);
      assert [p[0]] + (p[1..] + Replace(s, pat, rep)) == p + Replace(s, pat, rep);
    }
  }

  /**
   * The leftmost occurrence is replaced and the scan resumes after it: when
   * `pat` first occurs in `p + pat + q` at `|p|`, the result is `p + rep`
   * followed by the replacement of `q`.
   */
  lemma ReplaceFirstOccurrence(p: string, pat: string, q: string, rep: string)
    requires |pat| > 0
    requires forall i :: 0 <= i < |p| ==> !OccursAt(p + pat + q, pat, i)
    ensures Replace(p + pat + q, pat, rep) == p + rep + Replace(q, pat, rep)
  {
    assert p + pat + q == p + (pat + q);
    ReplaceSkipsPrefix(p, pat + q, pat, rep);
    ReplaceAtFront(q, pat, rep);
    assert p + (rep + Replace(q, pat, rep)) == p + rep + Replace(q, pat, rep);
  }
}
