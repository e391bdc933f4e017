/** Order-preserving deduplication of a list, as `update_terminate_responses` does it. */
module Distinct {

  predicate NoDup<T(==)>(s: seq<T>) {
    forall i, j :: 0 <= i < j < |s| ==> s[i] != s[j]
  }

  /** The position of the first occurrence of `x` in `s`. */
  function FirstIndex<T(==)>(s: seq<T>, x: T): (i: nat)
    requires x in s
    ensures i < |s| && s[i] == x && x !in s[..i]
  {
    if s[0] == x then 0 else 1 + FirstIndex(s[1..], x)
  }

  /** `x` is seen in `s` strictly before `y` is. */
  predicate SeenBefore<T(==)>(s: seq<T>, x: T, y: T)
    requires x in s && y in s
  {
    FirstIndex(s, x) < FirstIndex(s, y)
  }

  /**
   * Keep the first occurrence of every element, in the order first seen:
   * the list is walked left to right and an element is appended only when
   * it is not already in the result.
   */
  function Dedup<T(==)>(xs: seq<T>): (r: seq<T>)
    ensures |r| <= |xs|
    decreases |xs|
  {
    if |xs| == 0 then []
    else
      var r := Dedup(xs[..|xs| - 1]);
      if xs[|xs| - 1] in r then r else r + [xs[|xs| - 1]]
  }

  /**
   * The deduplicated list has no duplicates, holds exactly the elements of
   * the input, and lists them in the order of their first occurrence.
   */
  lemma {:induction false} DedupIsFirstSeenOrder<T>(xs: seq<T>)
    ensures NoDup(Dedup(xs))
    ensures forall x :: x in Dedup(xs) <==> x in xs
    ensures forall i, j :: 0 <= i < j < |Dedup(xs)| ==> SeenBefore(xs, Dedup(xs)[i], Dedup(xs)[j])
    decreases |xs|
  {
    if |xs| > 0 {
      var init := xs[..|xs| - 1];
      var last := xs[|xs| - 1];
      DedupIsFirstSeenOrder(init);
      var r := Dedup(init);
      FirstIndexOfPrefix(init, [last]);
      assert xs == init + [last];
      if last !in r {
        assert last !in init;
        FirstIndexIsFirst(xs, last, |xs| - 1);
      }
    }
  }

  /** An element already present in `xs` keeps its first position when the list is extended. */
  lemma FirstIndexOfPrefix<T>(xs: seq<T>, ys: seq<T>)
    ensures forall x :: x in xs ==> FirstIndex(xs + ys, x) == FirstIndex(xs, x)
  {
    forall x | x in xs ensures FirstIndex(xs + ys, x) == FirstIndex(xs, x) {
      var i := FirstIndex(xs, x);
      assert (xs + ys)[i] == x;
      assert (xs + ys)[..i] == xs[..i];
      FirstIndexIsFirst(xs + ys, x, i);
    }
  }

  lemma {:induction false} FirstIndexIsFirst<T>(s: seq<T>, x: T, i: nat)
    requires i < |s| && s[i] == x && x !in s[..i]
    ensures FirstIndex(s, x) == i
  {
    if i > 0 {
      assert s[0] == s[..i][0];
      assert s[1..][..i - 1] == s[1..i];
      FirstIndexIsFirst(s[1..], x, i - 1);
    }
  }

  /** Deduplication removes nothing from a list that has no duplicates. */
  lemma {:induction false} DedupOfNoDup<T>(xs: seq<T>)
    requires NoDup(xs)
    ensures Dedup(xs) == xs
    decreases |xs|
  {
    if |xs| > 0 {
      var init := xs[..|xs| - 1];
      DedupOfNoDup(init);
      assert xs[|xs| - 1] !in init;
      assert xs == init + [xs[|xs| - 1]];
    }
  }

  /** Appending one element to a list only ever appends to its deduplication. */
  lemma DedupSnoc<T>(xs: seq<T>, y: T)
    ensures Dedup(xs + [y]) == Dedup(xs) || Dedup(xs + [y]) == Dedup(xs) + [y]
  {
    var whole := xs + [y];
    assert whole[..|whole| - 1] == xs;
  }

  /**
   * Words already in the list keep their place in front: deduplicating an
   * extended list starts with the deduplication of the original list.
   */
  lemma {:induction false} DedupKeepsPrefix<T>(xs: seq<T>, ys: seq<T>)
    ensures |Dedup(xs)| <= |Dedup(xs + ys)|
    ensures Dedup(xs + ys)[..|Dedup(xs)|] == Dedup(xs)
    decreases |ys|
  {
    if |ys| == 0 {
      assert xs + ys == xs;
    } else {
      var ys' := ys[..|ys| - 1];
      DedupKeepsPrefix(xs, ys');
      assert xs + ys == (xs + ys') + [ys[|ys| - 1]];
      DedupSnoc(xs + ys', ys[|ys| - 1]);
      var a, r, r' := Dedup(xs), Dedup(xs + ys'), Dedup(xs + ys);
      assert r' == r || r' == r + [ys[|ys| - 1]];
      assert r'[..|a|] == r[..|a|];
    }
  }
}
