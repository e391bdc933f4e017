/**
 * Turning a stop word's token ids into the id sequence the detector compares
 * against: special-token stripping, the T5 interior newline rewrite and the
 * synthetic-leading-newline drop.
 */
module TokenNormalise {
  import opened Wrappers
  import opened Failures
  import opened Tokenizers

  /** `r` is the slice of `x` that starts at offset `a`. */
  predicate Infix(r: seq<int>, x: seq<int>, a: nat) {
    a + |r| <= |x| && x[a..a + |r|] == r
  }

  /** Drop the first id when it is `id` and at least one id would remain. */
  function StripFront(x: seq<int>, id: Option<int>): (r: seq<int>)
    ensures |x| <= 1 ==> r == x
    ensures |x| - 1 <= |r| <= |x| && Infix(r, x, |x| - |r|)
    ensures r != x <==> id.Some? && |x| > 1 && x[0] == id.value
    ensures r != x ==> r == x[1..]
  {
    if id.Some? && |x| > 1 && x[0] == id.value then x[1..] else x
  }

  /** Drop the last id when it is `id` and at least one id would remain. */
  function StripBack(x: seq<int>, id: Option<int>): (r: seq<int>)
    ensures |x| <= 1 ==> r == x
    ensures |x| - 1 <= |r| <= |x| && Infix(r, x, 0)
    ensures r != x <==> id.Some? && |x| > 1 && x[|x| - 1] == id.value
    ensures r != x ==> r == x[..|x| - 1]
  {
    if id.Some? && |x| > 1 && x[|x| - 1] == id.value then x[..|x| - 1] else x
  }

  lemma InfixOfSlice(s: seq<int>, x: seq<int>, a: nat, b: nat, t: seq<int>)
    requires Infix(s, x, a)
    requires b + |t| <= |s| && s[b..b + |t|] == t
    ensures Infix(t, x, a + b)
  {
    forall k | 0 <= k < |t| ensures x[a + b + k] == t[k] {
      assert t[k] == s[b + k];
      assert s[b + k] == x[a..a + |s|][b + k];
    }
    assert x[a + b..a + b + |t|] == t;
  }

  /** No leading pad/unk/bos id and no trailing unk/eos/bos id that a strip would remove. */
  predicate IsClean(x: seq<int>, tok: Tokenizer) {
    && StripFront(x, tok.padId) == x
    && StripFront(x, tok.unkId) == x && StripBack(x, tok.unkId) == x
    && StripBack(x, tok.eosId) == x
    && StripFront(x, tok.bosId) == x && StripBack(x, tok.bosId) == x
  }

  /**
   * The special-token strips, in the source's order: pad at the front, unk at
   * both ends, eos at the back, bos at both ends. Each removes one id and only
   * from a sequence longer than one, so a non-empty input stays non-empty.
   */
  function StripSpecialTokens(x: seq<int>, tok: Tokenizer): (r: seq<int>)
    ensures |x| > 0 ==> |r| > 0
    ensures |x| <= 1 ==> r == x
    ensures |r| <= |x|
    ensures IsClean(x, tok) ==> r == x
  {
    var s1 := StripFront(x, tok.padId);
    var s2 := StripFront(s1, tok.unkId);
    var s3 := StripBack(s2, tok.unkId);
    var s4 := StripBack(s3, tok.eosId);
    var s5 := StripFront(s4, tok.bosId);
    StripBack(s5, tok.bosId)
  }

  /** `v` is one of the ids the source strips from the front: pad, unk or bos. */
  predicate FrontSpecial(tok: Tokenizer, v: int) {
    Some(v) == tok.padId || Some(v) == tok.unkId || Some(v) == tok.bosId
  }

  /** `v` is one of the ids the source strips from the back: unk, eos or bos. */
  predicate BackSpecial(tok: Tokenizer, v: int) {
    Some(v) == tok.unkId || Some(v) == tok.eosId || Some(v) == tok.bosId
  }

  /** Everything of `x` before offset `a` is a front special id, everything after the slice `r` a back special id. */
  predicate RemovedAreSpecial(r: seq<int>, x: seq<int>, a: nat, tok: Tokenizer)
    requires Infix(r, x, a)
  {
    && (forall i :: 0 <= i < a ==> FrontSpecial(tok, x[i]))
    && (forall i :: a + |r| <= i < |x| ==> BackSpecial(tok, x[i]))
  }

  /** One front strip of a front special id keeps "special-bordered slice of `x`", moving the offset by the ids it removed. */
  lemma StripFrontStep(s: seq<int>, x: seq<int>, a: nat, id: Option<int>, tok: Tokenizer)
    requires Infix(s, x, a) && RemovedAreSpecial(s, x, a, tok)
    requires id == tok.padId || id == tok.unkId || id == tok.bosId
    ensures var t := StripFront(s, id);
      Infix(t, x, a + |s| - |t|) && RemovedAreSpecial(t, x, a + |s| - |t|, tok)
  {
    var t := StripFront(s, id);
    InfixOfSlice(s, x, a, |s| - |t|, t);
    if t != s {
      assert x[a] == s[0] == id.value;
      assert FrontSpecial(tok, x[a]);
    }
  }

  /** One back strip of a back special id keeps "special-bordered slice of `x`" at the same offset. */
  lemma StripBackStep(s: seq<int>, x: seq<int>, a: nat, id: Option<int>, tok: Tokenizer)
    requires Infix(s, x, a) && RemovedAreSpecial(s, x, a, tok)
    requires id == tok.unkId || id == tok.eosId || id == tok.bosId
    ensures Infix(StripBack(s, id), x, a) && RemovedAreSpecial(StripBack(s, id), x, a, tok)
  {
    var t := StripBack(s, id);
    InfixOfSlice(s, x, a, 0, t);
    if t != s {
      assert x[a + |s| - 1] == s[|s| - 1] == id.value;
      assert BackSpecial(tok, x[a + |t|]);
    }
  }

  /**
   * The stripped ids are a slice of the original with at most three ids gone
   * from either end; every id removed from the front is pad, unk or bos and
   * every id removed from the back is unk, eos or bos.
   */
  lemma StripSpecialTokensIsSlice(x: seq<int>, tok: Tokenizer)
    ensures var r := StripSpecialTokens(x, tok);
      exists a: nat :: a <= 3 && |x| <= a + |r| + 3 && Infix(r, x, a) && RemovedAreSpecial(r, x, a, tok)
  {
    var s1 := StripFront(x, tok.padId);
    var s2 := StripFront(s1, tok.unkId);
    var s3 := StripBack(s2, tok.unkId);
    var s4 := StripBack(s3, tok.eosId);
    var s5 := StripFront(s4, tok.bosId);
    var r := StripBack(s5, tok.bosId);
    assert Infix(x, x, 0);
    StripFrontStep(x, x, 0, tok.padId, tok);
    var a1: nat := |x| - |s1|;
    StripFrontStep(s1, x, a1, tok.unkId, tok);
    var a2: nat := a1 + |s1| - |s2|;
    StripBackStep(s2, x, a2, tok.unkId, tok);
    StripBackStep(s3, x, a2, tok.eosId, tok);
    StripFrontStep(s4, x, a2, tok.bosId, tok);
    var a: nat := a2 + |s4| - |s5|;
    StripBackStep(s5, x, a, tok.bosId, tok);
    assert r == StripSpecialTokens(x, tok);
    assert a <= 3 && |x| <= a + |r| + 3 && Infix(r, x, a) && RemovedAreSpecial(r, x, a, tok);
  }

  /**
   * Stripping is not idempotent: a doubled pad id loses one copy per pass,
   * so normalising an already normalised sequence can change it again.
   */
  lemma StripSpecialTokensNotIdempotent(tok: Tokenizer, a: int)
    requires tok.padId == Some(0) && tok.unkId.None? && tok.eosId.None? && tok.bosId.None?
    requires a != 0
    ensures StripSpecialTokens([0, 0, a], tok) == [0, a]
    ensures StripSpecialTokens([0, a], tok) == [a]
  {
  }

  /**
   * The list comprehension over the interior ids: each id equal to
   * `vocab['\n']` becomes `vocab[' ']`. Looking up `'\n'` happens for every
   * id and `' '` for every matching one; a missing key raises.
   */
  function RewriteInterior(m: seq<int>, newline: Option<int>, space: Option<int>): (r: Result<seq<int>, Failure>)
    ensures r.Err? ==> r.error == MissingVocabKey
    ensures r.Ok? <==> (|m| == 0 || newline.Some?) && (space.Some? || newline.None? || newline.value !in m)
    ensures r.Ok? ==> |r.value| == |m|
    ensures r.Ok? ==> forall i :: 0 <= i < |m| ==> r.value[i] == (if m[i] == newline.value then space.value else m[i])
    decreases |m|
  {
    if |m| == 0 then Ok([])
    else if newline.None? then Err(MissingVocabKey)
    else if m[0] == newline.value && space.None? then Err(MissingVocabKey)
    else
      var head := if m[0] == newline.value then space.value else m[0];
      var tail :- RewriteInterior(m[1..], newline, space);
      Ok([head] + tail)
  }

  /**
   * The T5 fix exactly as the source writes it: `x[0:1] + rewrite(x[1:-1]) + x[-1:]`.
   * For a single id `x[0:1]` and `x[-1:]` are the same id, so it is emitted twice.
   */
  function T5RewriteAsWritten(x: seq<int>, newline: Option<int>, space: Option<int>): (r: Result<seq<int>, Failure>)
    ensures r.Err? ==> r.error == MissingVocabKey
    ensures r.Ok? ==> |r.value| == (if |x| == 1 then 2 else |x|)
  {
    var start := if |x| >= 1 then x[..1] else [];
    var middle := if |x| >= 2 then x[1..|x| - 1] else [];
    var end := if |x| >= 1 then x[|x| - 1..] else [];
    var middle' :- RewriteInterior(middle, newline, space);
    Ok(start + middle' + end)
  }

  /** The length-one case of the source's T5 fix duplicates the token instead of keeping it. */
  lemma T5RewriteAsWrittenDoublesSingleId(a: int, newline: Option<int>, space: Option<int>)
    ensures T5RewriteAsWritten([a], newline, space) == Ok([a, a])
  {
    var x := [a];
    assert RewriteInterior([], newline, space) == Ok([]);
    assert x[..1] == [a];
    assert x[|x| - 1..] == [a];
    assert [a] + [] + [a] == [a, a];
  }

  /**
   * The T5 fix as intended: the first and last ids are kept, every interior
   * id equal to the newline id becomes the space id, the length is unchanged.
   */
  function T5Rewrite(x: seq<int>, newline: Option<int>, space: Option<int>): (r: Result<seq<int>, Failure>)
    ensures r.Err? ==> r.error == MissingVocabKey
    ensures r.Ok? <==> |x| <= 2 || (newline.Some? && (space.Some? || newline.value !in x[1..|x| - 1]))
    ensures r.Ok? ==> |r.value| == |x|
    ensures r.Ok? && |x| > 0 ==> r.value[0] == x[0] && r.value[|x| - 1] == x[|x| - 1]
    ensures r.Ok? ==> forall i :: 0 < i < |x| - 1 ==> r.value[i] == (if x[i] == newline.value then space.value else x[i])
  {
    if |x| < 2 then Ok(x) else T5RewriteAsWritten(x, newline, space)
  }

  /** The T5 fix a rule derivation applies: as the source writes it, or as intended. */
  function T5Fix(x: seq<int>, newline: Option<int>, space: Option<int>, asWritten: bool): Result<seq<int>, Failure> {
    if asWritten then T5RewriteAsWritten(x, newline, space) else T5Rewrite(x, newline, space)
  }

  /**
   * The written and the intended fix fail on the same inputs, and differ
   * only on a one-id sequence, which the written fix doubles.
   */
  lemma T5WrittenVersusIntended(x: seq<int>, newline: Option<int>, space: Option<int>)
    ensures T5RewriteAsWritten(x, newline, space).Ok? <==> T5Rewrite(x, newline, space).Ok?
    ensures T5Rewrite(x, newline, space).Ok? ==>
      T5RewriteAsWritten(x, newline, space).value
        == if |x| == 1 then x + x else T5Rewrite(x, newline, space).value
  {
    if |x| == 1 {
      T5RewriteAsWrittenDoublesSingleId(x[0], newline, space);
      assert x == [x[0]];
    } else if |x| == 0 {
      assert RewriteInterior([], newline, space) == Ok([]);
    }
  }

  /** Beyond a single id the source's T5 fix and the intended one agree. */
  lemma T5RewriteAgreesFromTwoIds(x: seq<int>, newline: Option<int>, space: Option<int>)
    requires |x| >= 2
    ensures T5Rewrite(x, newline, space) == T5RewriteAsWritten(x, newline, space)
  {
  }

  /** After the rewrite no interior id is the newline id, unless the space id is that same id. */
  lemma T5RewriteRemovesInteriorNewlines(x: seq<int>, newline: Option<int>, space: Option<int>)
    requires T5Rewrite(x, newline, space).Ok? && newline.Some? && space != newline
    ensures var r := T5Rewrite(x, newline, space).value;
      forall i :: 0 < i < |r| - 1 ==> r[i] != newline.value
  {
  }

  /** Rewriting an already rewritten sequence changes nothing. */
  lemma T5RewriteIdempotent(x: seq<int>, newline: Option<int>, space: Option<int>)
    requires T5Rewrite(x, newline, space).Ok?
    ensures var r := T5Rewrite(x, newline, space).value;
      T5Rewrite(r, newline, space) == Ok(r)
  {
    var r := T5Rewrite(x, newline, space).value;
    assert |r| == |x|;
    if |x| > 2 {
      var m := r[1..|r| - 1];
      forall i | 0 <= i < |m| && m[i] == newline.value
        ensures space == Some(m[i])
      {
        assert m[i] == r[i + 1];
        assert x[i + 1] == newline.value;
      }
      RewriteInteriorFixes(m, newline, space);
      assert T5RewriteAsWritten(r, newline, space) == Ok(r[..1] + m + r[|r| - 1..]);
      assert r[..1] + m + r[|r| - 1..] == r;
    } else if |x| == 2 {
      assert RewriteInterior([], newline, space) == Ok([]);
      assert r[..1] + [] + r[1..] == r;
    }
  }

  /**
   * The interior rewrite leaves a sequence alone when every newline id in it
   * already equals the space id (in particular when it has no newline id).
   */
  lemma {:induction false} RewriteInteriorFixes(m: seq<int>, newline: Option<int>, space: Option<int>)
    requires |m| == 0 || newline.Some?
    requires forall i :: 0 <= i < |m| && m[i] == newline.value ==> space == Some(m[i])
    ensures RewriteInterior(m, newline, space) == Ok(m)
    decreases |m|
  {
    if |m| > 0 {
      RewriteInteriorFixes(m[1..], newline, space);
      assert [m[0]] + m[1..] == m;
    }
  }

  /** The source's `x[1:]`: all but the first id (nothing for an empty sequence). */
  function DropFirst(x: seq<int>): (r: seq<int>)
    ensures |x| > 0 ==> |r| == |x| - 1
  {
    if |x| == 0 then x else x[1..]
  }

  /**
   * A rule whose word begins with a newline and whose positional flag is set.
   * The flag is the one at the rule's position in the format-and-caller list
   * built before deduplication, so a caller word or a tokenizer terminator
   * that lands in a flagged slot carries it too.
   */
  predicate HasSyntheticNewline(word: string, handleNewline: bool)
    requires |word| > 0
  {
    word[0] == '\n' && handleNewline
  }

  function Min3(a: nat, b: nat, c: nat): nat {
    if a <= b && a <= c then a else if b <= c then b else c
  }

  /**
   * `zip(ids, words, handle_newlines)`, dropping the first id wherever the word
   * starts with a newline and its flag is set. The zip stops at the shortest
   * list; an empty word within that prefix raises `IndexError` on `y[0]`. The
   * drop is not guarded, so it can leave a rule with no ids at all.
   */
  function DropSyntheticNewlines(ids: seq<seq<int>>, words: seq<string>, flags: seq<bool>)
    : (r: Result<seq<seq<int>>, Failure>)
    ensures r.Err? ==> r.error == EmptyStopWord
    ensures r.Ok? <==> forall i :: 0 <= i < Min3(|ids|, |words|, |flags|) ==> |words[i]| > 0
    ensures r.Ok? ==> |r.value| == Min3(|ids|, |words|, |flags|)
    ensures r.Ok? ==> forall i :: 0 <= i < |r.value| ==>
      r.value[i] == if HasSyntheticNewline(words[i], flags[i]) then DropFirst(ids[i]) else ids[i]
    decreases |ids|
  {
    if |ids| == 0 || |words| == 0 || |flags| == 0 then Ok([])
    else if |words[0]| == 0 then Err(EmptyStopWord)
    else
      var head := if HasSyntheticNewline(words[0], flags[0]) then DropFirst(ids[0]) else ids[0];
      var rest :- DropSyntheticNewlines(ids[1..], words[1..], flags[1..]);
      Ok([head] + rest)
  }
}
