/** `update_terminate_responses`: extend a terminator list with the tokenizer's end markers, then deduplicate. */
module TerminateResponses {
  import opened Wrappers
  import opened Failures
  import opened Tokenizers
  import opened Distinct

  const ImEnd: string := "<|im_end|>"

  /** The tokenizer's own end-of-sequence strings: a truthy string or list `eos_token`. */
  function EosTokenTexts(eos: EosToken): (r: seq<string>)
    ensures eos.NoEosToken? ==> r == []
    ensures eos.EosText? ==> (r == [] <==> eos.text == "")
    ensures eos.EosText? && eos.text != "" ==> r == [eos.text]
    ensures eos.EosTexts? ==> r == eos.texts
  {
    match eos
    case NoEosToken => []
    case EosText(t) => if t == "" then [] else [t]
    case EosTexts(ts) => ts
  }

  /** Look every id up in the reverse vocabulary, failing on the first missing one. */
  function ResolveIds(items: seq<(string, int)>, ids: seq<int>): (r: Result<seq<string>, Failure>)
    ensures r.Ok? <==> forall i :: 0 <= i < |ids| ==> ReverseVocab(items, ids[i]).Some?
    ensures r.Err? ==> r.error == MissingVocabKey
    ensures r.Ok? ==> |r.value| == |ids|
    ensures r.Ok? ==> forall i :: 0 <= i < |ids| ==> (r.value[i], ids[i]) in items
  {
    if |ids| == 0 then Ok([])
    else
      match ReverseVocab(items, ids[0])
      case None => Err(MissingVocabKey)
      case Some(t) =>
        var rest :- ResolveIds(items, ids[1..]);
        Ok([t] + rest)
  }

  /** A single id resolves like the one-element list of it. */
  lemma ResolveOneId(items: seq<(string, int)>, id: int)
    ensures ResolveIds(items, [id]) ==
      if ReverseVocab(items, id).None? then Err(MissingVocabKey) else Ok([ReverseVocab(items, id).value])
  {
    var ids := [id];
    assert ids[1..] == [];
    assert ResolveIds(items, ids[1..]) == Ok([]);
    if ReverseVocab(items, id).Some? {
      assert [ReverseVocab(items, id).value] + [] == [ReverseVocab(items, id).value];
    }
  }

  /**
   * The end strings of the model's generation configuration; consulted only
   * when the tokenizer has both `name_or_path` and `vocab`. A failed lookup
   * contributes nothing, an id missing from the vocabulary raises.
   */
  function GenerationTerminators(tok: Tokenizer, gen: GenerationEos): (r: Result<seq<string>, Failure>)
    ensures !(tok.hasNameOrPath && tok.vocab.Some?) ==> r == Ok([])
    ensures gen.LookupFailed? || gen.NoEosId? ==> r == Ok([])
    ensures r.Ok? && tok.vocab.Some? ==> forall t :: t in r.value ==> exists i :: 0 <= i < |tok.vocab.value| && tok.vocab.value[i].0 == t
    ensures r.Err? ==> r.error == MissingVocabKey && tok.hasNameOrPath && tok.vocab.Some? && (gen.EosId? || gen.EosIds?)
    ensures tok.hasNameOrPath && tok.vocab.Some? && gen.EosId? ==>
      && (r.Ok? <==> exists i :: 0 <= i < |tok.vocab.value| && tok.vocab.value[i].1 == gen.id)
      && (r.Ok? ==> |r.value| == 1 && (r.value[0], gen.id) in tok.vocab.value)
      && r == ResolveIds(tok.vocab.value, [gen.id])
    ensures tok.hasNameOrPath && tok.vocab.Some? && gen.EosIds? ==> r == ResolveIds(tok.vocab.value, gen.ids)
  {
    if !(tok.hasNameOrPath && tok.vocab.Some?) then Ok([])
    else
      var items := tok.vocab.value;
      match gen
      case LookupFailed => Ok([])
      case NoEosId => Ok([])
      case EosId(id) =>
        ResolveOneId(items, id);
        assert ReverseVocab(items, id).Some? ==> (ReverseVocab(items, id).value, id) in items;
        (match ReverseVocab(items, id)
         case None => Err(MissingVocabKey)
         case Some(t) => Ok([t]))
      case EosIds(ids) =>
        var ts :- ResolveIds(items, ids);
        assert forall t :: t in ts ==> exists i :: 0 <= i < |ids| && (t, ids[i]) in items;
        Ok(ts)
  }

  /** Everything a tokenizer appends before deduplication, in the order the source appends it. */
  function TokenizerTerminators(tok: Tokenizer, gen: GenerationEos): (r: Result<seq<string>, Failure>)
    ensures r.Ok? <==> GenerationTerminators(tok, gen).Ok?
    ensures r.Err? ==> r.error == MissingVocabKey
    ensures r.Ok? ==> ImEnd in tok.addedTokens ==> ImEnd in r.value
    ensures r.Ok? ==> forall t :: t in EosTokenTexts(tok.eosToken) ==> t in r.value
    ensures r.Ok? ==> forall t :: t in GenerationTerminators(tok, gen).value ==> t in r.value
    ensures r.Ok? ==> forall t :: t in r.value ==>
      (t == ImEnd && ImEnd in tok.addedTokens) || t in EosTokenTexts(tok.eosToken) || t in GenerationTerminators(tok, gen).value
    ensures r.Ok? ==>
      var k := if ImEnd in tok.addedTokens then 1 else 0;
      var g := GenerationTerminators(tok, gen).value;
      && |r.value| == k + |EosTokenTexts(tok.eosToken)| + |g|
      && (k == 1 ==> r.value[0] == ImEnd)
      && r.value[k..k + |EosTokenTexts(tok.eosToken)|] == EosTokenTexts(tok.eosToken)
      && r.value[|r.value| - |g|..] == g
  {
    var imEnd := if ImEnd in tok.addedTokens then [ImEnd] else [];
    var fromConfig :- GenerationTerminators(tok, gen);
    Ok(imEnd + EosTokenTexts(tok.eosToken) + fromConfig)
  }

  /**
   * `update_terminate_responses`. Without a tokenizer the list is returned as
   * given (`None` read as empty) and is NOT deduplicated; with one, the
   * tokenizer's terminators are appended and the whole list deduplicated
   * keeping first occurrences.
   */
  function UpdateTerminateResponses(terminate: Option<seq<string>>, tok: Option<Tokenizer>, gen: GenerationEos)
    : (r: Result<seq<string>, Failure>)
    ensures tok.None? ==> r == Ok(terminate.GetOr([]))
    ensures tok.Some? ==> (r.Ok? <==> TokenizerTerminators(tok.value, gen).Ok?)
    ensures r.Err? ==> r.error == MissingVocabKey
    ensures tok.Some? && r.Ok? ==> NoDup(r.value)
    ensures tok.Some? && r.Ok? ==> forall w :: w in r.value <==> w in terminate.GetOr([]) || w in TokenizerTerminators(tok.value, gen).value
    ensures tok.Some? && r.Ok? ==>
      var all := terminate.GetOr([]) + TokenizerTerminators(tok.value, gen).value;
      forall i, j :: 0 <= i < j < |r.value| ==> SeenBefore(all, r.value[i], r.value[j])
    ensures tok.Some? && r.Ok? ==>
      var kept := Dedup(terminate.GetOr([]));
      |kept| <= |r.value| && r.value[..|kept|] == kept
  {
    var base := terminate.GetOr([]);
    if tok.None? then Ok(base)
    else
      var extra :- TokenizerTerminators(tok.value, gen);
      DedupIsFirstSeenOrder(base + extra);
      DedupKeepsPrefix(base, extra);
      Ok(Dedup(base + extra))
  }
}
