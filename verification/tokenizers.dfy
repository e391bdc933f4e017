/**
 * What the stop-rule code reads from a Hugging Face tokenizer. Attributes the
 * code probes with `hasattr` (and then tests for truthiness) are `Option`s.
 */
module Tokenizers {
  import opened Wrappers

  /** `tokenizer.eos_token`: a string, a list of strings, or absent/falsy/of another type. */
  datatype EosToken = NoEosToken | EosText(text: string) | EosTexts(texts: seq<string>)

  /**
   * The `eos_token_id` of the model's generation configuration: the lookup
   * raised `OSError` (swallowed), gave `None`, one id, or a list of ids.
   */
  datatype GenerationEos = LookupFailed | NoEosId | EosId(id: int) | EosIds(ids: seq<int>)

  datatype Tokenizer = Tokenizer(
    encode: string -> seq<int>,        // `tokenizer(word)['input_ids']`, squeezed, a scalar made a length-1 list
    decode: seq<int> -> string,        // `tokenizer.decode`
    addedTokens: set<string>,          // keys of `added_tokens_encoder` (empty when absent)
    eosToken: EosToken,
    hasNameOrPath: bool,               // `hasattr(tokenizer, 'name_or_path')`
    vocab: Option<seq<(string, int)>>, // `tokenizer.vocab.items()` in iteration order, when present
    padId: Option<int>,                // `pad_token_id` when `_pad_token` is set
    unkId: Option<int>,                // `unk_token_id` when `_unk_token` is set
    eosId: Option<int>,                // `eos_token_id` when `_eos_token` is set
    bosId: Option<int>)                // `bos_token_id` when `_bos_token` is set

  /** `vocab[key]`: the id of a token string, `None` standing for a `KeyError`. */
  function VocabId(items: seq<(string, int)>, key: string): (r: Option<int>)
    ensures r.Some? <==> exists i :: 0 <= i < |items| && items[i].0 == key
    ensures r.Some? ==> exists i :: 0 <= i < |items| && items[i] == (key, r.value)
  {
    if |items| == 0 then None
    else if items[|items| - 1].0 == key then Some(items[|items| - 1].1)
    else VocabId(items[..|items| - 1], key)
  }

  /**
   * `{v: k for k, v in vocab.items()}[id]`: the token string of an id; when
   * several strings share the id the one iterated last wins.
   */
  function ReverseVocab(items: seq<(string, int)>, id: int): (r: Option<string>)
    ensures r.Some? <==> exists i :: 0 <= i < |items| && items[i].1 == id
    ensures r.Some? ==> exists i :: 0 <= i < |items| && items[i] == (r.value, id)
                                    && forall j :: i < j < |items| ==> items[j].1 != id
  {
    if |items| == 0 then None
    else if items[|items| - 1].1 == id then Some(items[|items| - 1].0)
    else ReverseVocab(items[..|items| - 1], id)
  }
}
