# Stop criteria for token-by-token generation, in Dafny

This project models `src/stopping.py` of h2oGPT. That file decides when
autoregressive text generation must halt. It has three parts:

- **Stop-rule derivation** (`get_stopping`, `update_terminate_responses`).
  A conversation format gives an ordered list of stop words and a list of
  encounter thresholds. The caller's extra `stop` words are appended. The
  tokenizer's end markers are appended and the list is deduplicated. The
  base model's extra stop strings are appended. Every word is then encoded
  and its token ids are normalised: special tokens are stripped, the T5
  newline fix is applied, and the synthetic leading newline is dropped.
- **The detector** (`StoppingCriteriaSub`). It is called once per decoding
  step and works on per-rule counters, a `token_start` offset, a fixed start
  time, a time budget and a length cut-off.
- **The glue** that builds the detector, or no detector when there is no
  rule: no format or caller word, or no word that encodes to any ids.

The detector's mutable fields are a `Detector` record, and each call is the
pure function `Detector.Step`. It takes the state, the token sequence so far,
the clock reading and the tokenizer's `decode`, and returns the decision and
the next state. The tokenizer is a `Tokenizers.Tokenizer` record. Its
`encode` and `decode` are uninterpreted function values. Each attribute that
the source probes with `hasattr` and a truthiness test is an `Option`. Python
exceptions on the modelled error paths are `Failures.Failure` values inside a
`Wrappers.Result`:

- `KeyError` from a vocabulary lookup;
- `IndexError` from `y[0]` on an empty stop word;
- the construction `AssertionError`;
- the `ZeroDivisionError` of `len(stops) % len(encounters)`.

Modules: `Wrappers` and `Failures` (in `wrappers.dfy`), `Text` (Python's
`in`, `upper`, `replace`), `Distinct` (order-preserving dedup), `Tokenizers`,
`TerminateResponses`, `TokenNormalise`, `Detector` and `StopRules`
(`get_stopping`).

Behaviours of the code worth knowing, which the model follows as written:

- `instruct_with_end` belongs to the "user/human/assistant" group, so it gets
  the ten `### Human:` / `### Assistant:` spellings. The `['### End']`
  branch (src/stopping.py:158-161) cannot be reached and is not modelled.
- Thresholds are `encounters[i % len(encounters)]`. For the ten instruct
  spellings they therefore alternate 1, 2 by position. They are not "1 for
  the Human family, 2 for the Assistant family"
  (`StopRules.FormatThresholdsAlternate`).
- Empty encodings are filtered before the leading-newline drop, and nothing
  is filtered after it. A rule whose ids the drop empties is therefore not
  inert. Python's `x[-0:]` makes its window the whole scanned sequence, so it
  matches whenever that decodes to text containing its word
  (`Detector.EmptyRuleMatchesWholeScan`).
- Special-token stripping is not idempotent. A doubled pad id loses one copy
  per pass (`TokenNormalise.StripSpecialTokensNotIdempotent`). What does hold
  is that a sequence with nothing to strip is returned unchanged.
- The time budget triggers when elapsed time is strictly greater than
  `max_time`, not when it is equal.
- Caller `stop` words get threshold 1 each, appended to the format's
  `[1, 2]`. With the human/bot format, `4 + k` words then meet `2 + k`
  thresholds, which is never a multiple for `k >= 1`. With the instruct
  group, `10 + k` words are a multiple only for `k` of 0, 2 or 6. For
  distinct words that all encode, the constructor's assertion at
  src/stopping.py:50 then fails, unless a `KeyError` comes first
  (`StopRules.CallerStopsBreakThresholds`,
  `StopRules.InstructCallerStopsBreakThresholds`). Whether callers combine the two
  is outside this file, so this is recorded here rather than as a finding.
- The newline flags are built before deduplication and zipped with the
  words after it (src/stopping.py:165-173, 202-203), so they are
  positional. When deduplication removes an earlier word, a later word moves
  into a flagged slot. For example, with `human == bot == "a"` and the caller
  word `"\nx"`, the list `[a, a, \na, \na, \nx]` becomes `[a, \na, \nx]`.
  The caller word then loses its first id although caller words are meant to
  keep theirs (`StopRules.DedupShiftsNewlineFlag`).
- Only `len(handle_newlines)` rules survive the three-way `zip` at
  src/stopping.py:202, which counts the format and caller words only. The
  tokenizer's terminators and the model's extra strings become rules only when
  deduplication or empty encodings shifted them into that range. The detector
  still receives the full word list and pairs it with the rules by position.

## Model

| member | source | states |
|---|---|---|
| Distinct.Dedup | src/stopping.py:39-41 | deduplication never lengthens the list (its full characterisation is the next row) |
| Distinct.DedupIsFirstSeenOrder | src/stopping.py:39-41 | the deduplicated list has no duplicates, holds exactly the input's elements, and orders them by first occurrence in the input |
| Distinct.DedupKeepsPrefix | src/stopping.py:39-41 | deduplicating an extended list starts with the deduplication of the original list, so earlier words keep their places |
| Distinct.DedupOfNoDup | src/stopping.py:39-41 | a list without duplicates is unchanged by deduplication |
| Tokenizers.ReverseVocab | src/stopping.py:25 | inverting the vocabulary finds a string for an id iff some entry has that id, and the pair it returns is an entry of the vocabulary |
| Tokenizers.VocabId | src/stopping.py:199 | `vocab[key]` succeeds iff some entry has that key, and then returns that entry's id |
| TerminateResponses.ResolveIds | src/stopping.py:32-34 | a list of eos ids resolves iff every id is in the reverse vocabulary, to one vocabulary string per id; otherwise it raises a missing-key error |
| TerminateResponses.GenerationTerminators | src/stopping.py:24-38 | the generation-config lookup is consulted only with both `name_or_path` and `vocab`; a failed lookup or `None` contributes nothing; a single id resolves iff some vocabulary entry has it, to one string paired with it in the vocabulary, exactly as the one-element list of that id would; a list of ids resolves as `ResolveIds` does; only a missing id raises, as a missing-key error |
| TerminateResponses.TokenizerTerminators | src/stopping.py:16-38 | the additions are `<|im_end|>` (first, when it is an added token), then the truthy `eos_token` string or list in order, then the generation-config strings as the suffix, and nothing else; the length is the sum of the three parts; only the generation-config lookup can raise |
| TerminateResponses.UpdateTerminateResponses | src/stopping.py:10-42 | without a tokenizer the list is returned as given (`None` as empty) and not deduplicated; with one, the result has no duplicates, contains exactly the given words plus the tokenizer's terminators, is in first-seen order, and starts with the deduplicated given words |
| TerminateResponses.EosTokenTexts | src/stopping.py:18-22 | an absent or falsy `eos_token` adds nothing, a non-empty string adds itself, and a list adds all its strings in order |
| TokenNormalise.StripSpecialTokens | src/stopping.py:183-192 | stripping never empties a non-empty sequence, leaves sequences of length at most one alone, never lengthens, and returns a sequence with nothing to strip unchanged |
| TokenNormalise.StripFront | src/stopping.py:184 | `x[1:] if x[0] == id and len(x) > 1 else x`: the sequence changes iff the token is set, there are at least two ids and the first is that token, and then exactly the first id is removed |
| TokenNormalise.StripBack | src/stopping.py:187 | `x[:-1] if x[-1] == id and len(x) > 1 else x`: the sequence changes iff the token is set, there are at least two ids and the last is that token, and then exactly the last id is removed |
| TokenNormalise.StripSpecialTokensIsSlice | src/stopping.py:183-192 | the stripped ids are a contiguous slice of the encoding with at most three ids gone from the front and three from the back; every id removed from the front is the pad, unk or bos id and every id removed from the back is the unk, eos or bos id |
| TokenNormalise.StripSpecialTokensNotIdempotent | src/stopping.py:183-184 | with a pad id p, `[p, p, a]` strips to `[p, a]`, which strips again to `[a]` |
| TokenNormalise.RewriteInterior | src/stopping.py:199 | the interior rewrite succeeds iff `'\n'` is in the vocabulary (when there is an interior) and `' '` is too whenever a newline id occurs; then each newline id becomes the space id and every other id is kept |
| TokenNormalise.T5Rewrite | src/stopping.py:193-200 | the T5 fix keeps the length and the first and last ids, replaces exactly the interior newline ids by the space id, and fails only on a missing vocabulary key |
| TokenNormalise.T5RewriteAsWritten | src/stopping.py:196-200 | the fix as written fails only with a missing-key error, keeps the length of every sequence except a one-id one, and makes that two ids long |
| TokenNormalise.T5WrittenVersusIntended | src/stopping.py:196-200 | the written and the intended fix fail on the same inputs; on success they agree except on a one-id sequence `x`, which the written fix turns into `x + x` |
| TokenNormalise.T5RewriteAsWrittenDoublesSingleId | src/stopping.py:196-200 | the fix as written turns a one-id sequence `[a]` into `[a, a]` |
| TokenNormalise.T5RewriteAgreesFromTwoIds | src/stopping.py:196-200 | for two or more ids the written and the intended fix coincide |
| TokenNormalise.T5RewriteRemovesInteriorNewlines | src/stopping.py:193-200 | after the fix no interior id is the newline id, when the space id differs from it |
| TokenNormalise.T5RewriteIdempotent | src/stopping.py:193-200 | applying the fix to its own result changes nothing |
| TokenNormalise.RewriteInteriorFixes | src/stopping.py:199 | the interior rewrite returns its input unchanged when every newline id in it already equals the space id |
| TokenNormalise.DropSyntheticNewlines | src/stopping.py:201-203 | the three-way zip yields as many rules as the shortest list; a rule loses its first id iff its word starts with a newline and its flag is set; an empty word in range raises `IndexError` |
| StopRules.FormatStopRules | src/stopping.py:124-164 | human/bot formats give the two markers with and without a leading newline and thresholds `[1, 2]`; the instruct group gives ten spellings with `[1, 2]`: the plain `Human` and `Assistant` spellings for vicuna, guanaco, one-shot and instruct-with-end, upper-cased ones for vicuna2 and `User` for vicuna3; any other format gives the prompter's terminators each with threshold 1; words and thresholds are empty together, and the word count is a multiple of the threshold count |
| StopRules.Vicuna3Words | src/stopping.py:154-156 | for vicuna3 the five `Human` spellings become the matching `User` spellings and the `Assistant` spellings are unchanged |
| StopRules.Vicuna2Words | src/stopping.py:151-153 | for vicuna2 the ten spellings are the upper-cased ones (`### HUMAN:`, ..., `###  ASSISTANT:`) |
| StopRules.StopWordLists | src/stopping.py:165-171 | caller `stop` words are appended after the format's words with threshold 1 each; exactly the format-derived words are flagged for newline handling, so there is one flag per word |
| StopRules.FormatThresholdsAlternate | src/stopping.py:128-130 | without caller extras, rule i of a human/bot or instruct format has threshold 1 if i is even and 2 if odd: human markers 1, bot markers 2, and `"\n### Human:"` 2 while `"\n### Assistant:"` 1 |
| StopRules.ExtrasShiftHumanBotThresholds | src/stopping.py:169-170 | in the lists handed to the constructor, two or more caller extras make the newline-prefixed bot marker's cyclic threshold 1 |
| StopRules.WordCountDecidesMismatch | src/stopping.py:165-216 | when the format-and-caller words are distinct, non-empty and all encode, a word count that is not a multiple of the threshold count makes `get_stopping` fail the constructor's assertion, whatever the tokenizer appends, unless a missing-key error comes first |
| StopRules.CallerStopsBreakThresholds | src/stopping.py:166-171 | for the human/bot format, any caller stop words (distinct, non-empty, all encoding) make `get_stopping` fail the constructor's assertion or raise a missing-key error: it never builds a detector, because `4 + k` leaves remainder 2 against `2 + k` (the arithmetic helper `StopRules.HumanBotExtrasNeverDivide`) |
| StopRules.InstructCallerStopsBreakThresholds | src/stopping.py:166-171 | for the instruct group, a number of caller stop words other than 0, 2 or 6 (distinct, non-empty, all encoding) makes `get_stopping` fail the assertion or raise a missing-key error, because `10 + k` is a multiple of `2 + k` only for those three (the arithmetic helper `StopRules.InstructExtrasDivide`) |
| StopRules.CallerListsShape | src/stopping.py:128-171 | with caller words, a human/bot or instruct format's word list is its 4 or 10 words followed by the caller's, against `2 + k` thresholds |
| StopRules.DistinctWordsLead | src/stopping.py:173 | words without duplicates keep their places at the head of the updated terminator list |
| StopRules.EncodeAll | src/stopping.py:177-180 | one id list per word, in word order, each the tokenizer's encoding of that word |
| StopRules.NonEmpty | src/stopping.py:181 | the filter returns no more sequences than it gets, and none of them empty |
| StopRules.NonEmptyContents | src/stopping.py:181 | the filter keeps exactly the non-empty id sequences, and returns nothing iff every sequence is empty |
| StopRules.NonEmptyCoversPrefix | src/stopping.py:181 | when the first `n` sequences are non-empty, at least `n` survive the filter |
| StopRules.NonEmptyKeepsOrder | src/stopping.py:181 | filtering a concatenation is filtering each part and concatenating, so the kept sequences stay in input order |
| StopRules.StripAll | src/stopping.py:183-192 | the strips applied to every rule, keeping the count and the order |
| StopRules.T5All | src/stopping.py:195-200 | the T5 fix over all rules succeeds iff it succeeds on each rule; it then keeps the count and gives rule i the fixed rule i; its only error is a missing key |
| StopRules.RuleIds | src/stopping.py:177-200 | every surviving id sequence is non-empty, there are at most as many as words (exactly as many when no word encodes to nothing), and only the T5 fix can raise, as a missing-key error |
| StopRules.RuleIdsEmptyIff | src/stopping.py:177-181 | no rule survives iff every word encodes to no ids |
| StopRules.RuleIdsCoverPrefix | src/stopping.py:177-200 | when the first `n` words all encode to some ids, there are at least `n` rules |
| StopRules.T5AllWrittenDoublesSingleIds | src/stopping.py:193-200 | over a rule list the written and the intended fix fail together and agree rule by rule except that every one-id rule is doubled |
| StopRules.RuleIdsWrittenT5DoublesSingleIds | src/stopping.py:193-200 | without a T5 fix the choice of form changes nothing; with one, the source's rules are the corrected rules with each one-id rule doubled |
| StopRules.GetStopping | src/stopping.py:98-216 | never divides by zero; success implies the terminator update succeeded; a built detector holds the deduplicated words followed by the model's extras, at least one rule and no more rules than format-plus-caller words or than words; it has the thresholds from the word lists, the given budgets and start time, zero counters and no `token_start`; every rule's word is non-empty, and any rule with no ids has a word that starts with a newline and whose flag was set |
| StopRules.GetStoppingRaisesKeyError | src/stopping.py:173-200 | a failing terminator lookup raises its error out of `get_stopping`, and a failing T5 fix raises a missing-key error, only for a T5 model |
| StopRules.GetStoppingOutcome | src/stopping.py:201-216 | with `n` the zipped rule count: an empty word among the first `n` raises `IndexError`; otherwise `n == 0` gives no detector, `n` not a multiple of the threshold count fails the assertion, and any other `n` builds a detector with `n` rules — each iff |
| StopRules.GetStoppingBuildsNothingIff | src/stopping.py:201-216 | a successful call builds no detector iff neither the format nor the caller gave a word, or every word encodes to no ids |
| StopRules.RuleIdsFollowWords | src/stopping.py:177-200 | when every word encodes to at least one id, rule i is word i's encoding with special tokens stripped, followed for a T5 model with a vocabulary by the T5 fix in the selected form |
| StopRules.DedupShiftsNewlineFlag | src/stopping.py:165-203 | with `human == bot == "a"` and caller word `"\nx"`, the updated list is `[a, \na, \nx]`, the caller word's own flag is unset, and yet its rule loses its first id because it lands in a flagged slot (its steps: `StopRules.DoubledMarkersLists` for the pre-dedup lists and flags, `StopRules.DoubledMarkersUpdate` for the deduplicated list, `StopRules.DropFollowsFlags` for the zip) |
| StopRules.GetStoppingAlignsRules | src/stopping.py:173-212 | when every word encodes to at least one id and no T5 fix applies, the detector's words are the deduplicated list followed by the model's extras; there are `min(len(words), len(handle_newlines))` rules; rule i is word i's stripped encoding, minus its first id exactly when the word starts with a newline and the flag at position i of the pre-dedup format-and-caller list is set (the flags are positional, so deduplication can move a caller word or a terminator into a flagged slot) |
| StopRules.GetStoppingScanMode | src/stopping.py:61 | a built detector scans only the new tokens iff its largest threshold is 1; the human/bot and instruct formats, whose thresholds include a 2, always scan the whole sequence, and every other format, whose thresholds are all 1, scans only the new tokens (the format fact is the helper `StopRules.FormatScanThresholds`) |
| StopRules.GetStoppingBuildsFrom | src/stopping.py:173-212 | a built detector is the constructor applied to the zipped rule ids, the updated words followed by the model's extras, and the word lists' thresholds, with the given budgets and start time |
| Detector.NewDetector | src/stopping.py:47-63 | construction fails on zero encounters or on a stop count that is not a multiple of it, and otherwise succeeds; counters start at zero; new-tokens-only mode is on iff 1 is a threshold and no threshold exceeds 1 |
| Detector.Max | src/stopping.py:61 | `max(encounters)`: one of the thresholds and no smaller than any of them |
| Detector.Matches | src/stopping.py:78-82 | a rule with ids matches iff the scan holds at least that many tokens and the last that many decode to text containing its word; a rule with no ids matches iff the whole scan decodes to text containing its word |
| Detector.Threshold | src/stopping.py:84 | `encounters[stopi % len(encounters)]`: always one of the thresholds, and threshold k itself for k below the list's length |
| Detector.TimeUp | src/stopping.py:66 | the budget is spent only when one is set, and not when the elapsed time equals it exactly |
| Detector.TimeUpStaysUp | src/stopping.py:66 | once spent, the budget stays spent at every later clock reading |
| Detector.TruncationDue | src/stopping.py:87-88 | the cut-off applies only with truncation on and a maximum length set, and applies when the sequence is exactly that long |
| Detector.TruncationStaysDue | src/stopping.py:87-88 | once the cut-off applies it applies to every longer sequence |
| Detector.Window | src/stopping.py:78 | `s[-n:]`: a zero-length pattern's window is the whole sequence; otherwise the last `min(n, len(s))` tokens |
| Detector.Scanned | src/stopping.py:73-76 | new-tokens-only mode scans from `token_start` (nothing when the sequence is shorter); otherwise the whole sequence is scanned |
| Detector.Scan | src/stopping.py:77-86 | the loop reports a stop iff some rule in range matches with counter+1 reaching its cyclic threshold; a rule's counter goes up by one iff it matches and no earlier rule fired; other counters are untouched (proof steps: `Detector.FiringRuleEndsScan` for the early return, `Detector.SilentRuleCounts` for a rule that does not fire) |
| Detector.Step | src/stopping.py:65-95 | a spent time budget returns stop and changes nothing; otherwise `token_start` is set only if unset, the counters move as in the loop, nothing else changes, and the result is "some rule fired or the length cut-off applies" |
| Detector.StepCountersMonotone | src/stopping.py:82-83 | one call never lowers a counter and raises none by more than one |
| Detector.StepStopsIffEncounter | src/stopping.py:77-86 | when every rule stops at its next encounter and neither budget applies, a call stops iff some rule's word is in its decoded window |
| Detector.EmptyRuleMatchesWholeScan | src/stopping.py:78-82 | a rule with no ids matches iff the whole scanned sequence decodes to text containing its word |
| Detector.LongRuleNeverMatches | src/stopping.py:78-82 | a rule longer than the scanned tokens never matches |
| Detector.SecondEncounterStops | src/stopping.py:82-86 | a rule with threshold 2 and counter 0 does not stop on its first encounter but does on its second |
| Detector.Run | src/stopping.py:65-95 | a run of calls gives one decision per call and keeps the detector well-formed |
| Detector.RunKeepsConfiguration | src/stopping.py:71-72 | over any run of calls the rules, thresholds, budgets and start time are unchanged, no counter decreases, and a set `token_start` never changes |
| Detector.TimeUpAlwaysStops | src/stopping.py:66-68 | in a run, every call whose clock reading exceeds the budget reports stop, whatever the rules' state |
| Text.ContainsIffOccurs | src/stopping.py:82 | `w in s` holds iff `w` occurs at some offset of `s` |
| Text.Upper | src/stopping.py:153 | upper-casing keeps the length and maps each character on its own |
| Text.UpperIsUpperAndIdempotent | src/stopping.py:153 | upper-casing leaves no lower-case ASCII letter and is idempotent |
| Text.Replace | src/stopping.py:156 | a string without the pattern is unchanged, and a same-length replacement keeps the length |
| Text.ReplaceByItself | src/stopping.py:156 | replacing a pattern by itself changes nothing |
| Text.ReplaceSingle | src/stopping.py:156 | a string with one possible start of the pattern, at an occurrence of it, gets exactly that occurrence replaced |
| Text.ReplaceFirstOccurrence | src/stopping.py:156 | the leftmost occurrence is replaced and the scan resumes after it: when `pat` first occurs in `p + pat + q` at offset `|p|`, the result is `p + rep` followed by the replacement of `q` |
| Text.ReplaceSkipsPrefix | src/stopping.py:156 | a prefix at none of whose offsets the pattern occurs is kept unchanged, and replacement continues after it (its helpers are `Text.ReplaceStep` for one step and `Text.NoOccurrenceInTail` for the shorter prefix) |

Four helpers model source expressions directly and are stated through the
rows that use them: `Text.Contains` is Python's `in` (src/stopping.py:82),
characterised by `Text.ContainsIffOccurs`; `Detector.RuleCount` is the
length of `zip(stops, stop_words)` (src/stopping.py:77), used by
`Detector.Scan`; `Detector.StartAfter` is
`token_start` after a call (src/stopping.py:71-72), used by `Detector.Step`;
`TokenNormalise.HasSyntheticNewline` is `y[0] == '\n' and handle_newline`
(src/stopping.py:202), used by `TokenNormalise.DropSyntheticNewlines`.

## Findings

| source | as written | input that shows it | evidently intended | confidence | as-written member | corrected member |
|---|---|---|---|---|---|---|
| src/stopping.py:196-200 | the T5 fix rebuilds each id sequence as `x[0:1] + rewrite(x[1:-1]) + x[-1:]` | a stop word whose stripped ids are one id `[a]`: `x[0:1]` and `x[-1:]` are both `[a]`, so the rule becomes `[a, a]` | rewrite only interior ids, keeping the length and a one-id sequence unchanged | medium, not executed | TokenNormalise.T5RewriteAsWritten | TokenNormalise.T5Rewrite |

`StopRules.RuleIds` and `StopRules.GetStopping` take a flag `writtenT5`
that picks the form of the fix through `TokenNormalise.T5Fix`. With
`writtenT5 == true` they compute what the source computes, using
`TokenNormalise.T5RewriteAsWritten`. With `false` they use the corrected
`TokenNormalise.T5Rewrite`. `TokenNormalise.T5WrittenVersusIntended` relates
the two forms on one sequence, and `StopRules.RuleIdsWrittenT5DoublesSingleIds`
relates them on the whole rule list: the source's rules are the corrected
ones with each one-id rule doubled. Every other property of `RuleIds` and
`GetStopping` holds for both values of the flag.

## Left out

- Tensors, `.to(device)`, and `squeeze` beyond "a scalar becomes a one-id sequence". `encode` returns the id list directly.
- The `StoppingCriteriaList` wrapper. An empty list is `None` and a one-element list is `Some(detector)`.
- The `print` calls and the unused `scores`, `kwargs` and `prompt_dict` arguments.
- `GenerationConfig.from_pretrained` (network and config store). Its outcome is the input `GenerationEos`, and `LookupFailed` stands for the swallowed `OSError`.
- `extra_stop_token_ids` and `t5_type` are not part of this model. Their results are the inputs `modelExtras` and `isT5`.
- `PromptType` is not part of this model. The numeric, string and name aliases of a format collapse into one `PromptFormat` value.
- Wall-clock reading: the clock is an integer input `now`, and `t0` is fixed at construction. Sub-unit (float) time is not modelled.
- Dict iteration order: the vocabulary is a list of `(string, id)` items, and its inversion lets the last entry win for a shared id. Which string that is depends on the tokenizer's item order, which is an input here.
- `Text.Upper`: only ASCII letters are mapped, which is exact for the fixed instruct spellings it is applied to.
- The in-place mutation of the caller's lists is not modelled, because the model returns new sequences. The source aliases the prompter's `terminate_response`, extends it with `stop` and deduplicates it in place.
- `get_stopping` with no tokenizer (`None`) is not modelled, because that call fails in the source as soon as a word is encoded. `update_terminate_responses` models both cases.
- Lower-level tokenizer failures inside `encode` and `decode` are not modelled: both are total functions here.
