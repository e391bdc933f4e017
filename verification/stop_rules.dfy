/**
 * `get_stopping`: choose the stop words and thresholds for a conversation
 * format, add the caller's and the tokenizer's extra words, normalise every
 * word's token ids and build the detector.
 */
module StopRules {
  import opened Wrappers
  import opened Failures
  import opened Text
  import opened Tokenizers
  import opened Distinct
  import opened TerminateResponses
  import opened TokenNormalise
  import opened Detector

  /**
   * The conversation formats the source names, each standing for its numeric
   * code, the code as a string and its name; every other identifier is `OtherFormat`.
   */
  datatype PromptFormat =
    | HumanBot | HumanBotOrig
    | InstructVicuna | Guanaco | OneShot | InstructVicuna2 | InstructVicuna3 | InstructWithEnd
    | OtherFormat

  predicate IsHumanBot(f: PromptFormat) {
    f.HumanBot? || f.HumanBotOrig?
  }

  /** The "user/human/assistant" group; it includes `instruct_with_end`. */
  predicate IsInstruct(f: PromptFormat) {
    f.InstructVicuna? || f.Guanaco? || f.OneShot? || f.InstructVicuna2? || f.InstructVicuna3? || f.InstructWithEnd?
  }

  /** What precedes the role in each of the five surface spellings of a `### <role>:` marker. */
  function Pre(k: nat): string
    requires k < 5
  {
    ["### ", "\n### ", "\n### ", "###  ", "###  "][k]
  }

  /** What follows the role in each of the five spellings. */
  function Post(k: nat): string
    requires k < 5
  {
    [":", ":", ":\n", ":  ", ":"][k]
  }

  /**
   * The five surface spellings of a `### <role>:` marker: plain, after a
   * newline, between newlines, and with doubled spaces around the role.
   */
  function Spellings(role: string): (r: seq<string>)
    ensures |r| == 5
  {
    [Pre(0) + role + Post(0), Pre(1) + role + Post(1), Pre(2) + role + Post(2),
     Pre(3) + role + Post(3), Pre(4) + role + Post(4)]
  }

  /**
   * The ten stop words of the instruct group: `"### Human:"`, `"\n### Human:"`,
   * `"\n### Human:\n"`, `"###  Human:  "`, `"###  Human:"`, then the same five
   * with `Assistant`.
   */
  const InstructWords: seq<string> := Spellings("Human") + Spellings("Assistant")

  function Ones(n: nat): (r: seq<int>)
    ensures |r| == n && forall i :: 0 <= i < n ==> r[i] == 1
  {
    seq(n, _ => 1)
  }

  datatype FormatRules = FormatRules(words: seq<string>, encounters: seq<int>)

  /**
   * The stop words and thresholds a format implies. The human/bot formats
   * stop on the markers with and without a leading newline; the instruct
   * group on the ten `###` spellings (upper-cased for vicuna2, `Human`
   * replaced by `User` for vicuna3); any other format on the prompter's
   * terminators, each with threshold 1, or on nothing.
   */
  function FormatStopRules(fmt: PromptFormat, human: string, bot: string, prompterTerminate: Option<seq<string>>)
    : (r: FormatRules)
    ensures IsHumanBot(fmt) ==> r.words == [human, bot, "\n" + human, "\n" + bot] && r.encounters == [1, 2]
    ensures IsInstruct(fmt) ==> |r.words| == 10 && r.encounters == [1, 2]
    ensures fmt.InstructVicuna? || fmt.Guanaco? || fmt.OneShot? || fmt.InstructWithEnd? ==>
      r.words == Spellings("Human") + Spellings("Assistant")
    ensures fmt.InstructVicuna2? ==> forall i :: 0 <= i < 10 ==> r.words[i] == Upper(InstructWords[i])
    ensures fmt.InstructVicuna3? ==> forall i :: 0 <= i < 10 ==> r.words[i] == Replace(InstructWords[i], "Human", "User")
    ensures fmt.OtherFormat? ==> r.words == prompterTerminate.GetOr([]) && r.encounters == Ones(|r.words|)
    ensures |r.encounters| == 0 <==> |r.words| == 0
    ensures |r.encounters| > 0 ==> |r.words| % |r.encounters| == 0
  {
    match fmt
    case HumanBot | HumanBotOrig => FormatRules([human, bot, "\n" + human, "\n" + bot], [1, 2])
    case InstructVicuna2 => FormatRules(seq(10, i requires 0 <= i < 10 => Upper(InstructWords[i])), [1, 2])
    case InstructVicuna3 => FormatRules(seq(10, i requires 0 <= i < 10 => Replace(InstructWords[i], "Human", "User")), [1, 2])
    case InstructVicuna | Guanaco | OneShot | InstructWithEnd => FormatRules(InstructWords, [1, 2])
    case OtherFormat =>
      var ws := prompterTerminate.GetOr([]);
      assert |ws| > 0 ==> |ws| % |ws| == 0;
      FormatRules(ws, Ones(|ws|))
  }

  /** No character of `s` is `c`. */
  predicate Avoids(s: string, c: char) {
    forall i :: 0 <= i < |s| ==> s[i] != c
  }

  /**
   * Replacing `pat` in the spellings of a role: the role's own spelling is
   * replaced when the role is `pat`, untouched when the role cannot start it.
   */
  lemma ReplaceInSpellings(role: string, pat: string, rep: string, k: nat)
    requires |pat| > 0 && pat[0] !in "#: \n" && k < 5
    ensures role == pat ==> Replace(Spellings(role)[k], pat, rep) == Spellings(rep)[k]
    ensures Avoids(role, pat[0]) ==> Replace(Spellings(role)[k], pat, rep) == Spellings(role)[k]
  {
    var pre, post := Pre(k), Post(k);
    assert Avoids(pre, pat[0]) && Avoids(post, pat[0]);
    assert Spellings(role)[k] == pre + role + post;
    assert Spellings(rep)[k] == pre + rep + post;
    if role == pat {
      ReplaceSingle(pre, pat, post, rep);
    }
    if Avoids(role, pat[0]) {
      var w := pre + role + post;
      assert Avoids(w, pat[0]);
      ReplaceKeepsPrefix(w, [], pat, rep);
      assert w + [] == w;
    }
  }

  /** The vicuna3 spellings: `Human` becomes `User`, the `Assistant` spellings are untouched. */
  lemma Vicuna3Words(human: string, bot: string, pt: Option<seq<string>>)
    ensures var ws := FormatStopRules(InstructVicuna3, human, bot, pt).words;
      |ws| == 10 && forall i :: 0 <= i < 10 ==> ws[i] == (Spellings("User") + Spellings("Assistant"))[i]
  {
    assert Avoids("Assistant", 'H');
    forall k | 0 <= k < 5
      ensures Replace(InstructWords[k], "Human", "User") == Spellings("User")[k]
      ensures Replace(InstructWords[k + 5], "Human", "User") == Spellings("Assistant")[k]
    {
      ReplaceInSpellings("Human", "Human", "User", k);
      ReplaceInSpellings("Assistant", "Human", "User", k);
    }
  }

  lemma UpperConcat(a: string, b: string)
    ensures Upper(a + b) == Upper(a) + Upper(b)
  {
  }

  /** Upper-casing a spelling upper-cases its role and leaves the punctuation alone. */
  lemma UpperSpellings(role: string, k: nat)
    requires k < 5
    ensures Upper(Spellings(role)[k]) == Spellings(Upper(role))[k]
  {
    var pre, post := Pre(k), Post(k);
    assert Spellings(role)[k] == pre + role + post;
    assert Upper(pre) == pre && Upper(post) == post;
    UpperConcat(pre + role, post);
    UpperConcat(pre, role);
  }

  /** The vicuna2 spellings: every instruct spelling upper-cased. */
  lemma Vicuna2Words(human: string, bot: string, pt: Option<seq<string>>)
    ensures var ws := FormatStopRules(InstructVicuna2, human, bot, pt).words;
      |ws| == 10 && forall i :: 0 <= i < 10 ==> ws[i] == (Spellings("HUMAN") + Spellings("ASSISTANT"))[i]
  {
    assert Upper("Human") == "HUMAN" && Upper("Assistant") == "ASSISTANT";
    forall k | 0 <= k < 5
      ensures Upper(InstructWords[k]) == Spellings("HUMAN")[k]
      ensures Upper(InstructWords[k + 5]) == Spellings("ASSISTANT")[k]
    {
      UpperSpellings("Human", k);
      UpperSpellings("Assistant", k);
    }
  }

  /** The word lists before the tokenizer's additions, and which words came from the format. */
  datatype WordLists = WordLists(words: seq<string>, encounters: seq<int>, handleNewlines: seq<bool>)

  /**
   * The format's rules plus the caller's `stop` words: these get threshold 1
   * and have no synthetic leading newline to drop, the format's words do.
   */
  function StopWordLists(fmt: PromptFormat, human: string, bot: string, prompterTerminate: Option<seq<string>>,
                         stop: Option<seq<string>>): (r: WordLists)
    ensures var f := FormatStopRules(fmt, human, bot, prompterTerminate);
      && r.words == f.words + stop.GetOr([])
      && r.encounters == f.encounters + Ones(|stop.GetOr([])|)
      && |r.handleNewlines| == |r.words|
      && forall i :: 0 <= i < |r.words| ==> (r.handleNewlines[i] <==> i < |f.words|)
    ensures |r.encounters| == 0 <==> |r.words| == 0
  {
    var f := FormatStopRules(fmt, human, bot, prompterTerminate);
    var extra := stop.GetOr([]);
    WordLists(f.words + extra, f.encounters + Ones(|extra|),
              seq(|f.words|, _ => true) + seq(|extra|, _ => false))
  }

  /**
   * Without caller extras, the cyclic thresholds of both the human/bot and
   * the instruct formats alternate 1, 2 by position: the human markers need
   * one encounter and the bot markers two, while in the instruct group the
   * spellings at odd positions (`"\n### Human:"` among them) need two and
   * those at even positions (`"\n### Assistant:"` among them) need one.
   */
  lemma FormatThresholdsAlternate(fmt: PromptFormat, human: string, bot: string, pt: Option<seq<string>>,
                                  stop: Option<seq<string>>)
    requires IsHumanBot(fmt) || IsInstruct(fmt)
    requires stop.GetOr([]) == []
    ensures var r := StopWordLists(fmt, human, bot, pt, stop);
      forall i :: 0 <= i < |r.words| ==> r.encounters[i % |r.encounters|] == (if i % 2 == 0 then 1 else 2)
    ensures IsInstruct(fmt) ==> var r := StopWordLists(fmt, human, bot, pt, stop);
      r.encounters[1 % |r.encounters|] == 2 && r.encounters[6 % |r.encounters|] == 1
  {
    var r := StopWordLists(fmt, human, bot, pt, stop);
    assert r.encounters == [1, 2];
  }

  /**
   * With two or more caller extras the human/bot threshold list no longer
   * cycles through `[1, 2]`: the newline-prefixed bot marker (position 3)
   * gets threshold 1. These are the lists the constructor receives; for
   * distinct words that all encode, it rejects them
   * (`CallerStopsBreakThresholds`), so the shift only reaches a detector when
   * deduplication or empty encodings bring the rule count to a multiple.
   */
  lemma ExtrasShiftHumanBotThresholds(fmt: PromptFormat, human: string, bot: string, pt: Option<seq<string>>,
                                      stop: Option<seq<string>>)
    requires IsHumanBot(fmt) && |stop.GetOr([])| >= 2
    ensures var r := StopWordLists(fmt, human, bot, pt, stop);
      r.words[3] == "\n" + bot && r.encounters[3 % |r.encounters|] == 1
  {
    var r := StopWordLists(fmt, human, bot, pt, stop);
    assert 3 % |r.encounters| == 3;
  }

  function EncodeAll(tok: Tokenizer, words: seq<string>): (r: seq<seq<int>>)
    ensures |r| == |words| && forall i :: 0 <= i < |words| ==> r[i] == tok.encode(words[i])
  {
    seq(|words|, i requires 0 <= i < |words| => tok.encode(words[i]))
  }

  /** Keep the non-empty id sequences, in order (`x.shape[0] > 0`). */
  function NonEmpty(xss: seq<seq<int>>): (r: seq<seq<int>>)
    ensures |r| <= |xss|
    ensures forall i :: 0 <= i < |r| ==> |r[i]| > 0
  {
    if |xss| == 0 then []
    else if |xss[0]| > 0 then [xss[0]] + NonEmpty(xss[1..])
    else NonEmpty(xss[1..])
  }

  /** The filter keeps exactly the non-empty sequences, and keeps none iff all are empty. */
  lemma {:induction false} NonEmptyContents(xss: seq<seq<int>>)
    ensures forall x :: x in NonEmpty(xss) <==> x in xss && |x| > 0
    ensures |NonEmpty(xss)| == 0 <==> forall i :: 0 <= i < |xss| ==> |xss[i]| == 0
  {
    if |xss| > 0 {
      NonEmptyContents(xss[1..]);
      NonEmptyStep(xss);
      assert xss == [xss[0]] + xss[1..];
      assert forall i :: 1 <= i < |xss| ==> xss[i] == xss[1..][i - 1];
    }
  }

  /**
   * The filter keeps order and multiplicity: it works sequence by sequence,
   * so filtering a concatenation concatenates the filtered parts, and a
   * single sequence is kept exactly when it is non-empty.
   */
  lemma {:induction false} NonEmptyKeepsOrder(a: seq<seq<int>>, b: seq<seq<int>>)
    ensures NonEmpty(a + b) == NonEmpty(a) + NonEmpty(b)
    ensures |a| == 1 ==> NonEmpty(a) == if |a[0]| > 0 then a else []
    decreases |a|
  {
    if |a| == 0 {
      assert a + b == b;
    } else {
      var ab := a + b;
      assert ab[0] == a[0] && ab[1..] == a[1..] + b;
      NonEmptyKeepsOrder(a[1..], b);
      NonEmptyStep(ab);
      NonEmptyStep(a);
      if |a| == 1 {
        assert a[1..] == [];
      }
    }
  }

  /** One unfolding of the filter. */
  lemma NonEmptyStep(xss: seq<seq<int>>)
    requires |xss| > 0
    ensures NonEmpty(xss) == if |xss[0]| > 0 then [xss[0]] + NonEmpty(xss[1..]) else NonEmpty(xss[1..])
  {
  }

  function StripAll(xss: seq<seq<int>>, tok: Tokenizer): (r: seq<seq<int>>)
    ensures |r| == |xss| && forall i :: 0 <= i < |xss| ==> r[i] == StripSpecialTokens(xss[i], tok)
  {
    seq(|xss|, i requires 0 <= i < |xss| => StripSpecialTokens(xss[i], tok))
  }

  /** The T5 fix applied to every rule, as written or as intended; the first missing vocabulary key raises. */
  function T5All(xss: seq<seq<int>>, newline: Option<int>, space: Option<int>, asWritten: bool)
    : (r: Result<seq<seq<int>>, Failure>)
    ensures r.Ok? <==> forall i :: 0 <= i < |xss| ==> T5Fix(xss[i], newline, space, asWritten).Ok?
    ensures r.Ok? ==> |r.value| == |xss|
    ensures r.Ok? ==> forall i :: 0 <= i < |xss| ==> r.value[i] == T5Fix(xss[i], newline, space, asWritten).value
    ensures r.Err? ==> r.error == MissingVocabKey
  {
    if |xss| == 0 then Ok([])
    else
      var head :- T5Fix(xss[0], newline, space, asWritten);
      var tail :- T5All(xss[1..], newline, space, asWritten);
      Ok([head] + tail)
  }

  /**
   * Each word's token ids after encoding, dropping empty encodings, the
   * special-token strips and (for a T5 model with a vocabulary) the interior
   * newline fix, as the source writes it when `writtenT5` holds and as
   * intended otherwise. Every surviving sequence is non-empty. The empty encodings
   * are dropped from this list only, so from the first one on the ids no
   * longer line up with the words by position.
   */
  function RuleIds(tok: Tokenizer, isT5: bool, words: seq<string>, writtenT5: bool): (r: Result<seq<seq<int>>, Failure>)
    ensures r.Ok? ==> |r.value| <= |words|
    ensures r.Ok? ==> forall i :: 0 <= i < |r.value| ==> |r.value[i]| > 0
    ensures r.Err? ==> r.error == MissingVocabKey && isT5
    ensures (forall i :: 0 <= i < |words| ==> |tok.encode(words[i])| > 0) ==>
      r.Ok? ==> |r.value| == |words|
  {
    EncodingsKept(tok, words);
    var encoded := NonEmpty(EncodeAll(tok, words));
    var stripped := StripAll(encoded, tok);
    if isT5 && tok.vocab.Some?
    then T5All(stripped, VocabId(tok.vocab.value, "\n"), VocabId(tok.vocab.value, " "), writtenT5)
    else Ok(stripped)
  }

  /**
   * When every word encodes to at least one id, rule `i` comes from word `i`:
   * its encoding with the special tokens stripped, then (for a T5 model with
   * a vocabulary) the interior newline fix.
   */
  lemma RuleIdsFollowWords(tok: Tokenizer, isT5: bool, words: seq<string>, writtenT5: bool)
    requires forall i :: 0 <= i < |words| ==> |tok.encode(words[i])| > 0
    ensures var r := RuleIds(tok, isT5, words, writtenT5);
      !(isT5 && tok.vocab.Some?) ==>
        r.Ok? && forall i :: 0 <= i < |words| ==> r.value[i] == StripSpecialTokens(tok.encode(words[i]), tok)
    ensures var r := RuleIds(tok, isT5, words, writtenT5);
      isT5 && tok.vocab.Some? && r.Ok? ==>
        forall i :: 0 <= i < |words| ==>
          Ok(r.value[i]) == T5Fix(StripSpecialTokens(tok.encode(words[i]), tok),
                                  VocabId(tok.vocab.value, "\n"), VocabId(tok.vocab.value, " "), writtenT5)
  {
    NonEmptyKeepsAll(EncodeAll(tok, words));
  }

  /** Over a list of rules the written and the intended T5 fix fail together and differ only on one-id rules. */
  lemma T5AllWrittenDoublesSingleIds(xss: seq<seq<int>>, nl: Option<int>, sp: Option<int>)
    ensures var w := T5All(xss, nl, sp, true);
      var c := T5All(xss, nl, sp, false);
      && (w.Ok? <==> c.Ok?)
      && (c.Ok? ==> |w.value| == |c.value|
                    && forall i :: 0 <= i < |c.value| ==>
                         w.value[i] == if |c.value[i]| == 1 then c.value[i] + c.value[i] else c.value[i])
  {
    forall i | 0 <= i < |xss|
      ensures T5Fix(xss[i], nl, sp, true).Ok? <==> T5Fix(xss[i], nl, sp, false).Ok?
    {
      T5WrittenVersusIntended(xss[i], nl, sp);
    }
    var w := T5All(xss, nl, sp, true);
    var c := T5All(xss, nl, sp, false);
    if c.Ok? {
      forall i | 0 <= i < |c.value|
        ensures w.value[i] == if |c.value[i]| == 1 then c.value[i] + c.value[i] else c.value[i]
      {
        T5WrittenVersusIntended(xss[i], nl, sp);
        assert c.value[i] == T5Rewrite(xss[i], nl, sp).value;
        assert w.value[i] == T5RewriteAsWritten(xss[i], nl, sp).value;
      }
    }
  }

  /**
   * The source's T5 fix against the intended one, over a whole word list:
   * without the fix the two rule derivations coincide; with it both fail together,
   * and they differ only in that the source doubles a rule of one id.
   */
  lemma RuleIdsWrittenT5DoublesSingleIds(tok: Tokenizer, isT5: bool, words: seq<string>)
    ensures !(isT5 && tok.vocab.Some?) ==> RuleIds(tok, isT5, words, true) == RuleIds(tok, isT5, words, false)
    ensures isT5 && tok.vocab.Some? ==>
      var w := RuleIds(tok, isT5, words, true);
      var c := RuleIds(tok, isT5, words, false);
      && (w.Ok? <==> c.Ok?)
      && (c.Ok? ==> |w.value| == |c.value|
                    && forall i :: 0 <= i < |c.value| ==>
                         w.value[i] == if |c.value[i]| == 1 then c.value[i] + c.value[i] else c.value[i])
  {
    var stripped := StripAll(NonEmpty(EncodeAll(tok, words)), tok);
    if isT5 && tok.vocab.Some? {
      T5AllWrittenDoublesSingleIds(stripped, VocabId(tok.vocab.value, "\n"), VocabId(tok.vocab.value, " "));
    }
  }

  /** No rule survives exactly when every word encodes to no ids at all. */
  lemma RuleIdsEmptyIff(tok: Tokenizer, isT5: bool, words: seq<string>, writtenT5: bool)
    requires RuleIds(tok, isT5, words, writtenT5).Ok?
    ensures |RuleIds(tok, isT5, words, writtenT5).value| == 0 <==> forall i :: 0 <= i < |words| ==> |tok.encode(words[i])| == 0
  {
    var encoded := NonEmpty(EncodeAll(tok, words));
    NonEmptyContents(EncodeAll(tok, words));
    assert |encoded| == 0 <==> forall i :: 0 <= i < |words| ==> |tok.encode(words[i])| == 0;
    assert |StripAll(encoded, tok)| == |encoded|;
  }

  /** When every word has an encoding, the filter drops none of them. */
  lemma EncodingsKept(tok: Tokenizer, words: seq<string>)
    ensures (forall i :: 0 <= i < |words| ==> |tok.encode(words[i])| > 0) ==>
      NonEmpty(EncodeAll(tok, words)) == EncodeAll(tok, words)
  {
    if forall i :: 0 <= i < |words| ==> |tok.encode(words[i])| > 0 {
      NonEmptyKeepsAll(EncodeAll(tok, words));
    }
  }

  /**
   * When the first `n` words each encode to at least one id, a successful
   * rule computation yields at least `n` rules.
   */
  lemma RuleIdsCoverPrefix(tok: Tokenizer, isT5: bool, words: seq<string>, writtenT5: bool, n: nat)
    requires n <= |words| && forall i :: 0 <= i < n ==> |tok.encode(words[i])| > 0
    requires RuleIds(tok, isT5, words, writtenT5).Ok?
    ensures |RuleIds(tok, isT5, words, writtenT5).value| >= n
  {
    var e := EncodeAll(tok, words);
    NonEmptyCoversPrefix(e, n);
    var stripped := StripAll(NonEmpty(e), tok);
    assert RuleIds(tok, isT5, words, writtenT5) ==
      if isT5 && tok.vocab.Some?
      then T5All(stripped, VocabId(tok.vocab.value, "\n"), VocabId(tok.vocab.value, " "), writtenT5)
      else Ok(stripped);
  }

  /** Filtering keeps at least the length of a prefix that has no empty sequence. */
  lemma NonEmptyCoversPrefix(xss: seq<seq<int>>, n: nat)
    requires n <= |xss| && forall i :: 0 <= i < n ==> |xss[i]| > 0
    ensures |NonEmpty(xss)| >= n
  {
    assert xss == xss[..n] + xss[n..];
    NonEmptyKeepsOrder(xss[..n], xss[n..]);
    NonEmptyKeepsAll(xss[..n]);
  }

  lemma {:induction false} NonEmptyKeepsAll(xss: seq<seq<int>>)
    requires forall i :: 0 <= i < |xss| ==> |xss[i]| > 0
    ensures NonEmpty(xss) == xss
  {
    if |xss| > 0 {
      NonEmptyKeepsAll(xss[1..]);
      assert xss == [xss[0]] + xss[1..];
    }
  }

  /**
   * `get_stopping`. `modelExtras` is what `extra_stop_token_ids` returns for
   * the base model, `gen` the generation-config lookup, `isT5` whether the
   * base model is of the T5 family, and `writtenT5` selects the T5 fix as
   * the source writes it (`true`) or as intended (`false`). `None` is the
   * empty criteria list. The rule ids are zipped with the format-and-caller
   * flags, so rules past their count are cut off; the detector still
   * receives every word.
   */
  function GetStopping(fmt: PromptFormat, tok: Tokenizer, isT5: bool, writtenT5: bool, gen: GenerationEos,
                       modelExtras: seq<string>, human: string, bot: string, prompterTerminate: Option<seq<string>>,
                       stop: Option<seq<string>>, modelMaxLength: Option<int>, truncation: bool,
                       maxTime: Option<int>, t0: int)
    : (r: Result<Option<Detector>, Failure>)
    ensures r != Err(NoEncounters)
    ensures r.Ok? ==>
      var lists := StopWordLists(fmt, human, bot, prompterTerminate, stop);
      var up := UpdateTerminateResponses(Some(lists.words), Some(tok), gen);
      up.Ok? && (r.value.Some? ==> r.value.value.stopWords == up.value + modelExtras)
    ensures r.Ok? && r.value.Some? ==>
      var lists := StopWordLists(fmt, human, bot, prompterTerminate, stop);
      var d := r.value.value;
      && Valid(d) && d.tokenStart.None? && d.t0 == t0 && d.maxTime == maxTime
      && d.modelMaxLength == modelMaxLength && d.truncation == truncation
      && d.encounters == lists.encounters
      && 0 < |d.stops| <= |lists.handleNewlines|
      && |d.stops| <= |d.stopWords|
      && (forall i :: 0 <= i < |d.stops| ==> d.numStops[i] == 0)
      && (forall i :: 0 <= i < |d.stops| ==> |d.stopWords[i]| > 0)
      && (forall i :: 0 <= i < |d.stops| && |d.stops[i]| == 0 ==>
            |d.stopWords[i]| > 0 && d.stopWords[i][0] == '\n' && lists.handleNewlines[i])
  {
    var lists := StopWordLists(fmt, human, bot, prompterTerminate, stop);
    var deduped :- UpdateTerminateResponses(Some(lists.words), Some(tok), gen);
    var words := deduped + modelExtras;
    var ids :- RuleIds(tok, isT5, words, writtenT5);
    var stops :- DropSyntheticNewlines(ids, words, lists.handleNewlines);
    if |stops| == 0 then Ok(None)
    else
      assert |lists.encounters| > 0;
      var d :- NewDetector(stops, words, lists.encounters, modelMaxLength, truncation, maxTime, t0);
      Ok(Some(d))
  }

  /** A failing terminator lookup, or a failing T5 fix, raises its `KeyError` out of `get_stopping`. */
  lemma GetStoppingRaisesKeyError(fmt: PromptFormat, tok: Tokenizer, isT5: bool, writtenT5: bool,
                                  gen: GenerationEos, modelExtras: seq<string>, human: string, bot: string,
                                  prompterTerminate: Option<seq<string>>, stop: Option<seq<string>>,
                                  modelMaxLength: Option<int>, truncation: bool, maxTime: Option<int>, t0: int)
    ensures var up := UpdateTerminateResponses(Some(StopWordLists(fmt, human, bot, prompterTerminate, stop).words),
                                               Some(tok), gen);
      var r := GetStopping(fmt, tok, isT5, writtenT5, gen, modelExtras, human, bot, prompterTerminate, stop,
                           modelMaxLength, truncation, maxTime, t0);
      && (up.Err? ==> r == Err(up.error))
      && (up.Ok? && RuleIds(tok, isT5, up.value + modelExtras, writtenT5).Err? ==> r == Err(MissingVocabKey) && isT5)
  {
  }

  /**
   * The outcomes of `get_stopping` once the word list and the rule ids are
   * computed: an empty word among the `n` zipped rules raises `IndexError`;
   * otherwise no rule gives the empty criteria list, a rule count that is not
   * a multiple of the threshold count fails the constructor's assertion, and
   * any other count builds a detector with `n` rules.
   */
  lemma GetStoppingOutcome(fmt: PromptFormat, tok: Tokenizer, isT5: bool, writtenT5: bool, gen: GenerationEos,
                           modelExtras: seq<string>, human: string, bot: string,
                           prompterTerminate: Option<seq<string>>, stop: Option<seq<string>>,
                           modelMaxLength: Option<int>, truncation: bool, maxTime: Option<int>, t0: int,
                           deduped: seq<string>, ids: seq<seq<int>>)
    requires UpdateTerminateResponses(Some(StopWordLists(fmt, human, bot, prompterTerminate, stop).words),
                                      Some(tok), gen) == Ok(deduped)
    requires RuleIds(tok, isT5, deduped + modelExtras, writtenT5) == Ok(ids)
    ensures var lists := StopWordLists(fmt, human, bot, prompterTerminate, stop);
      var words := deduped + modelExtras;
      var n := Min3(|ids|, |words|, |lists.handleNewlines|);
      var r := GetStopping(fmt, tok, isT5, writtenT5, gen, modelExtras, human, bot, prompterTerminate, stop,
                           modelMaxLength, truncation, maxTime, t0);
      && n <= |words|
      && (r == Err(EmptyStopWord) <==> exists i :: 0 <= i < n && |words[i]| == 0)
      && (r == Ok(None) <==> (forall i :: 0 <= i < n ==> |words[i]| > 0) && n == 0)
      && (r == Err(StopsEncountersMismatch) <==>
            (forall i :: 0 <= i < n ==> |words[i]| > 0) && n > 0 && n % |lists.encounters| != 0)
      && (r.Ok? && r.value.Some? ==> |r.value.value.stops| == n)
  {
    var lists := StopWordLists(fmt, human, bot, prompterTerminate, stop);
    var words := deduped + modelExtras;
    var stops := DropSyntheticNewlines(ids, words, lists.handleNewlines);
    if stops.Ok? && |stops.value| > 0 {
      var nd := NewDetector(stops.value, words, lists.encounters, modelMaxLength, truncation, maxTime, t0);
      assert GetStopping(fmt, tok, isT5, writtenT5, gen, modelExtras, human, bot, prompterTerminate, stop,
                         modelMaxLength, truncation, maxTime, t0)
        == if nd.Ok? then Ok(Some(nd.value)) else Err(nd.error);
    }
  }

  /**
   * `get_stopping` builds no detector exactly when neither the format nor
   * the caller gave any word, or when every word encodes to no ids at all.
   */
  lemma GetStoppingBuildsNothingIff(fmt: PromptFormat, tok: Tokenizer, isT5: bool, writtenT5: bool,
                                    gen: GenerationEos, modelExtras: seq<string>, human: string, bot: string,
                                    prompterTerminate: Option<seq<string>>, stop: Option<seq<string>>,
                                    modelMaxLength: Option<int>, truncation: bool, maxTime: Option<int>, t0: int)
    requires GetStopping(fmt, tok, isT5, writtenT5, gen, modelExtras, human, bot, prompterTerminate, stop,
                         modelMaxLength, truncation, maxTime, t0).Ok?
    ensures var lists := StopWordLists(fmt, human, bot, prompterTerminate, stop);
      var words := UpdateTerminateResponses(Some(lists.words), Some(tok), gen).value + modelExtras;
      GetStopping(fmt, tok, isT5, writtenT5, gen, modelExtras, human, bot, prompterTerminate, stop,
                  modelMaxLength, truncation, maxTime, t0).value.None?
      <==> |lists.words| == 0 || forall w :: w in words ==> |tok.encode(w)| == 0
  {
    var lists := StopWordLists(fmt, human, bot, prompterTerminate, stop);
    var deduped := UpdateTerminateResponses(Some(lists.words), Some(tok), gen).value;
    var words := deduped + modelExtras;
    var ids := RuleIds(tok, isT5, words, writtenT5).value;
    GetStoppingOutcome(fmt, tok, isT5, writtenT5, gen, modelExtras, human, bot, prompterTerminate, stop,
                       modelMaxLength, truncation, maxTime, t0, deduped, ids);
    RuleIdsEmptyIff(tok, isT5, words, writtenT5);
    assert |lists.words| > 0 ==> lists.words[0] in words;
    assert (forall w :: w in words ==> |tok.encode(w)| == 0)
       <==> (forall i :: 0 <= i < |words| ==> |tok.encode(words[i])| == 0);
  }

  /** Distinct, non-empty words that each encode to at least one id. */
  predicate DistinctEncodable(tok: Tokenizer, ws: seq<string>) {
    NoDup(ws) && forall i :: 0 <= i < |ws| ==> |ws[i]| > 0 && |tok.encode(ws[i])| > 0
  }

  /**
   * When the format-and-caller words are distinct, non-empty and all encode,
   * every one of them becomes a rule whatever the tokenizer appends after
   * them, so a word count that is not a multiple of the threshold count fails
   * the constructor's assertion; only a raised `KeyError` can come first.
   */
  lemma WordCountDecidesMismatch(fmt: PromptFormat, tok: Tokenizer, isT5: bool, writtenT5: bool,
                                 gen: GenerationEos, modelExtras: seq<string>, human: string, bot: string,
                                 prompterTerminate: Option<seq<string>>, stop: Option<seq<string>>,
                                 modelMaxLength: Option<int>, truncation: bool, maxTime: Option<int>, t0: int)
    requires var lists := StopWordLists(fmt, human, bot, prompterTerminate, stop);
      DistinctEncodable(tok, lists.words) && |lists.encounters| > 0 && |lists.words| % |lists.encounters| != 0
    ensures var r := GetStopping(fmt, tok, isT5, writtenT5, gen, modelExtras, human, bot, prompterTerminate,
                                 stop, modelMaxLength, truncation, maxTime, t0);
      r == Err(StopsEncountersMismatch) || r == Err(MissingVocabKey)
  {
    var lists := StopWordLists(fmt, human, bot, prompterTerminate, stop);
    GetStoppingRaisesKeyError(fmt, tok, isT5, writtenT5, gen, modelExtras, human, bot, prompterTerminate, stop,
                              modelMaxLength, truncation, maxTime, t0);
    var up := UpdateTerminateResponses(Some(lists.words), Some(tok), gen);
    if up.Ok? {
      DistinctWordsLead(lists.words, tok, gen, up.value);
      var rid := RuleIds(tok, isT5, up.value + modelExtras, writtenT5);
      if rid.Ok? {
        CallerStopsMismatchFrom(fmt, tok, isT5, writtenT5, gen, modelExtras, human, bot, prompterTerminate, stop,
                                modelMaxLength, truncation, maxTime, t0, up.value, rid.value);
      }
    }
  }

  /**
   * Caller stop words break the cyclic thresholds of the human/bot format:
   * with `k >= 1` extras the constructor receives `4 + k` rules against
   * `2 + k` thresholds and its assertion fails, for distinct non-empty words
   * that all encode, unless a `KeyError` comes first.
   */
  lemma CallerStopsBreakThresholds(fmt: PromptFormat, tok: Tokenizer, isT5: bool, writtenT5: bool,
                                   gen: GenerationEos, modelExtras: seq<string>, human: string, bot: string,
                                   prompterTerminate: Option<seq<string>>, extra: seq<string>,
                                   modelMaxLength: Option<int>, truncation: bool, maxTime: Option<int>, t0: int)
    requires IsHumanBot(fmt) && |extra| >= 1
    requires DistinctEncodable(tok, [human, bot, "\n" + human, "\n" + bot] + extra)
    ensures var r := GetStopping(fmt, tok, isT5, writtenT5, gen, modelExtras, human, bot, prompterTerminate,
                                 Some(extra), modelMaxLength, truncation, maxTime, t0);
      r == Err(StopsEncountersMismatch) || r == Err(MissingVocabKey)
  {
    CallerListsShape(fmt, human, bot, prompterTerminate, extra);
    HumanBotExtrasNeverDivide(|extra|);
    WordCountDecidesMismatch(fmt, tok, isT5, writtenT5, gen, modelExtras, human, bot, prompterTerminate,
                             Some(extra), modelMaxLength, truncation, maxTime, t0);
  }

  /**
   * The same for the instruct group: `10 + k` rules against `2 + k`
   * thresholds fail the assertion unless `k` is 0, 2 or 6.
   */
  lemma InstructCallerStopsBreakThresholds(fmt: PromptFormat, tok: Tokenizer, isT5: bool, writtenT5: bool,
                                           gen: GenerationEos, modelExtras: seq<string>, human: string, bot: string,
                                           prompterTerminate: Option<seq<string>>, extra: seq<string>,
                                           modelMaxLength: Option<int>, truncation: bool, maxTime: Option<int>,
                                           t0: int)
    requires IsInstruct(fmt) && |extra| != 0 && |extra| != 2 && |extra| != 6
    requires DistinctEncodable(tok, FormatStopRules(fmt, human, bot, prompterTerminate).words + extra)
    ensures var r := GetStopping(fmt, tok, isT5, writtenT5, gen, modelExtras, human, bot, prompterTerminate,
                                 Some(extra), modelMaxLength, truncation, maxTime, t0);
      r == Err(StopsEncountersMismatch) || r == Err(MissingVocabKey)
  {
    CallerListsShape(fmt, human, bot, prompterTerminate, extra);
    InstructExtrasDivide(|extra|);
    WordCountDecidesMismatch(fmt, tok, isT5, writtenT5, gen, modelExtras, human, bot, prompterTerminate,
                             Some(extra), modelMaxLength, truncation, maxTime, t0);
  }

  /** With caller words, the lists are the format's words then the caller's, against `2 + k` thresholds. */
  lemma CallerListsShape(fmt: PromptFormat, human: string, bot: string, prompterTerminate: Option<seq<string>>,
                         extra: seq<string>)
    requires IsHumanBot(fmt) || IsInstruct(fmt)
    ensures var lists := StopWordLists(fmt, human, bot, prompterTerminate, Some(extra));
      && lists.words == FormatStopRules(fmt, human, bot, prompterTerminate).words + extra
      && |lists.encounters| == 2 + |extra|
      && |lists.words| == (if IsHumanBot(fmt) then 4 else 10) + |extra|
  {
  }

  /** Distinct words keep their places at the head of the updated terminator list. */
  lemma DistinctWordsLead(ws: seq<string>, tok: Tokenizer, gen: GenerationEos, deduped: seq<string>)
    requires NoDup(ws)
    requires UpdateTerminateResponses(Some(ws), Some(tok), gen) == Ok(deduped)
    ensures |ws| <= |deduped| && deduped[..|ws|] == ws
  {
    DedupOfNoDup(ws);
  }

  /** The mismatch once the word list and the rule ids are computed. */
  lemma CallerStopsMismatchFrom(fmt: PromptFormat, tok: Tokenizer, isT5: bool, writtenT5: bool,
                                gen: GenerationEos, modelExtras: seq<string>, human: string, bot: string,
                                prompterTerminate: Option<seq<string>>, stop: Option<seq<string>>,
                                modelMaxLength: Option<int>, truncation: bool, maxTime: Option<int>, t0: int,
                                deduped: seq<string>, ids: seq<seq<int>>)
    requires var lists := StopWordLists(fmt, human, bot, prompterTerminate, stop);
      && |lists.encounters| > 0 && |lists.words| % |lists.encounters| != 0
      && (forall i :: 0 <= i < |lists.words| ==> |lists.words[i]| > 0 && |tok.encode(lists.words[i])| > 0)
      && UpdateTerminateResponses(Some(lists.words), Some(tok), gen) == Ok(deduped)
      && |lists.words| <= |deduped| && deduped[..|lists.words|] == lists.words
    requires RuleIds(tok, isT5, deduped + modelExtras, writtenT5) == Ok(ids)
    ensures GetStopping(fmt, tok, isT5, writtenT5, gen, modelExtras, human, bot, prompterTerminate,
                        stop, modelMaxLength, truncation, maxTime, t0) == Err(StopsEncountersMismatch)
  {
    var lists := StopWordLists(fmt, human, bot, prompterTerminate, stop);
    var L := |lists.words|;
    var words := deduped + modelExtras;
    forall i | 0 <= i < L ensures |words[i]| > 0 && |tok.encode(words[i])| > 0 {
      assert words[i] == deduped[..L][i];
    }
    RuleIdsCoverPrefix(tok, isT5, words, writtenT5, L);
    assert Min3(|ids|, |words|, |lists.handleNewlines|) == L;
    GetStoppingOutcome(fmt, tok, isT5, writtenT5, gen, modelExtras, human, bot, prompterTerminate, stop,
                       modelMaxLength, truncation, maxTime, t0, deduped, ids);
  }

  /** With any caller stop word, the human/bot rule count is never a multiple of its threshold count. */
  lemma HumanBotExtrasNeverDivide(k: nat)
    requires k >= 1
    ensures (4 + k) % (2 + k) == 2
  {
    assert 4 + k == (2 + k) + 2;
  }

  /**
   * For the instruct formats the rule count is a multiple of the threshold
   * count only for zero, two or six caller stop words.
   */
  lemma InstructExtrasDivide(k: nat)
    ensures (10 + k) % (2 + k) == 0 <==> k == 0 || k == 2 || k == 6
  {
    assert 10 + k == (2 + k) + 8;
    if k >= 7 {
      assert (10 + k) % (2 + k) == 8;
    }
  }

  /**
   * When every word encodes to at least one id and no T5 fix applies, rule
   * `i` is word `i`'s encoding with the special tokens stripped and, when
   * word `i` starts with a newline and the flag at position `i` of the
   * pre-dedup format-and-caller list is set, its first id dropped. The flags
   * are positional: deduplication can move a caller word or a tokenizer
   * terminator into a flagged slot. The words the detector receives are the
   * deduplicated format-and-caller words followed by the tokenizer's
   * terminators and the model's extras.
   */
  lemma GetStoppingAlignsRules(fmt: PromptFormat, tok: Tokenizer, isT5: bool, writtenT5: bool, gen: GenerationEos,
                               modelExtras: seq<string>, human: string, bot: string,
                               prompterTerminate: Option<seq<string>>, stop: Option<seq<string>>,
                               modelMaxLength: Option<int>, truncation: bool, maxTime: Option<int>, t0: int,
                               d: Detector)
    requires !(isT5 && tok.vocab.Some?)
    requires GetStopping(fmt, tok, isT5, writtenT5, gen, modelExtras, human, bot, prompterTerminate, stop,
                         modelMaxLength, truncation, maxTime, t0) == Ok(Some(d))
    requires forall w :: w in d.stopWords ==> |tok.encode(w)| > 0
    ensures var lists := StopWordLists(fmt, human, bot, prompterTerminate, stop);
      && |d.stops| == (if |d.stopWords| <= |lists.handleNewlines| then |d.stopWords| else |lists.handleNewlines|)
      && forall i :: 0 <= i < |d.stops| ==>
           var ids := StripSpecialTokens(tok.encode(d.stopWords[i]), tok);
           d.stops[i] == if HasSyntheticNewline(d.stopWords[i], lists.handleNewlines[i]) then DropFirst(ids) else ids
  {
    var lists := StopWordLists(fmt, human, bot, prompterTerminate, stop);
    var words := GetStoppingBuildsFrom(fmt, tok, isT5, writtenT5, gen, modelExtras, human, bot, prompterTerminate,
                                       stop, modelMaxLength, truncation, maxTime, t0, d);
    assert forall i :: 0 <= i < |words| ==> |tok.encode(words[i])| > 0 by {
      forall i | 0 <= i < |words| ensures |tok.encode(words[i])| > 0 {
        assert words[i] in d.stopWords;
      }
    }
    RuleIdsFollowWords(tok, isT5, words, writtenT5);
    var ids := RuleIds(tok, isT5, words, writtenT5).value;
    assert |ids| == |words|;
    forall i | 0 <= i < |d.stops|
      ensures var ri := StripSpecialTokens(tok.encode(words[i]), tok);
        d.stops[i] == if HasSyntheticNewline(words[i], lists.handleNewlines[i]) then DropFirst(ri) else ri
    {
      assert ids[i] == StripSpecialTokens(tok.encode(words[i]), tok);
    }
  }

  /**
   * The newline flags are positional. With `human == bot == "a"` and the
   * caller word `"\nx"`, deduplication turns `[a, a, \na, \na, \nx]` into
   * `[a, \na, \nx]`, so the caller word, whose own flag is unset, meets the
   * set flag of position 2 and loses its first id.
   */
  lemma DedupShiftsNewlineFlag(fmt: PromptFormat, tok: Tokenizer, gen: GenerationEos,
                               prompterTerminate: Option<seq<string>>, ids: seq<seq<int>>)
    requires IsHumanBot(fmt)
    requires ImEnd !in tok.addedTokens && tok.eosToken.NoEosToken? && !tok.hasNameOrPath
    requires |ids| >= 3
    ensures var lists := StopWordLists(fmt, "a", "a", prompterTerminate, Some(["\nx"]));
      var up := UpdateTerminateResponses(Some(lists.words), Some(tok), gen);
      && lists.words[4] == "\nx" && !lists.handleNewlines[4]
      && up == Ok(["a", "\na", "\nx"])
      && DropSyntheticNewlines(ids, up.value, lists.handleNewlines) == Ok([ids[0], DropFirst(ids[1]), DropFirst(ids[2])])
  {
    var lists := StopWordLists(fmt, "a", "a", prompterTerminate, Some(["\nx"]));
    DoubledMarkersLists(fmt, prompterTerminate);
    DoubledMarkersUpdate(tok, gen);
    var words := ["a", "\na", "\nx"];
    assert !HasSyntheticNewline(words[0], lists.handleNewlines[0]);
    assert HasSyntheticNewline(words[1], lists.handleNewlines[1]) && HasSyntheticNewline(words[2], lists.handleNewlines[2]);
    DropFollowsFlags(ids, words, lists.handleNewlines, ids[0], DropFirst(ids[1]), DropFirst(ids[2]));
  }

  /** With `human == bot == "a"` and the caller word `"\nx"`, the format and caller lists before deduplication. */
  lemma DoubledMarkersLists(fmt: PromptFormat, prompterTerminate: Option<seq<string>>)
    requires IsHumanBot(fmt)
    ensures var lists := StopWordLists(fmt, "a", "a", prompterTerminate, Some(["\nx"]));
      && lists.words == ["a", "a", "\na", "\na", "\nx"]
      && lists.handleNewlines == [true, true, true, true, false]
  {
    var lists := StopWordLists(fmt, "a", "a", prompterTerminate, Some(["\nx"]));
    CallerListsShape(fmt, "a", "a", prompterTerminate, ["\nx"]);
    assert "\n" + "a" == "\na";
    assert ["a", "a", "\na", "\na"] + ["\nx"] == ["a", "a", "\na", "\na", "\nx"];
  }

  /** A tokenizer that contributes no terminators leaves the deduplicated doubled markers. */
  lemma DoubledMarkersUpdate(tok: Tokenizer, gen: GenerationEos)
    requires ImEnd !in tok.addedTokens && tok.eosToken.NoEosToken? && !tok.hasNameOrPath
    ensures UpdateTerminateResponses(Some(["a", "a", "\na", "\na", "\nx"]), Some(tok), gen) == Ok(["a", "\na", "\nx"])
  {
    var ws := ["a", "a", "\na", "\na", "\nx"];
    assert TokenizerTerminators(tok, gen) == Ok([]);
    assert ws + [] == ws;
    DoubledMarkersDedup();
  }

  /** Deduplicating the doubled markers keeps one `a`, one `\na` and the caller word. */
  lemma DoubledMarkersDedup()
    ensures Dedup(["a", "a", "\na", "\na", "\nx"]) == ["a", "\na", "\nx"]
  {
    var ws := ["a", "a", "\na", "\na", "\nx"];
    assert Dedup(ws[..1]) == ["a"];
    assert ws[..2][..1] == ws[..1];
    assert Dedup(ws[..2]) == ["a"];
    assert ws[..3][..2] == ws[..2];
    assert Dedup(ws[..3]) == ["a", "\na"];
    assert ws[..4][..3] == ws[..3];
    assert Dedup(ws[..4]) == ["a", "\na"];
    assert ws[..4] == ws[..|ws| - 1];
  }

  /**
   * Zipping three words with flags keeps rule `i` as `ids[i]`, or drops its
   * first id when the word starts with a newline and its flag is set.
   */
  lemma DropFollowsFlags(ids: seq<seq<int>>, words: seq<string>, flags: seq<bool>, a: seq<int>, b: seq<int>, c: seq<int>)
    requires |ids| >= 3 && |words| == 3 && |flags| >= 3 && |words[0]| > 0 && |words[1]| > 0 && |words[2]| > 0
    requires a == (if HasSyntheticNewline(words[0], flags[0]) then DropFirst(ids[0]) else ids[0])
    requires b == (if HasSyntheticNewline(words[1], flags[1]) then DropFirst(ids[1]) else ids[1])
    requires c == (if HasSyntheticNewline(words[2], flags[2]) then DropFirst(ids[2]) else ids[2])
    ensures DropSyntheticNewlines(ids, words, flags) == Ok([a, b, c])
  {
    var r := DropSyntheticNewlines(ids, words, flags);
    assert Min3(|ids|, |words|, |flags|) == 3;
    assert r.Ok?;
    assert r.value[0] == a && r.value[1] == b && r.value[2] == c;
    assert r.value == [a, b, c];
    assert r == Ok(r.value);
  }

  /** A built detector holds the full word list and the zipped rule ids, as `get_stopping` computes them. */
  lemma GetStoppingBuildsFrom(fmt: PromptFormat, tok: Tokenizer, isT5: bool, writtenT5: bool, gen: GenerationEos,
                              modelExtras: seq<string>, human: string, bot: string,
                              prompterTerminate: Option<seq<string>>, stop: Option<seq<string>>,
                              modelMaxLength: Option<int>, truncation: bool, maxTime: Option<int>, t0: int,
                              d: Detector)
    returns (words: seq<string>)
    requires GetStopping(fmt, tok, isT5, writtenT5, gen, modelExtras, human, bot, prompterTerminate, stop,
                         modelMaxLength, truncation, maxTime, t0) == Ok(Some(d))
    ensures var lists := StopWordLists(fmt, human, bot, prompterTerminate, stop);
      && UpdateTerminateResponses(Some(lists.words), Some(tok), gen).Ok?
      && words == UpdateTerminateResponses(Some(lists.words), Some(tok), gen).value + modelExtras
      && d.stopWords == words
      && RuleIds(tok, isT5, words, writtenT5).Ok?
      && DropSyntheticNewlines(RuleIds(tok, isT5, words, writtenT5).value, words, lists.handleNewlines)
         == Ok(d.stops)
      && NewDetector(d.stops, words, lists.encounters, modelMaxLength, truncation, maxTime, t0) == Ok(d)
  {
    var lists := StopWordLists(fmt, human, bot, prompterTerminate, stop);
    var up := UpdateTerminateResponses(Some(lists.words), Some(tok), gen);
    words := up.value + modelExtras;
    var ids := RuleIds(tok, isT5, words, writtenT5);
    var stops := DropSyntheticNewlines(ids.value, words, lists.handleNewlines);
    var nd := NewDetector(stops.value, words, lists.encounters, modelMaxLength, truncation, maxTime, t0);
    assert d == nd.value;
  }

  /**
   * The scan mode a built detector gets: new tokens only exactly when the
   * largest threshold is 1. The paired formats carry a threshold of 2, so
   * their detectors always scan the whole sequence; the other formats have
   * only thresholds of 1, so theirs scan only the new tokens.
   */
  lemma GetStoppingScanMode(fmt: PromptFormat, tok: Tokenizer, isT5: bool, writtenT5: bool, gen: GenerationEos,
                            modelExtras: seq<string>, human: string, bot: string,
                            prompterTerminate: Option<seq<string>>, stop: Option<seq<string>>,
                            modelMaxLength: Option<int>, truncation: bool, maxTime: Option<int>, t0: int,
                            d: Detector)
    requires GetStopping(fmt, tok, isT5, writtenT5, gen, modelExtras, human, bot, prompterTerminate, stop,
                         modelMaxLength, truncation, maxTime, t0) == Ok(Some(d))
    ensures var es := StopWordLists(fmt, human, bot, prompterTerminate, stop).encounters;
      d.newTokensOnly <==> 1 in es && forall i :: 0 <= i < |es| ==> es[i] <= 1
    ensures IsHumanBot(fmt) || IsInstruct(fmt) ==> !d.newTokensOnly
    ensures fmt.OtherFormat? ==> d.newTokensOnly
  {
    var lists := StopWordLists(fmt, human, bot, prompterTerminate, stop);
    var words := GetStoppingBuildsFrom(fmt, tok, isT5, writtenT5, gen, modelExtras, human, bot, prompterTerminate,
                                       stop, modelMaxLength, truncation, maxTime, t0, d);
    FormatScanThresholds(fmt, human, bot, prompterTerminate, stop);
  }

  /** The paired formats' thresholds include a 2; every other format's thresholds are all 1. */
  lemma FormatScanThresholds(fmt: PromptFormat, human: string, bot: string,
                             prompterTerminate: Option<seq<string>>, stop: Option<seq<string>>)
    ensures var es := StopWordLists(fmt, human, bot, prompterTerminate, stop).encounters;
      && (IsHumanBot(fmt) || IsInstruct(fmt) ==> |es| > 1 && es[1] == 2)
      && (fmt.OtherFormat? ==> forall i :: 0 <= i < |es| ==> es[i] == 1)
  {
  }
}
