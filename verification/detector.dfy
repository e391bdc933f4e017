/**
 * `StoppingCriteriaSub`: the per-run stop detector. Its mutable fields become
 * a record that each call threads through a pure step function; the clock
 * reading and the tokenizer's `decode` are inputs of the step.
 */
module Detector {
  import opened Wrappers
  import opened Failures
  import opened Text

  datatype Detector = Detector(
    stops: seq<seq<int>>,          // normalised token ids, one per rule
    stopWords: seq<string>,        // the literal words, paired with `stops` by position
    encounters: seq<int>,          // thresholds, used cyclically
    numStops: seq<nat>,            // per-rule encounter counters
    modelMaxLength: Option<int>,
    truncation: bool,              // `truncation_generation`
    tokenStart: Option<nat>,       // set by the first call that gets past the time check
    newTokensOnly: bool,           // `look_at_new_tokens_only`
    maxTime: Option<int>,
    t0: int)                       // clock reading at construction

  /** What construction establishes and every step keeps. */
  predicate Valid(d: Detector) {
    |d.encounters| > 0 && |d.numStops| == |d.stops|
  }

  function Max(s: seq<int>): (m: int)
    requires |s| > 0
    ensures m in s
    ensures forall i :: 0 <= i < |s| ==> s[i] <= m
  {
    if |s| == 1 then s[0]
    else
      var m := Max(s[1..]);
      assert s[1..][0] in s;
      if s[0] >= m then s[0] else m
  }

  /**
   * `StoppingCriteriaSub.__init__`. The modulo in its assertion divides by
   * zero when there are no encounters; otherwise the number of stops must be
   * a multiple of the number of encounters. New-tokens-only mode is on
   * exactly when the largest threshold is 1.
   */
  function NewDetector(stops: seq<seq<int>>, stopWords: seq<string>, encounters: seq<int>,
                       modelMaxLength: Option<int>, truncation: bool, maxTime: Option<int>, t0: int)
    : (r: Result<Detector, Failure>)
    ensures |encounters| == 0 ==> r == Err(NoEncounters)
    ensures |encounters| > 0 && |stops| % |encounters| != 0 ==> r == Err(StopsEncountersMismatch)
    ensures r.Ok? <==> |encounters| > 0 && |stops| % |encounters| == 0
    ensures r.Ok? ==> Valid(r.value)
    ensures r.Ok? ==> r.value.stops == stops && r.value.stopWords == stopWords && r.value.encounters == encounters
    ensures r.Ok? ==> r.value.modelMaxLength == modelMaxLength && r.value.truncation == truncation
    ensures r.Ok? ==> r.value.maxTime == maxTime && r.value.t0 == t0 && r.value.tokenStart.None?
    ensures r.Ok? ==> forall i :: 0 <= i < |stops| ==> r.value.numStops[i] == 0
    ensures r.Ok? ==> (r.value.newTokensOnly <==> 1 in encounters && forall i :: 0 <= i < |encounters| ==> encounters[i] <= 1)
  {
    if |encounters| == 0 then Err(NoEncounters)
    else if |stops| % |encounters| != 0 then Err(StopsEncountersMismatch)
    else
      Ok(Detector(stops, stopWords, encounters, seq(|stops|, _ => 0), modelMaxLength, truncation,
                  None, Max(encounters) == 1, maxTime, t0))
  }

  /** The threshold of rule `k`: `encounters[k % len(encounters)]`, not a one-to-one pairing. */
  function Threshold(d: Detector, k: nat): (t: int)
    requires |d.encounters| > 0
    ensures t in d.encounters
    ensures k < |d.encounters| ==> t == d.encounters[k]
  {
    d.encounters[k % |d.encounters|]
  }

  /** `zip(stops, stop_words)` stops at the shorter list: rules beyond it are never looked at. */
  function RuleCount(d: Detector): nat {
    if |d.stops| <= |d.stopWords| then |d.stops| else |d.stopWords|
  }

  /** The time budget is spent: strictly more than `max_time` has elapsed. */
  predicate TimeUp(d: Detector, now: int): (up: bool)
    ensures up ==> d.maxTime.Some?
    ensures d.maxTime.Some? && now - d.t0 == d.maxTime.value ==> !up
  {
    d.maxTime.Some? && now - d.t0 > d.maxTime.value
  }

  /** Once the time budget is spent it stays spent: a later clock reading is over budget too. */
  lemma TimeUpStaysUp(d: Detector, now: int, later: int)
    requires TimeUp(d, now) && now <= later
    ensures TimeUp(d, later)
  {
  }

  /** `token_start` after a call that got past the time check. */
  function StartAfter(d: Detector, ids: seq<int>): nat {
    if d.tokenStart.Some? then d.tokenStart.value else |ids|
  }

  /** The tokens a call scans: those from `start` on, or the whole sequence. */
  function Scanned(d: Detector, ids: seq<int>, start: nat): (s: seq<int>)
    ensures d.newTokensOnly && start <= |ids| ==> s == ids[start..]
    ensures d.newTokensOnly && start > |ids| ==> s == []
    ensures !d.newTokensOnly ==> s == ids
  {
    if !d.newTokensOnly then ids
    else if start <= |ids| then ids[start..]
    else []
  }

  /**
   * Python's `s[-n:]`. Because `-0 == 0`, a zero-length pattern's window is
   * the whole sequence; a pattern longer than the sequence also gets all of it.
   */
  function Window(s: seq<int>, n: nat): (w: seq<int>)
    ensures n == 0 ==> w == s
    ensures n > 0 ==> |w| == (if n <= |s| then n else |s|)
    ensures w == s[|s| - |w|..]
  {
    if n == 0 || n >= |s| then s else s[|s| - n..]
  }

  /** Rule `k` matches: its window is as long as its ids and the decoded window contains its word. */
  predicate Matches(d: Detector, scanned: seq<int>, decode: seq<int> -> string, k: nat): (m: bool)
    requires k < |d.stops| && k < |d.stopWords|
    ensures m ==> |d.stops[k]| <= |scanned|
    ensures |d.stops[k]| > 0 ==>
      (m <==> |d.stops[k]| <= |scanned| && Contains(decode(scanned[|scanned| - |d.stops[k]|..]), d.stopWords[k]))
    ensures |d.stops[k]| == 0 ==> (m <==> Contains(decode(scanned), d.stopWords[k]))
  {
    var w := Window(scanned, |d.stops[k]|);
    |d.stops[k]| <= |w| && Contains(decode(w), d.stopWords[k])
  }

  /** Rule `k` fires: it matches and its incremented counter reaches its threshold. */
  predicate Fires(d: Detector, scanned: seq<int>, decode: seq<int> -> string, k: nat, count: nat)
    requires |d.encounters| > 0 && k < |d.stops| && k < |d.stopWords|
  {
    Matches(d, scanned, decode, k) && count + 1 >= Threshold(d, k)
  }

  /** Some rule in `[lo, hi)` fires given the counters `counts`. */
  predicate FiresIn(d: Detector, scanned: seq<int>, decode: seq<int> -> string, counts: seq<nat>, lo: nat, hi: nat)
    requires |d.encounters| > 0 && |counts| == |d.stops| && hi <= RuleCount(d)
  {
    exists i :: lo <= i < hi && Fires(d, scanned, decode, i, counts[i])
  }

  /**
   * The matching loop from rule `k` on: a matching rule's counter goes up by
   * one, and the loop returns at the first rule whose counter reaches its
   * threshold, leaving later counters alone.
   */
  function Scan(d: Detector, scanned: seq<int>, decode: seq<int> -> string, counts: seq<nat>, k: nat)
    : (res: (bool, seq<nat>))
    requires |d.encounters| > 0 && |counts| == |d.stops| && k <= RuleCount(d)
    ensures |res.1| == |counts|
    ensures res.0 <==> FiresIn(d, scanned, decode, counts, k, RuleCount(d))
    ensures forall j :: 0 <= j < |counts| ==>
      res.1[j] == counts[j] + (if k <= j < RuleCount(d) && Matches(d, scanned, decode, j)
                                  && !FiresIn(d, scanned, decode, counts, k, j) then 1 else 0)
    decreases RuleCount(d) - k
  {
    if k == RuleCount(d) then (false, counts)
    else if Matches(d, scanned, decode, k) then
      var c := counts[k := counts[k] + 1];
      if c[k] >= Threshold(d, k) then
        FiringRuleEndsScan(d, scanned, decode, counts, k);
        (true, c)
      else
        var rest := Scan(d, scanned, decode, c, k + 1);
        SilentRuleCounts(d, scanned, decode, counts, c, k, rest.1);
        rest
    else
      var rest := Scan(d, scanned, decode, counts, k + 1);
      SilentRuleCounts(d, scanned, decode, counts, counts, k, rest.1);
      rest
  }

  /**
   * The counters after a rule `k` that does not fire: `c` is `counts` with
   * rule `k`'s counter bumped when it matched, and `rest` is what the loop
   * from `k + 1` makes of `c`.
   */
  lemma SilentRuleCounts(d: Detector, scanned: seq<int>, decode: seq<int> -> string,
                         counts: seq<nat>, c: seq<nat>, k: nat, rest: seq<nat>)
    requires |d.encounters| > 0 && |counts| == |d.stops| == |c| == |rest| && k < RuleCount(d)
    requires !Fires(d, scanned, decode, k, counts[k])
    requires c == if Matches(d, scanned, decode, k) then counts[k := counts[k] + 1] else counts
    requires forall j :: 0 <= j < |c| ==>
      rest[j] == c[j] + (if k + 1 <= j < RuleCount(d) && Matches(d, scanned, decode, j)
                            && !FiresIn(d, scanned, decode, c, k + 1, j) then 1 else 0)
    ensures FiresIn(d, scanned, decode, c, k + 1, RuleCount(d)) <==> FiresIn(d, scanned, decode, counts, k, RuleCount(d))
    ensures forall j :: 0 <= j < |counts| ==>
      rest[j] == counts[j] + (if k <= j < RuleCount(d) && Matches(d, scanned, decode, j)
                                 && !FiresIn(d, scanned, decode, counts, k, j) then 1 else 0)
  {
    FiresInPastSilentRule(d, scanned, decode, counts, c, k);
    assert !FiresIn(d, scanned, decode, counts, k, k);
  }

  /** Once rule `k` fires, every range starting at `k` and reaching past it holds a firing rule. */
  lemma FiringRuleEndsScan(d: Detector, scanned: seq<int>, decode: seq<int> -> string, counts: seq<nat>, k: nat)
    requires |d.encounters| > 0 && |counts| == |d.stops| && k < RuleCount(d)
    requires Matches(d, scanned, decode, k) && counts[k] + 1 >= Threshold(d, k)
    ensures FiresIn(d, scanned, decode, counts, k, RuleCount(d))
    ensures forall j :: k < j <= RuleCount(d) ==> FiresIn(d, scanned, decode, counts, k, j)
  {
    assert Fires(d, scanned, decode, k, counts[k]);
  }

  /** Past a rule `k` that does not fire, and with only counter `k` changed, nothing else about firing changes. */
  lemma FiresInPastSilentRule(d: Detector, scanned: seq<int>, decode: seq<int> -> string,
                              counts: seq<nat>, c: seq<nat>, k: nat)
    requires |d.encounters| > 0 && |counts| == |d.stops| == |c| && k < RuleCount(d)
    requires forall i :: 0 <= i < |c| && i != k ==> c[i] == counts[i]
    requires !Fires(d, scanned, decode, k, counts[k])
    ensures forall j :: k < j <= RuleCount(d) ==>
      (FiresIn(d, scanned, decode, c, k + 1, j) <==> FiresIn(d, scanned, decode, counts, k, j))
  {
  }

  /** The length cut-off: truncation is on, a maximum length is set and the sequence has reached it. */
  predicate TruncationDue(d: Detector, ids: seq<int>): (due: bool)
    ensures due ==> d.truncation && d.modelMaxLength.Some?
    ensures d.truncation && d.modelMaxLength.Some? && |ids| == d.modelMaxLength.value ==> due
  {
    d.truncation && d.modelMaxLength.Some? && |ids| >= d.modelMaxLength.value
  }

  /** Once the length cut-off applies, it applies to every longer sequence too. */
  lemma TruncationStaysDue(d: Detector, ids: seq<int>, longer: seq<int>)
    requires TruncationDue(d, ids) && |ids| <= |longer|
    ensures TruncationDue(d, longer)
  {
  }

  /**
   * `StoppingCriteriaSub.__call__` on the current token sequence `ids` at
   * clock reading `now`. Returns the stop decision and the next state.
   */
  function Step(d: Detector, ids: seq<int>, now: int, decode: seq<int> -> string): (res: (bool, Detector))
    requires Valid(d)
    ensures Valid(res.1)
    ensures TimeUp(d, now) ==> res == (true, d)
    ensures !TimeUp(d, now) ==>
      var scanned := Scanned(d, ids, StartAfter(d, ids));
      && res.1 == d.(tokenStart := Some(StartAfter(d, ids)), numStops := res.1.numStops)
      && (res.0 <==> FiresIn(d, scanned, decode, d.numStops, 0, RuleCount(d)) || TruncationDue(d, ids))
      && forall j :: 0 <= j < |d.stops| ==>
           res.1.numStops[j] == d.numStops[j] + (if j < RuleCount(d) && Matches(d, scanned, decode, j)
                                                   && !FiresIn(d, scanned, decode, d.numStops, 0, j) then 1 else 0)
  {
    if TimeUp(d, now) then (true, d)
    else
      var start := StartAfter(d, ids);
      var (fired, counts) := Scan(d, Scanned(d, ids, start), decode, d.numStops, 0);
      var d' := d.(tokenStart := Some(start), numStops := counts);
      if fired then (true, d') else (TruncationDue(d, ids), d')
  }

  /** One step never lowers a counter and raises none by more than one. */
  lemma StepCountersMonotone(d: Detector, ids: seq<int>, now: int, decode: seq<int> -> string)
    requires Valid(d)
    ensures forall j :: 0 <= j < |d.stops| ==>
      d.numStops[j] <= Step(d, ids, now, decode).1.numStops[j] <= d.numStops[j] + 1
  {
  }

  /**
   * When every rule stops on its next encounter (a threshold of one, say),
   * and neither budget applies, a step stops exactly when some rule's word
   * is in its decoded window.
   */
  lemma StepStopsIffEncounter(d: Detector, ids: seq<int>, now: int, decode: seq<int> -> string)
    requires Valid(d) && !TimeUp(d, now) && !TruncationDue(d, ids)
    requires forall j :: 0 <= j < RuleCount(d) ==> Threshold(d, j) <= d.numStops[j] + 1
    ensures Step(d, ids, now, decode).0 <==>
      exists j :: 0 <= j < RuleCount(d) && Matches(d, Scanned(d, ids, StartAfter(d, ids)), decode, j)
  {
    var scanned := Scanned(d, ids, StartAfter(d, ids));
    if j :| 0 <= j < RuleCount(d) && Matches(d, scanned, decode, j) {
      assert Fires(d, scanned, decode, j, d.numStops[j]);
    }
  }

  /** A rule whose id sequence ended up empty is not inert: it matches whenever the whole scan contains its word. */
  lemma EmptyRuleMatchesWholeScan(d: Detector, scanned: seq<int>, decode: seq<int> -> string, k: nat)
    requires k < |d.stops| && k < |d.stopWords| && |d.stops[k]| == 0
    ensures Matches(d, scanned, decode, k) <==> Contains(decode(scanned), d.stopWords[k])
  {
  }

  /** A rule longer than the scanned tokens never matches, whatever the decoder returns. */
  lemma LongRuleNeverMatches(d: Detector, scanned: seq<int>, decode: seq<int> -> string, k: nat)
    requires k < |d.stops| && k < |d.stopWords| && |d.stops[k]| > |scanned|
    ensures !Matches(d, scanned, decode, k)
  {
  }

  /** Only rule `k` matches on the call with tokens `ids`. */
  predicate OnlyRuleMatches(d: Detector, ids: seq<int>, decode: seq<int> -> string, k: nat) {
    && k < RuleCount(d)
    && var scanned := Scanned(d, ids, StartAfter(d, ids));
       forall j :: 0 <= j < RuleCount(d) ==> (Matches(d, scanned, decode, j) <==> j == k)
  }

  /**
   * A rule with threshold two (the bot marker of the human/bot formats) does
   * not stop generation on its first encounter but does on its second.
   */
  lemma SecondEncounterStops(d: Detector, ids1: seq<int>, now1: int, ids2: seq<int>, now2: int,
                             decode: seq<int> -> string, k: nat)
    requires Valid(d) && !d.truncation && !TimeUp(d, now1) && !TimeUp(d, now2)
    requires k < |d.numStops| && d.numStops[k] == 0 && Threshold(d, k) == 2
    requires OnlyRuleMatches(d, ids1, decode, k)
    requires OnlyRuleMatches(Step(d, ids1, now1, decode).1, ids2, decode, k)
    ensures !Step(d, ids1, now1, decode).0
    ensures Step(Step(d, ids1, now1, decode).1, ids2, now2, decode).0
  {
    var (b1, d1) := Step(d, ids1, now1, decode);
    var s1 := Scanned(d, ids1, StartAfter(d, ids1));
    assert !FiresIn(d, s1, decode, d.numStops, 0, k);
    assert d1.numStops[k] == 1;
    var s2 := Scanned(d1, ids2, StartAfter(d1, ids2));
    assert Fires(d1, s2, decode, k, d1.numStops[k]);
  }

  /** One call of the host's generation loop: the token sequence so far and the clock reading. */
  datatype Call = Call(ids: seq<int>, now: int)

  /** A run of calls against one detector, collecting every decision. */
  function Run(d: Detector, calls: seq<Call>, decode: seq<int> -> string): (res: (seq<bool>, Detector))
    requires Valid(d)
    ensures |res.0| == |calls| && Valid(res.1)
    decreases |calls|
  {
    if |calls| == 0 then ([], d)
    else
      var (b, d') := Step(d, calls[0].ids, calls[0].now, decode);
      var (bs, d'') := Run(d', calls[1..], decode);
      ([b] + bs, d'')
  }

  /**
   * Across any run the rules, thresholds, budgets and start time stay as
   * constructed, no counter decreases, and a `token_start` once set never changes.
   */
  lemma {:induction false} RunKeepsConfiguration(d: Detector, calls: seq<Call>, decode: seq<int> -> string)
    requires Valid(d)
    ensures var e := Run(d, calls, decode).1;
      && e.stops == d.stops && e.stopWords == d.stopWords && e.encounters == d.encounters
      && e.maxTime == d.maxTime && e.t0 == d.t0 && e.newTokensOnly == d.newTokensOnly
      && e.truncation == d.truncation && e.modelMaxLength == d.modelMaxLength
    ensures var e := Run(d, calls, decode).1;
      forall j :: 0 <= j < |d.numStops| ==> d.numStops[j] <= e.numStops[j]
    ensures d.tokenStart.Some? ==> Run(d, calls, decode).1.tokenStart == d.tokenStart
    decreases |calls|
  {
    if |calls| > 0 {
      var d' := Step(d, calls[0].ids, calls[0].now, decode).1;
      RunKeepsConfiguration(d', calls[1..], decode);
    }
  }

  /** Every call made once the time budget is spent reports a stop, whatever the rules' state. */
  lemma {:induction false} TimeUpAlwaysStops(d: Detector, calls: seq<Call>, decode: seq<int> -> string)
    requires Valid(d)
    ensures forall j :: 0 <= j < |calls| && TimeUp(d, calls[j].now) ==> Run(d, calls, decode).0[j]
    decreases |calls|
  {
    if |calls| > 0 {
      var (b, d') := Step(d, calls[0].ids, calls[0].now, decode);
      var rest := calls[1..];
      TimeUpAlwaysStops(d', rest, decode);
      var bs := Run(d', rest, decode).0;
      assert Run(d, calls, decode).0 == [b] + bs;
      forall j | 1 <= j < |calls| && TimeUp(d, calls[j].now)
        ensures ([b] + bs)[j]
      {
        assert rest[j - 1] == calls[j];
        assert TimeUp(d', rest[j - 1].now);
      }
    }
  }
}
