/** Scoring of a RAG answer: two token-overlap scores computed locally (groundedness
    of the answer in the retrieved context, relevance of the answer to the question),
    the scores an external evaluator returns as a JSON object inside free text, and
    the rule by which the evaluator's scores are merged into the local ones. The
    stopword list, the evaluator call, JSON parsing and float conversion are
    parameters. */
module RagEval {
  import opened Common
  import opened Text

  // ------------------------------------------------------------ token scores

  /** `set(s.lower().split())` */
  function RawTokens(s: string): (ts: set<string>)
    ensures forall t :: t in ts <==> t in Words(Lower(s))
  {
    set t | t in Words(Lower(s))
  }

  /** The tokens are exactly the maximal runs of non-whitespace characters of the
      lowered text. */
  lemma {:induction false} TokensAreRuns(s: string)
    ensures forall t :: t in RawTokens(s) <==> IsWord(Lower(s), t)
  {
    WordsAreRuns(Lower(s));
  }

  /** No token holds an upper-case ASCII letter. */
  lemma {:induction false} TokensLowered(s: string, t: string)
    requires t in RawTokens(s)
    ensures forall k :: 0 <= k < |t| ==> !('A' <= t[k] <= 'Z')
  {
    var low := Lower(s);
    TokensAreRuns(s);
    var i, j :| IsRun(low, i, j) && t == low[i..j];
    forall k | 0 <= k < |t| ensures !('A' <= t[k] <= 'Z') {
      assert t[k] == low[i + k];
    }
  }

  /** The tokens that count: no stopword and longer than two characters. */
  function Filtered(ts: set<string>, stop: set<string>): (fs: set<string>)
    ensures fs <= ts
    ensures forall t :: t in fs <==> t in ts && t !in stop && |t| > 2
  {
    set t | t in ts && t !in stop && |t| > 2
  }

  /** `min(1.0, x)` */
  function Min1(x: real): real
  {
    if x < 1.0 then x else 1.0
  }

  /** The share of the answer's tokens found in the context. */
  function Groundedness(context: string, response: string, stop: set<string>): (g: real)
    ensures 0.0 <= g <= 1.0
  {
    if context == "" || response == "" then 0.0
    else
      var ctx := Filtered(RawTokens(context), stop);
      var resp := Filtered(RawTokens(response), stop);
      if resp == {} then 0.0
      else
        OverlapBounds(resp, ctx);
        Min1(|resp * ctx| as real / |resp| as real)
  }

  /** The share of the question's tokens found in the answer; only the question's
      tokens are filtered. */
  function Relevance(question: string, response: string, stop: set<string>): (r: real)
    ensures 0.0 <= r <= 1.0
  {
    if question == "" || response == "" then 0.0
    else
      var q := Filtered(RawTokens(question), stop);
      var resp := RawTokens(response);
      if q == {} then 0.0
      else
        OverlapBounds(q, resp);
        Min1(|q * resp| as real / |q| as real)
  }

  /** The overlap ratio `|a ∩ b| / |a|` of a non-empty set lies in [0, 1]; it is 1
      exactly when `a` is inside `b` and 0 exactly when they share nothing. */
  lemma {:induction false} OverlapBounds(a: set<string>, b: set<string>)
    requires a != {}
    ensures 0.0 <= |a * b| as real / |a| as real <= 1.0
    ensures |a * b| as real / |a| as real == 1.0 <==> a <= b
    ensures |a * b| as real / |a| as real == 0.0 <==> a * b == {}
  {
    assert |a - b| == |a| - |a * b|;
    RatioBounds(|a * b| as real, |a| as real);
    if |a * b| == |a| {
      assert a - b == {};
      forall t | t in a
        ensures t in b
      {
        assert t !in a - b;
      }
    }
    if a <= b {
      assert a * b == a;
    }
  }

  /** A ratio `x / y` with `0 <= x <= y` lies in [0, 1], is 1 exactly when `x == y`
      and 0 exactly when `x == 0`. */
  lemma RatioBounds(x: real, y: real)
    requires 0.0 < y && 0.0 <= x <= y
    ensures 0.0 <= x / y <= 1.0
    ensures x / y == 1.0 <==> x == y
    ensures x / y == 0.0 <==> x == 0.0
  {
    assert x / y * y == x;
    assert y / y == 1.0;
  }

  /** Groundedness is the exact overlap ratio of the filtered token sets (the clamp
      to 1.0 never applies); it is 1 exactly when every counted answer token occurs in
      the context, and 0 exactly when an input is empty or nothing is shared. */
  lemma {:induction false} GroundednessMeaning(context: string, response: string, stop: set<string>)
    ensures var ctx := Filtered(RawTokens(context), stop);
      var resp := Filtered(RawTokens(response), stop);
      && (context != "" && response != "" && resp != {} ==>
            Groundedness(context, response, stop) == |resp * ctx| as real / |resp| as real)
      && (Groundedness(context, response, stop) == 1.0 <==>
            context != "" && response != "" && resp != {} && resp <= ctx)
      && (Groundedness(context, response, stop) == 0.0 <==>
            context == "" || response == "" || resp * ctx == {})
  {
    var ctx := Filtered(RawTokens(context), stop);
    var resp := Filtered(RawTokens(response), stop);
    if context != "" && response != "" && resp != {} {
      OverlapBounds(resp, ctx);
    }
  }

  /** Relevance is the exact overlap ratio of the filtered question tokens with the
      unfiltered answer tokens; it is 1 exactly when every counted question token
      occurs in the answer, and 0 exactly when an input is empty or nothing is shared. */
  lemma {:induction false} RelevanceMeaning(question: string, response: string, stop: set<string>)
    ensures var q := Filtered(RawTokens(question), stop);
      var resp := RawTokens(response);
      && (question != "" && response != "" && q != {} ==>
            Relevance(question, response, stop) == |q * resp| as real / |q| as real)
      && (Relevance(question, response, stop) == 1.0 <==>
            question != "" && response != "" && q != {} && q <= resp)
      && (Relevance(question, response, stop) == 0.0 <==>
            question == "" || response == "" || q * resp == {})
  {
    var q := Filtered(RawTokens(question), stop);
    var resp := RawTokens(response);
    if question != "" && response != "" && q != {} {
      OverlapBounds(q, resp);
    }
  }

  // ------------------------------------------------------ external evaluator

  const NoJsonFound := "No JSON found in evaluation response"
  const ParseFailed := "Failed to parse evaluation JSON"

  /** The evaluator's verdict as a JSON object. `reply` is the evaluation text of the
      returned row (`None` when no row came back), or the message of the exception the
      call raised; `parse` is `json.loads` on an object, `None` when it fails. */
  function CortexEvaluation(reply: Result<Option<string>, string>, parse: string -> Option<Record>): (r: Record)
  {
    match reply
    case Err(e) => [("error", JStr(e))]
    case Ok(row) =>
      var text := if row.None? then "{}" else row.value;
      match JsonSpan(text)
      case None => [("error", JStr(NoJsonFound))]
      case Some(span) =>
        match parse(span)
        case None => [("error", JStr(ParseFailed))]
        case Some(d) => d
  }

  /** A reply without a `{…}` span gives the "no JSON" error object. */
  lemma {:induction false} EvaluatorNoJson(text: string, parse: string -> Option<Record>)
    requires !HasBracePair(text)
    ensures CortexEvaluation(Ok(Some(text)), parse) == [("error", JStr(NoJsonFound))]
  {
  }

  /** Otherwise the verdict is the parse of the span from the first `{` to the last
      `}`, or the "failed to parse" error object when that span does not parse. */
  lemma {:induction false} EvaluatorSpan(text: string, parse: string -> Option<Record>) returns (i: nat, j: nat)
    requires HasBracePair(text)
    ensures i < j < |text| && text[i] == '{' && text[j] == '}' && '{' !in text[..i] && '}' !in text[j + 1..]
    ensures parse(text[i..j + 1]).None? ==> CortexEvaluation(Ok(Some(text)), parse) == [("error", JStr(ParseFailed))]
    ensures parse(text[i..j + 1]).Some? ==> CortexEvaluation(Ok(Some(text)), parse) == parse(text[i..j + 1]).value
  {
    var span := JsonSpan(text);
    i, j :| 0 <= i < j < |text| && span.value == text[i..j + 1]
      && text[i] == '{' && text[j] == '}' && '{' !in text[..i] && '}' !in text[j + 1..];
  }

  // ------------------------------------------------------------------ merge

  /** The merge loop's variables: the results so far, the coherence to store, and the
      message of a failed float conversion, which ends the loop. */
  datatype MergeState = MergeState(results: Record, coherence: real, failure: Option<string>)

  const CortexPrefix := "cortex_"

  /** One evaluator entry: skipped when its key is already a result key, otherwise
      stored under `cortex_<key>`; a `coherence` entry also becomes the coherence to
      store (`float(value)`, which may fail). */
  function MergeStep(st: MergeState, entry: (string, Json), toFloat: Json -> Result<real, string>): (next: MergeState)
    ensures entry.0 in Keys(st.results) ==> next == st
  {
    if entry.0 in Keys(st.results) then st
    else
      var results := Put(st.results, CortexPrefix + entry.0, entry.1);
      if entry.0 != "coherence" then MergeState(results, st.coherence, st.failure)
      else
        match toFloat(entry.1)
        case Ok(c) => MergeState(results, c, st.failure)
        case Err(e) => MergeState(results, st.coherence, Some(e))
  }

  /** The loop over the evaluator's entries from state `st`, stopping at a failure. */
  function Merged(st: MergeState, entries: Record, toFloat: Json -> Result<real, string>): MergeState
    decreases |entries|
  {
    if entries == [] || st.failure.Some? then st
    else Merged(MergeStep(st, entries[0], toFloat), entries[1..], toFloat)
  }

  /** The merge loop of the RAG handler (`for key, value in cortex_eval.items()`). */
  method MergeCortex(results: Record, cortex: Record, toFloat: Json -> Result<real, string>)
    returns (merged: Record, coherence: real, failure: Option<string>)
    ensures MergeState(merged, coherence, failure) == Merged(MergeState(results, 0.0, None), cortex, toFloat)
  {
    merged, coherence, failure := results, 0.0, None;
    var k := 0;
    while k < |cortex| && failure.None?
      invariant 0 <= k <= |cortex|
      invariant Merged(MergeState(merged, coherence, failure), cortex[k..], toFloat)
             == Merged(MergeState(results, 0.0, None), cortex, toFloat)
    {
      var (key, value) := cortex[k];
      assert cortex[k..][0] == (key, value) && cortex[k..][1..] == cortex[k + 1..];
      if key !in Keys(merged) {
        merged := Put(merged, CortexPrefix + key, value);
        if key == "coherence" {
          var c := toFloat(value);
          if c.Err? {
            failure := Some(c.error);
          } else {
            coherence := c.value;
          }
        }
      }
      k := k + 1;
    }
  }

  /** The evaluation object returned with the answer, and the coherence of the row
      the INSERT stores (`None` when no row is stored: a score conversion raised
      before the INSERT, or the INSERT itself raised `insertError`). */
  function Evaluation(question: string, context: string, answer: string, stop: set<string>,
                      cortex: Record, toFloat: Json -> Result<real, string>, insertError: Option<string>)
    : (Record, Option<real>)
  {
    var base := [("groundedness", JNum(Groundedness(context, answer, stop))),
                 ("relevance", JNum(Relevance(question, answer, stop)))];
    var m := if "error" in Keys(cortex) then MergeState(base, 0.0, None)
             else Merged(MergeState(base, 0.0, None), cortex, toFloat);
    if m.failure.Some? then (Put(m.results, "error", JStr(m.failure.value)), None)
    else if insertError.Some? then (Put(m.results, "error", JStr(insertError.value)), None)
    else (m.results, Some(m.coherence))
  }

  predicate HasPrefix(k: string)
  {
    StartsWith(k, CortexPrefix)
  }

  /** The merge only writes `cortex_…` keys, so every other result (the local scores
      among them) keeps its value; and once a conversion fails nothing more happens. */
  lemma {:induction false} MergeKeepsOthers(st: MergeState, entries: Record, toFloat: Json -> Result<real, string>, k: string)
    requires !HasPrefix(k)
    ensures Get(Merged(st, entries, toFloat).results, k) == Get(st.results, k)
    ensures st.failure.Some? ==> Merged(st, entries, toFloat) == st
    decreases |entries|
  {
    if entries != [] && st.failure.None? {
      var next := MergeStep(st, entries[0], toFloat);
      if entries[0].0 !in Keys(st.results) {
        assert (CortexPrefix + entries[0].0)[..|CortexPrefix|] == CortexPrefix;
        assert CortexPrefix + entries[0].0 != k;
      }
      MergeKeepsOthers(next, entries[1..], toFloat, k);
    }
  }

  /** An evaluator entry whose key is not a result key when its turn comes ends up
      under `cortex_<key>` with its value, and later entries leave it there. Its turn
      comes when no conversion failed before it; its key is still free then when it
      is not a result key at the start and no earlier entry `k` wrote `cortex_k`
      under that name. The evaluator's keys are distinct, being those of a JSON
      object. */
  lemma {:induction false} MergeAdds(st: MergeState, entries: Record, toFloat: Json -> Result<real, string>, i: nat)
    requires i < |entries|
    requires forall a, b :: 0 <= a < b < |entries| ==> entries[a].0 != entries[b].0
    requires forall j :: 0 <= j < i ==> CortexPrefix + entries[j].0 != entries[i].0
    requires Merged(st, entries[..i], toFloat).failure.None?
    requires entries[i].0 !in Keys(st.results)
    ensures Get(Merged(st, entries, toFloat).results, CortexPrefix + entries[i].0) == Some(entries[i].1)
  {
    var mid := Merged(st, entries[..i], toFloat);
    var e := entries[i];
    var later := entries[i + 1..];
    MergedSplit(st, entries, toFloat, i);
    PrefixKeys(st, entries, toFloat, i, e.0);
    assert entries[i..][0] == e && entries[i..][1..] == later;
    assert Merged(mid, entries[i..], toFloat) == Merged(MergeStep(mid, e, toFloat), later, toFloat);
    StepStores(mid, e, toFloat);
    assert forall a :: 0 <= a < |later| ==> later[a] == entries[i + 1 + a];
    MergeKeepsCortexKey(MergeStep(mid, e, toFloat), later, toFloat, e.0);
  }

  /** The loop over all entries is the loop over the first `i`, continued over the rest. */
  lemma {:induction false} MergedSplit(st: MergeState, entries: Record, toFloat: Json -> Result<real, string>, i: nat)
    requires i <= |entries|
    ensures Merged(st, entries, toFloat) == Merged(Merged(st, entries[..i], toFloat), entries[i..], toFloat)
    decreases i
  {
    if i > 0 && st.failure.None? {
      var next := MergeStep(st, entries[0], toFloat);
      assert entries[..i][0] == entries[0] && entries[..i][1..] == entries[1..][..i - 1];
      assert entries[1..][i - 1..] == entries[i..];
      MergedSplit(next, entries[1..], toFloat, i - 1);
    }
  }

  /** A key that is not a result key at the start and is not `cortex_<k>` for any of the
      first `i` entries is not a result key after them. */
  lemma {:induction false} PrefixKeys(st: MergeState, entries: Record, toFloat: Json -> Result<real, string>, i: nat, k: string)
    requires i <= |entries|
    requires k !in Keys(st.results)
    requires forall j :: 0 <= j < i ==> CortexPrefix + entries[j].0 != k
    ensures k !in Keys(Merged(st, entries[..i], toFloat).results)
    decreases i
  {
    if i == 0 {
      assert entries[..i] == [];
    } else if st.failure.None? {
      var next := MergeStep(st, entries[0], toFloat);
      var rest := entries[1..];
      assert entries[..i][0] == entries[0] && entries[..i][1..] == rest[..i - 1];
      assert Merged(st, entries[..i], toFloat) == Merged(next, rest[..i - 1], toFloat);
      StepAvoids(st, entries[0], toFloat, k);
      assert forall j :: 0 <= j < i - 1 ==> rest[j] == entries[j + 1];
      PrefixKeys(next, rest, toFloat, i - 1, k);
    } else {
      assert Merged(st, entries[..i], toFloat) == st;
    }
  }

  /** A step on a key that is not yet a result key stores its value under `cortex_<key>`. */
  lemma StepStores(st: MergeState, e: (string, Json), toFloat: Json -> Result<real, string>)
    requires e.0 !in Keys(st.results)
    ensures Get(MergeStep(st, e, toFloat).results, CortexPrefix + e.0) == Some(e.1)
  {
  }

  /** A step adds no key other than `cortex_<key>` of its own entry. */
  lemma StepAvoids(st: MergeState, e: (string, Json), toFloat: Json -> Result<real, string>, k: string)
    requires k !in Keys(st.results) && k != CortexPrefix + e.0
    ensures k !in Keys(MergeStep(st, e, toFloat).results)
  {
    var results := MergeStep(st, e, toFloat).results;
    if e.0 !in Keys(st.results) {
      assert results == Put(st.results, CortexPrefix + e.0, e.1);
      assert Get(results, k) == Get(st.results, k);
    }
  }

  /** An entry already stored as `cortex_<key>` is not touched by the rest of the loop
      when the later keys differ from `key` and none starts with `cortex_`. */
  lemma {:induction false} MergeKeepsCortexKey(st: MergeState, entries: Record, toFloat: Json -> Result<real, string>, key: string)
    requires forall a :: 0 <= a < |entries| ==> entries[a].0 != key
    ensures Get(Merged(st, entries, toFloat).results, CortexPrefix + key) == Get(st.results, CortexPrefix + key)
    decreases |entries|
  {
    if entries != [] && st.failure.None? {
      var next := MergeStep(st, entries[0], toFloat);
      StepKeepsCortexKey(st, entries[0], toFloat, key);
      assert forall a :: 0 <= a < |entries[1..]| ==> entries[1..][a] == entries[a + 1];
      MergeKeepsCortexKey(next, entries[1..], toFloat, key);
    }
  }

  /** One merge step on another key leaves the entry `cortex_<key>` as it was. */
  lemma StepKeepsCortexKey(st: MergeState, entry: (string, Json), toFloat: Json -> Result<real, string>, key: string)
    requires entry.0 != key
    ensures Get(MergeStep(st, entry, toFloat).results, CortexPrefix + key) == Get(st.results, CortexPrefix + key)
  {
    assert CortexPrefix + entry.0 != CortexPrefix + key by {
      assert (CortexPrefix + entry.0)[|CortexPrefix|..] == entry.0;
      assert (CortexPrefix + key)[|CortexPrefix|..] == key;
    }
  }

  /** One merge step from results that hold no `coherence` key: the results still hold
      none afterwards, and the coherence changes only for the `coherence` entry, to its
      converted value. */
  lemma {:induction false} CoherenceStep(st: MergeState, e: (string, Json), toFloat: Json -> Result<real, string>)
    requires "coherence" !in Keys(st.results)
    requires MergeStep(st, e, toFloat).failure.None?
    ensures "coherence" !in Keys(MergeStep(st, e, toFloat).results)
    ensures e.0 == "coherence" ==> toFloat(e.1) == Ok(MergeStep(st, e, toFloat).coherence)
    ensures e.0 != "coherence" ==> MergeStep(st, e, toFloat).coherence == st.coherence
  {
    if e.0 !in Keys(st.results) {
      assert "coherence" != CortexPrefix + e.0 by {
        assert (CortexPrefix + e.0)[..|CortexPrefix|] == CortexPrefix;
        assert "coherence"[..|CortexPrefix|][3] == 'e';
      }
    }
  }

  /** The coherence stored with the evaluation is the evaluator's `coherence` value
      converted to a float, or stays as it was when the evaluator gives none. */
  lemma {:induction false} MergeCoherence(st: MergeState, entries: Record, toFloat: Json -> Result<real, string>)
    requires forall a, b :: 0 <= a < b < |entries| ==> entries[a].0 != entries[b].0
    requires "coherence" !in Keys(st.results)
    requires Merged(st, entries, toFloat).failure.None?
    ensures "coherence" in Keys(entries) ==>
      toFloat(Get(entries, "coherence").value) == Ok(Merged(st, entries, toFloat).coherence)
    ensures "coherence" !in Keys(entries) ==> Merged(st, entries, toFloat).coherence == st.coherence
    decreases |entries|
  {
    if entries != [] {
      var e := entries[0];
      var rest := entries[1..];
      var next := MergeStep(st, e, toFloat);
      assert Merged(st, entries, toFloat) == Merged(next, rest, toFloat);
      assert next.failure.None?;
      CoherenceStep(st, e, toFloat);
      assert forall a :: 0 <= a < |rest| ==> rest[a] == entries[a + 1];
      MergeCoherence(next, rest, toFloat);
      if e.0 == "coherence" {
        assert "coherence" !in Keys(rest) by {
          forall a | 0 <= a < |rest|
            ensures Keys(rest)[a] != "coherence"
          {
            assert rest[a] == entries[a + 1];
          }
        }
        assert Get(entries, "coherence") == Some(e.1);
      } else {
        assert Get(entries, "coherence") == Get(rest, "coherence");
        assert Keys(entries) == [e.0] + Keys(rest);
      }
    }
  }

  /** The returned evaluation always carries the locally computed groundedness and
      relevance: the evaluator's own scores for these never replace them. */
  lemma {:induction false} LocalScoresKept(question: string, context: string, answer: string, stop: set<string>,
                                           cortex: Record, toFloat: Json -> Result<real, string>, insertError: Option<string>)
    ensures var results := Evaluation(question, context, answer, stop, cortex, toFloat, insertError).0;
      && Get(results, "groundedness") == Some(JNum(Groundedness(context, answer, stop)))
      && Get(results, "relevance") == Some(JNum(Relevance(question, answer, stop)))
  {
    var base := [("groundedness", JNum(Groundedness(context, answer, stop))),
                 ("relevance", JNum(Relevance(question, answer, stop)))];
    assert !HasPrefix("groundedness") by {
      assert "groundedness"[..|CortexPrefix|][0] == 'g';
    }
    assert !HasPrefix("relevance") by {
      assert "relevance"[..|CortexPrefix|][0] == 'r';
    }
    MergeKeepsOthers(MergeState(base, 0.0, None), cortex, toFloat, "groundedness");
    MergeKeepsOthers(MergeState(base, 0.0, None), cortex, toFloat, "relevance");
  }

  /** An evaluator answer holding an `error` key adds nothing: the evaluation holds
      the two local scores (and the INSERT's error, if it failed), and the row stored,
      if any, has coherence 0.0. */
  lemma {:induction false} ErrorAddsNothing(question: string, context: string, answer: string, stop: set<string>,
                                            cortex: Record, toFloat: Json -> Result<real, string>, insertError: Option<string>)
    requires "error" in Keys(cortex)
    ensures var (results, coherence) := Evaluation(question, context, answer, stop, cortex, toFloat, insertError);
      && coherence == (if insertError.None? then Some(0.0) else None)
      && Keys(results) == if insertError.None? then ["groundedness", "relevance"] else ["groundedness", "relevance", "error"]
  {
  }
}
