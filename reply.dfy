/**
 * Turning the model's free-text reply into an `AnalysisResult`
 * (src/app/api/analyze/route.ts:110-141): cut out the brace span, hand it to
 * `JSON.parse`, and fall back field by field with `||`.
 */
module Reply {
  import opened Optional
  import opened Text
  import opened Js
  import opened AnalysisTypes

  /** What `JSON.parse` makes of a text: an object's fields, or `None` when it throws. */
  type JsonParser = string -> Option<map<string, JsValue>>

  /** The object the route uses when `JSON.parse` throws on the brace span. */
  const ParseFailureAnalysis: map<string, JsValue> := map[
    "fakeScore" := Number(50.0),
    "verdict" := Str("UNVERIFIABLE"),
    "summary" := Str("Could not parse analysis response"),
    "claims" := Arr([]),
    "proofSources" := Arr([])]

  const DefaultScore: JsValue := Number(50.0)
  const DefaultVerdict: JsValue := Str("UNVERIFIABLE")
  const DefaultClaims: JsValue := Arr([])
  const DefaultSummary: JsValue := Str("Analysis completed")
  const DefaultProofSources: JsValue := Arr([])

  /** The fixed progress log attached to every result. */
  const ExecutionLog: seq<string> := [
    "\U{2705} Fetched article content",
    "\U{1F916} Initialized Gemini API",
    "\U{1F50D} Analyzing content structure",
    "\U{1F4CA} Extracting claims and facts",
    "\U{1F310} Cross-referencing sources",
    "\U{2728} Generating verdict"]

  /**
   * `s.match(/\{[\s\S]*\}/)`: the leftmost match starts at the first `{`
   * and, the star being greedy, ends at the last `}`. There is a match
   * exactly when some `}` follows some `{`.
   */
  function BraceSpan(s: string): (r: Option<string>)
    ensures r.Some? <==> exists i, j :: 0 <= i < j < |s| && s[i] == '{' && s[j] == '}'
    ensures r.Some? ==> |r.value| >= 2 && r.value[0] == '{' && r.value[|r.value| - 1] == '}'
    ensures r.Some? ==> exists i :: OccursAt(s, r.value, i) && '{' !in s[..i] && '}' !in s[i + |r.value|..]
  {
    if '{' !in s then
      None
    else
      var i := FirstIndexOf(s, '{');
      if '}' !in s[i + 1..] then
        assert forall i', j' :: 0 <= i' < j' < |s| && s[i'] == '{' ==> s[j'] != '}' by {
          forall i', j' | 0 <= i' < j' < |s| && s[i'] == '{' ensures s[j'] != '}' {
            assert s[i + 1..][j' - i - 1] == s[j'];
          }
        }
        None
      else
        var j := LastIndexOf(s, '}');
        assert j > i by {
          var k :| 0 <= k < |s[i + 1..]| && s[i + 1..][k] == '}';
          assert s[i + 1 + k] == '}';
        }
        assert OccursAt(s, s[i..j + 1], i);
        Some(s[i..j + 1])
  }

  /** The object the route reads its fields from, for a reply `text` (`analysisData`). */
  function ParseReply(text: string, parse: JsonParser): map<string, JsValue> {
    match BraceSpan(text)
    case None => map[]
    case Some(span) =>
      match parse(span)
      case None => ParseFailureAnalysis
      case Some(fields) => fields
  }

  /**
   * Without a `}` after a `{` the reply reads as `{}`. Otherwise the fields
   * come from the block running from the first `{` to the last `}`: what
   * `JSON.parse` makes of it, or the fixed fallback when it rejects it.
   */
  lemma ParseReplyReadsSpan(text: string, parse: JsonParser)
    ensures (forall i, j :: 0 <= i < j < |text| && text[i] == '{' ==> text[j] != '}') ==> ParseReply(text, parse) == map[]
    ensures (exists i, j :: 0 <= i < j < |text| && text[i] == '{' && text[j] == '}') ==>
              exists k, span :: && OccursAt(text, span, k)
                                && |span| >= 2 && span[0] == '{' && span[|span| - 1] == '}'
                                && '{' !in text[..k] && '}' !in text[k + |span|..]
                                && ParseReply(text, parse) == (if parse(span).Some? then parse(span).value else ParseFailureAnalysis)
  {
    if BraceSpan(text).Some? {
      var span := BraceSpan(text).value;
      var k :| OccursAt(text, span, k) && '{' !in text[..k] && '}' !in text[k + |span|..];
    }
  }

  /** `out` is `given || fallback`, stated as: `given` is kept exactly when it is truthy, otherwise `fallback` replaces it. */
  predicate FallsBackTo(given: JsValue, fallback: JsValue, out: JsValue) {
    (out == given <==> Truthy(given)) && (out != given ==> out == fallback)
  }

  /** The `AnalysisResult` built from the parsed reply `data`. */
  function Finalise(url: string, data: map<string, JsValue>, timestamp: string): (r: AnalysisResult)
    ensures r.url == url && r.timestamp == timestamp
    ensures r.executionLog == ExecutionLog && |r.executionLog| == 6
    ensures FallsBackTo(Get(data, "fakeScore"), DefaultScore, r.fakeScore)
    ensures FallsBackTo(Get(data, "verdict"), DefaultVerdict, r.verdict)
    ensures FallsBackTo(Get(data, "claims"), DefaultClaims, r.claims)
    ensures FallsBackTo(Get(data, "summary"), DefaultSummary, r.summary)
    ensures FallsBackTo(Get(data, "proofSources"), DefaultProofSources, r.proofSources)
    ensures Truthy(r.fakeScore) && Truthy(r.verdict) && Truthy(r.claims) && Truthy(r.summary) && Truthy(r.proofSources)
  {
    AnalysisResult(
      url,
      Or(Get(data, "fakeScore"), DefaultScore),
      Or(Get(data, "verdict"), DefaultVerdict),
      Or(Get(data, "claims"), DefaultClaims),
      Or(Get(data, "summary"), DefaultSummary),
      Or(Get(data, "proofSources"), DefaultProofSources),
      ExecutionLog,
      timestamp)
  }

  /** The five model-supplied fields of a result, as an object. */
  function Fields(r: AnalysisResult): map<string, JsValue> {
    map["fakeScore" := r.fakeScore, "verdict" := r.verdict, "claims" := r.claims,
        "summary" := r.summary, "proofSources" := r.proofSources]
  }

  /** Defaulting is idempotent: running a finished result's fields through it again changes nothing. */
  lemma FinaliseIdempotent(url: string, data: map<string, JsValue>, timestamp: string)
    ensures Finalise(url, Fields(Finalise(url, data, timestamp)), timestamp) == Finalise(url, data, timestamp)
  {
  }

  /** A reply with no `{` followed by a `}` reads as `{}`, so every field takes its default, summary "Analysis completed". */
  lemma NoBraceSpanGivesDefaults(url: string, text: string, parse: JsonParser, timestamp: string)
    requires forall i, j :: 0 <= i < j < |text| && text[i] == '{' ==> text[j] != '}'
    ensures Finalise(url, ParseReply(text, parse), timestamp)
         == AnalysisResult(url, DefaultScore, DefaultVerdict, DefaultClaims, DefaultSummary,
                           DefaultProofSources, ExecutionLog, timestamp)
  {
  }

  /** A brace span that `JSON.parse` rejects gives the fixed fallback, summary "Could not parse analysis response". */
  lemma ParseFailureGivesFallback(url: string, text: string, parse: JsonParser, timestamp: string)
    requires BraceSpan(text).Some? && parse(BraceSpan(text).value).None?
    ensures Finalise(url, ParseReply(text, parse), timestamp)
         == AnalysisResult(url, Number(50.0), Str("UNVERIFIABLE"), Arr([]),
                           Str("Could not parse analysis response"), Arr([]), ExecutionLog, timestamp)
  {
  }

  /**
   * A JSON object embedded in prose that has no `{` before it and no `}`
   * after it is exactly the span handed to `JSON.parse`.
   */
  lemma EmbeddedObjectIsSpan(before: string, json: string, after: string)
    requires '{' !in before && '}' !in after
    requires |json| >= 2 && json[0] == '{' && json[|json| - 1] == '}'
    ensures BraceSpan(before + json + after) == Some(json)
  {
    var s := before + json + after;
    var first, last := |before|, |before| + |json| - 1;
    assert s[..first] == before;
    assert s[last + 1..] == after;
    FirstIndexAt(s, '{', first);
    LastIndexAt(s, '}', last);
    assert s[first + 1..][last - first - 1] == '}';
    assert s[first..last + 1] == json;
  }

  /** Well-formed JSON in prose is the object the fields are read from. */
  lemma EmbeddedObjectVerbatim(before: string, json: string, after: string,
                               parse: JsonParser, fields: map<string, JsValue>)
    requires '{' !in before && '}' !in after
    requires |json| >= 2 && json[0] == '{' && json[|json| - 1] == '}'
    requires parse(json) == Some(fields)
    ensures ParseReply(before + json + after, parse) == fields
  {
    EmbeddedObjectIsSpan(before, json, after);
  }

  /** `||` counts a score of 0 as missing: it becomes 50. */
  lemma ZeroScoreBecomesDefault(url: string, data: map<string, JsValue>, timestamp: string)
    requires Get(data, "fakeScore") == Number(0.0)
    ensures Finalise(url, data, timestamp).fakeScore == Number(50.0)
  {
  }

  /** No clamping and no enum check: a score of 150 and an undeclared verdict reach the result unchanged. */
  lemma OutOfRangeValuesPassThrough(url: string, timestamp: string)
    ensures var r := Finalise(url, map["fakeScore" := Number(150.0), "verdict" := Str("PROBABLY")], timestamp);
            r.fakeScore == Number(150.0) && r.verdict == Str("PROBABLY") && "PROBABLY" !in VerdictValues
  {
  }
}
