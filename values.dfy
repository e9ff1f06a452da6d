/**
 * The JavaScript values that `JSON.parse` can hand back, and the truthiness
 * that the `||` operator tests.
 */
module Js {

  /**
   * A JavaScript value. Numbers are IEEE doubles in the source; here a
   * number is a real, with NaN kept apart because it is falsy.
   */
  datatype JsValue =
    | Undefined
    | Null
    | Bool(b: bool)
    | Number(n: real)
    | NaN
    | Str(s: string)
    | Arr(items: seq<JsValue>)
    | Obj(fields: map<string, JsValue>)

  /** JavaScript truthiness: `undefined`, `null`, `false`, `0`, `NaN` and `""` are falsy. */
  predicate Truthy(v: JsValue) {
    match v
    case Undefined => false
    case Null => false
    case Bool(b) => b
    case Number(n) => n != 0.0
    case NaN => false
    case Str(s) => s != ""
    case Arr(_) => true
    case Obj(_) => true
  }

  /** `v || d`. */
  function Or(v: JsValue, d: JsValue): JsValue {
    if Truthy(v) then v else d
  }

  /** Property access `o.k` on a parsed object: `undefined` when the key is absent. */
  function Get(o: map<string, JsValue>, k: string): JsValue {
    if k in o then o[k] else Undefined
  }
}

/** The declarations of src/types/index.ts that the analyze route produces. */
module AnalysisTypes {
  import opened Js
  import opened Optional

  /** The values of `AnalysisResult.verdict`. */
  const VerdictValues: seq<string> := ["TRUE", "FALSE", "MIXED", "UNVERIFIABLE"]

  /** The values of `Claim.status`. */
  const ClaimStatusValues: seq<string> := ["VERIFIED", "FALSE", "UNVERIFIABLE"]

  /**
   * `AnalysisResult`. The fields filled from the model's reply keep whatever
   * JavaScript value the reply held: the route checks neither their types nor
   * the declared verdict values, nor the shape of claims and proof sources.
   */
  datatype AnalysisResult = AnalysisResult(
    url: string,
    fakeScore: JsValue,
    verdict: JsValue,
    claims: JsValue,
    summary: JsValue,
    proofSources: JsValue,
    executionLog: seq<string>,
    timestamp: string)

  /** `AnalysisResponse`: `data` is present exactly on success, `error` exactly on failure. */
  datatype Envelope = Failure(error: string) | Success(data: AnalysisResult)

  /** What `NextResponse.json` sends: an HTTP status and the envelope. */
  datatype Response = Response(status: nat, envelope: Envelope)

  /** `AnalysisRequest` as `request.json()` delivers it; an absent field is `None`. */
  datatype AnalysisRequest = AnalysisRequest(url: Option<string>, content: Option<string>)

  /** Join `items` with `sep` between consecutive items (`items.join(sep)`). */
  function Join(items: seq<string>, sep: string): string {
    if items == [] then ""
    else if |items| == 1 then items[0]
    else items[0] + sep + Join(items[1..], sep)
  }
}
