/**
 * The `POST` handler of src/app/api/analyze/route.ts. The page fetch, the
 * model call, `request.json()` and `JSON.parse` are outside the model: their
 * outcomes are inputs, and the outbound calls the handler makes are returned
 * in order so that callers can see which were made.
 */
module AnalyzeRoute {
  import opened Optional
  import opened Js
  import opened AnalysisTypes
  import Sanitise
  import Prompt
  import Reply

  /** What `await request.json()` produced. */
  datatype BodyOutcome =
    | Malformed                       // `request.json()` threw
    | NullBody                        // the body was the JSON literal `null`
    | Parsed(request: AnalysisRequest)

  /** What the page fetch (request plus `response.text()`) produced. */
  datatype FetchOutcome = Fetched(html: string) | FetchFailed

  /** What the model call (`generateContent` plus `response.text()`) produced. */
  datatype ModelOutcome = Replied(text: string) | ModelFailed

  /** An outbound call made while handling the request. */
  datatype Call = FetchPage(url: string) | GenerateContent(prompt: string)

  const InvalidJsonBody: string := "Invalid JSON body"
  const UrlRequired: string := "URL is required"
  const ModelCallFailed: string := "Gemini API call failed"

  /** The article text used when the page fetch fails. */
  const FetchFailedContent: string := "Could not fetch URL. Using provided content or default analysis."

  /** A string field of the request is truthy: present and not empty. */
  predicate Supplied(field: Option<string>) {
    field.Some? && field.value != ""
  }

  /**
   * The article text placed in the prompt: supplied content verbatim, else
   * the cleaned page, else the fixed placeholder when the fetch failed.
   */
  function ArticleText(content: Option<string>, fetch: FetchOutcome): string {
    if Supplied(content) then content.value
    else if fetch.Fetched? then Sanitise.Sanitise(fetch.html)
    else FetchFailedContent
  }

  /**
   * Supplied content reaches the prompt verbatim; otherwise a fetched page
   * arrives cleaned (short, free of tags, whitespace collapsed, a prefix of
   * the cleaned page) and a failed fetch gives the placeholder.
   */
  lemma ArticleTextChoice(content: Option<string>, fetch: FetchOutcome)
    ensures var r := ArticleText(content, fetch);
            && (Supplied(content) ==> r == content.value)
            && (!Supplied(content) && fetch.Fetched? ==>
                  && |r| <= Sanitise.MaxContentLength
                  && Sanitise.TagFree(r) && Sanitise.Collapsed(r)
                  && r <= Sanitise.CollapseWhitespace(Sanitise.StripTags(fetch.html)))
            && (!Supplied(content) && fetch.FetchFailed? ==> r == FetchFailedContent)
  {
  }

  /**
   * `POST /api/analyze`. `crashMessage` is the message of the `TypeError`
   * raised by destructuring a `null` body, which the outer `catch` reports.
   */
  method Post(body: BodyOutcome, fetch: FetchOutcome, model: ModelOutcome,
              parse: Reply.JsonParser, now: string, crashMessage: string)
    returns (response: Response, calls: seq<Call>)
    // Input errors answer 400 before any outbound call.
    ensures body.Malformed? ==> response == Response(400, Failure(InvalidJsonBody)) && calls == []
    ensures body.Parsed? && !Supplied(body.request.url) ==>
              response == Response(400, Failure(UrlRequired)) && calls == []
    ensures body.NullBody? ==> response == Response(500, Failure(crashMessage)) && calls == []
    // A valid request: the page is fetched only when no content was supplied,
    // then the model is asked exactly once, with the prompt for the chosen content.
    ensures body.Parsed? && Supplied(body.request.url) ==>
              var url := body.request.url.value;
              var content := body.request.content;
              var news := ArticleText(content, fetch);
              && calls == (if Supplied(content) then [] else [FetchPage(url)])
                          + [GenerateContent(Prompt.BuildPrompt(url, news))]
              && (model.ModelFailed? ==> response == Response(500, Failure(ModelCallFailed)))
              && (model.Replied? ==>
                    response == Response(200, Success(Reply.Finalise(url, Reply.ParseReply(model.text, parse), now))))
    // Success exactly when the request is valid and the model answered; then the status is 200.
    ensures response.envelope.Success? <==> body.Parsed? && Supplied(body.request.url) && model.Replied?
    ensures response.status == 200 <==> response.envelope.Success?
  {
    calls := [];
    if body.Malformed? {
      return Response(400, Failure(InvalidJsonBody)), calls;
    }
    if body.NullBody? {
      return Response(500, Failure(crashMessage)), calls;
    }
    var url := body.request.url;
    var content := body.request.content;
    if !Supplied(url) {
      return Response(400, Failure(UrlRequired)), calls;
    }

    var newsContent := if content.Some? then content.value else "";
    assert newsContent == "" <==> !Supplied(content);
    if newsContent == "" {
      calls := calls + [FetchPage(url.value)];
      match fetch {
        case Fetched(html) =>
          newsContent := Sanitise.Sanitise(html);
        case FetchFailed =>
          newsContent := FetchFailedContent;
      }
    }

    assert newsContent == ArticleText(content, fetch);
    var analysisPrompt := Prompt.BuildPrompt(url.value, newsContent);
    calls := calls + [GenerateContent(analysisPrompt)];
    assert calls == (if Supplied(content) then [] else [FetchPage(url.value)]) + [GenerateContent(analysisPrompt)];
    var responseText := "";
    match model {
      case ModelFailed =>
        return Response(500, Failure(ModelCallFailed)), calls;
      case Replied(text) =>
        responseText := text;
    }

    var analysisData: map<string, JsValue> := map[];
    var jsonMatch := Reply.BraceSpan(responseText);
    if jsonMatch.Some? {
      match parse(jsonMatch.value) {
        case Some(fields) =>
          analysisData := fields;
        case None =>
          analysisData := Reply.ParseFailureAnalysis;
      }
    }

    assert analysisData == Reply.ParseReply(responseText, parse);
    var result := Reply.Finalise(url.value, analysisData, now);
    return Response(200, Success(result)), calls;
  }
}
