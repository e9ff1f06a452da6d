# Veritas engine analyze pipeline: a Dafny model

This project models the deterministic core of a fake-news checker. Its
`POST /api/analyze` handler takes a news URL. It optionally fetches the page
and cleans it. It builds an instruction for a generative model, cuts the
JSON object out of the model's free-text reply, and fills missing fields
with defaults. The project also models the `URLInput` browser component that
collects the URL: its submit guard, its drag highlight and the URL it pulls
out of a dropped text file.

Modules, one per concern:

- `Optional`, `Text` (`text.dfy`): `Option`, and the JavaScript whitespace
  class (`\s`, `trim`) with `trim`, `includes` and their properties.
- `Js`, `AnalysisTypes` (`values.dfy`): JavaScript values and their
  truthiness, and the result and response types of `src/types/index.ts`.
- `Sanitise` (`sanitise.dfy`): the tag-stripping, whitespace-collapsing,
  3000-character cleaning of a fetched page.
- `Prompt` (`prompt.dfy`): the prompt template.
- `Reply` (`reply.dfy`): brace-span extraction, the parse fallback and the
  `||` defaulting into an `AnalysisResult`.
- `AnalyzeRoute` (`route.dfy`): the handler as a method. The outcomes of the
  request-body parse, the page fetch, the model call and `JSON.parse` are its
  inputs, and it returns the response with the outbound calls it made, in order.
- `UrlInputComponent` (`url_input.dfy`): the component state as a class with
  `url` and `dragActive`, its handlers as methods, and the dropped-text URL
  extraction as a function.

Three behaviours of the code are worth knowing, and the model keeps them:

- The prompt asks for a score written `<number 0-100>`
  (src/app/api/analyze/route.ts:78), and `AnalysisResult.verdict` declares
  four values (src/types/index.ts:4). The code neither clamps the score nor
  checks the verdict (src/app/api/analyze/route.ts:127-128), so a reply with
  `"fakeScore": 150` or `"verdict": "PROBABLY"` reaches the result unchanged
  (`Reply.OutOfRangeValuesPassThrough`).
- The greedy pattern runs from the first `{` to the last `}`
  (src/app/api/analyze/route.ts:113). Two objects in one reply, as in
  `{"a":1} and {"b":2}`, reach `JSON.parse` together, which rejects them, and
  the parse fallback follows (`Reply.BraceSpan`).
- A reply with no brace span is read as `{}`
  (src/app/api/analyze/route.ts:114), not as a parse failure. The summary then
  is "Analysis completed", not "Could not parse analysis response"
  (`Reply.NoBraceSpanGivesDefaults`).

## Model

| member | source | states |
|---|---|---|
| `Text.TrimEmptyIff` | src/components/URLInput.tsx:18 | `url.trim()` is empty exactly when every character of `url` is whitespace |
| `Text.TrimStripsEnds` | src/components/URLInput.tsx:18 | `Trim`, as `url.trim()`: the result is a block of the input, everything dropped before and after it is whitespace, and the result neither starts nor ends with whitespace |
| `Sanitise.Sanitise` | src/app/api/analyze/route.ts:57 | the cleaned page text has at most 3000 characters; no `<` in it has a `>` after it; every whitespace character is a single space with no whitespace beside it; it is a prefix of the tag-stripped, whitespace-collapsed text, and all of it when that text is shorter than 3000 |
| `Sanitise.StripTagsTagFree` | src/app/api/analyze/route.ts:57 | after `replace(/<[^>]*>/g, " ")` no `<` has a `>` anywhere after it |
| `Sanitise.StripTagsOfTagFree` | src/app/api/analyze/route.ts:57 | tag stripping leaves a text with no tag pattern unchanged |
| `Sanitise.StripTagsKeepsPlain` | src/app/api/analyze/route.ts:57 | `StripTags`, as `replace(/<[^>]*>/g, " ")`: text before the first `<` is kept as it is |
| `Sanitise.StripTagsReplacesTag` | src/app/api/analyze/route.ts:57 | `StripTags`: a `<`, then text without `>`, then `>` becomes one space, and stripping continues after the `>` |
| `Sanitise.CollapseKeepsWord` | src/app/api/analyze/route.ts:57 | `CollapseWhitespace`, as `replace(/\s+/g, " ")`: text without whitespace is kept as it is |
| `Sanitise.CollapseReplacesRun` | src/app/api/analyze/route.ts:57 | `CollapseWhitespace`: a word, then a maximal whitespace run of any length, gives the word and one space, and collapsing continues after the run |
| `Sanitise.CollapseCollapsed` | src/app/api/analyze/route.ts:57 | after `replace(/\s+/g, " ")` every whitespace character is a plain space and no two whitespace characters are adjacent |
| `Sanitise.CollapseKeepsText` | src/app/api/analyze/route.ts:57 | whitespace collapsing keeps every non-whitespace character, in order |
| `Sanitise.CollapseKeepsTagFree` | src/app/api/analyze/route.ts:57 | whitespace collapsing cannot create a tag pattern |
| `Sanitise.CollapseOfCollapsed` | src/app/api/analyze/route.ts:57 | whitespace collapsing leaves already-collapsed text unchanged |
| `Sanitise.SanitiseIdempotent` | src/app/api/analyze/route.ts:57 | cleaning cleaned text changes nothing |
| `Prompt.PromptLayout` | src/app/api/analyze/route.ts:72-96 | `BuildPrompt`: the prompt is the fixed head, the URL verbatim, the middle, the article text verbatim and the fixed schema, at the stated offsets |
| `Prompt.ReadBuildPrompt` | src/app/api/analyze/route.ts:72-74 | for a URL without a line break, the URL and the article text can be read back out of the prompt |
| `Prompt.VerdictAlternativesDeclared` | src/app/api/analyze/route.ts:79 | the verdict alternatives in the schema are the declared `AnalysisResult.verdict` values joined by vertical bars, in declaration order |
| `Prompt.StatusAlternativesDeclared` | src/app/api/analyze/route.ts:84 | the status alternatives in the schema are the declared `Claim.status` values joined by vertical bars, in declaration order |
| `Prompt.PromptListsVerdicts` | src/app/api/analyze/route.ts:72-96 | every prompt contains the quoted, bracketed verdict alternatives built from the declared verdict values |
| `Prompt.PromptListsClaimStatuses` | src/app/api/analyze/route.ts:72-96 | every prompt contains the quoted, bracketed status alternatives built from the declared claim-status values |
| `Reply.BraceSpan` | src/app/api/analyze/route.ts:113 | a span exists exactly when some `}` follows some `{`; it starts with `{`, ends with `}`, and there is no `{` before it and no `}` after it in the reply |
| `Reply.ParseReplyReadsSpan` | src/app/api/analyze/route.ts:111-123 | `ParseReply`: without a `}` after a `{` the reply reads as `{}`; otherwise the fields are what `JSON.parse` makes of the block from the first `{` to the last `}`, or the fixed fallback object when it rejects that block |
| `Reply.EmbeddedObjectIsSpan` | src/app/api/analyze/route.ts:113 | a JSON object embedded in prose with no `{` before it and no `}` after it is exactly the extracted span |
| `Reply.EmbeddedObjectVerbatim` | src/app/api/analyze/route.ts:113-114 | the fields of such an embedded object, as `JSON.parse` gives them, are the fields the result is built from |
| `Reply.NoBraceSpanGivesDefaults` | src/app/api/analyze/route.ts:111-131 | a reply with no brace span gives every default, with summary "Analysis completed" |
| `Reply.ParseFailureGivesFallback` | src/app/api/analyze/route.ts:115-122 | a span that `JSON.parse` rejects gives score 50, "UNVERIFIABLE", no claims, no sources and summary "Could not parse analysis response" |
| `Reply.Finalise` | src/app/api/analyze/route.ts:125-141 | each of score, verdict, claims, summary and sources keeps the parsed value exactly when it is truthy and otherwise takes its default (50, "UNVERIFIABLE", [], "Analysis completed", []); all five are truthy; the url and timestamp are the given ones; the log is the fixed six entries |
| `Reply.FinaliseIdempotent` | src/app/api/analyze/route.ts:127-131 | defaulting a finished result's fields again changes nothing |
| `Reply.ZeroScoreBecomesDefault` | src/app/api/analyze/route.ts:127 | a parsed score of 0 becomes 50 |
| `Reply.OutOfRangeValuesPassThrough` | src/app/api/analyze/route.ts:127-128 | a score of 150 and an undeclared verdict reach the result unchanged |
| `AnalyzeRoute.ArticleTextChoice` | src/app/api/analyze/route.ts:39-61 | `ArticleText`: supplied content is used verbatim; otherwise a fetched page gives its cleaned text (at most 3000 characters, no tag pattern, whitespace collapsed, a prefix of the cleaned page), and a failed fetch gives the fixed placeholder |
| `AnalyzeRoute.Post` | src/app/api/analyze/route.ts:15-150 | a malformed body answers 400 "Invalid JSON body" and a missing or empty URL answers 400 "URL is required", both before any outbound call; a `null` body answers 500 with the runtime's message; otherwise the page is fetched only when no content was supplied, supplied content is used verbatim, a fetched page is cleaned, a failed fetch gives the fixed placeholder text, and the model is called once with the prompt for that text; a failed model call answers 500 "Gemini API call failed"; success with status 200 happens exactly when the request is valid and the model replied |
| `UrlInputComponent.FindUrlLeftmost` | src/components/URLInput.tsx:44 | `FindUrl`: the search finds a URL exactly when the pattern matches at or after the start position; the URL found starts at the leftmost match, begins with `http://` or `https://`, has no whitespace and runs to the next whitespace or the end |
| `UrlInputComponent.DroppedUrl` | src/components/URLInput.tsx:43-47 | a dropped text yields a URL exactly when the pattern matches somewhere in it, and the URL is the leftmost, maximal match |
| `UrlInputComponent.MatchImpliesHttp` | src/components/URLInput.tsx:43-44 | any text the pattern matches contains "http", so the `includes` test rejects nothing the pattern would accept |
| `UrlInputComponent.UrlInput.constructor` | src/components/URLInput.tsx:12-14 | the field starts empty and the highlight off |
| `UrlInputComponent.UrlInput.Edit` | src/components/URLInput.tsx:72 | typing replaces the URL with the field's value |
| `UrlInputComponent.UrlInput.SubmitDisabled` | src/components/URLInput.tsx:81 | the button is disabled exactly while loading or while the URL is all whitespace |
| `UrlInputComponent.UrlInput.HandleSubmit` | src/components/URLInput.tsx:16-21 | `onAnalyze` is called, with the untrimmed URL, exactly when the URL is not all whitespace, that is when the button would be enabled if not loading |
| `UrlInputComponent.UrlInput.HandleDrag` | src/components/URLInput.tsx:23-31 | `dragenter` and `dragover` turn the highlight on, `dragleave` turns it off, any other event leaves it |
| `UrlInputComponent.UrlInput.HandleDrop` | src/components/URLInput.tsx:33-39 | a drop turns the highlight off, and only the first dropped file, if there is one, is read |
| `UrlInputComponent.UrlInput.FileLoaded` | src/components/URLInput.tsx:41-49 | the URL found in the file's text replaces the field; without one the field is unchanged |

## Left out

- The page fetch, its `AbortController` and 20000 ms timer, and its user-agent header (src/app/api/analyze/route.ts:42-56) are network I/O. The fetch is an input outcome, page text or failure. The timer is 20000 ms although its comment says 10 s.
- The model client, its API key and the model name (src/app/api/analyze/route.ts:7-13, 65-67, 100-101) are a foreign SDK. The call is an input outcome, reply text or failure.
- `request.json()` and `JSON.parse` are library parsers. The first is an input outcome. The second is a function argument that returns an object's fields or nothing. A span that starts with `{` can only parse to an object.
- Request fields that are JSON values other than strings (a number, an array, an object) are not modelled. The request type declares them as strings.
- `AnalyzeRoute.Post`: the outer `catch` is modelled only for a `null` body, the one input the modelled code can make throw. Its message is an input.
- `new Date().toISOString()` is wall-clock time. The timestamp is an input.
- Logging to the console is left out.
- JavaScript numbers are IEEE doubles, while the model uses reals with NaN kept apart. Only truthiness is needed, and it is exact.
- Strings are sequences of Unicode scalar values. UTF-16 code units, so surrogate pairs in `substring(0, 3000)`, are not modelled.
- Claim and proof-source objects are passed through without checks, as the code does. They are plain JavaScript values, not `Claim` and `ProofSource` records.
- `UrlInputComponent.UrlInput.HandleDrop` and `FileLoaded`: the `FileReader` is browser I/O. A drop returns the file it would read, and the loaded text arrives later as a separate event.
- `preventDefault` and `stopPropagation` and the rendering of the component are DOM concerns and are left out.
- The other hooks, pages and components, the rain animation and the styling configuration are rendering, navigation, timers or randomness, and are not part of this model.
