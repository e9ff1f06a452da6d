/**
 * The instruction sent to the model (src/app/api/analyze/route.ts:72-96): a
 * fixed template with the article URL and the article text spliced in.
 */
module Prompt {
  import opened Optional
  import opened Text
  import AnalysisTypes

  /** The template text before the URL. */
  const Head: string := "Analyze this news article for potential fake news and misinformation:\nURL: "

  /** The template text between the URL and the article text. */
  const Middle: string := "\nContent: "

  /** The verdict alternatives as the schema in the template spells them. */
  const VerdictChoice: string := "\"<" + VerdictAlternatives + ">\""
  const VerdictAlternatives: string := "TRUE|FALSE|MIXED|UNVERIFIABLE"

  /** The claim-status alternatives as the schema in the template spells them. */
  const StatusChoice: string := "\"<" + StatusAlternatives + ">\""
  const StatusAlternatives: string := "VERIFIED|FALSE|UNVERIFIABLE"

  /** The template text after the article text: the JSON schema the model is asked to follow. */
  const Tail: string := SchemaOpening + VerdictChoice + SchemaMiddle + StatusChoice + SchemaClosing

  /** The schema up to the verdict alternatives. */
  const SchemaOpening: string :=
    "\n\nProvide a JSON response with this exact structure:\n"
    + "{\n"
    + "  \"fakeScore\": <number 0-100>,\n"
    + "  \"verdict\": "

  /** The schema between the verdict and the claim-status alternatives. */
  const SchemaMiddle: string :=
    ",\n"
    + "  \"summary\": \"<brief summary of findings>\",\n"
    + "  \"claims\": [\n"
    + "    {\n"
    + "      \"text\": \"<claimed statement>\",\n"
    + "      \"status\": "

  /** The schema after the claim-status alternatives, and the closing request. */
  const SchemaClosing: string :=
    ",\n"
    + "      \"evidence\": \"<explanation>\"\n"
    + "    }\n"
    + "  ],\n"
    + "  \"proofSources\": [\n"
    + "    {\n"
    + "      \"title\": \"<source title>\",\n"
    + "      \"url\": \"<source url>\",\n"
    + "      \"relevance\": <0-100>\n"
    + "    }\n"
    + "  ]\n"
    + "}\n"
    + "Be thorough and analytical. This is for fake news detection."

  /** The prompt for `url` and the article text `content`. */
  function BuildPrompt(url: string, content: string): string {
    Head + url + Middle + content + Tail
  }

  /** The prompt is the fixed head, the URL verbatim, the middle, the article text verbatim and the fixed schema. */
  lemma PromptLayout(url: string, content: string)
    ensures var r := BuildPrompt(url, content);
            && |r| == |Head| + |url| + |Middle| + |content| + |Tail|
            && r[..|Head|] == Head && r[|r| - |Tail|..] == Tail
            && OccursAt(r, url, |Head|)
            && OccursAt(r, content, |Head| + |url| + |Middle|)
  {
    var r := BuildPrompt(url, content);
    assert r[|Head|..|Head| + |url|] == url;
    assert r[|Head| + |url| + |Middle|..|Head| + |url| + |Middle| + |content|] == content;
  }

  /**
   * Reads the URL and the article text back out of a prompt: the URL runs up
   * to the first line break after the head, the article text from the end of
   * the middle part to the start of the tail.
   */
  function ReadPrompt(p: string): Option<(string, string)> {
    if |p| < |Head| + |Tail| || p[..|Head|] != Head || p[|p| - |Tail|..] != Tail then None
    else
      var body := p[|Head|..|p| - |Tail|];
      if '\n' !in body then None
      else
        var k := FirstIndexOf(body, '\n');
        if |body| - k < |Middle| || body[k..k + |Middle|] != Middle then None
        else Some((body[..k], body[k + |Middle|..]))
  }

  /** In `url + Middle + content`, the first line break is the one that starts the middle part. */
  lemma FirstBreakEndsUrl(url: string, content: string)
    requires '\n' !in url
    ensures FirstIndexOf(url + Middle + content, '\n') == |url|
  {
    var body := url + Middle + content;
    assert Middle[0] == '\n';
    assert body[|url|] == '\n';
  }

  /** A URL without a line break, and any article text, can be read back from the prompt. */
  lemma ReadBuildPrompt(url: string, content: string)
    requires '\n' !in url
    ensures ReadPrompt(BuildPrompt(url, content)) == Some((url, content))
  {
    var p := BuildPrompt(url, content);
    var body := url + Middle + content;
    Frame(Head, url, Middle, content, Tail);
    FirstBreakEndsUrl(url, content);
    assert body[|url|..|url| + |Middle|] == Middle;
    assert body[..|url|] == url;
    assert body[|url| + |Middle|..] == content;
  }

  /** The parts of `h + u + m + c + t` with the fixed `h` and `t` stripped off. */
  lemma Frame(h: string, u: string, m: string, c: string, t: string)
    ensures var p := h + u + m + c + t;
            && p[..|h|] == h && p[|p| - |t|..] == t
            && p[|h|..|p| - |t|] == u + m + c
  {
    var p := h + u + m + c + t;
    assert p == h + (u + m + c) + t;
  }

  /** `t` occurs in `a + t + b` right after `a`. */
  lemma OccursBetween(a: string, t: string, b: string)
    ensures OccursAt(a + t + b, t, |a|)
  {
    assert (a + t + b)[|a|..|a| + |t|] == t;
  }

  /** Regrouping the five parts of the prompt around either list of alternatives. */
  lemma Regroup(h: string, u: string, m: string, c: string, t1: string, t2: string, t3: string, t4: string, t5: string)
    ensures h + u + m + c + (t1 + t2 + t3 + t4 + t5) == (h + u + m + c + t1) + t2 + (t3 + t4 + t5)
    ensures h + u + m + c + (t1 + t2 + t3 + t4 + t5) == (h + u + m + c + t1 + t2 + t3) + t4 + t5
  {
  }

  /** The verdict alternatives in the template are the declared verdict values, in declaration order. */
  lemma VerdictAlternativesDeclared()
    ensures AnalysisTypes.Join(AnalysisTypes.VerdictValues, "|") == VerdictAlternatives
  {
  }

  /** The claim-status alternatives in the template are the declared status values, in declaration order. */
  lemma StatusAlternativesDeclared()
    ensures AnalysisTypes.Join(AnalysisTypes.ClaimStatusValues, "|") == StatusAlternatives
  {
  }

  /** The prompt offers the model exactly the verdict values declared for `AnalysisResult.verdict`. */
  lemma PromptListsVerdicts(url: string, content: string)
    ensures Contains(BuildPrompt(url, content), "\"<" + AnalysisTypes.Join(AnalysisTypes.VerdictValues, "|") + ">\"")
  {
    VerdictAlternativesDeclared();
    var before := Head + url + Middle + content + SchemaOpening;
    var after := SchemaMiddle + StatusChoice + SchemaClosing;
    Regroup(Head, url, Middle, content, SchemaOpening, VerdictChoice, SchemaMiddle, StatusChoice, SchemaClosing);
    OccursBetween(before, VerdictChoice, after);
    assert OccursAt(BuildPrompt(url, content), VerdictChoice, |before|);
  }

  /** The prompt offers the model exactly the status values declared for `Claim.status`. */
  lemma PromptListsClaimStatuses(url: string, content: string)
    ensures Contains(BuildPrompt(url, content), "\"<" + AnalysisTypes.Join(AnalysisTypes.ClaimStatusValues, "|") + ">\"")
  {
    StatusAlternativesDeclared();
    var before := Head + url + Middle + content + SchemaOpening + VerdictChoice + SchemaMiddle;
    Regroup(Head, url, Middle, content, SchemaOpening, VerdictChoice, SchemaMiddle, StatusChoice, SchemaClosing);
    OccursBetween(before, StatusChoice, SchemaClosing);
    assert OccursAt(BuildPrompt(url, content), StatusChoice, |before|);
  }
}
