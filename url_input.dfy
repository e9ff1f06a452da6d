/**
 * The `URLInput` component of src/components/URLInput.tsx: the state it
 * keeps (`url`, `dragActive`), its event handlers, and the URL it pulls out
 * of a dropped text file.
 */
module UrlInputComponent {
  import opened Optional
  import opened Text

  /**
   * `/https?:\/\/[^\s]+/` matches at index `i`: the scheme, then at least one
   * non-whitespace character. The `s?` is tried first, so `https://` is
   * taken whole when it is there; `http://` alone never matches where
   * `https://` starts, since the fifth character is then `s`.
   */
  predicate UrlAt(s: string, i: int) {
    || (OccursAt(s, "https://", i) && i + 8 < |s| && !IsWhitespace(s[i + 8]))
    || (OccursAt(s, "http://", i) && i + 7 < |s| && !IsWhitespace(s[i + 7]))
  }

  /** The end of the run of non-whitespace characters that starts at `i`. */
  function RunEnd(s: string, i: nat): (e: nat)
    requires i <= |s|
    ensures i <= e <= |s|
    ensures forall k :: i <= k < e ==> !IsWhitespace(s[k])
    ensures e == |s| || IsWhitespace(s[e])
    decreases |s| - i
  {
    if i == |s| || IsWhitespace(s[i]) then i else RunEnd(s, i + 1)
  }

  /** A scheme followed by a non-whitespace character lies inside the non-whitespace run that starts with it. */
  lemma SchemeInRun(s: string, i: nat, scheme: string)
    requires scheme == "http://" || scheme == "https://"
    requires OccursAt(s, scheme, i) && i + |scheme| < |s| && !IsWhitespace(s[i + |scheme|])
    ensures RunEnd(s, i) > i + |scheme|
  {
    assert forall k :: 0 <= k < |scheme| ==> !IsWhitespace(scheme[k]);
    forall k | i <= k < i + |scheme| ensures !IsWhitespace(s[k]) {
      assert s[k] == s[i..i + |scheme|][k - i];
    }
    RunPast(s, i, |scheme|);
  }

  /** A non-whitespace stretch from `i` through `i + n` lies inside the run that starts at `i`. */
  lemma {:induction false} RunPast(s: string, i: nat, n: nat)
    requires i + n < |s|
    requires forall k :: i <= k <= i + n ==> !IsWhitespace(s[k])
    ensures RunEnd(s, i) > i + n
    decreases n
  {
    if n > 0 {
      RunPast(s, i + 1, n - 1);
    }
  }

  /** The URL a match at `i` covers: from the scheme to the end of the non-whitespace run. */
  predicate MatchedAt(s: string, u: string, i: int) {
    && OccursAt(s, u, i)
    && (OccursAt(u, "http://", 0) || OccursAt(u, "https://", 0))
    && (forall k :: 0 <= k < |u| ==> !IsWhitespace(u[k]))
    && (i + |u| == |s| || IsWhitespace(s[i + |u|]))
  }

  /** Where the pattern matches, the match is the non-whitespace run starting there. */
  lemma MatchAtRunStart(s: string, from: nat)
    requires from < |s| && UrlAt(s, from)
    ensures MatchedAt(s, s[from..RunEnd(s, from)], from)
  {
    var u := s[from..RunEnd(s, from)];
    assert from + |u| == RunEnd(s, from);
    if OccursAt(s, "https://", from) && from + 8 < |s| && !IsWhitespace(s[from + 8]) {
      SchemeInRun(s, from, "https://");
      assert u[..8] == s[from..from + 8];
    } else {
      SchemeInRun(s, from, "http://");
      assert u[..7] == s[from..from + 7];
    }
  }

  /** `i` is the leftmost position at or after `from` where the pattern matches. */
  predicate LeftmostAt(s: string, from: int, i: int) {
    from <= i < |s| && UrlAt(s, i) && forall k :: from <= k < i ==> !UrlAt(s, k)
  }

  /** The leftmost match of the URL pattern at or after `from`. */
  function FindUrl(s: string, from: nat): Option<string>
    requires from <= |s|
    decreases |s| - from
  {
    if from == |s| then None
    else if UrlAt(s, from) then Some(s[from..RunEnd(s, from)])
    else FindUrl(s, from + 1)
  }

  /**
   * The search finds a URL exactly when the pattern matches at or after
   * `from`, and the URL is the whole match at the leftmost such position.
   */
  lemma {:induction false} FindUrlLeftmost(s: string, from: nat)
    requires from <= |s|
    ensures FindUrl(s, from).Some? <==> exists i :: from <= i < |s| && UrlAt(s, i)
    ensures FindUrl(s, from).Some? ==> exists i :: LeftmostAt(s, from, i) && MatchedAt(s, FindUrl(s, from).value, i)
    decreases |s| - from
  {
    if from < |s| {
      if UrlAt(s, from) {
        MatchAtRunStart(s, from);
        assert LeftmostAt(s, from, from);
      } else {
        FindUrlLeftmost(s, from + 1);
        if FindUrl(s, from).Some? {
          var i :| LeftmostAt(s, from + 1, i) && MatchedAt(s, FindUrl(s, from).value, i);
          assert LeftmostAt(s, from, i);
        }
      }
    }
  }

  /**
   * The text handed to `reader.onload`, reduced to the URL it sets: the
   * leftmost `http://` or `https://` followed by the longest run of
   * non-whitespace, or `None` when the text lacks "http" or has no match.
   */
  function DroppedUrl(content: string): (r: Option<string>)
    ensures r.Some? <==> exists i :: 0 <= i < |content| && UrlAt(content, i)
    ensures r.Some? ==> exists i :: LeftmostAt(content, 0, i) && MatchedAt(content, r.value, i)
  {
    if Contains(content, "http") then
      FindUrlLeftmost(content, 0);
      FindUrl(content, 0)
    else
      MatchImpliesHttp(content);
      None
  }

  /** A match contains "http", so the `includes("http")` test rejects nothing the pattern would accept. */
  lemma MatchImpliesHttp(s: string)
    ensures (exists i :: 0 <= i < |s| && UrlAt(s, i)) ==> Contains(s, "http")
  {
    if i :| 0 <= i < |s| && UrlAt(s, i) {
      if OccursAt(s, "https://", i) {
        assert s[i..i + 4] == s[i..i + 8][..4];
      } else {
        assert s[i..i + 4] == s[i..i + 7][..4];
      }
      assert OccursAt(s, "http", i);
    }
  }

  /** The component's state: the text in the URL field and whether a drag is over the drop zone. */
  class UrlInput {
    var url: string
    var dragActive: bool

    /** The state after `useState("")` and `useState(false)`. */
    constructor ()
      ensures url == "" && !dragActive
    {
      url := "";
      dragActive := false;
    }

    /** The field's `onChange`: the typed value replaces the URL. */
    method Edit(value: string)
      modifies this`url
      ensures url == value
    {
      url := value;
    }

    /** The submit button's `disabled`: while loading, or while the URL is blank once trimmed. */
    function SubmitDisabled(loading: bool): (disabled: bool)
      reads this
      ensures disabled <==> loading || AllWhitespace(url)
    {
      TrimEmptyIff(url);
      loading || Trim(url) == ""
    }

    /**
     * `handleSubmit`: the argument `onAnalyze` is called with, if it is
     * called. The URL is passed as typed, untrimmed, and only when it is
     * not blank.
     */
    method HandleSubmit() returns (analyzed: Option<string>)
      ensures analyzed.Some? <==> !AllWhitespace(url)
      ensures analyzed.Some? <==> !SubmitDisabled(false)
      ensures analyzed.Some? ==> analyzed.value == url
    {
      TrimEmptyIff(url);
      if Trim(url) != "" {
        analyzed := Some(url);
      } else {
        analyzed := None;
      }
    }

    /** `handleDrag`: entering or hovering turns the highlight on, leaving turns it off, other events keep it. */
    method HandleDrag(eventType: string)
      modifies this`dragActive
      ensures eventType == "dragenter" || eventType == "dragover" ==> dragActive
      ensures eventType == "dragleave" ==> !dragActive
      ensures eventType != "dragenter" && eventType != "dragover" && eventType != "dragleave" ==>
                dragActive == old(dragActive)
    {
      if eventType == "dragenter" || eventType == "dragover" {
        dragActive := true;
      } else if eventType == "dragleave" {
        dragActive := false;
      }
    }

    /** `handleDrop`: the highlight goes off, and only the first dropped file, if any, is read. */
    method HandleDrop<F>(files: seq<F>) returns (toRead: Option<F>)
      modifies this`dragActive
      ensures !dragActive
      ensures toRead.Some? <==> |files| > 0
      ensures toRead.Some? ==> toRead.value == files[0]
    {
      dragActive := false;
      if |files| > 0 {
        toRead := Some(files[0]);
      } else {
        toRead := None;
      }
    }

    /** `reader.onload`: a URL found in the file's text replaces the field; otherwise the field is kept. */
    method FileLoaded(content: string)
      modifies this`url
      ensures DroppedUrl(content).Some? ==> url == DroppedUrl(content).value
      ensures DroppedUrl(content).None? ==> url == old(url)
    {
      var urlMatch := DroppedUrl(content);
      if urlMatch.Some? {
        url := urlMatch.value;
      }
    }
  }
}
