/**
 * The cleaning applied to a fetched page in src/app/api/analyze/route.ts:57:
 *
 *   html.replace(/<[^>]*>/g, " ").replace(/\s+/g, " ").substring(0, 3000)
 *
 * Each regular-expression replacement is written out as the recursive scan
 * that a global left-to-right match performs.
 */
module Sanitise {
  import opened Text

  /** The number of characters kept by `substring(0, 3000)`. */
  const MaxContentLength: nat := 3000

  /**
   * `s.replace(/<[^>]*>/g, " ")`. A match starts at a `<` and, since `[^>]*`
   * cannot cross a `>`, ends at the first `>` after it; a `<` with no `>`
   * anywhere after it starts no match and is kept.
   */
  function StripTags(s: string): string
    decreases |s|
  {
    if s == [] then []
    else if s[0] == '<' && '>' in s[1..] then
      var close := 1 + FirstIndexOf(s[1..], '>');
      " " + StripTags(s[close + 1..])
    else
      [s[0]] + StripTags(s[1..])
  }

  /** `s.replace(/\s+/g, " ")`: each maximal run of whitespace becomes one space. */
  function CollapseWhitespace(s: string): string
    decreases |s|
  {
    if s == [] then []
    else if IsWhitespace(s[0]) then " " + CollapseWhitespace(TrimStart(s[1..]))
    else [s[0]] + CollapseWhitespace(s[1..])
  }

  /** No `<` in `s` has a `>` anywhere after it, so no tag pattern matches. */
  predicate TagFree(s: string) {
    forall i, j :: 0 <= i < j < |s| && s[i] == '<' ==> s[j] != '>'
  }

  /** Every whitespace character of `s` is a plain space, and no two whitespace characters are adjacent. */
  predicate Collapsed(s: string) {
    forall i :: 0 <= i < |s| && IsWhitespace(s[i]) ==> s[i] == ' ' && (i + 1 < |s| ==> !IsWhitespace(s[i + 1]))
  }

  /** The non-whitespace characters of `s`, in order. */
  function NonWhitespace(s: string): (r: string)
    ensures forall c :: c in r <==> c in s && !IsWhitespace(c)
  {
    if s == [] then []
    else if IsWhitespace(s[0]) then NonWhitespace(s[1..])
    else [s[0]] + NonWhitespace(s[1..])
  }

  /**
   * The page text sent to the model after a successful fetch: tags replaced,
   * whitespace collapsed, cut to its first 3000 characters.
   */
  function Sanitise(html: string): (r: string)
    ensures |r| <= MaxContentLength
    ensures TagFree(r) && Collapsed(r)
    ensures r <= CollapseWhitespace(StripTags(html))
    ensures |r| == MaxContentLength || r == CollapseWhitespace(StripTags(html))
  {
    var stripped := StripTags(html);
    var collapsed := CollapseWhitespace(stripped);
    StripTagsTagFree(html);
    CollapseKeepsTagFree(stripped);
    CollapseCollapsed(stripped);
    if |collapsed| <= MaxContentLength then collapsed else collapsed[..MaxContentLength]
  }

  // ---------------------------------------------------------------------
  // Tag stripping

  lemma TagFreeCons(c: char, s: string)
    requires TagFree(s)
    requires c == '<' ==> '>' !in s
    ensures TagFree([c] + s)
  {
    var t := [c] + s;
    forall i, j | 0 <= i < j < |t| && t[i] == '<' ensures t[j] != '>' {
      if i == 0 {
        assert t[j] == s[j - 1];
      } else {
        assert t[i] == s[i - 1] && t[j] == s[j - 1];
      }
    }
  }

  /** A tag-free string is left as it is by tag stripping. */
  lemma {:induction false} StripTagsOfTagFree(s: string)
    requires TagFree(s)
    ensures StripTags(s) == s
    decreases |s|
  {
    if s != [] {
      if s[0] == '<' {
        OpenHasNoClose(s);
      }
      TagFreeDrop(s, 1);
      assert StripTags(s) == [s[0]] + StripTags(s[1..]);
      StripTagsOfTagFree(s[1..]);
      assert s == [s[0]] + s[1..];
    }
  }

  /** A string with no `>` at all is tag-free. */
  lemma NoCloseTagFree(s: string)
    requires '>' !in s
    ensures TagFree(s)
  {
  }

  /** After tag stripping no tag pattern is left. */
  lemma {:induction false} StripTagsTagFree(s: string)
    ensures TagFree(StripTags(s))
    decreases |s|
  {
    if s != [] {
      if s[0] == '<' && '>' in s[1..] {
        var close := 1 + FirstIndexOf(s[1..], '>');
        assert StripTags(s) == " " + StripTags(s[close + 1..]);
        StripTagsTagFree(s[close + 1..]);
        TagFreeCons(' ', StripTags(s[close + 1..]));
      } else if s[0] == '<' {
        NoCloseTagFree(s[1..]);
        StripTagsOfTagFree(s[1..]);
        TagFreeCons(s[0], s[1..]);
      } else {
        StripTagsTagFree(s[1..]);
        TagFreeCons(s[0], StripTags(s[1..]));
      }
    }
  }

  /** Text before the first `<` is kept as it is. */
  lemma {:induction false} StripTagsKeepsPlain(a: string, b: string)
    requires '<' !in a
    ensures StripTags(a + b) == a + StripTags(b)
    decreases |a|
  {
    if a == [] {
      assert a + b == b;
    } else {
      assert (a + b)[0] == a[0];
      assert (a + b)[1..] == a[1..] + b;
      StripTagsKeepsPlain(a[1..], b);
      assert [a[0]] + (a[1..] + StripTags(b)) == a + StripTags(b);
    }
  }

  /** A tag `<…>` with no `>` inside becomes a single space, and stripping carries on after it. */
  lemma StripTagsReplacesTag(t: string, b: string)
    requires '>' !in t
    ensures StripTags("<" + t + ">" + b) == " " + StripTags(b)
  {
    var s := "<" + t + ">" + b;
    assert s[1..] == t + ">" + b;
    assert s[1..][|t|] == '>';
    assert s[1..][..|t|] == t;
    FirstIndexAt(s[1..], '>', |t|);
    assert s[|t| + 2..] == b;
  }

  // ---------------------------------------------------------------------
  // Whitespace collapsing

  /** Collapsing keeps every non-whitespace character, in order. */
  lemma {:induction false} CollapseKeepsText(s: string)
    ensures NonWhitespace(CollapseWhitespace(s)) == NonWhitespace(s)
    decreases |s|
  {
    if s != [] {
      if IsWhitespace(s[0]) {
        var rest := TrimStart(s[1..]);
        CollapseKeepsText(rest);
        TrimStartKeepsText(s[1..]);
        assert (" " + CollapseWhitespace(rest))[1..] == CollapseWhitespace(rest);
      } else {
        CollapseKeepsText(s[1..]);
        assert ([s[0]] + CollapseWhitespace(s[1..]))[1..] == CollapseWhitespace(s[1..]);
      }
    }
  }

  lemma {:induction false} TrimStartKeepsText(s: string)
    ensures NonWhitespace(TrimStart(s)) == NonWhitespace(s)
    decreases |s|
  {
    if s != [] && IsWhitespace(s[0]) {
      TrimStartKeepsText(s[1..]);
    }
  }

  /** A run of whitespace followed by text that does not start with whitespace is removed whole by `TrimStart`. */
  lemma {:induction false} TrimStartRun(w: string, b: string)
    requires AllWhitespace(w)
    requires b == [] || !IsWhitespace(b[0])
    ensures TrimStart(w + b) == b
    decreases |w|
  {
    if w != [] {
      assert (w + b)[1..] == w[1..] + b;
      TrimStartRun(w[1..], b);
    }
  }

  /** Text without whitespace is kept as it is by collapsing. */
  lemma {:induction false} CollapseKeepsWord(a: string, t: string)
    requires forall i :: 0 <= i < |a| ==> !IsWhitespace(a[i])
    ensures CollapseWhitespace(a + t) == a + CollapseWhitespace(t)
    decreases |a|
  {
    if a == [] {
      assert a + t == t;
    } else {
      assert (a + t)[0] == a[0];
      assert (a + t)[1..] == a[1..] + t;
      CollapseKeepsWord(a[1..], t);
      assert [a[0]] + (a[1..] + CollapseWhitespace(t)) == a + CollapseWhitespace(t);
    }
  }

  /** A maximal whitespace run, whatever its length and its characters, becomes one space. */
  lemma CollapseRunToSpace(w: string, b: string)
    requires w != [] && AllWhitespace(w)
    requires b == [] || !IsWhitespace(b[0])
    ensures CollapseWhitespace(w + b) == " " + CollapseWhitespace(b)
  {
    assert (w + b)[0] == w[0];
    assert (w + b)[1..] == w[1..] + b;
    TrimStartRun(w[1..], b);
  }

  /** Text without whitespace is kept, and the whitespace run after it becomes one space. */
  lemma CollapseReplacesRun(a: string, w: string, b: string)
    requires forall i :: 0 <= i < |a| ==> !IsWhitespace(a[i])
    requires w != [] && AllWhitespace(w)
    requires b == [] || !IsWhitespace(b[0])
    ensures CollapseWhitespace(a + w + b) == a + " " + CollapseWhitespace(b)
  {
    assert a + w + b == a + (w + b);
    CollapseKeepsWord(a, w + b);
    CollapseRunToSpace(w, b);
  }

  /** Collapsing cannot create a tag, since `<` and `>` are not whitespace. */
  lemma {:induction false} CollapseKeepsTagFree(s: string)
    requires TagFree(s)
    ensures TagFree(CollapseWhitespace(s))
    decreases |s|
  {
    if s != [] {
      TagFreeDrop(s, 1);
      if IsWhitespace(s[0]) {
        var rest := TrimStart(s[1..]);
        TagFreeDrop(s[1..], |s[1..]| - |rest|);
        CollapseKeepsTagFree(rest);
        TagFreeCons(' ', CollapseWhitespace(rest));
      } else {
        CollapseKeepsTagFree(s[1..]);
        if s[0] == '<' {
          OpenHasNoClose(s);
          CollapseKeepsText(s[1..]);
          assert '>' !in NonWhitespace(s[1..]);
        }
        TagFreeCons(s[0], CollapseWhitespace(s[1..]));
      }
    }
  }

  /** A suffix of a tag-free string is tag-free. */
  lemma TagFreeDrop(s: string, k: nat)
    requires TagFree(s) && k <= |s|
    ensures TagFree(s[k..])
  {
    forall i, j | 0 <= i < j < |s| - k && s[k..][i] == '<' ensures s[k..][j] != '>' {
      assert s[k..][i] == s[i + k] && s[k..][j] == s[j + k];
    }
  }

  /** In a tag-free string that starts with `<`, no `>` follows. */
  lemma OpenHasNoClose(s: string)
    requires TagFree(s) && |s| > 0 && s[0] == '<'
    ensures '>' !in s[1..]
  {
    forall j | 0 <= j < |s| - 1 ensures s[1..][j] != '>' {
      assert s[1..][j] == s[j + 1];
    }
  }

  /** The first character of a collapsed string is whitespace only if the input starts with whitespace. */
  lemma CollapseHead(s: string)
    requires s != [] && !IsWhitespace(s[0])
    ensures CollapseWhitespace(s) != [] && CollapseWhitespace(s)[0] == s[0]
  {
  }

  /** Collapsing leaves single spaces only. */
  lemma {:induction false} CollapseCollapsed(s: string)
    ensures Collapsed(CollapseWhitespace(s))
    decreases |s|
  {
    if s != [] {
      if IsWhitespace(s[0]) {
        var rest := TrimStart(s[1..]);
        CollapseCollapsed(rest);
        if rest != [] {
          CollapseHead(rest);
        }
        CollapsedCons(' ', CollapseWhitespace(rest));
      } else {
        CollapseCollapsed(s[1..]);
        CollapsedCons(s[0], CollapseWhitespace(s[1..]));
      }
    }
  }

  lemma CollapsedCons(c: char, t: string)
    requires Collapsed(t)
    requires IsWhitespace(c) ==> c == ' ' && (t == [] || !IsWhitespace(t[0]))
    ensures Collapsed([c] + t)
  {
    var r := [c] + t;
    forall i | 0 <= i < |r| && IsWhitespace(r[i])
      ensures r[i] == ' ' && (i + 1 < |r| ==> !IsWhitespace(r[i + 1]))
    {
      if i > 0 {
        assert r[i] == t[i - 1];
      }
    }
  }

  /** A string whose whitespace is already single spaces is left as it is. */
  lemma {:induction false} CollapseOfCollapsed(s: string)
    requires Collapsed(s)
    ensures CollapseWhitespace(s) == s
    decreases |s|
  {
    if s != [] {
      assert Collapsed(s[1..]) by {
        forall i | 0 <= i < |s| - 1 && IsWhitespace(s[1..][i])
          ensures s[1..][i] == ' ' && (i + 1 < |s| - 1 ==> !IsWhitespace(s[1..][i + 1]))
        {
          assert s[1..][i] == s[i + 1];
        }
      }
      CollapseOfCollapsed(s[1..]);
      if IsWhitespace(s[0]) {
        assert TrimStart(s[1..]) == s[1..];
      }
      assert s == [s[0]] + s[1..];
    }
  }

  // ---------------------------------------------------------------------
  // The whole cleaning

  /** Cleaning an already cleaned text changes nothing. */
  lemma SanitiseIdempotent(html: string)
    ensures Sanitise(Sanitise(html)) == Sanitise(html)
  {
    var t := Sanitise(html);
    StripTagsOfTagFree(t);
    CollapseOfCollapsed(t);
  }
}
