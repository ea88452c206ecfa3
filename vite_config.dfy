/**
 * The `add-css-charset` build plugin (vite.config.js, transformIndexHtml):
 * every `<link rel="stylesheet"` in the generated index page gains a
 * ` charset="utf-8"` attribute. `String.prototype.replace` with a global
 * regular expression that is a plain text scans left to right, replaces
 * each match and resumes after it; `ReplaceAll` is that scan.
 */
module HtmlCharset {

  const StylesheetLink: string := "<link rel=\"stylesheet\""
  const CharsetAttribute: string := " charset=\"utf-8\""
  const Replacement: string := StylesheetLink + CharsetAttribute

  /**
   * `html.replace(/<link rel="stylesheet"/g, '<link rel="stylesheet" charset="utf-8"')`.
   * A page without the link text comes back unchanged; otherwise each link
   * text gains the 16 characters of the attribute, no link text is created
   * or lost, and removing the attribute again gives back the page.
   */
  function TransformIndexHtml(html: string): (r: string)
    ensures Occurrences(html, StylesheetLink) == 0 ==> r == html
    ensures |r| == |html| + 16 * Occurrences(html, StylesheetLink)
    ensures Occurrences(r, StylesheetLink) == Occurrences(html, StylesheetLink)
    ensures RemoveCharset(r) == html
  {
    LinkIsMarked();
    MarkedPatternIsPlainAfterStart(StylesheetLink, Replacement);
    ReplaceUnchanged(html, StylesheetLink, Replacement);
    ReplaceLength(html, StylesheetLink, Replacement);
    ReplaceKeepsOccurrences(html, StylesheetLink, Replacement);
    ReplaceRoundTrip(html, StylesheetLink, Replacement);
    ReplaceAll(html, StylesheetLink, Replacement)
  }

  /** The inverse rewrite: each link text with the attribute goes back to the bare link text. */
  function RemoveCharset(html: string): string {
    ReplaceAll(html, Replacement, StylesheetLink)
  }

  /** Global replacement of the text `pat` by `rep`, left to right, without overlaps. */
  function ReplaceAll(s: string, pat: string, rep: string): string
    requires pat != []
  {
    if s == [] then []
    else if pat <= s then rep + ReplaceAll(s[|pat|..], pat, rep)
    else [s[0]] + ReplaceAll(s[1..], pat, rep)
  }

  /** The number of positions at which `pat` starts. */
  function Occurrences(s: string, pat: string): nat {
    if s == [] then 0
    else (if pat <= s then 1 else 0) + Occurrences(s[1..], pat)
  }

  predicate OccursAt(s: string, i: int, pat: string) {
    0 <= i <= |s| && pat <= s[i..]
  }

  /**
   * `rep` extends `pat`, and the first character of `pat` appears nowhere
   * else in `rep`: neither text can overlap itself, and a replacement never
   * creates a new match.
   */
  predicate Marked(pat: string, rep: string) {
    pat != [] && pat <= rep && pat[0] !in rep[1..]
  }

  // ---------------------------------------------------------------------------
  // The shipped texts
  // ---------------------------------------------------------------------------

  /** `<` opens the link text and appears nowhere else in it or in the attribute. */
  lemma LinkIsMarked()
    ensures Marked(StylesheetLink, Replacement) && Marked(Replacement, Replacement)
    ensures |StylesheetLink| == 22 && |CharsetAttribute| == 16 && |Replacement| == 38
  {
    assert Replacement[1..] == StylesheetLink[1..] + CharsetAttribute;
  }

  // ---------------------------------------------------------------------------
  // Facts about the scan
  // ---------------------------------------------------------------------------

  lemma MarkedPatternIsPlainAfterStart(pat: string, rep: string)
    requires Marked(pat, rep)
    ensures pat[0] !in pat[1..]
  {
    assert pat[1..] == rep[1..][..|pat| - 1];
  }

  /** A text without the opening character comes out of the scan only where it went in. */
  lemma {:induction false} ReplaceKeepsPlainPrefix(w: string, x: string, pat: string, rep: string)
    requires Marked(pat, rep) && pat[0] !in w && w <= ReplaceAll(x, pat, rep)
    ensures w <= x
  {
    if w != [] {
      assert w[0] in w && w[0] == ReplaceAll(x, pat, rep)[0];
      assert rep[0] == pat[0];
      assert !(pat <= x);
      assert forall ch :: ch in w[1..] ==> ch in w;
      ReplaceKeepsPlainPrefix(w[1..], x[1..], pat, rep);
    }
  }

  /** A text without the opening character in front adds no occurrence. */
  lemma {:induction false} OccurrencesPlainPrefix(w: string, x: string, pat: string)
    requires pat != [] && pat[0] !in w
    ensures Occurrences(w + x, pat) == Occurrences(x, pat)
  {
    if w == [] {
      assert w + x == x;
    } else {
      assert (w + x)[0] == w[0] && w[0] in w;
      assert !(pat <= w + x);
      assert (w + x)[1..] == w[1..] + x;
      assert forall ch :: ch in w[1..] ==> ch in w;
      OccurrencesPlainPrefix(w[1..], x, pat);
      assert Occurrences(w + x, pat) == Occurrences(w[1..] + x, pat);
    }
  }

  /** After one occurrence, the next can start only past its end. */
  lemma OccurrencesAfterMatch(s: string, pat: string)
    requires pat != [] && pat[0] !in pat[1..] && pat <= s
    ensures Occurrences(s, pat) == 1 + Occurrences(s[|pat|..], pat)
  {
    var rest := s[|pat|..];
    assert s[1..] == pat[1..] + rest;
    OccurrencesPlainPrefix(pat[1..], rest, pat);
  }

  /** Without a match, the scan copies the text. */
  lemma {:induction false} ReplaceUnchanged(s: string, pat: string, rep: string)
    requires pat != []
    ensures Occurrences(s, pat) == 0 ==> ReplaceAll(s, pat, rep) == s
  {
    if s != [] {
      ReplaceUnchanged(s[1..], pat, rep);
    }
  }

  lemma {:induction false} ReplaceLength(s: string, pat: string, rep: string)
    requires pat != [] && pat[0] !in pat[1..]
    ensures |ReplaceAll(s, pat, rep)| == |s| + (|rep| - |pat|) * Occurrences(s, pat)
  {
    if s != [] {
      if pat <= s {
        var rest := s[|pat|..];
        var k := Occurrences(rest, pat);
        OccurrencesAfterMatch(s, pat);
        ReplaceLength(rest, pat, rep);
        GrowthStep(|ReplaceAll(s, pat, rep)|, |s|, |ReplaceAll(rest, pat, rep)|, |rest|, |rep|, |pat|, k);
      } else {
        ReplaceLength(s[1..], pat, rep);
        assert Occurrences(s, pat) == Occurrences(s[1..], pat);
        assert |ReplaceAll(s, pat, rep)| == 1 + |ReplaceAll(s[1..], pat, rep)|;
      }
    }
  }

  /** The length bookkeeping of one replaced match. */
  lemma GrowthStep(out: int, n: int, outRest: int, nRest: int, repLen: int, patLen: int, k: int)
    requires outRest == nRest + (repLen - patLen) * k
    requires out == repLen + outRest && n == patLen + nRest
    ensures out == n + (repLen - patLen) * (1 + k)
  {
    assert (repLen - patLen) * (1 + k) == (repLen - patLen) + (repLen - patLen) * k;
  }

  lemma ReplacementAddsOne(x: string, pat: string, rep: string)
    requires Marked(pat, rep)
    ensures Occurrences(rep + x, pat) == 1 + Occurrences(x, pat)
  {
    MarkedPatternIsPlainAfterStart(pat, rep);
    var suffix := rep[|pat|..];
    assert rep == pat + suffix;
    assert suffix == rep[1..][|pat| - 1..];
    assert pat[0] !in suffix;
    assert (rep + x)[|pat|..] == suffix + x;
    OccurrencesAfterMatch(rep + x, pat);
    OccurrencesPlainPrefix(suffix, x, pat);
  }

  /** Copying a character that does not start a match cannot make one start there. */
  lemma NoNewMatch(s: string, pat: string, rep: string)
    requires Marked(pat, rep) && s != [] && !(pat <= s)
    ensures !(pat <= ReplaceAll(s, pat, rep)) && !(rep <= ReplaceAll(s, pat, rep))
  {
    MarkedPatternIsPlainAfterStart(pat, rep);
    var tail := ReplaceAll(s[1..], pat, rep);
    var out := ReplaceAll(s, pat, rep);
    assert out == [s[0]] + tail;
    if pat <= out || rep <= out {
      assert pat <= out;
      assert s[0] == pat[0];
      assert pat[1..] <= tail;
      ReplaceKeepsPlainPrefix(pat[1..], s[1..], pat, rep);
      assert false;
    }
  }

  lemma {:induction false} ReplaceKeepsOccurrences(s: string, pat: string, rep: string)
    requires Marked(pat, rep)
    ensures Occurrences(ReplaceAll(s, pat, rep), pat) == Occurrences(s, pat)
  {
    MarkedPatternIsPlainAfterStart(pat, rep);
    if s != [] {
      if pat <= s {
        var rest := s[|pat|..];
        ReplaceKeepsOccurrences(rest, pat, rep);
        OccurrencesAfterMatch(s, pat);
        ReplacementAddsOne(ReplaceAll(rest, pat, rep), pat, rep);
      } else {
        ReplaceKeepsOccurrences(s[1..], pat, rep);
        NoNewMatch(s, pat, rep);
      }
    }
  }

  /** Replacing back `rep` by `pat` undoes the scan. */
  lemma {:induction false} ReplaceRoundTrip(s: string, pat: string, rep: string)
    requires Marked(pat, rep)
    ensures ReplaceAll(ReplaceAll(s, pat, rep), rep, pat) == s
  {
    if s != [] {
      var out := ReplaceAll(s, pat, rep);
      if pat <= s {
        var rest := s[|pat|..];
        ReplaceRoundTrip(rest, pat, rep);
        assert out == rep + ReplaceAll(rest, pat, rep);
        assert out[|rep|..] == ReplaceAll(rest, pat, rep);
        assert pat + rest == s;
      } else {
        ReplaceRoundTrip(s[1..], pat, rep);
        NoNewMatch(s, pat, rep);
        assert out == [s[0]] + ReplaceAll(s[1..], pat, rep);
        assert out[1..] == ReplaceAll(s[1..], pat, rep);
      }
    }
  }

  lemma StartsOnlyOnce(pat: string, k: int)
    requires pat != [] && pat[0] !in pat[1..]
    ensures 0 < k < |pat| ==> pat[k] != pat[0]
  {
    if 0 < k < |pat| {
      assert pat[k] == pat[1..][k - 1];
    }
  }

  lemma PrefixAt(pat: string, s: string, k: int)
    requires pat <= s
    ensures 0 <= k < |pat| ==> pat[k] == s[k]
  {
  }

  /** A match that starts in `a` ends in `a` when `b` starts with a match too. */
  lemma NoStraddle(a: string, b: string, pat: string)
    requires pat != [] && pat[0] !in pat[1..]
    requires a != [] && pat <= b && pat <= a + b
    ensures pat <= a
  {
    assert (a + b)[|a|] == b[0] == pat[0];
    StartsOnlyOnce(pat, |a|);
    PrefixAt(pat, a + b, |a|);
    assert |a| >= |pat|;
    assert (a + b)[..|pat|] == a[..|pat|];
  }

  lemma PrefixExtends(pat: string, a: string, b: string)
    ensures pat <= a ==> pat <= a + b
  {
    if pat <= a {
      assert (a + b)[..|pat|] == a[..|pat|];
    }
  }

  /** The scan of a text that continues with a match splits there. */
  lemma {:induction false} ReplaceSplits(a: string, b: string, pat: string, rep: string)
    requires pat != [] && pat[0] !in pat[1..] && pat <= b
    ensures ReplaceAll(a + b, pat, rep) == ReplaceAll(a, pat, rep) + ReplaceAll(b, pat, rep)
    decreases |a|
  {
    if a == [] {
      assert a + b == b;
    } else if pat <= a + b {
      NoStraddle(a, b, pat);
      var rest := a[|pat|..];
      ReplaceSplits(rest, b, pat, rep);
      assert (a + b)[|pat|..] == rest + b;
      MatchStep(a + b, pat, rep);
      MatchStep(a, pat, rep);
    } else {
      PrefixExtends(pat, a, b);
      assert (a + b)[1..] == a[1..] + b;
      ReplaceSplits(a[1..], b, pat, rep);
      CopyStep(a + b, pat, rep);
      CopyStep(a, pat, rep);
    }
  }

  /** One step of the scan at a match. */
  lemma MatchStep(s: string, pat: string, rep: string)
    requires pat != [] && pat <= s
    ensures ReplaceAll(s, pat, rep) == rep + ReplaceAll(s[|pat|..], pat, rep)
  {
  }

  /** One step of the scan where no match starts. */
  lemma CopyStep(s: string, pat: string, rep: string)
    requires pat != [] && s != [] && !(pat <= s)
    ensures ReplaceAll(s, pat, rep) == [s[0]] + ReplaceAll(s[1..], pat, rep)
  {
  }

  /** The match at position i comes out as `rep`, shifted by the growth of the earlier matches. */
  lemma ReplaceAtOccurrence(s: string, i: nat, pat: string, rep: string)
    requires pat != [] && pat[0] !in pat[1..] && OccursAt(s, i, pat)
    ensures var at := i + (|rep| - |pat|) * Occurrences(s[..i], pat);
            var out := ReplaceAll(s, pat, rep);
            0 <= at && at + |rep| <= |out| && out[at..at + |rep|] == rep
  {
    var before, from := s[..i], s[i..];
    assert s == before + from;
    ReplaceSplits(before, from, pat, rep);
    ReplaceLength(before, pat, rep);
    var out := ReplaceAll(s, pat, rep);
    assert ReplaceAll(from, pat, rep) == rep + ReplaceAll(from[|pat|..], pat, rep);
    assert out == ReplaceAll(before, pat, rep) + rep + ReplaceAll(from[|pat|..], pat, rep);
  }

  // ---------------------------------------------------------------------------
  // Properties of the plugin
  // ---------------------------------------------------------------------------

  /**
   * Every occurrence in the input, at position i, is found in the output
   * followed by the attribute, shifted by 16 characters for each earlier
   * occurrence.
   */
  lemma EveryOccurrenceGetsCharset(html: string, i: nat)
    requires OccursAt(html, i, StylesheetLink)
    ensures var at := i + 16 * Occurrences(html[..i], StylesheetLink);
            var out := TransformIndexHtml(html);
            at + 38 <= |out| && out[at..at + 38] == StylesheetLink + CharsetAttribute
  {
    LinkIsMarked();
    MarkedPatternIsPlainAfterStart(StylesheetLink, Replacement);
    ReplaceAtOccurrence(html, i, StylesheetLink, Replacement);
  }
}
