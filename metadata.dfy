/**
 * Metadata derived from an entry's plain text in the content sync
 * (scripts/sync-notion.ts): the reading-time estimate and the excerpt.
 * Both are defined in terms of the text's words, its maximal runs of
 * non-whitespace characters.
 */
module Metadata {
  import opened Text

  /** The leading run of non-whitespace characters. */
  function TakeWord(s: string): (w: string)
    ensures |w| <= |s| && w == s[..|w|]
    ensures |w| == |s| || IsSpace(s[|w|])
    ensures s != [] && !IsSpace(s[0]) ==> |w| > 0
  {
    if s != [] && !IsSpace(s[0]) then [s[0]] + TakeWord(s[1..]) else []
  }

  lemma {:induction false} TakeWordNoSpace(s: string)
    ensures NoSpace(TakeWord(s))
    decreases |s|
  {
    if s != [] && !IsSpace(s[0]) {
      TakeWordNoSpace(s[1..]);
      assert TakeWord(s) == [s[0]] + TakeWord(s[1..]);
    }
  }

  /** The words of `s`: its maximal runs of non-whitespace, in order. */
  function Words(s: string): (ws: seq<string>)
    decreases |s|
  {
    var t := TrimStart(s);
    if t == [] then []
    else
      var w := TakeWord(t);
      [w] + Words(t[|w|..])
  }

  /** A word: non-empty and free of whitespace. */
  predicate IsWord(w: string) {
    w != "" && NoSpace(w)
  }

  /** Every word is non-empty and free of whitespace. */
  lemma {:induction false} WordsAreWords(s: string)
    ensures forall i :: 0 <= i < |Words(s)| ==> IsWord(Words(s)[i])
    decreases |s|
  {
    var t := TrimStart(s);
    if t != [] {
      var w := TakeWord(t);
      var rest := Words(t[|w|..]);
      TakeWordNoSpace(t);
      WordsAreWords(t[|w|..]);
      forall i | 0 <= i < |Words(s)| ensures IsWord(Words(s)[i]) {
        if i > 0 {
          assert Words(s)[i] == rest[i - 1];
        }
      }
    }
  }

  /** `text.trim().split(/\s+/).filter(Boolean).length` */
  function WordCount(text: string): nat {
    |Words(text)|
  }

  /** A text has no words exactly when it is all whitespace. */
  lemma WordCountZeroIff(text: string)
    ensures WordCount(text) == 0 <==> AllSpace(text)
  {
    var t := TrimStart(text);
    TrimStartSuffix(text);
    if t != [] {
      assert !IsSpace(text[|text| - |t|]);
    } else {
      TrimStartDropsSpaces(text);
      assert text[..|text|] == text;
    }
  }

  /** `text.replace(/\s+/g, " ")`: each maximal whitespace run becomes one space. */
  function CollapseWhitespace(s: string): string
    decreases |s|
  {
    if s == [] then []
    else if IsSpace(s[0]) then " " + CollapseWhitespace(TrimStart(s))
    else [s[0]] + CollapseWhitespace(s[1..])
  }

  /** `Math.round(words / 180)` for a non-negative count: the nearest whole number, halves rounded up. */
  function RoundedMinutes(words: nat): (m: nat)
    ensures m * 180 <= words + 90 < m * 180 + 180
  {
    (words + 90) / 180
  }

  /** `Math.max(1, Math.round(words / 180))` */
  function ReadingMinutes(words: nat): (m: nat)
    ensures m >= 1
    ensures words < 90 ==> m == 1
    ensures words >= 90 ==> m == RoundedMinutes(words)
  {
    if RoundedMinutes(words) < 1 then 1 else RoundedMinutes(words)
  }

  /** `estimateReadingTime`: `""` for a text without words, else `"<minutes> min"`. */
  function EstimateReadingTime(text: string): (r: string)
    ensures r == "" <==> AllSpace(text)
    ensures r != "" ==> r == Decimal(ReadingMinutes(WordCount(text))) + " min"
  {
    WordCountZeroIff(text);
    var words := WordCount(text);
    if words == 0 then "" else Decimal(ReadingMinutes(words)) + " min"
  }

  /** The collapsed and trimmed text of `buildExcerpt`. */
  function NormalizeWhitespace(text: string): string {
    Trim(CollapseWhitespace(text))
  }

  /** The excerpt limit and the truncation marker. */
  const ExcerptLength: nat := 200
  const Ellipsis: string := "..."

  /** `buildExcerpt`: normalised text, cut at 200 characters with `...` appended when longer. */
  function BuildExcerpt(text: string): (r: string)
    ensures r == "" <==> AllSpace(text)
    ensures |r| <= ExcerptLength + |Ellipsis|
    ensures |NormalizeWhitespace(text)| <= ExcerptLength ==> r == NormalizeWhitespace(text)
    ensures |NormalizeWhitespace(text)| > ExcerptLength ==>
      r == NormalizeWhitespace(text)[..ExcerptLength] + Ellipsis && |r| == ExcerptLength + |Ellipsis|
    ensures var words := Join(Words(text), " ");
      r == if |words| <= ExcerptLength then words else words[..ExcerptLength] + Ellipsis
  {
    NormalizeIsJoinedWords(text);
    WordCountZeroIff(text);
    WordsAreWords(text);
    JoinNonEmptyIsEmpty(Words(text), " ");
    var plain := NormalizeWhitespace(text);
    if plain == "" then "" else if |plain| > ExcerptLength then plain[..ExcerptLength] + Ellipsis else plain
  }

  /** The reading time is omitted exactly when the excerpt is. */
  lemma ReadingTimeEmptyIffExcerptEmpty(text: string)
    ensures EstimateReadingTime(text) == "" <==> BuildExcerpt(text) == ""
  {
  }

  /** Collapsing a run of non-whitespace keeps it. */
  lemma {:induction false} CollapseWordThen(w: string, r: string)
    requires NoSpace(w)
    ensures CollapseWhitespace(w + r) == w + CollapseWhitespace(r)
    decreases |w|
  {
    if w == [] {
      assert w + r == r;
    } else {
      assert (w + r)[1..] == w[1..] + r;
      CollapseWordThen(w[1..], r);
    }
  }

  /** What the collapse leaves after the last word: one space if `s` ends in whitespace. */
  function TrailingSpace(s: string): string {
    if s != [] && IsSpace(s[|s| - 1]) then " " else ""
  }

  /** The first and last characters of joined words are not whitespace. */
  lemma {:induction false} JoinedWordsEdges(ws: seq<string>)
    requires ws != []
    requires forall i :: 0 <= i < |ws| ==> ws[i] != "" && NoSpace(ws[i])
    ensures var j := Join(ws, " "); j != [] && !IsSpace(j[0]) && !IsSpace(j[|j| - 1])
    decreases |ws|
  {
    if |ws| > 1 {
      JoinedWordsEdges(ws[1..]);
      var rest := Join(ws[1..], " ");
      assert Join(ws, " ") == ws[0] + " " + rest;
      assert Join(ws, " ")[0] == ws[0][0];
      assert Join(ws, " ")[|Join(ws, " ")| - 1] == rest[|rest| - 1];
    } else {
      assert Join(ws, " ") == ws[0];
    }
  }

  /** A text that starts with a word: that word, then the words of the rest. */
  lemma WordsOfWordStart(s: string)
    requires s != [] && !IsSpace(s[0])
    ensures Words(s) == [TakeWord(s)] + Words(s[|TakeWord(s)|..])
  {
    assert TrimStart(s) == s;
  }

  /** Leading whitespace does not change the words. */
  lemma WordsSkipSpaces(s: string)
    ensures Words(s) == Words(TrimStart(s))
  {
    var t := TrimStart(s);
    assert TrimStart(t) == t;
  }

  /** A whitespace run at the front collapses to one space. */
  lemma CollapseSpaceStart(s: string)
    requires s != [] && IsSpace(s[0])
    ensures CollapseWhitespace(s) == " " + CollapseWhitespace(TrimStart(s))
  {
  }

  /** A non-empty suffix ends where the whole text ends. */
  lemma TrailingSpaceOfSuffix(s: string, k: nat)
    requires k < |s|
    ensures TrailingSpace(s[k..]) == TrailingSpace(s)
  {
    assert s[k..][|s[k..]| - 1] == s[|s| - 1];
  }

  lemma Reassociate(a: string, b: string, c: string, d: string)
    ensures a + (b + (c + d)) == a + b + c + d
  {
  }

  /** For text that starts with a word (or is empty), collapsing gives the joined words plus the trailing space. */
  lemma {:induction false} CollapseFromWord(s: string)
    requires s == [] || !IsSpace(s[0])
    ensures CollapseWhitespace(s) == Join(Words(s), " ") + TrailingSpace(s)
    decreases |s|
  {
    if s != [] {
      var w := TakeWord(s);
      var r := s[|w|..];
      assert s == w + r;
      TakeWordNoSpace(s);
      CollapseWordThen(w, r);
      WordsOfWordStart(s);
      if r == [] {
        assert Words(s) == [w];
        assert s == w;
        assert !IsSpace(w[|w| - 1]);
      } else {
        var r' := TrimStart(r);
        if r' == [] {
          LastWord(s, w, r);
        } else {
          CollapseFromWord(r');
          WordThenWords(s, w, r);
        }
      }
    }
  }

  /** The last word, followed by whitespace only, collapses to it plus one space. */
  lemma LastWord(s: string, w: string, r: string)
    requires s == w + r && w != [] && r != [] && TrimStart(r) == []
    requires CollapseWhitespace(s) == w + CollapseWhitespace(r)
    requires Words(s) == [w] + Words(r)
    ensures CollapseWhitespace(s) == Join(Words(s), " ") + TrailingSpace(s)
  {
    OnlySpaces(r);
    assert Join(Words(s), " ") == w by {
      assert Words(s) == [w];
    }
    assert TrailingSpace(s) == " " by {
      assert s[|s| - 1] == r[|r| - 1];
    }
  }

  /** A non-empty all-whitespace text: no words, and it collapses to one space. */
  lemma OnlySpaces(r: string)
    requires r != [] && TrimStart(r) == []
    ensures IsSpace(r[0]) && IsSpace(r[|r| - 1])
    ensures CollapseWhitespace(r) == " " && Words(r) == []
  {
    WordsSkipSpaces(r);
    TrimStartDropsSpaces(r);
    assert AllSpace(r[..|r|]);
    assert r[..|r|] == r;
    CollapseSpaceStart(r);
  }

  /** A word, whitespace, then more words: the word, one space, and the collapse of the rest. */
  lemma WordThenWords(s: string, w: string, r: string)
    requires s == w + r && w != [] && r != [] && IsSpace(r[0]) && TrimStart(r) != []
    requires CollapseWhitespace(s) == w + CollapseWhitespace(r)
    requires Words(s) == [w] + Words(r)
    requires var r' := TrimStart(r); CollapseWhitespace(r') == Join(Words(r'), " ") + TrailingSpace(r')
    ensures CollapseWhitespace(s) == Join(Words(s), " ") + TrailingSpace(s)
  {
    var r' := TrimStart(r);
    CollapseSpaceStart(r);
    WordsSkipSpaces(r);
    var ws := Words(r');
    assert ws != [];
    assert Join([w] + ws, " ") == w + " " + Join(ws, " ") by {
      assert ([w] + ws)[1..] == ws;
    }
    TrimStartSuffix(r);
    TrailingSpaceOfSuffix(r, |r| - |r'|);
    TrailingSpaceOfSuffix(s, |w|);
    Reassociate(w, " ", Join(ws, " "), TrailingSpace(r'));
  }

  /** Trimming removes whitespace padding on both sides of a text with non-whitespace edges. */
  lemma TrimPadded(lead: string, j: string, tail: string)
    requires AllSpace(lead) && AllSpace(tail)
    requires j == [] || (!IsSpace(j[0]) && !IsSpace(j[|j| - 1]))
    ensures Trim(lead + j + tail) == j
  {
    if j == [] {
      assert lead + j + tail == (lead + tail) + "";
      assert AllSpace(lead + tail);
      TrimStartSpacesThen(lead + tail, "");
    } else {
      assert lead + j + tail == lead + (j + tail);
      TrimStartSpacesThen(lead, j + tail);
      TrimEndThenSpaces(j, tail);
    }
  }

  /** What the collapse leaves before the first word: one space if `s` starts with whitespace. */
  function LeadingSpace(s: string): string {
    if s != [] && IsSpace(s[0]) then " " else ""
  }

  /** Collapsing gives the joined words between the leading and trailing space. */
  lemma CollapseIsPaddedWords(text: string)
    ensures CollapseWhitespace(text) == LeadingSpace(text) + Join(Words(text), " ") + TrailingSpace(TrimStart(text))
  {
    var t := TrimStart(text);
    WordsSkipSpaces(text);
    CollapseFromWord(t);
    var c, ct, lead, j := CollapseWhitespace(text), CollapseWhitespace(t), LeadingSpace(text), Join(Words(text), " ");
    if text != [] && IsSpace(text[0]) {
      CollapseSpaceStart(text);
    } else {
      assert t == text;
    }
    assert c == lead + ct;
    Regroup(c, lead, ct, j, TrailingSpace(t));
  }

  lemma Regroup(c: string, lead: string, ct: string, j: string, tail: string)
    requires c == lead + ct && ct == j + tail
    ensures c == lead + j + tail
  {
  }

  /** `text.replace(/\s+/g, " ").trim()` is the text's words joined by single spaces. */
  lemma NormalizeIsJoinedWords(text: string)
    ensures NormalizeWhitespace(text) == Join(Words(text), " ")
  {
    CollapseIsPaddedWords(text);
    WordsAreWords(text);
    if Words(text) != [] {
      JoinedWordsEdges(Words(text));
    }
    TrimPadded(LeadingSpace(text), Join(Words(text), " "), TrailingSpace(TrimStart(text)));
  }
}
