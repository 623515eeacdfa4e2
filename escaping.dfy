/**
 * Entity escaping of the five reserved characters `& < > " '`. The site has
 * three copies of it (an HTML one in the content sync and two identical XML
 * ones in the feeds); they differ only in the entity chosen for the
 * apostrophe. Each copy is a chain of five global `replace` calls, `&` first.
 * The chain is modelled as written and proved equal to a per-character map,
 * which has no output `<`, `>`, `"` or `'` and which `Unescape` inverts.
 */
module Escaping {
  import opened Text

  /** Which apostrophe entity a copy uses: `&#039;` (HTML) or `&apos;` (XML). */
  datatype Dialect = Html | Xml

  function AposEntity(d: Dialect): string {
    match d
    case Html => "&#039;"
    case Xml => "&apos;"
  }

  /** `s.replace(/c/g, rep)` for a single character `c`. */
  function ReplaceAll(s: string, c: char, rep: string): (r: string)
    ensures c !in s ==> r == s
    ensures rep != "" ==> |r| >= |s|
    decreases |s|
  {
    if s == [] then [] else (if s[0] == c then rep else [s[0]]) + ReplaceAll(s[1..], c, rep)
  }

  lemma {:induction false} ReplaceAllAppend(a: string, b: string, c: char, rep: string)
    ensures ReplaceAll(a + b, c, rep) == ReplaceAll(a, c, rep) + ReplaceAll(b, c, rep)
  {
    if a == [] {
      assert a + b == b;
    } else {
      var head := if a[0] == c then rep else [a[0]];
      assert (a + b)[1..] == a[1..] + b;
      ReplaceAllAppend(a[1..], b, c, rep);
      Assoc(head, ReplaceAll(a[1..], c, rep), ReplaceAll(b, c, rep));
    }
  }

  /**
   * The five replacements in the order the source applies them. Escaping
   * never shortens a text, and leaves one without reserved characters as it is.
   */
  function EscapeChain(s: string, d: Dialect): (r: string)
    ensures |r| >= |s|
    ensures '&' !in s && '<' !in s && '>' !in s && '"' !in s && '\'' !in s ==> r == s
  {
    var amp := ReplaceAll(s, '&', "&amp;");
    var lt := ReplaceAll(amp, '<', "&lt;");
    var gt := ReplaceAll(lt, '>', "&gt;");
    var quot := ReplaceAll(gt, '"', "&quot;");
    ReplaceAll(quot, '\'', AposEntity(d))
  }

  /** The entity that stands for one character (the character itself if it is not reserved). */
  function EscapeChar(c: char, d: Dialect): string {
    if c == '&' then "&amp;"
    else if c == '<' then "&lt;"
    else if c == '>' then "&gt;"
    else if c == '"' then "&quot;"
    else if c == '\'' then AposEntity(d)
    else [c]
  }

  /** Escaping as a per-character map: each character replaced by its entity, once. */
  function EscapeEach(s: string, d: Dialect): string
    decreases |s|
  {
    if s == [] then [] else EscapeChar(s[0], d) + EscapeEach(s[1..], d)
  }

  lemma {:induction false} EscapeEachAppend(a: string, b: string, d: Dialect)
    ensures EscapeEach(a + b, d) == EscapeEach(a, d) + EscapeEach(b, d)
  {
    if a == [] {
      assert a + b == b;
    } else {
      assert (a + b)[1..] == a[1..] + b;
      EscapeEachAppend(a[1..], b, d);
    }
  }

  lemma EscapeChainAppend(a: string, b: string, d: Dialect)
    ensures EscapeChain(a + b, d) == EscapeChain(a, d) + EscapeChain(b, d)
  {
    var a1, b1 := ReplaceAll(a, '&', "&amp;"), ReplaceAll(b, '&', "&amp;");
    ReplaceAllAppend(a, b, '&', "&amp;");
    var a2, b2 := ReplaceAll(a1, '<', "&lt;"), ReplaceAll(b1, '<', "&lt;");
    ReplaceAllAppend(a1, b1, '<', "&lt;");
    var a3, b3 := ReplaceAll(a2, '>', "&gt;"), ReplaceAll(b2, '>', "&gt;");
    ReplaceAllAppend(a2, b2, '>', "&gt;");
    var a4, b4 := ReplaceAll(a3, '"', "&quot;"), ReplaceAll(b3, '"', "&quot;");
    ReplaceAllAppend(a3, b3, '"', "&quot;");
    ReplaceAllAppend(a4, b4, '\'', AposEntity(d));
  }

  lemma ReplaceAllSingle(c: char, t: char, rep: string)
    ensures ReplaceAll([c], t, rep) == if c == t then rep else [c]
  {
    assert [c][1..] == [];
  }

  /** On one character the chain produces that character's entity. */
  lemma EscapeChainChar(c: char, d: Dialect)
    ensures EscapeChain([c], d) == EscapeChar(c, d)
  {
    ReplaceAllSingle(c, '&', "&amp;");
    var amp := if c == '&' then "&amp;" else [c];
    if c == '&' {
      assert '<' !in amp && '>' !in amp && '"' !in amp && '\'' !in amp;
    } else {
      ReplaceAllSingle(c, '<', "&lt;");
      var lt := if c == '<' then "&lt;" else [c];
      if c == '<' {
        assert '>' !in lt && '"' !in lt && '\'' !in lt;
      } else {
        ReplaceAllSingle(c, '>', "&gt;");
        var gt := if c == '>' then "&gt;" else [c];
        if c == '>' {
          assert '"' !in gt && '\'' !in gt;
        } else {
          ReplaceAllSingle(c, '"', "&quot;");
          if c == '"' {
            assert '\'' !in "&quot;";
          } else {
            ReplaceAllSingle(c, '\'', AposEntity(d));
          }
        }
      }
    }
  }

  /**
   * Because `&` is replaced first and no later replacement text contains a
   * later target, the chain never re-escapes an entity it produced: it is
   * exactly the per-character map.
   */
  lemma {:induction false} EscapeChainIsCharMap(s: string, d: Dialect)
    ensures EscapeChain(s, d) == EscapeEach(s, d)
    decreases |s|
  {
    if s != [] {
      assert s == [s[0]] + s[1..];
      EscapeChainAppend([s[0]], s[1..], d);
      EscapeChainChar(s[0], d);
      EscapeChainIsCharMap(s[1..], d);
    } else {
      assert EscapeChain(s, d) == [];
    }
  }

  /** The characters that never survive escaping. */
  predicate IsMarkup(c: char) {
    c == '<' || c == '>' || c == '"' || c == '\''
  }

  predicate NoMarkup(s: string) {
    forall i :: 0 <= i < |s| ==> !IsMarkup(s[i])
  }

  lemma NoMarkupAppend(a: string, b: string)
    requires NoMarkup(a) && NoMarkup(b)
    ensures NoMarkup(a + b)
  {
    assert forall i :: |a| <= i < |a + b| ==> (a + b)[i] == b[i - |a|];
  }

  lemma {:induction false} EscapeEachNoMarkup(s: string, d: Dialect)
    ensures NoMarkup(EscapeEach(s, d))
    decreases |s|
  {
    if s != [] {
      EscapeEachNoMarkup(s[1..], d);
      NoMarkupAppend(EscapeChar(s[0], d), EscapeEach(s[1..], d));
    }
  }

  /** Decodes the five entities of a dialect; any other `&` stays as it is. */
  function Unescape(s: string, d: Dialect): string
    decreases |s|
  {
    if s == [] then []
    else if StartsWith(s, "&amp;") then "&" + Unescape(s[5..], d)
    else if StartsWith(s, "&lt;") then "<" + Unescape(s[4..], d)
    else if StartsWith(s, "&gt;") then ">" + Unescape(s[4..], d)
    else if StartsWith(s, "&quot;") then "\"" + Unescape(s[6..], d)
    else if StartsWith(s, AposEntity(d)) then "'" + Unescape(s[|AposEntity(d)|..], d)
    else [s[0]] + Unescape(s[1..], d)
  }

  lemma UnescapeCharThen(c: char, rest: string, d: Dialect)
    ensures Unescape(EscapeChar(c, d) + rest, d) == [c] + Unescape(rest, d)
  {
    var e := EscapeChar(c, d);
    var s := e + rest;
    assert s[..|e|] == e;
    assert s[|e|..] == rest;
    if c == '&' {
      assert StartsWith(s, "&amp;");
    } else if c == '<' {
      assert s[1] == 'l';
      assert StartsWith(s, "&lt;");
    } else if c == '>' {
      assert s[1] == 'g';
      assert StartsWith(s, "&gt;");
    } else if c == '"' {
      assert s[1] == 'q';
      assert StartsWith(s, "&quot;");
    } else if c == '\'' {
      assert s[1] == (if d.Html? then '#' else 'a');
      assert d.Xml? ==> s[2] == 'p';
      assert StartsWith(s, AposEntity(d));
    } else {
      assert s[0] == c && s[0] != '&';
      assert s[1..] == rest;
    }
  }

  /** Escaping loses nothing: decoding the escaped text gives the text back. */
  lemma {:induction false} UnescapeEscapeEach(s: string, d: Dialect)
    ensures Unescape(EscapeEach(s, d), d) == s
    decreases |s|
  {
    if s != [] {
      UnescapeCharThen(s[0], EscapeEach(s[1..], d), d);
      UnescapeEscapeEach(s[1..], d);
    }
  }

  /** Everything a caller of the source's escape function may rely on. */
  lemma EscapeChainSpec(s: string, d: Dialect)
    ensures EscapeChain(s, d) == EscapeEach(s, d)
    ensures NoMarkup(EscapeChain(s, d))
    ensures Unescape(EscapeChain(s, d), d) == s
  {
    EscapeChainIsCharMap(s, d);
    EscapeEachNoMarkup(s, d);
    UnescapeEscapeEach(s, d);
  }
}
