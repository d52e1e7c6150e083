/**
 * escapeHtml of the reminder e-mail: five single-character replacements in the order
 * `&`, `<`, `>`, `"`, `'`. Because `&` goes first, the entities produced by the later
 * steps are not escaped again, so the chain encodes every character exactly once.
 */
module HtmlEscape {
  import opened Text

  const Amp: string := "&amp;"
  const Lt: string := "&lt;"
  const Gt: string := "&gt;"
  const Quot: string := "&quot;"
  const Apos: string := "&#39;"

  predicate IsSpecial(c: char) {
    c == '&' || c == '<' || c == '>' || c == '"' || c == '\''
  }

  /** The replacement chain, step by step. */
  function EscapeHtml(input: string): string {
    var s1 := ReplaceChar(input, '&', Amp);
    var s2 := ReplaceChar(s1, '<', Lt);
    var s3 := ReplaceChar(s2, '>', Gt);
    var s4 := ReplaceChar(s3, '"', Quot);
    ReplaceChar(s4, '\'', Apos)
  }

  /** Reference definition: the entity of one character, the character itself if it is not special. */
  function EncodeChar(c: char): (r: string)
    ensures |r| > 0 && (r[0] == '&' <==> IsSpecial(c))
    ensures '<' !in r && '>' !in r && '"' !in r && '\'' !in r
    ensures !IsSpecial(c) ==> r == [c]
  {
    if c == '&' then Amp
    else if c == '<' then Lt
    else if c == '>' then Gt
    else if c == '"' then Quot
    else if c == '\'' then Apos
    else [c]
  }

  function EncodeEach(s: string): (r: string)
    ensures '<' !in r && '>' !in r && '"' !in r && '\'' !in r
  {
    if s == [] then [] else EncodeChar(s[0]) + EncodeEach(s[1..])
  }

  lemma EscapeHtmlAppend(a: string, b: string)
    ensures EscapeHtml(a + b) == EscapeHtml(a) + EscapeHtml(b)
  {
    var a1, b1 := ReplaceChar(a, '&', Amp), ReplaceChar(b, '&', Amp);
    ReplaceCharAppend(a, b, '&', Amp);
    var a2, b2 := ReplaceChar(a1, '<', Lt), ReplaceChar(b1, '<', Lt);
    ReplaceCharAppend(a1, b1, '<', Lt);
    var a3, b3 := ReplaceChar(a2, '>', Gt), ReplaceChar(b2, '>', Gt);
    ReplaceCharAppend(a2, b2, '>', Gt);
    var a4, b4 := ReplaceChar(a3, '"', Quot), ReplaceChar(b3, '"', Quot);
    ReplaceCharAppend(a3, b3, '"', Quot);
    ReplaceCharAppend(a4, b4, '\'', Apos);
  }

  /** Replacing in a one-character string. */
  lemma ReplaceSingle(c: char, x: char, rep: string)
    ensures ReplaceChar([c], x, rep) == if c == x then rep else [c]
  {
    assert [c][1..] == [];
  }

  lemma EscapeHtmlChar(c: char)
    ensures EscapeHtml([c]) == EncodeChar(c)
  {
    ReplaceSingle(c, '&', Amp);
    var s1 := ReplaceChar([c], '&', Amp);
    if c == '&' {
      assert '<' !in Amp && '>' !in Amp && '"' !in Amp && '\'' !in Amp;
    } else {
      ReplaceSingle(c, '<', Lt);
      if c == '<' {
        assert '>' !in Lt && '"' !in Lt && '\'' !in Lt;
      } else {
        ReplaceSingle(c, '>', Gt);
        if c == '>' {
          assert '"' !in Gt && '\'' !in Gt;
        } else {
          ReplaceSingle(c, '"', Quot);
          if c == '"' {
            assert '\'' !in Quot;
          } else {
            ReplaceSingle(c, '\'', Apos);
          }
        }
      }
    }
  }

  /** The chain of replacements is the per-character encoding: no entity is escaped twice. */
  lemma {:induction false} EscapeHtmlEncodesEachChar(s: string)
    ensures EscapeHtml(s) == EncodeEach(s)
  {
    if s != [] {
      assert s == [s[0]] + s[1..];
      EscapeHtmlAppend([s[0]], s[1..]);
      EscapeHtmlChar(s[0]);
      EscapeHtmlEncodesEachChar(s[1..]);
    }
  }

  /** The escaped text contains none of the characters that end or open markup or attributes. */
  lemma EscapeHtmlIsSafe(s: string)
    ensures var r := EscapeHtml(s);
            '<' !in r && '>' !in r && '"' !in r && '\'' !in r
  {
    EscapeHtmlEncodesEachChar(s);
  }

  /** A text without any of the five special characters is returned unchanged. */
  lemma {:induction false} EscapeHtmlPlain(s: string)
    requires forall k :: 0 <= k < |s| ==> !IsSpecial(s[k])
    ensures EscapeHtml(s) == s
  {
    EscapeHtmlEncodesEachChar(s);
    EncodeEachPlain(s);
  }

  lemma {:induction false} EncodeEachPlain(s: string)
    requires forall k :: 0 <= k < |s| ==> !IsSpecial(s[k])
    ensures EncodeEach(s) == s
  {
    if s != [] {
      EncodeEachPlain(s[1..]);
      assert s == [s[0]] + s[1..];
    }
  }

  /** Decoder for the five entities, the partner of EscapeHtml. */
  function Unescape(t: string): string
    decreases |t|
  {
    if t == [] then []
    else if StartsWith(t, Amp) then "&" + Unescape(t[|Amp|..])
    else if StartsWith(t, Lt) then "<" + Unescape(t[|Lt|..])
    else if StartsWith(t, Gt) then ">" + Unescape(t[|Gt|..])
    else if StartsWith(t, Quot) then "\"" + Unescape(t[|Quot|..])
    else if StartsWith(t, Apos) then "'" + Unescape(t[|Apos|..])
    else [t[0]] + Unescape(t[1..])
  }

  /** Decoding an encoded character followed by anything else peels off exactly that character. */
  lemma UnescapeStep(c: char, rest: string)
    ensures Unescape(EncodeChar(c) + rest) == [c] + Unescape(rest)
  {
    var e := EncodeChar(c);
    var t := e + rest;
    assert t[..|e|] == e && t[|e|..] == rest;
    if !IsSpecial(c) {
      assert t[0] == c && Amp[0] == '&' && Lt[0] == '&' && Gt[0] == '&' && Quot[0] == '&' && Apos[0] == '&';
      assert t[1..] == rest;
    } else if c == '&' {
    } else if c == '<' {
      assert !StartsWith(t, Amp) by { assert t[1] == 'l' && Amp[1] == 'a'; }
    } else if c == '>' {
      assert !StartsWith(t, Amp) by { assert t[1] == 'g' && Amp[1] == 'a'; }
      assert !StartsWith(t, Lt) by { assert t[1] == 'g' && Lt[1] == 'l'; }
    } else if c == '"' {
      assert !StartsWith(t, Amp) by { assert t[1] == 'q' && Amp[1] == 'a'; }
      assert !StartsWith(t, Lt) by { assert t[1] == 'q' && Lt[1] == 'l'; }
      assert !StartsWith(t, Gt) by { assert t[1] == 'q' && Gt[1] == 'g'; }
    } else {
      assert !StartsWith(t, Amp) by { assert t[1] == '#' && Amp[1] == 'a'; }
      assert !StartsWith(t, Lt) by { assert t[1] == '#' && Lt[1] == 'l'; }
      assert !StartsWith(t, Gt) by { assert t[1] == '#' && Gt[1] == 'g'; }
      assert !StartsWith(t, Quot) by { assert t[1] == '#' && Quot[1] == 'q'; }
    }
  }

  lemma {:induction false} UnescapeEncodeEach(s: string)
    ensures Unescape(EncodeEach(s)) == s
  {
    if s != [] {
      UnescapeStep(s[0], EncodeEach(s[1..]));
      UnescapeEncodeEach(s[1..]);
      assert s == [s[0]] + s[1..];
    }
  }

  /** Escaping loses nothing: the escaped title decodes back to itself. */
  lemma UnescapeEscapeHtml(s: string)
    ensures Unescape(EscapeHtml(s)) == s
  {
    EscapeHtmlEncodesEachChar(s);
    UnescapeEncodeEach(s);
  }
}
