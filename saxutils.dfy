// The two functions of xml.sax.saxutils that the renderer calls: `escape`
// for text and `quoteattr` for attribute values. Each is paired with the
// decoding a reader of the output performs, and proved to be undone by it.
module SaxUtils {

  /** `escape` on one character: '&', '<' and '>' become entity references. */
  function EscapeChar(c: char): string
  {
    if c == '&' then "&amp;" else if c == '<' then "&lt;" else if c == '>' then "&gt;" else [c]
  }

  /** `escape(s)`. */
  function Escape(s: string): (r: string)
    ensures s == [] <==> r == []
  {
    if s == [] then [] else EscapeChar(s[0]) + Escape(s[1..])
  }

  /** Escaped text holds no '<' or '>': nothing in it can open or close markup. */
  lemma {:induction false} EscapeHasNoAngles(s: string)
    ensures var r := Escape(s);
            forall i :: 0 <= i < |r| ==> r[i] != '<' && r[i] != '>'
  {
    if s != [] {
      EscapeHasNoAngles(s[1..]);
      var r := Escape(s);
      var head := EscapeChar(s[0]);
      forall i | 0 <= i < |r|
        ensures r[i] != '<' && r[i] != '>'
      {
        if i >= |head| {
          assert r[i] == Escape(s[1..])[i - |head|];
        }
      }
    }
  }

  function StartsWith(s: string, prefix: string): bool
  {
    |prefix| <= |s| && forall i :: 0 <= i < |prefix| ==> s[i] == prefix[i]
  }

  /** Reading back escaped text: the three entity references decode to their characters. */
  function Unescape(s: string): string
    decreases |s|
  {
    if s == [] then []
    else if StartsWith(s, "&amp;") then "&" + Unescape(s[5..])
    else if StartsWith(s, "&lt;") then "<" + Unescape(s[4..])
    else if StartsWith(s, "&gt;") then ">" + Unescape(s[4..])
    else [s[0]] + Unescape(s[1..])
  }

  /** Escaped text reads back as the original. */
  lemma {:induction false} UnescapeEscape(s: string)
    ensures Unescape(Escape(s)) == s
  {
    if s != [] {
      UnescapeEscape(s[1..]);
      UnescapeEscapeChar(s[0], Escape(s[1..]));
    }
  }

  lemma UnescapeEscapeChar(c: char, rest: string)
    ensures Unescape(EscapeChar(c) + rest) == [c] + Unescape(rest)
  {
    var t := EscapeChar(c) + rest;
    if c == '&' {
      assert t[..5] == "&amp;" && t[5..] == rest;
    } else if c == '<' {
      assert t[..4] == "&lt;" && t[4..] == rest && t[1] == 'l';
    } else if c == '>' {
      assert t[..4] == "&gt;" && t[4..] == rest && t[1] == 'g';
    } else {
      assert t[0] == c && t[1..] == rest;
    }
  }

  /** `escape(data, entities)` as `quoteattr` calls it; `quot` also turns '"' into "&quot;". */
  function AttrChar(c: char, quot: bool): string
  {
    if c == '&' then "&amp;" else if c == '<' then "&lt;" else if c == '>' then "&gt;"
    else if c == '\n' then "&#10;" else if c == '\r' then "&#13;" else if c == '\t' then "&#9;"
    else if quot && c == '"' then "&quot;"
    else [c]
  }

  function EncodeAttr(s: string, quot: bool): (r: string)
    ensures quot ==> '"' !in r
    ensures ('"' in r) ==> ('"' in s)
    ensures ('\'' in r) <==> ('\'' in s)
  {
    if s == [] then [] else AttrChar(s[0], quot) + EncodeAttr(s[1..], quot)
  }

  /** `data.replace('"', "&quot;")`. */
  function ReplaceQuot(s: string): string
  {
    if s == [] then [] else (if s[0] == '"' then "&quot;" else [s[0]]) + ReplaceQuot(s[1..])
  }

  lemma {:induction false} ReplaceQuotEncode(s: string)
    ensures ReplaceQuot(EncodeAttr(s, false)) == EncodeAttr(s, true)
  {
    if s != [] {
      ReplaceQuotEncode(s[1..]);
      ReplaceQuotAppend(AttrChar(s[0], false), EncodeAttr(s[1..], false));
      ReplaceQuotAttrChar(s[0]);
    }
  }

  lemma ReplaceQuotAttrChar(c: char)
    ensures ReplaceQuot(AttrChar(c, false)) == AttrChar(c, true)
  {
    var e := AttrChar(c, false);
    if c != '"' {
      assert forall i :: 0 <= i < |e| ==> e[i] != '"';
      ReplaceQuotNoQuote(e);
    }
  }

  lemma {:induction false} ReplaceQuotAppend(a: string, b: string)
    ensures ReplaceQuot(a + b) == ReplaceQuot(a) + ReplaceQuot(b)
  {
    if a == [] {
      assert a + b == b;
    } else {
      assert (a + b)[1..] == a[1..] + b;
      ReplaceQuotAppend(a[1..], b);
    }
  }

  lemma {:induction false} ReplaceQuotNoQuote(a: string)
    requires forall i :: 0 <= i < |a| ==> a[i] != '"'
    ensures ReplaceQuot(a) == a
  {
    if a != [] {
      ReplaceQuotNoQuote(a[1..]);
    }
  }

  /** `quoteattr(s)`: escape, then pick the delimiter the value does not contain. */
  function QuoteAttr(s: string): string
  {
    var data := EncodeAttr(s, false);
    if '"' in data then
      if '\'' in data then "\"" + ReplaceQuot(data) + "\""
      else "'" + data + "'"
    else "\"" + data + "\""
  }

  /** Reading back an attribute body: every entity reference `quoteattr` can produce is decoded. */
  function DecodeAttr(s: string): string
    decreases |s|
  {
    if s == [] then []
    else if StartsWith(s, "&amp;") then "&" + DecodeAttr(s[5..])
    else if StartsWith(s, "&lt;") then "<" + DecodeAttr(s[4..])
    else if StartsWith(s, "&gt;") then ">" + DecodeAttr(s[4..])
    else if StartsWith(s, "&#10;") then "\n" + DecodeAttr(s[5..])
    else if StartsWith(s, "&#13;") then "\r" + DecodeAttr(s[5..])
    else if StartsWith(s, "&#9;") then "\t" + DecodeAttr(s[4..])
    else if StartsWith(s, "&quot;") then "\"" + DecodeAttr(s[6..])
    else [s[0]] + DecodeAttr(s[1..])
  }

  lemma {:induction false} DecodeEncodeAttr(s: string, quot: bool)
    ensures DecodeAttr(EncodeAttr(s, quot)) == s
  {
    if s != [] {
      DecodeEncodeAttr(s[1..], quot);
      DecodeAttrChar(s[0], quot, EncodeAttr(s[1..], quot));
    }
  }

  lemma DecodeAttrChar(c: char, quot: bool, rest: string)
    ensures DecodeAttr(AttrChar(c, quot) + rest) == [c] + DecodeAttr(rest)
  {
    var e := AttrChar(c, quot);
    var t := e + rest;
    assert t[|e|..] == rest;
    if c == '&' {
      assert t[..5] == "&amp;";
    } else if c == '<' {
      assert t[..4] == "&lt;" && t[1] == 'l';
      assert !StartsWith(t, "&amp;");
    } else if c == '>' {
      assert t[..4] == "&gt;" && t[1] == 'g';
      assert !StartsWith(t, "&amp;") && !StartsWith(t, "&lt;");
    } else if c == '\n' {
      assert t[..5] == "&#10;" && t[1] == '#' && t[2] == '1' && t[3] == '0';
      assert !StartsWith(t, "&amp;") && !StartsWith(t, "&lt;") && !StartsWith(t, "&gt;");
    } else if c == '\r' {
      assert t[..5] == "&#13;" && t[1] == '#' && t[3] == '3';
      assert !StartsWith(t, "&amp;") && !StartsWith(t, "&lt;") && !StartsWith(t, "&gt;") && !StartsWith(t, "&#10;");
    } else if c == '\t' {
      assert t[..4] == "&#9;" && t[2] == '9';
      assert !StartsWith(t, "&amp;") && !StartsWith(t, "&lt;") && !StartsWith(t, "&gt;");
      assert !StartsWith(t, "&#10;") && !StartsWith(t, "&#13;");
    } else if quot && c == '"' {
      assert t[..6] == "&quot;" && t[1] == 'q';
      assert !StartsWith(t, "&amp;") && !StartsWith(t, "&lt;") && !StartsWith(t, "&gt;");
      assert !StartsWith(t, "&#10;") && !StartsWith(t, "&#13;") && !StartsWith(t, "&#9;");
    } else {
      assert t[0] == c && t[1..] == rest;
      assert !StartsWith(t, "&amp;") && !StartsWith(t, "&lt;") && !StartsWith(t, "&gt;");
      assert !StartsWith(t, "&#10;") && !StartsWith(t, "&#13;") && !StartsWith(t, "&#9;");
      assert !StartsWith(t, "&quot;");
    }
  }

  /** Reading a quoted attribute value: drop the delimiters, decode the body. */
  function UnquoteAttr(r: string): string
  {
    if |r| < 2 then r else DecodeAttr(r[1..|r| - 1])
  }

  /**
   * `quoteattr` output is delimited by one kind of quote that does not occur inside,
   * and reads back as the original value.
   */
  lemma QuoteAttrRoundTrip(s: string)
    ensures var r := QuoteAttr(s);
      |r| >= 2 && (r[0] == '"' || r[0] == '\'') && r[|r| - 1] == r[0]
      && r[0] !in r[1..|r| - 1]
      && UnquoteAttr(r) == s
  {
    var data := EncodeAttr(s, false);
    var r := QuoteAttr(s);
    if '"' in data && '\'' in data {
      ReplaceQuotEncode(s);
      DecodeEncodeAttr(s, true);
      assert r[1..|r| - 1] == EncodeAttr(s, true);
    } else {
      DecodeEncodeAttr(s, false);
      assert r[1..|r| - 1] == data;
    }
  }
}
