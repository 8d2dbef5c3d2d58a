// markuplift/attribute_formatting.py: the attribute formatting strategies
// (built-in rules first, then at most one user formatter) and the
// `wrap_css_properties` value formatter.
module AttributeFormatting {
  import opened Wrappers
  import opened Types
  import opened Text
  import opened Transforms

  datatype AttributeFormattingStrategy = NullAttributeStrategy | XmlAttributeStrategy | Html5AttributeStrategy

  /** `Html5AttributeStrategy.BOOLEAN_ATTRIBUTES`. */
  const BOOLEAN_ATTRIBUTES: set<string> := {
    "async", "autofocus", "autoplay", "checked", "controls", "default", "defer",
    "disabled", "formnovalidate", "hidden", "ismap", "itemscope", "loop", "multiple",
    "muted", "nomodule", "novalidate", "open", "readonly", "required", "reversed",
    "selected"}

  /** The `user_formatters` dictionary, in its iteration order. */
  type UserFormatters = seq<(AttributePredicate, ValueFormatter)>

  /** The position of the first user formatter whose predicate accepts the attribute, searching from `k`. */
  function FirstMatchFrom(fs: UserFormatters, k: nat, element: seq<nat>, name: string, value: string): (r: Option<nat>)
    requires k <= |fs|
    ensures r.Some? ==> k <= r.value < |fs| && fs[r.value].0(element, name, value)
                        && forall j :: k <= j < r.value ==> !fs[j].0(element, name, value)
    ensures r.None? ==> forall j :: k <= j < |fs| ==> !fs[j].0(element, name, value)
    decreases |fs| - k
  {
    if k == |fs| then None
    else if fs[k].0(element, name, value) then Some(k)
    else FirstMatchFrom(fs, k + 1, element, name, value)
  }

  function FirstMatch(fs: UserFormatters, element: seq<nat>, name: string, value: string): Option<nat>
  {
    FirstMatchFrom(fs, 0, element, name, value)
  }

  /** The value after the user-formatter stage: the first matching formatter's output, or the value itself. */
  function ApplyFirst(fs: UserFormatters, element: seq<nat>, name: string, value: string, oneIndent: string, level: int): string
  {
    match FirstMatch(fs, element, name, value)
    case None => value
    case Some(i) => fs[i].1(value, oneIndent, level)
  }

  /** At most one user formatter runs: the first that matches, on the value it was tested against. */
  lemma ApplyFirstIsFirstMatching(fs: UserFormatters, element: seq<nat>, name: string, value: string, oneIndent: string, level: int)
    ensures var r := ApplyFirst(fs, element, name, value, oneIndent, level);
      (r == value && forall j :: 0 <= j < |fs| ==> !fs[j].0(element, name, value))
      || exists i :: 0 <= i < |fs| && fs[i].0(element, name, value)
                     && (forall j :: 0 <= j < i ==> !fs[j].0(element, name, value))
                     && r == fs[i].1(value, oneIndent, level)
  {
    var m := FirstMatch(fs, element, name, value);
    if m.Some? {
      var i := m.value;
      assert fs[i].0(element, name, value) && forall j :: 0 <= j < i ==> !fs[j].0(element, name, value);
    }
  }

  /** `_format_boolean_attribute`: a minimised boolean attribute carries the empty value. */
  function FormatBooleanAttribute(attrValue: string): (r: string)
    ensures |r| == 0
  {
    ""
  }

  /** The value the user formatters see: HTML5 first empties a boolean attribute. */
  function BuiltIn(strategy: AttributeFormattingStrategy, name: string, value: string): string
  {
    if strategy.Html5AttributeStrategy? && name in BOOLEAN_ATTRIBUTES then FormatBooleanAttribute(value) else value
  }

  /**
   * `format_attribute` of each strategy: apply the built-in rule, then the
   * first user formatter whose predicate accepts the attribute (tested on the
   * value after the built-in rule); minimise exactly the HTML5 boolean
   * attributes, whatever the user formatter returns.
   */
  method FormatAttribute(strategy: AttributeFormattingStrategy, element: seq<nat>, attrName: string, attrValue: string,
                         userFormatters: UserFormatters, oneIndent: string, level: int)
    returns (value: string, shouldMinimize: bool)
    ensures shouldMinimize <==> strategy.Html5AttributeStrategy? && attrName in BOOLEAN_ATTRIBUTES
    ensures value == ApplyFirst(userFormatters, element, attrName, BuiltIn(strategy, attrName, attrValue), oneIndent, level)
    ensures !strategy.Html5AttributeStrategy? && (forall j :: 0 <= j < |userFormatters| ==> !userFormatters[j].0(element, attrName, attrValue))
            ==> value == attrValue
  {
    value := attrValue;
    shouldMinimize := false;
    if strategy.Html5AttributeStrategy? && attrName in BOOLEAN_ATTRIBUTES {
      value := FormatBooleanAttribute(attrValue);
      shouldMinimize := true;
    }
    ghost var v0 := value;
    var i := 0;
    while i < |userFormatters|
      invariant 0 <= i <= |userFormatters|
      invariant value == v0
      invariant FirstMatch(userFormatters, element, attrName, v0) == FirstMatchFrom(userFormatters, i, element, attrName, v0)
    {
      var (matches, formatterFunc) := userFormatters[i];
      if matches(element, attrName, value) {
        value := formatterFunc(value, oneIndent, level);
        return;
      }
      i := i + 1;
    }
  }

  // ------------------------------------------------------- wrap_css_properties

  /** The trimmed, non-empty pieces among `pieces`. */
  function NonEmptyStripped(pieces: seq<string>): (r: seq<string>)
    ensures |r| <= |pieces|
  {
    if pieces == [] then []
    else (if Strip(pieces[0]) != [] then [Strip(pieces[0])] else []) + NonEmptyStripped(pieces[1..])
  }

  /** `[prop.strip() for prop in value.split(";") if prop.strip()]`. */
  function CssProperties(value: string): seq<string>
  {
    NonEmptyStripped(SplitOn(value, ';'))
  }

  /** One property per line, each indented to `level` and closed by `;`. */
  function PropertyLines(props: seq<string>, oneIndent: string, level: int): string
  {
    if props == [] then "" else "\n" + Indent(oneIndent, level) + props[0] + ";" + PropertyLines(props[1..], oneIndent, level)
  }

  /**
   * The formatter `wrap_css_properties(when_more_than)` returns: a style with
   * more than `whenMoreThan` properties is written one property per line,
   * one level deeper than the attribute, with the closing quote back at the
   * attribute's level; a shorter style is left as it is.
   */
  function WrapCssProperties(whenMoreThan: int, value: string, oneIndent: string, level: int): string
  {
    var props := CssProperties(value);
    if |props| <= whenMoreThan then value
    else PropertyLines(props, oneIndent, level + 1) + ("\n" + Indent(oneIndent, level))
  }

  /** A CSS property as `CssProperties` yields it. */
  predicate IsProperty(p: string)
  {
    p != [] && Strip(p) == p && ';' !in p
  }

  lemma StrippedEnds(p: string)
    requires p != [] && Strip(p) == p
    ensures !IsSpace(p[0]) && !IsSpace(p[|p| - 1])
  {
    var r := RStrip(p);
    assert LStrip(r) == p;
    assert p == r[|r| - |p|..];
    assert p[|p| - 1] == r[|r| - 1];
  }

  lemma StripIsProperty(s: string)
    requires ';' !in s && Strip(s) != []
    ensures IsProperty(Strip(s))
  {
    var r := RStrip(s);
    var t := LStrip(r);
    assert t == r[|r| - |t|..] && r == s[..|r|];
    assert forall c :: c in t ==> c in s;
    assert t[|t| - 1] == r[|r| - 1];
    assert RStrip(t) == t;
    LStripIdempotent(r);
  }

  /** Every property is trimmed, non-empty and free of `;`. */
  lemma {:induction false} NonEmptyStrippedAreProperties(pieces: seq<string>)
    requires forall i :: 0 <= i < |pieces| ==> ';' !in pieces[i]
    ensures forall i :: 0 <= i < |NonEmptyStripped(pieces)| ==> IsProperty(NonEmptyStripped(pieces)[i])
  {
    if pieces != [] {
      NonEmptyStrippedAreProperties(pieces[1..]);
      if Strip(pieces[0]) != [] {
        StripIsProperty(pieces[0]);
      }
    }
  }

  lemma CssPropertiesAreProperties(value: string)
    ensures forall i :: 0 <= i < |CssProperties(value)| ==> IsProperty(CssProperties(value)[i])
  {
    NonEmptyStrippedAreProperties(SplitOn(value, ';'));
  }

  /** Splitting at the first separator. */
  lemma {:induction false} SplitOnFirst(x: string, y: string, sep: char)
    requires sep !in x
    ensures SplitOn(x + [sep] + y, sep) == [x] + SplitOn(y, sep)
  {
    if x == [] {
      assert x + [sep] + y == [sep] + y;
      assert ([sep] + y)[1..] == y;
    } else {
      assert (x + [sep] + y)[1..] == x[1..] + [sep] + y;
      SplitOnFirst(x[1..], y, sep);
      assert [x[0]] + x[1..] == x;
    }
  }

  lemma {:induction false} SplitOnNone(x: string, sep: char)
    requires sep !in x
    ensures SplitOn(x, sep) == [x]
  {
    if x != [] {
      SplitOnNone(x[1..], sep);
      assert [x[0]] + x[1..] == x;
    }
  }

  /** A property behind a newline and an indent strips back to itself. */
  lemma StripIndented(w: string, p: string)
    requires AllSpace(w) && IsProperty(p)
    ensures Strip(w + p) == p
  {
    StrippedEnds(p);
    var s := w + p;
    assert s[|s| - 1] == p[|p| - 1];
    assert RStrip(s) == s;
    LStripSpacePrefix(w, p);
    assert LStrip(p) == p by {
      assert !IsSpace(p[0]);
    }
  }

  /** Reading the properties back from wrapped lines gives the same properties. */
  lemma {:induction false} CssPropertiesOfLines(props: seq<string>, oneIndent: string, level: int, closing: string)
    requires AllSpace(oneIndent) && AllSpace(closing)
    requires forall i :: 0 <= i < |props| ==> IsProperty(props[i])
    ensures CssProperties(PropertyLines(props, oneIndent, level) + closing) == props
  {
    if props == [] {
      ClosingHasNoProperties(closing);
      assert PropertyLines(props, oneIndent, level) + closing == closing;
    } else {
      CssPropertiesOfLines(props[1..], oneIndent, level, closing);
      FirstPropertyLine(props, oneIndent, level, closing);
    }
  }

  /** The first line gives back the first property, and the remaining lines the rest. */
  lemma FirstPropertyLine(props: seq<string>, oneIndent: string, level: int, closing: string)
    requires AllSpace(oneIndent) && props != [] && IsProperty(props[0])
    requires CssProperties(PropertyLines(props[1..], oneIndent, level) + closing) == props[1..]
    ensures CssProperties(PropertyLines(props, oneIndent, level) + closing) == props
  {
    var w := "\n" + Indent(oneIndent, level);
    var x := w + props[0];
    var rest := PropertyLines(props[1..], oneIndent, level) + closing;
    LineSplits(props, oneIndent, level, closing);
    NewlineIndentIsSpace(oneIndent, level);
    StripIndented(w, props[0]);
    CssPropertiesCons(x, rest);
    SeqCons(props);
  }

  lemma SeqCons<T>(s: seq<T>)
    requires s != []
    ensures [s[0]] + s[1..] == s
  {
  }

  /** A first piece that strips to something non-empty is the first property. */
  lemma CssPropertiesCons(x: string, rest: string)
    requires Strip(x) != []
    ensures NonEmptyStripped([x] + SplitOn(rest, ';')) == [Strip(x)] + CssProperties(rest)
  {
    assert ([x] + SplitOn(rest, ';'))[1..] == SplitOn(rest, ';');
  }

  lemma ClosingHasNoProperties(closing: string)
    requires AllSpace(closing)
    ensures CssProperties(closing) == []
  {
    assert forall i :: 0 <= i < |closing| ==> closing[i] != ';';
    SplitOnNone(closing, ';');
    StripEmptyIffAllSpace(closing);
    assert NonEmptyStripped([closing]) == [] + NonEmptyStripped([closing][1..]);
  }

  /** The first wrapped line ends at the first `;`. */
  lemma LineSplits(props: seq<string>, oneIndent: string, level: int, closing: string)
    requires AllSpace(oneIndent) && props != [] && IsProperty(props[0])
    ensures var x := "\n" + Indent(oneIndent, level) + props[0];
      SplitOn(PropertyLines(props, oneIndent, level) + closing, ';')
      == [x] + SplitOn(PropertyLines(props[1..], oneIndent, level) + closing, ';')
  {
    var w := "\n" + Indent(oneIndent, level);
    var x := w + props[0];
    var rest := PropertyLines(props[1..], oneIndent, level) + closing;
    assert PropertyLines(props, oneIndent, level) + closing == x + [';'] + rest;
    assert AllSpace(w);
    assert forall i :: 0 <= i < |x| ==> x[i] != ';' by {
      forall i | 0 <= i < |x| ensures x[i] != ';' {
        if i < |w| {
          assert IsSpace(w[i]);
        } else {
          assert x[i] == props[0][i - |w|];
        }
      }
    }
    SplitOnFirst(x, rest, ';');
  }

  lemma NewlineIndentIsSpace(oneIndent: string, level: int)
    requires AllSpace(oneIndent)
    ensures AllSpace("\n" + Indent(oneIndent, level))
  {
    assert IsSpace('\n');
  }

  /** A wrapped style keeps every property, in order, and nothing else. */
  lemma WrapCssPropertiesKeepsProperties(whenMoreThan: int, value: string, oneIndent: string, level: int)
    requires AllSpace(oneIndent)
    ensures CssProperties(WrapCssProperties(whenMoreThan, value, oneIndent, level)) == CssProperties(value)
  {
    var props := CssProperties(value);
    if |props| > whenMoreThan {
      var closing := "\n" + Indent(oneIndent, level);
      NewlineIndentIsSpace(oneIndent, level);
      CssPropertiesAreProperties(value);
      CssPropertiesOfLines(props, oneIndent, level + 1, closing);
      assert WrapCssProperties(whenMoreThan, value, oneIndent, level) == PropertyLines(props, oneIndent, level + 1) + closing;
    }
  }

  /**
   * Wrapping is idempotent: a wrapped style has the same properties as the
   * original, so wrapping it again reproduces it.
   */
  lemma WrapCssPropertiesIdempotent(whenMoreThan: int, value: string, oneIndent: string, level: int)
    requires AllSpace(oneIndent)
    ensures var once := WrapCssProperties(whenMoreThan, value, oneIndent, level);
      WrapCssProperties(whenMoreThan, once, oneIndent, level) == once
  {
    WrapCssPropertiesKeepsProperties(whenMoreThan, value, oneIndent, level);
  }
}
