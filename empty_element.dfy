// markuplift/empty_element.py: how an element with no content and no
// children is written, per document format.
module EmptyElement {
  import opened Tree
  import Predicates

  /** `EmptyElementTagStyle`: `<tag></tag>`, `<tag />` or `<tag>`. */
  datatype EmptyElementTagStyle = EXPLICIT_TAGS | SELF_CLOSING_TAG | VOID_TAG
  {
    /** The enum member's string value. */
    function Value(): string
    {
      match this
      case EXPLICIT_TAGS => "explicit"
      case SELF_CLOSING_TAG => "self_closing"
      case VOID_TAG => "void"
    }
  }

  /** The two concrete strategies of the module. */
  datatype EmptyElementStrategy = XmlEmptyElementStrategy | Html5EmptyElementStrategy

  /** `Html5EmptyElementStrategy._HTML5_VOID_ELEMENTS`. */
  const HTML5_VOID_ELEMENTS: set<string> := {
    "area", "base", "br", "col", "embed", "hr", "img", "input", "link", "meta",
    "source", "track", "wbr"}

  /**
   * `tag_style`: XML self-closes every empty element; HTML5 writes the void
   * elements as a lone start tag and every other element with both tags.
   * A comment or PI has no string tag, so it is never void.
   */
  function TagStyle(strategy: EmptyElementStrategy, element: Node): (style: EmptyElementTagStyle)
    ensures strategy.XmlEmptyElementStrategy? ==> style == SELF_CLOSING_TAG
    ensures strategy.Html5EmptyElementStrategy? ==>
              style != SELF_CLOSING_TAG && (style == VOID_TAG <==> element.Element? && element.tag in HTML5_VOID_ELEMENTS)
  {
    match strategy
    case XmlEmptyElementStrategy => SELF_CLOSING_TAG
    case Html5EmptyElementStrategy =>
      if element.Element? && element.tag in HTML5_VOID_ELEMENTS then VOID_TAG else EXPLICIT_TAGS
  }

  /** The three styles have three different values. */
  lemma TagStyleValuesDistinct(a: EmptyElementTagStyle, b: EmptyElementTagStyle)
    ensures a.Value() == b.Value() <==> a == b
  {
  }

  /** The HTML5 void set is the predicate module's void set without `param`. */
  lemma VoidSetIsPredicateVoidSetWithoutParam()
    ensures "param" !in HTML5_VOID_ELEMENTS
    ensures HTML5_VOID_ELEMENTS == Predicates.HTML_VOID_ELEMENTS - {"param"}
  {
  }

  /** The HTML5 void set has exactly 13 names. */
  lemma VoidSetSize()
    ensures |HTML5_VOID_ELEMENTS| == 13
  {
    var a: set<string> := {"area", "base", "br", "col", "embed", "hr", "img"};
    var b: set<string> := {"input", "link", "meta", "source", "track", "wbr"};
    VoidSetFirstHalf();
    VoidSetSecondHalf();
    assert a * b == {};
    assert HTML5_VOID_ELEMENTS == a + b;
  }

  lemma VoidSetFirstHalf()
    ensures |{"area", "base", "br", "col", "embed", "hr", "img"}| == 7
  {
    var s: set<string> := {};
    assert "area" !in s;
    s := s + {"area"};
    assert "base" !in s;
    s := s + {"base"};
    assert "br" !in s;
    s := s + {"br"};
    assert "col" !in s;
    s := s + {"col"};
    assert "embed" !in s;
    s := s + {"embed"};
    assert "hr" !in s;
    s := s + {"hr"};
    assert "img" !in s;
    s := s + {"img"};
    assert s == {"area", "base", "br", "col", "embed", "hr", "img"};
  }

  lemma VoidSetSecondHalf()
    ensures |{"input", "link", "meta", "source", "track", "wbr"}| == 6
  {
    var s: set<string> := {};
    assert "input" !in s;
    s := s + {"input"};
    assert "link" !in s;
    s := s + {"link"};
    assert "meta" !in s;
    s := s + {"meta"};
    assert "source" !in s;
    s := s + {"source"};
    assert "track" !in s;
    s := s + {"track"};
    assert "wbr" !in s;
    s := s + {"wbr"};
    assert s == {"input", "link", "meta", "source", "track", "wbr"};
  }

  /** Only the tag matters: attributes, namespaces, text and tail do not change the style. */
  lemma TagStyleDependsOnlyOnTag(strategy: EmptyElementStrategy, a: Node, b: Node)
    requires a.Element? && b.Element? && a.tag == b.tag
    ensures TagStyle(strategy, a) == TagStyle(strategy, b)
  {
  }

  /** Membership is case-sensitive: `BR` is not void. */
  lemma TagStyleCaseSensitive(element: Node)
    requires element.Element? && element.tag == "BR"
    ensures TagStyle(Html5EmptyElementStrategy, element) == EXPLICIT_TAGS
    ensures TagStyle(Html5EmptyElementStrategy, element.(tag := "br")) == VOID_TAG
  {
  }
}
