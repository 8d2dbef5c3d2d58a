// Element predicates (markuplift/predicates.py). A factory is a description of
// a test; preparing it against a document root yields the element test
// `Path -> bool` that the annotation passes call. Construction-time
// validation returns `Err(PredicateError(..))` instead of raising.
module Predicates {
  import opened Wrappers
  import opened Types
  import opened Text
  import opened Tree
  import Utilities

  /** The tests the library's factory functions build. */
  datatype Factory =
    | Tag(tag: string)                        // tag_equals, tag_name
    | TagSet(tags: set<string>)               // tag_in and the html_*_elements tables
    | Class(name: string)                     // has_class
    | Attr(attr: string)                      // has_attribute
    | AttrValue(attr: string, value: string)  // attribute_equals
    | CountAtLeast(min: int)                  // attribute_count_min
    | CountAtMost(max: int)                   // attribute_count_max
    | CountWithin(lo: int, hi: int)           // attribute_count_between
    | CommentNode                             // is_comment
    | PINode(target: Option<string>)          // is_processing_instruction
    | ElementNode                             // is_element
    | SignificantContent                      // has_significant_content
    | NoSignificantContent                    // has_no_significant_content
    | MixedContent                            // has_mixed_content
    | ChildElements                           // has_child_elements
    | Any(fs: seq<Factory>)                   // any_of
    | All(fs: seq<Factory>)                   // all_of
    | Negate(f: Factory)                      // not_matching
    | Never                                   // never_matches
    | Everything                              // any_element
    | Custom(fn: Node -> Path -> bool)        // a user-supplied factory function

  /** A factory returned by a function decorated with `@supports_attributes`. */
  datatype PredicateFactory = PredicateFactory(factory: Factory)

  const HTML_BLOCK_ELEMENTS: set<string> := {
    "address", "article", "aside", "blockquote", "details", "dialog", "dd", "div",
    "dl", "dt", "fieldset", "figcaption", "figure", "footer", "form", "h1", "h2",
    "h3", "h4", "h5", "h6", "header", "hgroup", "hr", "li", "main", "nav", "ol",
    "p", "pre", "section", "table", "tbody", "tfoot", "thead", "tr", "ul"}

  const HTML_INLINE_ELEMENTS: set<string> := {
    "a", "abbr", "b", "bdi", "bdo", "br", "cite", "code", "data", "dfn", "em",
    "i", "kbd", "mark", "q", "ruby", "s", "samp", "small", "span", "strong", "sub",
    "sup", "time", "u", "var", "wbr"}

  const HTML_VOID_ELEMENTS: set<string> := {
    "area", "base", "br", "col", "embed", "hr", "img", "input", "link", "meta",
    "param", "source", "track", "wbr"}

  const HTML_WHITESPACE_SIGNIFICANT: set<string> := {"pre", "style", "script", "textarea", "code"}

  const HTML_METADATA_ELEMENTS: set<string> := {"head", "title", "base", "link", "meta", "style", "script", "noscript"}

  /** `len(element.attrib)`; comments and processing instructions count as having none. */
  function AttrCount(n: Node): nat
  {
    if n.Element? then |n.attrs| else 0
  }

  /** The test of a factory that does not combine others, on the node at `p`. */
  function MatchesNode(f: Factory, root: Node, p: Path): bool
    requires Valid(root, p)
  {
    var n := At(root, p);
    match f
    case Tag(t) => n.Element? && n.tag == t
    case TagSet(ts) => n.Element? && n.tag in ts
    case Class(c) => n.Element? && c in Words(GetAttr(n, "class").GetOr(""))
    case Attr(a) => GetAttr(n, a).Some?
    case AttrValue(a, v) => GetAttr(n, a) == Some(v)
    case CountAtLeast(lo) => AttrCount(n) >= lo
    case CountAtMost(hi) => AttrCount(n) <= hi
    case CountWithin(lo, hi) => lo <= AttrCount(n) <= hi
    case CommentNode => n.Comment?
    case PINode(target) => n.PI? && (target.None? || n.target == target.value)
    case ElementNode => n.Element?
    case SignificantContent => Utilities.HasDirectSignificantText(n)
    case NoSignificantContent => !Utilities.HasDirectSignificantText(n)
    case MixedContent => Utilities.IsInMixedContent(root, p)
    case ChildElements => |Children(n)| > 0
    case Never => false
    case Everything => true
    case Custom(fn) => fn(root)(p)
    case _ => false
  }

  /** The prepared test of `f` for the document `root`, applied to the node at `p`. */
  function Matches(f: Factory, root: Node, p: Path): bool
    decreases f
  {
    if !Valid(root, p) then false
    else
      match f
      case Any(fs) => exists i :: 0 <= i < |fs| && Matches(fs[i], root, p)
      case All(fs) => forall i :: 0 <= i < |fs| ==> Matches(fs[i], root, p)
      case Negate(g) => !Matches(g, root, p)
      case _ => MatchesNode(f, root, p)
  }

  /** `factory(root)`: the element predicate prepared once per document. */
  function Prepare(f: Factory, root: Node): (pred: Path -> bool)
    ensures forall p :: pred(p) == Matches(f, root, p)
  {
    p => Matches(f, root, p)
  }

  // ---------------------------------------------------------------- validation

  /** `_validate_tag_name`: empty names are refused here; lxml's own check is `accepts`. */
  function ValidateTagName(tag: string, accepts: string -> bool): (r: Option<Error>)
    ensures r.None? <==> tag != [] && accepts(tag)
    ensures r.Some? ==> r.value.PredicateError?
  {
    if tag == [] then Some(PredicateError("Tag name cannot be empty"))
    else if !accepts(tag) then Some(PredicateError("Invalid tag name '" + tag + "'"))
    else None
  }

  /** `_validate_attribute_name`. */
  function ValidateAttributeName(attr: string, accepts: string -> bool): (r: Option<Error>)
    ensures r.None? <==> attr != [] && accepts(attr)
    ensures r.Some? ==> r.value.PredicateError?
  {
    if attr == [] then Some(PredicateError("Attribute name cannot be empty"))
    else if !accepts(attr) then Some(PredicateError("Invalid attribute name '" + attr + "'"))
    else None
  }

  // ---------------------------------------------------------------- factory functions

  /** `tag_equals(tag)` (and its alias `tag_name`). */
  function TagEquals(tag: string, accepts: string -> bool): (r: Result<PredicateFactory, Error>)
    ensures r.Ok? <==> tag != [] && accepts(tag)
    ensures r.Err? ==> r.error.PredicateError?
    ensures r.Ok? ==> forall root, p :: Matches(r.value.factory, root, p) <==>
      Valid(root, p) && At(root, p).Element? && At(root, p).tag == tag
  {
    match ValidateTagName(tag, accepts)
    case Some(e) => Err(e)
    case None => Ok(PredicateFactory(Tag(tag)))
  }

  /** The first tag name in `tags` that fails validation, checked in argument order. */
  function FirstInvalidTag(tags: seq<string>, accepts: string -> bool): (r: Option<Error>)
    ensures r.None? <==> forall i :: 0 <= i < |tags| ==> tags[i] != [] && accepts(tags[i])
    ensures r.Some? ==> r.value.PredicateError?
  {
    if tags == [] then None
    else
      match ValidateTagName(tags[0], accepts)
      case Some(e) => Some(e)
      case None => FirstInvalidTag(tags[1..], accepts)
  }

  /**
   * `tag_in(*tags)`: fails at construction when no tag is given or any tag is
   * invalid (an empty one in particular); otherwise tests membership in the tags.
   */
  function TagIn(tags: seq<string>, accepts: string -> bool): (r: Result<PredicateFactory, Error>)
    ensures r.Ok? <==> tags != [] && forall i :: 0 <= i < |tags| ==> tags[i] != [] && accepts(tags[i])
    ensures r.Err? ==> r.error.PredicateError?
    ensures r.Ok? ==> forall root, p :: Matches(r.value.factory, root, p) <==>
      Valid(root, p) && At(root, p).Element? && At(root, p).tag in tags
  {
    if tags == [] then Err(PredicateError("At least one tag name must be provided"))
    else
      match FirstInvalidTag(tags, accepts)
      case Some(e) => Err(e)
      case None => Ok(PredicateFactory(TagSet(set t | t in tags)))
  }

  /** `has_class(class_name)`: never fails at construction. */
  function HasClass(className: string): PredicateFactory
  {
    PredicateFactory(Class(className))
  }

  /**
   * A class test matches exactly the elements whose class attribute, split on
   * whitespace, contains the name; so an empty name, or one containing
   * whitespace, matches nothing.
   */
  lemma HasClassMatches(className: string, root: Node, p: Path)
    requires Valid(root, p)
    ensures Matches(HasClass(className).factory, root, p) <==>
      At(root, p).Element? && className in Words(GetAttr(At(root, p), "class").GetOr(""))
    ensures (className == [] || !NoSpace(className)) ==> !Matches(HasClass(className).factory, root, p)
  {
    var ws := Words(GetAttr(At(root, p), "class").GetOr(""));
    assert Matches(Class(className), root, p) == (At(root, p).Element? && className in ws);
    if className in ws {
      var i :| 0 <= i < |ws| && ws[i] == className;
      assert ws[i] != [] && NoSpace(ws[i]);
    }
  }

  /** `has_attribute(attr)`. */
  function HasAttribute(attr: string, accepts: string -> bool): (r: Result<PredicateFactory, Error>)
    ensures r.Ok? <==> attr != [] && accepts(attr)
    ensures r.Err? ==> r.error.PredicateError?
    ensures r.Ok? ==> forall root, p :: Matches(r.value.factory, root, p) <==>
      Valid(root, p) && At(root, p).Element? && exists i :: 0 <= i < |At(root, p).attrs| && At(root, p).attrs[i].0 == attr
  {
    match ValidateAttributeName(attr, accepts)
    case Some(e) => Err(e)
    case None => Ok(PredicateFactory(Attr(attr)))
  }

  /** `attribute_equals(attr, value)`. */
  function AttributeEquals(attr: string, value: string, accepts: string -> bool): (r: Result<Factory, Error>)
    ensures r.Ok? <==> attr != [] && accepts(attr)
    ensures r.Err? ==> r.error.PredicateError?
    ensures r.Ok? ==> forall root, p :: Matches(r.value, root, p) ==>
      Valid(root, p) && At(root, p).Element? &&
      exists i :: 0 <= i < |At(root, p).attrs| && At(root, p).attrs[i] == (attr, value)
  {
    match ValidateAttributeName(attr, accepts)
    case Some(e) => Err(e)
    case None => Ok(AttrValue(attr, value))
  }

  /** `attribute_count_min(min_count)`. */
  function AttributeCountMin(minCount: int): (r: Result<Factory, Error>)
    ensures r.Ok? <==> minCount >= 0
    ensures r.Err? ==> r.error.PredicateError?
  {
    if minCount < 0 then Err(PredicateError("Minimum count must be non-negative, got " + IntToString(minCount)))
    else Ok(CountAtLeast(minCount))
  }

  /** `attribute_count_max(max_count)`. */
  function AttributeCountMax(maxCount: int): (r: Result<Factory, Error>)
    ensures r.Ok? <==> maxCount >= 0
    ensures r.Err? ==> r.error.PredicateError?
  {
    if maxCount < 0 then Err(PredicateError("Maximum count must be non-negative, got " + IntToString(maxCount)))
    else Ok(CountAtMost(maxCount))
  }

  /** `attribute_count_between(min_count, max_count)`. */
  function AttributeCountBetween(minCount: int, maxCount: int): (r: Result<Factory, Error>)
    ensures r.Ok? <==> 0 <= minCount <= maxCount
    ensures r.Err? ==> r.error.PredicateError?
  {
    if minCount < 0 then Err(PredicateError("Minimum count must be non-negative, got " + IntToString(minCount)))
    else if maxCount < 0 then Err(PredicateError("Maximum count must be non-negative, got " + IntToString(maxCount)))
    else if minCount > maxCount then
      Err(PredicateError("Minimum count (" + IntToString(minCount) + ") cannot be greater than maximum count ("
                         + IntToString(maxCount) + ")"))
    else Ok(CountWithin(minCount, maxCount))
  }

  /**
   * A valid range tests `min <= count <= max`, and agrees everywhere with
   * requiring both the minimum and the maximum.
   */
  lemma CountBetweenIsBoth(minCount: int, maxCount: int, root: Node, p: Path)
    requires AttributeCountBetween(minCount, maxCount).Ok?
    ensures AttributeCountMin(minCount).Ok? && AttributeCountMax(maxCount).Ok?
    ensures Matches(AttributeCountBetween(minCount, maxCount).value, root, p) <==>
      Valid(root, p) && minCount <= AttrCount(At(root, p)) <= maxCount
    ensures Matches(AttributeCountBetween(minCount, maxCount).value, root, p) <==>
      Matches(All([AttributeCountMin(minCount).value, AttributeCountMax(maxCount).value]), root, p)
  {
    var both := [AttributeCountMin(minCount).value, AttributeCountMax(maxCount).value];
    if Valid(root, p) {
      assert Matches(All(both), root, p) <==> Matches(both[0], root, p) && Matches(both[1], root, p);
    }
  }

  /** `is_processing_instruction(target)`: an empty target is refused; None accepts any target. */
  function IsProcessingInstruction(target: Option<string>): (r: Result<Factory, Error>)
    ensures r.Ok? <==> target != Some("")
    ensures r.Err? ==> r.error.PredicateError?
  {
    if target == Some("") then Err(PredicateError("Processing instruction target cannot be empty (use None for any target)"))
    else Ok(PINode(target))
  }

  /** `is_comment`, `is_processing_instruction()` and `is_element` split the nodes into three kinds. */
  lemma NodeKindsPartition(root: Node, p: Path)
    requires Valid(root, p)
    ensures Matches(CommentNode, root, p) || Matches(PINode(None), root, p) || Matches(ElementNode, root, p)
    ensures !(Matches(CommentNode, root, p) && Matches(PINode(None), root, p))
    ensures !(Matches(CommentNode, root, p) && Matches(ElementNode, root, p))
    ensures !(Matches(PINode(None), root, p) && Matches(ElementNode, root, p))
  {
  }

  /** The HTML tag tables of `html_block_elements` and `html_inline_elements` share no name. */
  lemma HtmlBlockInlineDisjoint(root: Node, p: Path)
    ensures !(Matches(TagSet(HTML_BLOCK_ELEMENTS), root, p) && Matches(TagSet(HTML_INLINE_ELEMENTS), root, p))
  {
    if Valid(root, p) && At(root, p).Element? {
      TagTablesDisjoint(At(root, p).tag);
    }
  }

  lemma TagTablesDisjoint(t: string)
    ensures !(t in HTML_BLOCK_ELEMENTS && t in HTML_INLINE_ELEMENTS)
  {
  }

  // ---------------------------------------------------------------- combinators

  /** `any_of(*factories)`. */
  function AnyOf(fs: seq<Factory>): (r: Factory)
    ensures forall root, p :: Matches(r, root, p) <==> Valid(root, p) && exists i :: 0 <= i < |fs| && Matches(fs[i], root, p)
  {
    Any(fs)
  }

  /** `all_of(*factories)`. */
  function AllOf(fs: seq<Factory>): (r: Factory)
    ensures forall root, p :: Matches(r, root, p) <==> Valid(root, p) && forall i :: 0 <= i < |fs| ==> Matches(fs[i], root, p)
  {
    All(fs)
  }

  /** `not_matching(factory)`. */
  function NotMatching(f: Factory): (r: Factory)
    ensures forall root, p :: Valid(root, p) ==> (Matches(r, root, p) <==> !Matches(f, root, p))
  {
    Negate(f)
  }

  /** `any_of()` with no factories never matches; `all_of()` with none matches every node. */
  lemma EmptyCombinators(root: Node, p: Path)
    requires Valid(root, p)
    ensures !Matches(AnyOf([]), root, p)
    ensures Matches(AllOf([]), root, p)
  {
  }

  /** Negating twice gives back the original test on every node. */
  lemma NotNot(f: Factory, root: Node, p: Path)
    requires Valid(root, p)
    ensures Matches(NotMatching(NotMatching(f)), root, p) == Matches(f, root, p)
  {
  }

  /** `never_match` / `never_matches`: false for every node of every document. */
  lemma NeverMatches(root: Node, p: Path)
    ensures !Prepare(Never, root)(p)
  {
  }

  // ---------------------------------------------------------------- attribute matchers

  /** What a user callable does when called. */
  datatype PyValue = PyBool(b: bool) | PyOther(typeName: string)
  datatype CallOutcome = Returned(v: PyValue) | Raised(msg: string)

  /** The argument passed as a name or value matcher (regular expressions are not modelled). */
  datatype MatcherArg =
    | NoneArg
    | StrArg(s: string)
    | CallableArg(call: string -> CallOutcome)
    | OtherArg(typeName: string)

  /** The matcher `_create_matcher` builds. */
  datatype Matcher = MatchAnything | MatchExactly(s: string) | MatchCalling(call: string -> CallOutcome, matcherName: string)

  /** `_create_matcher(value, matcher_name, allow_none)`. */
  function CreateMatcher(value: MatcherArg, matcherName: string, allowNone: bool): (r: Result<Matcher, Error>)
    ensures value.NoneArg? ==> (if allowNone then r == Ok(MatchAnything) else r.Err? && r.error.TypeError?)
    ensures value.StrArg? ==> r == Ok(MatchExactly(value.s))
    ensures value.OtherArg? ==> r.Err? && r.error.TypeError?
    ensures value.CallableArg? ==> r == Ok(MatchCalling(value.call, matcherName))
  {
    match value
    case NoneArg =>
      if allowNone then Ok(MatchAnything) else Err(TypeError(matcherName + " cannot be None"))
    case StrArg(s) => Ok(MatchExactly(s))
    case CallableArg(call) => Ok(MatchCalling(call, matcherName))
    case OtherArg(t) =>
      Err(TypeError(matcherName + " must be str, re.Pattern, or callable" + (if allowNone then ", or None" else "") + ", got " + t))
  }

  /**
   * Applying a matcher: equality for a string, anything for None, and for a
   * callable its boolean result; a non-bool result or an exception becomes
   * a RuntimeError whose message names the matcher.
   */
  function RunMatcher(m: Matcher, s: string): (r: Result<bool, Error>)
    ensures m.MatchAnything? ==> r == Ok(true)
    ensures m.MatchExactly? ==> r == Ok(s == m.s)
    ensures m.MatchCalling? ==> (r.Ok? <==> m.call(s).Returned? && m.call(s).v.PyBool?)
    ensures m.MatchCalling? && r.Ok? ==> r.value == m.call(s).v.b
    ensures r.Err? ==> r.error.RuntimeError?
    ensures m.MatchCalling? && r.Err? ==> "Error in " + m.matcherName + " matcher function: " <= r.error.msg
  {
    match m
    case MatchAnything => Ok(true)
    case MatchExactly(v) => Ok(s == v)
    case MatchCalling(call, name) =>
      match call(s)
      case Returned(PyBool(b)) => Ok(b)
      case Returned(PyOther(t)) =>
        Err(RuntimeError("Error in " + name + " matcher function: Matcher function must return bool, got " + t))
      case Raised(msg) => Err(RuntimeError("Error in " + name + " matcher function: " + msg))
  }

  /** An attribute predicate factory: an optional element test, then name and value matchers. */
  datatype AttrFactory = AttrFactory(element: Option<Factory>, name: Matcher, value: Matcher)

  /** Building both matchers; the name matcher's error is reported first. */
  function BuildAttrFactory(element: Option<Factory>, name: MatcherArg, value: MatcherArg): (r: Result<AttrFactory, Error>)
    ensures r.Ok? <==> CreateMatcher(name, "attribute_name", false).Ok? && CreateMatcher(value, "attribute_value", true).Ok?
    ensures r.Ok? ==> r.value == AttrFactory(element, CreateMatcher(name, "attribute_name", false).value,
                                              CreateMatcher(value, "attribute_value", true).value)
  {
    match CreateMatcher(name, "attribute_name", false)
    case Err(e) => Err(e)
    case Ok(nm) =>
      match CreateMatcher(value, "attribute_value", true)
      case Err(e) => Err(e)
      case Ok(vm) => Ok(AttrFactory(element, nm, vm))
  }

  /** `PredicateFactory.with_attribute(name, value)`. */
  function WithAttribute(pf: PredicateFactory, name: MatcherArg, value: MatcherArg): Result<AttrFactory, Error>
  {
    BuildAttrFactory(Some(pf.factory), name, value)
  }

  /** `attribute_matches(name, value)`: the same matchers with no element test. */
  function AttributeMatches(name: MatcherArg, value: MatcherArg): Result<AttrFactory, Error>
  {
    BuildAttrFactory(None, name, value)
  }

  /**
   * The prepared attribute predicate, evaluated left to right with Python's
   * short-circuit `and`: a failing element test never calls the matchers.
   */
  function AttrMatches(af: AttrFactory, root: Node, p: Path, attrName: string, attrValue: string): Result<bool, Error>
  {
    if af.element.Some? && !Matches(af.element.value, root, p) then Ok(false)
    else
      match RunMatcher(af.name, attrName)
      case Err(e) => Err(e)
      case Ok(false) => Ok(false)
      case Ok(true) => RunMatcher(af.value, attrValue)
  }

  /**
   * The `with_attribute` predicate holds iff the element test, the name
   * matcher and the value matcher all hold; an element that fails the test
   * gives False without calling any matcher.
   */
  lemma WithAttributeIff(pf: PredicateFactory, name: MatcherArg, value: MatcherArg,
                         root: Node, p: Path, attrName: string, attrValue: string)
    requires WithAttribute(pf, name, value).Ok?
    ensures var af := WithAttribute(pf, name, value).value;
      AttrMatches(af, root, p, attrName, attrValue) == Ok(true) <==>
        Matches(pf.factory, root, p) && RunMatcher(af.name, attrName) == Ok(true) && RunMatcher(af.value, attrValue) == Ok(true)
    ensures !Matches(pf.factory, root, p) ==> AttrMatches(WithAttribute(pf, name, value).value, root, p, attrName, attrValue) == Ok(false)
    ensures name.StrArg? && value.NoneArg? ==>
      (AttrMatches(WithAttribute(pf, name, value).value, root, p, attrName, attrValue) == Ok(true) <==>
        Matches(pf.factory, root, p) && attrName == name.s)
  {
  }

  /** `any_element().with_attribute(n, v)` and `attribute_matches(n, v)` agree on every attribute. */
  lemma AnyElementIsAttributeMatches(name: MatcherArg, value: MatcherArg,
                                      root: Node, p: Path, attrName: string, attrValue: string)
    requires Valid(root, p)
    requires AttributeMatches(name, value).Ok?
    ensures WithAttribute(PredicateFactory(Everything), name, value).Ok?
    ensures AttrMatches(WithAttribute(PredicateFactory(Everything), name, value).value, root, p, attrName, attrValue)
         == AttrMatches(AttributeMatches(name, value).value, root, p, attrName, attrValue)
  {
  }
}
