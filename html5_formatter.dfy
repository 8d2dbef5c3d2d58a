// markuplift/html5_formatter.py: `Html5Formatter` wires HTML5 defaults and
// strategies into a `Formatter`, re-derives itself keeping its settings,
// and locates an element by its element-only child indices.
module Html5Formatter {
  import opened Wrappers
  import opened Types
  import opened Tree
  import Predicates
  import Doctype
  import AttributeFormatting
  import F = Formatter

  /** The keyword arguments of `Html5Formatter.__init__` and `derive` that this model keeps. */
  datatype Arguments = Arguments(
    blockWhen: Option<Predicates.Factory>,
    inlineWhen: Option<Predicates.Factory>,
    normalizeWhitespaceWhen: Option<Predicates.Factory>,
    stripWhitespaceWhen: Option<Predicates.Factory>,
    preserveWhitespaceWhen: Option<Predicates.Factory>,
    wrapAttributesWhen: Option<Predicates.Factory>,
    reformatTextWhen: Option<F.TextFactories>,
    reformatAttributeWhen: Option<F.AttributeFactories>,
    parseAsXmlWhen: Option<Predicates.Factory>,
    indentSize: Option<int>,
    defaultType: Option<ElementType>,
    preserveCdata: Option<bool>)

  const NoArguments: Arguments := Arguments(None, None, None, None, None, None, None, None, None, None, None, None)

  /** An `Html5Formatter`: the wrapped formatter and the XML-reparse factory. */
  datatype Html5Formatter = Html5Formatter(formatter: F.Formatter, parseAsXmlWhen: Option<Predicates.Factory>)

  /** `html_block_elements()`. */
  const HtmlBlockElements: Predicates.Factory := Predicates.TagSet(Predicates.HTML_BLOCK_ELEMENTS)

  /** `html_inline_elements()`. */
  const HtmlInlineElements: Predicates.Factory := Predicates.TagSet(Predicates.HTML_INLINE_ELEMENTS)

  /** `html_whitespace_significant_elements()`. */
  const HtmlWhitespaceSignificant: Predicates.Factory := Predicates.TagSet(Predicates.HTML_WHITESPACE_SIGNIFICANT)

  /** The default strip rule: block elements that are not whitespace-significant. */
  const HtmlStripDefault: Predicates.Factory :=
    Predicates.AllOf([HtmlBlockElements, Predicates.NotMatching(HtmlWhitespaceSignificant)])

  /**
   * The `Formatter` arguments `__init__` builds: each classification and
   * whitespace factory given as None replaced by its HTML5 default
   * (`normalizeDefault` stands for `html_normalize_whitespace()`), and the
   * HTML escaping, parsing, doctype and attribute strategies fixed.
   */
  function FormatterArguments(a: Arguments, normalizeDefault: Predicates.Factory): F.Arguments
  {
    F.Arguments(
      Some(a.blockWhen.GetOr(HtmlBlockElements)),
      Some(a.inlineWhen.GetOr(HtmlInlineElements)),
      Some(a.normalizeWhitespaceWhen.GetOr(normalizeDefault)),
      Some(a.stripWhitespaceWhen.GetOr(HtmlStripDefault)),
      Some(a.preserveWhitespaceWhen.GetOr(HtmlWhitespaceSignificant)),
      a.wrapAttributesWhen,
      a.reformatTextWhen,
      a.reformatAttributeWhen,
      Some(F.HtmlEscapingStrategy),
      Some(F.HtmlParsingStrategy(a.preserveCdata.GetOr(true))),
      Some(Doctype.Html5DoctypeStrategy),
      Some(AttributeFormatting.Html5AttributeStrategy),
      a.indentSize,
      a.defaultType,
      a.preserveCdata)
  }

  /**
   * `Html5Formatter.__init__` as written, `reorderGiven` telling whether
   * `reorder_attributes_when` was passed. Without it, the default imports
   * `html_attribute_order`, which `attribute_formatting` does not define, so
   * the call raises ImportError. With it, the call reaches `Formatter(...)`,
   * which accepts neither `reorder_attributes_when` nor
   * `empty_element_strategy` and raises TypeError on the first of them.
   */
  function NewHtml5FormatterAsWritten(a: Arguments, reorderGiven: bool, normalizeDefault: Predicates.Factory)
    : (r: Result<Html5Formatter, Error>)
    ensures !reorderGiven ==> r.Err? && r.error.ImportError?
    ensures reorderGiven ==> r.Err? && r.error.TypeError?
  {
    if !reorderGiven then
      Err(ImportError("cannot import name 'html_attribute_order' from 'markuplift.attribute_formatting'"))
    else
      Err(TypeError("Formatter.__init__() got an unexpected keyword argument 'reorder_attributes_when'"))
  }

  /** `Html5Formatter.__init__` with only the arguments `Formatter` accepts, built as intended. */
  function NewHtml5Formatter(a: Arguments, normalizeDefault: Predicates.Factory): (r: Result<Html5Formatter, Error>)
    ensures r.Ok? <==> F.IndentSize(a.indentSize) >= 0
    ensures r.Ok? ==> Html5Shaped(r.value) && r.value.parseAsXmlWhen == a.parseAsXmlWhen
  {
    match F.NewFormatter(FormatterArguments(a, normalizeDefault))
    case Err(e) => Err(e)
    case Ok(f) => Ok(Html5Formatter(f, a.parseAsXmlWhen))
  }

  /**
   * `Html5Formatter()` fails with ImportError as written, and with the
   * reorder table given it fails with TypeError; as intended
   * (`NewHtml5Formatter`) it succeeds, see `OmittedIndentAccepted`.
   */
  lemma DefaultHtml5FormatterRefused(normalizeDefault: Predicates.Factory)
    ensures NewHtml5FormatterAsWritten(NoArguments, false, normalizeDefault).Err?
    ensures NewHtml5FormatterAsWritten(NoArguments, false, normalizeDefault).error.ImportError?
    ensures NewHtml5FormatterAsWritten(NoArguments, true, normalizeDefault).Err?
    ensures NewHtml5FormatterAsWritten(NoArguments, true, normalizeDefault).error.TypeError?
  {
  }

  /** A call that leaves the indent out is accepted as intended: the indent becomes 2. */
  lemma OmittedIndentAccepted(a: Arguments, normalizeDefault: Predicates.Factory)
    requires a.indentSize.None?
    ensures NewHtml5Formatter(a, normalizeDefault).Ok?
    ensures NewHtml5Formatter(a, normalizeDefault).value.formatter.indentSize == 2
  {
    assert F.IndentSize(a.indentSize) == 2;
  }

  /** What every constructed `Html5Formatter` keeps: the HTML5 strategies and a valid formatter. */
  predicate Html5Shaped(h: Html5Formatter)
  {
    var f := h.formatter;
    F.WellFormed(f) && f.escapingStrategy == F.HtmlEscapingStrategy && f.parsingStrategy.HtmlParsingStrategy?
    && f.doctypeStrategy == Doctype.Html5DoctypeStrategy && f.attributeStrategy == AttributeFormatting.Html5AttributeStrategy
  }

  /**
   * Classification and whitespace factories given as None take the HTML5
   * defaults; factories given are kept.
   */
  lemma Html5Defaults(a: Arguments, normalizeDefault: Predicates.Factory)
    requires NewHtml5Formatter(a, normalizeDefault).Ok?
    ensures var f := NewHtml5Formatter(a, normalizeDefault).value.formatter;
      f.blockWhen == a.blockWhen.GetOr(HtmlBlockElements)
      && f.inlineWhen == a.inlineWhen.GetOr(HtmlInlineElements)
      && f.normalizeWhitespaceWhen == a.normalizeWhitespaceWhen.GetOr(normalizeDefault)
      && f.stripWhitespaceWhen == a.stripWhitespaceWhen.GetOr(HtmlStripDefault)
      && f.preserveWhitespaceWhen == a.preserveWhitespaceWhen.GetOr(HtmlWhitespaceSignificant)
      && f.wrapAttributesWhen == a.wrapAttributesWhen.GetOr(Predicates.Never)
      && f.PreserveCdata() == a.preserveCdata.GetOr(true)
  {
  }

  /**
   * The default strip rule holds exactly on elements whose tag is an HTML
   * block tag but not a whitespace-significant one (so not on `pre`).
   */
  lemma StripDefaultMeaning(root: Node, p: Path)
    ensures Predicates.Matches(HtmlStripDefault, root, p)
        <==> Valid(root, p) && At(root, p).Element?
             && At(root, p).tag in Predicates.HTML_BLOCK_ELEMENTS
             && At(root, p).tag !in Predicates.HTML_WHITESPACE_SIGNIFICANT
    ensures Valid(root, p) && At(root, p).Element? && At(root, p).tag == "pre" ==> !Predicates.Matches(HtmlStripDefault, root, p)
  {
    var fs := [HtmlBlockElements, Predicates.NotMatching(HtmlWhitespaceSignificant)];
    assert Predicates.Matches(HtmlStripDefault, root, p)
        <==> Valid(root, p) && Predicates.Matches(fs[0], root, p) && Predicates.Matches(fs[1], root, p);
  }

  // ---------------------------------------------------------------- derive

  /** Each argument of `derive`, or the current setting when it is None. */
  function DeriveArguments(h: Html5Formatter, d: Arguments): Arguments
  {
    var f := h.formatter;
    Arguments(
      Some(d.blockWhen.GetOr(f.blockWhen)),
      Some(d.inlineWhen.GetOr(f.inlineWhen)),
      Some(d.normalizeWhitespaceWhen.GetOr(f.normalizeWhitespaceWhen)),
      Some(d.stripWhitespaceWhen.GetOr(f.stripWhitespaceWhen)),
      Some(d.preserveWhitespaceWhen.GetOr(f.preserveWhitespaceWhen)),
      Some(d.wrapAttributesWhen.GetOr(f.wrapAttributesWhen)),
      Some(d.reformatTextWhen.GetOr(f.reformatTextWhen)),
      Some(d.reformatAttributeWhen.GetOr(f.reformatAttributeWhen)),
      if d.parseAsXmlWhen.Some? then d.parseAsXmlWhen else h.parseAsXmlWhen,
      Some(d.indentSize.GetOr(f.indentSize)),
      Some(d.defaultType.GetOr(f.defaultType)),
      Some(d.preserveCdata.GetOr(f.PreserveCdata())))
  }

  /** `derive(...)`: a new `Html5Formatter` from the merged arguments. */
  function Derive(h: Html5Formatter, d: Arguments, normalizeDefault: Predicates.Factory): Result<Html5Formatter, Error>
  {
    NewHtml5Formatter(DeriveArguments(h, d), normalizeDefault)
  }

  /**
   * `derive` keeps the current value of every argument given as None, and
   * takes every argument given; unlike `Formatter.derive`, a given
   * `preserve_cdata` takes effect because the parsing strategy is rebuilt.
   */
  lemma DeriveKeepsUnset(h: Html5Formatter, d: Arguments, normalizeDefault: Predicates.Factory)
    ensures Derive(h, d, normalizeDefault).Ok? <==> d.indentSize.GetOr(h.formatter.indentSize) >= 0
    ensures Derive(h, d, normalizeDefault).Ok? ==>
      var g := Derive(h, d, normalizeDefault).value;
      var f := h.formatter;
      g.formatter.blockWhen == d.blockWhen.GetOr(f.blockWhen)
      && g.formatter.inlineWhen == d.inlineWhen.GetOr(f.inlineWhen)
      && g.formatter.normalizeWhitespaceWhen == d.normalizeWhitespaceWhen.GetOr(f.normalizeWhitespaceWhen)
      && g.formatter.stripWhitespaceWhen == d.stripWhitespaceWhen.GetOr(f.stripWhitespaceWhen)
      && g.formatter.preserveWhitespaceWhen == d.preserveWhitespaceWhen.GetOr(f.preserveWhitespaceWhen)
      && g.formatter.wrapAttributesWhen == d.wrapAttributesWhen.GetOr(f.wrapAttributesWhen)
      && g.formatter.reformatTextWhen == d.reformatTextWhen.GetOr(f.reformatTextWhen)
      && g.formatter.reformatAttributeWhen == d.reformatAttributeWhen.GetOr(f.reformatAttributeWhen)
      && g.formatter.indentSize == d.indentSize.GetOr(f.indentSize)
      && g.formatter.defaultType == d.defaultType.GetOr(f.defaultType)
      && g.formatter.PreserveCdata() == d.preserveCdata.GetOr(f.PreserveCdata())
      && g.parseAsXmlWhen == (if d.parseAsXmlWhen.Some? then d.parseAsXmlWhen else h.parseAsXmlWhen)
  {
  }

  /** `derive()` with no arguments gives back an equal formatter. */
  lemma DeriveNothing(h: Html5Formatter, normalizeDefault: Predicates.Factory)
    requires Html5Shaped(h)
    ensures Derive(h, NoArguments, normalizeDefault) == Ok(h)
  {
  }

  // ---------------------------------------------------------------- _get_element_path

  /** The element children among `s`, in order: comments and processing instructions dropped. */
  function Elements(s: seq<Node>): (r: seq<Node>)
    ensures |r| <= |s|
    ensures forall i :: 0 <= i < |r| ==> r[i].Element?
  {
    if s == [] then [] else (if s[0].Element? then [s[0]] else []) + Elements(s[1..])
  }

  lemma {:induction false} ElementsAppend(a: seq<Node>, b: seq<Node>)
    ensures Elements(a + b) == Elements(a) + Elements(b)
  {
    if a == [] {
      assert a + b == b;
    } else {
      assert (a + b)[1..] == a[1..] + b;
      ElementsAppend(a[1..], b);
    }
  }

  /** An element child's element-only index is the number of element children before it. */
  lemma ElementIndex(s: seq<Node>, i: nat)
    requires i < |s| && s[i].Element?
    ensures |Elements(s[..i])| < |Elements(s)|
    ensures Elements(s)[|Elements(s[..i])|] == s[i]
  {
    assert s == s[..i] + s[i..];
    ElementsAppend(s[..i], s[i..]);
    assert s[i..][0] == s[i];
  }

  /** The element-only index of the child `i` of a node. */
  function ChildElementIndex(n: Node, i: nat): nat
    requires i <= |Children(n)|
  {
    |Elements(Children(n)[..i])|
  }

  /**
   * The element-only path to the node reached by the child indices `rel`,
   * after the indices `acc`: the walk only enters elements, so a comment or
   * processing instruction on the way gives None.
   */
  function ElementPathFrom(n: Node, rel: Path, acc: seq<nat>): Option<seq<nat>>
    decreases |rel|
  {
    if rel == [] then Some(acc)
    else if rel[0] < |Children(n)| && Children(n)[rel[0]].Element? then
      ElementPathFrom(Children(n)[rel[0]], rel[1..], acc + [ChildElementIndex(n, rel[0])])
    else None
  }

  /** The path `_get_element_path(root, target)` returns for the node at `target`. */
  function ElementPath(root: Node, target: Path): Option<seq<nat>>
  {
    ElementPathFrom(root, target, [])
  }

  /** What `walk(elem, path)` returns when `elem` is the node at `here`. */
  function WalkSpec(n: Node, here: Path, target: Path, path: seq<nat>): Option<seq<nat>>
  {
    if here <= target then ElementPathFrom(n, target[|here|..], path) else None
  }

  /** The walk of `n` has not passed the child the target lies under, or finds nothing there. */
  predicate NotPassed(n: Node, here: Path, target: Path, path: seq<nat>, i: nat)
  {
    here < target && target[|here|] < i ==> WalkSpec(n, here, target, path).None?
  }

  /** Walking into the element child `i` finds what the walk of its parent finds through it. */
  lemma WalkChild(n: Node, here: Path, target: Path, path: seq<nat>, i: nat)
    requires n.Element? && i < |n.children| && n.children[i].Element?
    requires here + [i] <= target
    ensures WalkSpec(n, here, target, path) == WalkSpec(n.children[i], here + [i], target, path + [ChildElementIndex(n, i)])
  {
    assert here <= target;
    var rel := target[|here|..];
    assert rel[0] == i;
    assert rel[1..] == target[|here + [i]|..];
  }

  /** A child that yields nothing moves the walk past it. */
  lemma WalkPast(n: Node, here: Path, target: Path, path: seq<nat>, i: nat)
    requires n.Element? && i < |n.children| && NotPassed(n, here, target, path, i)
    requires n.children[i].Element? ==>
      WalkSpec(n.children[i], here + [i], target, path + [ChildElementIndex(n, i)]).None?
    ensures NotPassed(n, here, target, path, i + 1)
  {
    if here < target && target[|here|] == i {
      assert here + [i] <= target;
      if n.children[i].Element? {
        WalkChild(n, here, target, path, i);
      } else {
        assert target[|here|..][0] == i;
      }
    }
  }

  /** Past the last child, the walk of a node other than the target finds nothing. */
  lemma WalkDone(n: Node, here: Path, target: Path, path: seq<nat>)
    requires n.Element? && here != target && NotPassed(n, here, target, path, |n.children|)
    ensures WalkSpec(n, here, target, path).None?
  {
    if here < target {
      assert target[|here|..][0] == target[|here|];
    }
  }

  /** One more child counted: the element-only index moves on exactly past elements. */
  lemma CountStep(n: Node, i: nat)
    requires n.Element? && i < |n.children|
    ensures ChildElementIndex(n, i + 1) == ChildElementIndex(n, i) + (if n.children[i].Element? then 1 else 0)
  {
    assert n.children[..i + 1] == n.children[..i] + [n.children[i]];
    ElementsAppend(n.children[..i], [n.children[i]]);
  }

  /**
   * `walk`: stop at the target; otherwise visit the children in order,
   * numbering only elements, and return the first path found.
   */
  method Walk(n: Node, here: Path, target: Path, path: seq<nat>) returns (r: Option<seq<nat>>)
    ensures r == WalkSpec(n, here, target, path)
    decreases n
  {
    if here == target {
      return Some(path);
    }
    if !n.Element? {
      return None;
    }
    var elementIndex := 0;
    var i := 0;
    while i < |n.children|
      invariant 0 <= i <= |n.children|
      invariant elementIndex == ChildElementIndex(n, i)
      invariant NotPassed(n, here, target, path, i)
    {
      var child := n.children[i];
      CountStep(n, i);
      if child.Element? {
        var result := Walk(child, here + [i], target, path + [elementIndex]);
        if result.Some? {
          WalkChild(n, here, target, path, i);
          return result;
        }
        elementIndex := elementIndex + 1;
      }
      WalkPast(n, here, target, path, i);
      i := i + 1;
    }
    WalkDone(n, here, target, path);
    return None;
  }

  /** `_get_element_path(root, target)`. */
  method GetElementPath(root: Node, target: Path) returns (r: Option<seq<nat>>)
    ensures r == ElementPath(root, target)
  {
    r := Walk(root, [], target, []);
  }

  /** The root's path is empty. */
  lemma RootPath(root: Node)
    ensures ElementPath(root, []) == Some([])
  {
  }

  /**
   * A path is found exactly for the root and for the elements of the tree;
   * a missing node, a comment or a processing instruction gives None.
   */
  lemma {:induction false} ElementPathFound(n: Node, rel: Path, acc: seq<nat>)
    ensures ElementPathFrom(n, rel, acc).Some? <==> Valid(n, rel) && (rel == [] || At(n, rel).Element?)
    decreases |rel|
  {
    if rel != [] && rel[0] < |Children(n)| {
      var c := Children(n)[rel[0]];
      ElementPathFound(c, rel[1..], acc + [ChildElementIndex(n, rel[0])]);
      if !c.Element? && rel[1..] != [] {
        assert Children(c) == [];
      }
    }
  }

  /** The node reached from `n` by element-only child indices. */
  function FollowElements(n: Node, ep: seq<nat>): Option<Node>
    decreases |ep|
  {
    if ep == [] then Some(n)
    else if ep[0] < |Elements(Children(n))| then FollowElements(Elements(Children(n))[ep[0]], ep[1..])
    else None
  }

  /** A found path extends `acc` by one element-only index per level, none above its child index. */
  lemma {:induction false} ElementPathShape(n: Node, rel: Path, acc: seq<nat>)
    requires ElementPathFrom(n, rel, acc).Some?
    ensures var r := ElementPathFrom(n, rel, acc).value;
      |r| == |acc| + |rel| && r[..|acc|] == acc
      && forall k :: 0 <= k < |rel| ==> r[|acc| + k] <= rel[k]
    decreases |rel|
  {
    if rel != [] {
      var c := Children(n)[rel[0]];
      var e := ChildElementIndex(n, rel[0]);
      ElementPathShape(c, rel[1..], acc + [e]);
      var r := ElementPathFrom(c, rel[1..], acc + [e]).value;
      assert r[..|acc|] == (acc + [e])[..|acc|];
      assert r[|acc|] == (acc + [e])[|acc|];
      forall k | 0 <= k < |rel|
        ensures r[|acc| + k] <= rel[k]
      {
        if k > 0 {
          assert r[|acc| + k] == r[|acc + [e]| + (k - 1)];
          assert rel[k] == rel[1..][k - 1];
        }
      }
    }
  }

  /** Following a found path by element-only indices reaches the node the child indices reach. */
  lemma {:induction false} ElementPathFollow(n: Node, rel: Path, acc: seq<nat>)
    requires ElementPathFrom(n, rel, acc).Some?
    ensures |ElementPathFrom(n, rel, acc).value| >= |acc|
    ensures FollowElements(n, ElementPathFrom(n, rel, acc).value[|acc|..]) == NodeAt(n, rel)
    decreases |rel|
  {
    ElementPathShape(n, rel, acc);
    if rel != [] {
      var c := Children(n)[rel[0]];
      var e := ChildElementIndex(n, rel[0]);
      ElementPathFollow(c, rel[1..], acc + [e]);
      ElementPathShape(c, rel[1..], acc + [e]);
      ElementIndex(Children(n), rel[0]);
      var r := ElementPathFrom(c, rel[1..], acc + [e]).value;
      var ep := r[|acc|..];
      assert ep[0] == (acc + [e])[|acc|];
      assert ep[1..] == r[|acc + [e]|..];
    }
  }

  /** `_get_element_path` as its callers use it: the returned path leads back to the target. */
  lemma GetElementPathRoundTrip(root: Node, target: Path)
    requires ElementPath(root, target).Some?
    ensures |ElementPath(root, target).value| == |target|
    ensures FollowElements(root, ElementPath(root, target).value) == NodeAt(root, target)
  {
    ElementPathShape(root, target, []);
    ElementPathFollow(root, target, []);
    assert ElementPath(root, target).value[0..] == ElementPath(root, target).value;
  }
}
