// markuplift/document_formatter.py, second half: writing the annotated
// tree. `_format_element` walks the document-order events of `iterwalk`
// and appends each event's markup; `Render` is the specification of what
// that walk writes, given node by node, and `WriteElement` is proved to
// write exactly it. `format_tree` adds the declaration, the doctype and
// the comments and PIs before the root.
module DocumentRendering {
  import opened Wrappers
  import opened Types
  import opened Text
  import opened Tree
  import opened Annotation
  import opened AnnotationLayout
  import opened SaxUtils
  import Transforms
  import Namespace
  import AttributeFormatting
  import AnnotationPasses
  import DocumentFormatter

  type Formatter = DocumentFormatter.DocumentFormatter

  // ---------------------------------------------------------------- text and tail

  /** A stored transform list; anything other than a list counts as the empty default. */
  function TransformsIn(v: Value): seq<Transform>
  {
    if v.VTransforms? then v.ts else []
  }

  /** `annotations.annotation(node, "physical_level", 0)`. */
  function LevelAt(t: Table, p: Path): int
  {
    LevelOf(Get(t, p, PHYSICAL_LEVEL_KEY, VInt(0)))
  }

  /** The first text formatter, from position `k`, whose predicate accepts the node. */
  function FirstTextFormatterFrom(fs: DocumentFormatter.TextFormatters, k: nat, p: Path): (r: Option<nat>)
    requires k <= |fs|
    ensures r.Some? ==> k <= r.value < |fs| && fs[r.value].0(p) && forall j :: k <= j < r.value ==> !fs[j].0(p)
    ensures r.None? ==> forall j :: k <= j < |fs| ==> !fs[j].0(p)
    decreases |fs| - k
  {
    if k == |fs| then None
    else if fs[k].0(p) then Some(k)
    else FirstTextFormatterFrom(fs, k + 1, p)
  }

  /**
   * `_text_content`: the node's text (or "") through its stored text
   * transforms in order, then through the first text formatter whose
   * predicate accepts the node, if any.
   */
  function TextContent(f: Formatter, t: Table, p: Path, n: Node): string
  {
    var text := Transforms.ApplyAll(TransformsIn(Get(t, p, TEXT_TRANSFORMS_KEY, VTransforms([]))), n.text.GetOr(""));
    match FirstTextFormatterFrom(f.textContentFormatters, 0, p)
    case Some(i) => f.textContentFormatters[i].1(text, f.oneIndent, LevelAt(t, p))
    case None => text
  }

  /** `_tail_content`: the node's tail (or "") through its stored tail transforms. */
  function TailContent(t: Table, p: Path, n: Node): string
  {
    Transforms.ApplyAll(TransformsIn(Get(t, p, TAIL_TRANSFORMS_KEY, VTransforms([]))), n.tail.GetOr(""))
  }

  /** `_is_self_closing`: no text after transforms and formatters, and no children. */
  predicate IsSelfClosing(f: Formatter, t: Table, p: Path, n: Node)
  {
    TextContent(f, t, p, n) == "" && |Children(n)| == 0
  }

  method ComputeTextContent(f: Formatter, annotations: Annotations, p: Path, n: Node) returns (text: string)
    ensures text == TextContent(f, annotations.table, p, n)
  {
    text := n.text.GetOr("");
    var transforms := TransformsIn(annotations.Annotation(p, TEXT_TRANSFORMS_KEY, VTransforms([])));
    var i := 0;
    while i < |transforms|
      invariant 0 <= i <= |transforms|
      invariant Transforms.ApplyAll(transforms[i..], text) == Transforms.ApplyAll(transforms, n.text.GetOr(""))
    {
      assert transforms[i..][1..] == transforms[i + 1..];
      text := Transforms.Apply(transforms[i], text);
      i := i + 1;
    }
    var level := LevelOf(annotations.Annotation(p, PHYSICAL_LEVEL_KEY, VInt(0)));
    var fs := f.textContentFormatters;
    var j := 0;
    while j < |fs|
      invariant 0 <= j <= |fs|
      invariant FirstTextFormatterFrom(fs, 0, p) == FirstTextFormatterFrom(fs, j, p)
    {
      var (matches, formatFunc) := fs[j];
      if matches(p) {
        text := formatFunc(text, f.oneIndent, level);
        return;
      }
      j := j + 1;
    }
  }

  method ComputeTailContent(annotations: Annotations, p: Path, n: Node) returns (tail: string)
    ensures tail == TailContent(annotations.table, p, n)
  {
    tail := n.tail.GetOr("");
    var transforms := TransformsIn(annotations.Annotation(p, TAIL_TRANSFORMS_KEY, VTransforms([])));
    var i := 0;
    while i < |transforms|
      invariant 0 <= i <= |transforms|
      invariant Transforms.ApplyAll(transforms[i..], tail) == Transforms.ApplyAll(transforms, n.tail.GetOr(""))
    {
      assert transforms[i..][1..] == transforms[i + 1..];
      tail := Transforms.Apply(transforms[i], tail);
      i := i + 1;
    }
  }

  /**
   * The text a node contributes: the first text formatter that accepts the
   * node rewrites the transformed text and no later one runs; without one
   * the transformed text is written as it is.
   */
  lemma TextContentFirstMatch(f: Formatter, t: Table, p: Path, n: Node)
    ensures var fs := f.textContentFormatters;
            var text := Transforms.ApplyAll(TransformsIn(Get(t, p, TEXT_TRANSFORMS_KEY, VTransforms([]))), n.text.GetOr(""));
            (TextContent(f, t, p, n) == text && forall j :: 0 <= j < |fs| ==> !fs[j].0(p))
            || exists i :: 0 <= i < |fs| && fs[i].0(p) && (forall j :: 0 <= j < i ==> !fs[j].0(p))
                           && TextContent(f, t, p, n) == fs[i].1(text, f.oneIndent, LevelAt(t, p))
  {
    var m := FirstTextFormatterFrom(f.textContentFormatters, 0, p);
    if m.Some? {
      var i := m.value;
      assert f.textContentFormatters[i].0(p) && forall j :: 0 <= j < i ==> !f.textContentFormatters[j].0(p);
    }
  }

  /**
   * After `_annotate_tree`, a node whose whitespace mode is "preserve" or
   * "strict" and that no text formatter accepts contributes its text
   * exactly as parsed.
   */
  lemma PreservedTextUnchanged(f: Formatter, root: Node, t: Table, p: Path)
    requires Valid(root, p)
    requires Keeps(Get(t, p, WHITESPACE_KEY, VNone))
    requires forall j :: 0 <= j < |f.textContentFormatters| ==> !f.textContentFormatters[j].0(p)
    ensures TextContent(f, DocumentFormatter.Layout(root, t, f.oneIndent), p, At(root, p)) == At(root, p).text.GetOr("")
  {
    var lt := DocumentFormatter.Layout(root, t, f.oneIndent);
    DocumentFormatter.LayoutEntries(root, t, f.oneIndent, p, VNone);
    DocumentFormatter.LayoutEntries(root, t, f.oneIndent, p, VTransforms([]));
    assert TextTransformsFor(root, lt, p, f.oneIndent) == [];
  }

  // ---------------------------------------------------------------- attributes

  /** Names starting with "_" are internal and never written. */
  predicate Private(name: string)
  {
    |name| > 0 && name[0] == '_'
  }

  /** `{k: v for k, v in node.attrib.items() if not k.startswith("_")}`, in order. */
  function RealAttributes(attrs: seq<(string, string)>): (r: seq<(string, string)>)
    ensures |r| <= |attrs|
    ensures forall a :: a in r <==> a in attrs && !Private(a.0)
    decreases |attrs|
  {
    if attrs == [] then []
    else (if Private(attrs[0].0) then [] else [attrs[0]]) + RealAttributes(attrs[1..])
  }

  /** Filtering keeps the order: the attributes of a concatenation are those of each part in turn. */
  lemma {:induction false} RealAttributesAppend(a: seq<(string, string)>, b: seq<(string, string)>)
    ensures RealAttributes(a + b) == RealAttributes(a) + RealAttributes(b)
    decreases |a|
  {
    if a != [] {
      assert (a + b)[0] == a[0];
      assert (a + b)[1..] == a[1..] + b;
      RealAttributesAppend(a[1..], b);
    } else {
      assert a + b == b;
    }
  }

  /** `etree.QName(k)` for an attribute name; names lxml holds always parse. */
  function AttributeQName(k: string): Namespace.QName
  {
    match Namespace.ParseQName(k)
    case Ok(q) => q
    case Err(_) => Namespace.QName(None, k)
  }

  /**
   * The written attribute name as the code stands: it looks the namespace
   * URI up among the element's prefixes (`node.nsmap.get(namespace)`), so a
   * prefix is found only when some prefix happens to equal the URI.
   */
  function DisplayNameAsWritten(nsmap: Namespace.NsMap, k: string): string
  {
    var q := AttributeQName(k);
    if q.namespace.None? then k
    else
      var prefix := if q.namespace.value == Namespace.XML_NAMESPACE then Some("xml") else Namespace.NsLookup(nsmap, Some(q.namespace.value));
      if prefix.Some? && prefix.value != "" then prefix.value + ":" + q.localname else q.localname
  }

  /**
   * The written attribute name as intended: the prefix bound to the URI in
   * the element's scope, by the rules of `format_attribute_name`.
   */
  function DisplayName(nsmap: Namespace.NsMap, k: string): string
  {
    var q := AttributeQName(k);
    if q.namespace.None? then k else Namespace.Resolve(nsmap, q)
  }

  /** The intended name is what `format_attribute_name` gives for every namespaced name lxml holds. */
  lemma DisplayNameIsFormatAttributeName(n: Node, k: string)
    requires n.Element? && Namespace.ParseQName(k).Ok? && Namespace.ParseQName(k).value.namespace.Some?
    ensures Namespace.FormatAttributeName(n, k) == Ok(DisplayName(n.nsmap, k))
  {
  }

  /**
   * As written, a namespaced attribute outside the XML namespace loses its
   * prefix whenever no prefix of the scope is spelled like the URI, which is
   * the case for every namespace map met in practice.
   */
  lemma AsWrittenDropsPrefix(nsmap: Namespace.NsMap, k: string)
    requires AttributeQName(k).namespace.Some? && AttributeQName(k).namespace.value != Namespace.XML_NAMESPACE
    requires forall i :: 0 <= i < |nsmap| ==> nsmap[i].0 != AttributeQName(k).namespace
    ensures DisplayNameAsWritten(nsmap, k) == AttributeQName(k).localname
  {
  }

  const XLINK_NAMESPACE := "http://www.w3.org/1999/xlink"

  /** `xlink:href` on an element that binds `xlink`: written "href" as the code stands, "xlink:href" as intended. */
  lemma XlinkHrefLosesPrefix()
    ensures var nsmap := [(Some("xlink"), XLINK_NAMESPACE)];
            var k := "{" + XLINK_NAMESPACE + "}href";
            DisplayNameAsWritten(nsmap, k) == "href" && DisplayName(nsmap, k) == "xlink:href"
  {
    var q := Namespace.QName(Some(XLINK_NAMESPACE), "href");
    Namespace.ParseClarkText(q);
    assert Namespace.ClarkText(q) == "{" + XLINK_NAMESPACE + "}href";
  }

  /** The value written for an attribute: the first matching attribute formatter's output, or the value. */
  function AttributeValue(f: Formatter, t: Table, p: Path, name: string, v: string): string
  {
    AttributeFormatting.ApplyFirst(f.attributeContentFormatters, p, name, v, f.oneIndent, LevelAt(t, p))
  }

  /** What precedes each attribute: a space, or a newline and the indent one level deeper when wrapping. */
  function Spacer(f: Formatter, t: Table, p: Path): string
  {
    if f.mustWrapAttributes(p) then "\n" + Transforms.Indent(f.oneIndent, LevelAt(t, p) + 1) else " "
  }

  function AttributePart(f: Formatter, t: Table, p: Path, nsmap: Namespace.NsMap, a: (string, string)): string
  {
    var name := DisplayName(nsmap, a.0);
    Spacer(f, t, p) + name + "=" + QuoteAttr(AttributeValue(f, t, p, name, a.1))
  }

  function AttributeText(f: Formatter, t: Table, p: Path, nsmap: Namespace.NsMap, attrs: seq<(string, string)>): string
    decreases |attrs|
  {
    if attrs == [] then "" else AttributePart(f, t, p, nsmap, attrs[0]) + AttributeText(f, t, p, nsmap, attrs[1..])
  }

  /** The opening tag up to its terminator: name, attributes, and the wrapped layout's closing indent. */
  function TagHead(f: Formatter, t: Table, p: Path, n: Node): string
    requires n.Element?
  {
    var kept := RealAttributes(n.attrs);
    "<" + n.tag + AttributeText(f, t, p, n.nsmap, kept)
    + (if kept != [] && f.mustWrapAttributes(p) then "\n" + Transforms.Indent(f.oneIndent, LevelAt(t, p)) else "")
  }

  /** The end of the opening tag: ">", after the self-closing mark when the element is self-closing. */
  function TagEnd(f: Formatter, t: Table, p: Path, n: Node): string
  {
    (if IsSelfClosing(f, t, p, n) then (if f.mustWrapAttributes(p) then "/" else " /") else "") + ">"
  }

  /** The opening tag. */
  function OpenTag(f: Formatter, t: Table, p: Path, n: Node): string
    requires n.Element?
  {
    TagHead(f, t, p, n) + TagEnd(f, t, p, n)
  }

  /** Each attribute's written value reads back as the formatted value. */
  lemma AttributePartReadsBack(f: Formatter, t: Table, p: Path, nsmap: Namespace.NsMap, a: (string, string))
    ensures var name := DisplayName(nsmap, a.0);
            var quoted := QuoteAttr(AttributeValue(f, t, p, name, a.1));
            AttributePart(f, t, p, nsmap, a) == Spacer(f, t, p) + name + "=" + quoted
            && UnquoteAttr(quoted) == AttributeValue(f, t, p, name, a.1)
  {
    QuoteAttrRoundTrip(AttributeValue(f, t, p, DisplayName(nsmap, a.0), a.1));
  }

  /** The last character of a non-empty attribute list is a closing quote. */
  lemma AttributeTextEndsWithQuote(f: Formatter, t: Table, p: Path, nsmap: Namespace.NsMap, attrs: seq<(string, string)>)
    requires attrs != []
    ensures var s := AttributeText(f, t, p, nsmap, attrs);
            |s| > 0 && (s[|s| - 1] == '"' || s[|s| - 1] == '\'')
    decreases |attrs|
  {
    if attrs[1..] == [] {
      var a := attrs[0];
      QuoteAttrRoundTrip(AttributeValue(f, t, p, DisplayName(nsmap, a.0), a.1));
      assert AttributeText(f, t, p, nsmap, attrs) == AttributePart(f, t, p, nsmap, a);
    } else {
      AttributeTextEndsWithQuote(f, t, p, nsmap, attrs[1..]);
    }
  }

  /**
   * The self-closing terminator is " />" when attributes are not wrapped
   * and "/>" when they are; and when neither the tag name nor the indent
   * contains "/", an opening tag ends with "/>" exactly when the element is
   * self-closing.
   */
  lemma OpenTagTerminator(f: Formatter, t: Table, p: Path, n: Node)
    requires n.Element?
    ensures var s := OpenTag(f, t, p, n);
            IsSelfClosing(f, t, p, n) && !f.mustWrapAttributes(p) ==> |s| >= 3 && s[|s| - 3..] == " />"
    ensures var s := OpenTag(f, t, p, n);
            IsSelfClosing(f, t, p, n) && f.mustWrapAttributes(p) ==> |s| >= 2 && s[|s| - 2..] == "/>"
    ensures '/' !in n.tag && '/' !in f.oneIndent ==>
              var s := OpenTag(f, t, p, n);
              (IsSelfClosing(f, t, p, n) <==> s[|s| - 2] == '/')
  {
    if IsSelfClosing(f, t, p, n) {
      SelfClosingTagEnd(f, t, p, n);
    }
    if '/' !in n.tag && '/' !in f.oneIndent {
      SlashMarksSelfClosing(f, t, p, n);
    }
  }

  lemma SelfClosingTagEnd(f: Formatter, t: Table, p: Path, n: Node)
    requires n.Element? && IsSelfClosing(f, t, p, n)
    ensures var s := OpenTag(f, t, p, n);
            (!f.mustWrapAttributes(p) ==> |s| >= 3 && s[|s| - 3..] == " />")
            && (f.mustWrapAttributes(p) ==> |s| >= 2 && s[|s| - 2..] == "/>")
  {
    TerminatorShape(TagHead(f, t, p, n), true, f.mustWrapAttributes(p), false);
  }

  lemma SlashMarksSelfClosing(f: Formatter, t: Table, p: Path, n: Node)
    requires n.Element? && '/' !in n.tag && '/' !in f.oneIndent
    ensures var s := OpenTag(f, t, p, n);
            IsSelfClosing(f, t, p, n) <==> s[|s| - 2] == '/'
  {
    TagHeadLast(f, t, p, n);
    TerminatorShape(TagHead(f, t, p, n), IsSelfClosing(f, t, p, n), f.mustWrapAttributes(p), true);
  }

  /** The shape of an opening tag's end, on the parts alone. */
  lemma TerminatorShape(head: string, selfClosing: bool, wrap: bool, noSlash: bool)
    requires noSlash ==> |head| > 0 && head[|head| - 1] != '/'
    ensures var s := head + ((if selfClosing then (if wrap then "/" else " /") else "") + ">");
            (selfClosing && !wrap ==> |s| >= 3 && s[|s| - 3..] == " />")
            && (selfClosing && wrap ==> |s| >= 2 && s[|s| - 2..] == "/>")
            && (noSlash ==> (selfClosing <==> s[|s| - 2] == '/'))
  {
    var end := (if selfClosing then (if wrap then "/" else " /") else "") + ">";
    AppendParts(head, end);
  }

  /** Without '/' in the tag name or the indent, the tag head does not end with '/'. */
  lemma TagHeadLast(f: Formatter, t: Table, p: Path, n: Node)
    requires n.Element? && '/' !in n.tag && '/' !in f.oneIndent
    ensures var head := TagHead(f, t, p, n);
            |head| > 0 && head[|head| - 1] != '/'
  {
    var kept := RealAttributes(n.attrs);
    var front := "<" + n.tag + AttributeText(f, t, p, n.nsmap, kept);
    var closing := if kept != [] && f.mustWrapAttributes(p) then "\n" + Transforms.Indent(f.oneIndent, LevelAt(t, p)) else "";
    var head := TagHead(f, t, p, n);
    assert head == front + closing;
    if closing != "" {
      IndentHasNoSlash(f.oneIndent, LevelAt(t, p));
      assert head[|head| - 1] == closing[|closing| - 1];
      assert closing[|closing| - 1] in closing;
    } else if kept != [] {
      AttributeTextEndsWithQuote(f, t, p, n.nsmap, kept);
      assert head[|head| - 1] == front[|front| - 1];
    } else {
      assert head == "<" + n.tag;
      assert head[|head| - 1] == '<' || head[|head| - 1] in n.tag;
    }
  }

  lemma IndentHasNoSlash(oneIndent: string, level: int)
    requires '/' !in oneIndent
    ensures '/' !in Transforms.Indent(oneIndent, level)
  {
    if level > 0 {
      RepeatHasNoSlash(oneIndent, level);
    }
  }

  lemma {:induction false} RepeatHasNoSlash(u: string, n: nat)
    requires '/' !in u
    ensures '/' !in Repeat(u, n)
  {
    if n > 0 {
      RepeatHasNoSlash(u, n - 1);
    }
  }

  /** `_format_element`'s attribute-formatter loop: the first formatter that accepts the attribute rewrites its value. */
  method FormatAttributeValue(fs: AttributeFormatting.UserFormatters, p: Path, name: string, v: string, oneIndent: string, level: int)
    returns (value: string)
    ensures value == AttributeFormatting.ApplyFirst(fs, p, name, v, oneIndent, level)
  {
    value := v;
    var i := 0;
    while i < |fs|
      invariant 0 <= i <= |fs|
      invariant AttributeFormatting.FirstMatch(fs, p, name, v) == AttributeFormatting.FirstMatchFrom(fs, i, p, name, v)
    {
      var (matches, formatFunc) := fs[i];
      if matches(p, name, v) {
        value := formatFunc(v, oneIndent, level);
        return;
      }
      i := i + 1;
    }
  }

  /** One attribute: spacer, written name, "=" and the quoted, formatted value. */
  method WriteAttribute(f: Formatter, annotations: Annotations, p: Path, nsmap: Namespace.NsMap, a: (string, string),
                        spacer: string, level: int)
    returns (part: string)
    requires spacer == Spacer(f, annotations.table, p) && level == LevelAt(annotations.table, p)
    ensures part == AttributePart(f, annotations.table, p, nsmap, a)
  {
    var (k, v) := a;
    var name := DisplayName(nsmap, k);
    var value := FormatAttributeValue(f.attributeContentFormatters, p, name, v, f.oneIndent, level);
    part := spacer + name + "=" + QuoteAttr(value);
  }

  lemma AttributeTextStep(f: Formatter, t: Table, p: Path, nsmap: Namespace.NsMap, attrs: seq<(string, string)>, i: nat,
                          written: string, part: string)
    requires i < |attrs| && part == AttributePart(f, t, p, nsmap, attrs[i])
    ensures written + AttributeText(f, t, p, nsmap, attrs[i..]) == (written + part) + AttributeText(f, t, p, nsmap, attrs[i + 1..])
  {
    assert attrs[i..][1..] == attrs[i + 1..];
  }

  /** The attribute loop of the "start" event: each attribute's spacer, name and quoted value in turn. */
  method WriteAttributes(f: Formatter, annotations: Annotations, p: Path, nsmap: Namespace.NsMap, attrs: seq<(string, string)>)
    returns (written: string)
    ensures written == AttributeText(f, annotations.table, p, nsmap, attrs)
  {
    ghost var t := annotations.table;
    var level := LevelOf(annotations.Annotation(p, PHYSICAL_LEVEL_KEY, VInt(0)));
    var spacer := if f.mustWrapAttributes(p) then "\n" + Transforms.Indent(f.oneIndent, level + 1) else " ";
    assert spacer == Spacer(f, t, p) && level == LevelAt(t, p);
    written := "";
    var i := 0;
    while i < |attrs|
      invariant 0 <= i <= |attrs|
      invariant written + AttributeText(f, t, p, nsmap, attrs[i..]) == AttributeText(f, t, p, nsmap, attrs)
    {
      var part := WriteAttribute(f, annotations, p, nsmap, attrs[i], spacer, level);
      AttributeTextStep(f, t, p, nsmap, attrs, i, written, part);
      written := written + part;
      i := i + 1;
    }
    assert attrs[i..] == [];
  }

  /** The "start" event's opening tag. */
  method WriteOpenTag(f: Formatter, annotations: Annotations, p: Path, n: Node) returns (tag: string)
    requires n.Element?
    ensures tag == OpenTag(f, annotations.table, p, n)
  {
    var kept := RealAttributes(n.attrs);
    var wrap := f.mustWrapAttributes(p);
    var attributes := WriteAttributes(f, annotations, p, n.nsmap, kept);
    var closing := "";
    if |kept| > 0 && wrap {
      var level := LevelOf(annotations.Annotation(p, PHYSICAL_LEVEL_KEY, VInt(0)));
      closing := "\n" + Transforms.Indent(f.oneIndent, level);
    }
    var text := ComputeTextContent(f, annotations, p, n);
    var terminator := "";
    if text == "" && |n.children| == 0 {
      terminator := if wrap then "/" else " /";
    }
    tag := "<" + n.tag + attributes + closing + (terminator + ">");
  }

  // ---------------------------------------------------------------- comments and PIs

  /** Escaped comment text with a space added where it would start or end with '-'. */
  function DashPadded(e: string): string
  {
    if e == "" then ""
    else (if e[0] == '-' then " " else "") + e + (if e[|e| - 1] == '-' then " " else "")
  }

  /** A comment's text between `<!--` and `-->`. */
  function CommentBody(text: string): string
  {
    DashPadded(Escape(text))
  }

  lemma DashPaddedShape(e: string)
    ensures var b := DashPadded(e);
            (b == "" <==> e == "")
            && (b != "" ==> b[0] != '-' && b[|b| - 1] != '-')
            && (b == e || b == " " + e || b == e + " " || b == " " + e + " ")
  {
  }

  /**
   * The dash padding: a comment body never starts or ends with '-', so the
   * markup never runs into `<!---` or `--->`; it is the escaped text with
   * at most one space added on each side, and it is empty only for empty text.
   */
  lemma CommentBodyPadding(text: string)
    ensures var b := CommentBody(text);
            (b == "" <==> text == "")
            && (b != "" ==> b[0] != '-' && b[|b| - 1] != '-')
            && (b == Escape(text) || b == " " + Escape(text) || b == Escape(text) + " " || b == " " + Escape(text) + " ")
  {
    DashPaddedShape(Escape(text));
  }

  /** `<?target text?>`, the text left out when empty; PI text is written unescaped. */
  function PIMarkup(target: string, text: Option<string>): string
  {
    "<?" + target + (if text.GetOr("") != "" then " " + text.value else "") + "?>"
  }

  // ---------------------------------------------------------------- the walk

  /** What the "start" event writes: the opening tag, then the escaped text unless self-closing. */
  function StartText(f: Formatter, t: Table, p: Path, n: Node): string
    requires n.Element?
  {
    OpenTag(f, t, p, n) + (if IsSelfClosing(f, t, p, n) then "" else Escape(TextContent(f, t, p, n)))
  }

  /** What the "end" event writes: the closing tag unless self-closing, then the escaped tail. */
  function EndText(f: Formatter, t: Table, p: Path, n: Node): string
    requires n.Element?
  {
    (if IsSelfClosing(f, t, p, n) then "" else "</" + n.tag + ">") + Escape(TailContent(t, p, n))
  }

  /** A comment: its transformed and formatted text, padded, then its escaped tail. */
  function CommentText(f: Formatter, t: Table, p: Path, n: Node): string
  {
    "<!--" + CommentBody(TextContent(f, t, p, n)) + "-->" + Escape(TailContent(t, p, n))
  }

  /** A processing instruction, then its escaped tail. */
  function PIText(t: Table, p: Path, n: Node): string
    requires n.PI?
  {
    PIMarkup(n.target, n.text) + Escape(TailContent(t, p, n))
  }

  /** The markup written for the subtree of `n` at path `p`, its tail included. */
  function Render(f: Formatter, t: Table, p: Path, n: Node): string
    decreases n, 1
  {
    match n
    case Element(_, _, _, _, _, _) => StartText(f, t, p, n) + RenderChildren(f, t, p, n, 0) + EndText(f, t, p, n)
    case Comment(_, _) => CommentText(f, t, p, n)
    case PI(_, _, _) => PIText(t, p, n)
  }

  function RenderChildren(f: Formatter, t: Table, p: Path, n: Node, k: nat): string
    decreases n, 0, |Children(n)| - k
  {
    if !n.Element? || k >= |n.children| then ""
    else Render(f, t, p + [k], n.children[k]) + RenderChildren(f, t, p, n, k + 1)
  }

  /**
   * A self-closing element writes its opening tag and its tail only: no
   * text, no children, no closing tag. Any other element ends with its
   * closing tag and its tail.
   */
  lemma SelfClosingElement(f: Formatter, t: Table, p: Path, n: Node)
    requires n.Element?
    ensures IsSelfClosing(f, t, p, n) ==> Render(f, t, p, n) == OpenTag(f, t, p, n) + Escape(TailContent(t, p, n))
    ensures !IsSelfClosing(f, t, p, n) ==>
              var r := Render(f, t, p, n);
              var close := "</" + n.tag + ">" + Escape(TailContent(t, p, n));
              |r| >= |close| && r[|r| - |close|..] == close
  {
    if IsSelfClosing(f, t, p, n) {
      SelfClosingRender(f, t, p, n);
    } else {
      ClosedRender(f, t, p, n);
    }
  }

  lemma SelfClosingRender(f: Formatter, t: Table, p: Path, n: Node)
    requires n.Element? && IsSelfClosing(f, t, p, n)
    ensures Render(f, t, p, n) == OpenTag(f, t, p, n) + Escape(TailContent(t, p, n))
  {
    assert RenderChildren(f, t, p, n, 0) == "";
    assert StartText(f, t, p, n) == OpenTag(f, t, p, n);
    assert EndText(f, t, p, n) == Escape(TailContent(t, p, n));
  }

  lemma ClosedRender(f: Formatter, t: Table, p: Path, n: Node)
    requires n.Element? && !IsSelfClosing(f, t, p, n)
    ensures IsSuffix("</" + n.tag + ">" + Escape(TailContent(t, p, n)), Render(f, t, p, n))
  {
    AppendParts(StartText(f, t, p, n) + RenderChildren(f, t, p, n, 0), EndText(f, t, p, n));
  }

  /** One `iterwalk` event with the node it reports and that node's path. */
  datatype Event = Start(p: Path, n: Node) | End(p: Path, n: Node) | CommentEvent(p: Path, n: Node) | PIEvent(p: Path, n: Node)

  /** `iterwalk(n, events=("start", "end", "comment", "pi"))`. */
  function Events(p: Path, n: Node): seq<Event>
    decreases n, 1
  {
    match n
    case Element(_, _, _, _, _, _) => [Start(p, n)] + ChildEvents(p, n, 0) + [End(p, n)]
    case Comment(_, _) => [CommentEvent(p, n)]
    case PI(_, _, _) => [PIEvent(p, n)]
  }

  function ChildEvents(p: Path, n: Node, k: nat): seq<Event>
    decreases n, 0, |Children(n)| - k
  {
    if !n.Element? || k >= |n.children| then []
    else Events(p + [k], n.children[k]) + ChildEvents(p, n, k + 1)
  }

  /** What the loop body of `_format_element` appends for one event. */
  function EventText(f: Formatter, t: Table, e: Event): string
  {
    match e
    case Start(p, n) => if n.Element? then StartText(f, t, p, n) else ""
    case End(p, n) => if n.Element? then EndText(f, t, p, n) else ""
    case CommentEvent(p, n) => CommentText(f, t, p, n)
    case PIEvent(p, n) => if n.PI? then PIText(t, p, n) else ""
  }

  function Outputs(f: Formatter, t: Table, es: seq<Event>): string
    decreases |es|
  {
    if es == [] then "" else EventText(f, t, es[0]) + Outputs(f, t, es[1..])
  }

  lemma {:induction false} OutputsAppend(f: Formatter, t: Table, a: seq<Event>, b: seq<Event>)
    ensures Outputs(f, t, a + b) == Outputs(f, t, a) + Outputs(f, t, b)
    decreases |a|
  {
    if a != [] {
      assert (a + b)[0] == a[0];
      assert (a + b)[1..] == a[1..] + b;
      OutputsAppend(f, t, a[1..], b);
    } else {
      assert a + b == b;
    }
  }

  /** The event walk writes exactly `Render`: the markup of the events of a subtree is the subtree's markup. */
  lemma {:induction false} EventsRender(f: Formatter, t: Table, p: Path, n: Node)
    ensures Outputs(f, t, Events(p, n)) == Render(f, t, p, n)
    decreases n, 1
  {
    match n
    case Element(_, _, _, _, _, _) =>
      ChildEventsRender(f, t, p, n, 0);
      OutputsAppend(f, t, [Start(p, n)] + ChildEvents(p, n, 0), [End(p, n)]);
      OutputsAppend(f, t, [Start(p, n)], ChildEvents(p, n, 0));
      assert Outputs(f, t, [End(p, n)]) == EndText(f, t, p, n);
    case Comment(_, _) =>
    case PI(_, _, _) =>
  }

  lemma {:induction false} ChildEventsRender(f: Formatter, t: Table, p: Path, n: Node, k: nat)
    ensures Outputs(f, t, ChildEvents(p, n, k)) == RenderChildren(f, t, p, n, k)
    decreases n, 0, |Children(n)| - k
  {
    if n.Element? && k < |n.children| {
      EventsRender(f, t, p + [k], n.children[k]);
      ChildEventsRender(f, t, p, n, k + 1);
      OutputsAppend(f, t, Events(p + [k], n.children[k]), ChildEvents(p, n, k + 1));
    }
  }

  /** The "start" event: the opening tag, then the escaped text unless self-closing. */
  method WriteStart(f: Formatter, annotations: Annotations, p: Path, n: Node) returns (piece: string)
    requires n.Element?
    ensures piece == StartText(f, annotations.table, p, n)
  {
    piece := WriteOpenTag(f, annotations, p, n);
    var text := ComputeTextContent(f, annotations, p, n);
    var selfClosing := text == "" && |n.children| == 0;
    if !selfClosing && text != "" {
      piece := piece + Escape(text);
    }
  }

  /** The "end" event: the closing tag unless self-closing, then the escaped tail. */
  method WriteEnd(f: Formatter, annotations: Annotations, p: Path, n: Node) returns (piece: string)
    requires n.Element?
    ensures piece == EndText(f, annotations.table, p, n)
  {
    piece := "";
    var text := ComputeTextContent(f, annotations, p, n);
    if !(text == "" && |n.children| == 0) {
      piece := "</" + n.tag + ">";
    }
    var tail := ComputeTailContent(annotations, p, n);
    if tail != "" {
      piece := piece + Escape(tail);
    }
  }

  /** The dash padding of a comment's escaped text. */
  method WriteCommentBody(text: string) returns (body: string)
    ensures body == CommentBody(text)
  {
    body := "";
    if text != "" {
      var escapedText := Escape(text);
      if escapedText[0] == '-' {
        body := body + " ";
      }
      body := body + escapedText;
      if escapedText[|escapedText| - 1] == '-' {
        body := body + " ";
      }
    }
  }

  /** The "comment" event. */
  method WriteComment(f: Formatter, annotations: Annotations, p: Path, n: Node) returns (piece: string)
    ensures piece == CommentText(f, annotations.table, p, n)
  {
    var text := ComputeTextContent(f, annotations, p, n);
    var body := WriteCommentBody(text);
    piece := "<!--" + body + "-->";
    var tail := ComputeTailContent(annotations, p, n);
    if tail != "" {
      piece := piece + Escape(tail);
    }
  }

  /** `<?target text?>` as the "pi" event and the prolog write it. */
  method WritePIMarkup(target: string, text: Option<string>) returns (markup: string)
    ensures markup == PIMarkup(target, text)
  {
    markup := "<?" + target;
    if text.GetOr("") != "" {
      markup := markup + " " + text.value;
    }
    markup := markup + "?>";
  }

  /** The "pi" event. */
  method WritePI(annotations: Annotations, p: Path, n: Node) returns (piece: string)
    requires n.PI?
    ensures piece == PIText(annotations.table, p, n)
  {
    piece := WritePIMarkup(n.target, n.text);
    var tail := ComputeTailContent(annotations, p, n);
    if tail != "" {
      piece := piece + Escape(tail);
    }
  }

  /** The loop body of `_format_element` for one event. */
  method WriteEvent(f: Formatter, annotations: Annotations, e: Event) returns (piece: string)
    ensures piece == EventText(f, annotations.table, e)
  {
    piece := "";
    match e
    case Start(p, n) =>
      if n.Element? {
        piece := WriteStart(f, annotations, p, n);
      }
    case End(p, n) =>
      if n.Element? {
        piece := WriteEnd(f, annotations, p, n);
      }
    case CommentEvent(p, n) =>
      piece := WriteComment(f, annotations, p, n);
    case PIEvent(p, n) =>
      if n.PI? {
        piece := WritePI(annotations, p, n);
      }
  }

  /** `_format_element`: the events of the subtree in order, each appending its markup. */
  method WriteElement(f: Formatter, annotations: Annotations, root: Node) returns (written: string)
    ensures written == Render(f, annotations.table, [], root)
  {
    ghost var t := annotations.table;
    var events := Events([], root);
    written := "";
    var i := 0;
    while i < |events|
      invariant 0 <= i <= |events|
      invariant written + Outputs(f, t, events[i..]) == Outputs(f, t, events)
    {
      assert events[i..][1..] == events[i + 1..];
      var piece := WriteEvent(f, annotations, events[i]);
      written := written + piece;
      i := i + 1;
    }
    EventsRender(f, t, [], root);
  }

  // ---------------------------------------------------------------- format_element

  /** Markup depends on the store only through its answers to `annotation(...)`. */
  lemma {:induction false} RenderFrame(f: Formatter, t: Table, u: Table, p: Path, n: Node)
    requires SameEntries(t, u)
    ensures Render(f, t, p, n) == Render(f, u, p, n)
    decreases n, 1
  {
    ContentFrame(f, t, u, p, n);
    if n.Element? {
      AttributeTextFrame(f, t, u, p, n.nsmap, RealAttributes(n.attrs));
      StartEndFrame(f, t, u, p, n);
      RenderChildrenFrame(f, t, u, p, n, 0);
    }
  }

  lemma ContentFrame(f: Formatter, t: Table, u: Table, p: Path, n: Node)
    requires SameEntries(t, u)
    ensures TextContent(f, t, p, n) == TextContent(f, u, p, n)
    ensures TailContent(t, p, n) == TailContent(u, p, n)
    ensures LevelAt(t, p) == LevelAt(u, p)
  {
    assert Get(t, p, TEXT_TRANSFORMS_KEY, VTransforms([])) == Get(u, p, TEXT_TRANSFORMS_KEY, VTransforms([]));
    assert Get(t, p, TAIL_TRANSFORMS_KEY, VTransforms([])) == Get(u, p, TAIL_TRANSFORMS_KEY, VTransforms([]));
    assert Get(t, p, PHYSICAL_LEVEL_KEY, VInt(0)) == Get(u, p, PHYSICAL_LEVEL_KEY, VInt(0));
  }

  lemma StartEndFrame(f: Formatter, t: Table, u: Table, p: Path, n: Node)
    requires n.Element?
    requires TextContent(f, t, p, n) == TextContent(f, u, p, n)
    requires TailContent(t, p, n) == TailContent(u, p, n)
    requires LevelAt(t, p) == LevelAt(u, p)
    requires AttributeText(f, t, p, n.nsmap, RealAttributes(n.attrs)) == AttributeText(f, u, p, n.nsmap, RealAttributes(n.attrs))
    ensures StartText(f, t, p, n) == StartText(f, u, p, n)
    ensures EndText(f, t, p, n) == EndText(f, u, p, n)
  {
    TagHeadFrame(f, t, u, p, n);
    assert TagEnd(f, t, p, n) == TagEnd(f, u, p, n);
  }

  lemma TagHeadFrame(f: Formatter, t: Table, u: Table, p: Path, n: Node)
    requires n.Element?
    requires LevelAt(t, p) == LevelAt(u, p)
    requires AttributeText(f, t, p, n.nsmap, RealAttributes(n.attrs)) == AttributeText(f, u, p, n.nsmap, RealAttributes(n.attrs))
    ensures TagHead(f, t, p, n) == TagHead(f, u, p, n)
  {
  }

  lemma {:induction false} RenderChildrenFrame(f: Formatter, t: Table, u: Table, p: Path, n: Node, k: nat)
    requires SameEntries(t, u)
    ensures RenderChildren(f, t, p, n, k) == RenderChildren(f, u, p, n, k)
    decreases n, 0, |Children(n)| - k
  {
    if n.Element? && k < |n.children| {
      RenderFrame(f, t, u, p + [k], n.children[k]);
      RenderChildrenFrame(f, t, u, p, n, k + 1);
    }
  }

  lemma {:induction false} AttributeTextFrame(f: Formatter, t: Table, u: Table, p: Path, nsmap: Namespace.NsMap, attrs: seq<(string, string)>)
    requires SameEntries(t, u)
    ensures AttributeText(f, t, p, nsmap, attrs) == AttributeText(f, u, p, nsmap, attrs)
    decreases |attrs|
  {
    if attrs != [] {
      assert LevelAt(t, p) == LevelAt(u, p);
      AttributeTextFrame(f, t, u, p, nsmap, attrs[1..]);
    }
  }

  /** What `format_element` returns: the classification error, or the markup of the laid-out tree. */
  function FormatElementSpec(f: Formatter, root: Node): Result<string, Error>
  {
    var o := DocumentFormatter.Classified(f, root);
    if o.err.Some? then Err(o.err.value)
    else Ok(Render(f, DocumentFormatter.Layout(root, o.table, f.oneIndent), [], root))
  }

  /** `format_element`: annotate, then walk. */
  method FormatElement(f: Formatter, root: Node) returns (r: Result<string, Error>)
    ensures r == FormatElementSpec(f, root)
  {
    var annotations, err := DocumentFormatter.AnnotateTree(f, root);
    if err.Some? {
      return Err(err.value);
    }
    var written := WriteElement(f, annotations, root);
    RenderFrame(f, annotations.table, DocumentFormatter.Layout(root, DocumentFormatter.Classified(f, root).table, f.oneIndent), [], root);
    return Ok(written);
  }

  /**
   * `format_element` fails exactly when some node is marked both block and
   * inline (AnnotationConflictError) or the default type is not in
   * `BLOCK_TYPES` (ValueError).
   */
  lemma FormatElementFails(f: Formatter, root: Node)
    ensures FormatElementSpec(f, root).Err? <==> DocumentFormatter.Conflict(f, root) || !AnnotationPasses.IsBlockType(f.defaultType)
    ensures DocumentFormatter.Conflict(f, root) ==> FormatElementSpec(f, root).error.AnnotationConflictError?
  {
    DocumentFormatter.Classification(f, root);
  }

  // ---------------------------------------------------------------- format_tree

  /** An lxml `ElementTree`: the top-level comments and PIs before the root, the parsed DOCTYPE ("" if none) and the root. */
  datatype Document = Document(prolog: seq<Node>, docinfoDoctype: string, root: Node)

  const XML_DECLARATION := "<?xml version=\"1.0\" encoding=\"UTF-8\" standalone=\"yes\"?>\n"

  /** `doctype or tree.docinfo.doctype`. */
  function ChosenDoctype(doctype: Option<string>, doc: Document): string
  {
    if doctype.Some? && doctype.value != "" then doctype.value else doc.docinfoDoctype
  }

  /** The declaration when asked for, then the doctype line when there is a doctype. */
  function Header(doc: Document, doctype: Option<string>, xmlDeclaration: Option<bool>): string
  {
    (if xmlDeclaration == Some(true) then XML_DECLARATION else "")
    + (if ChosenDoctype(doctype, doc) != "" then ChosenDoctype(doctype, doc) + "\n" else "")
  }

  /** A top-level comment or PI before the root: its raw text escaped (comments) and a newline, no tail. */
  function PrologText(n: Node): string
  {
    match n
    case Comment(text, _) => "<!--" + CommentBody(text.GetOr("")) + "-->\n"
    case PI(target, text, _) => PIMarkup(target, text) + "\n"
    case Element(_, _, _, _, _, _) => ""
  }

  /** The walk before the root: every node up to the first element. */
  function PrologWalk(nodes: seq<Node>): string
    decreases |nodes|
  {
    if nodes == [] || nodes[0].Element? then "" else PrologText(nodes[0]) + PrologWalk(nodes[1..])
  }

  /** The document around the root's markup `body`. */
  function Assemble(doc: Document, doctype: Option<string>, xmlDeclaration: Option<bool>, body: string): string
  {
    Header(doc, doctype, xmlDeclaration) + PrologWalk(doc.prolog + [doc.root]) + body
  }

  function FormatTreeSpec(f: Formatter, doc: Document, doctype: Option<string>, xmlDeclaration: Option<bool>): Result<string, Error>
  {
    match FormatElementSpec(f, doc.root)
    case Err(e) => Err(e)
    case Ok(body) => Ok(Assemble(doc, doctype, xmlDeclaration, body))
  }

  /** One prolog node as `format_tree` writes it. */
  method WritePrologNode(n: Node) returns (written: string)
    requires !n.Element?
    ensures written == PrologText(n)
  {
    match n
    case Comment(text, _) =>
      var body := WriteCommentBody(text.GetOr(""));
      written := "<!--" + body + "-->\n";
    case PI(target, text, _) =>
      var markup := WritePIMarkup(target, text);
      written := markup + "\n";
  }

  /** The walk before the root, stopping at the first element. */
  method WriteProlog(nodes: seq<Node>) returns (written: string)
    ensures written == PrologWalk(nodes)
  {
    written := "";
    var i := 0;
    while i < |nodes|
      invariant 0 <= i <= |nodes|
      invariant written + PrologWalk(nodes[i..]) == PrologWalk(nodes)
    {
      assert nodes[i..][1..] == nodes[i + 1..];
      if nodes[i].Element? {
        break;
      }
      var piece := WritePrologNode(nodes[i]);
      written := written + piece;
      i := i + 1;
    }
  }

  /** The declaration and the doctype line of `format_tree`. */
  method WriteHeader(doc: Document, doctype: Option<string>, xmlDeclaration: Option<bool>) returns (written: string)
    ensures written == Header(doc, doctype, xmlDeclaration)
  {
    var declaration := "";
    if xmlDeclaration.GetOr(false) {
      declaration := XML_DECLARATION;
    }
    var chosen := if doctype.Some? && doctype.value != "" then doctype.value else doc.docinfoDoctype;
    var doctypeLine := "";
    if chosen != "" {
      doctypeLine := chosen + "\n";
    }
    written := declaration + doctypeLine;
  }

  /** `format_tree`. */
  method FormatTree(f: Formatter, doc: Document, doctype: Option<string>, xmlDeclaration: Option<bool>)
    returns (r: Result<string, Error>)
    ensures r == FormatTreeSpec(f, doc, doctype, xmlDeclaration)
  {
    var written := WriteHeader(doc, doctype, xmlDeclaration);
    var prolog := WriteProlog(doc.prolog + [doc.root]);
    written := written + prolog;
    var formatted := FormatElement(f, doc.root);
    if formatted.Err? {
      return Err(formatted.error);
    }
    return Ok(written + formatted.value);
  }

  predicate IsPrefix(a: string, s: string)
  {
    |a| <= |s| && s[..|a|] == a
  }

  predicate IsSuffix(a: string, s: string)
  {
    |a| <= |s| && s[|s| - |a|..] == a
  }

  lemma {:induction false} AppendParts(a: string, b: string)
    ensures IsPrefix(a, a + b) && IsSuffix(b, a + b)
  {
    assert (a + b)[..|a|] == a;
    assert (a + b)[|a|..] == b;
  }

  /**
   * The document starts with the declaration exactly when it is asked for,
   * then the doctype line, the doctype argument winning over the parsed
   * one; the root's markup ends the document.
   */
  lemma FormatTreeLayout(doc: Document, doctype: Option<string>, xmlDeclaration: Option<bool>, body: string)
    ensures var r := Assemble(doc, doctype, xmlDeclaration, body);
            var d := ChosenDoctype(doctype, doc);
            var line := if d != "" then d + "\n" else "";
            (xmlDeclaration == Some(true) ==> IsPrefix(XML_DECLARATION + line, r))
            && (xmlDeclaration != Some(true) ==> IsPrefix(line, r))
            && (doctype.Some? && doctype.value != "" ==> d == doctype.value)
            && IsSuffix(body, r)
  {
    var h := Header(doc, doctype, xmlDeclaration);
    var prolog := PrologWalk(doc.prolog + [doc.root]);
    assert Assemble(doc, doctype, xmlDeclaration, body) == h + (prolog + body);
    AppendParts(h, prolog + body);
    AppendParts(prolog, body);
  }
}
