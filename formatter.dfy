// markuplift/formatter.py: the reusable `Formatter`. It holds predicate
// factories (prepared once per document), formatter tables keyed by
// factories, the strategies and the layout settings; `derive` copies it
// with some settings replaced, and `_create_document_formatter` prepares
// everything against one document root.
module Formatter {
  import opened Wrappers
  import opened Types
  import opened Tree
  import Predicates
  import Doctype
  import AttributeFormatting
  import DocumentFormatter
  import DocumentRendering
  import AnnotationPasses

  /** The escaping strategies the formatter can be given. */
  datatype EscapingStrategy = XmlEscapingStrategy | HtmlEscapingStrategy

  /** The parsing strategies; both remember whether CDATA sections are kept. */
  datatype ParsingStrategy =
    | XmlParsingStrategy(preserveCdata: bool)
    | HtmlParsingStrategy(preserveCdata: bool)

  /** `dict[ElementPredicateFactory, TextContentFormatter]`, in insertion order. */
  type TextFactories = seq<(Predicates.Factory, ValueFormatter)>

  /** An `AttributePredicateFactory`: called with the root, it yields an attribute predicate. */
  type AttributeFactory = Node -> AttributePredicate

  /** `dict[AttributePredicateFactory, AttributeValueFormatter]`, in insertion order. */
  type AttributeFactories = seq<(AttributeFactory, ValueFormatter)>

  /** The private fields a constructed `Formatter` holds. */
  datatype Formatter = Formatter(
    blockWhen: Predicates.Factory,
    inlineWhen: Predicates.Factory,
    normalizeWhitespaceWhen: Predicates.Factory,
    stripWhitespaceWhen: Predicates.Factory,
    preserveWhitespaceWhen: Predicates.Factory,
    wrapAttributesWhen: Predicates.Factory,
    reformatTextWhen: TextFactories,
    reformatAttributeWhen: AttributeFactories,
    escapingStrategy: EscapingStrategy,
    parsingStrategy: ParsingStrategy,
    doctypeStrategy: Doctype.DoctypeStrategy,
    attributeStrategy: AttributeFormatting.AttributeFormattingStrategy,
    indentSize: int,
    defaultType: ElementType)
  {
    /** The `preserve_cdata` property: read from the parsing strategy. */
    function PreserveCdata(): bool
    {
      parsingStrategy.preserveCdata
    }
  }

  /**
   * The keyword arguments of `Formatter.__init__` and `Formatter.derive`;
   * `None` is an argument left out (or passed as None).
   */
  datatype Arguments = Arguments(
    blockWhen: Option<Predicates.Factory>,
    inlineWhen: Option<Predicates.Factory>,
    normalizeWhitespaceWhen: Option<Predicates.Factory>,
    stripWhitespaceWhen: Option<Predicates.Factory>,
    preserveWhitespaceWhen: Option<Predicates.Factory>,
    wrapAttributesWhen: Option<Predicates.Factory>,
    reformatTextWhen: Option<TextFactories>,
    reformatAttributeWhen: Option<AttributeFactories>,
    escapingStrategy: Option<EscapingStrategy>,
    parsingStrategy: Option<ParsingStrategy>,
    doctypeStrategy: Option<Doctype.DoctypeStrategy>,
    attributeStrategy: Option<AttributeFormatting.AttributeFormattingStrategy>,
    indentSize: Option<int>,
    defaultType: Option<ElementType>,
    preserveCdata: Option<bool>)

  /** A call that passes no argument at all. */
  const NoArguments: Arguments :=
    Arguments(None, None, None, None, None, None, None, None, None, None, None, None, None, None, None)

  /** What every constructed formatter satisfies. */
  predicate WellFormed(f: Formatter)
  {
    f.indentSize >= 0
  }

  // ---------------------------------------------------------------- construction

  /** `indent_size or 2`: None and 0 are both falsy, so both become 2. */
  function IndentSizeAsWritten(indentSize: Option<int>): (r: int)
    ensures indentSize == Some(0) ==> r == 2
    ensures r != 0
  {
    if indentSize.None? || indentSize.value == 0 then 2 else indentSize.value
  }

  /** The intended default: only a missing indent becomes 2. */
  function IndentSize(indentSize: Option<int>): (r: int)
    ensures indentSize.Some? ==> r == indentSize.value
    ensures indentSize.None? ==> r == 2
  {
    indentSize.GetOr(2)
  }

  /** `str(member)` of a plain `Enum` member. */
  function ElementTypeStr(t: ElementType): string
  {
    match t
    case BLOCK => "ElementType.BLOCK"
    case INLINE => "ElementType.INLINE"
  }

  /** The Python values `BLOCK_TYPES` is tested against: None, a string or an `ElementType` member. */
  datatype PyValue = PyNone | PyStr(s: string) | PyMember(t: ElementType)

  /** `BLOCK_TYPES` of the annotation module: None and the two type strings. */
  const BLOCK_TYPES: set<PyValue> := {PyNone, PyStr("block"), PyStr("inline")}

  /**
   * `default_type not in BLOCK_TYPES` as written: the member itself is
   * looked up, and a plain `Enum` member equals no string.
   */
  predicate DefaultTypeRefusedAsWritten(t: ElementType)
  {
    PyMember(t) !in BLOCK_TYPES
  }

  /** The intended test looks the member's value up. */
  predicate DefaultTypeRefused(t: ElementType)
  {
    PyStr(t.Value()) !in BLOCK_TYPES
  }

  /** No member's value is outside `BLOCK_TYPES`. */
  lemma NoDefaultTypeRefused(t: ElementType)
    ensures !DefaultTypeRefused(t)
    ensures DefaultTypeRefusedAsWritten(t)
  {
  }

  /** The fields `__init__` stores once the indent is settled. */
  function Configure(a: Arguments, size: int): Formatter
  {
    Formatter(
      a.blockWhen.GetOr(Predicates.Never),
      a.inlineWhen.GetOr(Predicates.Never),
      a.normalizeWhitespaceWhen.GetOr(Predicates.Never),
      a.stripWhitespaceWhen.GetOr(Predicates.Never),
      a.preserveWhitespaceWhen.GetOr(Predicates.Never),
      a.wrapAttributesWhen.GetOr(Predicates.Never),
      a.reformatTextWhen.GetOr([]),
      a.reformatAttributeWhen.GetOr([]),
      a.escapingStrategy.GetOr(XmlEscapingStrategy),
      a.parsingStrategy.GetOr(XmlParsingStrategy(a.preserveCdata.GetOr(true))),
      a.doctypeStrategy.GetOr(Doctype.NullDoctypeStrategy),
      a.attributeStrategy.GetOr(AttributeFormatting.NullAttributeStrategy),
      size,
      a.defaultType.GetOr(BLOCK))
  }

  function DefaultTypeMessage(t: ElementType): string
  {
    "default_type " + ElementTypeStr(t) + " is not one of 'None, block, inline'"
  }

  /**
   * `Formatter.__init__` as written: the indent goes through `or 2`, and
   * the default type, always an `ElementType` member, is then refused.
   * Every call fails.
   */
  function NewFormatterAsWritten(a: Arguments): (r: Result<Formatter, Error>)
    ensures r.Err? && r.error.ValueError?
    ensures IndentSizeAsWritten(a.indentSize) < 0
            ==> r.error.msg == DocumentFormatter.IndentSizeMessage(IndentSizeAsWritten(a.indentSize))
    ensures IndentSizeAsWritten(a.indentSize) >= 0 ==> r.error.msg == DefaultTypeMessage(a.defaultType.GetOr(BLOCK))
  {
    var size := IndentSizeAsWritten(a.indentSize);
    var defaultType := a.defaultType.GetOr(BLOCK);
    if size < 0 then Err(ValueError(DocumentFormatter.IndentSizeMessage(size)))
    else if DefaultTypeRefusedAsWritten(defaultType) then Err(ValueError(DefaultTypeMessage(defaultType)))
    else Ok(Configure(a, size))
  }

  /**
   * `Formatter.__init__` as intended: omitted factories never match,
   * omitted tables are empty, the strategies default to XML escaping and
   * parsing (keeping CDATA unless told otherwise), no doctype and no
   * attribute rules, a missing indent is 2, a missing default type is
   * BLOCK, and only a negative indent is refused.
   */
  function NewFormatter(a: Arguments): (r: Result<Formatter, Error>)
    ensures r.Ok? <==> IndentSize(a.indentSize) >= 0
    ensures r.Err? ==> r == Err(ValueError(DocumentFormatter.IndentSizeMessage(IndentSize(a.indentSize))))
    ensures r.Ok? ==> WellFormed(r.value)
  {
    var size := IndentSize(a.indentSize);
    var defaultType := a.defaultType.GetOr(BLOCK);
    if size < 0 then Err(ValueError(DocumentFormatter.IndentSizeMessage(size)))
    else if DefaultTypeRefused(defaultType) then Err(ValueError(DefaultTypeMessage(defaultType)))
    else Ok(Configure(a, size))
  }

  /** An omitted factory is `never_matches`: its prepared predicate holds nowhere. */
  lemma NeverWhenOmitted(o: Option<Predicates.Factory>, root: Node, p: Path)
    ensures Predicates.Matches(o.GetOr(Predicates.Never), root, p) <==> o.Some? && Predicates.Matches(o.value, root, p)
  {
  }

  lemma OmittedFactoryNeverMatches(a: Arguments, root: Node, p: Path)
    requires NewFormatter(a).Ok?
    ensures var f := NewFormatter(a).value;
      (Predicates.Matches(f.blockWhen, root, p) <==> a.blockWhen.Some? && Predicates.Matches(a.blockWhen.value, root, p))
      && (Predicates.Matches(f.inlineWhen, root, p) <==> a.inlineWhen.Some? && Predicates.Matches(a.inlineWhen.value, root, p))
      && (Predicates.Matches(f.normalizeWhitespaceWhen, root, p)
          <==> a.normalizeWhitespaceWhen.Some? && Predicates.Matches(a.normalizeWhitespaceWhen.value, root, p))
      && (Predicates.Matches(f.stripWhitespaceWhen, root, p)
          <==> a.stripWhitespaceWhen.Some? && Predicates.Matches(a.stripWhitespaceWhen.value, root, p))
      && (Predicates.Matches(f.preserveWhitespaceWhen, root, p)
          <==> a.preserveWhitespaceWhen.Some? && Predicates.Matches(a.preserveWhitespaceWhen.value, root, p))
      && (Predicates.Matches(f.wrapAttributesWhen, root, p)
          <==> a.wrapAttributesWhen.Some? && Predicates.Matches(a.wrapAttributesWhen.value, root, p))
  {
    NeverWhenOmitted(a.blockWhen, root, p);
    NeverWhenOmitted(a.inlineWhen, root, p);
    NeverWhenOmitted(a.normalizeWhitespaceWhen, root, p);
    NeverWhenOmitted(a.stripWhitespaceWhen, root, p);
    NeverWhenOmitted(a.preserveWhitespaceWhen, root, p);
    NeverWhenOmitted(a.wrapAttributesWhen, root, p);
  }

  /** The defaults of a call with no arguments. */
  lemma Defaults()
    ensures NewFormatter(NoArguments).Ok?
    ensures var f := NewFormatter(NoArguments).value;
      f.indentSize == 2 && f.defaultType == BLOCK && f.reformatTextWhen == [] && f.reformatAttributeWhen == []
      && f.escapingStrategy == XmlEscapingStrategy && f.parsingStrategy == XmlParsingStrategy(true)
      && f.doctypeStrategy == Doctype.NullDoctypeStrategy
      && f.attributeStrategy == AttributeFormatting.NullAttributeStrategy
  {
  }

  /** `Formatter()` fails as written and succeeds as intended. */
  lemma DefaultFormatterRefused()
    ensures NewFormatterAsWritten(NoArguments) == Err(ValueError(DefaultTypeMessage(BLOCK)))
    ensures NewFormatter(NoArguments).Ok?
  {
  }

  /** An indent of 0 becomes 2 as written and stays 0 as intended. */
  lemma ZeroIndent()
    ensures IndentSizeAsWritten(Some(0)) == 2
    ensures NewFormatter(NoArguments.(indentSize := Some(0))).Ok?
    ensures NewFormatter(NoArguments.(indentSize := Some(0))).value.indentSize == 0
  {
  }

  // ---------------------------------------------------------------- derive

  /** Each argument of `derive`, or the formatter's current setting when it is None. */
  function DeriveArguments(f: Formatter, d: Arguments): Arguments
  {
    Arguments(
      Some(d.blockWhen.GetOr(f.blockWhen)),
      Some(d.inlineWhen.GetOr(f.inlineWhen)),
      Some(d.normalizeWhitespaceWhen.GetOr(f.normalizeWhitespaceWhen)),
      Some(d.stripWhitespaceWhen.GetOr(f.stripWhitespaceWhen)),
      Some(d.preserveWhitespaceWhen.GetOr(f.preserveWhitespaceWhen)),
      Some(d.wrapAttributesWhen.GetOr(f.wrapAttributesWhen)),
      Some(d.reformatTextWhen.GetOr(f.reformatTextWhen)),
      Some(d.reformatAttributeWhen.GetOr(f.reformatAttributeWhen)),
      Some(d.escapingStrategy.GetOr(f.escapingStrategy)),
      Some(d.parsingStrategy.GetOr(f.parsingStrategy)),
      Some(d.doctypeStrategy.GetOr(f.doctypeStrategy)),
      Some(d.attributeStrategy.GetOr(f.attributeStrategy)),
      Some(d.indentSize.GetOr(f.indentSize)),
      Some(d.defaultType.GetOr(f.defaultType)),
      Some(d.preserveCdata.GetOr(f.PreserveCdata())))
  }

  /** `derive(...)`: the constructor run again on the merged arguments, validation included. */
  function Derive(f: Formatter, d: Arguments): Result<Formatter, Error>
  {
    NewFormatter(DeriveArguments(f, d))
  }

  /** `derive()` with no arguments gives back an equal formatter. */
  lemma DeriveNothing(f: Formatter)
    requires WellFormed(f)
    ensures Derive(f, NoArguments) == Ok(f)
  {
  }

  /**
   * `derive` replaces exactly the settings it is given and keeps the others;
   * it fails only when the resulting indent is negative.
   */
  lemma DeriveReplacesOnlyGiven(f: Formatter, d: Arguments)
    ensures Derive(f, d).Ok? <==> d.indentSize.GetOr(f.indentSize) >= 0
    ensures Derive(f, d).Ok? ==>
      var g := Derive(f, d).value;
      g.blockWhen == (if d.blockWhen.Some? then d.blockWhen.value else f.blockWhen)
      && g.inlineWhen == (if d.inlineWhen.Some? then d.inlineWhen.value else f.inlineWhen)
      && g.normalizeWhitespaceWhen == (if d.normalizeWhitespaceWhen.Some? then d.normalizeWhitespaceWhen.value else f.normalizeWhitespaceWhen)
      && g.stripWhitespaceWhen == (if d.stripWhitespaceWhen.Some? then d.stripWhitespaceWhen.value else f.stripWhitespaceWhen)
      && g.preserveWhitespaceWhen == (if d.preserveWhitespaceWhen.Some? then d.preserveWhitespaceWhen.value else f.preserveWhitespaceWhen)
      && g.wrapAttributesWhen == (if d.wrapAttributesWhen.Some? then d.wrapAttributesWhen.value else f.wrapAttributesWhen)
      && g.reformatTextWhen == (if d.reformatTextWhen.Some? then d.reformatTextWhen.value else f.reformatTextWhen)
      && g.reformatAttributeWhen == (if d.reformatAttributeWhen.Some? then d.reformatAttributeWhen.value else f.reformatAttributeWhen)
      && g.escapingStrategy == (if d.escapingStrategy.Some? then d.escapingStrategy.value else f.escapingStrategy)
      && g.parsingStrategy == (if d.parsingStrategy.Some? then d.parsingStrategy.value else f.parsingStrategy)
      && g.doctypeStrategy == (if d.doctypeStrategy.Some? then d.doctypeStrategy.value else f.doctypeStrategy)
      && g.attributeStrategy == (if d.attributeStrategy.Some? then d.attributeStrategy.value else f.attributeStrategy)
      && g.indentSize == (if d.indentSize.Some? then d.indentSize.value else f.indentSize)
      && g.defaultType == (if d.defaultType.Some? then d.defaultType.value else f.defaultType)
  {
  }

  /**
   * `derive` always hands the current parsing strategy on, so a
   * `preserve_cdata` given without a parsing strategy changes nothing.
   */
  lemma DerivePreserveCdataIgnored(f: Formatter, d: Arguments, b: bool)
    requires d.parsingStrategy.None?
    ensures Derive(f, d.(preserveCdata := Some(b))) == Derive(f, d)
    ensures Derive(f, d).Ok? ==> Derive(f, d).value.PreserveCdata() == f.PreserveCdata()
  {
  }

  /** Later arguments win: two derives in a row are one derive with the arguments merged. */
  function Merge(later: Arguments, earlier: Arguments): Arguments
  {
    Arguments(
      if later.blockWhen.Some? then later.blockWhen else earlier.blockWhen,
      if later.inlineWhen.Some? then later.inlineWhen else earlier.inlineWhen,
      if later.normalizeWhitespaceWhen.Some? then later.normalizeWhitespaceWhen else earlier.normalizeWhitespaceWhen,
      if later.stripWhitespaceWhen.Some? then later.stripWhitespaceWhen else earlier.stripWhitespaceWhen,
      if later.preserveWhitespaceWhen.Some? then later.preserveWhitespaceWhen else earlier.preserveWhitespaceWhen,
      if later.wrapAttributesWhen.Some? then later.wrapAttributesWhen else earlier.wrapAttributesWhen,
      if later.reformatTextWhen.Some? then later.reformatTextWhen else earlier.reformatTextWhen,
      if later.reformatAttributeWhen.Some? then later.reformatAttributeWhen else earlier.reformatAttributeWhen,
      if later.escapingStrategy.Some? then later.escapingStrategy else earlier.escapingStrategy,
      if later.parsingStrategy.Some? then later.parsingStrategy else earlier.parsingStrategy,
      if later.doctypeStrategy.Some? then later.doctypeStrategy else earlier.doctypeStrategy,
      if later.attributeStrategy.Some? then later.attributeStrategy else earlier.attributeStrategy,
      if later.indentSize.Some? then later.indentSize else earlier.indentSize,
      if later.defaultType.Some? then later.defaultType else earlier.defaultType,
      if later.preserveCdata.Some? then later.preserveCdata else earlier.preserveCdata)
  }

  lemma DeriveTwice(f: Formatter, d1: Arguments, d2: Arguments)
    requires Derive(f, d1).Ok?
    ensures Derive(Derive(f, d1).value, d2) == Derive(f, Merge(d2, d1))
  {
  }

  // ---------------------------------------------------------------- preparing for a document

  /** The text formatter table with each factory prepared against `root`, in the same order. */
  function PrepareText(fs: TextFactories, root: Node): (r: DocumentFormatter.TextFormatters)
    ensures |r| == |fs|
  {
    if fs == [] then [] else [(Predicates.Prepare(fs[0].0, root), fs[0].1)] + PrepareText(fs[1..], root)
  }

  /** Each prepared text predicate is its factory's test on `root`, paired with the factory's formatter. */
  lemma {:induction false} PrepareTextKeepsPairs(fs: TextFactories, root: Node, i: nat, p: Path)
    requires i < |fs|
    ensures PrepareText(fs, root)[i].1 == fs[i].1
    ensures PrepareText(fs, root)[i].0(p) == Predicates.Matches(fs[i].0, root, p)
  {
    if i > 0 {
      PrepareTextKeepsPairs(fs[1..], root, i - 1, p);
    }
  }

  /** The attribute formatter table with each factory called on `root`, in the same order. */
  function PrepareAttributes(fs: AttributeFactories, root: Node): (r: AttributeFormatting.UserFormatters)
    ensures |r| == |fs|
  {
    if fs == [] then [] else [(fs[0].0(root), fs[0].1)] + PrepareAttributes(fs[1..], root)
  }

  /** Each attribute factory is called on `root` and keeps its formatter and its place. */
  lemma {:induction false} PrepareAttributesKeepsPairs(fs: AttributeFactories, root: Node, i: nat)
    requires i < |fs|
    ensures PrepareAttributes(fs, root)[i] == (fs[i].0(root), fs[i].1)
  {
    if i > 0 {
      PrepareAttributesKeepsPairs(fs[1..], root, i - 1);
    }
  }

  /**
   * The arguments `_create_document_formatter` intends to pass: each
   * factory prepared once against `root`, the indent, and the default
   * type's value.
   */
  function DocumentArguments(f: Formatter, root: Node): DocumentFormatter.Arguments
  {
    DocumentFormatter.Arguments(
      Some(Predicates.Prepare(f.blockWhen, root)),
      Some(Predicates.Prepare(f.inlineWhen, root)),
      Some(Predicates.Prepare(f.normalizeWhitespaceWhen, root)),
      Some(Predicates.Prepare(f.stripWhitespaceWhen, root)),
      Some(Predicates.Prepare(f.preserveWhitespaceWhen, root)),
      Some(Predicates.Prepare(f.wrapAttributesWhen, root)),
      Some(PrepareText(f.reformatTextWhen, root)),
      Some(PrepareAttributes(f.reformatAttributeWhen, root)),
      Some(f.indentSize),
      Some(f.defaultType.Value()))
  }

  /**
   * `_create_document_formatter` as written passes `escaping_strategy`,
   * `doctype_strategy` and `attribute_strategy`, which
   * `DocumentFormatter.__init__` does not accept: every call raises TypeError.
   */
  function CreateDocumentFormatterAsWritten(f: Formatter, root: Node): (r: Result<DocumentFormatter.DocumentFormatter, Error>)
    ensures r.Err? && r.error.TypeError?
  {
    Err(TypeError("DocumentFormatter.__init__() got an unexpected keyword argument 'escaping_strategy'"))
  }

  /** Appending one prepared text formatter keeps the table equal to the prepared prefix. */
  lemma PrepareTextStep(fs: TextFactories, root: Node, i: nat)
    requires i < |fs|
    ensures PrepareText(fs[..i + 1], root) == PrepareText(fs[..i], root) + [(Predicates.Prepare(fs[i].0, root), fs[i].1)]
  {
    PrepareTextAppend(fs[..i], [fs[i]], root);
    assert fs[..i] + [fs[i]] == fs[..i + 1];
  }

  lemma {:induction false} PrepareTextAppend(a: TextFactories, b: TextFactories, root: Node)
    ensures PrepareText(a + b, root) == PrepareText(a, root) + PrepareText(b, root)
  {
    if a == [] {
      assert a + b == b;
    } else {
      assert (a + b)[1..] == a[1..] + b;
      PrepareTextAppend(a[1..], b, root);
    }
  }

  lemma PrepareAttributesStep(fs: AttributeFactories, root: Node, i: nat)
    requires i < |fs|
    ensures PrepareAttributes(fs[..i + 1], root) == PrepareAttributes(fs[..i], root) + [(fs[i].0(root), fs[i].1)]
  {
    PrepareAttributesAppend(fs[..i], [fs[i]], root);
    assert fs[..i] + [fs[i]] == fs[..i + 1];
  }

  lemma {:induction false} PrepareAttributesAppend(a: AttributeFactories, b: AttributeFactories, root: Node)
    ensures PrepareAttributes(a + b, root) == PrepareAttributes(a, root) + PrepareAttributes(b, root)
  {
    if a == [] {
      assert a + b == b;
    } else {
      assert (a + b)[1..] == a[1..] + b;
      PrepareAttributesAppend(a[1..], b, root);
    }
  }

  /**
   * `_create_document_formatter` as intended: the six factories and every
   * formatter-table factory are called once with `root`, each prepared
   * predicate keeps its formatter and its place, and the resulting
   * document formatter is always valid.
   */
  method CreateDocumentFormatter(f: Formatter, root: Node) returns (df: DocumentFormatter.DocumentFormatter)
    requires WellFormed(f)
    ensures DocumentFormatter.NewDocumentFormatter(DocumentArguments(f, root)) == Ok(df)
  {
    var blockPredicate := Predicates.Prepare(f.blockWhen, root);
    var inlinePredicate := Predicates.Prepare(f.inlineWhen, root);
    var normalizePredicate := Predicates.Prepare(f.normalizeWhitespaceWhen, root);
    var stripPredicate := Predicates.Prepare(f.stripWhitespaceWhen, root);
    var preservePredicate := Predicates.Prepare(f.preserveWhitespaceWhen, root);
    var wrapAttributesPredicate := Predicates.Prepare(f.wrapAttributesWhen, root);

    var textFormatters: DocumentFormatter.TextFormatters := [];
    var i := 0;
    while i < |f.reformatTextWhen|
      invariant 0 <= i <= |f.reformatTextWhen|
      invariant textFormatters == PrepareText(f.reformatTextWhen[..i], root)
    {
      var textPredicate := Predicates.Prepare(f.reformatTextWhen[i].0, root);
      PrepareTextStep(f.reformatTextWhen, root, i);
      textFormatters := textFormatters + [(textPredicate, f.reformatTextWhen[i].1)];
      i := i + 1;
    }
    assert f.reformatTextWhen[..i] == f.reformatTextWhen;

    var attributeFormatters: AttributeFormatting.UserFormatters := [];
    var j := 0;
    while j < |f.reformatAttributeWhen|
      invariant 0 <= j <= |f.reformatAttributeWhen|
      invariant attributeFormatters == PrepareAttributes(f.reformatAttributeWhen[..j], root)
    {
      var attributePredicate := f.reformatAttributeWhen[j].0(root);
      PrepareAttributesStep(f.reformatAttributeWhen, root, j);
      attributeFormatters := attributeFormatters + [(attributePredicate, f.reformatAttributeWhen[j].1)];
      j := j + 1;
    }
    assert f.reformatAttributeWhen[..j] == f.reformatAttributeWhen;

    var arguments := DocumentFormatter.Arguments(
      Some(blockPredicate), Some(inlinePredicate), Some(normalizePredicate), Some(stripPredicate),
      Some(preservePredicate), Some(wrapAttributesPredicate), Some(textFormatters), Some(attributeFormatters),
      Some(f.indentSize), Some(f.defaultType.Value()));
    assert arguments == DocumentArguments(f, root);
    var r := DocumentFormatter.NewDocumentFormatter(arguments);
    df := r.value;
  }

  /**
   * The document formatter prepared for `root` decides every question with
   * the formatter's factories evaluated on `root`, keeps the indent, and
   * uses the default type's value.
   */
  lemma PreparedAgreesWithFactories(f: Formatter, root: Node, p: Path)
    requires WellFormed(f)
    ensures DocumentFormatter.NewDocumentFormatter(DocumentArguments(f, root)).Ok?
    ensures var df := DocumentFormatter.NewDocumentFormatter(DocumentArguments(f, root)).value;
      df.markAsBlock(p) == Predicates.Matches(f.blockWhen, root, p)
      && df.markAsInline(p) == Predicates.Matches(f.inlineWhen, root, p)
      && df.mustNormalizeWhitespace(p) == Predicates.Matches(f.normalizeWhitespaceWhen, root, p)
      && df.mustStripWhitespace(p) == Predicates.Matches(f.stripWhitespaceWhen, root, p)
      && df.mustPreserveWhitespace(p) == Predicates.Matches(f.preserveWhitespaceWhen, root, p)
      && df.mustWrapAttributes(p) == Predicates.Matches(f.wrapAttributesWhen, root, p)
      && df.indentSize == f.indentSize
      && df.defaultType == Some(f.defaultType.Value())
      && |df.textContentFormatters| == |f.reformatTextWhen|
      && |df.attributeContentFormatters| == |f.reformatAttributeWhen|
  {
  }

  /**
   * The prepared tables keep every formatter at its place, paired with its
   * own factory prepared against `root`.
   */
  lemma PreparedTablesKeepPairs(f: Formatter, root: Node, i: nat, j: nat, p: Path)
    requires WellFormed(f) && i < |f.reformatTextWhen| && j < |f.reformatAttributeWhen|
    ensures DocumentFormatter.NewDocumentFormatter(DocumentArguments(f, root)).Ok?
    ensures var df := DocumentFormatter.NewDocumentFormatter(DocumentArguments(f, root)).value;
      df.textContentFormatters[i].1 == f.reformatTextWhen[i].1
      && df.textContentFormatters[i].0(p) == Predicates.Matches(f.reformatTextWhen[i].0, root, p)
      && df.attributeContentFormatters[j] == (f.reformatAttributeWhen[j].0(root), f.reformatAttributeWhen[j].1)
  {
    PrepareTextKeepsPairs(f.reformatTextWhen, root, i, p);
    PrepareAttributesKeepsPairs(f.reformatAttributeWhen, root, j);
  }

  /** The document formatter `root` is formatted with (the intended construction). */
  function Prepared(f: Formatter, root: Node): DocumentFormatter.DocumentFormatter
    requires WellFormed(f)
  {
    DocumentFormatter.NewDocumentFormatter(DocumentArguments(f, root)).value
  }

  /** `format_element`: prepare for `root`, then format it. */
  method FormatElement(f: Formatter, root: Node) returns (r: Result<string, Error>)
    requires WellFormed(f)
    ensures r == DocumentRendering.FormatElementSpec(Prepared(f, root), root)
  {
    var df := CreateDocumentFormatter(f, root);
    r := DocumentRendering.FormatElement(df, root);
  }

  /** `format_tree`: prepare for the document's root, then format the document. */
  method FormatTree(f: Formatter, doc: DocumentRendering.Document, doctype: Option<string>, xmlDeclaration: Option<bool>)
    returns (r: Result<string, Error>)
    requires WellFormed(f)
    ensures r == DocumentRendering.FormatTreeSpec(Prepared(f, doc.root), doc, doctype, xmlDeclaration)
  {
    var df := CreateDocumentFormatter(f, doc.root);
    r := DocumentRendering.FormatTree(df, doc, doctype, xmlDeclaration);
  }

  /**
   * A formatter's default type is always acceptable, so formatting an
   * element fails exactly when some node matches both the block and the
   * inline factory.
   */
  lemma FormatElementFailsOnlyOnConflict(f: Formatter, root: Node)
    requires WellFormed(f)
    ensures DocumentRendering.FormatElementSpec(Prepared(f, root), root).Err?
        <==> exists q :: Valid(root, q) && Predicates.Matches(f.blockWhen, root, q) && Predicates.Matches(f.inlineWhen, root, q)
  {
    var df := Prepared(f, root);
    DocumentRendering.FormatElementFails(df, root);
    PreparedTypes(f, root);
  }

  lemma PreparedTypes(f: Formatter, root: Node)
    requires WellFormed(f)
    ensures AnnotationPasses.IsBlockType(Prepared(f, root).defaultType)
    ensures DocumentFormatter.Conflict(Prepared(f, root), root)
        <==> exists q :: Valid(root, q) && Predicates.Matches(f.blockWhen, root, q) && Predicates.Matches(f.inlineWhen, root, q)
  {
    var df := Prepared(f, root);
    if DocumentFormatter.Conflict(df, root) {
      var q :| Valid(root, q) && df.markAsBlock(q) && df.markAsInline(q);
      PreparedAgreesWithFactories(f, root, q);
    }
    if exists q :: Valid(root, q) && Predicates.Matches(f.blockWhen, root, q) && Predicates.Matches(f.inlineWhen, root, q) {
      var q :| Valid(root, q) && Predicates.Matches(f.blockWhen, root, q) && Predicates.Matches(f.inlineWhen, root, q);
      PreparedAgreesWithFactories(f, root, q);
    }
  }
}
