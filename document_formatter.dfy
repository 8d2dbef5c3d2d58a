// markuplift/document_formatter.py, first half: the formatter's settings,
// the checks its constructor makes, and `_annotate_tree`, the fifteen
// passes that classify every node and lay the document out before it is
// written (the writing itself is in module DocumentRendering).
module DocumentFormatter {
  import opened Wrappers
  import opened Types
  import opened Text
  import opened Tree
  import opened Annotation
  import opened AnnotationPasses
  import opened AnnotationLayout
  import Utilities
  import AttributeFormatting

  /** `dict[ElementPredicate, TextContentFormatter]`, in insertion order. */
  type TextFormatters = seq<(Path -> bool, ValueFormatter)>

  /** The state a `DocumentFormatter` keeps; it never changes after construction. */
  datatype DocumentFormatter = DocumentFormatter(
    markAsBlock: Path -> bool,
    markAsInline: Path -> bool,
    mustNormalizeWhitespace: Path -> bool,
    mustStripWhitespace: Path -> bool,
    mustPreserveWhitespace: Path -> bool,
    mustWrapAttributes: Path -> bool,
    textContentFormatters: TextFormatters,
    attributeContentFormatters: AttributeFormatting.UserFormatters,
    indentSize: int,
    oneIndent: string,
    defaultType: Option<string>)

  /** The keyword arguments of `DocumentFormatter.__init__`; `None` is an omitted argument. */
  datatype Arguments = Arguments(
    blockPredicate: Option<Path -> bool>,
    inlinePredicate: Option<Path -> bool>,
    normalizeWhitespacePredicate: Option<Path -> bool>,
    stripWhitespacePredicate: Option<Path -> bool>,
    preserveWhitespacePredicate: Option<Path -> bool>,
    wrapAttributesPredicate: Option<Path -> bool>,
    textContentFormatters: Option<TextFormatters>,
    attributeContentFormatters: Option<AttributeFormatting.UserFormatters>,
    indentSize: Option<int>,
    defaultType: Option<string>)

  /** `never_match`. */
  const NeverMatch: Path -> bool := (p: Path) => false

  // ---------------------------------------------------------------- construction

  /** What a successful constructor leaves: a non-negative indent of spaces and a default type from `BLOCK_TYPES`. */
  predicate WellFormed(f: DocumentFormatter)
  {
    f.indentSize >= 0 && f.oneIndent == Repeat(" ", f.indentSize) && IsBlockType(f.defaultType)
  }

  function Configure(a: Arguments, size: nat): DocumentFormatter
  {
    DocumentFormatter(
      a.blockPredicate.GetOr(NeverMatch),
      a.inlinePredicate.GetOr(NeverMatch),
      a.normalizeWhitespacePredicate.GetOr(NeverMatch),
      a.stripWhitespacePredicate.GetOr(NeverMatch),
      a.preserveWhitespacePredicate.GetOr(NeverMatch),
      a.wrapAttributesPredicate.GetOr(NeverMatch),
      a.textContentFormatters.GetOr([]),
      a.attributeContentFormatters.GetOr([]),
      size,
      Repeat(" ", size),
      a.defaultType)
  }

  function IndentSizeMessage(size: int): string
  {
    "indent_size " + IntToString(size) + " is less than 0"
  }

  /**
   * `DocumentFormatter.__init__` with its `default_type` message built as
   * intended: omitted predicates never match, omitted formatter tables are
   * empty, the indent defaults to 2 spaces, and a negative indent or a
   * default type outside `BLOCK_TYPES` is refused with ValueError.
   */
  function NewDocumentFormatter(a: Arguments): (r: Result<DocumentFormatter, Error>)
    ensures r.Ok? <==> a.indentSize.GetOr(2) >= 0 && IsBlockType(a.defaultType)
    ensures r.Err? ==> r.error.ValueError?
    ensures a.indentSize.GetOr(2) < 0 ==> r == Err(ValueError(IndentSizeMessage(a.indentSize.GetOr(2))))
    ensures r.Ok? ==> WellFormed(r.value) && r.value.indentSize == a.indentSize.GetOr(2)
                      && |r.value.oneIndent| == r.value.indentSize && AllSpace(r.value.oneIndent)
    ensures r.Ok? ==> r.value.defaultType == a.defaultType
                      && r.value.textContentFormatters == a.textContentFormatters.GetOr([])
                      && r.value.attributeContentFormatters == a.attributeContentFormatters.GetOr([])
    ensures r.Ok? ==> forall p :: r.value.markAsBlock(p) == (a.blockPredicate.Some? && a.blockPredicate.value(p))
    ensures r.Ok? ==> forall p :: r.value.markAsInline(p) == (a.inlinePredicate.Some? && a.inlinePredicate.value(p))
    ensures r.Ok? ==> forall p ::
                        r.value.mustNormalizeWhitespace(p)
                        == (a.normalizeWhitespacePredicate.Some? && a.normalizeWhitespacePredicate.value(p))
    ensures r.Ok? ==> forall p ::
                        r.value.mustStripWhitespace(p) == (a.stripWhitespacePredicate.Some? && a.stripWhitespacePredicate.value(p))
    ensures r.Ok? ==> forall p ::
                        r.value.mustPreserveWhitespace(p)
                        == (a.preserveWhitespacePredicate.Some? && a.preserveWhitespacePredicate.value(p))
    ensures r.Ok? ==> forall p ::
                        r.value.mustWrapAttributes(p) == (a.wrapAttributesPredicate.Some? && a.wrapAttributesPredicate.value(p))
  {
    var size := a.indentSize.GetOr(2);
    if size < 0 then Err(ValueError(IndentSizeMessage(size)))
    else if !IsBlockType(a.defaultType) then
      Err(ValueError("default_type " + a.defaultType.value + " is not one of 'None, block, inline'"))
    else Ok(Configure(a, size))
  }

  /**
   * `DocumentFormatter.__init__` as written: the `default_type` message
   * joins `BLOCK_TYPES`, which contains None, so building it raises
   * TypeError before the ValueError is made. Everything else agrees.
   */
  function NewDocumentFormatterAsWritten(a: Arguments): (r: Result<DocumentFormatter, Error>)
    ensures a.indentSize.GetOr(2) >= 0 && !IsBlockType(a.defaultType) ==> r.Err? && r.error.TypeError?
    ensures a.indentSize.GetOr(2) < 0 || IsBlockType(a.defaultType) ==> r == NewDocumentFormatter(a)
  {
    var size := a.indentSize.GetOr(2);
    if size < 0 then Err(ValueError(IndentSizeMessage(size)))
    else if !IsBlockType(a.defaultType) then Err(TypeError("sequence item: expected str instance, NoneType found"))
    else Ok(Configure(a, size))
  }

  /** A default type of "section" shows the discrepancy: TypeError as written, ValueError as intended. */
  lemma InvalidDefaultTypeError()
    ensures var a := Arguments(None, None, None, None, None, None, None, None, None, Some("section"));
            NewDocumentFormatterAsWritten(a).Err? && NewDocumentFormatterAsWritten(a).error.TypeError?
            && NewDocumentFormatter(a).Err? && NewDocumentFormatter(a).error.ValueError?
  {
    var a := Arguments(None, None, None, None, None, None, None, None, None, Some("section"));
    assert !IsBlockType(a.defaultType);
  }

  // ---------------------------------------------------------------- _annotate_tree: classification

  /** The next pass, unless an earlier one raised. */
  function Then(root: Node, o: Outcome, ps: Pass): Outcome
  {
    if o.err.Some? then o else MatchAll(root, ps, o.table)
  }

  // The store after each of the first ten passes of `_annotate_tree`, starting from an empty one.
  function Stage1(f: DocumentFormatter, root: Node): Outcome { MatchAll(root, ExplicitBlockPass(f.markAsBlock), map[]) }
  function Stage2(f: DocumentFormatter, root: Node): Outcome { Then(root, Stage1(f, root), ExplicitInlinePass(f.markAsInline)) }
  function Stage3(f: DocumentFormatter, root: Node): Outcome { Then(root, Stage2(f, root), MixedContentInlinePass) }
  function Stage4(f: DocumentFormatter, root: Node): Outcome { Then(root, Stage3(f, root), InlineDescendantsPass) }
  function Stage5(f: DocumentFormatter, root: Node): Outcome { Then(root, Stage4(f, root), UnmixedBlockPass) }
  function Stage6(f: DocumentFormatter, root: Node): Outcome
  {
    Then(root, Stage5(f, root), ExplicitPreservePass(f.mustPreserveWhitespace))
  }
  function Stage7(f: DocumentFormatter, root: Node): Outcome { Then(root, Stage6(f, root), PreserveDescendantsPass) }
  function Stage8(f: DocumentFormatter, root: Node): Outcome
  {
    Then(root, Stage7(f, root), ExplicitNormalizePass(f.mustNormalizeWhitespace))
  }
  function Stage9(f: DocumentFormatter, root: Node): Outcome
  {
    Then(root, Stage8(f, root), ExplicitStripPass(f.mustStripWhitespace))
  }
  function Stage10(f: DocumentFormatter, root: Node): Outcome { Then(root, Stage9(f, root), XmlSpacePass) }

  /** The store after the eleven classification passes (types and whitespace modes). */
  function Classified(f: DocumentFormatter, root: Node): Outcome
  {
    var o := Stage10(f, root);
    if o.err.Some? then o else AnnotateUntyped(root, f.defaultType, o.table)
  }

  /** Some node is marked both block and inline. */
  ghost predicate Conflict(f: DocumentFormatter, root: Node)
  {
    exists q :: Valid(root, q) && f.markAsBlock(q) && f.markAsInline(q)
  }

  /** The type the two explicit passes give. */
  function ExplicitType(f: DocumentFormatter, q: Path): Value
  {
    if f.markAsBlock(q) then VStr(BLOCK_TYPE) else if f.markAsInline(q) then VStr(INLINE_TYPE) else VNone
  }

  /** The type after the mixed-content pass: an explicit type, else inline in mixed content. */
  function MixedType(f: DocumentFormatter, root: Node, q: Path): Value
    requires Valid(root, q)
  {
    if ExplicitType(f, q) != VNone then ExplicitType(f, q)
    else if Utilities.IsInMixedContent(root, q) then VStr(INLINE_TYPE)
    else VNone
  }

  /** The node or one of its ancestors is marked whitespace-preserving. */
  predicate PreserveReach(pred: Path -> bool, q: Path)
    decreases |q|
  {
    pred(q) || (q != [] && PreserveReach(pred, Parent(q)))
  }

  /**
   * The whitespace mode a node ends with, by precedence: "strict" under
   * `xml:space="preserve"`, then an explicit strip, then an explicit
   * normalize, then "preserve" when it or an ancestor is marked so.
   */
  function Whitespace(f: DocumentFormatter, root: Node, q: Path): Value
    requires Valid(root, q)
  {
    if StrictReach(root, q) then VStr(STRICT)
    else if f.mustStripWhitespace(q) then VStr(STRIP)
    else if f.mustNormalizeWhitespace(q) then VStr(NORMALIZE)
    else if PreserveReach(f.mustPreserveWhitespace, q) then VStr(PRESERVE)
    else VNone
  }

  /** The two explicit passes fail exactly on a node marked both ways. */
  lemma ExplicitStages(f: DocumentFormatter, root: Node)
    ensures Stage2(f, root).err.Some? <==> Conflict(f, root)
    ensures Stage2(f, root).err.Some? ==> Stage2(f, root).err.value.AnnotationConflictError?
    ensures Stage2(f, root).err.None? ==>
              forall q :: Valid(root, q) ==>
                Get(Stage2(f, root).table, q, TYPE_KEY, VNone) == ExplicitType(f, q)
                && Get(Stage2(f, root).table, q, WHITESPACE_KEY, VNone) == VNone
  {
    var p1 := ExplicitBlockPass(f.markAsBlock);
    var p2 := ExplicitInlinePass(f.markAsInline);
    var t1 := Stage1(f, root).table;
    TableFreeRaise(root, p1, map[]);
    assert Stage1(f, root).err.None?;
    forall q | Valid(root, q)
      ensures Get(t1, q, TYPE_KEY, VNone) == if f.markAsBlock(q) then VStr(BLOCK_TYPE) else VNone
      ensures Get(t1, q, WHITESPACE_KEY, VNone) == VNone
    {
      TableFreePass(root, p1, map[], q, TYPE_KEY, VNone);
      TableFreePass(root, p1, map[], q, WHITESPACE_KEY, VNone);
    }
    TableFreeRaise(root, p2, t1);
    MatchAllRaisesConflict(root, p2, t1);
    if Stage2(f, root).err.None? {
      forall q | Valid(root, q)
        ensures Get(Stage2(f, root).table, q, TYPE_KEY, VNone) == ExplicitType(f, q)
        ensures Get(Stage2(f, root).table, q, WHITESPACE_KEY, VNone) == VNone
      {
        TableFreePass(root, p2, t1, q, TYPE_KEY, VNone);
        TableFreePass(root, p2, t1, q, WHITESPACE_KEY, VNone);
      }
    }
  }

  /** The three derived type passes: mixed content, inline inheritance, block inheritance. */
  lemma TypeStages(f: DocumentFormatter, root: Node)
    requires Stage2(f, root).err.None?
    ensures Stage5(f, root).err.None?
    ensures forall q :: Valid(root, q) ==> Get(Stage3(f, root).table, q, TYPE_KEY, VNone) == MixedType(f, root, q)
    ensures forall q :: Valid(root, q) ==>
              Get(Stage4(f, root).table, q, TYPE_KEY, VNone) == Inherited(root, Stage3(f, root).table, TYPE_KEY, VStr(INLINE_TYPE), q)
    ensures forall q :: Valid(root, q) ==>
              Get(Stage5(f, root).table, q, TYPE_KEY, VNone) == UnmixedBlock(root, Stage4(f, root).table, q)
    ensures forall q :: Valid(root, q) ==> Get(Stage5(f, root).table, q, WHITESPACE_KEY, VNone) == VNone
  {
    ExplicitStages(f, root);
    var t2 := Stage2(f, root).table;
    MatchAllNoRaise(root, MixedContentInlinePass, t2);
    var t3 := Stage3(f, root).table;
    MatchAllNoRaise(root, InlineDescendantsPass, t3);
    var t4 := Stage4(f, root).table;
    MatchAllNoRaise(root, UnmixedBlockPass, t4);
    forall q | Valid(root, q)
      ensures Get(t3, q, TYPE_KEY, VNone) == MixedType(f, root, q)
      ensures Get(t4, q, TYPE_KEY, VNone) == Inherited(root, t3, TYPE_KEY, VStr(INLINE_TYPE), q)
      ensures Get(Stage5(f, root).table, q, TYPE_KEY, VNone) == UnmixedBlock(root, t4, q)
      ensures Get(Stage5(f, root).table, q, WHITESPACE_KEY, VNone) == VNone
    {
      TableFreePass(root, MixedContentInlinePass, t2, q, TYPE_KEY, VNone);
      InheritPass(root, t3, TYPE_KEY, VStr(INLINE_TYPE), q);
      UnmixedBlockPassResult(root, t4, q);
      PassFrame(root, MixedContentInlinePass, t2, q, WHITESPACE_KEY, VNone);
      PassFrame(root, InlineDescendantsPass, t3, q, WHITESPACE_KEY, VNone);
      PassFrame(root, UnmixedBlockPass, t4, q, WHITESPACE_KEY, VNone);
    }
  }

  /** Inheriting "preserve" from explicitly marked nodes reaches exactly their descendants. */
  lemma {:induction false} InheritedPreserve(root: Node, t: Table, pred: Path -> bool, q: Path)
    requires Valid(root, q)
    requires forall r :: Valid(root, r) ==> Get(t, r, WHITESPACE_KEY, VNone) == if pred(r) then VStr(PRESERVE) else VNone
    ensures Inherited(root, t, WHITESPACE_KEY, VStr(PRESERVE), q) == if PreserveReach(pred, q) then VStr(PRESERVE) else VNone
    decreases |q|
  {
    if q != [] {
      ParentStep(root, q);
      InheritedPreserve(root, t, pred, Parent(q));
    }
  }

  /** The two preserve passes: explicit marks, then inheritance to descendants. */
  lemma PreserveStages(f: DocumentFormatter, root: Node)
    requires Stage5(f, root).err.None?
    requires forall q :: Valid(root, q) ==> Get(Stage5(f, root).table, q, WHITESPACE_KEY, VNone) == VNone
    ensures Stage7(f, root).err.None?
    ensures forall r :: Valid(root, r) ==>
              Get(Stage7(f, root).table, r, WHITESPACE_KEY, VNone)
              == if PreserveReach(f.mustPreserveWhitespace, r) then VStr(PRESERVE) else VNone
    ensures forall r :: Valid(root, r) ==>
              Get(Stage7(f, root).table, r, TYPE_KEY, VNone) == Get(Stage5(f, root).table, r, TYPE_KEY, VNone)
  {
    var t5 := Stage5(f, root).table;
    var p6 := ExplicitPreservePass(f.mustPreserveWhitespace);
    MatchAllNoRaise(root, p6, t5);
    assert Stage6(f, root) == MatchAll(root, p6, t5);
    var t6 := Stage6(f, root).table;
    MatchAllNoRaise(root, PreserveDescendantsPass, t6);
    assert Stage7(f, root) == MatchAll(root, PreserveDescendantsPass, t6);
    forall r | Valid(root, r)
      ensures Get(t6, r, WHITESPACE_KEY, VNone) == if f.mustPreserveWhitespace(r) then VStr(PRESERVE) else VNone
    {
      TableFreePass(root, p6, t5, r, WHITESPACE_KEY, VNone);
    }
    forall r | Valid(root, r)
      ensures Get(Stage7(f, root).table, r, WHITESPACE_KEY, VNone)
              == if PreserveReach(f.mustPreserveWhitespace, r) then VStr(PRESERVE) else VNone
      ensures Get(Stage7(f, root).table, r, TYPE_KEY, VNone) == Get(t5, r, TYPE_KEY, VNone)
    {
      InheritPass(root, t6, WHITESPACE_KEY, VStr(PRESERVE), r);
      InheritedPreserve(root, t6, f.mustPreserveWhitespace, r);
      PassFrame(root, p6, t5, r, TYPE_KEY, VNone);
      PassFrame(root, PreserveDescendantsPass, t6, r, TYPE_KEY, VNone);
    }
  }

  /** The normalize and strip passes overwrite the inherited modes of the nodes they mark. */
  lemma NormalizeStripStages(f: DocumentFormatter, root: Node)
    requires Stage5(f, root).err.None?
    requires forall q :: Valid(root, q) ==> Get(Stage5(f, root).table, q, WHITESPACE_KEY, VNone) == VNone
    ensures Stage9(f, root).err.None?
    ensures forall r :: Valid(root, r) ==>
              Get(Stage9(f, root).table, r, WHITESPACE_KEY, VNone)
              == if f.mustStripWhitespace(r) then VStr(STRIP)
                 else if f.mustNormalizeWhitespace(r) then VStr(NORMALIZE)
                 else if PreserveReach(f.mustPreserveWhitespace, r) then VStr(PRESERVE)
                 else VNone
    ensures forall r :: Valid(root, r) ==>
              Get(Stage9(f, root).table, r, TYPE_KEY, VNone) == Get(Stage5(f, root).table, r, TYPE_KEY, VNone)
  {
    PreserveStages(f, root);
    var t7 := Stage7(f, root).table;
    var p8 := ExplicitNormalizePass(f.mustNormalizeWhitespace);
    MatchAllNoRaise(root, p8, t7);
    assert Stage8(f, root) == MatchAll(root, p8, t7);
    var t8 := Stage8(f, root).table;
    var p9 := ExplicitStripPass(f.mustStripWhitespace);
    MatchAllNoRaise(root, p9, t8);
    assert Stage9(f, root) == MatchAll(root, p9, t8);
    forall r | Valid(root, r)
      ensures Get(Stage9(f, root).table, r, WHITESPACE_KEY, VNone)
              == if f.mustStripWhitespace(r) then VStr(STRIP)
                 else if f.mustNormalizeWhitespace(r) then VStr(NORMALIZE)
                 else if PreserveReach(f.mustPreserveWhitespace, r) then VStr(PRESERVE)
                 else VNone
      ensures Get(Stage9(f, root).table, r, TYPE_KEY, VNone) == Get(Stage5(f, root).table, r, TYPE_KEY, VNone)
    {
      TableFreePass(root, p8, t7, r, WHITESPACE_KEY, VNone);
      TableFreePass(root, p9, t8, r, WHITESPACE_KEY, VNone);
      PassFrame(root, p8, t7, r, TYPE_KEY, VNone);
      PassFrame(root, p9, t8, r, TYPE_KEY, VNone);
    }
  }

  /** The `xml:space` pass over the store the strip pass leaves gives every node its final mode. */
  lemma XmlSpaceStage(f: DocumentFormatter, root: Node, t: Table)
    requires forall r :: Valid(root, r) ==>
               Get(t, r, WHITESPACE_KEY, VNone)
               == if f.mustStripWhitespace(r) then VStr(STRIP)
                  else if f.mustNormalizeWhitespace(r) then VStr(NORMALIZE)
                  else if PreserveReach(f.mustPreserveWhitespace, r) then VStr(PRESERVE)
                  else VNone
    ensures MatchAll(root, XmlSpacePass, t).err.None?
    ensures forall q :: Valid(root, q) ==> Get(MatchAll(root, XmlSpacePass, t).table, q, WHITESPACE_KEY, VNone) == Whitespace(f, root, q)
    ensures forall q :: Valid(root, q) ==> Get(MatchAll(root, XmlSpacePass, t).table, q, TYPE_KEY, VNone) == Get(t, q, TYPE_KEY, VNone)
  {
    forall q | Valid(root, q)
      ensures Get(MatchAll(root, XmlSpacePass, t).table, q, WHITESPACE_KEY, VNone) == Whitespace(f, root, q)
      ensures Get(MatchAll(root, XmlSpacePass, t).table, q, TYPE_KEY, VNone) == Get(t, q, TYPE_KEY, VNone)
    {
      XmlSpacePassResult(root, t, q);
      PassFrame(root, XmlSpacePass, t, q, TYPE_KEY, VNone);
    }
    XmlSpacePassResult(root, t, []);
  }

  /** The five whitespace passes leave `Whitespace` at every node and the types alone. */
  lemma WhitespaceStages(f: DocumentFormatter, root: Node)
    requires Stage2(f, root).err.None?
    ensures Stage10(f, root).err.None?
    ensures forall q :: Valid(root, q) ==> Get(Stage10(f, root).table, q, WHITESPACE_KEY, VNone) == Whitespace(f, root, q)
    ensures forall q :: Valid(root, q) ==>
              Get(Stage10(f, root).table, q, TYPE_KEY, VNone) == Get(Stage5(f, root).table, q, TYPE_KEY, VNone)
  {
    TypeStages(f, root);
    NormalizeStripStages(f, root);
    var t9 := Stage9(f, root).table;
    assert Stage10(f, root) == MatchAll(root, XmlSpacePass, t9);
    XmlSpaceStage(f, root, t9);
  }

  /** The type a node ends with when the passes succeed. */
  function FinalType(f: DocumentFormatter, root: Node, q: Path): Value
    requires Valid(root, q)
  {
    var v := UnmixedBlock(root, Stage4(f, root).table, q);
    if v == VNone then TypeValue(f.defaultType) else v
  }

  /**
   * `_annotate_tree`'s classification: it fails exactly on a node marked
   * both block and inline (AnnotationConflictError) or on a default type
   * outside `BLOCK_TYPES` (ValueError); otherwise every node ends with
   * `FinalType` and the whitespace mode `Whitespace`.
   */
  lemma Classification(f: DocumentFormatter, root: Node)
    ensures Classified(f, root).err.Some? <==> Conflict(f, root) || !IsBlockType(f.defaultType)
    ensures Conflict(f, root) ==> Classified(f, root).err.value.AnnotationConflictError?
    ensures !Conflict(f, root) && !IsBlockType(f.defaultType) ==> Classified(f, root).err.value.ValueError?
    ensures Classified(f, root).err.None? ==>
              forall q :: Valid(root, q) ==>
                Get(Classified(f, root).table, q, TYPE_KEY, VNone) == FinalType(f, root, q)
                && Get(Classified(f, root).table, q, WHITESPACE_KEY, VNone) == Whitespace(f, root, q)
  {
    ExplicitStages(f, root);
    if Stage2(f, root).err.None? {
      TypeStages(f, root);
      WhitespaceStages(f, root);
      var t10 := Stage10(f, root).table;
      if IsBlockType(f.defaultType) {
        forall q | Valid(root, q)
          ensures Get(Classified(f, root).table, q, TYPE_KEY, VNone) == FinalType(f, root, q)
          ensures Get(Classified(f, root).table, q, WHITESPACE_KEY, VNone) == Whitespace(f, root, q)
        {
          UntypedPassResult(root, f.defaultType, t10, q);
          PassFrame(root, UntypedPass(f.defaultType), t10, q, WHITESPACE_KEY, VNone);
        }
        UntypedPassResult(root, f.defaultType, t10, []);
      }
    }
  }

  /** Explicit marks win: a node marked block ends block, one marked inline ends inline. */
  lemma ExplicitTypesWin(f: DocumentFormatter, root: Node, q: Path)
    requires Valid(root, q) && Classified(f, root).err.None?
    ensures f.markAsBlock(q) ==> Get(Classified(f, root).table, q, TYPE_KEY, VNone) == VStr(BLOCK_TYPE)
    ensures f.markAsInline(q) ==> Get(Classified(f, root).table, q, TYPE_KEY, VNone) == VStr(INLINE_TYPE)
  {
    Classification(f, root);
    ExplicitStages(f, root);
    TypeStages(f, root);
    if f.markAsInline(q) {
      assert !f.markAsBlock(q);
    }
  }

  /** An element not marked block that shares its parent with significant text ends inline. */
  lemma MixedContentIsInline(f: DocumentFormatter, root: Node, q: Path)
    requires Valid(root, q) && Classified(f, root).err.None?
    requires !f.markAsBlock(q) && Utilities.IsInMixedContent(root, q)
    ensures Get(Classified(f, root).table, q, TYPE_KEY, VNone) == VStr(INLINE_TYPE)
  {
    Classification(f, root);
    ExplicitStages(f, root);
    TypeStages(f, root);
  }

  /** Inline flows down: the child of an inline node ends inline unless it is marked block. */
  lemma InlineIsInherited(f: DocumentFormatter, root: Node, q: Path)
    requires Valid(root, q) && q != [] && Classified(f, root).err.None?
    requires !f.markAsBlock(q)
    requires Get(Classified(f, root).table, Parent(q), TYPE_KEY, VNone) == VStr(INLINE_TYPE)
    ensures Get(Classified(f, root).table, q, TYPE_KEY, VNone) == VStr(INLINE_TYPE)
  {
    Classification(f, root);
    ExplicitStages(f, root);
    TypeStages(f, root);
    ParentStep(root, q);
    var p := Parent(q);
    var t3 := Stage3(f, root).table;
    var t4 := Stage4(f, root).table;
    var inl := VStr(INLINE_TYPE);
    assert FinalType(f, root, p) == inl;
    if MixedType(f, root, q) == VNone && Inherited(root, t3, TYPE_KEY, inl, p) != inl {
      assert Inherited(root, t3, TYPE_KEY, inl, q) == VNone;
      assert Get(t4, p, TYPE_KEY, VNone) != inl;
      assert Get(t4, p, TYPE_KEY, VNone) == VNone;
      assert UnmixedBlock(root, t4, p) == VNone;
      assert f.defaultType == Some(INLINE_TYPE);
      assert UnmixedBlock(root, t4, q) == VNone;
    }
  }

  /** Every node ends "block" or "inline", or untyped when the default type is None. */
  lemma TypesAreBlockOrInline(f: DocumentFormatter, root: Node, q: Path)
    requires Valid(root, q) && Classified(f, root).err.None?
    ensures var v := Get(Classified(f, root).table, q, TYPE_KEY, VNone);
            v == VStr(BLOCK_TYPE) || v == VStr(INLINE_TYPE) || (v == VNone && f.defaultType.None?)
  {
    Classification(f, root);
    ExplicitStages(f, root);
    TypeStages(f, root);
    var t3 := Stage3(f, root).table;
    var t4 := Stage4(f, root).table;
    InheritedRange(root, t3, TYPE_KEY, VStr(INLINE_TYPE), q);
    UnmixedBlockRange(root, t4, q);
  }

  lemma {:induction false} InheritedRange(root: Node, t: Table, key: string, v: Value, q: Path)
    requires Valid(root, q)
    ensures var w := Inherited(root, t, key, v, q);
            w == Get(t, q, key, VNone) || w == v || w == VNone
    decreases |q|
  {
  }

  lemma UnmixedBlockRange(root: Node, t: Table, q: Path)
    requires Valid(root, q)
    ensures var w := UnmixedBlock(root, t, q);
            w == Get(t, q, TYPE_KEY, VNone) || w == VStr(BLOCK_TYPE) || w == VNone
  {
  }

  // ---------------------------------------------------------------- _annotate_tree: layout

  /** The store after the first two layout passes: logical and physical levels at every node. */
  function Levels(root: Node, t: Table): Table
  {
    var L := Preorder(root);
    var t1 := PutAll(t, LOGICAL_LEVEL_KEY, L, (q: Path) => VInt(|q|));
    PutAll(t1, PHYSICAL_LEVEL_KEY, L, (q: Path) => if Valid(root, q) then VInt(PhysicalLevel(root, t1, q)) else VNone)
  }

  /**
   * The store the four layout passes make from the classified store `t`:
   * logical and physical levels, then the text and tail transform lists,
   * each written at every node.
   */
  function Layout(root: Node, t: Table, oneIndent: string): Table
  {
    var L := Preorder(root);
    var t2 := Levels(root, t);
    var t3 := PutAll(t2, TEXT_TRANSFORMS_KEY, L,
                     (q: Path) => if Valid(root, q) then VTransforms(TextTransformsFor(root, t2, q, oneIndent)) else VNone);
    PutAll(t3, TAIL_TRANSFORMS_KEY, L,
           (q: Path) => if Valid(root, q) then VTransforms(TailTransformsFor(root, t3, q, oneIndent)) else VNone)
  }

  /** The level passes write the depth and the physical level, and keep types and whitespace modes. */
  lemma LevelEntries(root: Node, t: Table, q: Path, d: Value)
    requires Valid(root, q)
    ensures var t2 := Levels(root, t);
            Get(t2, q, LOGICAL_LEVEL_KEY, d) == VInt(|q|)
            && Get(t2, q, PHYSICAL_LEVEL_KEY, d) == VInt(PhysicalLevel(root, t, q))
            && Get(t2, q, TYPE_KEY, d) == Get(t, q, TYPE_KEY, d)
            && Get(t2, q, WHITESPACE_KEY, d) == Get(t, q, WHITESPACE_KEY, d)
  {
    var L := Preorder(root);
    PreorderMembers(root, q);
    var s1 := (q: Path) => VInt(|q|);
    var t1 := PutAll(t, LOGICAL_LEVEL_KEY, L, s1);
    var s2 := (q: Path) => if Valid(root, q) then VInt(PhysicalLevel(root, t1, q)) else VNone;
    assert Levels(root, t) == PutAll(t1, PHYSICAL_LEVEL_KEY, L, s2);
    forall r | true
      ensures Get(t1, r, TYPE_KEY, VNone) == Get(t, r, TYPE_KEY, VNone)
    {
      GetPutAll(t, LOGICAL_LEVEL_KEY, L, s1, r, TYPE_KEY, VNone);
    }
    PhysicalLevelFrame(root, t1, t, q);
    GetPutAll(t, LOGICAL_LEVEL_KEY, L, s1, q, LOGICAL_LEVEL_KEY, d);
    GetPutAll(t1, PHYSICAL_LEVEL_KEY, L, s2, q, LOGICAL_LEVEL_KEY, d);
    GetPutAll(t1, PHYSICAL_LEVEL_KEY, L, s2, q, PHYSICAL_LEVEL_KEY, d);
    GetPutAll(t, LOGICAL_LEVEL_KEY, L, s1, q, TYPE_KEY, d);
    GetPutAll(t1, PHYSICAL_LEVEL_KEY, L, s2, q, TYPE_KEY, d);
    GetPutAll(t, LOGICAL_LEVEL_KEY, L, s1, q, WHITESPACE_KEY, d);
    GetPutAll(t1, PHYSICAL_LEVEL_KEY, L, s2, q, WHITESPACE_KEY, d);
  }

  /**
   * The transform passes keep every other entry, and the lists they write
   * agree with the final store itself.
   */
  lemma TransformEntries(root: Node, t: Table, oneIndent: string, q: Path, d: Value)
    requires Valid(root, q)
    ensures var t2 := Levels(root, t);
            var lt := Layout(root, t, oneIndent);
            (forall k :: k != TEXT_TRANSFORMS_KEY && k != TAIL_TRANSFORMS_KEY ==> Get(lt, q, k, d) == Get(t2, q, k, d))
            && Get(lt, q, TEXT_TRANSFORMS_KEY, d) == VTransforms(TextTransformsFor(root, lt, q, oneIndent))
            && Get(lt, q, TAIL_TRANSFORMS_KEY, d) == VTransforms(TailTransformsFor(root, lt, q, oneIndent))
  {
    var L := Preorder(root);
    PreorderMembers(root, q);
    var t2 := Levels(root, t);
    var s3 := (q: Path) => if Valid(root, q) then VTransforms(TextTransformsFor(root, t2, q, oneIndent)) else VNone;
    var t3 := PutAll(t2, TEXT_TRANSFORMS_KEY, L, s3);
    var s4 := (q: Path) => if Valid(root, q) then VTransforms(TailTransformsFor(root, t3, q, oneIndent)) else VNone;
    var lt := PutAll(t3, TAIL_TRANSFORMS_KEY, L, s4);
    assert lt == Layout(root, t, oneIndent);
    forall r, k, e | k != TEXT_TRANSFORMS_KEY && k != TAIL_TRANSFORMS_KEY
      ensures Get(lt, r, k, e) == Get(t2, r, k, e)
      ensures Get(t3, r, k, e) == Get(t2, r, k, e)
    {
      GetPutAll(t3, TAIL_TRANSFORMS_KEY, L, s4, r, k, e);
      GetPutAll(t2, TEXT_TRANSFORMS_KEY, L, s3, r, k, e);
    }
    TransformsFrame(root, t2, lt, q, oneIndent);
    TransformsFrame(root, t3, lt, q, oneIndent);
    GetPutAll(t2, TEXT_TRANSFORMS_KEY, L, s3, q, TEXT_TRANSFORMS_KEY, d);
    GetPutAll(t3, TAIL_TRANSFORMS_KEY, L, s4, q, TEXT_TRANSFORMS_KEY, d);
    GetPutAll(t3, TAIL_TRANSFORMS_KEY, L, s4, q, TAIL_TRANSFORMS_KEY, d);
  }

  /**
   * What the laid-out store holds at each node: its depth as logical level,
   * the physical level computed from the classified types, the classified
   * type and whitespace mode unchanged, and text and tail transforms that
   * agree with the final store itself.
   */
  lemma LayoutEntries(root: Node, t: Table, oneIndent: string, q: Path, d: Value)
    requires Valid(root, q)
    ensures var lt := Layout(root, t, oneIndent);
            Get(lt, q, LOGICAL_LEVEL_KEY, d) == VInt(|q|)
            && Get(lt, q, PHYSICAL_LEVEL_KEY, d) == VInt(PhysicalLevel(root, t, q))
            && Get(lt, q, TYPE_KEY, d) == Get(t, q, TYPE_KEY, d)
            && Get(lt, q, WHITESPACE_KEY, d) == Get(t, q, WHITESPACE_KEY, d)
            && Get(lt, q, TEXT_TRANSFORMS_KEY, d) == VTransforms(TextTransformsFor(root, lt, q, oneIndent))
            && Get(lt, q, TAIL_TRANSFORMS_KEY, d) == VTransforms(TailTransformsFor(root, lt, q, oneIndent))
  {
    LevelEntries(root, t, q, d);
    TransformEntries(root, t, oneIndent, q, d);
    var lt := Layout(root, t, oneIndent);
    var t2 := Levels(root, t);
    assert Get(lt, q, LOGICAL_LEVEL_KEY, d) == Get(t2, q, LOGICAL_LEVEL_KEY, d);
    assert Get(lt, q, PHYSICAL_LEVEL_KEY, d) == Get(t2, q, PHYSICAL_LEVEL_KEY, d);
    assert Get(lt, q, TYPE_KEY, d) == Get(t2, q, TYPE_KEY, d);
    assert Get(lt, q, WHITESPACE_KEY, d) == Get(t2, q, WHITESPACE_KEY, d);
  }

  /** One layout pass run on a store that matches `c0` leaves a store that matches `PutAll` on `c0`. */
  lemma LayoutStep(root: Node, a0: Table, c0: Table, a1: Table, key: string, spec: Path -> Value)
    requires SameEntries(a0, c0)
    requires forall q, k, d :: Get(a1, q, k, d) == if k == key && Valid(root, q) then spec(q) else Get(a0, q, k, d)
    ensures SameEntries(a1, PutAll(c0, key, Preorder(root), spec))
  {
    forall q, k, d
      ensures Get(a1, q, k, d) == Get(PutAll(c0, key, Preorder(root), spec), q, k, d)
    {
      PreorderMembers(root, q);
      GetPutAll(c0, key, Preorder(root), spec, q, k, d);
    }
  }

  /** The eleven classification passes of `_annotate_tree` on a fresh store. */
  method ClassifyTree(f: DocumentFormatter, root: Node, annotations: Annotations) returns (err: Option<Error>)
    requires annotations.table == map[]
    modifies annotations
    ensures Outcome(annotations.table, err) == Classified(f, root)
  {
    err := AnnotateMatches(root, annotations, ExplicitBlockPass(f.markAsBlock));
    if err.Some? { return; }
    err := AnnotateMatches(root, annotations, ExplicitInlinePass(f.markAsInline));
    if err.Some? { return; }
    err := AnnotateMatches(root, annotations, MixedContentInlinePass);
    if err.Some? { return; }
    err := AnnotateMatches(root, annotations, InlineDescendantsPass);
    if err.Some? { return; }
    err := AnnotateMatches(root, annotations, UnmixedBlockPass);
    if err.Some? { return; }
    assert Outcome(annotations.table, err) == Stage5(f, root);
    err := AnnotateMatches(root, annotations, ExplicitPreservePass(f.mustPreserveWhitespace));
    if err.Some? { return; }
    err := AnnotateMatches(root, annotations, PreserveDescendantsPass);
    if err.Some? { return; }
    err := AnnotateMatches(root, annotations, ExplicitNormalizePass(f.mustNormalizeWhitespace));
    if err.Some? { return; }
    err := AnnotateMatches(root, annotations, ExplicitStripPass(f.mustStripWhitespace));
    if err.Some? { return; }
    err := AnnotateMatches(root, annotations, XmlSpacePass);
    if err.Some? { return; }
    assert Outcome(annotations.table, err) == Stage10(f, root);
    if !IsBlockType(f.defaultType) {
      err := Some(ValueError("default_type must be one of {None, 'block', 'inline'}"));
      return;
    }
    err := AnnotateMatches(root, annotations, UntypedPass(f.defaultType));
  }

  /** The four layout passes of `_annotate_tree`: afterwards the store answers every query as `Layout` does. */
  method LayOut(root: Node, annotations: Annotations, oneIndent: string)
    modifies annotations
    ensures SameEntries(annotations.table, Layout(root, old(annotations.table), oneIndent))
  {
    var L := Preorder(root);
    ghost var c0 := annotations.table;
    AnnotateLogicalLevel(root, annotations);
    ghost var s1 := (q: Path) => VInt(|q|);
    ghost var c1 := PutAll(c0, LOGICAL_LEVEL_KEY, L, s1);
    LayoutStep(root, c0, c0, annotations.table, LOGICAL_LEVEL_KEY, s1);
    ghost var a1 := annotations.table;

    AnnotatePhysicalLevel(root, annotations);
    ghost var s2 := (q: Path) => if Valid(root, q) then VInt(PhysicalLevel(root, c1, q)) else VNone;
    ghost var c2 := PutAll(c1, PHYSICAL_LEVEL_KEY, L, s2);
    forall q | Valid(root, q) ensures PhysicalLevel(root, a1, q) == PhysicalLevel(root, c1, q) {
      PhysicalLevelFrame(root, a1, c1, q);
    }
    LayoutStep(root, a1, c1, annotations.table, PHYSICAL_LEVEL_KEY, s2);
    ghost var a2 := annotations.table;

    AnnotateTextTransforms(root, annotations, oneIndent);
    ghost var s3 := (q: Path) => if Valid(root, q) then VTransforms(TextTransformsFor(root, c2, q, oneIndent)) else VNone;
    ghost var c3 := PutAll(c2, TEXT_TRANSFORMS_KEY, L, s3);
    forall q | Valid(root, q) ensures TextTransformsFor(root, a2, q, oneIndent) == TextTransformsFor(root, c2, q, oneIndent) {
      TransformsFrame(root, a2, c2, q, oneIndent);
    }
    LayoutStep(root, a2, c2, annotations.table, TEXT_TRANSFORMS_KEY, s3);
    ghost var a3 := annotations.table;

    AnnotateTailTransforms(root, annotations, oneIndent);
    ghost var s4 := (q: Path) => if Valid(root, q) then VTransforms(TailTransformsFor(root, c3, q, oneIndent)) else VNone;
    forall q | Valid(root, q) ensures TailTransformsFor(root, a3, q, oneIndent) == TailTransformsFor(root, c3, q, oneIndent) {
      TransformsFrame(root, a3, c3, q, oneIndent);
    }
    LayoutStep(root, a3, c3, annotations.table, TAIL_TRANSFORMS_KEY, s4);
    assert c2 == Levels(root, c0);
    assert PutAll(c3, TAIL_TRANSFORMS_KEY, L, s4) == Layout(root, c0, oneIndent);
  }

  /**
   * `_annotate_tree`: the fifteen passes in order on a fresh store. It fails
   * as `Classified` does; otherwise the store answers every query as
   * `Layout` of the classified store.
   */
  method AnnotateTree(f: DocumentFormatter, root: Node) returns (annotations: Annotations, err: Option<Error>)
    ensures fresh(annotations)
    ensures err == Classified(f, root).err
    ensures err.None? ==> SameEntries(annotations.table, Layout(root, Classified(f, root).table, f.oneIndent))
  {
    annotations := new Annotations();
    err := ClassifyTree(f, root, annotations);
    if err.Some? { return; }
    LayOut(root, annotations, f.oneIndent);
  }
}
