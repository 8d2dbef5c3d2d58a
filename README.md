# MarkupLift core in Dafny

MarkupLift pretty-prints XML and HTML documents held as lxml trees. A
formatter is configured with element predicate factories. These say which
elements are block or inline, and which preserve, normalize or strip
whitespace. Formatting an element runs fifteen annotation passes over the
tree, which classify every node and compute its indentation level and its
text/tail whitespace transforms. An event walk then writes the markup.

This project models that core.

- **The tree** is the datatype `Tree.Node`, with elements, comments and
  processing instructions. A node is identified by its `Path` of child
  indices, and `root.iter()` is `Tree.Preorder`.
- **The annotation store** is the class `Annotation.Annotations`, whose one
  field is a map from node to key to value. Each pass is a method looping
  over `root.iter()`, proved against a specification function on the
  store. `_annotate_tree` is the fifteen passes in order, with the
  store's contents after every stage.
- **The predicates** are prepared per document: a factory applied to the
  root gives a total test on paths. This covers the combinators, the tag,
  attribute and node-kind tests, and `with_attribute` with its matchers.
- **Text and naming**: `normalize_ws`, the whitespace transforms, the three
  attribute strategies, `wrap_css_properties`, the namespace helpers,
  `escape`/`quoteattr`, and the empty-element and doctype strategies.
- **The renderer** is `_format_element`, an event walk proved to write
  exactly the recursive `Render` of the tree, plus `format_tree`'s
  prolog and header.
- **The user-facing classes**: `Formatter` (construction, `derive`, and
  `_create_document_formatter` preparing every factory against the root)
  and `Html5Formatter` (its HTML5 defaults, `derive`, and
  `_get_element_path`).

Modelling choices:

- Dictionaries whose iteration order matters are sequences of pairs.
- User predicates, formatter functions and lxml's name validation are
  function parameters. Matchers that raise are modelled by a result
  datatype.

## Model

| member | source | states |
|---|---|---|
| Annotation.GetPut | src/markuplift/annotation.py:55-66 | after `annotate(e, k, v)`, `annotation(e, k, d)` is `v` for every default, and every other (node, key) entry reads as before |
| Annotation.Annotations.Annotate | src/markuplift/annotation.py:60-63 | the new store is the old one with the single entry (node, key) set to the value |
| Annotation.AnnotateMatches | src/markuplift/annotation.py:435-468 | the loop over `root.iter()` leaves exactly the store and error of the reference walk `MatchAll`, stopping at the first conflict in RAISE mode |
| Annotation.RunErrorSticky | src/markuplift/annotation.py:454-461 | once a conflict is raised, the rest of the walk changes nothing |
| Annotation.RunFrame | src/markuplift/annotation.py:435-468 | nodes the walk does not visit, and keys other than the pass's key, are left as they were |
| Annotation.RunStable | src/markuplift/annotation.py:435-468 | with no node repeated, an entry written at a visited node is not touched later in the walk |
| Annotation.Settled | src/markuplift/annotation.py:435-468 | the final entry of the j-th visited node is the result of its own step on the store as the walk found it |
| AnnotationPasses.AnnotateUntyped | src/markuplift/annotation.py:233-247 | a default type outside `BLOCK_TYPES` is refused with the ValueError before any node is visited; otherwise the pass is the walk |
| AnnotationPasses.NoRaiseNoError | src/markuplift/annotation.py:462-466 | SKIP and OVERWRITE passes never raise |
| AnnotationPasses.SkipOnlyFills | src/markuplift/annotation.py:455-466 | in SKIP mode an entry only changes from None to the pass's value |
| AnnotationPasses.RunRaisesConflict | src/markuplift/annotation.py:454-461 | the only exception a walk raises is AnnotationConflictError |
| AnnotationPasses.TableFreePass | src/markuplift/annotation.py:79-99 | for a rule that does not read the store (user predicate, mixed content), a completed pass gives a node the value iff the rule accepts it and, unless overwriting, it had no value; all else is unchanged |
| AnnotationPasses.TableFreeRaise | src/markuplift/annotation.py:79-92 | a RAISE pass fails iff some accepted node already has a non-None value under the key |
| AnnotationPasses.InheritPass | src/markuplift/annotation.py:102-114 | because `root.iter()` reaches parents first, a node with no value of its own gets the value exactly when its parent ends with it, so it flows down whole subtrees |
| AnnotationPasses.UnmixedBlockPassResult | src/markuplift/annotation.py:117-140 | the block-descendants pass never raises and gives every untyped node "block" when its parent ends block, it is not in mixed content and no sibling is inline |
| AnnotationPasses.XmlSpacePassResult | src/markuplift/annotation.py:143-170 | nodes reached by `xml:space="preserve"` (and not reset by `default`) become "strict"; all others keep their whitespace entry |
| AnnotationPasses.UntypedPassResult | src/markuplift/annotation.py:233-247 | every node without a type gets the default type; typed nodes keep theirs |
| AnnotationPasses.PassFrame | src/markuplift/annotation.py:435-468 | a pass leaves every key other than its own as it was |
| AnnotationLayout.AnnotateLogicalLevel | src/markuplift/annotation.py:250-260 | every node's logical level becomes its depth; nothing else changes |
| AnnotationLayout.AnnotatePhysicalLevel | src/markuplift/annotation.py:263-281 | every node gets `PhysicalLevel`: its parent's level plus one under a block parent, the same otherwise; nothing else changes |
| AnnotationLayout.PhysicalAtMostLogical | src/markuplift/annotation.py:263-281 | the physical level never exceeds the depth, and equals it when every ancestor is block |
| AnnotationLayout.PhysicalLevelFrame | src/markuplift/annotation.py:263-281 | physical levels depend only on the type entries of the store |
| AnnotationLayout.TextTransformsRespectWhitespace | src/markuplift/annotation.py:284-323 | text under "preserve" or "strict" gets no transform; otherwise, with a whitespace indent, the transforms only move whitespace |
| AnnotationLayout.TailTransformsRespectWhitespace | src/markuplift/annotation.py:326-404 | a tail inside a "preserve"/"strict" parent is not transformed, a block root's tail becomes "", and any other tail keeps its non-whitespace characters in order |
| AnnotationLayout.AnnotateTextTransforms | src/markuplift/annotation.py:284-323 | every node gets `TextTransformsFor` computed from the old store; nothing else changes |
| AnnotationLayout.AnnotateTailTransforms | src/markuplift/annotation.py:326-404 | every node gets `TailTransformsFor` computed from the old store; nothing else changes |
| AnnotationLayout.WrittenKeepsInputs | src/markuplift/annotation.py:284-404 | writing the transform lists leaves the entries they were computed from unchanged |
| AttributeFormatting.FirstMatchFrom | src/markuplift/attribute_formatting.py:166-171 | the position found is the first user formatter whose predicate accepts the attribute; None iff none does |
| AttributeFormatting.ApplyFirstIsFirstMatching | src/markuplift/attribute_formatting.py:166-171 | at most one user formatter runs: the first that matches, applied to the value it was tested on; with none the value is unchanged |
| AttributeFormatting.FormatBooleanAttribute | src/markuplift/attribute_formatting.py:175-191 | a minimised boolean attribute carries the empty value |
| AttributeFormatting.FormatAttribute | src/markuplift/attribute_formatting.py:61-173 | minimise iff the HTML5 strategy and a boolean attribute name; the value is the built-in rule followed by the first matching user formatter; Null/XML with no match return the value unchanged |
| AttributeFormatting.NonEmptyStrippedAreProperties | src/markuplift/attribute_formatting.py:240 | every piece kept by `[p.strip() for p in value.split(";") if p.strip()]` is trimmed, non-empty and free of `;` |
| AttributeFormatting.CssPropertiesOfLines | src/markuplift/attribute_formatting.py:247-252 | reading properties back from the wrapped lines gives exactly the properties written |
| AttributeFormatting.WrapCssPropertiesKeepsProperties | src/markuplift/attribute_formatting.py:228-252 | a wrapped style keeps every CSS property, in order, and nothing else |
| AttributeFormatting.WrapCssPropertiesIdempotent | src/markuplift/attribute_formatting.py:228-252 | wrapping an already wrapped style reproduces it |
| Doctype.DoctypeStrategy.DefaultDoctype | src/markuplift/doctype.py:55-138 | only the HTML5 strategy has a default doctype, and it is `<!DOCTYPE html>` |
| Doctype.DoctypeStrategy.ShouldEnsureDoctype | src/markuplift/doctype.py:74-138 | only the HTML5 strategy insists on a doctype |
| Doctype.EnsureIffDefault | src/markuplift/doctype.py:55-138 | a strategy insists on a doctype exactly when it has a default to supply |
| DocumentFormatter.NewDocumentFormatter | src/markuplift/document_formatter.py:62-135 | Ok iff the indent (default 2) is non-negative and the default type is in `BLOCK_TYPES`; the indent string is that many spaces; omitted predicates never match; omitted tables are empty |
| DocumentFormatter.NewDocumentFormatterAsWritten | src/markuplift/document_formatter.py:114-121 | as written: a bad default type raises TypeError while the message is built; otherwise identical to the intended constructor |
| DocumentFormatter.InvalidDefaultTypeError | src/markuplift/document_formatter.py:120-121 | default type "section": TypeError as written, ValueError as intended |
| DocumentFormatter.ExplicitStages | src/markuplift/document_formatter.py:266-267 | the two explicit type passes fail exactly on a node marked both block and inline |
| DocumentFormatter.TypeStages | src/markuplift/document_formatter.py:268-270 | the store after the mixed-content, inline-inheritance and block-inheritance passes |
| DocumentFormatter.PreserveStages | src/markuplift/document_formatter.py:271-272 | explicit preserve marks, then inheritance to all descendants |
| DocumentFormatter.NormalizeStripStages | src/markuplift/document_formatter.py:273-274 | the normalize and strip passes overwrite the inherited modes of the nodes they mark |
| DocumentFormatter.WhitespaceStages | src/markuplift/document_formatter.py:271-275 | the five whitespace passes leave `Whitespace` at every node and the type entries untouched |
| DocumentFormatter.Classification | src/markuplift/document_formatter.py:263-276 | the classification fails exactly on a node marked both ways (AnnotationConflictError) or an invalid default (ValueError); otherwise it gives `Classified` |
| DocumentFormatter.ExplicitTypesWin | src/markuplift/document_formatter.py:266-270 | a node marked block ends block, one marked inline ends inline |
| DocumentFormatter.MixedContentIsInline | src/markuplift/document_formatter.py:268 | an element not marked block whose parent has significant direct text ends inline |
| DocumentFormatter.InlineIsInherited | src/markuplift/document_formatter.py:269 | a child of an inline node ends inline unless marked block |
| DocumentFormatter.TypesAreBlockOrInline | src/markuplift/document_formatter.py:266-276 | every node ends "block" or "inline", or untyped only when the default type is None |
| DocumentFormatter.LevelEntries | src/markuplift/document_formatter.py:277-278 | the level passes write depth and physical level and keep types and whitespace modes |
| DocumentFormatter.LayoutEntries | src/markuplift/document_formatter.py:277-280 | after layout, each node holds its depth, its physical level, its classified type and mode, and transform lists agreeing with the final store |
| DocumentFormatter.ClassifyTree | src/markuplift/document_formatter.py:264-276 | the eleven classification passes on a fresh store end with `Classified`'s error and store |
| DocumentFormatter.AnnotateTree | src/markuplift/document_formatter.py:263-281 | the fifteen passes fail as `Classified` does; otherwise the store answers every query as `Layout` of the classified store |
| DocumentRendering.ComputeTextContent | src/markuplift/document_formatter.py:385-398 | the transformed, then first-matching-formatter text, as `TextContent` states |
| DocumentRendering.ComputeTailContent | src/markuplift/document_formatter.py:400-407 | the tail after its transforms, as `TailContent` states |
| DocumentRendering.TextContentFirstMatch | src/markuplift/document_formatter.py:385-398 | the first text formatter that accepts the node rewrites the transformed text and no later one runs; with none the transformed text is kept |
| DocumentRendering.PreservedTextUnchanged | src/markuplift/document_formatter.py:385-398 | after annotation, a "preserve"/"strict" node that no text formatter accepts contributes its text exactly as parsed |
| DocumentRendering.RealAttributes | src/markuplift/document_formatter.py:298 | the kept attributes are exactly those whose name does not start with `_` |
| DocumentRendering.RealAttributesAppend | src/markuplift/document_formatter.py:298 | the filter keeps document order |
| DocumentRendering.DisplayNameIsFormatAttributeName | src/markuplift/namespace.py:182-235 | the intended written attribute name is `format_attribute_name`'s |
| DocumentRendering.AsWrittenDropsPrefix | src/markuplift/document_formatter.py:300-309 | as written, a namespaced attribute outside the XML namespace is written by its local name alone |
| DocumentRendering.XlinkHrefLosesPrefix | src/markuplift/document_formatter.py:300-309 | `xlink:href` is written "href" as the code stands and "xlink:href" as intended |
| DocumentRendering.AttributePartReadsBack | src/markuplift/document_formatter.py:310-320 | each attribute is spacer, name, "=" and a quoted value that unquotes to the formatted value |
| DocumentRendering.AttributeTextEndsWithQuote | src/markuplift/document_formatter.py:299-320 | a non-empty attribute list ends with a closing quote |
| DocumentRendering.OpenTagTerminator | src/markuplift/document_formatter.py:324-331 | a self-closing tag ends " />" unwrapped and "/>" wrapped; with no '/' in tag or indent, a tag ends "/>" iff it is self-closing |
| DocumentRendering.CommentBodyPadding | src/markuplift/document_formatter.py:352-360 | a comment body never starts or ends with '-', and is the escaped text with at most one space added on each side |
| DocumentRendering.SelfClosingElement | src/markuplift/document_formatter.py:324-349 | a self-closing element writes only its opening tag and tail; any other ends with its closing tag and tail |
| DocumentRendering.EventsRender | src/markuplift/document_formatter.py:285-379 | the markup of a subtree's event sequence is the subtree's recursive `Render` |
| DocumentRendering.WriteAttributes | src/markuplift/document_formatter.py:299-320 | the attribute loop writes `AttributeText`: each attribute's spacer, name and quoted value in turn |
| DocumentRendering.FormatAttributeValue | src/markuplift/document_formatter.py:311-317 | the first accepting attribute formatter rewrites the value |
| DocumentRendering.WriteElement | src/markuplift/document_formatter.py:283-379 | the event loop writes exactly `Render` of the root |
| DocumentRendering.RenderFrame | src/markuplift/document_formatter.py:283-407 | markup depends on the store only through its `annotation(...)` answers |
| DocumentRendering.FormatElement | src/markuplift/document_formatter.py:245-261 | annotate then walk: the result is `FormatElementSpec` |
| DocumentRendering.FormatElementFails | src/markuplift/document_formatter.py:245-281 | `format_element` fails iff some node is marked both block and inline (AnnotationConflictError) or the default type is not in `BLOCK_TYPES` |
| DocumentRendering.WriteProlog | src/markuplift/document_formatter.py:216-237 | the prolog walk writes comments and PIs before the root, stopping at the first element |
| DocumentRendering.FormatTree | src/markuplift/document_formatter.py:193-243 | the document is `FormatTreeSpec`: header, prolog, root markup |
| DocumentRendering.FormatTreeLayout | src/markuplift/document_formatter.py:204-243 | the output starts with the declaration iff asked, then the doctype line (the argument winning over the parsed one), and ends with the root's markup |
| EmptyElement.TagStyle | src/markuplift/empty_element.py:111-189 | XML self-closes every element; HTML5 never self-closes, and writes a lone start tag iff the element's tag is a void element |
| EmptyElement.TagStyleValuesDistinct | src/markuplift/empty_element.py:17-39 | the three styles have three distinct values |
| EmptyElement.VoidSetIsPredicateVoidSetWithoutParam | src/markuplift/empty_element.py:157-171 | the HTML5 void set is the predicate module's void set without `param` |
| EmptyElement.VoidSetSize | src/markuplift/empty_element.py:157-171 | the void set has 13 names |
| EmptyElement.TagStyleDependsOnlyOnTag | src/markuplift/empty_element.py:173-189 | only the tag decides the style |
| EmptyElement.TagStyleCaseSensitive | src/markuplift/empty_element.py:173-189 | membership is case-sensitive: `BR` gets explicit tags, `br` a void tag |
| Formatter.IndentSizeAsWritten | src/markuplift/formatter.py:116 | as written, `indent_size or 2` never yields 0: None and 0 both become 2 |
| Formatter.IndentSize | src/markuplift/formatter.py:104-124 | as intended, only a missing indent becomes 2 |
| Formatter.NoDefaultTypeRefused | src/markuplift/formatter.py:126-129 | no ElementType member's value is outside `BLOCK_TYPES` |
| Formatter.NewFormatterAsWritten | src/markuplift/formatter.py:66-129 | as written, construction always fails with ValueError: a negative indent first, otherwise the enum default type is not in the set of strings |
| Formatter.NewFormatter | src/markuplift/formatter.py:66-129 | Ok iff the indent is non-negative; the defaults fill every omitted argument (never-matching factories, empty tables, XML strategies) |
| Formatter.OmittedFactoryNeverMatches | src/markuplift/formatter.py:104-113 | every omitted predicate factory is `never_matches` |
| Formatter.Defaults | src/markuplift/formatter.py:104-120 | the settings of `Formatter()` |
| Formatter.DefaultFormatterRefused | src/markuplift/formatter.py:126-129 | `Formatter()` fails as written and succeeds as intended |
| Formatter.ZeroIndent | src/markuplift/formatter.py:116 | an indent of 0 becomes 2 as written and stays 0 as intended |
| Formatter.DeriveNothing | src/markuplift/formatter.py:334-362 | `derive()` with no arguments gives back an equal formatter |
| Formatter.DeriveReplacesOnlyGiven | src/markuplift/formatter.py:334-362 | `derive` replaces exactly the given settings and keeps the rest; it fails only on a negative indent |
| Formatter.DerivePreserveCdataIgnored | src/markuplift/formatter.py:334-362 | a `preserve_cdata` given without a parsing strategy changes nothing |
| Formatter.DeriveTwice | src/markuplift/formatter.py:334-362 | deriving twice is deriving once with the later arguments overriding the earlier |
| Formatter.PrepareTextKeepsPairs | src/markuplift/formatter.py:380-385 | each prepared text predicate is its factory's test on the root, paired with that factory's formatter, in place |
| Formatter.PrepareAttributesKeepsPairs | src/markuplift/formatter.py:387-391 | each attribute factory is called on the root and keeps its formatter and its place |
| Formatter.CreateDocumentFormatterAsWritten | src/markuplift/formatter.py:394-408 | as written, the call always fails with TypeError on the unexpected keyword `escaping_strategy` |
| Formatter.CreateDocumentFormatter | src/markuplift/formatter.py:364-408 | the prepared tables and predicates build a document formatter that the constructor accepts |
| Formatter.PreparedAgreesWithFactories | src/markuplift/formatter.py:364-408 | the prepared document formatter decides every question with the formatter's factories evaluated on the root, and keeps indent and default type |
| Formatter.PreparedTablesKeepPairs | src/markuplift/formatter.py:380-391 | both prepared tables keep every formatter at its place, paired with its own prepared factory |
| Formatter.FormatElement | src/markuplift/formatter.py:264-275 | formatting an element is preparing for it, then the document formatter's `format_element` |
| Formatter.FormatTree | src/markuplift/formatter.py:248-262 | formatting a tree prepares for the document's root, then runs `format_tree` |
| Formatter.FormatElementFailsOnlyOnConflict | src/markuplift/formatter.py:264-275 | a formatter's element formatting fails iff some node matches both the block and the inline factory |
| Html5Formatter.NewHtml5FormatterAsWritten | src/markuplift/html5_formatter.py:126-154 | as written, ImportError when `reorder_attributes_when` is omitted (the default imports `html_attribute_order`, which does not exist); TypeError on that unexpected keyword when it is given |
| Html5Formatter.DefaultHtml5FormatterRefused | src/markuplift/html5_formatter.py:126-154 | as written, both a call without and a call with `reorder_attributes_when` fail |
| Html5Formatter.OmittedIndentAccepted | src/markuplift/html5_formatter.py:65-154 | as intended, a call that leaves the indent out succeeds with an indent of 2 |
| Html5Formatter.NewHtml5Formatter | src/markuplift/html5_formatter.py:65-154 | Ok iff the indent is non-negative; the result uses the HTML escaping, parsing, doctype and attribute strategies |
| Html5Formatter.Html5Defaults | src/markuplift/html5_formatter.py:112-124 | factories given as None take the HTML5 defaults; given factories are kept |
| Html5Formatter.StripDefaultMeaning | src/markuplift/html5_formatter.py:123-124 | the default strip rule holds exactly on HTML block elements that are not whitespace-significant |
| Html5Formatter.DeriveKeepsUnset | src/markuplift/html5_formatter.py:280-308 | `derive` keeps every argument given as None and takes every argument given, including `preserve_cdata` |
| Html5Formatter.DeriveNothing | src/markuplift/html5_formatter.py:280-308 | `derive()` with no arguments gives back an equal formatter |
| Html5Formatter.ElementIndex | src/markuplift/html5_formatter.py:458-465 | an element child's element-only index is the count of element children before it |
| Html5Formatter.Walk | src/markuplift/html5_formatter.py:454-466 | the recursive walk returns the reference `WalkSpec` path |
| Html5Formatter.GetElementPath | src/markuplift/html5_formatter.py:440-468 | the returned path is `ElementPath(root, target)` |
| Html5Formatter.RootPath | src/markuplift/html5_formatter.py:455-456 | the root's path is empty |
| Html5Formatter.ElementPathFound | src/markuplift/html5_formatter.py:454-468 | a path is found iff the target is the root or an element of the tree (None for a missing node, comment or PI) |
| Html5Formatter.ElementPathShape | src/markuplift/html5_formatter.py:454-466 | one element-only index per level, none larger than its child index |
| Html5Formatter.GetElementPathRoundTrip | src/markuplift/html5_formatter.py:440-468 | following the returned path by element-only indices leads back to the target |
| Namespace.NsLookupMember | src/markuplift/namespace.py:102-107 | looking up a key of a dictionary finds the value stored under it |
| Namespace.QnameToStr | src/markuplift/namespace.py:34-62 | a string is returned unchanged, a QName as its Clark text `{uri}local`, which ParseQName reads back (Namespace.QnameToStrRoundTrip) |
| Namespace.QnameToStrRoundTrip | src/markuplift/namespace.py:34-62 | the string of a well-formed QName parses back to that QName |
| Namespace.ParseClarkText | src/markuplift/namespace.py:156 | parsing a well-formed name's Clark text gives the name back |
| Namespace.ParsedClarkText | src/markuplift/namespace.py:156 | a parsed name has a non-empty local name, and its Clark text is the input up to an empty `{}` |
| Namespace.PrefixFor | src/markuplift/namespace.py:168-175 | the prefix found is bound to the URI; None iff no entry has that URI |
| Namespace.ResolveBindsPrefix | src/markuplift/namespace.py:149-179 | a `prefix:local` result names a prefix the scope binds to the namespace; a bare local name is written only for no namespace, the default namespace or an unbound one; the XML namespace is `xml:` |
| Namespace.FormatTagName | src/markuplift/namespace.py:113-179 | a comment or PI gives `str(tag)`; an element fails iff its tag is not a valid name |
| Namespace.FormatAttributeName | src/markuplift/namespace.py:182-235 | fails iff the attribute name is not a valid name |
| Namespace.TagAndAttributeNamesAgree | src/markuplift/namespace.py:149-235 | attribute names and tags follow the same resolution |
| Namespace.NewDecls | src/markuplift/namespace.py:102-110 | the declarations are exactly the entries the parent lacks or binds to another URI; keys stay distinct |
| Namespace.GetNewNamespaceDeclarations | src/markuplift/namespace.py:65-110 | a root declares its whole map; any other node declares `NewDecls` of its map against its parent's |
| Namespace.SameScopeDeclaresNothing | src/markuplift/namespace.py:65-110 | a child with its parent's map declares nothing |
| Namespace.DeclarationsComplete | src/markuplift/namespace.py:65-110 | a child's scope is its parent's map overridden by its declarations |
| Namespace.SortDecls | src/markuplift/namespace.py:287-290 | sorting is a permutation of the items |
| Namespace.SortDeclsSorted | src/markuplift/namespace.py:287-290 | sorting orders by key, None first |
| Namespace.FormatXmlnsDeclarations | src/markuplift/namespace.py:238-300 | one `xmlns` attribute per declaration, in sorted order |
| Namespace.SortedDeclsOrder | src/markuplift/namespace.py:279-300 | every declaration once, the default namespace first, prefixed ones by prefix |
| Predicates.Prepare | src/markuplift/predicates.py:139-148 | the prepared predicate is the factory's test on that root at every path |
| Predicates.ValidateTagName | src/markuplift/predicates.py:240-257 | a tag passes iff non-empty and accepted by lxml's check; otherwise PredicateError |
| Predicates.ValidateAttributeName | src/markuplift/predicates.py:259-277 | an attribute name passes iff non-empty and accepted; otherwise PredicateError |
| Predicates.TagEquals | src/markuplift/predicates.py:335-357 | Ok iff the tag is valid; then matches exactly the elements with that tag |
| Predicates.FirstInvalidTag | src/markuplift/predicates.py:426-427 | None iff every tag is valid |
| Predicates.TagIn | src/markuplift/predicates.py:402-437 | Ok iff at least one tag and all valid; then matches exactly the elements whose tag is among them |
| Predicates.HasClassMatches | src/markuplift/predicates.py:376-399 | matches iff the class attribute split on whitespace contains the name; an empty or spaced name matches nothing |
| Predicates.HasAttribute | src/markuplift/predicates.py:440-469 | Ok iff the name is valid; then matches exactly the elements carrying that attribute |
| Predicates.AttributeEquals | src/markuplift/predicates.py:471-491 | Ok iff the name is valid; a match carries the attribute with that value |
| Predicates.AttributeCountMin | src/markuplift/predicates.py:493-513 | Ok iff the minimum is non-negative |
| Predicates.AttributeCountMax | src/markuplift/predicates.py:515-535 | Ok iff the maximum is non-negative |
| Predicates.AttributeCountBetween | src/markuplift/predicates.py:537-564 | Ok iff 0 <= min <= max |
| Predicates.CountBetweenIsBoth | src/markuplift/predicates.py:493-564 | a valid range tests min <= count <= max and agrees with requiring both the minimum and the maximum |
| Predicates.IsProcessingInstruction | src/markuplift/predicates.py:580-604 | refused iff the target is the empty string |
| Predicates.NodeKindsPartition | src/markuplift/predicates.py:566-619 | comment, processing instruction and element split the nodes into three kinds |
| Predicates.HtmlBlockInlineDisjoint | src/markuplift/predicates.py:686-734 | no tag is both an HTML block and an HTML inline element |
| Predicates.AnyOf | src/markuplift/predicates.py:788-812 | matches iff some factory matches |
| Predicates.AllOf | src/markuplift/predicates.py:814-841 | matches iff every factory matches |
| Predicates.NotMatching | src/markuplift/predicates.py:843-871 | matches a node iff the factory does not |
| Predicates.EmptyCombinators | src/markuplift/predicates.py:788-841 | `any_of()` never matches; `all_of()` matches every node |
| Predicates.NotNot | src/markuplift/predicates.py:843-871 | negating twice gives back the original test |
| Predicates.NeverMatches | src/markuplift/predicates.py:873-898 | `never_match` is false on every node of every document |
| Predicates.CreateMatcher | src/markuplift/predicates.py:65-115 | None is accepted only when allowed, a string matches itself, a callable is wrapped, anything else is TypeError |
| Predicates.RunMatcher | src/markuplift/predicates.py:93-112 | a callable's result is used when it is a bool; a non-bool or an exception becomes RuntimeError whose message names the matcher |
| Predicates.BuildAttrFactory | src/markuplift/predicates.py:150-191 | building succeeds iff both matchers can be created, and uses them |
| Predicates.WithAttributeIff | src/markuplift/predicates.py:150-202 | the attribute predicate holds iff the element test, the name matcher and the value matcher all hold; failing the element test gives False without calling a matcher |
| Predicates.AnyElementIsAttributeMatches | src/markuplift/predicates.py:902-956 | `any_element().with_attribute(n, v)` and `attribute_matches(n, v)` agree on every attribute |
| SaxUtils.EscapeHasNoAngles | src/markuplift/document_formatter.py:337-338 | escaped text contains no `<` or `>` |
| SaxUtils.UnescapeEscape | src/markuplift/document_formatter.py:337-338 | escaped text reads back as the original |
| SaxUtils.QuoteAttrRoundTrip | src/markuplift/document_formatter.py:319 | `quoteattr` output is delimited by a quote that does not occur inside, and reads back as the value |
| Text.StripEmptyIffAllSpace | src/markuplift/utilities.py:45-47 | stripping leaves nothing iff every character is whitespace |
| Text.JoinWithSplitOn | src/markuplift/attribute_formatting.py:240 | joining the `split` pieces with the separator gives the string back |
| Text.WordsCoverNonSpace | src/markuplift/predicates.py:376-399 | the words of `str.split()`, concatenated, are exactly the non-whitespace characters |
| Transforms.PrecedingBlockProperties | src/markuplift/annotation.py:408-414 | the text before a block ends in one newline and the indent, and keeps every non-whitespace character |
| Transforms.FollowingBlockProperties | src/markuplift/annotation.py:417-423 | the text after a block starts with one newline and the indent, and keeps every non-whitespace character |
| Transforms.FollowingBlockPrecedingInlineProperties | src/markuplift/annotation.py:426-432 | a newline is added only where there was leading whitespace; content is kept |
| Transforms.ApplyAllKeepsContent | src/markuplift/annotation.py:284-404 | the whitespace transforms, in any number and order, keep the non-whitespace characters in order |
| Tree.PreorderMembers | src/markuplift/annotation.py:454 | `root.iter()` visits every node of the tree and nothing else |
| Tree.PreorderNoDup | src/markuplift/annotation.py:454 | `root.iter()` visits no node twice |
| Tree.PreorderParentsFirst | src/markuplift/annotation.py:454 | `root.iter()` reaches every node after its parent |
| Utilities.Siblings | src/markuplift/utilities.py:17-27 | the root alone, otherwise the parent's children in order |
| Utilities.TagNameKind | src/markuplift/utilities.py:30-42 | the first character of `tagname` tells comments, PIs and elements apart |
| Utilities.SignificantIffNonSpace | src/markuplift/utilities.py:45-52 | text is significant iff present and holding a non-whitespace character |
| Utilities.DirectSignificantTextIff | src/markuplift/utilities.py:55-74 | only the node's text and its children's tails count |
| Utilities.NormalizeWsIsCollapse | src/markuplift/utilities.py:135-149 | `normalize_ws` agrees with a character-by-character reference collapse |
| Utilities.NormalizeWsShape | src/markuplift/utilities.py:139-149 | no two whitespace characters in a row, and the only whitespace is ' ' |
| Utilities.NormalizeWsIdempotent | src/markuplift/utilities.py:139-149 | normalizing twice is normalizing once |
| Utilities.NormalizeWsKeepsNonSpace | src/markuplift/utilities.py:139-149 | non-whitespace characters are kept in order, and nothing else appears |
| Utilities.NormalizeWsKeepsEnds | src/markuplift/utilities.py:139-149 | leading and trailing whitespace each survive as one space |

## Left out

- Parsing and file I/O. `format_file`, `format_str` and `format_bytes` on both
  classes, `Html5Formatter.format_tree`, `_format_with_source` and
  `_reparse_xml_subtrees` are lxml parsing, so a document arrives as a tree.
- The escaping and parsing strategies are tags only. Their serialization
  and parsing internals belong to lxml and the standard library.
- `reorder_attributes_when` and `html_attribute_order` are not modelled.
  They exist only in the HTML5 layer that never reaches the renderer.
- `html_normalize_whitespace` is not defined in `predicates.py`. The model
  takes it as a parameter of `Html5Formatter`'s constructor.
- The empty-element strategy is modelled on its own. The renderer uses
  `_is_self_closing` instead, as the code does.
- The `BLOCK_TYPES` message prints a set in Python's set iteration order.
  The model fixes one order.
- The annotation conflict message names a comment `#comment` and a PI
  `?target`, where the source's `{elem.tag}` (`annotation.py:459-460`)
  prints lxml's factory function; elements are named by their tag in both.
- `str(tag)` of a comment or PI in `format_tag_name` holds a memory
  address, so it is the parameter `nonElementText`.
- Dictionary keys that are distinct objects (predicates) are kept as
  sequence entries. Identity `is` between nodes is path equality.
- lxml's check that a name is a valid XML name is a parameter `accepts`.
- Each predicate factory is prepared once per root. The model does not
  count calls.
- Predicates.AttributeEquals: only the match-implies direction is stated,
  because the model's attribute list does not force distinct names.
- Namespace.FormatTagName, Namespace.FormatAttributeName: each contract
  states only when the call succeeds. What it returns is stated by
  Namespace.ResolveBindsPrefix.
- Predicates.ValidateTagName, Predicates.ValidateAttributeName: the message
  ends before the `: {e}` text lxml's own error adds, because lxml's name
  check is modelled only as the yes/no parameter `accepts`.
- Predicates.HasClassMatches: a comment or processing instruction never
  matches, where the source's `element.get("class", "")` on a comment gives
  None and `.split()` raises AttributeError, so a `has_class` rule over a
  tree holding a comment fails the annotation pass. Processing instructions
  carry no attributes in the model, although lxml exposes their
  pseudo-attributes to `.get` and `.attrib`, which `has_attribute`,
  `attribute_equals` and the `attribute_count_*` factories read.
- The element formatted is taken as detached, as a document root is (every
  call site, `formatter.py:275` and `document_formatter.py:239`, passes one).
  For an element with a parent the source differs: a block root's tail gets
  `transform_text_following_block` (`annotation.py:381-387`) and its next
  sibling shapes that tail (`annotation.py:350`), the mixed-content test reads
  the parent's text (`utilities.py:88-91`), its siblings are the parent's
  children (`utilities.py:23-27`), and namespace declarations are diffed
  against the parent's nsmap (`namespace.py:97-110`).
- Text and attribute value formatters receive the value, `one_indent` and the
  level. The source passes the whole `DocumentFormatter` in place of
  `one_indent` (`document_formatter.py:316` and `396`), so a user formatter
  that reads another of its fields is not modelled.
- Predicates.AttributeCountMin, Predicates.AttributeCountMax: each contract
  states only the validation. What a valid range tests is stated by
  Predicates.CountBetweenIsBoth.

## Findings

| source | as written | input that shows it | evidently intended | confidence | as-written member | corrected member |
|---|---|---|---|---|---|---|
| src/markuplift/formatter.py:117-129 | the default type, always an `ElementType` member, is tested against a set of strings and None, so every construction raises ValueError | `Formatter()` | accept the member whose value is in the set | not executed | Formatter.NewFormatterAsWritten (Formatter.DefaultFormatterRefused) | Formatter.NewFormatter |
| src/markuplift/document_formatter.py:300-309 | `node.nsmap.get(namespace)` looks a URI up among prefixes, so a namespaced attribute loses its prefix | `xlink:href` on an element binding `xlink` is written `href` | write `prefix:local` as `format_attribute_name` does | not executed | DocumentRendering.DisplayNameAsWritten (DocumentRendering.XlinkHrefLosesPrefix) | DocumentRendering.DisplayNameIsFormatAttributeName |
| src/markuplift/formatter.py:394-408 | `escaping_strategy`, `doctype_strategy` and `attribute_strategy` are passed to a constructor that takes none of them, raising TypeError | any call of `format_element` | build the document formatter from the arguments it accepts | not executed | Formatter.CreateDocumentFormatterAsWritten | Formatter.CreateDocumentFormatter |
| src/markuplift/formatter.py:116 | `indent_size or 2` turns an indent of 0 into 2 | `indent_size=0` | keep 0, defaulting only a missing indent | not executed | Formatter.IndentSizeAsWritten (Formatter.ZeroIndent) | Formatter.IndentSize |
| src/markuplift/document_formatter.py:120-121 | the message joins `BLOCK_TYPES`, which contains None, so a bad default type raises TypeError instead of ValueError | `default_type="section"` | ValueError naming the accepted types | not executed | DocumentFormatter.NewDocumentFormatterAsWritten (DocumentFormatter.InvalidDefaultTypeError) | DocumentFormatter.NewDocumentFormatter |
| src/markuplift/html5_formatter.py:136-154 | `reorder_attributes_when` and `empty_element_strategy` are passed to `Formatter`, which accepts neither, raising TypeError | `Html5Formatter(reorder_attributes_when={})` (without that argument, `Html5Formatter()` stops earlier, at the import on line 128) | pass only the arguments `Formatter` accepts | not executed | Html5Formatter.NewHtml5FormatterAsWritten (Html5Formatter.DefaultHtml5FormatterRefused) | Html5Formatter.NewHtml5Formatter |

Each as-written member models its function body as if the module's imports
resolved. They do not all resolve: `types.py` defines neither
`AttributeValueFormatter` (imported at `attribute_formatting.py:16`, which
`formatter.py:37` imports) nor `AttributeReorderer` (`html5_formatter.py:29`),
and `utilities.py` has no `html_friendly_quoteattr` (`escaping.py:13`). So
importing `formatter.py` or `html5_formatter.py` already fails before any of
the rows above is reached.
