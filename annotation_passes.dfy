// The classification passes of markuplift/annotation.py, each a call of
// `annotate_matches` with its own rule, key, value and conflict mode, and
// what each pass leaves in the store, node by node.
module AnnotationPasses {
  import opened Wrappers
  import opened Types
  import opened Tree
  import opened Annotation
  import Utilities

  // ---------------------------------------------------------------- the passes

  /** `annotate_explicit_block_elements`. */
  function ExplicitBlockPass(pred: Path -> bool): Pass
  {
    Pass(Static(pred), TYPE_KEY, VStr(BLOCK_TYPE), RAISE)
  }

  /** `annotate_explicit_inline_elements`. */
  function ExplicitInlinePass(pred: Path -> bool): Pass
  {
    Pass(Static(pred), TYPE_KEY, VStr(INLINE_TYPE), RAISE)
  }

  /** `annotate_elements_in_mixed_content_as_inline`. */
  const MixedContentInlinePass := Pass(InMixedContent, TYPE_KEY, VStr(INLINE_TYPE), SKIP)

  /** `annotate_inline_descendants_as_inline`. */
  const InlineDescendantsPass := Pass(ParentIs(TYPE_KEY, VStr(INLINE_TYPE)), TYPE_KEY, VStr(INLINE_TYPE), SKIP)

  /** `annotate_unmixed_block_descendants_as_block`. */
  const UnmixedBlockPass := Pass(UnmixedBlockChild, TYPE_KEY, VStr(BLOCK_TYPE), SKIP)

  /** `annotate_explicit_whitespace_preserving_elements`. */
  function ExplicitPreservePass(pred: Path -> bool): Pass
  {
    Pass(Static(pred), WHITESPACE_KEY, VStr(PRESERVE), OVERWRITE)
  }

  /** `annotate_whitespace_preserving_descendants_as_whitespace_preserving`. */
  const PreserveDescendantsPass := Pass(ParentIs(WHITESPACE_KEY, VStr(PRESERVE)), WHITESPACE_KEY, VStr(PRESERVE), SKIP)

  /** `annotate_explicit_whitespace_normalizing_elements`. */
  function ExplicitNormalizePass(pred: Path -> bool): Pass
  {
    Pass(Static(pred), WHITESPACE_KEY, VStr(NORMALIZE), OVERWRITE)
  }

  /** `annotate_explicit_stripped_elements`. */
  function ExplicitStripPass(pred: Path -> bool): Pass
  {
    Pass(Static(pred), WHITESPACE_KEY, VStr(STRIP), OVERWRITE)
  }

  /** `annotate_xml_space`. */
  const XmlSpacePass := Pass(XmlSpaceStrict, WHITESPACE_KEY, VStr(STRICT), OVERWRITE)

  /** The value `annotate_untyped_elements_as_default` stores: `None`, or the type name. */
  function TypeValue(defaultType: Option<string>): Value
  {
    if defaultType.None? then VNone else VStr(defaultType.value)
  }

  /** `BLOCK_TYPES`: None, "block" and "inline". */
  predicate IsBlockType(defaultType: Option<string>)
  {
    defaultType.None? || defaultType.value == BLOCK_TYPE || defaultType.value == INLINE_TYPE
  }

  /** `annotate_untyped_elements_as_default`'s walk. */
  function UntypedPass(defaultType: Option<string>): Pass
  {
    Pass(Untyped, TYPE_KEY, TypeValue(defaultType), SKIP)
  }

  /** `annotate_untyped_elements_as_default`: refuses a default outside `BLOCK_TYPES` before walking. */
  function AnnotateUntyped(root: Node, defaultType: Option<string>, t: Table): (r: Outcome)
    ensures !IsBlockType(defaultType) ==> r == Outcome(t, Some(ValueError("default_type must be one of {None, 'block', 'inline'}")))
    ensures IsBlockType(defaultType) ==> r == MatchAll(root, UntypedPass(defaultType), t)
  {
    if !IsBlockType(defaultType) then Outcome(t, Some(ValueError("default_type must be one of {None, 'block', 'inline'}")))
    else MatchAll(root, UntypedPass(defaultType), t)
  }

  // ---------------------------------------------------------------- walks that cannot raise

  /** SKIP and OVERWRITE never raise. */
  lemma {:induction false} NoRaiseNoError(root: Node, ps: Pass, o: Outcome, L: seq<Path>)
    requires AllValid(root, L) && ps.mode != RAISE && o.err.None?
    ensures Run(root, ps, o, L).err.None?
    decreases |L|
  {
    if L != [] {
      NoRaiseNoError(root, ps, o, L[..|L| - 1]);
    }
  }

  lemma MatchAllNoRaise(root: Node, ps: Pass, t: Table)
    requires ps.mode != RAISE
    ensures MatchAll(root, ps, t).err.None?
  {
    AllPreorderValid(root);
    NoRaiseNoError(root, ps, Outcome(t, None), Preorder(root));
  }

  /** In SKIP mode an entry only changes from None to the pass's value. */
  lemma {:induction false} SkipOnlyFills(root: Node, ps: Pass, o: Outcome, L: seq<Path>, q: Path)
    requires AllValid(root, L) && ps.mode == SKIP
    ensures var before := Get(o.table, q, ps.key, VNone);
      var after := Get(Run(root, ps, o, L).table, q, ps.key, VNone);
      after == before || (before == VNone && after == ps.value)
    decreases |L|
  {
    if L != [] {
      SkipOnlyFills(root, ps, o, L[..|L| - 1], q);
    }
  }

  /** The store the walk sees at a node, the node's final entry, and the step that produced it. */
  lemma AtVisit(root: Node, ps: Pass, t: Table, q: Path) returns (j: nat, seen: Table)
    requires Valid(root, q) && MatchAll(root, ps, t).err.None?
    ensures var L := Preorder(root);
      j < |L| && L[j] == q && AllValid(root, L[..j]) &&
      seen == Run(root, ps, Outcome(t, None), L[..j]).table &&
      Run(root, ps, Outcome(t, None), L[..j]).err.None? &&
      Get(seen, q, ps.key, VNone) == Get(t, q, ps.key, VNone) &&
      Get(MatchAll(root, ps, t).table, q, ps.key, VNone)
        == Get(Step(root, ps, Outcome(seen, None), q).table, q, ps.key, VNone) &&
      Step(root, ps, Outcome(seen, None), q).err.None?
    ensures q != [] ==>
      Parent(q) in Preorder(root)[..j] && Valid(root, Parent(q)) &&
      Get(seen, Parent(q), ps.key, VNone) == Get(MatchAll(root, ps, t).table, Parent(q), ps.key, VNone)
  {
    var L := Preorder(root);
    AllPreorderValid(root);
    PreorderNoDup(root);
    j := VisitIndex(root, q);
    var o := Outcome(t, None);
    seen := Run(root, ps, o, L[..j]).table;
    assert AllValid(root, L[..j]);
    RunOkPrefix(root, ps, o, L, j);
    RunOkPrefix(root, ps, o, L, j + 1);
    assert L[..j + 1][..j] == L[..j];
    assert Run(root, ps, o, L[..j]) == Outcome(seen, None);
    Settled(root, ps, o, L, j, ps.key, VNone);
    if q != [] {
      ParentSettled(root, ps, t, q, j);
    }
  }

  /** A node's parent was visited before it, so the walk had already settled the parent's entry. */
  lemma ParentSettled(root: Node, ps: Pass, t: Table, q: Path, j: nat)
    requires Valid(root, q) && q != []
    requires j <= |Preorder(root)| && Parent(q) in Preorder(root)[..j] && AllValid(root, Preorder(root)[..j])
    ensures Valid(root, Parent(q))
    ensures Get(Run(root, ps, Outcome(t, None), Preorder(root)[..j]).table, Parent(q), ps.key, VNone)
            == Get(MatchAll(root, ps, t).table, Parent(q), ps.key, VNone)
  {
    AllPreorderValid(root);
    PreorderNoDup(root);
    ParentStep(root, q);
    RunStable(root, ps, Outcome(t, None), Preorder(root), j, Parent(q), ps.key, VNone);
  }

  /** The only exception a walk raises is `AnnotationConflictError`. */
  lemma {:induction false} RunRaisesConflict(root: Node, ps: Pass, o: Outcome, L: seq<Path>)
    requires AllValid(root, L) && o.err.None?
    ensures Run(root, ps, o, L).err.Some? ==> Run(root, ps, o, L).err.value.AnnotationConflictError?
    decreases |L|
  {
    if L != [] {
      RunRaisesConflict(root, ps, o, L[..|L| - 1]);
    }
  }

  lemma MatchAllRaisesConflict(root: Node, ps: Pass, t: Table)
    ensures MatchAll(root, ps, t).err.Some? ==> MatchAll(root, ps, t).err.value.AnnotationConflictError?
  {
    AllPreorderValid(root);
    RunRaisesConflict(root, ps, Outcome(t, None), Preorder(root));
  }

  // ---------------------------------------------------------------- rules that ignore the store

  predicate TableFree(rule: Rule)
  {
    rule.Static? || rule.InMixedContent?
  }

  /**
   * A pass whose rule does not read the store (a user predicate, or
   * `is_in_mixed_content`): if it completes, a node gets the value iff the
   * rule accepts it and, unless overwriting, it had no value yet; every other
   * entry is as before.
   */
  lemma TableFreePass(root: Node, ps: Pass, t: Table, q: Path, k: string, d: Value)
    requires TableFree(ps.rule) && Valid(root, q)
    requires MatchAll(root, ps, t).err.None?
    ensures Get(MatchAll(root, ps, t).table, q, k, d) ==
      if k == ps.key && RuleHolds(ps.rule, root, t, q) && (ps.mode == OVERWRITE || Get(t, q, ps.key, VNone) == VNone)
      then ps.value else Get(t, q, k, d)
  {
    AllPreorderValid(root);
    if k != ps.key {
      RunFrame(root, ps, Outcome(t, None), Preorder(root), q, k, d);
    } else {
      var j, seen := AtVisit(root, ps, t, q);
      PreorderNoDup(root);
      Settled(root, ps, Outcome(t, None), Preorder(root), j, k, d);
      assert RuleHolds(ps.rule, root, seen, q) == RuleHolds(ps.rule, root, t, q);
    }
  }

  /**
   * A RAISE pass with a store-independent rule fails iff some node it
   * accepts already has a non-None value under its key.
   */
  lemma {:induction false} TableFreeRaiseList(root: Node, ps: Pass, o: Outcome, L: seq<Path>)
    requires TableFree(ps.rule) && ps.mode == RAISE && AllValid(root, L) && NoDup(L) && o.err.None?
    ensures Run(root, ps, o, L).err.Some? <==>
      exists i :: 0 <= i < |L| && RuleHolds(ps.rule, root, o.table, L[i]) && Get(o.table, L[i], ps.key, VNone) != VNone
    decreases |L|
  {
    if L != [] {
      var L' := L[..|L| - 1];
      var x := L[|L| - 1];
      assert NoDup(L') by {
        forall a, b | 0 <= a < b < |L'| ensures L'[a] != L'[b] {
          assert L'[a] == L[a] && L'[b] == L[b];
        }
      }
      TableFreeRaiseList(root, ps, o, L');
      var prev := Run(root, ps, o, L');
      if prev.err.None? {
        forall a | 0 <= a < |L'| ensures L'[a] != x {
          assert L'[a] == L[a];
        }
        RunFrame(root, ps, o, L', x, ps.key, VNone);
        assert RuleHolds(ps.rule, root, prev.table, x) == RuleHolds(ps.rule, root, o.table, x);
        forall i | 0 <= i < |L'|
          ensures !(RuleHolds(ps.rule, root, o.table, L[i]) && Get(o.table, L[i], ps.key, VNone) != VNone)
        {
          assert L'[i] == L[i];
        }
      } else {
        var i :| 0 <= i < |L'| && RuleHolds(ps.rule, root, o.table, L'[i]) && Get(o.table, L'[i], ps.key, VNone) != VNone;
        assert L[i] == L'[i];
      }
    }
  }

  lemma TableFreeRaise(root: Node, ps: Pass, t: Table)
    requires TableFree(ps.rule) && ps.mode == RAISE
    ensures MatchAll(root, ps, t).err.Some? <==>
      exists q :: Valid(root, q) && RuleHolds(ps.rule, root, t, q) && Get(t, q, ps.key, VNone) != VNone
  {
    var L := Preorder(root);
    AllPreorderValid(root);
    PreorderNoDup(root);
    TableFreeRaiseList(root, ps, Outcome(t, None), L);
    if exists q :: Valid(root, q) && RuleHolds(ps.rule, root, t, q) && Get(t, q, ps.key, VNone) != VNone {
      var q :| Valid(root, q) && RuleHolds(ps.rule, root, t, q) && Get(t, q, ps.key, VNone) != VNone;
      PreorderMembers(root, q);
      var i :| 0 <= i < |L| && L[i] == q;
    }
  }

  // ---------------------------------------------------------------- inheritance from the parent

  /**
   * The value inheritance leaves at a node: its own value if it had one,
   * else `v` when the parent ends up with `v`, else None.
   */
  function Inherited(root: Node, t: Table, key: string, v: Value, q: Path): Value
    requires Valid(root, q)
    decreases |q|
  {
    var own := Get(t, q, key, VNone);
    if own != VNone then own
    else if q != [] && (ParentStep(root, q); Inherited(root, t, key, v, Parent(q)) == v) then v
    else VNone
  }

  /**
   * `annotate_inline_descendants_as_inline` and the preserve-descendants pass:
   * because `root.iter()` reaches a parent before its children, the value
   * flows down the whole subtree, stopping at nodes that already had a value.
   */
  lemma {:induction false} InheritPass(root: Node, t: Table, key: string, v: Value, q: Path)
    requires Valid(root, q)
    ensures MatchAll(root, Pass(ParentIs(key, v), key, v, SKIP), t).err.None?
    ensures Get(MatchAll(root, Pass(ParentIs(key, v), key, v, SKIP), t).table, q, key, VNone) == Inherited(root, t, key, v, q)
    decreases |q|
  {
    var ps := Pass(ParentIs(key, v), key, v, SKIP);
    MatchAllNoRaise(root, ps, t);
    var j, seen := AtVisit(root, ps, t, q);
    if q != [] {
      ParentStep(root, q);
      InheritPass(root, t, key, v, Parent(q));
    }
  }

  // ---------------------------------------------------------------- block inheritance

  /**
   * The type `annotate_unmixed_block_descendants_as_block` leaves: a node
   * with no type becomes block when its parent ends up block, it is not in
   * mixed content, and no sibling was inline before the pass.
   */
  function UnmixedBlock(root: Node, t: Table, q: Path): Value
    requires Valid(root, q)
    decreases |q|
  {
    var own := Get(t, q, TYPE_KEY, VNone);
    if own != VNone then own
    else if q != [] && (ParentStep(root, q); UnmixedBlock(root, t, Parent(q)) == VStr(BLOCK_TYPE))
            && !Utilities.IsInMixedContent(root, q) && !SomeSiblingInline(root, t, q) then VStr(BLOCK_TYPE)
    else VNone
  }

  /** During the block pass the set of inline nodes does not change. */
  lemma SiblingsInlineUnchanged(root: Node, t: Table, seen: Table, L: seq<Path>, q: Path)
    requires Valid(root, q) && AllValid(root, L)
    requires seen == Run(root, UnmixedBlockPass, Outcome(t, None), L).table
    ensures SomeSiblingInline(root, seen, q) == SomeSiblingInline(root, t, q)
  {
    var sibs := Utilities.Siblings(root, q);
    forall i | 0 <= i < |sibs|
      ensures (Get(seen, sibs[i], TYPE_KEY, VNone) == VStr(INLINE_TYPE)) == (Get(t, sibs[i], TYPE_KEY, VNone) == VStr(INLINE_TYPE))
    {
      SkipOnlyFills(root, UnmixedBlockPass, Outcome(t, None), L, sibs[i]);
    }
  }

  lemma {:induction false} UnmixedBlockPassResult(root: Node, t: Table, q: Path)
    requires Valid(root, q)
    ensures MatchAll(root, UnmixedBlockPass, t).err.None?
    ensures Get(MatchAll(root, UnmixedBlockPass, t).table, q, TYPE_KEY, VNone) == UnmixedBlock(root, t, q)
    decreases |q|
  {
    MatchAllNoRaise(root, UnmixedBlockPass, t);
    var j, seen := AtVisit(root, UnmixedBlockPass, t, q);
    SiblingsInlineUnchanged(root, t, seen, Preorder(root)[..j], q);
    if q != [] {
      ParentStep(root, q);
      UnmixedBlockPassResult(root, t, Parent(q));
    }
  }

  // ---------------------------------------------------------------- xml:space

  /**
   * A node is under `xml:space="preserve"`: it says so itself, or its parent
   * is and it does not reset with `xml:space="default"`.
   */
  predicate StrictReach(root: Node, q: Path)
    requires Valid(root, q)
    decreases |q|
  {
    GetAttr(At(root, q), XML_SPACE_ATTR) == Some(XML_SPACE_PRESERVE)
    || (q != [] && (ParentStep(root, q); StrictReach(root, Parent(q)))
        && GetAttr(At(root, q), XML_SPACE_ATTR) != Some(XML_SPACE_DEFAULT))
  }

  /**
   * `annotate_xml_space`: starting from a store with no "strict" entry, the
   * nodes under `xml:space="preserve"` become "strict" and all others keep
   * their whitespace entry.
   */
  lemma {:induction false} XmlSpacePassResult(root: Node, t: Table, q: Path)
    requires Valid(root, q)
    requires forall r :: Valid(root, r) ==> Get(t, r, WHITESPACE_KEY, VNone) != VStr(STRICT)
    ensures MatchAll(root, XmlSpacePass, t).err.None?
    ensures Get(MatchAll(root, XmlSpacePass, t).table, q, WHITESPACE_KEY, VNone)
         == if StrictReach(root, q) then VStr(STRICT) else Get(t, q, WHITESPACE_KEY, VNone)
    decreases |q|
  {
    MatchAllNoRaise(root, XmlSpacePass, t);
    var j, seen := AtVisit(root, XmlSpacePass, t, q);
    if q != [] {
      ParentStep(root, q);
      XmlSpacePassResult(root, t, Parent(q));
    }
  }

  // ---------------------------------------------------------------- the default type

  /** `annotate_untyped_elements_as_default`: every node still without a type gets the default. */
  lemma UntypedPassResult(root: Node, defaultType: Option<string>, t: Table, q: Path)
    requires Valid(root, q)
    ensures MatchAll(root, UntypedPass(defaultType), t).err.None?
    ensures Get(MatchAll(root, UntypedPass(defaultType), t).table, q, TYPE_KEY, VNone)
         == if Get(t, q, TYPE_KEY, VNone) == VNone then TypeValue(defaultType) else Get(t, q, TYPE_KEY, VNone)
  {
    var ps := UntypedPass(defaultType);
    MatchAllNoRaise(root, ps, t);
    var j, seen := AtVisit(root, ps, t, q);
  }

  /** The passes that write one key leave every other key as it was. */
  lemma PassFrame(root: Node, ps: Pass, t: Table, q: Path, k: string, d: Value)
    requires k != ps.key
    ensures Get(MatchAll(root, ps, t).table, q, k, d) == Get(t, q, k, d)
  {
    AllPreorderValid(root);
    RunFrame(root, ps, Outcome(t, None), Preorder(root), q, k, d);
  }
}
