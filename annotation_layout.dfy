// The layout passes of markuplift/annotation.py: indentation levels and the
// text/tail transform lists. Each loops over `root.iter()` writing one key;
// each method's contract gives the whole new store in terms of a
// specification function on the old one.
module AnnotationLayout {
  import opened Wrappers
  import opened Text
  import opened Tree
  import opened Annotation
  import Transforms

  // ---------------------------------------------------------------- levels

  /** A child's physical level: one more than its parent's under a block parent, the same otherwise. */
  function PhysicalLevel(root: Node, t: Table, q: Path): (level: nat)
    requires Valid(root, q)
    decreases |q|
  {
    if q == [] then 0
    else
      ParentStep(root, q);
      PhysicalLevel(root, t, Parent(q)) + (if Get(t, Parent(q), TYPE_KEY, VNone) == VStr(BLOCK_TYPE) then 1 else 0)
  }

  /**
   * `annotate_logical_level`: the root gets 0 and every other node its
   * parent's level plus one, so every node's logical level is its depth.
   */
  method AnnotateLogicalLevel(root: Node, annotations: Annotations)
    modifies annotations
    ensures forall q, k, d ::
              Get(annotations.table, q, k, d) ==
              if k == LOGICAL_LEVEL_KEY && Valid(root, q) then VInt(|q|) else Get(old(annotations.table), q, k, d)
  {
    var L := Preorder(root);
    AllPreorderValid(root);
    ghost var t0 := annotations.table;
    ghost var spec := (q: Path) => VInt(|q|);
    annotations.Annotate([], LOGICAL_LEVEL_KEY, VInt(0));
    ghost var done: set<Path> := {[]};
    WrittenPut(t0, t0, LOGICAL_LEVEL_KEY, {}, spec, []);
    assert {} + {[]} == done;
    var i := 0;
    while i < |L|
      invariant 0 <= i <= |L|
      invariant [] in done && (forall j :: 0 <= j < i ==> L[j] in done) && (forall q :: q in done ==> Valid(root, q))
      invariant Written(annotations.table, t0, LOGICAL_LEVEL_KEY, done, spec)
    {
      var elem := L[i];
      if elem != [] {
        ParentDone(root, i, done);
        AnnotateChildLogicalLevel(root, annotations, elem, t0, done, spec);
        done := done + {elem};
      }
      i := i + 1;
    }
    PreorderMembersAll(root);
    WrittenValid(annotations.table, t0, LOGICAL_LEVEL_KEY, done, spec, root);
  }

  /** One step of `annotate_logical_level`: a non-root node gets one more than its parent's level. */
  method AnnotateChildLogicalLevel(root: Node, annotations: Annotations, elem: Path, ghost t0: Table, ghost done: set<Path>,
                                   ghost spec: Path -> Value)
    requires Valid(root, elem) && elem != [] && Parent(elem) in done
    requires spec == ((q: Path) => VInt(|q|))
    requires Written(annotations.table, t0, LOGICAL_LEVEL_KEY, done, spec)
    modifies annotations
    ensures Written(annotations.table, t0, LOGICAL_LEVEL_KEY, done + {elem}, spec)
  {
    var parent := Parent(elem);
    WrittenAt(annotations.table, t0, LOGICAL_LEVEL_KEY, done, spec, parent, LOGICAL_LEVEL_KEY, VNone);
    var parentLevel := annotations.Annotation(parent, LOGICAL_LEVEL_KEY, VNone);
    assert parentLevel == VInt(|parent|);
    if parentLevel.VInt? {
      assert spec(elem) == VInt(parentLevel.i + 1);
      WrittenPut(annotations.table, t0, LOGICAL_LEVEL_KEY, done, spec, elem);
      annotations.Annotate(elem, LOGICAL_LEVEL_KEY, VInt(parentLevel.i + 1));
    }
  }

  /** When the walk reaches a non-root node, its parent was reached earlier. */
  lemma ParentDone(root: Node, i: nat, done: set<Path>)
    requires i < |Preorder(root)| && Preorder(root)[i] != []
    requires forall j :: 0 <= j < i ==> Preorder(root)[j] in done
    ensures Parent(Preorder(root)[i]) in done
  {
    var L := Preorder(root);
    PreorderParentsFirst(root);
    var j :| 0 <= j < i && L[..i][j] == Parent(L[i]);
    assert L[j] in done;
  }

  lemma PreorderMembersAll(root: Node)
    ensures forall q :: q in Preorder(root) <==> Valid(root, q)
  {
    forall q ensures q in Preorder(root) <==> Valid(root, q) {
      PreorderMembers(root, q);
    }
  }

  /** The loop body of `annotate_physical_level` for a non-root node whose parent is already done. */
  method AnnotateChildLevel(root: Node, annotations: Annotations, elem: Path, ghost t0: Table, ghost done: set<Path>,
                            ghost spec: Path -> Value)
    requires Valid(root, elem) && elem != [] && Parent(elem) in done
    requires spec == ((q: Path) => if Valid(root, q) then VInt(PhysicalLevel(root, t0, q)) else VNone)
    requires Written(annotations.table, t0, PHYSICAL_LEVEL_KEY, done, spec)
    modifies annotations
    ensures Written(annotations.table, t0, PHYSICAL_LEVEL_KEY, done + {elem}, spec)
  {
    var parent := Parent(elem);
    ParentStep(root, elem);
    WrittenAt(annotations.table, t0, PHYSICAL_LEVEL_KEY, done, spec, parent, PHYSICAL_LEVEL_KEY, VNone);
    WrittenAt(annotations.table, t0, PHYSICAL_LEVEL_KEY, done, spec, parent, TYPE_KEY, VNone);
    var parentLevel := annotations.Annotation(parent, PHYSICAL_LEVEL_KEY, VNone);
    assert parentLevel == VInt(PhysicalLevel(root, t0, parent));
    var parentType := annotations.Annotation(parent, TYPE_KEY, VNone);
    var level;
    if parentType == VStr(INLINE_TYPE) {
      level := parentLevel.i;
    } else if parentType == VStr(BLOCK_TYPE) {
      level := parentLevel.i + 1;
    } else {
      level := parentLevel.i;
    }
    assert spec(elem) == VInt(level);
    WrittenPut(annotations.table, t0, PHYSICAL_LEVEL_KEY, done, spec, elem);
    annotations.Annotate(elem, PHYSICAL_LEVEL_KEY, VInt(level));
  }

  /** `annotate_physical_level`: every node gets `PhysicalLevel` computed from the types in the store. */
  method AnnotatePhysicalLevel(root: Node, annotations: Annotations)
    modifies annotations
    ensures forall q, k, d ::
              Get(annotations.table, q, k, d) ==
              if k == PHYSICAL_LEVEL_KEY && Valid(root, q) then VInt(PhysicalLevel(root, old(annotations.table), q))
              else Get(old(annotations.table), q, k, d)
  {
    var L := Preorder(root);
    AllPreorderValid(root);
    ghost var t0 := annotations.table;
    ghost var spec := (q: Path) => if Valid(root, q) then VInt(PhysicalLevel(root, t0, q)) else VNone;
    annotations.Annotate([], PHYSICAL_LEVEL_KEY, VInt(0));
    ghost var done: set<Path> := {[]};
    WrittenPut(t0, t0, PHYSICAL_LEVEL_KEY, {}, spec, []);
    assert {} + {[]} == done;
    var i := 0;
    while i < |L|
      invariant 0 <= i <= |L|
      invariant [] in done && (forall j :: 0 <= j < i ==> L[j] in done) && (forall q :: q in done ==> Valid(root, q))
      invariant Written(annotations.table, t0, PHYSICAL_LEVEL_KEY, done, spec)
    {
      var elem := L[i];
      if elem != [] {
        ParentDone(root, i, done);
        AnnotateChildLevel(root, annotations, elem, t0, done, spec);
        done := done + {elem};
      }
      i := i + 1;
    }
    PreorderMembersAll(root);
    WrittenValid(annotations.table, t0, PHYSICAL_LEVEL_KEY, done, spec, root);
  }

  /**
   * The physical level never exceeds the logical one (the depth), and equals
   * it when every ancestor is block.
   */
  lemma {:induction false} PhysicalAtMostLogical(root: Node, t: Table, q: Path)
    requires Valid(root, q)
    ensures PhysicalLevel(root, t, q) <= |q|
    ensures (forall k :: 0 <= k < |q| ==> Get(t, q[..k], TYPE_KEY, VNone) == VStr(BLOCK_TYPE))
            ==> PhysicalLevel(root, t, q) == |q|
    decreases |q|
  {
    if q != [] {
      ParentStep(root, q);
      var p := Parent(q);
      PhysicalAtMostLogical(root, t, p);
      if forall k :: 0 <= k < |q| ==> Get(t, q[..k], TYPE_KEY, VNone) == VStr(BLOCK_TYPE) {
        forall k | 0 <= k < |p| ensures Get(t, p[..k], TYPE_KEY, VNone) == VStr(BLOCK_TYPE) {
          assert p[..k] == q[..k];
        }
        assert q[..|q| - 1] == p;
      }
    }
  }

  // ---------------------------------------------------------------- transform lists

  /** A stored level as an int; levels are always stored as ints, other values count as 0. */
  function LevelOf(v: Value): int
  {
    if v.VInt? then v.i else 0
  }

  predicate Keeps(ws: Value)
  {
    ws == VStr(PRESERVE) || ws == VStr(STRICT)
  }

  /**
   * The text transforms chosen from the node's whitespace mode and its first
   * child's type and physical level (`annotate_text_transforms`).
   */
  function TextTransformsOf(ws: Value, firstChild: bool, firstChildType: Value, firstChildLevel: int, oneIndent: string): seq<Transform>
  {
    if Keeps(ws) then []
    else
      (if ws == VStr(NORMALIZE) || ws == VStr(STRIP) then [NormalizeWs] + (if ws == VStr(STRIP) then [LStripWs] else []) else [])
      + (if firstChildType == VStr(BLOCK_TYPE) then [PrecedingBlock(firstChildLevel, oneIndent)] else [])
      + (if !firstChild && ws == VStr(STRIP) then [RStripWs] else [])
  }

  /** The transforms `annotate_text_transforms` stores for a node's text. */
  function TextTransformsFor(root: Node, t: Table, p: Path, oneIndent: string): seq<Transform>
    requires Valid(root, p)
  {
    var firstChild := FirstChild(root, p);
    TextTransformsOf(
      Get(t, p, WHITESPACE_KEY, VNone),
      firstChild.Some?,
      if firstChild.Some? then Get(t, firstChild.value, TYPE_KEY, VNone) else VNone,
      if firstChild.Some? then LevelOf(Get(t, firstChild.value, PHYSICAL_LEVEL_KEY, VInt(0))) else 0,
      oneIndent)
  }

  /**
   * The tail transforms chosen from the parent's whitespace mode and level,
   * the node's type, and the next sibling's type and level
   * (`annotate_tail_transforms`).
   */
  function TailTransformsOf(isRoot: bool, parentWs: Value, parentLevel: int, elemType: Value,
                            next: bool, nextType: Value, nextLevel: int, oneIndent: string): seq<Transform>
  {
    if Keeps(parentWs) then []
    else
      (if parentWs == VStr(NORMALIZE) || parentWs == VStr(STRIP)
       then [NormalizeWs] + (if !next && parentWs == VStr(STRIP) then [RStripWs] else []) else [])
      + (if elemType == VStr(BLOCK_TYPE) then
           (if nextType == VStr(BLOCK_TYPE) then [FollowingBlock(parentLevel, oneIndent)]
            else if nextType == VStr(INLINE_TYPE) then [FollowingBlockPrecedingInline(parentLevel)]
            else if !isRoot then [FollowingBlock(parentLevel, oneIndent)]
            else [Blank])
         else [])
      + (if next && nextType == VStr(BLOCK_TYPE) then [PrecedingBlock(nextLevel, oneIndent)] else [])
  }

  /** The transforms `annotate_tail_transforms` stores for a node's tail. */
  function TailTransformsFor(root: Node, t: Table, p: Path, oneIndent: string): seq<Transform>
    requires Valid(root, p)
  {
    var next := NextSibling(root, p);
    TailTransformsOf(
      p == [],
      if p != [] then Get(t, Parent(p), WHITESPACE_KEY, VNone) else VNone,
      if p != [] then LevelOf(Get(t, Parent(p), PHYSICAL_LEVEL_KEY, VInt(0))) else 0,
      Get(t, p, TYPE_KEY, VNone),
      next.Some?,
      if next.Some? then Get(t, next.value, TYPE_KEY, VNone) else VNone,
      if next.Some? then LevelOf(Get(t, next.value, PHYSICAL_LEVEL_KEY, VInt(0))) else 0,
      oneIndent)
  }

  /** Physical levels read only the types in the store. */
  lemma {:induction false} PhysicalLevelFrame(root: Node, t: Table, u: Table, q: Path)
    requires Valid(root, q)
    requires forall r :: Get(t, r, TYPE_KEY, VNone) == Get(u, r, TYPE_KEY, VNone)
    ensures PhysicalLevel(root, t, q) == PhysicalLevel(root, u, q)
    decreases |q|
  {
    if q != [] {
      ParentStep(root, q);
      PhysicalLevelFrame(root, t, u, Parent(q));
    }
  }

  /** The transform lists read only the whitespace modes, types and physical levels in the store. */
  lemma TransformsFrame(root: Node, t: Table, u: Table, p: Path, oneIndent: string)
    requires Valid(root, p)
    requires forall r, d :: Get(t, r, WHITESPACE_KEY, d) == Get(u, r, WHITESPACE_KEY, d)
    requires forall r, d :: Get(t, r, TYPE_KEY, d) == Get(u, r, TYPE_KEY, d)
    requires forall r, d :: Get(t, r, PHYSICAL_LEVEL_KEY, d) == Get(u, r, PHYSICAL_LEVEL_KEY, d)
    ensures TextTransformsFor(root, t, p, oneIndent) == TextTransformsFor(root, u, p, oneIndent)
    ensures TailTransformsFor(root, t, p, oneIndent) == TailTransformsFor(root, u, p, oneIndent)
  {
    TextTransformsFrame(root, t, u, p, oneIndent);
    TailTransformsFrame(root, t, u, p, oneIndent);
  }

  lemma TextTransformsFrame(root: Node, t: Table, u: Table, p: Path, oneIndent: string)
    requires Valid(root, p)
    requires forall r, d :: Get(t, r, WHITESPACE_KEY, d) == Get(u, r, WHITESPACE_KEY, d)
    requires forall r, d :: Get(t, r, TYPE_KEY, d) == Get(u, r, TYPE_KEY, d)
    requires forall r, d :: Get(t, r, PHYSICAL_LEVEL_KEY, d) == Get(u, r, PHYSICAL_LEVEL_KEY, d)
    ensures TextTransformsFor(root, t, p, oneIndent) == TextTransformsFor(root, u, p, oneIndent)
  {
    assert Get(t, p, WHITESPACE_KEY, VNone) == Get(u, p, WHITESPACE_KEY, VNone);
    var firstChild := FirstChild(root, p);
    if firstChild.Some? {
      assert Get(t, firstChild.value, TYPE_KEY, VNone) == Get(u, firstChild.value, TYPE_KEY, VNone);
      assert Get(t, firstChild.value, PHYSICAL_LEVEL_KEY, VInt(0)) == Get(u, firstChild.value, PHYSICAL_LEVEL_KEY, VInt(0));
    }
  }

  lemma TailTransformsFrame(root: Node, t: Table, u: Table, p: Path, oneIndent: string)
    requires Valid(root, p)
    requires forall r, d :: Get(t, r, WHITESPACE_KEY, d) == Get(u, r, WHITESPACE_KEY, d)
    requires forall r, d :: Get(t, r, TYPE_KEY, d) == Get(u, r, TYPE_KEY, d)
    requires forall r, d :: Get(t, r, PHYSICAL_LEVEL_KEY, d) == Get(u, r, PHYSICAL_LEVEL_KEY, d)
    ensures TailTransformsFor(root, t, p, oneIndent) == TailTransformsFor(root, u, p, oneIndent)
  {
    if p != [] {
      assert Get(t, Parent(p), WHITESPACE_KEY, VNone) == Get(u, Parent(p), WHITESPACE_KEY, VNone);
      assert Get(t, Parent(p), PHYSICAL_LEVEL_KEY, VInt(0)) == Get(u, Parent(p), PHYSICAL_LEVEL_KEY, VInt(0));
    }
    assert Get(t, p, TYPE_KEY, VNone) == Get(u, p, TYPE_KEY, VNone);
    var next := NextSibling(root, p);
    if next.Some? {
      assert Get(t, next.value, TYPE_KEY, VNone) == Get(u, next.value, TYPE_KEY, VNone);
      assert Get(t, next.value, PHYSICAL_LEVEL_KEY, VInt(0)) == Get(u, next.value, PHYSICAL_LEVEL_KEY, VInt(0));
    }
  }

  /**
   * Text under "preserve" or "strict" is not transformed; otherwise, with a
   * whitespace indent, the transforms only move whitespace.
   */
  lemma TextTransformsRespectWhitespace(root: Node, t: Table, p: Path, oneIndent: string, text: string)
    requires Valid(root, p) && AllSpace(oneIndent)
    ensures Keeps(Get(t, p, WHITESPACE_KEY, VNone)) ==> Transforms.ApplyAll(TextTransformsFor(root, t, p, oneIndent), text) == text
    ensures RemoveSpaces(Transforms.ApplyAll(TextTransformsFor(root, t, p, oneIndent), text)) == RemoveSpaces(text)
  {
    Transforms.ApplyAllKeepsContent(TextTransformsFor(root, t, p, oneIndent), text);
  }

  /**
   * A tail inside a "preserve" or "strict" parent is not transformed; a
   * block root's tail becomes ""; any other tail keeps its non-whitespace
   * characters.
   */
  lemma TailTransformsRespectWhitespace(root: Node, t: Table, p: Path, oneIndent: string, tail: string)
    requires Valid(root, p) && AllSpace(oneIndent)
    ensures p != [] && Keeps(Get(t, Parent(p), WHITESPACE_KEY, VNone)) ==>
      Transforms.ApplyAll(TailTransformsFor(root, t, p, oneIndent), tail) == tail
    ensures p == [] && Get(t, p, TYPE_KEY, VNone) == VStr(BLOCK_TYPE) ==>
      Transforms.ApplyAll(TailTransformsFor(root, t, p, oneIndent), tail) == ""
    ensures p != [] ==>
      RemoveSpaces(Transforms.ApplyAll(TailTransformsFor(root, t, p, oneIndent), tail)) == RemoveSpaces(tail)
  {
    if p != [] {
      if Keeps(Get(t, Parent(p), WHITESPACE_KEY, VNone)) {
        KeptTail(root, t, p, oneIndent, tail);
      }
      Transforms.ApplyAllKeepsContent(TailTransformsFor(root, t, p, oneIndent), tail);
    } else if Get(t, p, TYPE_KEY, VNone) == VStr(BLOCK_TYPE) {
      RootBlockTail(root, t, oneIndent, tail);
    }
  }

  lemma KeptTail(root: Node, t: Table, p: Path, oneIndent: string, tail: string)
    requires Valid(root, p) && p != [] && Keeps(Get(t, Parent(p), WHITESPACE_KEY, VNone))
    ensures Transforms.ApplyAll(TailTransformsFor(root, t, p, oneIndent), tail) == tail
  {
    assert TailTransformsFor(root, t, p, oneIndent) == [];
  }

  lemma RootBlockTail(root: Node, t: Table, oneIndent: string, tail: string)
    requires Get(t, [], TYPE_KEY, VNone) == VStr(BLOCK_TYPE)
    ensures Transforms.ApplyAll(TailTransformsFor(root, t, [], oneIndent), tail) == ""
  {
    assert NextSibling(root, []) == None;
    assert TailTransformsFor(root, t, [], oneIndent) == [Blank];
  }

  /** `annotate_text_transforms`: stores `TextTransformsFor` at every node and changes nothing else. */
  method AnnotateTextTransforms(root: Node, annotations: Annotations, oneIndent: string)
    modifies annotations
    ensures forall q, k, d ::
              Get(annotations.table, q, k, d) ==
              if k == TEXT_TRANSFORMS_KEY && Valid(root, q) then VTransforms(TextTransformsFor(root, old(annotations.table), q, oneIndent))
              else Get(old(annotations.table), q, k, d)
  {
    var L := Preorder(root);
    AllPreorderValid(root);
    ghost var t0 := annotations.table;
    ghost var spec := (q: Path) => if Valid(root, q) then VTransforms(TextTransformsFor(root, t0, q, oneIndent)) else VNone;
    ghost var done: set<Path> := {};
    var i := 0;
    while i < |L|
      invariant 0 <= i <= |L|
      invariant (forall j :: 0 <= j < i ==> L[j] in done) && (forall q :: q in done ==> Valid(root, q))
      invariant Written(annotations.table, t0, TEXT_TRANSFORMS_KEY, done, spec)
    {
      var elem := L[i];
      var ts := TextTransformsFor(root, annotations.table, elem, oneIndent);
      WrittenKeepsInputs(annotations.table, t0, TEXT_TRANSFORMS_KEY, done, spec);
      TextTransformsFrame(root, annotations.table, t0, elem, oneIndent);
      WrittenPut(annotations.table, t0, TEXT_TRANSFORMS_KEY, done, spec, elem);
      annotations.Annotate(elem, TEXT_TRANSFORMS_KEY, VTransforms(ts));
      done := done + {elem};
      i := i + 1;
    }
    PreorderMembersAll(root);
    WrittenValid(annotations.table, t0, TEXT_TRANSFORMS_KEY, done, spec, root);
  }

  /** Writing the transform lists leaves the entries they are computed from as they were. */
  lemma WrittenKeepsInputs(t: Table, t0: Table, key: string, done: set<Path>, spec: Path -> Value)
    requires Written(t, t0, key, done, spec)
    requires key != WHITESPACE_KEY && key != TYPE_KEY && key != PHYSICAL_LEVEL_KEY
    ensures forall r, d :: Get(t, r, WHITESPACE_KEY, d) == Get(t0, r, WHITESPACE_KEY, d)
    ensures forall r, d :: Get(t, r, TYPE_KEY, d) == Get(t0, r, TYPE_KEY, d)
    ensures forall r, d :: Get(t, r, PHYSICAL_LEVEL_KEY, d) == Get(t0, r, PHYSICAL_LEVEL_KEY, d)
  {
  }

  /** `annotate_tail_transforms`: stores `TailTransformsFor` at every node and changes nothing else. */
  method AnnotateTailTransforms(root: Node, annotations: Annotations, oneIndent: string)
    modifies annotations
    ensures forall q, k, d ::
              Get(annotations.table, q, k, d) ==
              if k == TAIL_TRANSFORMS_KEY && Valid(root, q) then VTransforms(TailTransformsFor(root, old(annotations.table), q, oneIndent))
              else Get(old(annotations.table), q, k, d)
  {
    var L := Preorder(root);
    AllPreorderValid(root);
    ghost var t0 := annotations.table;
    ghost var spec := (q: Path) => if Valid(root, q) then VTransforms(TailTransformsFor(root, t0, q, oneIndent)) else VNone;
    ghost var done: set<Path> := {};
    var i := 0;
    while i < |L|
      invariant 0 <= i <= |L|
      invariant (forall j :: 0 <= j < i ==> L[j] in done) && (forall q :: q in done ==> Valid(root, q))
      invariant Written(annotations.table, t0, TAIL_TRANSFORMS_KEY, done, spec)
    {
      var elem := L[i];
      var ts := TailTransformsFor(root, annotations.table, elem, oneIndent);
      WrittenKeepsInputs(annotations.table, t0, TAIL_TRANSFORMS_KEY, done, spec);
      TailTransformsFrame(root, annotations.table, t0, elem, oneIndent);
      WrittenPut(annotations.table, t0, TAIL_TRANSFORMS_KEY, done, spec, elem);
      annotations.Annotate(elem, TAIL_TRANSFORMS_KEY, VTransforms(ts));
      done := done + {elem};
      i := i + 1;
    }
    PreorderMembersAll(root);
    WrittenValid(annotations.table, t0, TAIL_TRANSFORMS_KEY, done, spec, root);
  }
}
