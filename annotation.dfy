// The annotation store and `annotate_matches` (markuplift/annotation.py).
// Elements are identified by their paths; the store maps a path and a key to
// a value. `annotate_matches` walks `root.iter()` and, for each node the rule
// accepts, writes the value under the conflict mode. Rules are evaluated
// against the store as it is at that node, so a rule reading the parent sees
// what the same walk has already written there.
module Annotation {
  import opened Wrappers
  import opened Types
  import opened Tree
  import Utilities

  const LOGICAL_LEVEL_KEY := "logical_level"
  const PHYSICAL_LEVEL_KEY := "physical_level"
  const WHITESPACE_KEY := "whitespace"
  const TYPE_KEY := "type"
  const TEXT_TRANSFORMS_KEY := "text_transforms"
  const TAIL_TRANSFORMS_KEY := "tail_transforms"

  const PRESERVE := "preserve"
  const NORMALIZE := "normalize"
  const STRIP := "strip"
  const STRICT := "strict"
  const BLOCK_TYPE := "block"
  const INLINE_TYPE := "inline"

  const XML_SPACE_ATTR := "{http://www.w3.org/XML/1998/namespace}space"
  const XML_SPACE_DEFAULT := "default"
  const XML_SPACE_PRESERVE := "preserve"

  /** The text transforms the passes store (the partial applications of annotation.py). */
  datatype Transform =
    | NormalizeWs                                        // normalize_ws
    | LStripWs                                           // str.lstrip
    | RStripWs                                           // str.rstrip
    | PrecedingBlock(level: int, oneIndent: string)      // transform_text_preceding_block
    | FollowingBlock(level: int, oneIndent: string)      // transform_text_following_block
    | FollowingBlockPrecedingInline(level: int)          // transform_text_following_block_preceding_inline
    | Blank                                              // lambda s: ""

  /** An annotation value: None, a string, a level, or a list of transforms. */
  datatype Value = VNone | VStr(s: string) | VInt(i: int) | VTransforms(ts: seq<Transform>)

  type Table = map<Path, map<string, Value>>

  /** `annotation(element, key, default)`. */
  function Get(t: Table, p: Path, key: string, default: Value): Value
  {
    if p in t && key in t[p] then t[p][key] else default
  }

  /** The table after `annotate(element, key, value)`. */
  function Put(t: Table, p: Path, key: string, v: Value): Table
  {
    t[p := (if p in t then t[p] else map[])[key := v]]
  }

  /**
   * After `annotate(e, k, v)`, `annotation(e, k)` is `v` whatever the default,
   * and every other (node, key) pair reads as before.
   */
  lemma GetPut(t: Table, p: Path, key: string, v: Value, q: Path, k: string, d: Value)
    ensures Get(Put(t, p, key, v), q, k, d) == if q == p && k == key then v else Get(t, q, k, d)
  {
  }

  /** The `Annotations` object: one mutable dictionary from node to key to value. */
  class Annotations {
    var table: Table

    constructor()
      ensures table == map[]
    {
      table := map[];
    }

    /** `annotate(element, attribute_name, attribute_value)`. */
    method Annotate(p: Path, key: string, v: Value)
      modifies this
      ensures table == Put(old(table), p, key, v)
    {
      var entry := if p in table then table[p] else map[];
      table := table[p := entry[key := v]];
    }

    /** `annotation(element, attribute_name, default)`. */
    function Annotation(p: Path, key: string, default: Value): Value
      reads this
    {
      Get(table, p, key, default)
    }
  }

  /**
   * `t` is `t0` with the entries under `key` at the nodes `done` replaced by
   * `spec`: the state of a pass that writes one key node by node.
   */
  ghost predicate Written(t: Table, t0: Table, key: string, done: set<Path>, spec: Path -> Value)
  {
    forall q, k, d :: Get(t, q, k, d) == if k == key && q in done then spec(q) else Get(t0, q, k, d)
  }

  lemma WrittenPut(t: Table, t0: Table, key: string, done: set<Path>, spec: Path -> Value, p: Path)
    requires Written(t, t0, key, done, spec)
    ensures Written(Put(t, p, key, spec(p)), t0, key, done + {p}, spec)
  {
    forall q, k, d
      ensures Get(Put(t, p, key, spec(p)), q, k, d) == if k == key && q in done + {p} then spec(q) else Get(t0, q, k, d)
    {
      GetPut(t, p, key, spec(p), q, k, d);
    }
  }

  lemma WrittenAt(t: Table, t0: Table, key: string, done: set<Path>, spec: Path -> Value, q: Path, k: string, d: Value)
    requires Written(t, t0, key, done, spec)
    ensures Get(t, q, k, d) == if k == key && q in done then spec(q) else Get(t0, q, k, d)
  {
  }

  /** When the written nodes are exactly the valid ones, the store is `t0` with `spec` at every node. */
  lemma WrittenValid(t: Table, t0: Table, key: string, done: set<Path>, spec: Path -> Value, root: Node)
    requires Written(t, t0, key, done, spec)
    requires forall q :: q in done <==> Valid(root, q)
    ensures forall q, k, d :: Get(t, q, k, d) == if k == key && Valid(root, q) then spec(q) else Get(t0, q, k, d)
  {
  }

  /** `t` with `spec(q)` stored under `key` at every node of `L`, in order. */
  function PutAll(t: Table, key: string, L: seq<Path>, spec: Path -> Value): Table
    decreases |L|
  {
    if L == [] then t
    else Put(PutAll(t, key, L[..|L| - 1], spec), L[|L| - 1], key, spec(L[|L| - 1]))
  }

  lemma {:induction false} GetPutAll(t: Table, key: string, L: seq<Path>, spec: Path -> Value, q: Path, k: string, d: Value)
    ensures Get(PutAll(t, key, L, spec), q, k, d) == if k == key && q in L then spec(q) else Get(t, q, k, d)
    decreases |L|
  {
    if L != [] {
      var front := L[..|L| - 1];
      GetPutAll(t, key, front, spec, q, k, d);
      GetPut(PutAll(t, key, front, spec), L[|L| - 1], key, spec(L[|L| - 1]), q, k, d);
      assert q in L <==> q in front || q == L[|L| - 1] by {
        assert L == front + [L[|L| - 1]];
      }
    }
  }

  /** Two stores that answer every `annotation(...)` query alike. */
  ghost predicate SameEntries(t: Table, u: Table)
  {
    forall q, k, d :: Get(t, q, k, d) == Get(u, q, k, d)
  }

  datatype ConflictMode = RAISE | SKIP | OVERWRITE

  /** The element predicates the passes give to `annotate_matches`. */
  datatype Rule =
    | Static(pred: Path -> bool)             // a prepared user predicate
    | InMixedContent                         // is_in_mixed_content
    | ParentIs(key: string, value: Value)    // partial(parent_is_annotated_with, ...)
    | UnmixedBlockChild                      // the rule of annotate_unmixed_block_descendants_as_block
    | XmlSpaceStrict                         // the rule of annotate_xml_space
    | Untyped                                // the rule of annotate_untyped_elements_as_default

  /** `parent_is_annotated_with(e, annotations, key, value)`: false for the root. */
  predicate ParentAnnotatedWith(t: Table, p: Path, key: string, v: Value)
  {
    p != [] && Get(t, Parent(p), key, VNone) == v
  }

  /** Some sibling of `p` (itself included) has type "inline" in `t`. */
  predicate SomeSiblingInline(root: Node, t: Table, p: Path)
    requires Valid(root, p)
  {
    var sibs := Utilities.Siblings(root, p);
    exists i :: 0 <= i < |sibs| && Get(t, sibs[i], TYPE_KEY, VNone) == VStr(INLINE_TYPE)
  }

  /** The rule applied to the node at `p`, reading the store `t`. */
  predicate RuleHolds(rule: Rule, root: Node, t: Table, p: Path)
    requires Valid(root, p)
  {
    match rule
    case Static(pred) => pred(p)
    case InMixedContent => Utilities.IsInMixedContent(root, p)
    case ParentIs(k, v) => ParentAnnotatedWith(t, p, k, v)
    case UnmixedBlockChild =>
      ParentAnnotatedWith(t, p, TYPE_KEY, VStr(BLOCK_TYPE)) && !Utilities.IsInMixedContent(root, p)
      && !SomeSiblingInline(root, t, p)
    case XmlSpaceStrict =>
      GetAttr(At(root, p), XML_SPACE_ATTR) == Some(XML_SPACE_PRESERVE)
      || (ParentAnnotatedWith(t, p, WHITESPACE_KEY, VStr(STRICT))
          && GetAttr(At(root, p), XML_SPACE_ATTR) != Some(XML_SPACE_DEFAULT))
    case Untyped => Get(t, p, TYPE_KEY, VNone) == VNone
  }

  /** The arguments of one `annotate_matches` call. */
  datatype Pass = Pass(rule: Rule, key: string, value: Value, mode: ConflictMode)

  /** The store, and the conflict error if the walk raised one (the store is then as it was at the raise). */
  datatype Outcome = Outcome(table: Table, err: Option<Error>)

  function ShowValue(v: Value): string
  {
    match v
    case VStr(s) => s
    case VNone => "None"
    case _ => "a non-string value"
  }

  /**
   * The loop body of `annotate_matches` for the node at `p`. The conflict
   * message names a node by `Utilities.TagName`: the tag for an element, as
   * the source's `{elem.tag}` does, but `#comment` or `?target` where the
   * source prints lxml's factory function.
   */
  function Step(root: Node, ps: Pass, o: Outcome, p: Path): Outcome
    requires Valid(root, p)
  {
    if o.err.Some? || !RuleHolds(ps.rule, root, o.table, p) then o
    else
      var existing := Get(o.table, p, ps.key, VNone);
      if existing != VNone && ps.mode == RAISE then
        Outcome(o.table, Some(AnnotationConflictError(
          "Element <" + Utilities.TagName(At(root, p)) + "> was previously marked as " + ShowValue(existing)
          + ", cannot also mark as " + ShowValue(ps.value))))
      else if existing != VNone && ps.mode == SKIP then o
      else Outcome(Put(o.table, p, ps.key, ps.value), None)
  }

  predicate AllValid(root: Node, L: seq<Path>)
  {
    forall i :: 0 <= i < |L| ==> Valid(root, L[i])
  }

  /** The walk over the nodes `L`, in order. */
  function Run(root: Node, ps: Pass, o: Outcome, L: seq<Path>): Outcome
    requires AllValid(root, L)
    decreases |L|
  {
    if L == [] then o
    else Step(root, ps, Run(root, ps, o, L[..|L| - 1]), L[|L| - 1])
  }

  /** `annotate_matches(root, annotations, rule, key, value, conflict_mode)` from the store `t`. */
  function MatchAll(root: Node, ps: Pass, t: Table): Outcome
  {
    PreorderMembers(root, []);
    AllPreorderValid(root);
    Run(root, ps, Outcome(t, None), Preorder(root))
  }

  lemma AllPreorderValid(root: Node)
    ensures AllValid(root, Preorder(root))
  {
    forall i | 0 <= i < |Preorder(root)|
      ensures Valid(root, Preorder(root)[i])
    {
      PreorderMembers(root, Preorder(root)[i]);
    }
  }

  /** `annotate_matches`: visits `root.iter()` and stops at the first conflict in RAISE mode. */
  method AnnotateMatches(root: Node, annotations: Annotations, ps: Pass) returns (err: Option<Error>)
    modifies annotations
    ensures Outcome(annotations.table, err) == MatchAll(root, ps, old(annotations.table))
  {
    var L := Preorder(root);
    AllPreorderValid(root);
    ghost var o0 := Outcome(annotations.table, None);
    err := None;
    var i := 0;
    while i < |L|
      invariant 0 <= i <= |L|
      invariant Outcome(annotations.table, None) == Run(root, ps, o0, L[..i])
    {
      var p := L[i];
      assert L[..i + 1][..i] == L[..i];
      assert AllValid(root, L[..i + 1]);
      ghost var next := Step(root, ps, Outcome(annotations.table, None), p);
      assert Run(root, ps, o0, L[..i + 1]) == next;
      if RuleHolds(ps.rule, root, annotations.table, p) {
        var existing := annotations.Annotation(p, ps.key, VNone);
        if existing != VNone && ps.mode == RAISE {
          err := Some(AnnotationConflictError(
            "Element <" + Utilities.TagName(At(root, p)) + "> was previously marked as " + ShowValue(existing)
            + ", cannot also mark as " + ShowValue(ps.value)));
          RunErrorSticky(root, ps, o0, L, i + 1);
          assert L[..|L|] == L;
          return;
        } else if existing != VNone && ps.mode == SKIP {
        } else {
          annotations.Annotate(p, ps.key, ps.value);
        }
      }
      i := i + 1;
    }
    assert L[..i] == L;
  }

  // ---------------------------------------------------------------- facts about the walk

  /** Once a conflict is raised, the rest of the walk changes nothing. */
  lemma {:induction false} RunErrorSticky(root: Node, ps: Pass, o: Outcome, L: seq<Path>, j: nat)
    requires AllValid(root, L) && j <= |L|
    requires Run(root, ps, o, L[..j]).err.Some?
    ensures Run(root, ps, o, L) == Run(root, ps, o, L[..j])
    decreases |L|
  {
    if j < |L| {
      var L' := L[..|L| - 1];
      assert L'[..j] == L[..j];
      RunErrorSticky(root, ps, o, L', j);
    } else {
      assert L[..j] == L;
    }
  }

  /** A walk that ends without error had no error at any earlier point. */
  lemma RunOkPrefix(root: Node, ps: Pass, o: Outcome, L: seq<Path>, j: nat)
    requires AllValid(root, L) && j <= |L|
    requires Run(root, ps, o, L).err.None?
    ensures Run(root, ps, o, L[..j]).err.None?
  {
    if Run(root, ps, o, L[..j]).err.Some? {
      RunErrorSticky(root, ps, o, L, j);
    }
  }

  /** A step writes at most its own node's entry under the pass's key. */
  lemma StepFrame(root: Node, ps: Pass, o: Outcome, p: Path, q: Path, k: string, d: Value)
    requires Valid(root, p)
    requires q != p || k != ps.key
    ensures Get(Step(root, ps, o, p).table, q, k, d) == Get(o.table, q, k, d)
  {
  }

  /** Nodes the walk does not visit, and keys other than the pass's, are left as they were. */
  lemma {:induction false} RunFrame(root: Node, ps: Pass, o: Outcome, L: seq<Path>, q: Path, k: string, d: Value)
    requires AllValid(root, L)
    requires q !in L || k != ps.key
    ensures Get(Run(root, ps, o, L).table, q, k, d) == Get(o.table, q, k, d)
    decreases |L|
  {
    if L != [] {
      var L' := L[..|L| - 1];
      assert q !in L' || k != ps.key;
      RunFrame(root, ps, o, L', q, k, d);
      StepFrame(root, ps, Run(root, ps, o, L'), L[|L| - 1], q, k, d);
    }
  }

  /** With no repeated node, an entry written at a visited node is not touched by the rest of the walk. */
  lemma {:induction false} RunStable(root: Node, ps: Pass, o: Outcome, L: seq<Path>, j: nat, q: Path, k: string, d: Value)
    requires AllValid(root, L) && NoDup(L) && j <= |L|
    requires q in L[..j]
    ensures Get(Run(root, ps, o, L).table, q, k, d) == Get(Run(root, ps, o, L[..j]).table, q, k, d)
    decreases |L|
  {
    if j < |L| {
      var L' := L[..|L| - 1];
      assert L'[..j] == L[..j];
      assert NoDup(L') by {
        forall a, b | 0 <= a < b < |L'| ensures L'[a] != L'[b] {
          assert L'[a] == L[a] && L'[b] == L[b];
        }
      }
      RunStable(root, ps, o, L', j, q, k, d);
      var i :| 0 <= i < j && L[..j][i] == q;
      assert L[i] == q && i < |L| - 1;
      StepFrame(root, ps, Run(root, ps, o, L'), L[|L| - 1], q, k, d);
    } else {
      assert L[..j] == L;
    }
  }

  /**
   * What a walk over a duplicate-free list leaves at its `j`-th node: the
   * result of that node's step, taken from the store as the walk found it,
   * where that node still held its initial entries.
   */
  lemma Settled(root: Node, ps: Pass, o: Outcome, L: seq<Path>, j: nat, k: string, d: Value)
    requires AllValid(root, L) && NoDup(L) && j < |L|
    ensures Get(Run(root, ps, o, L).table, L[j], k, d)
         == Get(Step(root, ps, Run(root, ps, o, L[..j]), L[j]).table, L[j], k, d)
    ensures Get(Run(root, ps, o, L[..j]).table, L[j], k, d) == Get(o.table, L[j], k, d)
  {
    assert L[..j + 1][..j] == L[..j];
    assert L[j] in L[..j + 1];
    RunStable(root, ps, o, L, j + 1, L[j], k, d);
    assert AllValid(root, L[..j]);
    assert L[j] !in L[..j];
    RunFrame(root, ps, o, L[..j], L[j], k, d);
  }

  /** The index of a valid node in `root.iter()`, with the store the walk sees when it gets there. */
  lemma VisitIndex(root: Node, q: Path) returns (j: nat)
    requires Valid(root, q)
    ensures j < |Preorder(root)| && Preorder(root)[j] == q
    ensures q !in Preorder(root)[..j]
    ensures q != [] ==> Parent(q) in Preorder(root)[..j]
  {
    var L := Preorder(root);
    PreorderMembers(root, q);
    PreorderNoDup(root);
    PreorderParentsFirst(root);
    j :| 0 <= j < |L| && L[j] == q;
    if j > 0 {
      assert L[j] != [];
    } else {
      assert L[0] == [];
    }
  }
}
