// The document tree that lxml builds, as a value: elements, comments and
// processing instructions, each carrying the text that follows it (its tail).
// A node is identified by its path of child indices from the root; the
// document-order walk `root.iter()` is `Preorder(root)`.
module Tree {
  import opened Wrappers

  /** A node's position: the child indices leading to it from the root. */
  type Path = seq<nat>

  datatype Node =
    | Element(tag: string, attrs: seq<(string, string)>, nsmap: seq<(Option<string>, string)>,
              children: seq<Node>, text: Option<string>, tail: Option<string>)
    | Comment(text: Option<string>, tail: Option<string>)
    | PI(target: string, text: Option<string>, tail: Option<string>)

  /** `list(node)`: comments and processing instructions have no children. */
  function Children(n: Node): seq<Node>
  {
    if n.Element? then n.children else []
  }

  function NodeAt(n: Node, p: Path): Option<Node>
    decreases |p|
  {
    if p == [] then Some(n)
    else if p[0] < |Children(n)| then NodeAt(Children(n)[p[0]], p[1..])
    else None
  }

  predicate Valid(root: Node, p: Path)
  {
    NodeAt(root, p).Some?
  }

  function At(root: Node, p: Path): Node
    requires Valid(root, p)
  {
    NodeAt(root, p).value
  }

  /** `getparent()` on paths. */
  function Parent(p: Path): Path
    requires p != []
  {
    p[..|p| - 1]
  }

  function Last(p: Path): nat
    requires p != []
  {
    p[|p| - 1]
  }

  lemma {:induction false} NodeAtAppend(n: Node, a: Path, b: Path)
    ensures NodeAt(n, a + b) == (if NodeAt(n, a).Some? then NodeAt(NodeAt(n, a).value, b) else None)
    decreases |a|
  {
    if a == [] {
      assert a + b == b;
    } else {
      assert (a + b)[0] == a[0];
      assert (a + b)[1..] == a[1..] + b;
      if a[0] < |Children(n)| {
        NodeAtAppend(Children(n)[a[0]], a[1..], b);
      }
    }
  }

  /** A node's path is its parent's path extended by its index among the parent's children. */
  lemma ParentStep(root: Node, p: Path)
    requires p != [] && Valid(root, p)
    ensures Valid(root, Parent(p))
    ensures Last(p) < |Children(At(root, Parent(p)))|
    ensures At(root, p) == Children(At(root, Parent(p)))[Last(p)]
  {
    assert p == Parent(p) + [Last(p)];
    NodeAtAppend(root, Parent(p), [Last(p)]);
  }

  lemma ChildStep(root: Node, p: Path, i: nat)
    requires Valid(root, p) && i < |Children(At(root, p))|
    ensures Valid(root, p + [i]) && At(root, p + [i]) == Children(At(root, p))[i]
    ensures Parent(p + [i]) == p
  {
    NodeAtAppend(root, p, [i]);
  }

  /** The walk of `root.iter()` over the subtree `n`, which sits at `base`. */
  function PreorderFrom(n: Node, base: Path): seq<Path>
    decreases n, 1
  {
    [base] + ChildrenPreorder(n, base, 0)
  }

  /** The walk over the subtrees of `n`'s children from index `k` on. */
  function ChildrenPreorder(n: Node, base: Path, k: nat): seq<Path>
    decreases n, 0, |Children(n)| - k
  {
    if k >= |Children(n)| then []
    else PreorderFrom(n.children[k], base + [k]) + ChildrenPreorder(n, base, k + 1)
  }

  /** `root.iter()`: every node of the tree in document order, the root first. */
  function Preorder(root: Node): (L: seq<Path>)
    ensures |L| >= 1 && L[0] == []
  {
    PreorderFrom(root, [])
  }

  lemma {:induction false} PreorderFromMembers(n: Node, base: Path, q: Path)
    ensures q in PreorderFrom(n, base) <==> |base| <= |q| && q[..|base|] == base && Valid(n, q[|base|..])
    decreases n, 1
  {
    ChildrenPreorderMembers(n, base, 0, q);
    if |base| <= |q| && q[..|base|] == base && q != base {
      assert |q| > |base|;
    }
    if q == base {
      assert q[|base|..] == [];
    }
  }

  lemma {:induction false} ChildrenPreorderMembers(n: Node, base: Path, k: nat, q: Path)
    ensures q in ChildrenPreorder(n, base, k)
        <==> |base| < |q| && q[..|base|] == base && q[|base|] >= k && Valid(n, q[|base|..])
    decreases n, 0, |Children(n)| - k
  {
    var C := Children(n);
    if k < |C| {
      var c := n.children[k];
      PreorderFromMembers(c, base + [k], q);
      ChildrenPreorderMembers(n, base, k + 1, q);
      if |base| < |q| {
        var r := q[|base|..];
        assert r[1..] == q[|base| + 1..];
        assert r[0] == q[|base|];
        if q[..|base|] == base && q[|base|] == k {
          assert q[..|base| + 1] == base + [k];
        }
        if q[..|base| + 1] == base + [k] {
          assert q[..|base|] == q[..|base| + 1][..|base|];
        }
      }
    } else if |base| < |q| {
      var r := q[|base|..];
      assert r[0] == q[|base|];
    }
  }

  /** Every node of the tree occurs in the walk, and nothing else does. */
  lemma PreorderMembers(root: Node, q: Path)
    ensures q in Preorder(root) <==> Valid(root, q)
  {
    PreorderFromMembers(root, [], q);
    assert q[..0] == [] && q[0..] == q;
  }

  predicate NoDup(L: seq<Path>)
  {
    forall i, j :: 0 <= i < j < |L| ==> L[i] != L[j]
  }

  lemma NoDupAppend(a: seq<Path>, b: seq<Path>)
    requires NoDup(a) && NoDup(b)
    requires forall x :: x in a ==> x !in b
    ensures NoDup(a + b)
  {
    forall i, j | 0 <= i < j < |a + b|
      ensures (a + b)[i] != (a + b)[j]
    {
      if i < |a| && j >= |a| {
        assert (a + b)[i] in a;
        assert (a + b)[j] == b[j - |a|];
      }
    }
  }

  lemma {:induction false} PreorderFromNoDup(n: Node, base: Path)
    ensures NoDup(PreorderFrom(n, base))
    decreases n, 1
  {
    var cp := ChildrenPreorder(n, base, 0);
    ChildrenPreorderNoDup(n, base, 0);
    forall x | x in cp
      ensures x != base
    {
      ChildrenPreorderMembers(n, base, 0, x);
    }
    NoDupAppend([base], cp);
  }

  lemma {:induction false} ChildrenPreorderNoDup(n: Node, base: Path, k: nat)
    ensures NoDup(ChildrenPreorder(n, base, k))
    decreases n, 0, |Children(n)| - k
  {
    if k < |Children(n)| {
      var c := n.children[k];
      var chunk := PreorderFrom(c, base + [k]);
      var rest := ChildrenPreorder(n, base, k + 1);
      PreorderFromNoDup(c, base + [k]);
      ChildrenPreorderNoDup(n, base, k + 1);
      forall x | x in chunk
        ensures x !in rest
      {
        PreorderFromMembers(c, base + [k], x);
        ChildrenPreorderMembers(n, base, k + 1, x);
        assert x[..|base| + 1][|base|] == k;
      }
      NoDupAppend(chunk, rest);
    }
  }

  /** `root.iter()` visits no node twice. */
  lemma PreorderNoDup(root: Node)
    ensures NoDup(Preorder(root))
  {
    PreorderFromNoDup(root, []);
  }

  /** Every entry after the first lies strictly below `base` and comes after its parent. */
  predicate WalkShape(L: seq<Path>, base: Path)
  {
    forall j :: 0 < j < |L| ==> |L[j]| > |base| && Parent(L[j]) in L[..j]
  }

  /** Every entry lies strictly below `base`; its parent is `base` or an earlier entry. */
  predicate ChildrenWalkShape(L: seq<Path>, base: Path)
  {
    forall j :: 0 <= j < |L| ==> |L[j]| > |base| && (Parent(L[j]) == base || Parent(L[j]) in L[..j])
  }

  lemma {:induction false} PreorderFromParentsFirst(n: Node, base: Path)
    ensures WalkShape(PreorderFrom(n, base), base)
    decreases n, 1
  {
    var L := PreorderFrom(n, base);
    var cp := ChildrenPreorder(n, base, 0);
    ChildrenPreorderParentsFirst(n, base, 0);
    forall j | 0 < j < |L|
      ensures |L[j]| > |base| && Parent(L[j]) in L[..j]
    {
      assert L[j] == cp[j - 1];
      assert L[..j] == [base] + cp[..j - 1];
    }
  }

  lemma {:induction false} ChildrenPreorderParentsFirst(n: Node, base: Path, k: nat)
    ensures ChildrenWalkShape(ChildrenPreorder(n, base, k), base)
    decreases n, 0, |Children(n)| - k
  {
    if k < |Children(n)| {
      var c := n.children[k];
      var chunk := PreorderFrom(c, base + [k]);
      var rest := ChildrenPreorder(n, base, k + 1);
      var L := chunk + rest;
      assert ChildrenPreorder(n, base, k) == L;
      PreorderFromParentsFirst(c, base + [k]);
      ChildrenPreorderParentsFirst(n, base, k + 1);
      forall j | 0 <= j < |L|
        ensures |L[j]| > |base| && (Parent(L[j]) == base || Parent(L[j]) in L[..j])
      {
        if j == 0 {
          assert L[0] == base + [k];
          assert Parent(base + [k]) == base;
        } else if j < |chunk| {
          assert L[j] == chunk[j];
          assert L[..j] == chunk[..j];
        } else {
          assert L[j] == rest[j - |chunk|];
          assert L[..j] == chunk + rest[..j - |chunk|];
        }
      }
    }
  }

  /** `root.iter()` reaches every node after its parent. */
  lemma PreorderParentsFirst(root: Node)
    ensures forall j :: 0 < j < |Preorder(root)| ==>
      Preorder(root)[j] != [] && Parent(Preorder(root)[j]) in Preorder(root)[..j]
  {
    PreorderFromParentsFirst(root, []);
    assert WalkShape(Preorder(root), []);
  }

  /** `element.get(name)`: the value of the attribute named `name`; comments and PIs have none. */
  function GetAttr(n: Node, name: string): (r: Option<string>)
    ensures r.Some? <==> n.Element? && exists i :: 0 <= i < |n.attrs| && n.attrs[i].0 == name
    ensures r.Some? ==> n.Element? && exists i :: 0 <= i < |n.attrs| && n.attrs[i] == (name, r.value)
  {
    if n.Element? then Lookup(n.attrs, name) else None
  }

  function Lookup(attrs: seq<(string, string)>, name: string): (r: Option<string>)
    ensures r.Some? <==> exists i :: 0 <= i < |attrs| && attrs[i].0 == name
    ensures r.Some? ==> exists i :: 0 <= i < |attrs| && attrs[i] == (name, r.value)
  {
    if attrs == [] then None
    else if attrs[0].0 == name then Some(attrs[0].1)
    else Lookup(attrs[1..], name)
  }

  /** `getnext()`: the following sibling, if any; the formatted root has none. */
  function NextSibling(root: Node, p: Path): (r: Option<Path>)
    requires Valid(root, p)
    ensures r.Some? ==> p != [] && Valid(root, r.value) && r.value != [] && Parent(r.value) == Parent(p)
  {
    if p == [] then None
    else
      ParentStep(root, p);
      if Last(p) + 1 < |Children(At(root, Parent(p)))| then
        ChildStep(root, Parent(p), Last(p) + 1);
        Some(Parent(p) + [Last(p) + 1])
      else None
  }

  /** `next(iter(node), None)`: the first child, if any. */
  function FirstChild(root: Node, p: Path): (r: Option<Path>)
    requires Valid(root, p)
    ensures r.Some? ==> Valid(root, r.value) && r.value != [] && Parent(r.value) == p
  {
    if |Children(At(root, p))| > 0 then
      ChildStep(root, p, 0);
      Some(p + [0])
    else None
  }
}
