// markuplift/utilities.py: whitespace collapsing, "significant text",
// mixed content, siblings and node names.
module Utilities {
  import opened Wrappers
  import opened Text
  import opened Tree

  /** `siblings(node)`: the root alone, otherwise every child of the parent, in order. */
  function Siblings(root: Node, p: Path): (r: seq<Path>)
    requires Valid(root, p)
    ensures p in r
    ensures p == [] ==> r == [[]]
    ensures p != [] ==> Valid(root, Parent(p)) && |r| == |Children(At(root, Parent(p)))|
                        && forall i :: 0 <= i < |r| ==> r[i] == Parent(p) + [i]
    ensures forall s :: s in r ==> Valid(root, s)
  {
    if p == [] then [[]]
    else
      ParentStep(root, p);
      var q := Parent(p);
      var n := |Children(At(root, q))|;
      var r := seq(n, i requires 0 <= i < n => q + [i]);
      assert p == q + [Last(p)] && r[Last(p)] == p;
      assert forall s :: s in r ==> Valid(root, s) by {
        forall s | s in r
          ensures Valid(root, s)
        {
          var i :| 0 <= i < n && r[i] == s;
          ChildStep(root, q, i);
        }
      }
      r
  }

  /** `tagname(node)`: "#comment" for comments, "?" and the target for processing instructions, the tag otherwise. */
  function TagName(n: Node): string
  {
    match n
    case Comment(_, _) => "#comment"
    case PI(target, _, _) => "?" + target
    case Element(tag, _, _, _, _, _) => tag
  }

  /** When no element tag starts with '#' or '?', the first character of the name tells the node kinds apart. */
  lemma TagNameKind(n: Node)
    requires n.Element? ==> n.tag == [] || (n.tag[0] != '#' && n.tag[0] != '?')
    ensures TagName(n) != [] && TagName(n)[0] == '#' <==> n.Comment?
    ensures TagName(n) != [] && TagName(n)[0] == '?' <==> n.PI?
  {
  }

  /** `is_xml_whitespace(text)`: nothing is left after `strip()`. */
  predicate IsXmlWhitespace(text: string)
  {
    Strip(text) == []
  }

  /** `is_significant_text(text)`. */
  predicate IsSignificantText(text: Option<string>)
  {
    text.Some? && !IsXmlWhitespace(text.value)
  }

  /** Text is significant iff it is present and holds a non-whitespace character. */
  lemma SignificantIffNonSpace(text: Option<string>)
    ensures IsSignificantText(text) <==> text.Some? && exists i :: 0 <= i < |text.value| && !IsSpace(text.value[i])
  {
    if text.Some? {
      StripEmptyIffAllSpace(text.value);
    }
  }

  /** The loop of `has_direct_significant_text` over the children's tails, from index `k` on. */
  function AnyTailSignificant(children: seq<Node>, k: nat): (r: bool)
    requires k <= |children|
    ensures r <==> exists i :: k <= i < |children| && IsSignificantText(children[i].tail)
    decreases |children| - k
  {
    if k == |children| then false
    else if IsSignificantText(children[k].tail) then true
    else AnyTailSignificant(children, k + 1)
  }

  /** `has_direct_significant_text(node)`: its own text or a child's tail is significant. */
  predicate HasDirectSignificantText(n: Node)
  {
    IsSignificantText(n.text) || AnyTailSignificant(Children(n), 0)
  }

  /** Only the node's text and its children's tails count; the children's own text does not. */
  lemma DirectSignificantTextIff(n: Node)
    ensures HasDirectSignificantText(n) <==>
      IsSignificantText(n.text) || exists i :: 0 <= i < |Children(n)| && IsSignificantText(Children(n)[i].tail)
  {
  }

  /** `is_in_mixed_content(node)`: the parent has direct significant text; false for the root. */
  predicate IsInMixedContent(root: Node, p: Path)
    requires Valid(root, p)
  {
    p != [] && (ParentStep(root, p); HasDirectSignificantText(At(root, Parent(p))))
  }

  /** Length of the leading run of characters whose whitespace-ness is `space`. */
  function RunLength(s: string, space: bool): (n: nat)
    ensures n <= |s|
    ensures forall i :: 0 <= i < n ==> IsSpace(s[i]) == space
    ensures n == |s| || IsSpace(s[n]) != space
  {
    if s == [] || IsSpace(s[0]) != space then 0 else 1 + RunLength(s[1..], space)
  }

  /** `split_whitespace(s)`: the groups of `groupby(s, str.isspace)`, a whitespace group becoming one space. */
  function SplitWhitespace(s: string): seq<string>
    decreases |s|
  {
    if s == [] then []
    else
      var space := IsSpace(s[0]);
      var n := RunLength(s, space);
      [if space then " " else s[..n]] + SplitWhitespace(s[n..])
  }

  /** `normalize_ws(s)`. */
  function NormalizeWs(s: string): string
  {
    Join(SplitWhitespace(s))
  }

  /**
   * Reference definition of whitespace collapsing, one character at a time:
   * a whitespace character becomes a space when it ends its run and vanishes otherwise.
   */
  function Collapse(s: string): (r: string)
    ensures s == [] <==> r == []
    ensures s != [] ==> (IsSpace(r[0]) <==> IsSpace(s[0]))
  {
    if s == [] then []
    else if IsSpace(s[0]) then (if |s| > 1 && IsSpace(s[1]) then [] else " ") + Collapse(s[1..])
    else [s[0]] + Collapse(s[1..])
  }

  lemma {:induction false} CollapseSpaceRun(s: string, n: nat)
    requires 1 <= n <= |s|
    requires forall i :: 0 <= i < n ==> IsSpace(s[i])
    requires n == |s| || !IsSpace(s[n])
    ensures Collapse(s) == " " + Collapse(s[n..])
  {
    if n > 1 {
      CollapseSpaceRun(s[1..], n - 1);
      assert s[1..][n - 1..] == s[n..];
    }
  }

  lemma {:induction false} CollapseWordRun(s: string, n: nat)
    requires n <= |s|
    requires forall i :: 0 <= i < n ==> !IsSpace(s[i])
    ensures Collapse(s) == s[..n] + Collapse(s[n..])
  {
    if n > 0 {
      CollapseWordRun(s[1..], n - 1);
      assert s[1..][n - 1..] == s[n..];
      var word, c := s[1..][..n - 1], Collapse(s[n..]);
      assert Collapse(s) == [s[0]] + (word + c);
      assert s[..n] == [s[0]] + word;
      assert [s[0]] + (word + c) == ([s[0]] + word) + c;
    }
  }

  /** `normalize_ws` agrees with the character-by-character reference on every string. */
  lemma {:induction false} NormalizeWsIsCollapse(s: string)
    ensures NormalizeWs(s) == Collapse(s)
    decreases |s|
  {
    if s != [] {
      var space := IsSpace(s[0]);
      var n := RunLength(s, space);
      NormalizeWsIsCollapse(s[n..]);
      if space {
        CollapseSpaceRun(s, n);
      } else {
        CollapseWordRun(s, n);
      }
    }
  }

  predicate NoDoubleSpace(s: string)
  {
    forall i :: 0 <= i < |s| - 1 ==> !(IsSpace(s[i]) && IsSpace(s[i + 1]))
  }

  predicate SpacesAreBlanks(s: string)
  {
    forall i :: 0 <= i < |s| ==> IsSpace(s[i]) ==> s[i] == ' '
  }

  lemma {:induction false} CollapseShape(s: string)
    ensures NoDoubleSpace(Collapse(s)) && SpacesAreBlanks(Collapse(s))
  {
    if s != [] {
      CollapseShape(s[1..]);
    }
  }

  lemma {:induction false} CollapseFixpoint(t: string)
    requires NoDoubleSpace(t) && SpacesAreBlanks(t)
    ensures Collapse(t) == t
  {
    if t != [] {
      CollapseFixpoint(t[1..]);
      assert t == [t[0]] + t[1..];
    }
  }

  lemma {:induction false} CollapseKeepsNonSpace(s: string)
    ensures RemoveSpaces(Collapse(s)) == RemoveSpaces(s)
  {
    if s != [] {
      CollapseKeepsNonSpace(s[1..]);
      var head := if IsSpace(s[0]) then (if |s| > 1 && IsSpace(s[1]) then [] else " ") else [s[0]];
      RemoveSpacesAppend(head, Collapse(s[1..]));
      if IsSpace(s[0]) && !(|s| > 1 && IsSpace(s[1])) {
        assert RemoveSpaces(head) == RemoveSpaces(" ");
      }
    }
  }

  lemma {:induction false} CollapseLast(s: string)
    requires s != []
    ensures IsSpace(Collapse(s)[|Collapse(s)| - 1]) <==> IsSpace(s[|s| - 1])
  {
    if |s| > 1 {
      CollapseLast(s[1..]);
    }
  }

  /** The output of `normalize_ws` never holds two whitespace characters in a row, and its only whitespace is ' '. */
  lemma NormalizeWsShape(s: string)
    ensures NoDoubleSpace(NormalizeWs(s)) && SpacesAreBlanks(NormalizeWs(s))
  {
    NormalizeWsIsCollapse(s);
    CollapseShape(s);
  }

  /** `normalize_ws` is idempotent. */
  lemma NormalizeWsIdempotent(s: string)
    ensures NormalizeWs(NormalizeWs(s)) == NormalizeWs(s)
  {
    NormalizeWsShape(s);
    NormalizeWsIsCollapse(NormalizeWs(s));
    CollapseFixpoint(NormalizeWs(s));
  }

  /** Non-whitespace characters are kept, in order, and nothing else appears. */
  lemma NormalizeWsKeepsNonSpace(s: string)
    ensures RemoveSpaces(NormalizeWs(s)) == RemoveSpaces(s)
  {
    NormalizeWsIsCollapse(s);
    CollapseKeepsNonSpace(s);
  }

  /** The ends are not stripped: leading and trailing whitespace each survive as one space. */
  lemma NormalizeWsKeepsEnds(s: string)
    requires s != []
    ensures NormalizeWs(s) != []
    ensures IsSpace(s[0]) <==> NormalizeWs(s)[0] == ' '
    ensures IsSpace(s[|s| - 1]) <==> NormalizeWs(s)[|NormalizeWs(s)| - 1] == ' '
  {
    NormalizeWsIsCollapse(s);
    CollapseShape(s);
    CollapseLast(s);
  }
}
