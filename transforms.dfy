// The text transforms of markuplift/annotation.py (`transform_text_*`,
// `normalize_ws`, `str.lstrip`, `str.rstrip`) and what applying a list of
// them does. Every transform except the root's blanking only moves
// whitespace: the non-whitespace characters come out as they went in.
module Transforms {
  import opened Text
  import opened Annotation
  import Utilities

  /** `one_indent * physical_level`: Python repetition yields "" for a count of zero or less. */
  function Indent(oneIndent: string, level: int): (r: string)
    ensures AllSpace(oneIndent) ==> AllSpace(r)
  {
    if level <= 0 then "" else Repeat(oneIndent, level)
  }

  /** `transform_text_preceding_block`: trailing whitespace replaced by a newline and the block's indent. */
  function TextPrecedingBlock(text: string, level: int, oneIndent: string): string
  {
    RStrip(text) + "\n" + Indent(oneIndent, level)
  }

  /** `transform_text_following_block`: leading whitespace replaced by a newline and the indent. */
  function TextFollowingBlock(text: string, level: int, oneIndent: string): string
  {
    "\n" + Indent(oneIndent, level) + LStrip(text)
  }

  /** The length of the leading whitespace run, `len(text) - len(text.lstrip())`. */
  function LeadingSpace(text: string): (n: nat)
    ensures n <= |text| && AllSpace(text[..n]) && text[n..] == LStrip(text)
  {
    |text| - |LStrip(text)|
  }

  /** `transform_text_following_block_preceding_inline`: a newline is added when the leading whitespace lacks one. */
  function TextFollowingBlockPrecedingInline(text: string): string
  {
    var n := LeadingSpace(text);
    if n > 0 && '\n' !in text[..n] then "\n" + text else text
  }

  /** Applying one stored transform. */
  function Apply(tr: Transform, s: string): string
  {
    match tr
    case NormalizeWs => Utilities.NormalizeWs(s)
    case LStripWs => LStrip(s)
    case RStripWs => RStrip(s)
    case PrecedingBlock(level, u) => TextPrecedingBlock(s, level, u)
    case FollowingBlock(level, u) => TextFollowingBlock(s, level, u)
    case FollowingBlockPrecedingInline(_) => TextFollowingBlockPrecedingInline(s)
    case Blank => ""
  }

  /** `for transform in transforms: text = transform(text)`. */
  function ApplyAll(ts: seq<Transform>, s: string): string
    decreases |ts|
  {
    if ts == [] then s else ApplyAll(ts[1..], Apply(ts[0], s))
  }

  // ---------------------------------------------------------------- strip facts

  /** Whitespace appended to a string disappears under `rstrip`. */
  lemma {:induction false} RStripSpaceSuffix(a: string, w: string)
    requires AllSpace(w)
    ensures RStrip(a + w) == RStrip(a)
    decreases |w|
  {
    if w != [] {
      var w' := w[..|w| - 1];
      assert (a + w)[..|a + w| - 1] == a + w';
      RStripSpaceSuffix(a, w');
    } else {
      assert a + w == a;
    }
  }

  /** Whitespace prepended to a string disappears under `lstrip`. */
  lemma {:induction false} LStripSpacePrefix(w: string, a: string)
    requires AllSpace(w)
    ensures LStrip(w + a) == LStrip(a)
    decreases |w|
  {
    if w != [] {
      assert (w + a)[1..] == w[1..] + a;
      LStripSpacePrefix(w[1..], a);
    } else {
      assert w + a == a;
    }
  }

  lemma RStripIdempotent(s: string)
    ensures RStrip(RStrip(s)) == RStrip(s)
  {
  }

  lemma LStripIdempotent(s: string)
    ensures LStrip(LStrip(s)) == LStrip(s)
  {
  }

  lemma RStripKeepsNonSpace(s: string)
    ensures RemoveSpaces(RStrip(s)) == RemoveSpaces(s)
  {
    var r := RStrip(s);
    assert s == r + s[|r|..];
    RemoveSpacesAppend(r, s[|r|..]);
    RemoveSpacesOfSpaces(s[|r|..]);
  }

  lemma LStripKeepsNonSpace(s: string)
    ensures RemoveSpaces(LStrip(s)) == RemoveSpaces(s)
  {
    var r := LStrip(s);
    assert s == s[..|s| - |r|] + r;
    RemoveSpacesAppend(s[..|s| - |r|], r);
    RemoveSpacesOfSpaces(s[..|s| - |r|]);
  }

  // ---------------------------------------------------------------- the transforms

  /**
   * With a whitespace indent, the text before a block child ends in exactly
   * one newline and the child's indent, keeps every non-whitespace
   * character, and a second application changes nothing.
   */
  lemma PrecedingBlockProperties(text: string, level: int, oneIndent: string)
    requires AllSpace(oneIndent)
    ensures var r := TextPrecedingBlock(text, level, oneIndent);
      var tail := "\n" + Indent(oneIndent, level);
      |tail| <= |r| && r[|r| - |tail|..] == tail
      && RemoveSpaces(r) == RemoveSpaces(text)
      && TextPrecedingBlock(r, level, oneIndent) == r
  {
    var w := "\n" + Indent(oneIndent, level);
    var r := TextPrecedingBlock(text, level, oneIndent);
    assert r == RStrip(text) + w;
    RStripSpaceSuffix(RStrip(text), w);
    RStripIdempotent(text);
    RemoveSpacesAppend(RStrip(text), w);
    RemoveSpacesOfSpaces(w);
    RStripKeepsNonSpace(text);
    assert RStrip(r) == RStrip(text);
    assert TextPrecedingBlock(r, level, oneIndent) == RStrip(r) + w;
  }

  /**
   * With a whitespace indent, the text after a block starts with exactly one
   * newline and the indent, keeps every non-whitespace character, and a
   * second application changes nothing.
   */
  lemma FollowingBlockProperties(text: string, level: int, oneIndent: string)
    requires AllSpace(oneIndent)
    ensures var r := TextFollowingBlock(text, level, oneIndent);
      var head := "\n" + Indent(oneIndent, level);
      |head| <= |r| && r[..|head|] == head
      && RemoveSpaces(r) == RemoveSpaces(text)
      && TextFollowingBlock(r, level, oneIndent) == r
  {
    var w := "\n" + Indent(oneIndent, level);
    var t := LStrip(text);
    var r := TextFollowingBlock(text, level, oneIndent);
    assert r == w + t;
    assert AllSpace(w);
    LStripSpacePrefix(w, t);
    LStripIdempotent(text);
    assert LStrip(r) == t;
    RemoveSpacesAppend(w, t);
    RemoveSpacesOfSpaces(w);
    LStripKeepsNonSpace(text);
    assert (w + t)[..|w|] == w;
  }

  /**
   * After the preceding-inline transform, leading whitespace (if any)
   * contains a newline; a newline is added only when there was leading
   * whitespace without one; a second application changes nothing.
   */
  lemma FollowingBlockPrecedingInlineProperties(text: string)
    ensures var r := TextFollowingBlockPrecedingInline(text);
      var n := LeadingSpace(text);
      (r != text <==> n > 0 && '\n' !in text[..n])
      && (r != text ==> r == "\n" + text)
      && (LeadingSpace(r) > 0 <==> n > 0)
      && (LeadingSpace(r) > 0 ==> '\n' in r[..LeadingSpace(r)])
      && RemoveSpaces(r) == RemoveSpaces(text)
      && TextFollowingBlockPrecedingInline(r) == r
  {
    var n := LeadingSpace(text);
    var r := TextFollowingBlockPrecedingInline(text);
    if n > 0 && '\n' !in text[..n] {
      LStripSpacePrefix("\n", text);
      assert r == "\n" + text;
      assert LeadingSpace(r) == n + 1;
      assert r[..n + 1][0] == '\n';
      RemoveSpacesAppend("\n", text);
    }
  }

  /** A transform that only moves whitespace: anything but blanking, with a whitespace indent. */
  predicate KeepsContent(tr: Transform)
  {
    match tr
    case Blank => false
    case PrecedingBlock(_, u) => AllSpace(u)
    case FollowingBlock(_, u) => AllSpace(u)
    case _ => true
  }

  /** Such transforms, applied in any number and order, keep the non-whitespace characters in order. */
  lemma {:induction false} ApplyAllKeepsContent(ts: seq<Transform>, s: string)
    requires forall i :: 0 <= i < |ts| ==> KeepsContent(ts[i])
    ensures RemoveSpaces(ApplyAll(ts, s)) == RemoveSpaces(s)
    decreases |ts|
  {
    if ts != [] {
      var s' := Apply(ts[0], s);
      match ts[0] {
        case NormalizeWs => Utilities.NormalizeWsKeepsNonSpace(s);
        case LStripWs => LStripKeepsNonSpace(s);
        case RStripWs => RStripKeepsNonSpace(s);
        case PrecedingBlock(level, u) => PrecedingBlockProperties(s, level, u);
        case FollowingBlock(level, u) => FollowingBlockProperties(s, level, u);
        case FollowingBlockPrecedingInline(_) => FollowingBlockPrecedingInlineProperties(s);
      }
      ApplyAllKeepsContent(ts[1..], s');
    }
  }
}
