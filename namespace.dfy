// markuplift/namespace.py: Clark-notation names, the namespace declarations
// an element adds to its parent's, `prefix:local` serialised names and the
// ordered `xmlns` attributes.
module Namespace {
  import opened Wrappers
  import opened Types
  import opened Tree

  const XML_NAMESPACE := "http://www.w3.org/XML/1998/namespace"

  /** An `nsmap`: prefix (None for the default namespace) to URI, in dictionary order. */
  type NsMap = seq<(Option<string>, string)>

  /** A dictionary never holds the same key twice. */
  predicate DistinctKeys(m: NsMap)
  {
    forall i, j :: 0 <= i < j < |m| ==> m[i].0 != m[j].0
  }

  /** `m.get(prefix)`. */
  function NsLookup(m: NsMap, prefix: Option<string>): (r: Option<string>)
    ensures r.Some? ==> (prefix, r.value) in m
    ensures r.None? <==> forall i :: 0 <= i < |m| ==> m[i].0 != prefix
  {
    if m == [] then None else if m[0].0 == prefix then Some(m[0].1) else NsLookup(m[1..], prefix)
  }

  /** In a dictionary, looking up a key finds the value stored under it. */
  lemma {:induction false} NsLookupMember(m: NsMap, prefix: Option<string>, uri: string)
    requires DistinctKeys(m) && (prefix, uri) in m
    ensures NsLookup(m, prefix) == Some(uri)
  {
    if m[0] != (prefix, uri) {
      assert m[0].0 != prefix by {
        var k :| 0 <= k < |m| && m[k] == (prefix, uri);
        assert k != 0;
      }
      assert (prefix, uri) in m[1..] by {
        var k :| 0 <= k < |m| && m[k] == (prefix, uri);
        assert m[1..][k - 1] == m[k];
      }
      NsLookupMember(m[1..], prefix, uri);
    }
  }

  // ---------------------------------------------------------------- qnames

  /** `etree.QName(text)` split into its parts. */
  datatype QName = QName(namespace: Option<string>, localname: string)

  /** The argument of `qname_to_str`: a plain string or an `etree.QName`. */
  datatype TagArg = TagStr(s: string) | QNameArg(q: QName)

  /** `qname_to_str`: a string is returned unchanged, a QName as its Clark text `.text`. */
  function QnameToStr(tag: TagArg): (r: string)
    ensures tag.TagStr? ==> r == tag.s
    ensures tag.QNameArg? ==> r == ClarkText(tag.q)
  {
    match tag
    case TagStr(s) => s
    case QNameArg(q) => ClarkText(q)
  }

  /** The Clark text `{uri}local` of a name, or `local` without a namespace. */
  function ClarkText(q: QName): string
  {
    if q.namespace.Some? then "{" + q.namespace.value + "}" + q.localname else q.localname
  }

  /** A QName that lxml can hold: a non-empty local name; a namespace, when present, non-empty and without `}`. */
  predicate WellFormed(q: QName)
  {
    q.localname != [] &&
    (q.namespace.Some? ==> q.namespace.value != [] && '}' !in q.namespace.value) &&
    (q.namespace.None? ==> q.localname[0] != '{')
  }

  function IndexOf(s: string, c: char): (r: Option<nat>)
    ensures r.Some? ==> r.value < |s| && s[r.value] == c && c !in s[..r.value]
    ensures r.None? ==> c !in s
  {
    if s == [] then None
    else if s[0] == c then Some(0)
    else match IndexOf(s[1..], c)
      case None => None
      case Some(i) => assert s[..i + 1] == [s[0]] + s[1..][..i]; Some(i + 1)
  }

  /**
   * `etree.QName(text)`: `{uri}local` splits at the first `}`; an empty URI
   * means no namespace; a missing `}` or an empty local name is a ValueError.
   * (lxml's check that the local name is a valid XML name is not modelled.)
   */
  function ParseQName(s: string): (r: Result<QName, Error>)
    ensures r.Err? ==> r.error.ValueError?
  {
    if s == [] then Err(ValueError("Empty tag name"))
    else if s[0] == '{' then
      match IndexOf(s[1..], '}')
      case None => Err(ValueError("Invalid tag name"))
      case Some(k) =>
        var ns := s[1..][..k];
        var local := s[1..][k + 1..];
        if local == [] then Err(ValueError("Empty tag name"))
        else Ok(QName(if ns == [] then None else Some(ns), local))
    else Ok(QName(None, s))
  }

  lemma {:induction false} IndexOfAfter(a: string, c: char, b: string)
    requires c !in a
    ensures IndexOf(a + [c] + b, c) == Some(|a|)
  {
    if a != [] {
      assert (a + [c] + b)[1..] == a[1..] + [c] + b;
      IndexOfAfter(a[1..], c, b);
    }
  }

  /** Parsing a well-formed name's Clark text gives the name back. */
  lemma ParseClarkText(q: QName)
    requires WellFormed(q)
    ensures ParseQName(ClarkText(q)) == Ok(q)
  {
    var s := ClarkText(q);
    if q.namespace.Some? {
      var ns := q.namespace.value;
      assert s[1..] == ns + "}" + q.localname;
      IndexOfAfter(ns, '}', q.localname);
      assert s[1..][..|ns|] == ns;
      assert s[1..][|ns| + 1..] == q.localname;
    }
  }

  /** `qname_to_str` of a well-formed QName is text that `etree.QName` reads back to it. */
  lemma QnameToStrRoundTrip(q: QName)
    requires WellFormed(q)
    ensures ParseQName(QnameToStr(QNameArg(q))) == Ok(q)
  {
    ParseClarkText(q);
  }

  /**
   * A name that parses has a non-empty local name, and its Clark text is the
   * input, less an empty `{}` in front; when it is the input the name is
   * well formed.
   */
  lemma ParsedClarkText(s: string)
    requires ParseQName(s).Ok?
    ensures var q := ParseQName(s).value;
      q.localname != []
      && (ClarkText(q) == s || (q.namespace.None? && s == "{}" + q.localname))
      && (ClarkText(q) == s ==> WellFormed(q))
  {
    var q := ParseQName(s).value;
    if s[0] == '{' {
      var k := IndexOf(s[1..], '}').value;
      var ns := s[1..][..k];
      assert s == "{" + ns + "}" + s[1..][k + 1..];
    }
  }

  // ------------------------------------------------------------ resolution

  /** The prefix of the first `nsmap` entry whose URI is `uri`. */
  function PrefixFor(m: NsMap, uri: string): (r: Option<Option<string>>)
    ensures r.Some? ==> (r.value, uri) in m
    ensures r.None? ==> forall i :: 0 <= i < |m| ==> m[i].1 != uri
  {
    if m == [] then None else if m[0].1 == uri then Some(m[0].0) else PrefixFor(m[1..], uri)
  }

  /**
   * The resolution shared by `format_tag_name` and `format_attribute_name`:
   * no namespace gives the local name, the XML namespace `xml:local`, and
   * otherwise the first prefix bound to the URI in the element's `nsmap`
   * gives `prefix:local` (the default prefix, or no binding, the local name).
   */
  function Resolve(m: NsMap, q: QName): string
  {
    if q.namespace.None? then q.localname
    else if q.namespace.value == XML_NAMESPACE then "xml:" + q.localname
    else match PrefixFor(m, q.namespace.value)
      case Some(Some(p)) => p + ":" + q.localname
      case _ => q.localname
  }

  /**
   * The written name and the scope agree: a `prefix:local` result names a
   * prefix that the element's scope binds to the name's namespace, and a bare
   * local name is written only for no namespace, the default namespace or a
   * URI the scope does not bind.
   */
  lemma ResolveBindsPrefix(m: NsMap, q: QName)
    requires DistinctKeys(m)
    ensures q.namespace.None? ==> Resolve(m, q) == q.localname
    ensures q.namespace == Some(XML_NAMESPACE) ==> Resolve(m, q) == "xml:" + q.localname
    ensures q.namespace.Some? && q.namespace.value != XML_NAMESPACE ==>
              match PrefixFor(m, q.namespace.value)
              case Some(Some(p)) => Resolve(m, q) == p + ":" + q.localname && NsLookup(m, Some(p)) == q.namespace
              case Some(None) => Resolve(m, q) == q.localname && NsLookup(m, None) == q.namespace
              case None => Resolve(m, q) == q.localname && forall i :: 0 <= i < |m| ==> m[i].1 != q.namespace.value
  {
    if q.namespace.Some? && q.namespace.value != XML_NAMESPACE {
      var r := PrefixFor(m, q.namespace.value);
      if r.Some? {
        NsLookupMember(m, r.value, q.namespace.value);
      }
    }
  }

  /**
   * `format_tag_name`. A comment or PI, whose tag is lxml's factory function
   * rather than a string, gives `str(tag)`, passed in as `nonElementText`
   * since it holds a memory address.
   */
  function FormatTagName(elem: Node, nonElementText: string): (r: Result<string, Error>)
    ensures !elem.Element? ==> r == Ok(nonElementText)
    ensures elem.Element? ==> (r.Ok? <==> ParseQName(elem.tag).Ok?)
  {
    if !elem.Element? then Ok(nonElementText)
    else match ParseQName(elem.tag)
    case Err(e) => Err(e)
    case Ok(q) => Ok(Resolve(elem.nsmap, q))
  }

  /** `format_attribute_name`: the same resolution in the element's scope. */
  function FormatAttributeName(elem: Node, attrName: string): (r: Result<string, Error>)
    requires elem.Element?
    ensures r.Ok? <==> ParseQName(attrName).Ok?
  {
    match ParseQName(attrName)
    case Err(e) => Err(e)
    case Ok(q) => Ok(Resolve(elem.nsmap, q))
  }

  /** Attribute names and tags follow the same rules. */
  lemma TagAndAttributeNamesAgree(elem: Node, nonElementText: string)
    requires elem.Element?
    ensures FormatAttributeName(elem, elem.tag) == FormatTagName(elem, nonElementText)
  {
  }

  // ---------------------------------------------------- new declarations

  /**
   * `elem.nsmap`: an element's in-scope map. lxml collects it over element
   * nodes only, so a comment or PI has the empty map.
   */
  function InScope(root: Node, p: Path): NsMap
    requires Valid(root, p)
  {
    var n := At(root, p);
    if n.Element? then n.nsmap else []
  }

  /** `elem.getparent().nsmap`. */
  function ParentScope(root: Node, p: Path): NsMap
    requires Valid(root, p) && p != []
  {
    ParentStep(root, p);
    InScope(root, Parent(p))
  }

  /** The entries of `m` that `parent` lacks or maps to another URI, in `m`'s order. */
  function NewDecls(m: NsMap, parent: NsMap): (r: NsMap)
    ensures forall x :: x in r <==> x in m && NsLookup(parent, x.0) != Some(x.1)
    ensures DistinctKeys(m) ==> DistinctKeys(r)
  {
    if m == [] then []
    else
      var rest := NewDecls(m[1..], parent);
      assert forall x :: x in m <==> x == m[0] || x in m[1..];
      if NsLookup(parent, m[0].0) != Some(m[0].1) then
        assert DistinctKeys(m) ==> forall x :: x in rest ==> x.0 != m[0].0;
        [m[0]] + rest
      else rest
  }

  /**
   * `get_new_namespace_declarations`: a root declares its whole map; any
   * other node declares the prefixes its parent lacks or binds elsewhere.
   */
  method GetNewNamespaceDeclarations(root: Node, p: Path) returns (decls: NsMap)
    requires Valid(root, p)
    ensures p == [] ==> decls == InScope(root, p)
    ensures p != [] ==> decls == NewDecls(InScope(root, p), ParentScope(root, p))
  {
    var nsmap := InScope(root, p);
    if p == [] {
      return nsmap;
    }
    var parentNsmap := ParentScope(root, p);
    decls := [];
    var i := 0;
    while i < |nsmap|
      invariant 0 <= i <= |nsmap|
      invariant decls + NewDecls(nsmap[i..], parentNsmap) == NewDecls(nsmap, parentNsmap)
    {
      var (prefix, nsUri) := nsmap[i];
      var keep := NsLookup(parentNsmap, prefix).None? || NsLookup(parentNsmap, prefix).value != nsUri;
      NewDeclsStep(decls, nsmap, parentNsmap, i);
      if keep {
        decls := decls + [(prefix, nsUri)];
      }
      i := i + 1;
    }
    assert nsmap[i..] == [];
  }

  /** One step of the declaration loop: entry `i` is kept exactly when `NewDecls` keeps it. */
  lemma NewDeclsStep(decls: NsMap, m: NsMap, parent: NsMap, i: nat)
    requires i < |m|
    ensures decls + NewDecls(m[i..], parent)
            == (decls + (if NsLookup(parent, m[i].0) != Some(m[i].1) then [m[i]] else [])) + NewDecls(m[i + 1..], parent)
  {
    assert m[i..][1..] == m[i + 1..];
    var rest := NewDecls(m[i + 1..], parent);
    if NsLookup(parent, m[i].0) != Some(m[i].1) {
      assert decls + ([m[i]] + rest) == (decls + [m[i]]) + rest;
    }
  }

  /** A child whose map equals its parent's declares nothing. */
  lemma SameScopeDeclaresNothing(m: NsMap)
    requires DistinctKeys(m)
    ensures NewDecls(m, m) == []
  {
    var r := NewDecls(m, m);
    if r != [] {
      NsLookupMember(m, r[0].0, r[0].1);
    }
  }

  /** Whatever a child declares, its scope is then its parent's map overridden by the declarations. */
  lemma DeclarationsComplete(m: NsMap, parent: NsMap, prefix: Option<string>)
    requires DistinctKeys(m) && NsLookup(m, prefix).Some?
    ensures var d := NewDecls(m, parent);
      NsLookup(m, prefix) == (if NsLookup(d, prefix).Some? then NsLookup(d, prefix) else NsLookup(parent, prefix))
  {
    var d := NewDecls(m, parent);
    var uri := NsLookup(m, prefix).value;
    if NsLookup(parent, prefix) != Some(uri) {
      assert (prefix, uri) in d;
      NsLookupMember(d, prefix, uri);
    } else if NsLookup(d, prefix).Some? {
      var v := NsLookup(d, prefix).value;
      assert (prefix, v) in m;
      NsLookupMember(m, prefix, v);
    }
  }

  // ---------------------------------------------------- xmlns attributes

  /** Python's `<=` on strings: code-point lexicographic order. */
  predicate StrLe(a: string, b: string)
  {
    a == [] || (b != [] && (a[0] < b[0] || (a[0] == b[0] && StrLe(a[1..], b[1..]))))
  }

  lemma {:induction false} StrLeTotal(a: string, b: string)
    ensures StrLe(a, b) || StrLe(b, a)
  {
    if a != [] && b != [] && a[0] == b[0] {
      StrLeTotal(a[1..], b[1..]);
    }
  }

  lemma {:induction false} StrLeAntisymmetric(a: string, b: string)
    requires StrLe(a, b) && StrLe(b, a)
    ensures a == b
  {
    if a != [] && b != [] {
      StrLeAntisymmetric(a[1..], b[1..]);
      assert a == [a[0]] + a[1..] && b == [b[0]] + b[1..];
    }
  }

  /** The sort key `(prefix is not None, prefix or '')`: the default namespace first, then by prefix. */
  predicate KeyLe(a: Option<string>, b: Option<string>)
  {
    a.None? || (b.Some? && StrLe(a.value, b.value))
  }

  lemma KeyLeTotal(a: Option<string>, b: Option<string>)
    ensures KeyLe(a, b) || KeyLe(b, a)
  {
    if a.Some? && b.Some? {
      StrLeTotal(a.value, b.value);
    }
  }

  predicate SortedByKey(s: NsMap)
  {
    forall i :: 0 < i < |s| ==> KeyLe(s[i - 1].0, s[i].0)
  }

  function Insert(x: (Option<string>, string), s: NsMap): (r: NsMap)
    ensures multiset(r) == multiset(s) + multiset{x}
    ensures forall y :: y in r <==> y == x || y in s
    ensures |r| == |s| + 1 && (r[0] == x || (s != [] && r[0] == s[0]))
  {
    if s == [] || KeyLe(x.0, s[0].0) then [x] + s
    else
      assert s == [s[0]] + s[1..];
      [s[0]] + Insert(x, s[1..])
  }

  lemma {:induction false} InsertSorted(x: (Option<string>, string), s: NsMap)
    requires SortedByKey(s)
    ensures SortedByKey(Insert(x, s))
  {
    if s != [] && !KeyLe(x.0, s[0].0) {
      KeyLeTotal(x.0, s[0].0);
      InsertSorted(x, s[1..]);
    }
  }

  /** `sorted(declarations.items(), key=...)`. */
  function SortDecls(d: NsMap): (r: NsMap)
    ensures multiset(r) == multiset(d) && |r| == |d|
    ensures forall y :: y in r <==> y in d
  {
    if d == [] then []
    else
      assert d == [d[0]] + d[1..];
      Insert(d[0], SortDecls(d[1..]))
  }

  lemma {:induction false} SortDeclsSorted(d: NsMap)
    ensures SortedByKey(SortDecls(d))
  {
    if d != [] {
      SortDeclsSorted(d[1..]);
      InsertSorted(d[0], SortDecls(d[1..]));
    }
  }

  /** One declaration as an attribute: `xmlns="uri"` or `xmlns:p="uri"`. */
  function FormatDecl(decl: (Option<string>, string)): string
  {
    if decl.0.None? then "xmlns=\"" + decl.1 + "\""
    else "xmlns:" + decl.0.value + "=\"" + decl.1 + "\""
  }

  /** `format_xmlns_declarations`: one attribute per declaration, in key order. */
  method FormatXmlnsDeclarations(declarations: NsMap) returns (formatted: seq<string>)
    ensures |formatted| == |declarations|
    ensures forall i :: 0 <= i < |formatted| ==> formatted[i] == FormatDecl(SortDecls(declarations)[i])
  {
    formatted := [];
    var sortedDecls := SortDecls(declarations);
    var i := 0;
    while i < |sortedDecls|
      invariant 0 <= i <= |sortedDecls|
      invariant |formatted| == i
      invariant forall j :: 0 <= j < i ==> formatted[j] == FormatDecl(sortedDecls[j])
    {
      var (prefix, nsUri) := sortedDecls[i];
      var attribute;
      if prefix.None? {
        attribute := "xmlns=\"" + nsUri + "\"";
      } else {
        attribute := "xmlns:" + prefix.value + "=\"" + nsUri + "\"";
      }
      assert attribute == FormatDecl(sortedDecls[i]);
      formatted := formatted + [attribute];
      i := i + 1;
    }
  }

  lemma {:induction false} InsertDistinct(x: (Option<string>, string), s: NsMap)
    requires DistinctKeys(s) && forall y :: y in s ==> y.0 != x.0
    ensures DistinctKeys(Insert(x, s))
  {
    if s != [] && !KeyLe(x.0, s[0].0) {
      InsertDistinct(x, s[1..]);
      var r := Insert(x, s[1..]);
      forall y | y in r ensures y.0 != s[0].0 {
        if y != x {
          var k :| 0 <= k < |s[1..]| && s[1..][k] == y;
          assert s[k + 1] == y;
        }
      }
    }
  }

  /** Sorting a dictionary's items keeps the keys distinct. */
  lemma {:induction false} SortDeclsDistinct(d: NsMap)
    requires DistinctKeys(d)
    ensures DistinctKeys(SortDecls(d))
  {
    if d != [] {
      SortDeclsDistinct(d[1..]);
      forall y | y in SortDecls(d[1..]) ensures y.0 != d[0].0 {
        var k :| 0 <= k < |d[1..]| && d[1..][k] == y;
        assert d[k + 1] == y;
      }
      InsertDistinct(d[0], SortDecls(d[1..]));
    }
  }

  /**
   * The order `format_xmlns_declarations` writes in: every declaration once,
   * the default namespace (if declared) first, the prefixed ones by prefix.
   */
  lemma SortedDeclsOrder(declarations: NsMap)
    requires DistinctKeys(declarations)
    ensures var s := SortDecls(declarations);
      multiset(s) == multiset(declarations)
      && (forall i :: 0 < i < |s| ==> s[i].0.Some? && (s[i - 1].0.Some? ==> StrLe(s[i - 1].0.value, s[i].0.value)))
      && (forall x :: x in declarations && x.0.None? ==> s[0] == x)
  {
    var s := SortDecls(declarations);
    SortDeclsSorted(declarations);
    SortDeclsDistinct(declarations);
    forall i | 0 < i < |s| ensures s[i].0.Some? {
      assert s[i - 1].0 != s[i].0;
      assert KeyLe(s[i - 1].0, s[i].0);
    }
    forall x | x in declarations && x.0.None? ensures s[0] == x {
      var k :| 0 <= k < |s| && s[k] == x;
      assert s[k].0.None?;
    }
  }
}
