// markuplift/doctype.py: which DOCTYPE a document format supplies and
// whether it insists on one.
module Doctype {
  import opened Wrappers

  datatype DoctypeStrategy = Html5DoctypeStrategy | XmlDoctypeStrategy | NullDoctypeStrategy
  {
    /** `get_default_doctype`. */
    function DefaultDoctype(): (d: Option<string>)
      ensures d.Some? <==> this.Html5DoctypeStrategy?
      ensures d.Some? ==> d.value == "<!DOCTYPE html>"
    {
      if this.Html5DoctypeStrategy? then Some("<!DOCTYPE html>") else None
    }

    /** `should_ensure_doctype`. */
    function ShouldEnsureDoctype(): (b: bool)
      ensures b <==> this.Html5DoctypeStrategy?
    {
      this.Html5DoctypeStrategy?
    }
  }

  /** A strategy insists on a DOCTYPE exactly when it has one to supply. */
  lemma EnsureIffDefault(s: DoctypeStrategy)
    ensures s.ShouldEnsureDoctype() <==> s.DefaultDoctype().Some?
  {
  }
}
