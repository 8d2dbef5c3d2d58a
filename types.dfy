// Shared vocabulary: the ElementType enum (markuplift/types.py) and the
// exception kinds raised by the core, each carrying its message.
module Types {

  /** `ElementType` is a plain `Enum` whose values are the strings "block" and "inline". */
  datatype ElementType = BLOCK | INLINE
  {
    function Value(): string
    {
      match this
      case BLOCK => "block"
      case INLINE => "inline"
    }
  }

  datatype Error =
    | PredicateError(msg: string)
    | TypeError(msg: string)
    | RuntimeError(msg: string)
    | ValueError(msg: string)
    | AnnotationConflictError(msg: string)
    | ImportError(msg: string)

  /**
   * A prepared `AttributePredicate` of the document being formatted: the
   * element (by its path of child indices), the attribute name and value.
   */
  type AttributePredicate = (seq<nat>, string, string) -> bool

  /**
   * A `TextContentFormatter` or `AttributeValueFormatter`: the value, the
   * calling formatter's `one_indent` (the only part of the formatter the
   * core's own formatters read) and the level.
   */
  type ValueFormatter = (string, string, int) -> string
}
