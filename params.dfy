/** The WADL parameter declaration as the path-segment engine sees it, and the
    runtime values that `evaluate` substitutes. */
module Params {
  import opened Wrappers

  /** The WADL `style` attribute of a `param` element. */
  datatype Style = Template | Matrix | Query | Header

  /** A `param` element: its name, optional style, optional `required`
      attribute and optional `href` reference to a shared definition.
      An absent attribute (Java `null`) is `None`. */
  datatype Param = Param(name: string, style: Option<Style>, required: Option<bool>, href: Option<string>)

  /** A param made from a placeholder alone: it carries only the name. */
  function Implicit(name: string): Param
  {
    Param(name, None, None, None)
  }

  /** A param made from a matrix-parameter name by the string constructor. */
  function MatrixNamed(name: string): Param
  {
    Param(name, Some(Matrix), None, None)
  }

  /** `style == null || style == TEMPLATE`: the styles that bind to placeholders. */
  predicate IsTemplateStyle(p: Param) {
    p.style.None? || p.style == Some(Template)
  }

  /** `isRequired() == Boolean.TRUE`: an absent attribute is not required. */
  predicate IsRequired(p: Param) {
    p.required == Some(true)
  }

  /** A value of the map handed to `evaluate`: a `Boolean`, any other object
      (carried as its `toString()` text), or `null`. */
  datatype Value = BoolV(b: bool) | StrV(s: string) | NullV

  /** `String.valueOf` of a value. */
  function StringOf(v: Value): string
  {
    match v
    case BoolV(b) => if b then "true" else "false"
    case StrV(s) => s
    case NullV => "null"
  }
}
