/** The JavaScript values that the composables read from records and forms,
    with the coercions the source applies to them: truthiness, `||`,
    template-literal interpolation and the optional-chained `?.trim()`. */
module JsValues {
  import opened Strings

  /** A property value: absent (`undefined`), `null`, a boolean or a string.
      Numbers and nested objects never reach the modelled code paths. */
  datatype JsValue = Undefined | Null | Bool(b: bool) | Str(s: string)

  /** A property that holds a string when it is set at all. */
  type JsString = v: JsValue | !v.Bool? witness Undefined

  /** JavaScript truthiness restricted to the values above. */
  predicate Truthy(v: JsValue) {
    match v
    case Bool(b) => b
    case Str(s) => s != []
    case _ => false
  }

  /** A string property is truthy exactly when it is a non-empty string. */
  lemma TruthyString(v: JsString)
    ensures Truthy(v) <==> v.Str? && |v.s| > 0
  {
  }

  /** `a || b`: the first operand when it is truthy, else the second. */
  function Or(a: JsValue, b: JsValue): (r: JsValue)
    ensures Truthy(a) ==> r == a
    ensures !Truthy(a) ==> r == b
  {
    if Truthy(a) then a else b
  }

  /** Template-literal interpolation `${v}`. */
  function Interp(v: JsValue): (r: string)
    ensures v.Str? ==> r == v.s
    ensures v.Undefined? ==> r == "undefined"
    ensures v.Null? ==> r == "null"
  {
    match v
    case Undefined => "undefined"
    case Null => "null"
    case Bool(b) => if b then "true" else "false"
    case Str(s) => s
  }

  /** `v?.trim()` is truthy: `v` is a string with a non-whitespace character. */
  predicate NonBlank(v: JsString)
    ensures NonBlank(v) <==> v.Str? && !IsBlank(v.s)
  {
    if v.Str? then TrimEmptyIffBlank(v.s); Trim(v.s) != [] else false
  }
}
