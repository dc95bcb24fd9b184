/**
 * The JavaScript values a JSON request body can carry in one field, and the two
 * operations the server applies to them before trusting them: truthiness (`!x`)
 * and `parseFloat`.
 */
module JsValues {

  datatype Option<+T> = None | Some(value: T)

  /**
   * One field of a parsed JSON body. A number is a finite value; a JSON literal too
   * large for a double (which parses as an infinity) is not part of this model.
   * `Text` and `Compound` (an array or an object) carry the number
   * that `parseFloat` reads from the front of their string form, or `None` where it
   * reads NaN; the text scanning itself is not part of this model.
   */
  datatype JsValue =
    | Undefined
    | Null
    | Bool(b: bool)
    | Number(n: real)
    | Text(s: string, numericPrefix: Option<real>)
    | Compound(compoundPrefix: Option<real>)

  /** JavaScript truthiness, the negation of `!v`. */
  predicate Truthy(v: JsValue)
    ensures !Truthy(v) <==> v in {Undefined, Null, Bool(false), Number(0.0)} || (v.Text? && v.s == "")
    ensures v.Number? ==> (Truthy(v) <==> v.n != 0.0)
  {
    match v
    case Undefined => false
    case Null => false
    case Bool(b) => b
    case Number(n) => n != 0.0
    case Text(s, _) => s != ""
    case Compound(_) => true
  }

  /**
   * `parseFloat(v)`, with `None` standing for NaN. `undefined`, `null`, `true` and
   * `false` turn into words that start with no number, so they read NaN.
   */
  function ParseFloat(v: JsValue): (r: Option<real>)
    ensures v.Number? ==> r == Some(v.n)
    ensures v in {Undefined, Null, Bool(false), Bool(true)} ==> r == None
    ensures r.Some? ==> v.Number? || v.Text? || v.Compound?
  {
    match v
    case Number(n) => Some(n)
    case Text(_, p) => p
    case Compound(p) => p
    case _ => None
  }
}
