/** JavaScript values produced by coercion and by accessors, and the errors thrown. */
module Values {

  /** The values a configuration accessor can yield. */
  datatype Value =
    | Undefined
    | Null
    | Str(s: string)
    | Integer(n: int)           // a Number produced by parseInt
    | Floating(literal: string) // the Number parseFloat reads from `literal`; left uninterpreted
    | Bool(b: bool)
    | List(items: seq<Value>)

  /** Every exception the core raises. */
  datatype Error =
    | InvalidInteger(raw: string)  // coerce, int branch
    | InvalidFloat(raw: string)    // coerce, float branch
    | NotDefined(name: string)     // validate, mandatory variable absent
    | UndefinedWordStart           // getAttrName: `word[0]` of an empty word is undefined
    | CannotRedefine(attr: string) // Object.defineProperty over a non-configurable property
    | CannotStub(name: string)     // stub of a name with no own property

  /** The errors a coercion throws: a value that is not a number of the declared kind. */
  predicate CoercionError(e: Error)
  {
    e.InvalidInteger? || e.InvalidFloat?
  }

  /**
   * A parameter declared `= null`: an omitted argument, or one passed as
   * `undefined`, becomes null; every other value is kept.
   */
  function DefaultToNull(v: Value): (r: Value)
    ensures r != Undefined
    ensures v != Undefined ==> r == v
    ensures v == Undefined ==> r == Null
  {
    if v == Undefined then Null else v
  }
}
