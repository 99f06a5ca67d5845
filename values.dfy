/**
 * JavaScript values as the cache library handles them, the errors it throws,
 * and the result types that carry those errors in the model.
 */
module Values {

  datatype Option<+T> = None | Some(value: T)

  /** Which registry list a backend identifier is checked against. */
  datatype Access = ForWrite | ForRead

  /** Why a strict-mode template check rejects an access. */
  datatype SchemaReason =
    | GlobalKeysNotArray
    | KeyNotDeclared
    | PagesNotArray
    | PageNotDeclared

  /** The kinds of error the core throws (their message texts are not modelled). */
  datatype Error =
    | InvalidBackend(id: string, access: Access)  // a backend id outside the applicable list
    | InvalidScope                                 // the scope is not a string
    | Schema(reason: SchemaReason)                 // strict mode: template malformed or access not declared
    | TemplateNotObject                            // strict facade built without a plain-object template
    | ParseError                                   // JSON.parse of a corrupt bucket
    | TypeError                                    // the engine refuses a property access or update
    | RangeError                                   // the call stack is exhausted

  datatype Result<+T> = Ok(value: T) | Err(error: Error)

  /** The outcome of a validation step that returns nothing or throws. */
  datatype Check = Pass | Fail(error: Error)

  /**
   * A JavaScript value. Numbers are integers; a function is represented by the
   * value that calling it with no arguments returns.
   */
  datatype Value =
    | Undefined
    | Null
    | Bool(b: bool)
    | Num(n: int)
    | Str(s: string)
    | Arr(items: seq<Value>)
    | Obj(fields: map<string, Value>)
    | Func(result: Value)

  /** JavaScript truthiness, as used by `if (result)` and `val || defaultValue`. */
  predicate Truthy(v: Value)
    ensures Truthy(v) ==> v != Undefined && v != Null
    ensures v.Arr? || v.Obj? || v.Func? ==> Truthy(v)
  {
    match v
    case Undefined => false
    case Null => false
    case Bool(b) => b
    case Num(n) => n != 0
    case Str(s) => s != ""
    case Arr(_) => true
    case Obj(_) => true
    case Func(_) => true
  }

  /** `getType`: the lower-cased tag of `Object.prototype.toString`. */
  function TypeTag(v: Value): (tag: string)
    ensures tag == "object" <==> v.Obj?
    ensures tag == "array" <==> v.Arr?
  {
    match v
    case Undefined => "undefined"
    case Null => "null"
    case Bool(_) => "boolean"
    case Num(_) => "number"
    case Str(_) => "string"
    case Arr(_) => "array"
    case Obj(_) => "object"
    case Func(_) => "function"
  }

  /** `isSimpleObject`: the tag is "object", which only plain objects carry; arrays, `null` and functions do not. */
  predicate IsSimpleObject(v: Value)
    ensures IsSimpleObject(v) <==> v.Obj?
  {
    TypeTag(v) == "object"
  }
}
