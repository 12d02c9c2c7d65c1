/** The error-raising helpers of the shared package, `assert` and `must`,
    and the option, result and sequence helpers the model shares.
    A thrown `Error` is modelled as a failure value carrying its message. */
module Helper {

  /** A value that may be absent (JavaScript `null` or `undefined`). */
  datatype Option<T> = None | Some(value: T)

  /** Success or a thrown error with its message. */
  datatype Outcome = Pass | Fail(message: string)

  /** A value, or a thrown error with its message. */
  datatype Result<T> = Ok(value: T) | Err(message: string)

  /** The JavaScript values `assert` may be handed, as far as truthiness goes. */
  datatype JsValue = Undefined | Null | Bool(b: bool) | Number(n: int) | Str(s: string) | Object

  /** JavaScript truthiness (NaN is not modelled). */
  predicate Truthy(v: JsValue) {
    match v
    case Undefined => false
    case Null => false
    case Bool(b) => b
    case Number(n) => n != 0
    case Str(s) => s != ""
    case Object => true
  }

  /** The message argument of `assert`: a string or a function producing one. */
  datatype Message = Text(text: string) | Lazy(produce: () -> string)

  const DefaultAssertMessage := "Assertion failed"

  /** The text an error raised with `msg` carries. */
  function MessageText(msg: Message): string {
    match msg
    case Text(s) => s
    case Lazy(f) => f()
  }

  /** `assert(b, msg)`: returns normally exactly when `b` is truthy. */
  function Assert(b: JsValue, msg: Message := Text(DefaultAssertMessage)): (r: Outcome)
    ensures r.Pass? <==> Truthy(b)
    ensures r.Fail? ==> r.message == MessageText(msg)
  {
    if !Truthy(b) then Fail(MessageText(msg)) else Pass
  }

  /** An argument of type `T | undefined | null`. */
  datatype Nullable<T> = Undefined | Null | Defined(value: T)

  /** The text of a template literal `${v}` for the two nullish values. */
  function NullishText<T>(v: Nullable<T>): string
    requires !v.Defined?
  {
    if v.Undefined? then "undefined" else "null"
  }

  /** `must(v, msg)`: the loose `v == null` test rejects both null and undefined. */
  function Must<T>(v: Nullable<T>, msg: Nullable<string> := Nullable.Undefined): (r: Result<T>)
    ensures r.Ok? <==> v.Defined?
    ensures r.Ok? ==> r.value == v.value
    ensures r.Err? && msg.Defined? ==> r.message == msg.value
    ensures r.Err? && !msg.Defined? ==> r.message == "Unexpected " + NullishText(v) + " value"
  {
    if !v.Defined? then
      Err(if msg.Defined? then msg.value else "Unexpected " + NullishText(v) + " value")
    else
      Ok(v.value)
  }

  /** The set of strings a sequence holds. */
  function Elems(s: seq<string>): set<string> {
    set x | x in s
  }

  /** No string occurs twice in the sequence. */
  predicate NoRepeats(s: seq<string>) {
    forall i, j :: 0 <= i < j < |s| ==> s[i] != s[j]
  }
}
