/** The JavaScript values that flow through a form session: what a field's
    `onChange` emits, what `formData` stores, and what a validation or
    conditional rule carries as its `value`. Numbers are integers here. */
module JsValue {
  import opened Wrappers
  import opened JsText

  datatype Value =
    | Undefined
    | Null
    | Bool(b: bool)
    | Num(n: int)
    | Str(s: string)
    | List(items: seq<Value>)
    /** a browser `File` chosen in a file or image field */
    | FileObject(name: string, size: int)
    /** any other object (a location reading, a signature record, ...) */
    | OtherObject

  /** `formData[name]`: a missing key reads as `undefined`. */
  function Lookup(data: map<string, Value>, name: string): (v: Value)
    ensures name !in data ==> v == Undefined
    ensures name in data ==> v == data[name]
  {
    if name in data then data[name] else Undefined
  }

  /** `value === undefined || value === null || value === ''` */
  predicate IsBlank(v: Value) {
    v == Undefined || v == Null || v == Str("")
  }

  /** JavaScript truthiness (NaN does not arise: numbers are integers). */
  predicate Truthy(v: Value) {
    match v
    case Undefined => false
    case Null => false
    case Bool(b) => b
    case Num(n) => n != 0
    case Str(s) => s != ""
    case _ => true
  }

  /** A blank value is falsy; `false` and `0` are falsy without being blank. */
  lemma BlankIsFalsy(v: Value)
    ensures IsBlank(v) ==> !Truthy(v)
  {
  }

  function IsObject(v: Value): bool {
    v.List? || v.FileObject? || v.OtherObject?
  }

  /** `a === b`. Primitives compare by value. Objects compare by reference; the model
      never shares an object between a template's rule and the form data, so two
      objects are never strictly equal here. */
  predicate StrictEquals(a: Value, b: Value) {
    !IsObject(a) && !IsObject(b) && a == b
  }

  /** `arr.includes(x)` (SameValueZero, which equals `===` without NaN). */
  predicate ListIncludes(items: seq<Value>, x: Value) {
    exists i :: 0 <= i < |items| && StrictEquals(items[i], x)
  }

  /** `String(v)`. Arrays join their elements with "," and render null and
      undefined elements as the empty string. */
  function ToJsString(v: Value): string
    decreases v
  {
    match v
    case Undefined => "undefined"
    case Null => "null"
    case Bool(b) => if b then "true" else "false"
    case Num(n) => IntToString(n)
    case Str(s) => s
    case List(items) =>
      Join(seq(|items|, i requires 0 <= i < |items| =>
        if items[i] == Undefined || items[i] == Null then "" else ToJsString(items[i])), ",")
    case FileObject(_, _) => "[object File]"
    case OtherObject => "[object Object]"
  }

  /** `Number(v)`; None stands for NaN. */
  function ToNumber(v: Value): Option<int> {
    match v
    case Undefined => None
    case Null => Some(0)
    case Bool(b) => Some(if b then 1 else 0)
    case Num(n) => Some(n)
    case Str(s) => ParseNumber(s)
    case List(_) => ParseNumber(ToJsString(v))
    case _ => None
  }

  /** `x < v` for a number `x` and an arbitrary `v`: `v` is converted with `Number`, and any
      comparison with NaN is false. */
  predicate NumLess(x: int, v: Value) {
    match ToNumber(v)
    case Some(m) => x < m
    case None => false
  }

  /** `x > v` for a number `x` and an arbitrary `v`. */
  predicate NumGreater(x: int, v: Value) {
    match ToNumber(v)
    case Some(m) => x > m
    case None => false
  }

  /** A number survives the round trip through its text and back. */
  lemma NumberOfString(n: int)
    ensures ToNumber(Str(ToJsString(Num(n)))) == Some(n)
  {
    NumberOfIntToString(n);
  }
}
