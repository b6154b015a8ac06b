/**
 * The JavaScript values the core inspects: request bodies, stored chat
 * messages and decoded stream payloads.
 */
module JsValues {
  import opened Common

  datatype JsValue =
    | Undefined
    | Null
    | Bool(b: bool)
    | Num(n: real)
    | Str(s: string)
    | Arr(items: seq<JsValue>)
    | Obj(fields: map<string, JsValue>)

  /**
   * JavaScript truthiness (`if (v)`, `!v`, `v || d`): every value except
   * `undefined`, `null`, `false`, `0` and `""`.
   */
  function Truthy(v: JsValue): (t: bool)
    ensures !t <==> v in {Undefined, Null, Bool(false), Num(0.0), Str("")}
  {
    match v
    case Undefined => false
    case Null => false
    case Bool(b) => b
    case Num(n) => n != 0.0
    case Str(s) => s != ""
    case Arr(_) => true
    case Obj(_) => true
  }

  /**
   * Property read `v.key`. `None` is the TypeError thrown when `v` is `null`
   * or `undefined`; an object without the key, and any other value, read as
   * `undefined` (the keys the core reads are not inherited by any value).
   */
  function Get(v: JsValue, key: string): (r: Option<JsValue>)
    ensures r.None? <==> v.Undefined? || v.Null?
    ensures v.Obj? && key in v.fields ==> r == Some(v.fields[key])
  {
    match v
    case Undefined => None
    case Null => None
    case Obj(fields) => Some(if key in fields then fields[key] else Undefined)
    case _ => Some(Undefined)
  }

  /** The object `{text}` that the stream payloads carry. */
  function TextObject(t: string): JsValue
  {
    Obj(map["text" := Str(t)])
  }
}
