/**
 * The values the extension's scripts handle: what `JSON.parse` produces, plus `undefined`
 * for a missing property. Numbers are integers here. Objects keep their fields in order;
 * a property read takes the first field with the key.
 */
module JsValue {
  import opened JsText

  datatype Option<+T> = None | Some(value: T)

  datatype Value =
    | Undefined
    | Null
    | Bool(b: bool)
    | Num(n: int)
    | Str(s: string)
    | Arr(items: seq<Value>)
    | Obj(fields: seq<Field>)

  datatype Field = Field(key: string, val: Value)

  /** JavaScript truthiness. */
  predicate Truthy(v: Value) {
    match v
    case Undefined => false
    case Null => false
    case Bool(b) => b
    case Num(n) => n != 0
    case Str(s) => s != ""
    case Arr(_) => true
    case Obj(_) => true
  }

  /** `null` or `undefined`: reading a property of either throws a TypeError. */
  predicate Nullish(v: Value) {
    v.Undefined? || v.Null?
  }

  lemma TruthyIsNotNullish(v: Value)
    ensures Truthy(v) ==> !Nullish(v)
  {
  }

  /**
   * `v[k]` for the property names the extension reads (none of them is inherited from a
   * prototype): the first field named `k` of an object, `undefined` otherwise.
   */
  function Get(v: Value, k: string): (r: Value)
    ensures !v.Obj? ==> r == Undefined
    ensures r == Undefined || (v decreases to r)
  {
    match v
    case Obj(fields) => FieldValue(v, fields, k, 0)
    case _ => Undefined
  }

  function FieldValue(v: Value, fields: seq<Field>, k: string, i: nat): (r: Value)
    requires v == Obj(fields) && i <= |fields|
    ensures r == Undefined || (v decreases to r)
    decreases |fields| - i
  {
    if i == |fields| then Undefined
    else if fields[i].key == k then fields[i].val
    else FieldValue(v, fields, k, i + 1)
  }

  /** `String(v)`, the conversion a template literal or a DOM setter applies. */
  function ToJsString(v: Value): string
    decreases v, 1
  {
    match v
    case Undefined => "undefined"
    case Null => "null"
    case Bool(b) => if b then "true" else "false"
    case Num(n) => IntToString(n)
    case Str(s) => s
    case Arr(items) => JoinItems(v, 0)
    case Obj(_) => "[object Object]"
  }

  /** `Array.prototype.join(",")`: `null` and `undefined` items print as nothing. */
  function JoinItems(v: Value, i: nat): string
    requires v.Arr? && i <= |v.items|
    decreases v, 0, |v.items| - i
  {
    if i == |v.items| then ""
    else
      var item := v.items[i];
      var text := if Nullish(item) then "" else ToJsString(item);
      if i + 1 == |v.items| then text else text + "," + JoinItems(v, i + 1)
  }

  /**
   * `Object.entries(v)`: `None` where it throws (`null`, `undefined`); the fields of an
   * object in order; index/element pairs of an array or of a string; nothing for a number
   * or a boolean.
   */
  function Entries(v: Value): (r: Option<seq<(string, Value)>>)
    ensures r.None? <==> Nullish(v)
    ensures v.Obj? ==> r.Some? && |r.value| == |v.fields|
  {
    match v
    case Undefined => None
    case Null => None
    case Bool(_) => Some([])
    case Num(_) => Some([])
    case Str(s) => Some(seq(|s|, i requires 0 <= i < |s| => (IntToString(i), Str([s[i]]))))
    case Arr(items) => Some(seq(|items|, i requires 0 <= i < |items| => (IntToString(i), items[i])))
    case Obj(fields) => Some(seq(|fields|, i requires 0 <= i < |fields| => (fields[i].key, fields[i].val)))
  }
}
