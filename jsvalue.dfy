/**
 * JavaScript values as the schema renderer sees them: what JSON5 parsing
 * yields (numbers restricted to integers), plus function values, which a
 * programmatically built schema can put into `props` and which plain-object
 * lookups reach through `Object.prototype`. The coercions below are the
 * language's own: truthiness, `??`, `||`, `String(x)`, property access with
 * optional chaining and `Object.entries`.
 */
module JsValues {
  import opened Text

  datatype JsValue =
    | Undefined
    | Null
    | Bool(flag: bool)
    | Int(num: int)
    | Str(text: string)
    | Arr(items: seq<JsValue>)
    | Obj(fields: map<string, JsValue>)
    | Func(name: string)

  /** `Boolean(v)`. */
  predicate Truthy(v: JsValue) {
    match v
    case Undefined => false
    case Null => false
    case Bool(b) => b
    case Int(n) => n != 0
    case Str(s) => s != ""
    case _ => true
  }

  /** `v === undefined || v === null`, the values `??` and `?.` skip. */
  predicate Nullish(v: JsValue) {
    v == Undefined || v == Null
  }

  /** `a ?? b`. */
  function Coalesce(a: JsValue, b: JsValue): JsValue {
    if Nullish(a) then b else a
  }

  /** `a || b`. */
  function Or(a: JsValue, b: JsValue): JsValue {
    if Truthy(a) then a else b
  }

  /** A defaulted parameter `p = d`: the default replaces `undefined` only, not `null`. */
  function DefaultParam(v: JsValue, d: JsValue): JsValue {
    if v == Undefined then d else v
  }

  /** `typeof v === 'object'`, which holds of `null` as well. */
  predicate IsObjectTyped(v: JsValue) {
    v.Null? || v.Arr? || v.Obj?
  }

  /**
   * `String(v)`. An array joins its elements' strings with commas, printing
   * `null` and `undefined` elements as nothing; a plain object prints as
   * `[object Object]`; a function prints as a native function does.
   */
  function Stringify(v: JsValue): string
    decreases v, 1
  {
    match v
    case Undefined => "undefined"
    case Null => "null"
    case Bool(b) => if b then "true" else "false"
    case Int(n) => IntToString(n)
    case Str(s) => s
    case Arr(items) => Join(seq(|items|, k requires 0 <= k < |items| => ElementString(items[k])), ",")
    case Obj(_) => "[object Object]"
    case Func(name) => "function " + name + "() { [native code] }"
  }

  /** How `Array.prototype.join` prints one element. */
  function ElementString(v: JsValue): string
    decreases v, 2
  {
    if Nullish(v) then "" else Stringify(v)
  }

  /** The properties every plain object inherits from `Object.prototype`. */
  const ObjectPrototypeMembers: set<string> :=
    {"constructor", "hasOwnProperty", "isPrototypeOf", "propertyIsEnumerable", "toLocaleString",
     "toString", "valueOf", "__proto__", "__defineGetter__", "__defineSetter__",
     "__lookupGetter__", "__lookupSetter__"}

  /**
   * `record[key]` on a plain object: an own property first, then what the
   * object inherits (`__proto__` reads the prototype object, the other
   * inherited members are functions), else `undefined`.
   */
  function Lookup(record: map<string, JsValue>, key: string): (r: JsValue)
    ensures key in record ==> r == record[key]
    ensures key !in record && key !in ObjectPrototypeMembers ==> r == Undefined
  {
    if key in record then record[key]
    else if key == "__proto__" then Obj(map[])
    else if key in ObjectPrototypeMembers then Func(key)
    else Undefined
  }

  /**
   * `v?.key` for the fixed property names the core reads (none of which is
   * an index or a member of `Array.prototype`): `undefined` and `null` give
   * `undefined`; strings and arrays have a `length`.
   */
  function Get(v: JsValue, key: string): JsValue {
    match v
    case Obj(f) => Lookup(f, key)
    case Arr(items) => if key == "length" then Int(|items|) else Undefined
    case Str(s) => if key == "length" then Int(|s|) else Undefined
    case _ => Undefined
  }

  lemma NatToStringInjectiveAll()
    ensures forall m: nat, n: nat :: NatToString(m) == NatToString(n) ==> m == n
  {
    forall m: nat, n: nat | NatToString(m) == NatToString(n) ensures m == n {
      NatToStringInjective(m, n);
    }
  }

  /**
   * The own enumerable entries `Object.entries(v)` lists, as a map: an
   * object's fields, an array's elements under their decimal indices.
   */
  function Entries(v: JsValue): map<string, JsValue> {
    match v
    case Obj(f) => f
    case Arr(items) => IndexEntries(items)
    case _ => map[]
  }

  /** An array's elements keyed by their decimal indices. */
  function IndexEntries(items: seq<JsValue>): (m: map<string, JsValue>)
    ensures forall k :: 0 <= k < |items| ==> NatToString(k) in m && m[NatToString(k)] == items[k]
    ensures forall key :: key in m ==> exists k :: 0 <= k < |items| && key == NatToString(k)
  {
    if |items| == 0 then map[]
    else
      var n := |items| - 1;
      var front := IndexEntries(items[..n]);
      NatToStringInjectiveAll();
      front[NatToString(n) := items[n]]
  }
}
