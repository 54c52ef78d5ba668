/** JSON documents as the JavaScript sources see them after `JSON.parse`,
    and the strings a key-value store holds.

    `Text` is a stored string: either text that `JSON.parse` rejects (`Raw`,
    e.g. the bare version marker `1.0.0`) or the output of `JSON.stringify`
    of a document (`Doc`). A JSON string whose characters are themselves
    serialised JSON (the backup envelope's `data` field) is `JSerial`, which
    is why the two types are mutually recursive. Only `createBackup` builds
    a `JSerial`; every other string, and in particular every string of a
    document read from a file, is a `JStr`. Numbers are integers: the
    sources only store ids, counts and timestamps in them. */
module Json {
  import opened Options

  datatype Json =
    | JNull
    | JBool(b: bool)
    | JNum(n: int)
    | JStr(s: string)
    | JSerial(text: Text)
    | JArr(items: seq<Json>)
    | JObj(fields: map<string, Json>)

  datatype Text = Raw(chars: string) | Doc(doc: Json)

  /** JavaScript truthiness: `null`, `false`, `0` and `''` are falsy. */
  predicate Truthy(j: Json) {
    match j
    case JNull => false
    case JBool(b) => b
    case JNum(n) => n != 0
    case JStr(s) => s != ""
    case JSerial(t) => !(t.Raw? && t.chars == "")
    case JArr(_) => true
    case JObj(_) => true
  }

  /** The property names every plain object inherits from
      `Object.prototype`. Reading one of them on an object literal that does
      not define it gives a function (for `__proto__`, the prototype
      object): a truthy value that is neither an array nor a string. */
  const InheritedKeys: set<string> := {
    "constructor", "hasOwnProperty", "isPrototypeOf", "propertyIsEnumerable",
    "toLocaleString", "toString", "valueOf", "__proto__",
    "__defineGetter__", "__defineSetter__", "__lookupGetter__", "__lookupSetter__"}

  /** `typeof j === 'string'`. */
  predicate IsString(j: Json) {
    j.JStr? || j.JSerial?
  }

  /** `j.hasOwnProperty(k)` for a parsed value. */
  predicate Has(j: Json, k: string) {
    j.JObj? && k in j.fields
  }

  /** `j[k]`, with `None` for `undefined`. */
  function Field(j: Json, k: string): (r: Option<Json>)
    ensures r.Some? <==> Has(j, k)
  {
    if Has(j, k) then Some(j.fields[k]) else None
  }

  /** `j[k] = v` on an object; other values are left as they are. */
  function SetField(j: Json, k: string, v: Json): (r: Json)
    ensures j.JObj? ==> r.JObj? && r.fields == j.fields[k := v]
    ensures !j.JObj? ==> r == j
  {
    if j.JObj? then JObj(j.fields[k := v]) else j
  }

  /** `JSON.parse(t)`: `None` stands for the thrown `SyntaxError`. */
  function Parse(t: Text): (r: Option<Json>)
    ensures r.Some? <==> t.Doc?
  {
    match t
    case Raw(_) => None
    case Doc(j) => Some(j)
  }

  /** `JSON.parse(v)` applied to a parsed value, as the backup restore does
      with the envelope's `data` field: only serialised text is read back. */
  function ParseValue(v: Option<Json>): (r: Option<Json>)
    ensures r.Some? ==> v.Some? && v.value.JSerial? && v.value.text.Doc?
  {
    match v
    case Some(JSerial(t)) => Parse(t)
    case _ => None
  }
}
