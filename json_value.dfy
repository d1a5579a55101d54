/**
 * The JavaScript values a save record is made of, as `JSON.parse` builds
 * them, with the few operations the storage layer applies to them: truth
 * tests, `typeof`, reading a field, object spread, `String(v)`, `+ 1`
 * and `JSON.stringify`.  Numbers are integers here.  An object is the
 * map from its member names to their values together with the names in
 * insertion order, the order in which JavaScript lists them.
 */
module JsonValue {
  import opened Wrappers
  import JsText

  datatype Json =
    | JNull
    | JBool(b: bool)
    | JNum(n: int)
    | JStr(s: string)
    | JArr(items: seq<Json>)
    | JObj(keys: seq<string>, fields: map<string, Json>)

  /** JavaScript truthiness (`if (v)`, `!v`, `v || d`) */
  predicate Truthy(v: Json) {
    match v
    case JNull => false
    case JBool(b) => b
    case JNum(n) => n != 0
    case JStr(s) => s != ""
    case _ => true
  }

  /** A field that may be `undefined` (None) is truthy when it is present and truthy. */
  predicate TruthyField(o: Option<Json>) {
    o.Some? && Truthy(o.value)
  }

  /** `typeof v === 'object'`, which holds for `null` and arrays as well as objects */
  predicate IsObjectType(v: Json) {
    v.JNull? || v.JArr? || v.JObj?
  }

  /**
   * `v[k]`, which for the field names of a save record is `undefined`
   * on anything but an object; and since JSON holds no `undefined`
   * values, `k in v` is `Get(v, k).Some?`.
   */
  function Get(v: Json, k: string): Option<Json> {
    if v.JObj? && k in v.fields then Some(v.fields[k]) else None
  }

  /** `v || d` for a field `v` that may be `undefined` */
  function Or(o: Option<Json>, d: Json): (r: Json)
    ensures TruthyField(o) ==> r == o.value
    ensures !TruthyField(o) ==> r == d
  {
    if o.Some? && Truthy(o.value) then o.value else d
  }

  /**
   * `{...o, k: x}` for an object `o`: a member already named `k` takes
   * the new value where it stands, otherwise the member is appended.
   */
  function PutField(o: Json, k: string, x: Json): (r: Json)
    requires o.JObj?
    ensures r.JObj?
    ensures Get(r, k) == Some(x)
    ensures forall k' :: k' != k ==> Get(r, k') == Get(o, k')
  {
    JObj(if k in o.fields then o.keys else o.keys + [k], o.fields[k := x])
  }

  // ------------------------------------------------------------- as text

  /** `parts.join(sep)` */
  function Join(parts: seq<string>, sep: string): string {
    if parts == [] then ""
    else if |parts| == 1 then parts[0]
    else parts[0] + sep + Join(parts[1..], sep)
  }

  /**
   * `String(v)`, also what a template literal and `+` with a string
   * make of `v`: arrays join their elements with commas, writing `null`
   * as nothing, and every object reads `[object Object]`.
   */
  function ToJsString(v: Json): string
    decreases v
  {
    match v
    case JNull => "null"
    case JBool(b) => if b then "true" else "false"
    case JNum(n) => JsText.NumText(n)
    case JStr(s) => s
    case JArr(items) =>
      Join(seq(|items|, i requires 0 <= i < |items| => if items[i].JNull? then "" else ToJsString(items[i])), ",")
    case JObj(_, _) => "[object Object]"
  }

  /**
   * What the subtraction `a - b` makes of an operand (`Number(v)`):
   * `null` is 0, booleans 1 and 0, and text (arrays and objects through
   * `String(v)`) reads as a number when it is a signed decimal integer,
   * and is `None` otherwise: both for text JavaScript reads as another
   * number (`1.5`, `1e3`, `0x10`, `Infinity`) and for text it reads as
   * `NaN`.
   */
  function ToNumber(v: Json): (r: Option<int>)
    ensures v.JNum? ==> r == Some(v.n)
    ensures v.JBool? ==> r == Some(if v.b then 1 else 0)
  {
    match v
    case JNull => Some(0)
    case JBool(b) => Some(if b then 1 else 0)
    case JNum(n) => Some(n)
    case JStr(s) => JsText.StringNumber(s)
    case _ => JsText.StringNumber(ToJsString(v))
  }

  /** A number written as text converts back to that number. */
  lemma NumberOfNumText(n: int)
    ensures ToNumber(JStr(JsText.NumText(n))) == Some(n)
  {
    JsText.NumTextNumber(n);
  }

  /**
   * `v + 1`: numbers and booleans add, anything that turns into text
   * (a string, an array, an object) has `"1"` appended.
   */
  function PlusOne(v: Json): (r: Json)
    ensures v.JNum? ==> r == JNum(v.n + 1)
    ensures v.JStr? ==> r == JStr(v.s + "1")
  {
    match v
    case JNull => JNum(1)
    case JBool(b) => JNum(if b then 2 else 1)
    case JNum(n) => JNum(n + 1)
    case JStr(s) => JStr(s + "1")
    case _ => JStr(ToJsString(v) + "1")
  }

  function HexDigit(d: nat): char
    requires d < 16
  {
    "0123456789abcdef"[d]
  }

  /** How `JSON.stringify` writes one character inside a string literal */
  function EscapeChar(c: char): (r: string)
    ensures |r| >= 1
    ensures c != '"' && c != '\\' && c >= ' ' ==> r == [c]
  {
    if c == '"' then "\\\""
    else if c == '\\' then "\\\\"
    else if c == '\U{8}' then "\\b"
    else if c == '\U{C}' then "\\f"
    else if c == '\n' then "\\n"
    else if c == '\r' then "\\r"
    else if c == '\t' then "\\t"
    else if c < ' ' then "\\u00" + [HexDigit(c as int / 16), HexDigit(c as int % 16)]
    else [c]
  }

  function Escape(s: string): string {
    if s == [] then "" else EscapeChar(s[0]) + Escape(s[1..])
  }

  /** A string literal in JSON */
  function Quote(s: string): (r: string)
    ensures |r| >= 2 && r[0] == '"' && r[|r| - 1] == '"'
  {
    "\"" + Escape(s) + "\""
  }

  /**
   * `JSON.stringify(v)`: no white space, members in order, integers
   * as `String(n)` writes them.
   */
  function Stringify(v: Json): (r: string)
    ensures r != []
    ensures v.JObj? ==> r[0] == '{'
    ensures v.JArr? ==> r[0] == '['
    decreases v
  {
    match v
    case JNull => "null"
    case JBool(b) => if b then "true" else "false"
    case JNum(n) => JsText.NumText(n)
    case JStr(s) => Quote(s)
    case JArr(items) =>
      "[" + Join(seq(|items|, i requires 0 <= i < |items| => Stringify(items[i])), ",") + "]"
    case JObj(ks, fs) =>
      "{" + Join(seq(|ks|, i requires 0 <= i < |ks| =>
        Quote(ks[i]) + ":" + if ks[i] in fs then Stringify(fs[ks[i]]) else "null"), ",") + "}"
  }

  /** Escaping changes nothing in text without quotes, backslashes or control characters. */
  lemma {:induction false} EscapePlain(s: string)
    requires forall i :: 0 <= i < |s| ==> s[i] != '"' && s[i] != '\\' && s[i] >= ' '
    ensures Escape(s) == s
  {
    if s != [] {
      EscapePlain(s[1..]);
      assert s == [s[0]] + s[1..];
    }
  }
}
