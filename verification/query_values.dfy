/** The request query as Express hands it over (the `qs` parser): every
    value is a string, an array or a nested object, and an object keeps its
    keys in insertion order. Two conversions of such values matter to the
    list-query middleware: `String(v)`, which `parseInt` applies first, and
    `JSON.stringify(v)`, whose text the operator rewrite works on. */
module QueryValues {
  import opened Wrappers
  import Text

  datatype QValue =
    | Str(s: string)
    | Arr(items: seq<QValue>)
    | Obj(entries: seq<Entry>)

  datatype Entry = Entry(key: string, value: QValue)

  /** `obj[k]`: the value under key `k`, or `None` for `undefined`. */
  function Lookup(es: seq<Entry>, k: string): (r: Option<QValue>)
    ensures r.Some? <==> exists i :: 0 <= i < |es| && es[i].key == k
    ensures r.Some? ==> Entry(k, r.value) in es
  {
    if es == [] then None
    else if es[0].key == k then Some(es[0].value)
    else Lookup(es[1..], k)
  }

  // ---------------------------------------------------------------------
  // String(v)

  /** `String(v)`: a string is itself, an array is its elements converted
      and joined with commas, and any other object prints as
      `[object Object]`. */
  function ToString(v: QValue): string
    decreases v
  {
    match v
    case Str(s) => s
    case Arr(items) => JoinStrings(items)
    case Obj(_) => "[object Object]"
  }

  function JoinStrings(items: seq<QValue>): string
    decreases items
  {
    if items == [] then ""
    else if |items| == 1 then ToString(items[0])
    else ToString(items[0]) + "," + JoinStrings(items[1..])
  }

  /** `String(x)` of a possibly missing query parameter. */
  function ParamText(v: Option<QValue>): string {
    match v
    case None => "undefined"
    case Some(x) => ToString(x)
  }

  lemma {:induction false} JoinStringsIsJoin(items: seq<QValue>)
    ensures JoinStrings(items) == Text.Join(StringsOf(items), ",")
    decreases |items|
  {
    if |items| > 1 {
      JoinStringsIsJoin(items[1..]);
      assert StringsOf(items)[1..] == StringsOf(items[1..]);
    }
  }

  function StringsOf(items: seq<QValue>): (r: seq<string>)
    ensures |r| == |items|
    ensures forall i :: 0 <= i < |items| ==> r[i] == ToString(items[i])
  {
    if items == [] then [] else [ToString(items[0])] + StringsOf(items[1..])
  }

  // ---------------------------------------------------------------------
  // JSON.stringify(v)

  /** A control character: JSON.stringify writes it as an escape. */
  predicate IsControl(c: char) {
    c < ' '
  }

  const HexDigits: string := "0123456789abcdef"

  /** QuoteJSONString of ECMA-262 for one character: the two characters
      that need a backslash, the five short escapes, `\u00xx` with lower-case
      hex for the other control characters, and every other character as
      it is. */
  function EscapeChar(c: char): (r: string)
    ensures |r| >= 1
    ensures !IsControl(c) && c != '"' && c != '\\' ==> r == [c]
    ensures !IsControl(c) ==> r == [c] || r == ['\\', c]
  {
    if c == '"' then "\\\""
    else if c == '\\' then "\\\\"
    else if c as int == 8 then "\\b"
    else if c == '\t' then "\\t"
    else if c == '\n' then "\\n"
    else if c as int == 12 then "\\f"
    else if c == '\r' then "\\r"
    else if IsControl(c) then
      "\\u00" + [HexDigits[c as int / 16], HexDigits[c as int % 16]]
    else [c]
  }

  function Escape(s: string): (r: string)
    ensures |r| >= |s|
  {
    if s == [] then "" else EscapeChar(s[0]) + Escape(s[1..])
  }

  /** A JSON string literal. */
  function Quote(s: string): string {
    "\"" + Escape(s) + "\""
  }

  /** `JSON.stringify(v)` without indentation. */
  function Serialize(v: QValue): string
    decreases v
  {
    match v
    case Str(s) => Quote(s)
    case Arr(items) => "[" + SerializeItems(items) + "]"
    case Obj(es) => "{" + SerializeMembers(es) + "}"
  }

  function SerializeItems(items: seq<QValue>): string
    decreases items
  {
    if items == [] then ""
    else if |items| == 1 then Serialize(items[0])
    else Serialize(items[0]) + "," + SerializeItems(items[1..])
  }

  function SerializeMember(e: Entry): string
    decreases e
  {
    Quote(e.key) + ":" + Serialize(e.value)
  }

  function SerializeMembers(es: seq<Entry>): string
    decreases es
  {
    if es == [] then ""
    else if |es| == 1 then SerializeMember(es[0])
    else SerializeMember(es[0]) + "," + SerializeMembers(es[1..])
  }

  /** Splitting the text after a character by character escape. */
  lemma {:induction false} EscapeConcat(a: string, b: string)
    ensures Escape(a + b) == Escape(a) + Escape(b)
    decreases |a|
  {
    if a == [] {
      assert a + b == b;
    } else {
      assert (a + b)[1..] == a[1..] + b;
      EscapeConcat(a[1..], b);
    }
  }

  /** Text with no quote, backslash or control character: JSON writes it
      as it is. */
  predicate Plain(s: string) {
    forall i :: 0 <= i < |s| ==> !IsControl(s[i]) && s[i] != '"' && s[i] != '\\'
  }

  /** Text without quotes, backslashes or control characters is written as
      it is. */
  lemma {:induction false} EscapePlain(s: string)
    requires Plain(s)
    ensures Escape(s) == s
    decreases |s|
  {
    if s != [] {
      EscapePlain(s[1..]);
      assert [s[0]] + s[1..] == s;
    }
  }
}
