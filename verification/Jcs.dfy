/** The canonical serialiser of mcp-servers/common/jcs.py, clause for clause. */
module Jcs {
  import opened Wrappers
  import opened Json
  import opened KeyOrder

  datatype JcsError = FloatNotSupported

  // ---------- numbers ----------

  function Digit(d: int): char
    requires 0 <= d < 10
  {
    '0' + d as char
  }

  /** `str(n)` of a natural number. */
  function Decimal(n: nat): (s: string)
    ensures s != [] && '0' <= s[0] <= '9'
  {
    if n < 10 then [Digit(n)] else Decimal(n / 10) + [Digit(n % 10)]
  }

  function RenderInt(n: int): string {
    if n < 0 then "-" + Decimal(-n) else Decimal(n)
  }

  // ---------- strings: json.dumps(value, ensure_ascii=True) ----------

  function HexDigit(d: int): char
    requires 0 <= d < 16
  {
    if d < 10 then '0' + d as char else 'a' + (d - 10) as char
  }

  function UEscape(unit: int): string
    requires 0 <= unit < 0x1_0000
  {
    "\\u" + [HexDigit(unit / 4096), HexDigit(unit / 256 % 16), HexDigit(unit / 16 % 16), HexDigit(unit % 16)]
  }

  function EscapeChar(c: CodePoint): string {
    if c == '\"' as int then "\\\""
    else if c == '\\' as int then "\\\\"
    else if c == 0x0A then "\\n"
    else if c == 0x0D then "\\r"
    else if c == 0x09 then "\\t"
    else if c == 0x0C then "\\f"
    else if c == 0x08 then "\\b"
    else if 0x20 <= c <= 0x7E then [c as char]
    else if c < 0x1_0000 then UEscape(c)
    else UEscape(0xD800 + (c - 0x1_0000) / 1024) + UEscape(0xDC00 + (c - 0x1_0000) % 1024)
  }

  function Escape(t: Text): string {
    if t == [] then "" else EscapeChar(t[0]) + Escape(t[1..])
  }

  function Quote(t: Text): string {
    "\"" + Escape(t) + "\""
  }

  // ---------- values ----------

  function Serialise(v: Value): Result<string, JcsError>
    decreases v
  {
    match v
    case Null => Ok("null")
    case Bool(b) => Ok(if b then "true" else "false")
    case Int(n) => Ok(RenderInt(n))
    case Float(_) => Err(FloatNotSupported)
    case Str(s) => Ok(Quote(s))
    case Arr(items) =>
      var body :- SerialiseItems(items);
      Ok("[" + body + "]")
    case Obj(fields) =>
      var body :- SerialiseFields(v, SortFields(fields));
      Ok("{" + body + "}")
  }

  function SerialiseItems(items: seq<Value>): Result<string, JcsError>
    decreases items
  {
    if items == [] then
      Ok("")
    else
      var head :- Serialise(items[0]);
      if |items| == 1 then
        Ok(head)
      else
        var tail :- SerialiseItems(items[1..]);
        Ok(head + "," + tail)
  }

  /** The sorted items of the dict `owner`, joined by commas. */
  function SerialiseFields(ghost owner: Value, fields: seq<Field>): Result<string, JcsError>
    requires forall f | f in fields :: f.val < owner
    decreases owner, |fields|
  {
    if fields == [] then
      Ok("")
    else
      var val :- Serialise(fields[0].val);
      var head := Quote(fields[0].key) + ":" + val;
      if |fields| == 1 then
        Ok(head)
      else
        var tail :- SerialiseFields(owner, fields[1..]);
        Ok(head + "," + tail)
  }
}
