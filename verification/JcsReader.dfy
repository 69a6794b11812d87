/** An independent reader of JSON text (RFC 8259 grammar, without white space and fractions).
  It yields strings as UTF-16 code units, the way a JavaScript engine holds them. */
module JcsReader {
  import opened Wrappers
  import opened Json

  datatype Parsed<+T> = Parsed(got: T, rest: string)

  function ReadValue(s: string): (r: Option<Parsed<Value>>)
    ensures r.Some? ==> |r.value.rest| < |s|
    decreases |s|, 0
  {
    if s == "" then None
    else if "null" <= s then Some(Parsed(Null, s[4..]))
    else if "true" <= s then Some(Parsed(Bool(true), s[4..]))
    else if "false" <= s then Some(Parsed(Bool(false), s[5..]))
    else if s[0] == '-' then
      if 1 < |s| && IsDigit(s[1]) then
        var p := ReadDigits(0, s[1..]);
        Some(Parsed(Int(0 - p.got), p.rest))
      else None
    else if IsDigit(s[0]) then
      var p := ReadDigits(0, s);
      Some(Parsed(Int(p.got), p.rest))
    else if s[0] == '\"' then
      var p :- ReadUnits(s[1..]);
      Some(Parsed(Str(p.got), p.rest))
    else if "[]" <= s then Some(Parsed(Arr([]), s[2..]))
    else if s[0] == '[' then
      var p :- ReadItems(s[1..]);
      Some(Parsed(Arr(p.got), p.rest))
    else if "{}" <= s then Some(Parsed(Obj([]), s[2..]))
    else if s[0] == '{' then
      var p :- ReadMembers(s[1..]);
      Some(Parsed(Obj(p.got), p.rest))
    else None
  }

  function ReadItems(s: string): (r: Option<Parsed<seq<Value>>>)
    ensures r.Some? ==> |r.value.rest| < |s|
    decreases |s|, 1
  {
    var head :- ReadValue(s);
    if head.rest == "" then None
    else if head.rest[0] == ']' then Some(Parsed([head.got], head.rest[1..]))
    else if head.rest[0] == ',' then
      var tail :- ReadItems(head.rest[1..]);
      Some(Parsed([head.got] + tail.got, tail.rest))
    else None
  }

  function ReadMembers(s: string): (r: Option<Parsed<seq<Field>>>)
    ensures r.Some? ==> |r.value.rest| < |s|
    decreases |s|, 1
  {
    if s == "" || s[0] != '\"' then None
    else
      var key :- ReadUnits(s[1..]);
      if key.rest == "" || key.rest[0] != ':' then None
      else
        var val :- ReadValue(key.rest[1..]);
        if val.rest == "" then None
        else if val.rest[0] == '}' then Some(Parsed([Field(key.got, val.got)], val.rest[1..]))
        else if val.rest[0] == ',' then
          var tail :- ReadMembers(val.rest[1..]);
          Some(Parsed([Field(key.got, val.got)] + tail.got, tail.rest))
        else None
  }

  // ---------- numbers ----------

  predicate IsDigit(c: char) {
    '0' <= c <= '9'
  }

  function ReadDigits(acc: nat, s: string): (p: Parsed<nat>)
    ensures |p.rest| <= |s|
    ensures s != "" && IsDigit(s[0]) ==> |p.rest| < |s|
    decreases |s|
  {
    if s == "" || !IsDigit(s[0]) then Parsed(acc, s)
    else ReadDigits(10 * acc + (s[0] - '0') as int, s[1..])
  }

  // ---------- strings ----------

  function HexValue(c: char): (r: Option<int>)
    ensures r.Some? ==> 0 <= r.value < 16
  {
    if '0' <= c <= '9' then Some((c - '0') as int)
    else if 'a' <= c <= 'f' then Some(10 + (c - 'a') as int)
    else if 'A' <= c <= 'F' then Some(10 + (c - 'A') as int)
    else None
  }

  function HexUnit(a: char, b: char, c: char, d: char): Option<CodePoint> {
    var h3 :- HexValue(a);
    var h2 :- HexValue(b);
    var h1 :- HexValue(c);
    var h0 :- HexValue(d);
    Some(4096 * h3 + 256 * h2 + 16 * h1 + h0)
  }

  function ShortEscape(c: char): Option<CodePoint> {
    if c == '\"' || c == '\\' || c == '/' then Some(c as int)
    else if c == 'b' then Some(0x08)
    else if c == 'f' then Some(0x0C)
    else if c == 'n' then Some(0x0A)
    else if c == 'r' then Some(0x0D)
    else if c == 't' then Some(0x09)
    else None
  }

  /** One code unit, either plain or escaped. */
  function ReadUnit(s: string): (r: Option<Parsed<CodePoint>>)
    ensures r.Some? ==> |r.value.rest| < |s|
  {
    if s == "" || s[0] as int < 0x20 then None
    else if s[0] != '\\' then Some(Parsed(s[0] as int, s[1..]))
    else if |s| < 2 then None
    else if s[1] == 'u' then
      if |s| < 6 then None
      else
        var unit :- HexUnit(s[2], s[3], s[4], s[5]);
        Some(Parsed(unit, s[6..]))
    else
      var unit :- ShortEscape(s[1]);
      Some(Parsed(unit, s[2..]))
  }

  /** The units up to and including the closing quotation mark. */
  function ReadUnits(s: string): (r: Option<Parsed<Text>>)
    ensures r.Some? ==> |r.value.rest| < |s|
    decreases |s|
  {
    if s != "" && s[0] == '\"' then Some(Parsed([], s[1..]))
    else
      var head :- ReadUnit(s);
      var tail :- ReadUnits(head.rest);
      Some(Parsed([head.got] + tail.got, tail.rest))
  }
}
