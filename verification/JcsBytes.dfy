/** The canonical bytes themselves, as a grammar: which escapes, which digits, which separators, which order. */
module JcsBytes {
  import opened Wrappers
  import opened Json
  import opened KeyOrder
  import opened Jcs
  import JcsCanonical
  import JcsRoundTrip

  // ---------- the grammar ----------

  ghost function Place(ch: char): int {
    if ch <= '9' then ch as int - '0' as int else ch as int - 'a' as int + 10
  }

  /** A backslash, a `u` and the four lower-case hexadecimal digits of the unit. */
  ghost predicate SpellsUnit(unit: int, s: string) {
    && |s| == 6 && s[0] == '\\' && s[1] == 'u'
    && (forall i | 2 <= i < 6 :: '0' <= s[i] <= '9' || 'a' <= s[i] <= 'f')
    && unit == 4096 * Place(s[2]) + 256 * Place(s[3]) + 16 * Place(s[4]) + Place(s[5])
  }

  /** The two-character escapes. */
  ghost predicate SpellsShort(c: CodePoint, s: string) {
    || (c == 0x22 && s == "\\\"") || (c == 0x5C && s == "\\\\") || (c == 0x08 && s == "\\b")
    || (c == 0x09 && s == "\\t") || (c == 0x0A && s == "\\n") || (c == 0x0C && s == "\\f") || (c == 0x0D && s == "\\r")
  }

  /** Printable ASCII stands for itself; what has a two-character escape takes it; all else is escaped by its UTF-16
    code units. */
  ghost predicate SpellsChar(c: CodePoint, s: string) {
    if c in [0x22, 0x5C, 0x08, 0x09, 0x0A, 0x0C, 0x0D] then SpellsShort(c, s)
    else if 0x20 <= c <= 0x7E then |s| == 1 && s[0] as int == c
    else if c < 0x1_0000 then SpellsUnit(c, s)
    else
      exists high, low :: 0xD800 <= high < 0xDC00 && 0xDC00 <= low < 0xE000
        && c == 0x1_0000 + 1024 * (high - 0xD800) + (low - 0xDC00) && SpellsPair(high, low, s)
  }

  ghost predicate SpellsPair(high: int, low: int, s: string) {
    |s| == 12 && SpellsUnit(high, s[..6]) && SpellsUnit(low, s[6..])
  }

  ghost function Joined(parts: seq<string>, separator: string): string {
    if parts == [] then ""
    else if |parts| == 1 then parts[0]
    else parts[0] + separator + Joined(parts[1..], separator)
  }

  ghost predicate SpellsChars(t: Text, parts: seq<string>) {
    |parts| == |t| && forall i | 0 <= i < |t| :: SpellsChar(t[i], parts[i])
  }

  ghost predicate SpellsText(t: Text, s: string) {
    exists parts :: SpellsChars(t, parts) && s == "\"" + Joined(parts, "") + "\""
  }

  ghost function DecimalValue(s: string): int {
    if s == "" then 0 else 10 * DecimalValue(s[..|s| - 1]) + (s[|s| - 1] as int - '0' as int)
  }

  /** Decimal digits without a leading zero. */
  ghost predicate SpellsNat(n: int, s: string) {
    && s != "" && (forall i | 0 <= i < |s| :: '0' <= s[i] <= '9') && (s[0] == '0' ==> s == "0") && DecimalValue(s) == n
  }

  ghost predicate SpellsInt(n: int, s: string) {
    if n < 0 then s != "" && s[0] == '-' && SpellsNat(-n, s[1..]) else SpellsNat(n, s)
  }

  /** The parts are the items, spelled in order. */
  ghost predicate SpellsItems(items: seq<Value>, parts: seq<string>)
    decreases items, 1
  {
    |parts| == |items| && forall i | 0 <= i < |items| :: Spells(items[i], parts[i])
  }

  /** A member of the dict, as `key:value`. */
  ghost predicate SpellsMember(owner: Value, f: Field, s: string)
    requires owner.Obj?
    decreases owner, 0, 0
  {
    f in owner.fields && exists key, val :: SpellsText(f.key, key) && Spells(f.val, val) && s == key + ":" + val
  }

  ghost predicate SpellsMembers(owner: Value, fields: seq<Field>, parts: seq<string>)
    requires owner.Obj?
    decreases owner, 0, 1
  {
    |parts| == |fields| && forall i | 0 <= i < |fields| :: SpellsMember(owner, fields[i], parts[i])
  }

  /** The text of a value: no white space, lists in order, dicts by ascending key. */
  ghost predicate Spells(v: Value, s: string)
    decreases v, 1
  {
    match v
    case Null => s == "null"
    case Bool(b) => s == if b then "true" else "false"
    case Int(n) => SpellsInt(n, s)
    case Float(_) => false
    case Str(t) => SpellsText(t, s)
    case Arr(items) => exists parts :: SpellsItems(items, parts) && s == "[" + Joined(parts, ",") + "]"
    case Obj(fields) =>
      exists listed, parts ::
        JcsRoundTrip.Listed(fields, listed) && SpellsMembers(v, listed, parts) && s == "{" + Joined(parts, ",") + "}"
  }

  // ---------- the serialiser writes it ----------

  lemma UnitSpelled(unit: int)
    requires 0 <= unit < 0x1_0000
    ensures SpellsUnit(unit, UEscape(unit))
  {
    var a, b, c, d := unit / 4096, unit / 256 % 16, unit / 16 % 16, unit % 16;
    HexParts(unit);
    DigitPlace(a);
    DigitPlace(b);
    DigitPlace(c);
    DigitPlace(d);
    assert UEscape(unit) == ['\\', 'u', HexDigit(a), HexDigit(b), HexDigit(c), HexDigit(d)];
    hide HexDigit;
    hide UEscape;
    hide Place;
  }

  lemma DigitPlace(d: int)
    requires 0 <= d < 16
    ensures Place(HexDigit(d)) == d && ('0' <= HexDigit(d) <= '9' || 'a' <= HexDigit(d) <= 'f')
  {
  }

  lemma HexParts(unit: int)
    requires 0 <= unit < 0x1_0000
    ensures unit / 4096 < 16
    ensures unit == 4096 * (unit / 4096) + 256 * (unit / 256 % 16) + 16 * (unit / 16 % 16) + unit % 16
  {
  }

  lemma CharSpelled(c: CodePoint)
    ensures SpellsChar(c, EscapeChar(c))
  {
    if c < 0x1_0000 {
      UnitSpelled(c);
      hide UEscape;
      hide SpellsUnit;
    } else {
      var high, low := 0xD800 + (c - 0x1_0000) / 1024, 0xDC00 + (c - 0x1_0000) % 1024;
      UnitSpelled(high);
      UnitSpelled(low);
      var s := EscapeChar(c);
      assert s == UEscape(high) + UEscape(low);
      assert s[..6] == UEscape(high) && s[6..] == UEscape(low);
      hide UEscape;
      hide EscapeChar;
      hide SpellsUnit;
      assert SpellsPair(high, low, s);
    }
  }

  lemma {:induction false} CharsSpelled(t: Text) returns (parts: seq<string>)
    ensures SpellsChars(t, parts) && Joined(parts, "") == Escape(t)
  {
    hide SpellsChar;
    hide EscapeChar;
    if t == [] {
      parts := [];
    } else {
      var tail := CharsSpelled(t[1..]);
      CharSpelled(t[0]);
      parts := [EscapeChar(t[0])] + tail;
      JoinedCons(EscapeChar(t[0]), tail, "");
    }
  }

  lemma JoinedCons(head: string, tail: seq<string>, separator: string)
    ensures Joined([head] + tail, separator) == if tail == [] then head else head + separator + Joined(tail, separator)
    ensures separator == "" ==> Joined([head] + tail, separator) == head + Joined(tail, separator)
  {
    assert ([head] + tail)[1..] == tail;
  }

  lemma TextSpelled(t: Text)
    ensures SpellsText(t, Quote(t))
  {
    var parts := CharsSpelled(t);
    assert SpellsChars(t, parts) && Quote(t) == "\"" + Joined(parts, "") + "\"";
  }

  lemma {:induction false} NatSpelled(n: nat)
    ensures SpellsNat(n, Decimal(n))
  {
    var s := Decimal(n);
    if n < 10 {
      assert s[..0] == "";
    } else {
      NatSpelled(n / 10);
      assert s[..|s| - 1] == Decimal(n / 10);
      assert Decimal(n / 10) == "0" ==> DecimalValue("0") == 0 by {
        assert "0"[..0] == "";
      }
    }
  }

  lemma IntSpelled(n: int)
    ensures SpellsInt(n, RenderInt(n))
  {
    if n < 0 {
      NatSpelled(-n);
      assert RenderInt(n)[1..] == Decimal(-n);
    } else {
      NatSpelled(n);
    }
  }

  /** What is serialised is the text of the value, in that grammar. */
  lemma {:induction false} BytesSpelled(v: Value)
    requires WellFormed(v) && Serialise(v).Ok?
    ensures Spells(v, Serialise(v).value)
    decreases v, 2
  {
    match v
    case Null =>
    case Bool(_) =>
    case Float(_) =>
    case Int(n) => IntSpelled(n);
    case Str(t) => TextSpelled(t);
    case Arr(items) =>
      var parts := ItemsSpelled(items);
      assert SpellsItems(items, parts);
    case Obj(fields) =>
      var listed := SortFields(fields);
      JcsRoundTrip.SortedListed(fields);
      var parts := MembersSpelled(v, listed);
      assert SpellsMembers(v, listed, parts);
  }

  lemma {:induction false} ItemsSpelled(items: seq<Value>) returns (parts: seq<string>)
    requires (forall i | 0 <= i < |items| :: WellFormed(items[i])) && SerialiseItems(items).Ok?
    ensures SpellsItems(items, parts) && SerialiseItems(items).value == Joined(parts, ",")
    decreases items, 1
  {
    hide Spells;
    hide Serialise;
    if items == [] {
      parts := [];
    } else {
      BytesSpelled(items[0]);
      var head := Serialise(items[0]).value;
      if |items| == 1 {
        parts := [head];
      } else {
        var tail := ItemsSpelled(items[1..]);
        parts := [head] + tail;
        JoinedCons(head, tail, ",");
      }
    }
  }

  lemma {:induction false} MembersSpelled(owner: Value, fields: seq<Field>) returns (parts: seq<string>)
    requires owner.Obj? && WellFormed(owner) && (forall f | f in fields :: f in owner.fields && f.val < owner)
    requires SerialiseFields(owner, fields).Ok?
    ensures SpellsMembers(owner, fields, parts) && SerialiseFields(owner, fields).value == Joined(parts, ",")
    decreases owner, 0, |fields|
  {
    hide Spells;
    hide SpellsMember;
    hide Serialise;
    hide Quote;
    if fields == [] {
      parts := [];
    } else {
      var head := Quote(fields[0].key) + ":" + Serialise(fields[0].val).value;
      MemberSpelled(owner, fields[0]);
      if |fields| == 1 {
        parts := [head];
      } else {
        var tail := MembersSpelled(owner, fields[1..]);
        parts := [head] + tail;
        JoinedCons(head, tail, ",");
      }
    }
  }

  lemma {:induction false} MemberSpelled(owner: Value, f: Field)
    requires owner.Obj? && WellFormed(owner) && f in owner.fields && f.val < owner && Serialise(f.val).Ok?
    ensures SpellsMember(owner, f, Quote(f.key) + ":" + Serialise(f.val).value)
    decreases owner, 0, 0
  {
    hide Spells;
    hide SpellsText;
    hide Serialise;
    hide Quote;
    BytesSpelled(f.val);
    TextSpelled(f.key);
    var key, val := Quote(f.key), Serialise(f.val).value;
    assert SpellsText(f.key, key) && Spells(f.val, val);
  }
}
