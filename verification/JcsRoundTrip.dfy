/** What the bytes of `jcs_subset` denote, and that the reader recovers exactly that. */
module JcsRoundTrip {
  import opened Wrappers
  import opened Json
  import opened KeyOrder
  import opened Jcs
  import opened JcsReader

  // ---------- the value denoted by the bytes ----------

  function UnitsOf(c: CodePoint): Text {
    if c < 0x1_0000 then [c] else [0xD800 + (c - 0x1_0000) / 1024, 0xDC00 + (c - 0x1_0000) % 1024]
  }

  /** The UTF-16 code units of a string. */
  function Units(t: Text): Text {
    if t == [] then [] else UnitsOf(t[0]) + Units(t[1..])
  }

  /** Keys in order, strings as UTF-16 code units. */
  function Wire(v: Value): Value
    decreases v
  {
    match v
    case Str(s) => Str(Units(s))
    case Arr(items) => Arr(WireItems(items))
    case Obj(fields) => Obj(WireFields(v, SortFields(fields)))
    case _ => v
  }

  function WireItems(items: seq<Value>): (ws: seq<Value>)
    ensures |ws| == |items|
    ensures forall i | 0 <= i < |items| :: ws[i] == Wire(items[i])
    decreases items
  {
    if items == [] then [] else [Wire(items[0])] + WireItems(items[1..])
  }

  function WireFields(ghost owner: Value, fields: seq<Field>): (ws: seq<Field>)
    requires forall f | f in fields :: f.val < owner
    ensures |ws| == |fields|
    ensures forall i | 0 <= i < |fields| :: ws[i] == Field(Units(fields[i].key), Wire(fields[i].val))
    decreases owner, |fields|
  {
    if fields == [] then
      []
    else
      [Field(Units(fields[0].key), Wire(fields[0].val))] + WireFields(owner, fields[1..])
  }

  // ---------- numbers ----------

  lemma {:induction false} DigitsRead(n: nat, rest: string)
    ensures ReadDigits(0, Decimal(n) + rest) == ReadDigits(n, rest)
    ensures (Decimal(n) + rest)[0] == Decimal(n)[0]
  {
    if n < 10 {
      assert (Decimal(n) + rest)[1..] == rest;
    } else {
      var last := [Digit(n % 10)];
      calc {
        ReadDigits(0, Decimal(n) + rest);
        { assert Decimal(n) + rest == Decimal(n / 10) + (last + rest); }
        ReadDigits(0, Decimal(n / 10) + (last + rest));
        { DigitsRead(n / 10, last + rest); }
        ReadDigits(n / 10, last + rest);
        { assert (last + rest)[1..] == rest; }
        ReadDigits(n, rest);
      }
    }
  }

  /** What may follow a number: nothing, or a character that is not a digit. */
  predicate Stops(rest: string) {
    rest == "" || !IsDigit(rest[0])
  }

  lemma IntRead(n: int, rest: string)
    requires Stops(rest)
    ensures ReadValue(RenderInt(n) + rest) == Some(Parsed(Int(n), rest))
  {
    hide ReadValue;
    hide Decimal;
    var digits := Decimal(if n < 0 then -n else n) + rest;
    DigitsRead(if n < 0 then -n else n, rest);
    if n < 0 {
      MinusOpens(RenderInt(n) + rest, digits);
    } else {
      DigitOpens(digits);
    }
  }

  lemma MinusOpens(s: string, digits: string)
    requires digits != "" && s == "-" + digits && IsDigit(digits[0])
    ensures ReadValue(s) == Some(Parsed(Int(0 - ReadDigits(0, digits).got), ReadDigits(0, digits).rest))
  {
    assert s[0] == '-' && s[1] == digits[0] && s[1..] == digits;
  }

  lemma DigitOpens(s: string)
    requires s != "" && IsDigit(s[0])
    ensures ReadValue(s) == Some(Parsed(Int(ReadDigits(0, s).got), ReadDigits(0, s).rest))
  {
    assert s[0] != 'n' && s[0] != 't' && s[0] != 'f' && s[0] != '-';
  }

  // ---------- strings ----------

  lemma HexRead(unit: int)
    requires 0 <= unit < 0x1_0000
    ensures HexUnit(HexDigit(unit / 4096), HexDigit(unit / 256 % 16), HexDigit(unit / 16 % 16), HexDigit(unit % 16))
            == Some(unit)
  {
    forall d | 0 <= d < 16 ensures HexValue(HexDigit(d)) == Some(d) {
    }
    var q := unit / 16;
    assert unit / 256 == q / 16 && unit / 4096 == q / 16 / 16;
  }

  lemma UEscapeRead(unit: int, s: string)
    requires 0 <= unit < 0x1_0000
    ensures UEscape(unit) != "" && (UEscape(unit) + s)[0] == '\\'
    ensures ReadUnit(UEscape(unit) + s) == Some(Parsed(unit, s))
  {
    HexRead(unit);
    assert (UEscape(unit) + s)[6..] == s;
  }

  function Prepend(units: Text, r: Option<Parsed<Text>>): Option<Parsed<Text>> {
    match r
    case None => None
    case Some(p) => Some(Parsed(units + p.got, p.rest))
  }

  /** One unit read off the front is prepended to the units read off the rest. */
  lemma StepRead(text: string, unit: CodePoint, s: string)
    requires text != "" && text[0] != '\"' && ReadUnit(text) == Some(Parsed(unit, s))
    ensures ReadUnits(text) == Prepend([unit], ReadUnits(s))
  {
  }

  lemma AstralRead(c: CodePoint, s: string)
    requires c >= 0x1_0000
    ensures ReadUnits(EscapeChar(c) + s) == Prepend(UnitsOf(c), ReadUnits(s))
  {
    hide ReadUnits;
    hide ReadUnit;
    hide Prepend;
    hide UEscape;
    var high, low := 0xD800 + (c - 0x1_0000) / 1024, 0xDC00 + (c - 0x1_0000) % 1024;
    var text, tail := EscapeChar(c) + s, UEscape(low) + s;
    assert text == UEscape(high) + tail;
    UEscapeRead(high, tail);
    StepRead(text, high, tail);
    UEscapeRead(low, s);
    StepRead(tail, low, s);
    PrependTwice(high, low, ReadUnits(s));
  }

  lemma PrependTwice(high: CodePoint, low: CodePoint, r: Option<Parsed<Text>>)
    ensures Prepend([high], Prepend([low], r)) == Prepend([high, low], r)
  {
    if r.Some? {
      assert [high] + ([low] + r.value.got) == [high, low] + r.value.got;
    }
  }

  lemma ShortRead(c: CodePoint, s: string)
    requires |EscapeChar(c)| <= 2
    ensures ReadUnit(EscapeChar(c) + s) == Some(Parsed(c, s))
  {
    var text := EscapeChar(c) + s;
    if |EscapeChar(c)| == 1 {
      assert text[1..] == s;
    } else {
      assert text[2..] == s;
      assert text[0] == '\\' && text[1] == EscapeChar(c)[1];
    }
  }

  lemma CharRead(c: CodePoint, s: string)
    ensures ReadUnits(EscapeChar(c) + s) == Prepend(UnitsOf(c), ReadUnits(s))
  {
    if c >= 0x1_0000 {
      AstralRead(c, s);
    } else {
      if |EscapeChar(c)| <= 2 {
        ShortRead(c, s);
      } else {
        UEscapeRead(c, s);
      }
      StepRead(EscapeChar(c) + s, c, s);
    }
  }

  lemma {:induction false} StringRead(t: Text, rest: string)
    ensures ReadUnits(Escape(t) + "\"" + rest) == Some(Parsed(Units(t), rest))
  {
    if t == [] {
      assert (Escape(t) + "\"" + rest)[1..] == rest;
    } else {
      assert Escape(t) + "\"" + rest == EscapeChar(t[0]) + (Escape(t[1..]) + "\"" + rest);
      CharRead(t[0], Escape(t[1..]) + "\"" + rest);
      StringRead(t[1..], rest);
    }
  }

  // ---------- values ----------

  lemma LiteralRead(rest: string)
    ensures ReadValue("null" + rest) == Some(Parsed(Null, rest))
    ensures ReadValue("true" + rest) == Some(Parsed(Bool(true), rest))
    ensures ReadValue("false" + rest) == Some(Parsed(Bool(false), rest))
  {
    var n, t, f := "null" + rest, "true" + rest, "false" + rest;
    assert n[4..] == rest && t[4..] == rest && f[5..] == rest;
    assert t[0] == 't' && f[0] == 'f';
  }

  /** The round trip: reading the bytes back gives the value they denote, whatever follows them. */
  lemma {:induction false} ValueRead(v: Value, rest: string)
    requires Serialise(v).Ok? && Stops(rest)
    ensures ReadValue(Serialise(v).value + rest) == Some(Parsed(Wire(v), rest))
    decreases v, 1, 0
  {
    hide ReadValue;
    match v
    case Null => LiteralRead(rest);
    case Bool(_) => LiteralRead(rest);
    case Int(n) => IntRead(n, rest);
    case Float(_) =>
    case Str(t) => StrRead(t, rest);
    case Arr(items) => ArrRead(items, rest);
    case Obj(fields) => ObjRead(fields, rest);
  }

  lemma StrRead(t: Text, rest: string)
    ensures ReadValue(Quote(t) + rest) == Some(Parsed(Str(Units(t)), rest))
  {
    hide ReadValue;
    hide ReadUnits;
    hide Escape;
    StringRead(t, rest);
    assert Quote(t) + rest == "\"" + (Escape(t) + "\"" + rest);
    StringOpens(Quote(t) + rest, Escape(t) + "\"" + rest);
  }

  lemma {:induction false} ArrRead(items: seq<Value>, rest: string)
    requires Serialise(Arr(items)).Ok?
    ensures ReadValue(Serialise(Arr(items)).value + rest) == Some(Parsed(Wire(Arr(items)), rest))
    decreases Arr(items), 0, 0
  {
    hide ReadValue;
    hide ReadItems;
    if items == [] {
      EmptyRead(rest);
    } else {
      ItemsRead(items, rest);
      ItemsStart(items);
      ListOpens(Serialise(Arr(items)).value + rest, SerialiseItems(items).value + "]" + rest);
    }
  }

  lemma {:induction false} ObjRead(fields: seq<Field>, rest: string)
    requires Serialise(Obj(fields)).Ok?
    ensures ReadValue(Serialise(Obj(fields)).value + rest) == Some(Parsed(Wire(Obj(fields)), rest))
    decreases Obj(fields), 0, |fields| + 1
  {
    hide ReadValue;
    hide ReadMembers;
    if fields == [] {
      EmptyRead(rest);
    } else {
      var v, sorted := Obj(fields), SortFields(fields);
      var body := SerialiseFields(v, sorted).value;
      assert Serialise(v).value == "{" + body + "}";
      hide SerialiseFields;
      hide SortFields;
      BracedText(body, rest);
      FieldsRead(v, sorted, rest);
      DictOpens(Serialise(v).value + rest, body + "}" + rest);
    }
  }

  lemma BracedText(body: string, rest: string)
    ensures "{" + body + "}" + rest == "{" + (body + "}" + rest)
  {
  }

  lemma EmptyRead(rest: string)
    ensures ReadValue("[" + "" + "]" + rest) == Some(Parsed(Arr([]), rest))
    ensures ReadValue("{" + "" + "}" + rest) == Some(Parsed(Obj([]), rest))
  {
    var list, dict := "[" + "" + "]" + rest, "{" + "" + "}" + rest;
    assert list[2..] == rest && dict[2..] == rest;
    assert list[0] == '[' && dict[0] == '{';
  }

  lemma StringOpens(s: string, inner: string)
    requires s == "\"" + inner && ReadUnits(inner).Some?
    ensures ReadValue(s) == Some(Parsed(Str(ReadUnits(inner).value.got), ReadUnits(inner).value.rest))
  {
    assert s[0] == '\"' && s[1..] == inner;
  }

  lemma ListOpens(s: string, inner: string)
    requires s == "[" + inner && inner != "" && inner[0] != ']' && ReadItems(inner).Some?
    ensures ReadValue(s) == Some(Parsed(Arr(ReadItems(inner).value.got), ReadItems(inner).value.rest))
  {
    assert s[0] == '[' && s[1] == inner[0] && s[1..] == inner;
  }

  lemma DictOpens(s: string, inner: string)
    requires s == "{" + inner && ReadMembers(inner).Some?
    ensures ReadValue(s) == Some(Parsed(Obj(ReadMembers(inner).value.got), ReadMembers(inner).value.rest))
  {
    hide ReadMembers;
    OpensWithQuote(inner);
    assert s[0] == '{' && s[1] == inner[0] == '\"' && s[1..] == inner;
    assert !("{}" <= s) && !("[]" <= s);
  }

  /** Members start with a key. */
  lemma OpensWithQuote(inner: string)
    requires ReadMembers(inner).Some?
    ensures inner != "" && inner[0] == '\"'
  {
  }

  /** No value starts with a closing bracket, so a non-empty list is not read as an empty one. */
  lemma ItemsStart(items: seq<Value>)
    requires items != [] && SerialiseItems(items).Ok?
    ensures SerialiseItems(items).value != "" && SerialiseItems(items).value[0] != ']'
  {
    var head := Serialise(items[0]).value;
    assert head != "" && head[0] != ']' by {
      match items[0]
      case Int(n) => assert RenderInt(n)[0] == if n < 0 then '-' else Decimal(n)[0];
      case _ =>
    }
  }

  lemma {:induction false} ItemsRead(items: seq<Value>, rest: string)
    requires items != [] && SerialiseItems(items).Ok?
    ensures ReadItems(SerialiseItems(items).value + "]" + rest) == Some(Parsed(WireItems(items), rest))
    decreases items
  {
    hide ReadValue;
    var s := SerialiseItems(items).value + "]" + rest;
    var head := Serialise(items[0]).value;
    if |items| == 1 {
      var after := "]" + rest;
      assert s == head + after && after[1..] == rest;
      ValueRead(items[0], after);
      assert WireItems(items) == [Wire(items[0])];
    } else {
      var tail := SerialiseItems(items[1..]).value + "]" + rest;
      var after := "," + tail;
      assert s == head + after && after[1..] == tail;
      ValueRead(items[0], after);
      ItemsRead(items[1..], rest);
    }
  }

  lemma {:induction false} FieldsRead(owner: Value, fields: seq<Field>, rest: string)
    requires forall f | f in fields :: f.val < owner
    requires fields != [] && SerialiseFields(owner, fields).Ok?
    ensures ReadMembers(SerialiseFields(owner, fields).value + "}" + rest)
            == Some(Parsed(WireFields(owner, fields), rest))
    decreases owner, 0, |fields|
  {
    hide ReadValue;
    hide ReadUnits;
    hide Quote;
    hide Units;
    var s := SerialiseFields(owner, fields).value + "}" + rest;
    var key, val := fields[0].key, Serialise(fields[0].val).value;
    var end := "}" + rest;
    assert end[1..] == rest;
    if |fields| == 1 {
      MemberRead(key, fields[0].val, s, end);
      assert WireFields(owner, fields) == [Field(Units(key), Wire(fields[0].val))];
    } else {
      var tail := SerialiseFields(owner, fields[1..]).value + "}" + rest;
      assert s == Quote(key) + ":" + val + ("," + tail);
      assert ("," + tail)[1..] == tail;
      MemberRead(key, fields[0].val, s, "," + tail);
      FieldsRead(owner, fields[1..], rest);
    }
  }

  lemma {:induction false} MemberRead(key: Text, v: Value, s: string, after: string)
    requires Serialise(v).Ok? && Stops(after)
    requires s == Quote(key) + ":" + Serialise(v).value + after
    ensures s[0] == '\"' && ReadUnits(s[1..]).Some?
    ensures var k := ReadUnits(s[1..]).value;
            k.got == Units(key) && k.rest != "" && k.rest[0] == ':'
              && ReadValue(k.rest[1..]) == Some(Parsed(Wire(v), after))
    decreases v, 2, 0
  {
    hide ReadValue;
    hide ReadUnits;
    hide Escape;
    hide Units;
    hide Serialise;
    var text := Serialise(v).value + after;
    assert s[1..] == Escape(key) + "\"" + (":" + text);
    StringRead(key, ":" + text);
    assert (":" + text)[1..] == text;
    ValueRead(v, after);
  }

  // ---------- what the reader recovers, in plain terms ----------

  /** The same fields, each key below the next. */
  ghost predicate Listed(fs: seq<Field>, gs: seq<Field>) {
    && |gs| == |fs| && (forall f :: f in gs <==> f in fs)
    && forall i | 0 < i < |gs| :: Below(gs[i - 1].key, gs[i].key)
  }

  /** `w` is `v` with its strings as UTF-16 code units and the keys of every dict in ascending order. */
  ghost predicate Denotes(v: Value, w: Value)
    decreases v
  {
    match v
    case Str(s) => w == Str(Units(s))
    case Arr(xs) => w.Arr? && |w.items| == |xs| && forall i | 0 <= i < |xs| :: Denotes(xs[i], w.items[i])
    case Obj(fs) =>
      w.Obj? && exists gs: seq<Field> :: Listed(fs, gs) && |w.fields| == |gs| && forall i | 0 <= i < |gs| ::
        gs[i] in fs && w.fields[i].key == Units(gs[i].key) && Denotes(gs[i].val, w.fields[i].val)
    case _ => w == v
  }

  lemma SortedListed(fs: seq<Field>)
    requires Distinct(fs)
    ensures Listed(fs, SortFields(fs))
  {
    var gs := SortFields(fs);
    forall i | 0 < i < |gs| ensures Below(gs[i - 1].key, gs[i].key) {
      assert Before(gs[i - 1].key, gs[i].key);
      BeforeExactly(gs[i - 1].key, gs[i].key);
    }
  }

  lemma {:induction false} WireDenotes(v: Value)
    requires WellFormed(v)
    ensures Denotes(v, Wire(v))
    decreases v
  {
    match v
    case Arr(xs) =>
      forall i | 0 <= i < |xs| ensures Denotes(xs[i], Wire(v).items[i]) {
        WireDenotes(xs[i]);
      }
    case Obj(fs) =>
      var gs, ws := SortFields(fs), WireFields(v, SortFields(fs));
      SortedListed(fs);
      hide SortFields;
      hide Listed;
      forall i | 0 <= i < |gs|
        ensures gs[i] in fs && ws[i].key == Units(gs[i].key) && Denotes(gs[i].val, ws[i].val)
      {
        assert gs[i] in fs;
        WireDenotes(gs[i].val);
      }
    case _ =>
  }

  /** The round trip with the order of the keys stated: what is read back from the bytes of a value is that
    value, its dicts listed by ascending key at every depth. */
  lemma ReadsBackAscending(v: Value, rest: string)
    requires WellFormed(v) && Serialise(v).Ok? && Stops(rest)
    ensures ReadValue(Serialise(v).value + rest).Some?
    ensures ReadValue(Serialise(v).value + rest).value.rest == rest
    ensures Denotes(v, ReadValue(Serialise(v).value + rest).value.got)
  {
    ValueRead(v, rest);
    WireDenotes(v);
  }
}
