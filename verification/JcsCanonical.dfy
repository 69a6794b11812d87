/** The serialiser is canonical and injective, and what that gives `workorder_hash`. */
module JcsCanonical {
  import opened Wrappers
  import opened Json
  import opened KeyOrder
  import opened Jcs
  import JcsReader
  import opened JcsRoundTrip

  // ---------- when there are bytes at all ----------

  lemma {:induction false} SerialisesIffFloatFree(v: Value)
    ensures Serialise(v).Ok? <==> FloatFree(v)
    decreases v
  {
    match v
    case Arr(items) => ItemsSerialise(items);
    case Obj(fields) =>
      var sorted := SortFields(fields);
      FieldsSerialise(v, sorted);
      if FloatFree(v) {
        forall i | 0 <= i < |sorted| ensures FloatFree(sorted[i].val) {
          assert sorted[i] in fields;
        }
      }
      if forall i | 0 <= i < |sorted| :: FloatFree(sorted[i].val) {
        forall i | 0 <= i < |fields| ensures FloatFree(fields[i].val) {
          assert fields[i] in sorted;
        }
      }
    case _ =>
  }

  lemma {:induction false} ItemsSerialise(items: seq<Value>)
    ensures SerialiseItems(items).Ok? <==> forall i | 0 <= i < |items| :: FloatFree(items[i])
    decreases items
  {
    if items != [] {
      SerialisesIffFloatFree(items[0]);
      ItemsSerialise(items[1..]);
      assert forall i | 0 <= i < |items| :: items[i] == if i == 0 then items[0] else items[1..][i - 1];
    }
  }

  lemma {:induction false} FieldsSerialise(owner: Value, fields: seq<Field>)
    requires forall f | f in fields :: f.val < owner
    ensures SerialiseFields(owner, fields).Ok? <==> forall i | 0 <= i < |fields| :: FloatFree(fields[i].val)
    decreases owner, |fields|
  {
    if fields != [] {
      SerialisesIffFloatFree(fields[0].val);
      FieldsSerialise(owner, fields[1..]);
      assert forall i | 0 <= i < |fields| :: fields[i] == if i == 0 then fields[0] else fields[1..][i - 1];
    }
  }

  // ---------- bytes and denoted values determine each other ----------

  lemma EscapeAstral(c: CodePoint, tail: Text)
    requires c >= 0x1_0000
    ensures Escape(UnitsOf(c) + tail) == EscapeChar(c) + Escape(tail)
  {
    hide EscapeChar;
    hide UnitsOf;
    AstralUnits(c);
    var high, low := UnitsOf(c)[0], UnitsOf(c)[1];
    assert UnitsOf(c) + tail == [high] + ([low] + tail);
    EscapeCons(high, [low] + tail);
    EscapeCons(low, tail);
  }

  lemma AstralUnits(c: CodePoint)
    requires c >= 0x1_0000
    ensures |UnitsOf(c)| == 2 && EscapeChar(c) == EscapeChar(UnitsOf(c)[0]) + EscapeChar(UnitsOf(c)[1])
  {
    hide UEscape;
  }

  lemma EscapeCons(c: CodePoint, tail: Text)
    ensures Escape([c] + tail) == EscapeChar(c) + Escape(tail)
  {
    hide EscapeChar;
    assert ([c] + tail)[1..] == tail;
  }

  lemma {:induction false} EscapeOfUnits(t: Text)
    ensures Escape(Units(t)) == Escape(t)
  {
    if t != [] {
      EscapeOfUnits(t[1..]);
      var c, tail := t[0], Units(t[1..]);
      if c < 0x1_0000 {
        assert ([c] + tail)[1..] == tail;
      } else {
        EscapeAstral(c, tail);
      }
    }
  }

  lemma {:induction false} WireDeterminesBytes(v: Value, w: Value)
    requires Wire(v) == Wire(w)
    ensures Serialise(v) == Serialise(w)
    decreases v
  {
    match v
    case Str(s) =>
      EscapeOfUnits(s);
      EscapeOfUnits(w.s);
    case Arr(items) => WireItemsBytes(items, w.items);
    case Obj(fields) =>
      var sf, sg := SortFields(fields), SortFields(w.fields);
      assert |WireFields(v, sf)| == |WireFields(w, sg)|;
      forall i | 0 <= i < |sf| ensures Units(sf[i].key) == Units(sg[i].key) && Wire(sf[i].val) == Wire(sg[i].val) {
        assert WireFields(v, sf)[i] == WireFields(w, sg)[i];
      }
      WireFieldsBytes(v, sf, w, sg);
    case _ =>
  }

  lemma {:induction false} WireItemsBytes(xs: seq<Value>, ys: seq<Value>)
    requires WireItems(xs) == WireItems(ys)
    ensures SerialiseItems(xs) == SerialiseItems(ys)
    decreases xs
  {
    assert |xs| == |WireItems(xs)| == |ys|;
    if xs != [] {
      assert WireItems(xs)[0] == WireItems(ys)[0];
      WireDeterminesBytes(xs[0], ys[0]);
      assert WireItems(xs)[1..] == WireItems(ys)[1..];
      WireItemsBytes(xs[1..], ys[1..]);
    }
  }

  lemma {:induction false} WireFieldsBytes(v: Value, fs: seq<Field>, w: Value, gs: seq<Field>)
    requires forall f | f in fs :: f.val < v
    requires forall g | g in gs :: g.val < w
    requires |fs| == |gs|
    requires forall i | 0 <= i < |fs| :: Units(fs[i].key) == Units(gs[i].key) && Wire(fs[i].val) == Wire(gs[i].val)
    ensures SerialiseFields(v, fs) == SerialiseFields(w, gs)
    decreases v, |fs|
  {
    if fs != [] {
      EscapeOfUnits(fs[0].key);
      EscapeOfUnits(gs[0].key);
      WireDeterminesBytes(fs[0].val, gs[0].val);
      WireFieldsBytes(v, fs[1..], w, gs[1..]);
    }
  }

  /** Two serialisable values have the same bytes exactly when they denote the same wire value. */
  lemma BytesEqualIffWireEqual(v: Value, w: Value)
    requires FloatFree(v) && FloatFree(w)
    ensures Serialise(v) == Serialise(w) <==> Wire(v) == Wire(w)
  {
    SerialisesIffFloatFree(v);
    SerialisesIffFloatFree(w);
    ValueRead(v, "");
    ValueRead(w, "");
    assert Serialise(v).value + "" == Serialise(v).value && Serialise(w).value + "" == Serialise(w).value;
    if Wire(v) == Wire(w) {
      WireDeterminesBytes(v, w);
    }
  }

  // ---------- strings ----------

  /** The astral code point a surrogate pair stands for. */
  function Joined(high: CodePoint, low: CodePoint): CodePoint
    requires IsHigh(high) && IsLow(low)
  {
    0x1_0000 + 1024 * (high - 0xD800) + (low - 0xDC00)
  }

  /** The string with every surrogate pair joined into one code point. */
  function Join(t: Text): Text {
    if t == [] then []
    else if |t| > 1 && IsHigh(t[0]) && IsLow(t[1]) then
      [Joined(t[0], t[1])] + Join(t[2..])
    else [t[0]] + Join(t[1..])
  }

  lemma {:induction false} JoinPairFree(t: Text)
    ensures PairFreeText(Join(t))
    ensures t != [] ==> Join(t) != [] && (IsLow(Join(t)[0]) ==> IsLow(t[0]))
  {
    if t == [] {
    } else if |t| > 1 && IsHigh(t[0]) && IsLow(t[1]) {
      JoinPairFree(t[2..]);
    } else {
      JoinPairFree(t[1..]);
    }
  }

  lemma {:induction false} JoinKeepsUnits(t: Text)
    ensures Units(Join(t)) == Units(t)
  {
    hide Units;
    hide Joined;
    if t == [] {
    } else if |t| > 1 && IsHigh(t[0]) && IsLow(t[1]) {
      var rest := t[2..];
      JoinKeepsUnits(rest);
      PairUnits(t[0], t[1], Join(rest), rest);
      assert t == [t[0]] + ([t[1]] + rest);
    } else {
      var rest := t[1..];
      JoinKeepsUnits(rest);
      UnitsCons(t[0], Join(rest));
      UnitsCons(t[0], rest);
      assert t == [t[0]] + rest;
    }
  }

  lemma PairUnits(high: CodePoint, low: CodePoint, joined: Text, rest: Text)
    requires IsHigh(high) && IsLow(low) && Units(joined) == Units(rest)
    ensures Units([Joined(high, low)] + joined) == Units([high] + ([low] + rest))
  {
    hide Units;
    hide UnitsOf;
    hide Joined;
    JoinedUnits(high, low);
    UnitsCons(Joined(high, low), joined);
    UnitsCons(high, [low] + rest);
    UnitsCons(low, rest);
    assert UnitsOf(high) + (UnitsOf(low) + Units(rest)) == (UnitsOf(high) + UnitsOf(low)) + Units(rest);
  }

  lemma UnitsCons(c: CodePoint, tail: Text)
    ensures Units([c] + tail) == UnitsOf(c) + Units(tail)
  {
    assert ([c] + tail)[1..] == tail;
  }

  lemma JoinedUnits(high: CodePoint, low: CodePoint)
    requires IsHigh(high) && IsLow(low)
    ensures UnitsOf(Joined(high, low)) == UnitsOf(high) + UnitsOf(low)
  {
  }

  /** Strings without surrogate pairs are determined by their UTF-16 units. */
  lemma {:induction false} UnitsInjective(s: Text, t: Text)
    requires PairFreeText(s) && PairFreeText(t) && Units(s) == Units(t)
    ensures s == t
  {
    if s != [] && t != [] {
      FirstUnit(s);
      FirstUnit(t);
      assert |s| > 1 ==> !(IsHigh(s[0]) && IsLow(s[1]));
      assert |t| > 1 ==> !(IsHigh(t[0]) && IsLow(t[1]));
      assert s[0] == t[0];
      hide UnitsOf;
      var k := |UnitsOf(s[0])|;
      assert Units(s[1..]) == Units(s)[k..] == Units(t)[k..] == Units(t[1..]);
      assert forall i | 0 < i < |s[1..]| :: s[1..][i - 1] == s[i] && s[1..][i] == s[i + 1];
      assert forall i | 0 < i < |t[1..]| :: t[1..][i - 1] == t[i] && t[1..][i] == t[i + 1];
      UnitsInjective(s[1..], t[1..]);
      assert s == [s[0]] + s[1..] && t == [t[0]] + t[1..];
    }
  }

  /** What the first two units say about the string. */
  lemma FirstUnit(t: Text)
    requires t != []
    ensures Units(t) != [] && |Units(t)| >= |UnitsOf(t[0])| && Units(t)[0] == UnitsOf(t[0])[0]
    ensures t[0] >= 0x1_0000 ==> IsHigh(Units(t)[0]) && IsLow(Units(t)[1])
    ensures t[0] < 0x1_0000 && |Units(t)| > 1 ==> |t| > 1 && Units(t)[1] == UnitsOf(t[1])[0]
  {
    if t[0] < 0x1_0000 && |t| > 1 {
      assert Units(t[1..]) == UnitsOf(t[1]) + Units(t[1..][1..]);
      assert Units(t)[1] == Units(t[1..])[0];
    }
  }

  /** A string is alone among pair-free strings with its bytes exactly when it is pair-free itself. */
  lemma StringInjectiveExactly(t: Text)
    ensures PairFreeText(t) <==> forall u: Text | PairFreeText(u) && Serialise(Str(u)) == Serialise(Str(t)) :: u == t
  {
    if PairFreeText(t) {
      forall u: Text | PairFreeText(u) && Serialise(Str(u)) == Serialise(Str(t)) ensures u == t {
        BytesEqualIffWireEqual(Str(u), Str(t));
        UnitsInjective(u, t);
      }
    } else {
      JoinPairFree(t);
      JoinKeepsUnits(t);
      BytesEqualIffWireEqual(Str(Join(t)), Str(t));
    }
  }

  /** Two different Python strings, one astral character and its two surrogates, with the same bytes. */
  lemma SurrogatePairCollision()
    ensures !Same(Str([0x1_F600]), Str([0xD83D, 0xDE00]))
    ensures Serialise(Str([0x1_F600])) == Serialise(Str([0xD83D, 0xDE00]))
  {
    JoinKeepsUnits([0xD83D, 0xDE00]);
    assert Join([0xD83D, 0xDE00]) == [0x1_F600] + Join([]);
    BytesEqualIffWireEqual(Str([0x1_F600]), Str([0xD83D, 0xDE00]));
  }

  // ---------- values ----------

  lemma {:induction false} SameWire(v: Value, w: Value)
    requires WellFormed(v) && WellFormed(w) && Same(v, w)
    ensures Wire(v) == Wire(w)
    decreases v
  {
    match v
    case Arr(xs) =>
      forall i | 0 <= i < |xs| ensures Wire(xs[i]) == Wire(w.items[i]) {
        SameWire(xs[i], w.items[i]);
      }
    case Obj(fs) =>
      var gs := w.fields;
      var sf, sg := SortFields(fs), SortFields(gs);
      SortedKeysEqual(fs, gs);
      hide SortFields;
      hide HasKey;
      forall i | 0 <= i < |sf| ensures Wire(sf[i].val) == Wire(sg[i].val) {
        assert sf[i] in fs && sg[i] in gs;
        SameWire(sf[i].val, sg[i].val);
      }
      WireFieldsEqual(v, sf, w, sg);
    case _ =>
  }

  lemma WireFieldsEqual(v: Value, fs: seq<Field>, w: Value, gs: seq<Field>)
    requires (forall f | f in fs :: f.val < v) && (forall g | g in gs :: g.val < w) && |fs| == |gs|
    requires forall i | 0 <= i < |fs| :: fs[i].key == gs[i].key && Wire(fs[i].val) == Wire(gs[i].val)
    ensures WireFields(v, fs) == WireFields(w, gs)
  {
    hide Wire;
    hide Units;
  }

  lemma SortedKeysEqual(fs: seq<Field>, gs: seq<Field>)
    requires Distinct(fs) && Distinct(gs)
    requires (forall i | 0 <= i < |fs| :: HasKey(gs, fs[i].key)) && forall j | 0 <= j < |gs| :: HasKey(fs, gs[j].key)
    ensures |SortFields(fs)| == |SortFields(gs)|
    ensures forall i | 0 <= i < |SortFields(fs)| :: SortFields(fs)[i].key == SortFields(gs)[i].key
  {
    SortedKeysCover(fs, gs);
    SortedKeysCover(gs, fs);
    hide SortFields;
    hide HasKey;
    IncreasingKeysEqual(SortFields(fs), SortFields(gs));
  }

  lemma SortedKeysCover(fs: seq<Field>, gs: seq<Field>)
    requires forall i | 0 <= i < |fs| :: HasKey(gs, fs[i].key)
    ensures forall i | 0 <= i < |SortFields(fs)| :: HasKey(SortFields(gs), SortFields(fs)[i].key)
  {
    forall i | 0 <= i < |SortFields(fs)| ensures HasKey(SortFields(gs), SortFields(fs)[i].key) {
      assert SortFields(fs)[i] in fs;
      var j :| 0 <= j < |gs| && gs[j].key == SortFields(fs)[i].key;
      assert gs[j] in SortFields(gs);
    }
  }

  lemma {:induction false} WireSame(v: Value, w: Value)
    requires WellFormed(v) && WellFormed(w) && PairFree(v) && PairFree(w)
    requires Wire(v) == Wire(w)
    ensures Same(v, w)
    decreases v
  {
    match v
    case Str(s) => UnitsInjective(s, w.s);
    case Arr(xs) =>
      assert |WireItems(xs)| == |WireItems(w.items)|;
      forall i | 0 <= i < |xs| ensures Same(xs[i], w.items[i]) {
        assert WireItems(xs)[i] == WireItems(w.items)[i];
        WireSame(xs[i], w.items[i]);
      }
    case Obj(fs) =>
      var gs := w.fields;
      var sf, sg := SortFields(fs), SortFields(gs);
      assert |WireFields(v, sf)| == |WireFields(w, sg)|;
      forall i | 0 <= i < |sf| ensures sf[i].key == sg[i].key && Same(sf[i].val, sg[i].val) {
        assert sf[i] in fs && sg[i] in gs;
        assert WireFields(v, sf)[i] == WireFields(w, sg)[i];
        UnitsInjective(sf[i].key, sg[i].key);
        WireSame(sf[i].val, sg[i].val);
      }
      SortedSame(fs, gs);
    case _ =>
  }

  ghost predicate SortedAgree(fs: seq<Field>, gs: seq<Field>) {
    var sf, sg := SortFields(fs), SortFields(gs);
    |sf| == |sg| && forall i | 0 <= i < |sf| :: sf[i].key == sg[i].key && Same(sf[i].val, sg[i].val)
  }

  /** Where a field of `fs` sits once sorted. */
  lemma Rank(fs: seq<Field>, i: nat) returns (k: nat)
    requires i < |fs|
    ensures k < |SortFields(fs)| == |fs| && SortFields(fs)[k] == fs[i]
  {
    assert fs[i] in SortFields(fs);
    k :| 0 <= k < |SortFields(fs)| && SortFields(fs)[k] == fs[i];
  }

  /** Where the sorted field at `k` comes from. */
  lemma Origin(fs: seq<Field>, k: nat) returns (i: nat)
    requires k < |SortFields(fs)|
    ensures i < |fs| && fs[i] == SortFields(fs)[k]
  {
    assert SortFields(fs)[k] in fs;
    i :| 0 <= i < |fs| && fs[i] == SortFields(fs)[k];
  }

  lemma SortedAgreeKeys(fs: seq<Field>, gs: seq<Field>)
    requires |SortFields(fs)| == |SortFields(gs)|
    requires forall i | 0 <= i < |SortFields(fs)| :: SortFields(fs)[i].key == SortFields(gs)[i].key
    ensures forall i | 0 <= i < |fs| :: HasKey(gs, fs[i].key)
  {
    hide SortFields;
    forall i | 0 <= i < |fs| ensures HasKey(gs, fs[i].key) {
      var k := Rank(fs, i);
      var j := Origin(gs, k);
      assert gs[j].key == fs[i].key;
    }
  }

  lemma SortedSame(fs: seq<Field>, gs: seq<Field>)
    requires Distinct(fs) && Distinct(gs) && SortedAgree(fs, gs)
    ensures Same(Obj(fs), Obj(gs))
  {
    SortedAgreeKeys(fs, gs);
    SortedAgreeKeys(gs, fs);
    forall i, j | 0 <= i < |fs| && 0 <= j < |gs| && fs[i].key == gs[j].key ensures Same(fs[i].val, gs[j].val) {
      var k := Rank(fs, i);
      var l := Rank(gs, j);
      BeforeTotal(fs[i].key, fs[i].key);
      assert k == l;
    }
  }

  /** Canonical and injective: the same bytes exactly for the same typed value up to key order. */
  lemma CanonicalAndInjective(v: Value, w: Value)
    requires WellFormed(v) && WellFormed(w) && FloatFree(v) && FloatFree(w)
    ensures Same(v, w) ==> Serialise(v) == Serialise(w)
    ensures PairFree(v) && PairFree(w) ==> (Serialise(v) == Serialise(w) <==> Same(v, w))
  {
    BytesEqualIffWireEqual(v, w);
    if Same(v, w) {
      SameWire(v, w);
    }
    if PairFree(v) && PairFree(w) && Wire(v) == Wire(w) {
      WireSame(v, w);
    }
  }
}
