/** JSON values as Python holds them: unbounded ints, a float case, strings that are
  sequences of code points (lone surrogates included), and dicts with an insertion order. */
module Json {
  import opened Wrappers

  type CodePoint = c: int | 0 <= c < 0x11_0000

  type Text = seq<CodePoint>

  datatype Value =
    | Null
    | Bool(b: bool)
    | Int(n: int)
    | Float(x: real)
    | Str(s: Text)
    | Arr(items: seq<Value>)
    | Obj(fields: seq<Field>)

  datatype Field = Field(key: Text, val: Value)

  /** The code points of a literal. */
  function T(s: string): (t: Text)
    ensures |t| == |s| && forall i | 0 <= i < |s| :: t[i] == s[i] as int
  {
    seq(|s|, i requires 0 <= i < |s| => s[i] as int)
  }

  ghost predicate Distinct(fs: seq<Field>) {
    forall i, j | 0 <= i < j < |fs| :: fs[i].key != fs[j].key
  }

  /** What being a Python value guarantees: no dict holds a key twice. */
  ghost predicate WellFormed(v: Value) {
    match v
    case Arr(items) => forall i | 0 <= i < |items| :: WellFormed(items[i])
    case Obj(fs) => Distinct(fs) && forall i | 0 <= i < |fs| :: WellFormed(fs[i].val)
    case _ => true
  }

  predicate FloatFree(v: Value) {
    match v
    case Float(_) => false
    case Arr(items) => forall i | 0 <= i < |items| :: FloatFree(items[i])
    case Obj(fs) => forall i | 0 <= i < |fs| :: FloatFree(fs[i].val)
    case _ => true
  }

  predicate HasKey(fs: seq<Field>, k: Text) {
    exists i | 0 <= i < |fs| :: fs[i].key == k
  }

  /** Equal as typed values, the order of object keys aside. */
  ghost predicate Same(v: Value, w: Value) {
    match (v, w)
    case (Arr(xs), Arr(ys)) => |xs| == |ys| && forall i | 0 <= i < |xs| :: Same(xs[i], ys[i])
    case (Obj(fs), Obj(gs)) =>
      && (forall i | 0 <= i < |fs| :: HasKey(gs, fs[i].key))
      && (forall j | 0 <= j < |gs| :: HasKey(fs, gs[j].key))
      && (forall i, j | 0 <= i < |fs| && 0 <= j < |gs| && fs[i].key == gs[j].key :: Same(fs[i].val, gs[j].val))
    case _ => v == w
  }

  predicate IsHigh(c: int) {
    0xD800 <= c < 0xDC00
  }

  predicate IsLow(c: int) {
    0xDC00 <= c < 0xE000
  }

  /** No high surrogate is immediately followed by a low one, as in every decoded UTF-8 text. */
  predicate PairFreeText(t: Text) {
    forall i | 0 < i < |t| :: !(IsHigh(t[i - 1]) && IsLow(t[i]))
  }

  predicate PairFree(v: Value) {
    match v
    case Str(s) => PairFreeText(s)
    case Arr(items) => forall i | 0 <= i < |items| :: PairFree(items[i])
    case Obj(fs) => forall i | 0 <= i < |fs| :: PairFreeText(fs[i].key) && PairFree(fs[i].val)
    case _ => true
  }

  /** `isinstance(v, int)` and its value: a bool is an int in Python. */
  function AsInt(v: Value): Option<int> {
    match v
    case Int(n) => Some(n)
    case Bool(b) => Some(if b then 1 else 0)
    case _ => None
  }

  function Number(v: Value): Option<real> {
    match v
    case Float(x) => Some(x)
    case _ => if AsInt(v).Some? then Some(AsInt(v).value as real) else None
  }

  /** Python's `==`: numbers compare by value across types, dicts regardless of order. */
  predicate PyEqual(v: Value, w: Value) {
    match (v, w)
    case (Arr(xs), Arr(ys)) => |xs| == |ys| && forall i | 0 <= i < |xs| :: PyEqual(xs[i], ys[i])
    case (Obj(fs), Obj(gs)) =>
      && (forall i | 0 <= i < |fs| :: HasKey(gs, fs[i].key))
      && (forall j | 0 <= j < |gs| :: HasKey(fs, gs[j].key))
      && (forall i, j | 0 <= i < |fs| && 0 <= j < |gs| && fs[i].key == gs[j].key :: PyEqual(fs[i].val, gs[j].val))
    case _ => v == w || (Number(v).Some? && Number(v) == Number(w))
  }

  lemma {:induction false} PyEqualTransitive(u: Value, v: Value, w: Value)
    requires PyEqual(u, v) && PyEqual(v, w)
    ensures PyEqual(u, w)
    decreases u
  {
    match (u, v, w)
    case (Arr(xs), Arr(ys), Arr(zs)) =>
      forall i | 0 <= i < |xs| ensures PyEqual(xs[i], zs[i]) {
        PyEqualTransitive(xs[i], ys[i], zs[i]);
      }
    case (Obj(fs), Obj(gs), Obj(hs)) =>
      forall i, k | 0 <= i < |fs| && 0 <= k < |hs| && fs[i].key == hs[k].key ensures PyEqual(fs[i].val, hs[k].val) {
        assert HasKey(gs, fs[i].key);
        var j :| 0 <= j < |gs| && gs[j].key == fs[i].key;
        PyEqualTransitive(fs[i].val, gs[j].val, hs[k].val);
      }
      forall i | 0 <= i < |fs| ensures HasKey(hs, fs[i].key) {
        assert HasKey(gs, fs[i].key);
      }
      forall k | 0 <= k < |hs| ensures HasKey(fs, hs[k].key) {
        assert HasKey(gs, hs[k].key);
      }
    case _ =>
  }
}
