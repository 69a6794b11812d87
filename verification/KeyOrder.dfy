/** Python's order on strings (by code point) and `sorted(value.items(), key=...)`. */
module KeyOrder {
  import opened Json

  predicate Before(a: Text, b: Text) {
    && b != []
    && (a == [] || a[0] < b[0] || (a[0] == b[0] && Before(a[1..], b[1..])))
  }

  /** Ascending order by code point: the shorter first of two texts that agree as far as it goes, else the one
    with the smaller code point at the first difference. */
  ghost predicate Below(a: Text, b: Text) {
    || (|a| < |b| && b[..|a|] == a)
    || exists i | 0 <= i < |a| && i < |b| :: a[..i] == b[..i] && a[i] < b[i]
  }

  /** `Before` is that order. */
  lemma {:induction false} BeforeExactly(a: Text, b: Text)
    ensures Before(a, b) <==> Below(a, b)
  {
    if a == [] || b == [] || a[0] != b[0] {
      HeadsDecide(a, b);
    } else {
      BeforeExactly(a[1..], b[1..]);
      BelowTails(a, b);
    }
  }

  lemma HeadsDecide(a: Text, b: Text)
    requires a == [] || b == [] || a[0] != b[0]
    ensures Below(a, b) <==> b != [] && (a == [] || a[0] < b[0])
  {
    if a != [] && b != [] {
      assert a[..0] == b[..0];
      forall i | 0 < i < |a| && i < |b| ensures a[..i] != b[..i] {
        assert a[..i][0] != b[..i][0];
      }
      assert |a| < |b| ==> b[..|a|][0] != a[0];
    }
  }

  lemma BelowTails(a: Text, b: Text)
    requires a != [] && b != [] && a[0] == b[0]
    ensures Below(a, b) <==> Below(a[1..], b[1..])
  {
    var s, t := a[1..], b[1..];
    assert a == [a[0]] + s && b == [b[0]] + t;
    if |a| < |b| {
      assert b[..|a|] == [b[0]] + t[..|s|];
      assert b[..|a|][1..] == t[..|s|];
    }
    forall i | 0 <= i < |s| && i < |t| ensures a[..i + 1] == b[..i + 1] <==> s[..i] == t[..i] {
      assert a[..i + 1] == [a[0]] + s[..i] && b[..i + 1] == [b[0]] + t[..i];
      assert a[..i + 1][1..] == s[..i] && b[..i + 1][1..] == t[..i];
    }
    if Below(s, t) && !(|s| < |t| && t[..|s|] == s) {
      var i :| 0 <= i < |s| && i < |t| && s[..i] == t[..i] && s[i] < t[i];
      assert a[..i + 1] == b[..i + 1] && a[i + 1] < b[i + 1];
    }
    if Below(a, b) && !(|a| < |b| && b[..|a|] == a) {
      var i :| 0 <= i < |a| && i < |b| && a[..i] == b[..i] && a[i] < b[i];
      assert s[..i - 1] == t[..i - 1] && s[i - 1] < t[i - 1];
    }
  }

  lemma {:induction false} BeforeTotal(a: Text, b: Text)
    ensures Before(a, b) || a == b || Before(b, a)
    ensures !(Before(a, b) && Before(b, a))
    ensures !Before(a, a)
  {
    if a != [] {
      BeforeTotal(a[1..], a[1..]);
    }
    if a != [] && b != [] {
      BeforeTotal(a[1..], b[1..]);
      if a[0] == b[0] && a[1..] == b[1..] {
        assert a == [a[0]] + a[1..] == b;
      }
    }
  }

  lemma {:induction false} BeforeTransitive(a: Text, b: Text, c: Text)
    requires Before(a, b) && Before(b, c)
    ensures Before(a, c)
  {
    if a != [] && a[0] == b[0] == c[0] {
      BeforeTransitive(a[1..], b[1..], c[1..]);
    }
  }

  function Insert(f: Field, fs: seq<Field>): seq<Field> {
    if fs == [] || Before(f.key, fs[0].key) then [f] + fs else [fs[0]] + Insert(f, fs[1..])
  }

  function SortFields(fs: seq<Field>): (gs: seq<Field>)
    ensures |gs| == |fs|
    ensures forall f :: f in gs <==> f in fs
    ensures Distinct(fs) ==> Increasing(gs)
  {
    if fs == [] then
      []
    else
      var tail := SortFields(fs[1..]);
      InsertMembers(fs[0], tail);
      assert Distinct(fs) ==> Increasing(Insert(fs[0], tail)) by {
        if Distinct(fs) {
          forall i | 0 <= i < |tail| ensures tail[i].key != fs[0].key {
            assert tail[i] in fs[1..];
          }
          InsertIncreasing(fs[0], tail);
        }
      }
      Insert(fs[0], tail)
  }

  ghost predicate Increasing(fs: seq<Field>) {
    forall i, j | 0 <= i < j < |fs| :: Before(fs[i].key, fs[j].key)
  }

  lemma {:induction false} InsertMembers(f: Field, fs: seq<Field>)
    ensures |Insert(f, fs)| == |fs| + 1
    ensures forall g :: g in Insert(f, fs) <==> g == f || g in fs
  {
    if fs != [] && !Before(f.key, fs[0].key) {
      InsertMembers(f, fs[1..]);
      assert fs == [fs[0]] + fs[1..];
    }
  }

  lemma {:induction false} InsertIncreasing(f: Field, fs: seq<Field>)
    requires Increasing(fs)
    requires forall i | 0 <= i < |fs| :: fs[i].key != f.key
    ensures Increasing(Insert(f, fs))
  {
    if fs == [] {
    } else if Before(f.key, fs[0].key) {
      forall j | 0 < j < |fs| ensures Before(f.key, fs[j].key) {
        BeforeTransitive(f.key, fs[0].key, fs[j].key);
      }
    } else {
      BeforeTotal(f.key, fs[0].key);
      InsertIncreasing(f, fs[1..]);
      InsertMembers(f, fs[1..]);
      var rest := Insert(f, fs[1..]);
      forall j | 0 <= j < |rest| ensures Before(fs[0].key, rest[j].key) {
        assert rest[j] in rest;
      }
    }
  }

  /** An increasing sequence of fields is determined by its set of keys. */
  lemma {:induction false} IncreasingKeysEqual(fs: seq<Field>, gs: seq<Field>)
    requires Increasing(fs) && Increasing(gs)
    requires forall i | 0 <= i < |fs| :: HasKey(gs, fs[i].key)
    requires forall j | 0 <= j < |gs| :: HasKey(fs, gs[j].key)
    ensures |fs| == |gs|
    ensures forall i | 0 <= i < |fs| :: fs[i].key == gs[i].key
  {
    assert fs != [] ==> HasKey(gs, fs[0].key);
    assert gs != [] ==> HasKey(fs, gs[0].key);
    if fs != [] && gs != [] {
      var i :| 0 <= i < |fs| && fs[i].key == gs[0].key;
      var j :| 0 <= j < |gs| && gs[j].key == fs[0].key;
      BeforeTotal(fs[0].key, gs[0].key);
      assert fs[0].key == gs[0].key;
      TailKeys(fs, gs);
      TailKeys(gs, fs);
      IncreasingKeysEqual(fs[1..], gs[1..]);
      forall k | 0 <= k < |fs| ensures fs[k].key == gs[k].key {
        if k > 0 {
          assert fs[1..][k - 1].key == gs[1..][k - 1].key;
        }
      }
    }
  }

  lemma TailKeys(fs: seq<Field>, gs: seq<Field>)
    requires Increasing(fs) && fs != [] && gs != [] && fs[0].key == gs[0].key
    requires forall i | 0 <= i < |fs| :: HasKey(gs, fs[i].key)
    ensures forall i | 0 <= i < |fs[1..]| :: HasKey(gs[1..], fs[1..][i].key)
  {
    forall i | 0 <= i < |fs[1..]| ensures HasKey(gs[1..], fs[1..][i].key) {
      assert HasKey(gs, fs[i + 1].key);
      var j :| 0 <= j < |gs| && gs[j].key == fs[i + 1].key;
      BeforeTotal(fs[0].key, fs[i + 1].key);
      assert gs[1..][j - 1].key == fs[1..][i].key;
    }
  }
}
