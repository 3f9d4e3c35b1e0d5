/**
 * Decoded JSON values as the Python code sees them after `json.loads`:
 * an object is a dict, kept here as its entries in insertion order.
 */
module Json {
  import opened Wrappers

  datatype Json =
    | JNull                             // None
    | JBool(b: bool)                    // True / False
    | JInt(i: int)                      // int
    | JFloat(f: real)                   // float
    | JStr(s: string)                   // str
    | JList(items: seq<Json>)           // list
    | JObj(fields: seq<(string, Json)>) // dict, entries in insertion order

  type Fields = seq<(string, Json)>

  /** Python truthiness: what `if v` and `not v` test. */
  predicate Truthy(v: Json)
    ensures !Truthy(v) <==>
      v == JNull || v == JBool(false) || v == JInt(0) || v == JFloat(0.0) || v == JStr("") || v == JList([]) || v == JObj([])
  {
    match v
    case JNull => false
    case JBool(b) => b
    case JInt(i) => i != 0
    case JFloat(f) => f != 0.0
    case JStr(s) => s != ""
    case JList(xs) => xs != []
    case JObj(fs) => fs != []
  }

  /** The keys of a dict, as a set. */
  ghost function KeySet(fs: Fields): set<string> {
    set i | 0 <= i < |fs| :: fs[i].0
  }

  /** A dict never holds the same key twice. */
  ghost predicate DistinctKeys(fs: Fields) {
    forall i, j :: 0 <= i < j < |fs| ==> fs[i].0 != fs[j].0
  }

  /** `list(d.keys())` */
  function KeysOf(fs: Fields): (ks: seq<string>)
    ensures |ks| == |fs|
    ensures (set k | k in ks) == KeySet(fs)
    ensures DistinctKeys(fs) ==> forall i, j :: 0 <= i < j < |ks| ==> ks[i] != ks[j]
  {
    var ks := seq(|fs|, i requires 0 <= i < |fs| => fs[i].0);
    assert (set k | k in ks) == KeySet(fs) by {
      forall x | x in KeySet(fs) ensures x in ks {
        var i :| 0 <= i < |fs| && fs[i].0 == x;
        assert ks[i] == x;
      }
    }
    ks
  }

  lemma KeysOfCons(e: (string, Json), fs: Fields)
    ensures KeysOf([e] + fs) == [e.0] + KeysOf(fs)
  {
    var l, r := KeysOf([e] + fs), [e.0] + KeysOf(fs);
    assert |l| == |r|;
    forall i | 0 <= i < |l| ensures l[i] == r[i] {
      if i > 0 { assert ([e] + fs)[i] == fs[i - 1]; }
    }
  }

  lemma KeysOfSnoc(fs: Fields, e: (string, Json))
    ensures KeysOf(fs + [e]) == KeysOf(fs) + [e.0]
  {
    var l, r := KeysOf(fs + [e]), KeysOf(fs) + [e.0];
    assert |l| == |r|;
    forall i | 0 <= i < |l| ensures l[i] == r[i] {
      if i < |fs| { assert (fs + [e])[i] == fs[i]; }
    }
  }

  /** `[d[k] for k in d]`: the values of a dict in key order. */
  function ValuesOf(fs: Fields): (vs: seq<Json>)
    ensures |vs| == |fs|
    ensures DistinctKeys(fs) ==> forall i :: 0 <= i < |fs| ==> Lookup(fs, fs[i].0) == Some(vs[i])
  {
    LookupEntries(fs);
    seq(|fs|, i requires 0 <= i < |fs| => fs[i].1)
  }

  /** `d[k]` when `k in d`, and None when it is not. */
  function Lookup(fs: Fields, k: string): (r: Option<Json>)
    ensures r.None? <==> k !in KeySet(fs)
    ensures r.Some? ==> exists i :: 0 <= i < |fs| && fs[i] == (k, r.value)
  {
    if fs == [] then None
    else if fs[0].0 == k then Some(fs[0].1)
    else
      var r := Lookup(fs[1..], k);
      KeySetCons(fs);
      assert r.Some? ==> exists i :: 0 <= i < |fs| && fs[i] == (k, r.value) by {
        if r.Some? {
          var i :| 0 <= i < |fs[1..]| && fs[1..][i] == (k, r.value);
          assert fs[i + 1] == (k, r.value);
        }
      }
      r
  }

  /** In a dict with distinct keys, looking up the key of an entry gives that entry's value. */
  lemma {:induction false} LookupEntries(fs: Fields)
    ensures DistinctKeys(fs) ==> forall i :: 0 <= i < |fs| ==> Lookup(fs, fs[i].0) == Some(fs[i].1)
  {
    if fs != [] && DistinctKeys(fs) {
      var tail := fs[1..];
      assert DistinctKeys(tail) by {
        forall i, j | 0 <= i < j < |tail| ensures tail[i].0 != tail[j].0 {
          assert tail[i] == fs[i + 1] && tail[j] == fs[j + 1];
        }
      }
      LookupEntries(tail);
      forall i | 0 <= i < |fs| ensures Lookup(fs, fs[i].0) == Some(fs[i].1) {
        if i > 0 {
          assert fs[i] == tail[i - 1];
        }
      }
    }
  }

  /** `d[k] = v`: overwrite the value of an existing key in place, or append a new entry. */
  function Put(fs: Fields, k: string, v: Json): (r: Fields)
    ensures KeySet(r) == KeySet(fs) + {k}
    ensures DistinctKeys(fs) ==> DistinctKeys(r)
    ensures forall j :: 0 <= j < |r| ==> r[j] == (k, v) || r[j] in fs
  {
    if fs == [] then
      assert [(k, v)][0].0 == k;
      [(k, v)]
    else if fs[0].0 == k then
      KeySetCons(fs);
      KeySetCons([(k, v)] + fs[1..]);
      [(k, v)] + fs[1..]
    else
      var rest := Put(fs[1..], k, v);
      assert KeySet(fs) == {fs[0].0} + KeySet(fs[1..]) by { KeySetCons(fs); }
      assert KeySet([fs[0]] + rest) == {fs[0].0} + KeySet(rest) by { KeySetCons([fs[0]] + rest); }
      [fs[0]] + rest
  }

  /** After `d[k] = v`, `d[k]` is `v` and every other key reads as before. */
  lemma {:induction false} PutLookup(fs: Fields, k: string, v: Json)
    ensures Lookup(Put(fs, k, v), k) == Some(v)
    ensures forall k' :: k' != k ==> Lookup(Put(fs, k, v), k') == Lookup(fs, k')
  {
    if fs != [] {
      var r := Put(fs, k, v);
      if fs[0].0 == k {
        assert r[1..] == fs[1..];
      } else {
        PutLookup(fs[1..], k, v);
        assert r[0] == fs[0] && r[1..] == Put(fs[1..], k, v);
      }
    }
  }

  /** Overwriting a key that is already present leaves every key where it was. */
  lemma {:induction false} PutExisting(fs: Fields, k: string, v: Json)
    requires k in KeySet(fs)
    ensures KeysOf(Put(fs, k, v)) == KeysOf(fs)
  {
    KeySetCons(fs);
    assert fs == [fs[0]] + fs[1..];
    KeysOfCons(fs[0], fs[1..]);
    if fs[0].0 == k {
      KeysOfCons((k, v), fs[1..]);
    } else {
      PutExisting(fs[1..], k, v);
      KeysOfCons(fs[0], Put(fs[1..], k, v));
    }
  }

  lemma KeySetCons(fs: Fields)
    requires fs != []
    ensures KeySet(fs) == {fs[0].0} + KeySet(fs[1..])
  {
    forall x | x in KeySet(fs) ensures x in {fs[0].0} + KeySet(fs[1..]) {
      var i :| 0 <= i < |fs| && fs[i].0 == x;
      if i > 0 { assert fs[1..][i - 1].0 == x; }
    }
    forall x | x in KeySet(fs[1..]) ensures x in KeySet(fs) {
      var i :| 0 <= i < |fs[1..]| && fs[1..][i].0 == x;
      assert fs[i + 1].0 == x;
    }
  }

  /**
   * `dict(items)`: a key keeps the position of its first occurrence in `items`
   * and takes the value of its last one.
   */
  function DictOf(items: Fields): (r: Fields)
    ensures DistinctKeys(r)
    ensures KeySet(r) == KeySet(items)
    ensures forall j :: 0 <= j < |r| ==> r[j] in items
  {
    if items == [] then []
    else
      var n := |items| - 1;
      var prefix := DictOf(items[..n]);
      assert KeySet(items) == KeySet(items[..n]) + {items[n].0} by {
        forall x | x in KeySet(items) ensures x in KeySet(items[..n]) + {items[n].0} {
          var i :| 0 <= i < |items| && items[i].0 == x;
          if i < n { assert items[..n][i].0 == x; }
        }
      }
      Put(prefix, items[n].0, items[n].1)
  }

  /** A dict that already has distinct keys is rebuilt unchanged by `dict(d.items())`. */
  lemma {:induction false} DictOfDistinct(items: Fields)
    requires DistinctKeys(items)
    ensures DictOf(items) == items
  {
    if items != [] {
      var n := |items| - 1;
      DictOfDistinct(items[..n]);
      assert items[n].0 !in KeySet(items[..n]);
      PutFresh(items[..n], items[n].0, items[n].1);
      assert items[..n] + [items[n]] == items;
    }
  }

  /** The value carried by the last occurrence of `k` among `items`, if any. */
  function LastValue(items: Fields, k: string): Option<Json> {
    if items == [] then None
    else if items[|items| - 1].0 == k then Some(items[|items| - 1].1)
    else LastValue(items[..|items| - 1], k)
  }

  /** The keys in the order of their first occurrence, each once. */
  function FirstOccurrences(ks: seq<string>): seq<string> {
    if ks == [] then []
    else
      var n := |ks| - 1;
      FirstOccurrences(ks[..n]) + (if ks[n] in ks[..n] then [] else [ks[n]])
  }

  /** In `dict(items)` every key reads as the value of its last occurrence in `items`. */
  lemma {:induction false} DictOfLookup(items: Fields, k: string)
    ensures Lookup(DictOf(items), k) == LastValue(items, k)
  {
    if items != [] {
      var n := |items| - 1;
      DictOfLookup(items[..n], k);
      PutLookup(DictOf(items[..n]), items[n].0, items[n].1);
    }
  }

  /** `dict(items)` lists its keys in the order in which they first occur in `items`. */
  lemma {:induction false} DictOfOrder(items: Fields)
    ensures KeysOf(DictOf(items)) == FirstOccurrences(KeysOf(items))
  {
    if items != [] {
      var n := |items| - 1;
      var prefix, k := DictOf(items[..n]), items[n].0;
      DictOfOrder(items[..n]);
      var ks := KeysOf(items);
      assert ks[..n] == KeysOf(items[..n]) && ks[n] == k;
      assert k in ks[..n] <==> k in KeySet(prefix) by {
        assert k in ks[..n] <==> k in (set x | x in KeysOf(items[..n]));
      }
      if k in KeySet(prefix) {
        PutExisting(prefix, k, items[n].1);
      } else {
        PutFresh(prefix, k, items[n].1);
        KeysOfSnoc(prefix, (k, items[n].1));
      }
    }
  }

  /** Putting a key that is not yet present appends it. */
  lemma {:induction false} PutFresh(fs: Fields, k: string, v: Json)
    requires k !in KeySet(fs)
    ensures Put(fs, k, v) == fs + [(k, v)]
  {
    if fs != [] {
      KeySetCons(fs);
      PutFresh(fs[1..], k, v);
      assert [fs[0]] + (fs[1..] + [(k, v)]) == fs + [(k, v)];
    }
  }

  /** The text `str(v)` gives of a list; elements are rendered as `repr` renders them. */
  function Repr(v: Json): (r: string)
    ensures v.JStr? ==> |r| == |v.s| + 2 && r[0] == r[|r| - 1] == '\'' && r[1..|r| - 1] == v.s
    ensures v.JList? ==> 2 <= |r| && r[0] == '[' && r[|r| - 1] == ']'
    ensures v.JObj? ==> 2 <= |r| && r[0] == '{' && r[|r| - 1] == '}'
  {
    match v
    case JNull => "None"
    case JBool(b) => if b then "True" else "False"
    case JInt(i) => IntText(i)
    case JFloat(f) => FloatText(f)
    case JStr(s) => "'" + s + "'"
    case JList(xs) => "[" + Join(seq(|xs|, i requires 0 <= i < |xs| => Repr(xs[i]))) + "]"
    case JObj(fs) => "{" + Join(seq(|fs|, i requires 0 <= i < |fs| => "'" + fs[i].0 + "': " + Repr(fs[i].1))) + "}"
  }

  /** `", ".join(parts)` */
  function Join(parts: seq<string>): string {
    if parts == [] then ""
    else if |parts| == 1 then parts[0]
    else parts[0] + ", " + Join(parts[1..])
  }

  function DigitChar(d: nat): char
    requires d < 10
  {
    "0123456789"[d]
  }

  function NatText(n: nat): string {
    if n < 10 then [DigitChar(n)] else NatText(n / 10) + [DigitChar(n % 10)]
  }

  function IntText(i: int): string {
    if i < 0 then "-" + NatText(-i) else NatText(i)
  }

  /** Up to `k` decimal digits of a fraction in [0, 1), trailing zeros dropped. */
  function FracDigits(x: real, k: nat): string
    requires 0.0 <= x < 1.0
    decreases k
  {
    if k == 0 || x == 0.0 then ""
    else
      var d := (x * 10.0).Floor;
      assert 0 <= d < 10;
      [DigitChar(d)] + FracDigits(x * 10.0 - d as real, k - 1)
  }

  /** A float as Python prints it in positional notation: `1.0`, `-2.5`, `0.01`. */
  function FloatText(f: real): string {
    if f < 0.0 then "-" + MagnitudeText(-f) else MagnitudeText(f)
  }

  function MagnitudeText(f: real): string
    requires f >= 0.0
  {
    var whole := f.Floor;
    var frac := FracDigits(f - whole as real, 17);
    NatText(whole) + "." + (if frac == "" then "0" else frac)
  }
}
