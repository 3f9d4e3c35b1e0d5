/**
 * `flatten`: a nested dict becomes a single-level dict whose keys are the
 * paths of the nested keys joined with "__"; list values become their text.
 */
module Flattener {
  import opened Json

  const Sep: string := "__"

  /** `parent_key + sep + k if parent_key else k` */
  function JoinKey(parent: string, k: string): (r: string)
    ensures parent == "" ==> r == k
    ensures parent != "" ==>
      && |r| == |parent| + |Sep| + |k|
      && r[..|parent|] == parent && r[|parent|..|parent| + |Sep|] == Sep && r[|parent| + |Sep|..] == k
  {
    if parent == "" then k else parent + Sep + k
  }

  /** The key of a nested path, built one level at a time as `flatten` builds it. */
  function JoinPath(parent: string, ps: seq<string>): string
    decreases |ps|
  {
    if ps == [] then parent else JoinPath(JoinKey(parent, ps[0]), ps[1..])
  }

  /** How a non-mapping value is stored: `str(v) if type(v) is list else v`. */
  function Leaf(v: Json): (r: Json)
    requires !v.JObj?
    ensures !r.JObj? && !r.JList?
    ensures !v.JList? ==> r == v
    ensures v.JList? ==> r.JStr?
  {
    if v.JList? then JStr(Repr(v)) else v
  }

  /** No value is a mapping and no value is a list. */
  ghost predicate Flat(fs: Fields) {
    forall i :: 0 <= i < |fs| ==> !fs[i].1.JObj? && !fs[i].1.JList?
  }

  /** `flatten(d, parent_key)` */
  function Flatten(d: Fields, parent: string := ""): (r: Fields)
    ensures Flat(r)
    decreases JObj(d), 2
  {
    DictOf(Items(d, parent, 0))
  }

  /** The `items` list the loop of `flatten` accumulates from entry `i` on. */
  function Items(d: Fields, parent: string, i: nat): (r: Fields)
    requires i <= |d|
    ensures Flat(r)
    decreases JObj(d), 1, |d| - i
  {
    if i == |d| then [] else Chunk(d, parent, i) + Items(d, parent, i + 1)
  }

  /** What the loop adds for entry `i`: the flattened sub-dict, or one entry. */
  function Chunk(d: Fields, parent: string, i: nat): (r: Fields)
    requires i < |d|
    ensures Flat(r)
    decreases JObj(d), 0
  {
    var key := JoinKey(parent, d[i].0);
    match d[i].1
    case JObj(sub) => Flatten(sub, key)
    case v => [(key, Leaf(v))]
  }

  /** The entry `d[j]` starts path `ps`, which ends at the non-mapping value `v`. */
  ghost predicate LeafVia(d: Fields, j: nat, ps: seq<string>, v: Json)
    requires j < |d|
    decreases JObj(d), 0
  {
    && |ps| > 0
    && d[j].0 == ps[0]
    && match d[j].1
       case JObj(sub) => LeafAt(sub, ps[1..], v)
       case w => |ps| == 1 && w == v
  }

  /** Following the keys `ps` through nested dicts from `d` reaches the non-mapping value `v`. */
  ghost predicate LeafAt(d: Fields, ps: seq<string>, v: Json)
    decreases JObj(d), 1
  {
    !v.JObj? && exists j: nat :: j < |d| && LeafVia(d, j, ps, v)
  }

  /** The entry through which a leaf path starts. */
  lemma LeafEntry(d: Fields, ps: seq<string>, v: Json) returns (j: nat)
    requires LeafAt(d, ps, v)
    ensures j < |d| && LeafVia(d, j, ps, v)
  {
    j :| j < |d| && LeafVia(d, j, ps, v);
  }

  lemma KeySetAppend(a: Fields, b: Fields)
    ensures KeySet(a + b) == KeySet(a) + KeySet(b)
  {
    forall x | x in KeySet(a + b) ensures x in KeySet(a) + KeySet(b) {
      var i :| 0 <= i < |a + b| && (a + b)[i].0 == x;
      if i >= |a| { assert b[i - |a|].0 == x; } else { assert a[i].0 == x; }
    }
    forall x | x in KeySet(a) ensures x in KeySet(a + b) {
      var i :| 0 <= i < |a| && a[i].0 == x;
      assert (a + b)[i].0 == x;
    }
    forall x | x in KeySet(b) ensures x in KeySet(a + b) {
      var i :| 0 <= i < |b| && b[i].0 == x;
      assert (a + b)[i + |a|].0 == x;
    }
  }

  /** Every entry of `items` from `i` on comes from a leaf below `d[j]` for some `j >= i`. */
  lemma {:induction false} ItemSource(d: Fields, parent: string, i: nat, m: nat)
      returns (j: nat, ps: seq<string>, v: Json)
    requires i <= |d| && m < |Items(d, parent, i)|
    ensures i <= j < |d| && !v.JObj? && LeafVia(d, j, ps, v)
    ensures Items(d, parent, i)[m] == (JoinPath(parent, ps), Leaf(v))
    decreases JObj(d), |d| - i, 1
  {
    var chunk, rest := Chunk(d, parent, i), Items(d, parent, i + 1);
    assert Items(d, parent, i) == chunk + rest;
    if m < |chunk| {
      j := i;
      ps, v := ChunkSource(d, parent, i, m);
    } else {
      j, ps, v := ItemSource(d, parent, i + 1, m - |chunk|);
    }
  }

  /** Every entry of the chunk of entry `i` comes from a leaf below `d[i]`. */
  lemma {:induction false} ChunkSource(d: Fields, parent: string, i: nat, m: nat)
      returns (ps: seq<string>, v: Json)
    requires i < |d| && m < |Chunk(d, parent, i)|
    ensures !v.JObj? && LeafVia(d, i, ps, v)
    ensures Chunk(d, parent, i)[m] == (JoinPath(parent, ps), Leaf(v))
    decreases JObj(d), |d| - i, 0
  {
    var key := JoinKey(parent, d[i].0);
    match d[i].1
    case JObj(sub) =>
      var chunk := Chunk(d, parent, i);
      assert chunk == DictOf(Items(sub, key, 0));
      var m' :| 0 <= m' < |Items(sub, key, 0)| && Items(sub, key, 0)[m'] == chunk[m];
      var j', ps', v' := ItemSource(sub, key, 0, m');
      ps, v := [d[i].0] + ps', v';
      assert ps[1..] == ps';
      assert LeafAt(sub, ps[1..], v);
    case w =>
      ps, v := [d[i].0], w;
      assert JoinPath(parent, ps) == JoinPath(key, []);
  }

  /** Every leaf below `d[j]`, `j >= i`, contributes its joined path as a key. */
  lemma {:induction false} LeafKeyPresent(d: Fields, parent: string, i: nat, j: nat, ps: seq<string>, v: Json)
    requires i <= j < |d| && LeafVia(d, j, ps, v)
    ensures JoinPath(parent, ps) in KeySet(Items(d, parent, i))
    decreases JObj(d), |d| - i, 1
  {
    var chunk, rest := Chunk(d, parent, i), Items(d, parent, i + 1);
    assert Items(d, parent, i) == chunk + rest;
    KeySetAppend(chunk, rest);
    if j > i {
      LeafKeyPresent(d, parent, i + 1, j, ps, v);
    } else {
      LeafKeyInChunk(d, parent, i, ps, v);
    }
  }

  /** A leaf below `d[i]` contributes its joined path to the chunk of entry `i`. */
  lemma {:induction false} LeafKeyInChunk(d: Fields, parent: string, i: nat, ps: seq<string>, v: Json)
    requires i < |d| && LeafVia(d, i, ps, v)
    ensures JoinPath(parent, ps) in KeySet(Chunk(d, parent, i))
    decreases JObj(d), |d| - i, 0
  {
    var key := JoinKey(parent, d[i].0);
    assert JoinPath(parent, ps) == JoinPath(key, ps[1..]);
    match d[i].1
    case JObj(sub) =>
      assert Chunk(d, parent, i) == Flatten(sub, key);
      assert LeafAt(sub, ps[1..], v);
      var j': nat :| j' < |sub| && LeafVia(sub, j', ps[1..], v);
      LeafKeyPresent(sub, key, 0, j', ps[1..], v);
      assert KeySet(Flatten(sub, key)) == KeySet(Items(sub, key, 0));
    case w =>
      assert ps[1..] == [];
      assert Chunk(d, parent, i)[0].0 == key;
  }

  /** Every leaf's "__"-joined path is a key of `flatten(d)`. */
  lemma LeafKeyFlattened(d: Fields, parent: string, ps: seq<string>, v: Json)
    requires LeafAt(d, ps, v)
    ensures JoinPath(parent, ps) in KeySet(Flatten(d, parent))
  {
    var j := LeafEntry(d, ps, v);
    LeafKeyPresent(d, parent, 0, j, ps, v);
  }

  /**
   * Every entry of `flatten(d)` is a leaf of `d`: its key is the leaf's
   * "__"-joined path and its value the leaf's value with a list turned into text.
   */
  lemma FlattenedEntrySource(d: Fields, parent: string, m: nat) returns (ps: seq<string>, v: Json)
    requires m < |Flatten(d, parent)|
    ensures LeafAt(d, ps, v)
    ensures Flatten(d, parent)[m] == (JoinPath(parent, ps), Leaf(v))
  {
    var r := Flatten(d, parent);
    var m' :| 0 <= m' < |Items(d, parent, 0)| && Items(d, parent, 0)[m'] == r[m];
    var j;
    j, ps, v := ItemSource(d, parent, 0, m');
    assert LeafAt(d, ps, v);
  }

  /** A top-level key with a non-mapping value keeps its own name. */
  lemma TopLevelKeyKept(d: Fields, k: string, v: Json)
    requires (k, v) in d && !v.JObj?
    ensures Lookup(Flatten(d), k).Some?
  {
    var j :| 0 <= j < |d| && d[j] == (k, v);
    assert LeafVia(d, j, [k], v);
    LeafKeyFlattened(d, "", [k], v);
    assert JoinPath("", [k]) == JoinPath(k, []);
  }

  /** A key one level down is named `parent__child`. */
  lemma NestedKeyJoined(d: Fields, k: string, sub: Fields, k2: string, v: Json)
    requires (k, JObj(sub)) in d && k != "" && (k2, v) in sub && !v.JObj?
    ensures Lookup(Flatten(d), k + Sep + k2).Some?
  {
    var j :| 0 <= j < |d| && d[j] == (k, JObj(sub));
    var j2 :| 0 <= j2 < |sub| && sub[j2] == (k2, v);
    assert LeafVia(sub, j2, [k2], v);
    assert [k, k2][1..] == [k2];
    assert LeafVia(d, j, [k, k2], v);
    LeafKeyFlattened(d, "", [k, k2], v);
    assert JoinPath("", [k, k2]) == JoinPath(k, [k2]) == JoinPath(k + Sep + k2, []);
  }

  /** On a dict without nested dicts, the items are the entries with lists turned into text. */
  lemma {:induction false} ItemsShallow(d: Fields, i: nat)
    requires i <= |d|
    requires forall j :: 0 <= j < |d| ==> !d[j].1.JObj?
    ensures Items(d, "", i) == seq(|d| - i, n requires 0 <= n < |d| - i => (d[i + n].0, Leaf(d[i + n].1)))
    decreases |d| - i
  {
    if i < |d| {
      ItemsShallow(d, i + 1);
      match d[i].1
      case JObj(_) =>
      case _ =>
    }
  }

  /** `flatten` of a dict with no nested dicts only turns its lists into text. */
  lemma FlattenShallow(d: Fields)
    requires DistinctKeys(d)
    requires forall j :: 0 <= j < |d| ==> !d[j].1.JObj?
    ensures Flatten(d) == seq(|d|, n requires 0 <= n < |d| => (d[n].0, Leaf(d[n].1)))
  {
    ShallowItemsKept(d);
    ItemsShallow(d, 0);
  }

  /** On a dict without nested dicts, `dict(items)` keeps the items as they are. */
  lemma ShallowItemsKept(d: Fields)
    requires DistinctKeys(d)
    requires forall j :: 0 <= j < |d| ==> !d[j].1.JObj?
    ensures DictOf(Items(d, "", 0)) == Items(d, "", 0)
  {
    ItemsShallowDistinct(d);
    DictOfDistinct(Items(d, "", 0));
  }

  /** On a dict without nested dicts, the items keep the dict's distinct keys. */
  lemma ItemsShallowDistinct(d: Fields)
    requires DistinctKeys(d)
    requires forall j :: 0 <= j < |d| ==> !d[j].1.JObj?
    ensures DistinctKeys(Items(d, "", 0))
  {
    ItemsShallow(d, 0);
    var items := Items(d, "", 0);
    forall a, b | 0 <= a < b < |items| ensures items[a].0 != items[b].0 {
      assert items[a].0 == d[a].0 && items[b].0 == d[b].0;
    }
  }

  /** A dict that is already flat comes back unchanged. */
  lemma FlattenFlatIdentity(d: Fields)
    requires DistinctKeys(d) && Flat(d)
    ensures Flatten(d) == d
  {
    FlattenShallow(d);
  }

  /** Flattening the output of `flatten` changes nothing. */
  lemma FlattenIdempotent(d: Fields)
    ensures Flatten(Flatten(d)) == Flatten(d)
  {
    assert DistinctKeys(Flatten(d));
    FlattenFlatIdentity(Flatten(d));
  }

  /**
   * Two paths that join to the same key collide: the key keeps the position
   * of its first occurrence and the value of its last one.
   */
  lemma FlattenCollision()
    ensures Flatten([("a__b", JInt(1)), ("a", JObj([("b", JInt(2))]))]) == [("a__b", JInt(2))]
  {
    var sub := [("b", JInt(2))];
    var d := [("a__b", JInt(1)), ("a", JObj(sub))];
    assert JoinKey("a", "b") == "a__b";
    assert Items(sub, "a", 0) == [("a__b", JInt(2))];
    assert Flatten(sub, "a") == [("a__b", JInt(2))] by {
      DictOfDistinct([("a__b", JInt(2))]);
    }
    assert Chunk(d, "", 0) == [("a__b", JInt(1))];
    assert Chunk(d, "", 1) == [("a__b", JInt(2))];
    assert Items(d, "", 2) == [];
    assert Items(d, "", 1) == [("a__b", JInt(2))];
    assert Items(d, "", 0) == [("a__b", JInt(1)), ("a__b", JInt(2))];
    var items := Items(d, "", 0);
    assert items[..1] == [("a__b", JInt(1))] && DictOf(items[..1]) == items[..1] by {
      DictOfDistinct(items[..1]);
    }
  }
}
