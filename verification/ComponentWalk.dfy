/** Collecting storage backend manifests out of arbitrarily nested component manifests. */
module ComponentWalk {
  import opened Sequences

  /**
    A manifest value; a dictionary keeps its insertion order. A number, a bool or None is the text of
    `str(value or "")`.
    */
  datatype Value =
    | Text(s: string)
    | Scalar(text: string)
    | Dict(entries: seq<Entry>)
    | Items(items: seq<Value>)

  datatype Entry = Entry(key: string, value: Value)

  const BACKEND_SCHEMA := "agent-core-storage-backend/v1"

  function Get(entries: seq<Entry>, key: string): Value {
    if entries == [] then Scalar("")
    else if entries[0].key == key then entries[0].value
    else Get(entries[1..], key)
  }

  predicate IsBackend(v: Value) {
    v.Dict? && Get(v.entries, "schema_version") == Text(BACKEND_SCHEMA)
  }

  /** `str(manifest.get(key) or "")`; show is that text of a dictionary, a list or a tuple. */
  function Field(show: Value -> string, v: Value, key: string): string
    requires v.Dict?
  {
    var f := Get(v.entries, key);
    match f
    case Text(s) => s
    case Scalar(text) => text
    case _ => show(f)
  }

  type Key = (string, string, string, string, string)

  function KeyOf(show: Value -> string, v: Value): Key
    requires v.Dict?
  {
    (Field(show, v, "role"), Field(show, v, "kind"), Field(show, v, "name"), Field(show, v, "namespace"),
     Field(show, v, "location"))
  }

  /** The place of the value of a key, which a dictionary holds once. */
  predicate HoldsAt(entries: seq<Entry>, key: string, v: Value, i: nat) {
    i < |entries| && entries[i] == Entry(key, v) && forall j :: 0 <= j < i ==> entries[j].key != key
  }

  lemma {:induction false} GetMeans(entries: seq<Entry>, key: string, v: Value)
    ensures Get(entries, key) == v <==>
            || (exists i :: HoldsAt(entries, key, v, i))
            || (v == Scalar("") && forall i :: 0 <= i < |entries| ==> entries[i].key != key)
  {
    if entries != [] {
      var rest := entries[1..];
      GetMeans(rest, key, v);
      if i: nat :| HoldsAt(rest, key, v, i) && entries[0].key != key {
        assert HoldsAt(entries, key, v, i + 1);
      }
      if i: nat :| HoldsAt(entries, key, v, i) {
        assert i > 0 ==> HoldsAt(rest, key, v, i - 1);
      }
      if entries[0] == Entry(key, v) {
        assert HoldsAt(entries, key, v, 0);
      }
      assert forall i :: 0 <= i < |rest| ==> rest[i] == entries[i + 1];
    }
  }

  /** A backend manifest is a dictionary under the schema of storage backends. */
  lemma BackendMeans(v: Value)
    ensures IsBackend(v) <==>
            v.Dict? && exists i :: HoldsAt(v.entries, "schema_version", Text("agent-core-storage-backend/v1"), i)
  {
    hide Get, HoldsAt;
    if v.Dict? {
      GetMeans(v.entries, "schema_version", Text("agent-core-storage-backend/v1"));
    }
  }

  /** Manifests have one key exactly when role, kind, name, namespace and location read the same. */
  lemma SameKeyMeans(show: Value -> string, v: Value, w: Value)
    requires v.Dict? && w.Dict?
    ensures KeyOf(show, v) == KeyOf(show, w) <==>
            forall key | key in {"role", "kind", "name", "namespace", "location"} ::
              Field(show, v, key) == Field(show, w, key)
    ensures forall key, s, i :: HoldsAt(v.entries, key, Text(s), i) ==> Field(show, v, key) == s
    ensures forall key :: (forall i :: 0 <= i < |v.entries| ==> v.entries[i].key != key) ==> Field(show, v, key) == ""
  {
    forall key, s: string, i | HoldsAt(v.entries, key, Text(s), i) ensures Field(show, v, key) == s {
      GetMeans(v.entries, key, Text(s));
    }
    forall key | forall i :: 0 <= i < |v.entries| ==> v.entries[i].key != key ensures Field(show, v, key) == "" {
      GetMeans(v.entries, key, Scalar(""));
    }
    hide Field;
  }

  /** The backend manifests in a value, in the order a walk meets them; nothing is looked for inside one. */
  function Manifests(v: Value): (r: seq<Value>)
    ensures forall m | m in r :: IsBackend(m)
    decreases v
  {
    if IsBackend(v) then [v]
    else
      match v
      case Dict(entries) => EntryManifests(entries)
      case Items(items) => ItemManifests(items)
      case _ => []
  }

  function EntryManifests(entries: seq<Entry>): (r: seq<Value>)
    ensures forall m | m in r :: IsBackend(m)
    decreases entries
  {
    if entries == [] then [] else Manifests(entries[0].value) + EntryManifests(entries[1..])
  }

  function ItemManifests(items: seq<Value>): (r: seq<Value>)
    ensures forall m | m in r :: IsBackend(m)
    decreases items
  {
    if items == [] then [] else Manifests(items[0]) + ItemManifests(items[1..])
  }

  function Keys(show: Value -> string, vs: seq<Value>): (r: seq<Key>)
    requires forall v | v in vs :: v.Dict?
    ensures |r| == |vs| && forall i :: 0 <= i < |vs| ==> r[i] == KeyOf(show, vs[i])
  {
    seq(|vs|, i requires 0 <= i < |vs| => KeyOf(show, vs[i]))
  }

  /** The elements whose key has not occurred before, found being what was kept so far. */
  function FirstPerKey(show: Value -> string, found: seq<Value>, vs: seq<Value>): (r: seq<Value>)
    requires forall v | v in found + vs :: v.Dict?
    ensures forall v | v in r :: v in found || v in vs
    decreases |vs|
  {
    if vs == [] then found
    else
      assert vs[0] in found + vs && forall v | v in found + [vs[0]] + vs[1..] :: v in found + vs;
      FirstPerKey(show, if KeyOf(show, vs[0]) in Keys(show, found) then found else found + [vs[0]], vs[1..])
  }

  // ----- the walk

  class Extraction {
    const show: Value -> string
    var found: seq<Value>
    var seen: set<Key>

    ghost predicate Valid()
      reads this
    {
      && (forall v | v in found :: v.Dict?)
      && (forall k :: k in seen <==> k in Keys(show, found))
    }

    constructor (show: Value -> string)
      ensures Valid() && found == [] && this.show == show
    {
      this.show := show;
      found, seen := [], {};
    }

    method Add(m: Value)
      requires Valid() && m.Dict?
      modifies this
      ensures Valid() && found == FirstPerKey(show, old(found), [m])
    {
      var key := KeyOf(show, m);
      if key in seen {
        return;
      }
      assert Keys(show, found + [m]) == Keys(show, found) + [key];
      seen := seen + {key};
      found := found + [m];
    }

    method Walk(v: Value)
      requires Valid()
      modifies this
      ensures Valid() && found == FirstPerKey(show, old(found), Manifests(v))
      decreases v, 0
    {
      if IsBackend(v) {
        Add(v);
        return;
      }
      match v {
        case Dict(entries) => WalkEntries(entries);
        case Items(items) => WalkItems(items);
        case _ =>
      }
    }

    method WalkEntries(entries: seq<Entry>)
      requires Valid()
      modifies this
      ensures Valid() && found == FirstPerKey(show, old(found), EntryManifests(entries))
      decreases entries, 1
    {
      if entries != [] {
        Walk(entries[0].value);
        FirstPerKeyAppend(show, old(found), Manifests(entries[0].value), EntryManifests(entries[1..]));
        WalkEntries(entries[1..]);
      }
    }

    method WalkItems(items: seq<Value>)
      requires Valid()
      modifies this
      ensures Valid() && found == FirstPerKey(show, old(found), ItemManifests(items))
      decreases items, 1
    {
      if items != [] {
        Walk(items[0]);
        FirstPerKeyAppend(show, old(found), Manifests(items[0]), ItemManifests(items[1..]));
        WalkItems(items[1..]);
      }
    }
  }

  /** `storage_backend_manifests_from_components` */
  method FromComponents(show: Value -> string, components: seq<Value>) returns (found: seq<Value>)
    ensures found == FirstPerKey(show, [], ItemManifests(components))
  {
    var e := new Extraction(show);
    e.WalkItems(components);
    found := e.found;
  }

  function Extracted(show: Value -> string, components: seq<Value>): seq<Value> {
    FirstPerKey(show, [], ItemManifests(components))
  }

  lemma {:induction false} FirstPerKeyAppend(show: Value -> string, found: seq<Value>, xs: seq<Value>, ys: seq<Value>)
    requires forall v | v in found :: v.Dict?
    requires forall v | v in xs + ys :: v.Dict?
    ensures FirstPerKey(show, found, xs + ys) == FirstPerKey(show, FirstPerKey(show, found, xs), ys)
    decreases |xs|
  {
    hide KeyOf;
    if xs == [] {
      assert xs + ys == ys;
    } else {
      assert (xs + ys)[0] == xs[0] && (xs + ys)[1..] == xs[1..] + ys;
      var next := if KeyOf(show, xs[0]) in Keys(show, found) then found else found + [xs[0]];
      FirstPerKeyAppend(show, next, xs[1..], ys);
    }
  }

  // ----- what the walk reaches

  /** The values right inside a dictionary, a list or a tuple. */
  function Children(v: Value): seq<Value> {
    match v
    case Dict(entries) => seq(|entries|, i requires 0 <= i < |entries| => entries[i].value)
    case Items(items) => items
    case _ => []
  }

  /** Following the path from v, and never from inside a backend manifest, leads to m. */
  predicate Reaches(v: Value, path: seq<nat>, m: Value) {
    if path == [] then v == m
    else !IsBackend(v) && path[0] < |Children(v)| && Reaches(Children(v)[path[0]], path[1..], m)
  }

  ghost predicate Reachable(v: Value, m: Value) {
    exists path :: Reaches(v, path, m)
  }

  lemma {:induction false} EntriesAsItems(entries: seq<Entry>)
    ensures EntryManifests(entries) == ItemManifests(Children(Dict(entries)))
  {
    hide Manifests;
    var items := Children(Dict(entries));
    if entries != [] {
      EntriesAsItems(entries[1..]);
      assert items[1..] == Children(Dict(entries[1..]));
    }
  }

  lemma {:induction false} ItemManifestsMembers(items: seq<Value>, m: Value)
    ensures m in ItemManifests(items) <==> exists i :: 0 <= i < |items| && m in Manifests(items[i])
  {
    hide Manifests;
    if items != [] {
      ItemManifestsMembers(items[1..], m);
      if m in ItemManifests(items[1..]) {
        var i :| 0 <= i < |items[1..]| && m in Manifests(items[1..][i]);
        assert items[i + 1] == items[1..][i];
      }
      if i :| 0 <= i < |items| && m in Manifests(items[i]) {
        assert i > 0 ==> items[1..][i - 1] == items[i];
      }
    }
  }

  lemma ManifestsOfChildren(v: Value, m: Value)
    requires !IsBackend(v)
    ensures m in Manifests(v) <==> exists i :: 0 <= i < |Children(v)| && m in Manifests(Children(v)[i])
  {
    ItemManifestsMembers(Children(v), m);
    hide IsBackend, ItemManifests, EntryManifests;
    match v {
      case Dict(entries) => EntriesAsItems(entries);
      case _ =>
    }
  }

  lemma ReachableThroughChild(v: Value, m: Value)
    requires !IsBackend(v) && v != m
    ensures Reachable(v, m) <==> exists i :: 0 <= i < |Children(v)| && Reachable(Children(v)[i], m)
  {
    hide IsBackend, Children;
    if path: seq<nat> :| Reaches(v, path, m) {
      assert Reaches(Children(v)[path[0]], path[1..], m);
    }
    if i :| 0 <= i < |Children(v)| && Reachable(Children(v)[i], m) {
      var rest: seq<nat> :| Reaches(Children(v)[i], rest, m);
      var path: seq<nat> := [i] + rest;
      assert path[1..] == rest;
      assert Reaches(v, path, m);
    }
  }

  lemma ChildIsSmaller(v: Value, i: nat)
    requires i < |Children(v)|
    ensures Children(v)[i] < v
  {
  }

  /** The walk collects exactly the backend manifests that are reachable without passing through another one. */
  lemma {:induction false} WalkCollectsReachable(v: Value, m: Value)
    ensures m in Manifests(v) <==> IsBackend(m) && Reachable(v, m)
    decreases v
  {
    if IsBackend(v) {
      assert Reaches(v, [], v);
    } else if IsBackend(m) {
      forall i | 0 <= i < |Children(v)| ensures m in Manifests(Children(v)[i]) <==> Reachable(Children(v)[i], m) {
        ChildIsSmaller(v, i);
        WalkCollectsReachable(Children(v)[i], m);
      }
      hide Manifests, Reachable, IsBackend, Children;
      ManifestsOfChildren(v, m);
      ReachableThroughChild(v, m);
    }
  }

  /** So every reachable backend manifest is represented, by one with its key, and nothing else is extracted. */
  lemma ExtractionCoversReachable(show: Value -> string, components: seq<Value>)
    ensures var found := Extracted(show, components);
            && (forall m | m in found ::
                  IsBackend(m) && exists i :: 0 <= i < |components| && Reachable(components[i], m))
            && (forall i, m | 0 <= i < |components| && IsBackend(m) && Reachable(components[i], m) ::
                  KeyOf(show, m) in Keys(show, found))
  {
    var all, found := ItemManifests(components), Extracted(show, components);
    ExtractionIsCanonical(show, components);
    hide Extracted, ItemManifests, Reachable, KeyOf;
    assert forall v | v in found :: v in all && IsBackend(v);
    forall m | m in found ensures IsBackend(m) && exists i :: 0 <= i < |components| && Reachable(components[i], m) {
      ItemManifestsMembers(components, m);
      var i :| 0 <= i < |components| && m in Manifests(components[i]);
      WalkCollectsReachable(components[i], m);
    }
    forall i, m | 0 <= i < |components| && IsBackend(m) && Reachable(components[i], m)
      ensures KeyOf(show, m) in Keys(show, found)
    {
      WalkCollectsReachable(components[i], m);
      ItemManifestsMembers(components, m);
      assert m in all;
    }
  }

  // ----- what an extraction is

  ghost predicate DistinctKeys(show: Value -> string, vs: seq<Value>)
    requires forall v | v in vs :: v.Dict?
  {
    forall i, j :: 0 <= i < j < |vs| ==> KeyOf(show, vs[i]) != KeyOf(show, vs[j])
  }

  /** Some earlier or equal place of the whole sequence has this key. */
  lemma {:induction false} FirstPerKeySound(show: Value -> string, found: seq<Value>, vs: seq<Value>)
    requires forall v | v in found + vs :: v.Dict?
    requires DistinctKeys(show, found)
    ensures var r := FirstPerKey(show, found, vs);
            && found <= r && DistinctKeys(show, r)
            && forall v | v in found + vs :: KeyOf(show, v) in Keys(show, r)
    decreases |vs|
  {
    hide KeyOf;
    if vs == [] {
      forall v | v in found + vs ensures KeyOf(show, v) in Keys(show, found) {
        var i :| 0 <= i < |found| && found[i] == v;
        assert Keys(show, found)[i] == KeyOf(show, v);
      }
    } else {
      var x, k := vs[0], KeyOf(show, vs[0]);
      var next := if k in Keys(show, found) then found else found + [x];
      forall i | 0 <= i < |found| ensures KeyOf(show, found[i]) in Keys(show, found) {
        assert Keys(show, found)[i] == KeyOf(show, found[i]);
      }
      assert DistinctKeys(show, next);
      FirstPerKeySound(show, next, vs[1..]);
      var r := FirstPerKey(show, next, vs[1..]);
      forall v | v in found + vs ensures KeyOf(show, v) in Keys(show, r) {
        if v == x && k in Keys(show, found) {
          var i :| 0 <= i < |found| && Keys(show, found)[i] == k;
          assert r[i] == found[i];
          assert Keys(show, r)[i] == k;
        } else {
          assert v in next + vs[1..];
        }
      }
    }
  }

  /** Keeping the first of each key leaves a sequence with distinct keys as it is. */
  lemma {:induction false} FirstPerKeyOfDistinct(show: Value -> string, found: seq<Value>, vs: seq<Value>)
    requires forall v | v in found :: v.Dict?
    requires forall v | v in vs :: v.Dict?
    requires forall v | v in found + vs :: v.Dict?
    requires DistinctKeys(show, found + vs)
    ensures FirstPerKey(show, found, vs) == found + vs
    decreases |vs|
  {
    hide KeyOf;
    if vs == [] {
      assert found + vs == found;
    } else {
      var k := KeyOf(show, vs[0]);
      assert (found + vs)[|found|] == vs[0];
      forall i | 0 <= i < |found| ensures Keys(show, found)[i] != k {
        assert (found + vs)[i] == found[i];
      }
      assert found + vs == found + [vs[0]] + vs[1..];
      FirstPerKeyOfDistinct(show, found + [vs[0]], vs[1..]);
    }
  }

  lemma {:induction false} ManifestsOfBackends(vs: seq<Value>)
    requires forall v | v in vs :: IsBackend(v)
    ensures ItemManifests(vs) == vs
  {
    if vs != [] {
      ManifestsOfBackends(vs[1..]);
      assert Manifests(vs[0]) == [vs[0]];
    }
  }

  /** r keeps, in order, exactly the elements of vs whose key occurs nowhere earlier in vs. */
  ghost predicate KeepsFirsts(show: Value -> string, vs: seq<Value>, r: seq<Value>)
    requires forall v | v in vs :: v.Dict?
  {
    if vs == [] then r == []
    else
      var init, last := vs[..|vs| - 1], vs[|vs| - 1];
      if KeyOf(show, last) in Keys(show, init) then KeepsFirsts(show, init, r)
      else r != [] && r[|r| - 1] == last && KeepsFirsts(show, init, r[..|r| - 1])
  }

  lemma {:induction false} ExtractionKeepsFirsts(show: Value -> string, vs: seq<Value>)
    requires forall v | v in vs :: v.Dict?
    requires forall v | v in [] + vs :: v.Dict?
    ensures KeepsFirsts(show, vs, FirstPerKey(show, [], vs))
    decreases |vs|
  {
    hide KeyOf;
    if vs != [] {
      var init, last := vs[..|vs| - 1], vs[|vs| - 1];
      ExtractionKeepsFirsts(show, init);
      assert vs == init + [last];
      FirstPerKeyAppend(show, [], init, [last]);
      var r := FirstPerKey(show, [], init);
      FirstPerKeySound(show, [], init);
      SameKeys(show, init, r);
      AddLast(show, r, last);
      hide Keys, FirstPerKey;
      if KeyOf(show, last) !in Keys(show, r) {
        assert (r + [last])[..|r|] == r;
      }
    }
  }

  lemma AddLast(show: Value -> string, found: seq<Value>, v: Value)
    requires forall w | w in found + [v] :: w.Dict?
    ensures FirstPerKey(show, found, [v]) == if KeyOf(show, v) in Keys(show, found) then found else found + [v]
  {
    hide KeyOf, Keys;
    assert [v][1..] == [];
  }

  lemma SameKeys(show: Value -> string, vs: seq<Value>, r: seq<Value>)
    requires forall v | v in vs :: v.Dict?
    requires forall v | v in r :: v in vs
    requires forall v | v in vs :: KeyOf(show, v) in Keys(show, r)
    ensures forall k :: k in Keys(show, r) <==> k in Keys(show, vs)
  {
    hide KeyOf;
    forall k ensures k in Keys(show, r) <==> k in Keys(show, vs) {
      if k in Keys(show, r) {
        var i :| 0 <= i < |r| && Keys(show, r)[i] == k;
        assert r[i] in vs;
        var j :| 0 <= j < |vs| && vs[j] == r[i];
        assert Keys(show, vs)[j] == k;
      }
      if k in Keys(show, vs) {
        var i :| 0 <= i < |vs| && Keys(show, vs)[i] == k;
        assert vs[i] in vs;
      }
    }
  }

  /**
    The extraction keeps the first manifest of every key, in the order of the walk: keys are distinct,
    every manifest anywhere in the components has its key among them, and extracting again changes nothing.
    */
  lemma ExtractionIsCanonical(show: Value -> string, components: seq<Value>)
    ensures var all, found := ItemManifests(components), Extracted(show, components);
            && (forall v | v in found :: v in all)
            && KeepsFirsts(show, all, found)
            && DistinctKeys(show, found)
            && (forall v | v in all :: KeyOf(show, v) in Keys(show, found))
            && Extracted(show, found) == found
  {
    hide KeyOf;
    var all, found := ItemManifests(components), Extracted(show, components);
    assert [] + all == all;
    FirstPerKeySound(show, [], all);
    ExtractionKeepsFirsts(show, all);
    assert forall v | v in found :: IsBackend(v);
    ManifestsOfBackends(found);
    assert [] + found == found;
    FirstPerKeyOfDistinct(show, [], found);
  }
}
