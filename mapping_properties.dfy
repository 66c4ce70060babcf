/**
  What the key renaming promises: which keys a renamed dict has and which value each carries
  (the last item renamed to a key wins), lists keep their length and order, anything else is
  returned as it is, renaming reaches every depth, an empty table copies the tree, and the
  string-keyed version agrees with the general one except for the non-string-key error.
  Objects are values here, so the input is never changed by either walk.
*/
module KeyMappingProperties {
  import opened Base
  import opened Assoc
  import opened KeyMapping

  /** The pairs the dict loop sets, in order: each key renamed, each value remapped. */
  function Renamed(v: PyObject, mapping: map<Key, Key>, n: nat): (r: seq<(Key, PyObject)>)
    requires v.Dict? && n <= |v.items|
  {
    seq(n, i requires 0 <= i < n => (Rename(v.items[i].0, mapping), Remap(v.items[i].1, mapping)))
  }

  lemma RenamedPrefix(v: PyObject, mapping: map<Key, Key>, n: nat)
    requires v.Dict? && 0 < n <= |v.items|
    ensures Renamed(v, mapping, n)[..n - 1] == Renamed(v, mapping, n - 1)
    ensures Renamed(v, mapping, n)[n - 1] == (Rename(v.items[n - 1].0, mapping), Remap(v.items[n - 1].1, mapping))
  {
  }

  /** The dict loop is `set_item` of the renamed pairs, one after the other, into a fresh dict. */
  lemma {:induction false} RemapItemsPutAll(v: PyObject, mapping: map<Key, Key>, n: nat)
    requires v.Dict? && n <= |v.items|
    ensures RemapItems(v, mapping, n) == PutAll(Renamed(v, mapping, n))
  {
    if n > 0 {
      RemapItemsPutAll(v, mapping, n - 1);
      RenamedPrefix(v, mapping, n);
    }
  }

  /**
    Every dict key `k` becomes `Rename(k)`: the renamed dict holds exactly the renamed keys,
    each once; on a collision the last write wins, so a key carries the remapped value of the
    last item renamed to it.
  */
  lemma DictRenamed(items: seq<(Key, PyObject)>, mapping: map<Key, Key>, j: nat)
    requires j < |items|
    requires forall i :: j < i < |items| ==> Rename(items[i].0, mapping) != Rename(items[j].0, mapping)
    ensures Remap(Dict(items), mapping).Dict?
    ensures var out := Remap(Dict(items), mapping).items;
      && UniqueKeys(out) && |out| <= |items|
      && (forall k :: HasKey(out, k) <==> exists i :: 0 <= i < |items| && Rename(items[i].0, mapping) == k)
      && Lookup(out, Rename(items[j].0, mapping)) == Some(Remap(items[j].1, mapping))
  {
    var v := Dict(items);
    var pairs := Renamed(v, mapping, |items|);
    DictIsPutAll(items, mapping);
    PutAllLastWins(pairs, j);
    RenamedKeys(v, mapping);
  }

  lemma DictIsPutAll(items: seq<(Key, PyObject)>, mapping: map<Key, Key>)
    ensures Remap(Dict(items), mapping) == Dict(PutAll(Renamed(Dict(items), mapping, |items|)))
  {
    RemapItemsPutAll(Dict(items), mapping, |items|);
  }

  lemma RenamedKeys(v: PyObject, mapping: map<Key, Key>)
    requires v.Dict?
    ensures forall k :: HasKey(Renamed(v, mapping, |v.items|), k) <==>
      exists i :: 0 <= i < |v.items| && Rename(v.items[i].0, mapping) == k
  {
    var pairs := Renamed(v, mapping, |v.items|);
    forall k ensures HasKey(pairs, k) <==> exists i :: 0 <= i < |v.items| && Rename(v.items[i].0, mapping) == k {
      if HasKey(pairs, k) {
        var i :| 0 <= i < |pairs| && pairs[i].0 == k;
        assert Rename(v.items[i].0, mapping) == k;
      }
      if exists i :: 0 <= i < |v.items| && Rename(v.items[i].0, mapping) == k {
        var i :| 0 <= i < |v.items| && Rename(v.items[i].0, mapping) == k;
        assert pairs[i].0 == k;
      }
    }
  }

  /** A list becomes a list of the same length, element by element; anything else stays as it is. */
  lemma ShapeKept(v: PyObject, mapping: map<Key, Key>)
    ensures Remap(v, mapping).Dict? == v.Dict? && Remap(v, mapping).List? == v.List?
    ensures v.Atom? ==> Remap(v, mapping) == v
    ensures v.List? ==> |Remap(v, mapping).elems| == |v.elems|
    ensures v.List? ==> forall i :: 0 <= i < |v.elems| ==> Remap(v, mapping).elems[i] == Remap(v.elems[i], mapping)
  {
    if v.List? {
      RemapElemsPointwise(v, mapping, |v.elems|);
    }
  }

  lemma {:induction false} RemapElemsPointwise(v: PyObject, mapping: map<Key, Key>, n: nat)
    requires v.List? && n <= |v.elems|
    ensures |RemapElems(v, mapping, n)| == n
    ensures forall i :: 0 <= i < n ==> RemapElems(v, mapping, n)[i] == Remap(v.elems[i], mapping)
    decreases n
  {
    if n > 0 {
      RemapElemsPointwise(v, mapping, n - 1);
    }
  }

  /** Reference definition: every key at every depth renamed where it stands. */
  function RenameAll(v: PyObject, mapping: map<Key, Key>): PyObject {
    match v
    case Dict(items) =>
      Dict(seq(|items|, i requires 0 <= i < |items| => (Rename(items[i].0, mapping), RenameAll(items[i].1, mapping))))
    case List(elems) => List(seq(|elems|, i requires 0 <= i < |elems| => RenameAll(elems[i], mapping)))
    case Atom(_) => v
  }

  /** No dict anywhere in `v` has two keys that the table sends to the same key. */
  predicate RenamesApart(v: PyObject, mapping: map<Key, Key>) {
    match v
    case Dict(items) =>
      && (forall i, j :: 0 <= i < j < |items| ==> Rename(items[i].0, mapping) != Rename(items[j].0, mapping))
      && (forall i :: 0 <= i < |items| ==> RenamesApart(items[i].1, mapping))
    case List(elems) => forall i :: 0 <= i < |elems| ==> RenamesApart(elems[i], mapping)
    case Atom(_) => true
  }

  /**
    Renaming reaches every depth, through dicts and lists: without collisions the result is
    the input with every key renamed in place, in the same order.
  */
  lemma {:induction false} RemapIsRenameAll(v: PyObject, mapping: map<Key, Key>)
    requires RenamesApart(v, mapping)
    ensures Remap(v, mapping) == RenameAll(v, mapping)
    decreases v, 2
  {
    match v
    case Dict(_) => DictIsRenameAll(v, mapping);
    case List(_) => ListIsRenameAll(v, mapping);
    case Atom(_) =>
  }

  lemma DictIsRenameAll(v: PyObject, mapping: map<Key, Key>)
    requires v.Dict? && RenamesApart(v, mapping)
    ensures Remap(v, mapping) == RenameAll(v, mapping)
    decreases v, 1
  {
    var pairs := Renamed(v, mapping, |v.items|);
    DictIsPutAll(v.items, mapping);
    RenamedApart(v, mapping);
    PutAllDistinct(pairs);
    RenamedIsRenameAll(v, mapping);
  }

  /** Without collisions, the renamed keys of one dict are all different. */
  lemma RenamedApart(v: PyObject, mapping: map<Key, Key>)
    requires v.Dict? && RenamesApart(v, mapping)
    ensures UniqueKeys(Renamed(v, mapping, |v.items|))
  {
    var pairs := Renamed(v, mapping, |v.items|);
    forall i, j | 0 <= i < j < |pairs| ensures pairs[i].0 != pairs[j].0 {
      assert Rename(v.items[i].0, mapping) != Rename(v.items[j].0, mapping);
    }
  }

  lemma {:induction false} RenamedIsRenameAll(v: PyObject, mapping: map<Key, Key>)
    requires v.Dict? && RenamesApart(v, mapping)
    ensures Renamed(v, mapping, |v.items|) == RenameAll(v, mapping).items
    decreases v, 0
  {
    var items := v.items;
    var pairs := Renamed(v, mapping, |items|);
    forall i | 0 <= i < |items| ensures pairs[i] == (Rename(items[i].0, mapping), RenameAll(items[i].1, mapping)) {
      assert RenamesApart(items[i].1, mapping);
      RemapIsRenameAll(items[i].1, mapping);
    }
  }

  lemma {:induction false} ListIsRenameAll(v: PyObject, mapping: map<Key, Key>)
    requires v.List? && RenamesApart(v, mapping)
    ensures Remap(v, mapping) == RenameAll(v, mapping)
    decreases v, 0
  {
    var elems := v.elems;
    RemapElemsPointwise(v, mapping, |elems|);
    forall i | 0 <= i < |elems| ensures Remap(elems[i], mapping) == RenameAll(elems[i], mapping) {
      assert RenamesApart(elems[i], mapping);
      RemapIsRenameAll(elems[i], mapping);
    }
    assert Remap(v, mapping).elems == RenameAll(v, mapping).elems;
  }

  /** Python's own invariant: no dict anywhere in the tree repeats a key. */
  predicate KeysUnique(v: PyObject) {
    match v
    case Dict(items) => UniqueKeys(items) && forall i :: 0 <= i < |items| ==> KeysUnique(items[i].1)
    case List(elems) => forall i :: 0 <= i < |elems| ==> KeysUnique(elems[i])
    case Atom(_) => true
  }

  lemma {:induction false} UniqueKeysApart(v: PyObject)
    requires KeysUnique(v)
    ensures RenamesApart(v, map[])
  {
    match v
    case Dict(items) =>
      forall i | 0 <= i < |items| ensures RenamesApart(items[i].1, map[]) {
        UniqueKeysApart(items[i].1);
      }
    case List(elems) =>
      forall i | 0 <= i < |elems| ensures RenamesApart(elems[i], map[]) {
        UniqueKeysApart(elems[i]);
      }
    case Atom(_) =>
  }

  lemma {:induction false} RenameAllEmpty(v: PyObject)
    ensures RenameAll(v, map[]) == v
  {
    match v
    case Dict(items) =>
      forall i | 0 <= i < |items| ensures RenameAll(items[i].1, map[]) == items[i].1 {
        RenameAllEmpty(items[i].1);
      }
      assert RenameAll(v, map[]).items == items;
    case List(elems) =>
      forall i | 0 <= i < |elems| ensures RenameAll(elems[i], map[]) == elems[i] {
        RenameAllEmpty(elems[i]);
      }
      assert RenameAll(v, map[]).elems == elems;
    case Atom(_) =>
  }

  /** An empty table gives a structural copy equal to the input. */
  lemma EmptyMappingCopies(v: PyObject)
    requires KeysUnique(v)
    ensures Remap(v, map[]) == v
  {
    UniqueKeysApart(v);
    RemapIsRenameAll(v, map[]);
    RenameAllEmpty(v);
  }

  /** The string-to-string table seen as a table on keys. */
  function Lift(mapping: map<string, string>): (m: map<Key, Key>)
    ensures forall s :: StrKey(s) in m <==> s in mapping
    ensures forall s :: s in mapping ==> m[StrKey(s)] == StrKey(mapping[s])
    ensures forall k :: k in m ==> k.StrKey?
  {
    map s | s in mapping :: StrKey(s) := StrKey(mapping[s])
  }

  /** Some dict anywhere in `v` has a key that is not a `str`. */
  predicate HasNonStringKey(v: PyObject) {
    match v
    case Dict(items) => exists i :: 0 <= i < |items| && (!items[i].0.StrKey? || HasNonStringKey(items[i].1))
    case List(elems) => exists i :: 0 <= i < |elems| && HasNonStringKey(elems[i])
    case Atom(_) => false
  }

  /**
    The string-keyed walk fails, with a non-string key, exactly when the tree holds one
    anywhere (even under a key that a later collision overwrites); otherwise it returns what
    the general walk returns for the same table.
  */
  lemma {:induction false} StringWalkAgrees(v: PyObject, mapping: map<string, string>)
    ensures RemapStr(v, mapping).Err? <==> HasNonStringKey(v)
    ensures RemapStr(v, mapping).Err? ==> !RemapStr(v, mapping).error.key.StrKey?
    ensures RemapStr(v, mapping).Ok? ==> RemapStr(v, mapping).value == Remap(v, Lift(mapping))
    decreases v, 1
  {
    match v
    case Dict(items) => StringItemsAgree(v, mapping, |items|);
    case List(elems) => StringElemsAgree(v, mapping, |elems|);
    case Atom(_) =>
  }

  lemma {:induction false} StringItemsAgree(v: PyObject, mapping: map<string, string>, n: nat)
    requires v.Dict? && n <= |v.items|
    ensures RemapStrItems(v, mapping, n).Err? <==>
      exists i :: 0 <= i < n && (!v.items[i].0.StrKey? || HasNonStringKey(v.items[i].1))
    ensures RemapStrItems(v, mapping, n).Err? ==> !RemapStrItems(v, mapping, n).error.key.StrKey?
    ensures RemapStrItems(v, mapping, n).Ok? ==> RemapStrItems(v, mapping, n).value == RemapItems(v, Lift(mapping), n)
    decreases v, 0, n
  {
    if n > 0 {
      StringItemsAgree(v, mapping, n - 1);
      StringWalkAgrees(v.items[n - 1].1, mapping);
      StrItemsCases(v, mapping, n);
      BadItemsPrefix(v, n);
      if RemapStrItems(v, mapping, n - 1).Ok? && v.items[n - 1].0.StrKey? && RemapStr(v.items[n - 1].1, mapping).Ok? {
        StringItemsOk(v, mapping, n);
      }
    }
  }

  /** The four ways the dict loop can go on its `n`-th item. */
  lemma StrItemsCases(v: PyObject, mapping: map<string, string>, n: nat)
    requires v.Dict? && 0 < n <= |v.items|
    ensures RemapStrItems(v, mapping, n - 1).Err? ==> RemapStrItems(v, mapping, n) == RemapStrItems(v, mapping, n - 1)
    ensures RemapStrItems(v, mapping, n - 1).Ok? && !v.items[n - 1].0.StrKey? ==>
      RemapStrItems(v, mapping, n) == Err(NotAString(v.items[n - 1].0))
    ensures RemapStrItems(v, mapping, n - 1).Ok? && v.items[n - 1].0.StrKey? && RemapStr(v.items[n - 1].1, mapping).Err? ==>
      RemapStrItems(v, mapping, n) == Err(RemapStr(v.items[n - 1].1, mapping).error)
  {
  }

  lemma BadItemsPrefix(v: PyObject, n: nat)
    requires v.Dict? && 0 < n <= |v.items|
    ensures (exists i :: 0 <= i < n && (!v.items[i].0.StrKey? || HasNonStringKey(v.items[i].1)))
        <==> (exists i :: 0 <= i < n - 1 && (!v.items[i].0.StrKey? || HasNonStringKey(v.items[i].1)))
             || !v.items[n - 1].0.StrKey? || HasNonStringKey(v.items[n - 1].1)
  {
  }

  /** One more string-keyed item renamed as the general walk would rename it. */
  lemma StringItemsOk(v: PyObject, mapping: map<string, string>, n: nat)
    requires v.Dict? && 0 < n <= |v.items| && v.items[n - 1].0.StrKey?
    requires RemapStrItems(v, mapping, n - 1) == Ok(RemapItems(v, Lift(mapping), n - 1))
    requires RemapStr(v.items[n - 1].1, mapping) == Ok(Remap(v.items[n - 1].1, Lift(mapping)))
    ensures RemapStrItems(v, mapping, n) == Ok(RemapItems(v, Lift(mapping), n))
  {
    var key := v.items[n - 1].0;
    assert Rename(key, Lift(mapping)) == StrKey(RenameStr(key.s, mapping));
  }

  lemma {:induction false} StringElemsAgree(v: PyObject, mapping: map<string, string>, n: nat)
    requires v.List? && n <= |v.elems|
    ensures RemapStrElems(v, mapping, n).Err? <==> exists i :: 0 <= i < n && HasNonStringKey(v.elems[i])
    ensures RemapStrElems(v, mapping, n).Err? ==> !RemapStrElems(v, mapping, n).error.key.StrKey?
    ensures RemapStrElems(v, mapping, n).Ok? ==> RemapStrElems(v, mapping, n).value == RemapElems(v, Lift(mapping), n)
    decreases v, 0, n
  {
    if n > 0 {
      StringElemsAgree(v, mapping, n - 1);
      StringWalkAgrees(v.elems[n - 1], mapping);
      StrElemsCases(v, mapping, n);
      BadElemsPrefix(v, n);
    }
  }

  /** The three ways the list loop can go on its `n`-th element. */
  lemma StrElemsCases(v: PyObject, mapping: map<string, string>, n: nat)
    requires v.List? && 0 < n <= |v.elems|
    ensures RemapStrElems(v, mapping, n - 1).Err? ==> RemapStrElems(v, mapping, n) == RemapStrElems(v, mapping, n - 1)
    ensures RemapStrElems(v, mapping, n - 1).Ok? && RemapStr(v.elems[n - 1], mapping).Err? ==>
      RemapStrElems(v, mapping, n) == Err(RemapStr(v.elems[n - 1], mapping).error)
    ensures RemapStrElems(v, mapping, n - 1).Ok? && RemapStr(v.elems[n - 1], mapping).Ok? ==>
      RemapStrElems(v, mapping, n) == Ok(RemapStrElems(v, mapping, n - 1).value + [RemapStr(v.elems[n - 1], mapping).value])
  {
  }

  lemma BadElemsPrefix(v: PyObject, n: nat)
    requires v.List? && 0 < n <= |v.elems|
    ensures (exists i :: 0 <= i < n && HasNonStringKey(v.elems[i]))
        <==> (exists i :: 0 <= i < n - 1 && HasNonStringKey(v.elems[i])) || HasNonStringKey(v.elems[n - 1])
  {
  }

  /**
    `{"Azimut": a, "Depth": d, "Explorer": e}` with `Azimut -> Bearing, Explorer -> Diver`
    becomes `{"Bearing": a, "Depth": d, "Diver": e}`, in the same order.
  */
  lemma SurveyExample(a: int, d: int, e: int)
    ensures RemapStr(Dict([(StrKey("Azimut"), Atom(a)), (StrKey("Depth"), Atom(d)), (StrKey("Explorer"), Atom(e))]),
                     map["Azimut" := "Bearing", "Explorer" := "Diver"])
         == Ok(Dict([(StrKey("Bearing"), Atom(a)), (StrKey("Depth"), Atom(d)), (StrKey("Diver"), Atom(e))]))
  {
    var v := Dict([(StrKey("Azimut"), Atom(a)), (StrKey("Depth"), Atom(d)), (StrKey("Explorer"), Atom(e))]);
    var table := map["Azimut" := "Bearing", "Explorer" := "Diver"];
    SurveyRenames(a, d, e);
    StringWalkAgrees(v, table);
    RemapIsRenameAll(v, Lift(table));
  }

  lemma SurveyRenames(a: int, d: int, e: int)
    ensures var v := Dict([(StrKey("Azimut"), Atom(a)), (StrKey("Depth"), Atom(d)), (StrKey("Explorer"), Atom(e))]);
      var m := Lift(map["Azimut" := "Bearing", "Explorer" := "Diver"]);
      && !HasNonStringKey(v) && RenamesApart(v, m)
      && RenameAll(v, m) == Dict([(StrKey("Bearing"), Atom(a)), (StrKey("Depth"), Atom(d)), (StrKey("Diver"), Atom(e))])
  {
    var v := Dict([(StrKey("Azimut"), Atom(a)), (StrKey("Depth"), Atom(d)), (StrKey("Explorer"), Atom(e))]);
    var m := Lift(map["Azimut" := "Bearing", "Explorer" := "Diver"]);
    assert Rename(StrKey("Azimut"), m) == StrKey("Bearing");
    assert Rename(StrKey("Depth"), m) == StrKey("Depth");
    assert Rename(StrKey("Explorer"), m) == StrKey("Diver");
    assert !HasNonStringKey(v) by {
      forall i | 0 <= i < 3 ensures v.items[i].0.StrKey? && !HasNonStringKey(v.items[i].1) {
      }
    }
    assert RenamesApart(v, m);
    assert RenameAll(v, m).items == [(StrKey("Bearing"), Atom(a)), (StrKey("Depth"), Atom(d)), (StrKey("Diver"), Atom(e))];
  }

  /** Renaming reaches inside lists: `{"a": [{"a": x}]}` with `a -> b` becomes `{"b": [{"b": x}]}`. */
  lemma NestedExample(x: int)
    ensures Remap(Dict([(StrKey("a"), List([Dict([(StrKey("a"), Atom(x))])]))]), map[StrKey("a") := StrKey("b")])
         == Dict([(StrKey("b"), List([Dict([(StrKey("b"), Atom(x))])]))])
  {
    var m := map[StrKey("a") := StrKey("b")];
    var inner := Dict([(StrKey("a"), Atom(x))]);
    var v := Dict([(StrKey("a"), List([inner]))]);
    assert RenamesApart(inner, m);
    assert RenamesApart(List([inner]), m);
    assert RenamesApart(v, m);
    RemapIsRenameAll(v, m);
    assert RenameAll(inner, m).items == [(StrKey("b"), Atom(x))];
    assert RenameAll(List([inner]), m).elems == [Dict([(StrKey("b"), Atom(x))])];
    assert RenameAll(v, m).items == [(StrKey("b"), List([Dict([(StrKey("b"), Atom(x))])]))];
  }

  /** A collision: `{"a": x, "b": y}` with `a -> c, b -> c` becomes `{"c": y}`. */
  lemma CollisionExample(x: int, y: int)
    ensures Remap(Dict([(StrKey("a"), Atom(x)), (StrKey("b"), Atom(y))]), map[StrKey("a") := StrKey("c"), StrKey("b") := StrKey("c")])
         == Dict([(StrKey("c"), Atom(y))])
  {
    var m := map[StrKey("a") := StrKey("c"), StrKey("b") := StrKey("c")];
    var items := [(StrKey("a"), Atom(x)), (StrKey("b"), Atom(y))];
    DictRenamed(items, m, 1);
    var out := Remap(Dict(items), m).items;
    assert Rename(items[0].0, m) == StrKey("c") && Rename(items[1].0, m) == StrKey("c");
    assert forall k :: HasKey(out, k) <==> k == StrKey("c");
    assert |out| == 1 by {
      if |out| > 1 {
        assert out[0].0 == StrKey("c") && out[1].0 == StrKey("c") by {
          assert HasKey(out, out[0].0) && HasKey(out, out[1].0);
        }
      }
      assert HasKey(out, StrKey("c"));
    }
    assert out[0].0 == StrKey("c") by { assert HasKey(out, out[0].0); }
    assert Lookup(out, StrKey("c")) == Some(Atom(y));
  }
}
