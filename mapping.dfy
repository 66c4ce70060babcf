/**
  Recursive key renaming over host (Python) objects, in its two versions:

  - src_rust/mapping.rs `apply_key_mapping`: any dict key, looked up in a host dict; a key
    with no entry is kept.
  - src/mapping.rs `apply_key_mapping_in_place` (with its wrapper `apply_key_mapping`): every
    dict key must be a `str`, looked up in a string-to-string table; any other key is an error.

  Both build fresh containers: a dict is filled with `set_item` in iteration order (an
  existing key keeps its place and takes the new value), a list with `append`. `Remap` and
  `RemapStr` are the specifications; `ApplyKeyMapping` and `ApplyStringKeyMapping` are the
  loops, proved to compute them.
*/
module KeyMapping {
  import opened Base
  import opened Assoc

  /** A dict key: a Python `str`, or any other hashable object (told apart by an identity). */
  datatype Key = StrKey(s: string) | OtherKey(id: int)

  /**
    A host object: a dict (insertion ordered), a list, or anything else, which the walk never
    looks into (a str, a number, None, a tuple, …) and is told apart by an identity.
  */
  datatype PyObject =
    | Dict(items: seq<(Key, PyObject)>)
    | List(elems: seq<PyObject>)
    | Atom(id: int)

  /** The `TypeError` raised by `key.extract::<String>()` on a key that is not a `str`. */
  datatype MappingError = NotAString(key: Key)

  /** `mapping.get_item(key).unwrap_or(key)` */
  function Rename(k: Key, mapping: map<Key, Key>): Key {
    if k in mapping then mapping[k] else k
  }

  /** The object `apply_key_mapping` returns for `v`. */
  function Remap(v: PyObject, mapping: map<Key, Key>): PyObject
    decreases v, 1
  {
    match v
    case Dict(items) => Dict(RemapItems(v, mapping, |items|))
    case List(elems) => List(RemapElems(v, mapping, |elems|))
    case Atom(_) => v
  }

  /** The fresh dict after the first `n` items of dict `v` were renamed and set into it. */
  function RemapItems(v: PyObject, mapping: map<Key, Key>, n: nat): seq<(Key, PyObject)>
    requires v.Dict? && n <= |v.items|
    decreases v, 0, n
  {
    if n == 0 then []
    else Put(RemapItems(v, mapping, n - 1), Rename(v.items[n - 1].0, mapping), Remap(v.items[n - 1].1, mapping))
  }

  /** The fresh list after the first `n` elements of list `v` were remapped and appended. */
  function RemapElems(v: PyObject, mapping: map<Key, Key>, n: nat): seq<PyObject>
    requires v.List? && n <= |v.elems|
    decreases v, 0, n
  {
    if n == 0 then [] else RemapElems(v, mapping, n - 1) + [Remap(v.elems[n - 1], mapping)]
  }

  /** `mapping.get(&key_str).unwrap_or(&key_str)` */
  function RenameStr(s: string, mapping: map<string, string>): string {
    if s in mapping then mapping[s] else s
  }

  /** What `apply_key_mapping_in_place` returns for `v`: the first error met, or the object. */
  function RemapStr(v: PyObject, mapping: map<string, string>): Result<PyObject, MappingError>
    decreases v, 1
  {
    match v
    case Dict(items) =>
      (match RemapStrItems(v, mapping, |items|)
       case Err(e) => Err(e)
       case Ok(out) => Ok(Dict(out)))
    case List(elems) =>
      (match RemapStrElems(v, mapping, |elems|)
       case Err(e) => Err(e)
       case Ok(out) => Ok(List(out)))
    case Atom(_) => Ok(v)
  }

  /**
    The first `n` items of dict `v`: the key is extracted as a string first, then the value is
    remapped, then the pair is set into the fresh dict; the first failure ends the walk.
  */
  function RemapStrItems(v: PyObject, mapping: map<string, string>, n: nat): Result<seq<(Key, PyObject)>, MappingError>
    requires v.Dict? && n <= |v.items|
    decreases v, 0, n
  {
    if n == 0 then Ok([])
    else match RemapStrItems(v, mapping, n - 1)
      case Err(e) => Err(e)
      case Ok(out) =>
        var key := v.items[n - 1].0;
        if !key.StrKey? then Err(NotAString(key))
        else match RemapStr(v.items[n - 1].1, mapping)
          case Err(e) => Err(e)
          case Ok(y) => Ok(Put(out, StrKey(RenameStr(key.s, mapping)), y))
  }

  function RemapStrElems(v: PyObject, mapping: map<string, string>, n: nat): Result<seq<PyObject>, MappingError>
    requires v.List? && n <= |v.elems|
    decreases v, 0, n
  {
    if n == 0 then Ok([])
    else match RemapStrElems(v, mapping, n - 1)
      case Err(e) => Err(e)
      case Ok(out) =>
        match RemapStr(v.elems[n - 1], mapping)
        case Err(e) => Err(e)
        case Ok(y) => Ok(out + [y])
  }

  /** Once the walk over a dict's items has failed, the later items do not change the outcome. */
  lemma {:induction false} StrItemsErrorStays(v: PyObject, mapping: map<string, string>, j: nat, n: nat)
    requires v.Dict? && j <= n <= |v.items| && RemapStrItems(v, mapping, j).Err?
    ensures RemapStrItems(v, mapping, n) == RemapStrItems(v, mapping, j)
    decreases n
  {
    if n > j {
      StrItemsErrorStays(v, mapping, j, n - 1);
    }
  }

  lemma {:induction false} StrElemsErrorStays(v: PyObject, mapping: map<string, string>, j: nat, n: nat)
    requires v.List? && j <= n <= |v.elems| && RemapStrElems(v, mapping, j).Err?
    ensures RemapStrElems(v, mapping, n) == RemapStrElems(v, mapping, j)
    decreases n
  {
    if n > j {
      StrElemsErrorStays(v, mapping, j, n - 1);
    }
  }

  /** src_rust/mapping.rs `apply_key_mapping`. */
  method ApplyKeyMapping(data: PyObject, mapping: map<Key, Key>) returns (r: PyObject)
    ensures r == Remap(data, mapping)
    decreases data
  {
    match data {
      case Dict(items) =>
        var out: seq<(Key, PyObject)> := [];
        for j := 0 to |items|
          invariant out == RemapItems(data, mapping, j)
        {
          var (key, value) := items[j];
          assert items[j] in data.items;
          var newKey := if key in mapping then mapping[key] else key;
          var newValue := ApplyKeyMapping(value, mapping);
          out := Put(out, newKey, newValue);
        }
        r := Dict(out);
      case List(elems) =>
        var out: seq<PyObject> := [];
        for j := 0 to |elems|
          invariant out == RemapElems(data, mapping, j)
        {
          var newItem := ApplyKeyMapping(elems[j], mapping);
          out := out + [newItem];
        }
        r := List(out);
      case Atom(_) =>
        r := data;
    }
  }

  /** src/mapping.rs `apply_key_mapping_in_place`, reached through its wrapper `apply_key_mapping`. */
  method ApplyStringKeyMapping(data: PyObject, mapping: map<string, string>) returns (r: Result<PyObject, MappingError>)
    ensures r == RemapStr(data, mapping)
    decreases data
  {
    match data {
      case Dict(items) =>
        var out: seq<(Key, PyObject)> := [];
        for j := 0 to |items|
          invariant RemapStrItems(data, mapping, j) == Ok(out)
        {
          var (key, value) := items[j];
          assert items[j] in data.items;
          if !key.StrKey? {
            r := Err(NotAString(key));
            StrItemsErrorStays(data, mapping, j + 1, |items|);
            return;
          }
          var keyStr := key.s;
          var newKey := if keyStr in mapping then mapping[keyStr] else keyStr;
          var newValue := ApplyStringKeyMapping(value, mapping);
          if newValue.Err? {
            r := Err(newValue.error);
            StrItemsErrorStays(data, mapping, j + 1, |items|);
            return;
          }
          out := Put(out, StrKey(newKey), newValue.value);
        }
        r := Ok(Dict(out));
      case List(elems) =>
        var out: seq<PyObject> := [];
        for j := 0 to |elems|
          invariant RemapStrElems(data, mapping, j) == Ok(out)
        {
          var newItem := ApplyStringKeyMapping(elems[j], mapping);
          if newItem.Err? {
            r := Err(newItem.error);
            StrElemsErrorStays(data, mapping, j + 1, |elems|);
            return;
          }
          out := out + [newItem.value];
        }
        r := Ok(List(out));
      case Atom(_) =>
        r := Ok(data);
    }
  }
}
