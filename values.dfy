/**
  The value tree that both XML directions go through (serde_json's `Value`).
  Numbers are kept as integers; Objects are insertion-ordered association lists.
*/
module Values {
  import opened Base
  import opened Assoc

  datatype Value =
    | Null
    | Bool(b: bool)
    | Num(n: int)
    | Str(s: string)
    | Arr(items: seq<Value>)
    | Obj(entries: seq<(string, Value)>)

  /** Every Object in the tree, at every depth, has unique keys (the `Map` invariant). */
  predicate WellFormed(v: Value) {
    match v
    case Arr(items) => forall i :: 0 <= i < |items| ==> WellFormed(items[i])
    case Obj(entries) => UniqueKeys(entries) && forall i :: 0 <= i < |entries| ==> WellFormed(entries[i].1)
    case _ => true
  }

  /** Every value of an association list is well formed. */
  predicate AllWellFormed(entries: seq<(string, Value)>) {
    forall i :: 0 <= i < |entries| ==> WellFormed(entries[i].1)
  }

  /** `v.as_str().unwrap_or_default()`: the string of a String, `""` for anything else. */
  function AsStr(v: Value): string {
    if v.Str? then v.s else ""
  }

  lemma {:induction false} LookupWellFormed(entries: seq<(string, Value)>, k: string)
    requires AllWellFormed(entries)
    ensures Lookup(entries, k).Some? ==> WellFormed(Lookup(entries, k).value)
  {
    match Find(entries, k)
    case None =>
    case Some(i) =>
  }

  lemma PutWellFormed(entries: seq<(string, Value)>, k: string, v: Value)
    requires AllWellFormed(entries) && WellFormed(v)
    ensures AllWellFormed(Put(entries, k, v))
  {
  }
}
