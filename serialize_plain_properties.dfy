/**
  What the plain serialiser promises: its events are well nested, the top-level elements all
  carry the given name (one per non-Array value, one per item of an Array), Object keys name
  their child elements, and the texts written are exactly the tree's scalar leaves, in order.
*/
module PlainSerializeProperties {
  import opened Base
  import opened Values
  import opened XmlWriter
  import opened PlainSerialize
  import Serialize
  import SerializeProperties

  /** How many elements a value is written as: one, or one per (nested) Array item. */
  function ElementCount(v: Value): nat
    decreases v, 1
  {
    if v.Arr? then ItemsCount(v, |v.items|) else 1
  }

  function ItemsCount(v: Value, n: nat): nat
    requires v.Arr? && n <= |v.items|
    decreases v, 0, n
  {
    if n == 0 then 0 else ItemsCount(v, n - 1) + ElementCount(v.items[n - 1])
  }

  /** The names of the child elements of an Object: each key, once per element of its value. */
  function EntryNames(v: Value, n: nat): seq<string>
    requires v.Obj? && n <= |v.entries|
  {
    if n == 0 then [] else EntryNames(v, n - 1) + Repeat(v.entries[n - 1].0, ElementCount(v.entries[n - 1].1))
  }

  /** The scalar leaves of a tree in document order, as text (reference definition). */
  function Leaves(v: Value): seq<string>
    decreases v, 1
  {
    match v
    case Obj(entries) => EntriesLeaves(v, |entries|)
    case Arr(items) => ItemsLeaves(v, |items|)
    case Str(s) => [s]
    case Num(n) => [Decimal(n)]
    case Bool(b) => [BoolText(b)]
    case Null => []
  }

  function EntriesLeaves(v: Value, n: nat): seq<string>
    requires v.Obj? && n <= |v.entries|
    decreases v, 0, n
  {
    if n == 0 then [] else EntriesLeaves(v, n - 1) + Leaves(v.entries[n - 1].1)
  }

  function ItemsLeaves(v: Value, n: nat): seq<string>
    requires v.Arr? && n <= |v.items|
    decreases v, 0, n
  {
    if n == 0 then [] else ItemsLeaves(v, n - 1) + Leaves(v.items[n - 1])
  }

  lemma RepeatAdd(name: string, a: nat, b: nat)
    ensures Repeat(name, a) + Repeat(name, b) == Repeat(name, a + b)
  {
    assert |Repeat(name, a) + Repeat(name, b)| == a + b;
  }

  lemma LeafNested(name: string, text: string)
    ensures Balanced(Leaf(name, text)) && Roots(Leaf(name, text), []) == [name]
  {
    Wrap(name, [], [Text(text)]);
    assert [Start(name, [])] + [Text(text)] + [End(name)] == Leaf(name, text);
  }

  /**
    Every value is written as well-nested events whose top-level elements are all named
    `name`: one for a non-Array, one per item (recursively) for an Array, none for `[]`.
  */
  lemma {:induction false} PlainNested(v: Value, name: string)
    ensures Balanced(PlainEvents(v, name))
    ensures Roots(PlainEvents(v, name), []) == Repeat(name, ElementCount(v))
    decreases v, 1
  {
    match v
    case Obj(entries) =>
      EntriesNested(v, |entries|);
      Wrap(name, [], EntriesEvents(v, |entries|));
    case Arr(items) => ItemsNested(v, name, |items|);
    case Str(s) => LeafNested(name, s);
    case Num(n) => LeafNested(name, Decimal(n));
    case Bool(b) => LeafNested(name, BoolText(b));
    case Null =>
  }

  /** Inside an Object's element, each entry is written under its own key, in object order. */
  lemma {:induction false} EntriesNested(v: Value, n: nat)
    requires v.Obj? && n <= |v.entries|
    ensures Balanced(EntriesEvents(v, n))
    ensures Roots(EntriesEvents(v, n), []) == EntryNames(v, n)
    decreases v, 0, n
  {
    if n > 0 {
      EntriesNested(v, n - 1);
      PlainNested(v.entries[n - 1].1, v.entries[n - 1].0);
      Concat(EntriesEvents(v, n - 1), PlainEvents(v.entries[n - 1].1, v.entries[n - 1].0));
    }
  }

  lemma {:induction false} ItemsNested(v: Value, name: string, n: nat)
    requires v.Arr? && n <= |v.items|
    ensures Balanced(ItemsEvents(v, name, n))
    ensures Roots(ItemsEvents(v, name, n), []) == Repeat(name, ItemsCount(v, n))
    decreases v, 0, n
  {
    if n > 0 {
      ItemsNested(v, name, n - 1);
      PlainNested(v.items[n - 1], name);
      Concat(ItemsEvents(v, name, n - 1), PlainEvents(v.items[n - 1], name));
      RepeatAdd(name, ItemsCount(v, n - 1), ElementCount(v.items[n - 1]));
    }
  }

  /** The text written is exactly the tree's scalars in order; keys and structure add none. */
  lemma {:induction false} PlainTexts(v: Value, name: string)
    ensures Texts(PlainEvents(v, name)) == Leaves(v)
    decreases v, 1
  {
    match v
    case Obj(entries) =>
      EntriesTexts(v, |entries|);
      TextsAppend([Start(name, [])], EntriesEvents(v, |entries|));
      TextsAppend([Start(name, [])] + EntriesEvents(v, |entries|), [End(name)]);
    case Arr(items) => ItemsTexts(v, name, |items|);
    case Str(s) => LeafTexts(name, s);
    case Num(n) => LeafTexts(name, Decimal(n));
    case Bool(b) => LeafTexts(name, BoolText(b));
    case Null =>
  }

  lemma LeafTexts(name: string, text: string)
    ensures Texts(Leaf(name, text)) == [text]
  {
    var l := Leaf(name, text);
    assert l[1..][1..][1..] == [];
    assert Texts(l[1..][1..]) == [];
    assert Texts(l[1..]) == [text];
  }

  lemma {:induction false} EntriesTexts(v: Value, n: nat)
    requires v.Obj? && n <= |v.entries|
    ensures Texts(EntriesEvents(v, n)) == EntriesLeaves(v, n)
    decreases v, 0, n
  {
    if n > 0 {
      EntriesTexts(v, n - 1);
      PlainTexts(v.entries[n - 1].1, v.entries[n - 1].0);
      TextsAppend(EntriesEvents(v, n - 1), PlainEvents(v.entries[n - 1].1, v.entries[n - 1].0));
    }
  }

  lemma {:induction false} ItemsTexts(v: Value, name: string, n: nat)
    requires v.Arr? && n <= |v.items|
    ensures Texts(ItemsEvents(v, name, n)) == ItemsLeaves(v, n)
    decreases v, 0, n
  {
    if n > 0 {
      ItemsTexts(v, name, n - 1);
      PlainTexts(v.items[n - 1], name);
      TextsAppend(ItemsEvents(v, name, n - 1), PlainEvents(v.items[n - 1], name));
    }
  }

  /** The document: the declaration, then exactly one well-nested element named `rootName`. */
  lemma PlainDocumentShape(entries: seq<(string, Value)>, rootName: string)
    ensures var doc := [Decl("1.0", Some("utf-8"), None)] + PlainEvents(Obj(entries), rootName);
      && doc[0] == Decl("1.0", Some("utf-8"), None)
      && Balanced(doc[1..]) && Roots(doc[1..], []) == [rootName]
      && doc[1] == Start(rootName, []) && doc[|doc| - 1] == End(rootName)
  {
    var doc := [Decl("1.0", Some("utf-8"), None)] + PlainEvents(Obj(entries), rootName);
    assert doc[1..] == PlainEvents(Obj(entries), rootName);
    PlainNested(Obj(entries), rootName);
  }

  /**
    The same Object `{"@id": "7"}` under `r`: the plain serialiser writes a child element named
    `@id`, the attribute-aware one a self-closing `r` with attribute `id`.
  */
  lemma SerialisersDisagreeOnAttributes()
    ensures PlainEvents(Obj([("@id", Str("7"))]), "r")
         == [Start("r", []), Start("@id", []), Text("7"), End("@id"), End("r")]
    ensures Serialize.Events(Obj([("@id", Str("7"))]), "r") == [Empty("r", [("id", "7")])]
  {
    PlainAttributeExample();
    SerializeProperties.AttributeExample();
  }

  lemma PlainAttributeExample()
    ensures PlainEvents(Obj([("@id", Str("7"))]), "r")
         == [Start("r", []), Start("@id", []), Text("7"), End("@id"), End("r")]
  {
    var v := Obj([("@id", Str("7"))]);
    assert PlainEvents(Str("7"), "@id") == Leaf("@id", "7");
    assert EntriesEvents(v, 1) == Leaf("@id", "7");
  }
}
