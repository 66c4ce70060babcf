/**
  What the attribute-aware serialiser promises: one well-nested element per value, the
  document shape, where attributes, text and children go, and the order of the children.
*/
module SerializeProperties {
  import opened Base
  import opened Assoc
  import opened Values
  import opened XmlWriter
  import opened Serialize

  /** A Text event is well nested and opens no element. */
  lemma TextEventNested(text: Option<string>)
    ensures Balanced(TextEvent(text)) && Roots(TextEvent(text), []) == []
  {
  }

  /** Every value is written as exactly one well-nested element named `name`. */
  lemma {:induction false} EventsNested(v: Value, name: string)
    ensures Balanced(Events(v, name))
    ensures Roots(Events(v, name), []) == [name]
    decreases v, 2
  {
    if !v.Obj? {
      EmptyNested(name, []);
    } else {
      var children := ChildrenOf(v.entries);
      var text := TextOf(v.entries);
      var attrs := AttributesOf(v.entries);
      if children == [] && text.None? {
        EmptyNested(name, attrs);
      } else {
        ChildrenNested(v, children);
        TextEventNested(text);
        Concat(TextEvent(text), ChildrenEvents(v, children));
        Wrap(name, attrs, TextEvent(text) + ChildrenEvents(v, children));
        Bracket([Start(name, attrs)], TextEvent(text), ChildrenEvents(v, children), [End(name)]);
      }
    }
  }

  lemma Bracket(a: seq<XmlEvent>, b: seq<XmlEvent>, c: seq<XmlEvent>, d: seq<XmlEvent>)
    ensures a + b + c + d == a + (b + c) + d
  {
  }

  lemma {:induction false} ChildrenNested(v: Value, cs: seq<(string, Value)>)
    requires v.Obj? && forall i :: 0 <= i < |cs| ==> cs[i] in v.entries
    ensures Balanced(ChildrenEvents(v, cs))
    ensures Roots(ChildrenEvents(v, cs), []) == ChildrenNames(cs)
    decreases v, 1, |cs|
  {
    if cs != [] {
      var last := cs[|cs| - 1];
      assert last in v.entries;
      ChildrenNested(v, cs[..|cs| - 1]);
      ChildNested(last.1, last.0);
      Concat(ChildrenEvents(v, cs[..|cs| - 1]), ChildEvents(last.1, last.0));
    }
  }

  /** A child under key `k` is one element named `k`, or one per item if it is an Array. */
  lemma {:induction false} ChildNested(c: Value, k: string)
    ensures Balanced(ChildEvents(c, k))
    ensures Roots(ChildEvents(c, k), []) == ChildNames(c, k)
    decreases c, 3
  {
    if c.Arr? {
      ItemsNested(c, k, |c.items|);
    } else {
      EventsNested(c, k);
    }
  }

  lemma {:induction false} ItemsNested(c: Value, k: string, n: nat)
    requires c.Arr? && n <= |c.items|
    ensures Balanced(ItemsEvents(c, k, n))
    ensures Roots(ItemsEvents(c, k, n), []) == Repeat(k, n)
    decreases c, 0, n
  {
    if n > 0 {
      ItemsNested(c, k, n - 1);
      EventsNested(c.items[n - 1], k);
      Concat(ItemsEvents(c, k, n - 1), Events(c.items[n - 1], k));
      assert Repeat(k, n) == Repeat(k, n - 1) + [k];
    }
  }

  /** The document: the declaration, then one well-nested element named `rootName`. */
  lemma DocumentShape(data: Value, rootName: string)
    ensures var doc := [Decl("1.0", Some("utf-8"), None)] + Events(data, rootName);
      && doc[0] == Decl("1.0", Some("utf-8"), None)
      && Balanced(doc[1..]) && Roots(doc[1..], []) == [rootName]
  {
    var doc := [Decl("1.0", Some("utf-8"), None)] + Events(data, rootName);
    assert doc[1..] == Events(data, rootName);
    EventsNested(data, rootName);
  }

  /**
    An Object is self-closing exactly when all of its keys are attributes; the one event then
    carries the attributes.
  */
  lemma SelfClosingIff(entries: seq<(string, Value)>, name: string)
    ensures (|Events(Obj(entries), name)| == 1) <==> forall j :: 0 <= j < |entries| ==> IsAttributeName(entries[j].0)
    ensures |Events(Obj(entries), name)| == 1 ==> Events(Obj(entries), name) == [Empty(name, AttributesOf(entries))]
  {
    var children := ChildrenOf(entries);
    var text := TextOf(entries);
    if forall j :: 0 <= j < |entries| ==> IsAttributeName(entries[j].0) {
      assert !HasKey(entries, "#text");
      forall e | e in entries ensures !IsChildName(e.0) {
        var j :| 0 <= j < |entries| && entries[j] == e;
      }
    } else {
      var j :| 0 <= j < |entries| && !IsAttributeName(entries[j].0);
      var k := entries[j].0;
      assert HasKey(entries, k);
      if k == "#text" {
        assert text.Some?;
      } else {
        assert HasKey(children, k);
      }
    }
  }

  /** `#text` is written right after the start tag, before any child ("" if not a String). */
  lemma TextBeforeChildren(entries: seq<(string, Value)>, name: string)
    requires UniqueKeys(entries) && HasKey(entries, "#text")
    ensures var evs := Events(Obj(entries), name);
      && |evs| >= 3
      && evs[0] == Start(name, AttributesOf(entries))
      && evs[1] == Text(AsStr(Lookup(entries, "#text").value))
      && evs[|evs| - 1] == End(name)
  {
  }

  /** A value that is not an Object is written as `<name/>`: its text is lost. */
  lemma ScalarSelfCloses(v: Value, name: string)
    requires !v.Obj?
    ensures Events(v, name) == [Empty(name, [])] && Texts(Events(v, name)) == []
  {
  }

  /** Reference definition of the child entries: the non-attribute, non-text ones, in order. */
  function ChildFilter(entries: seq<(string, Value)>): seq<(string, Value)>
    decreases |entries|
  {
    if entries == [] then []
    else
      var last := entries[|entries| - 1];
      ChildFilter(entries[..|entries| - 1]) + (if IsChildName(last.0) then [last] else [])
  }

  /** With unique keys (a serde_json `Map`), the children are written in object order. */
  lemma {:induction false} ChildrenInObjectOrder(entries: seq<(string, Value)>)
    requires UniqueKeys(entries)
    ensures ChildrenOf(entries) == ChildFilter(entries)
    decreases |entries|
  {
    if entries != [] {
      var last := entries[|entries| - 1];
      var prefix := entries[..|entries| - 1];
      assert UniqueKeys(prefix) by {
        forall i, j | 0 <= i < j < |prefix| ensures prefix[i].0 != prefix[j].0 {
          assert entries[i].0 != entries[j].0;
        }
      }
      ChildrenInObjectOrder(prefix);
      if IsChildName(last.0) {
        forall i | 0 <= i < |prefix| ensures prefix[i].0 != last.0 {
          assert entries[i].0 != entries[|entries| - 1].0;
        }
        assert !HasKey(prefix, last.0);
        assert !HasKey(ChildrenOf(prefix), last.0);
      }
    }
  }

  /** `<r id="7"/>` for `{"@id": "7"}`, and `<r id="7">hi</r>` once `#text` is added. */
  lemma AttributeExample()
    ensures Events(Obj([("@id", Str("7"))]), "r") == [Empty("r", [("id", "7")])]
    ensures Events(Obj([("#text", Str("hi")), ("@id", Str("7"))]), "r")
         == [Start("r", [("id", "7")]), Text("hi"), End("r")]
  {
    var one := [("@id", Str("7"))];
    assert one[..0] == [];
    assert TrimAts("id") == "id";
    assert TrimAts("@id") == "id";
    assert AttributesOf(one) == [("id", "7")];
    assert ChildrenOf(one) == [];
    var two := [("#text", Str("hi")), ("@id", Str("7"))];
    assert two[..1] == [("#text", Str("hi"))];
    assert two[..1][..0] == [];
    assert AttributesOf(two[..1]) == [];
    assert AttributesOf(two) == [("id", "7")];
    assert TextOf(two) == TextOf(two[..1]);
    assert TextOf(two) == Some("hi");
    assert ChildrenOf(two[..1]) == [];
    assert ChildrenOf(two) == [];
  }
}
