/**
  The attribute-aware serialiser of src/ariane/serialize.rs (`value_to_xml`, `dict_to_xml_str`).

  An Object's `@` keys become attributes of its element, its `#text` key the element's text,
  and every other key a child element (one per item when the child is an Array). Anything that
  is not an Object becomes an attribute-less self-closing element.

  `Events` is the specification of the event list written for a value; `ValueToXml` is the
  recursive writer, proved to append exactly that list.
*/
module Serialize {
  import opened Base
  import opened Assoc
  import opened Values
  import opened XmlWriter

  /** `k.starts_with('@')` */
  predicate IsAttributeName(k: string) {
    |k| > 0 && k[0] == '@'
  }

  /** A key that becomes a child element: neither an attribute nor the text. */
  predicate IsChildName(k: string) {
    !IsAttributeName(k) && k != "#text"
  }

  /** `k.trim_start_matches('@')`: the key without all of its leading `@`. */
  function TrimAts(k: string): (r: string)
    ensures |r| <= |k| && r == k[|k| - |r|..]
    ensures forall i :: 0 <= i < |k| - |r| ==> k[i] == '@'
    ensures r == [] || r[0] != '@'
    decreases |k|
  {
    if k != [] && k[0] == '@' then TrimAts(k[1..]) else k
  }

  /** The attribute list, in object order: `(trimmed key, string value or "")`. */
  function AttributesOf(entries: seq<(string, Value)>): (attrs: seq<(string, string)>)
    ensures |attrs| <= |entries|
    ensures forall i :: 0 <= i < |attrs| ==> attrs[i].0 == [] || attrs[i].0[0] != '@'
    ensures attrs == [] <==> forall j :: 0 <= j < |entries| ==> !IsAttributeName(entries[j].0)
    decreases |entries|
  {
    if entries == [] then []
    else
      var last := entries[|entries| - 1];
      AttributesOf(entries[..|entries| - 1])
        + (if IsAttributeName(last.0) then [(TrimAts(last.0), AsStr(last.1))] else [])
  }

  /** The text: the string under the last `#text` key ("" if it is not a String), if any. */
  function TextOf(entries: seq<(string, Value)>): (text: Option<string>)
    ensures text.Some? <==> HasKey(entries, "#text")
    ensures UniqueKeys(entries) && text.Some? ==> text.value == AsStr(Lookup(entries, "#text").value)
    decreases |entries|
  {
    if entries == [] then None
    else
      var last := entries[|entries| - 1];
      var prefix := entries[..|entries| - 1];
      assert forall j :: 0 <= j < |prefix| ==> prefix[j] == entries[j];
      if last.0 == "#text" then Some(AsStr(last.1)) else TextOf(prefix)
  }

  /** The `children` map: every child key, inserted in object order. */
  function ChildrenOf(entries: seq<(string, Value)>): (children: seq<(string, Value)>)
    ensures forall i :: 0 <= i < |children| ==> children[i] in entries && IsChildName(children[i].0)
    ensures forall k :: HasKey(children, k) <==> IsChildName(k) && HasKey(entries, k)
    ensures UniqueKeys(children)
    decreases |entries|
  {
    if entries == [] then []
    else
      var last := entries[|entries| - 1];
      var prefix := entries[..|entries| - 1];
      var front := ChildrenOf(prefix);
      assert forall e :: e in prefix ==> e in entries;
      assert forall k :: HasKey(entries, k) <==> HasKey(prefix, k) || k == last.0 by {
        forall k | HasKey(entries, k) ensures HasKey(prefix, k) || k == last.0 {
          var j :| 0 <= j < |entries| && entries[j].0 == k;
          if j < |prefix| { assert prefix[j].0 == k; }
        }
        forall k | HasKey(prefix, k) ensures HasKey(entries, k) {
          var j :| 0 <= j < |prefix| && prefix[j].0 == k;
          assert entries[j].0 == k;
        }
        assert entries[|entries| - 1].0 == last.0;
      }
      if IsChildName(last.0) then Put(front, last.0, last.1) else front
  }

  function TextEvent(text: Option<string>): seq<XmlEvent> {
    if text.Some? then [Text(text.value)] else []
  }

  /** The events written for `v` as an element named `name`. */
  function Events(v: Value, name: string): seq<XmlEvent>
    decreases v, 2
  {
    if !v.Obj? then [Empty(name, [])]
    else
      var children := ChildrenOf(v.entries);
      var text := TextOf(v.entries);
      if children == [] && text.None? then [Empty(name, AttributesOf(v.entries))]
      else [Start(name, AttributesOf(v.entries))] + TextEvent(text) + ChildrenEvents(v, children) + [End(name)]
  }

  /** The events of the children `cs` of Object `v`, in order. */
  function ChildrenEvents(v: Value, cs: seq<(string, Value)>): seq<XmlEvent>
    requires v.Obj? && forall i :: 0 <= i < |cs| ==> cs[i] in v.entries
    decreases v, 1, |cs|
  {
    if cs == [] then []
    else
      var last := cs[|cs| - 1];
      assert last in v.entries;
      ChildrenEvents(v, cs[..|cs| - 1]) + ChildEvents(last.1, last.0)
  }

  /** A child under key `k`: one element per item if it is an Array, one element otherwise. */
  function ChildEvents(c: Value, k: string): seq<XmlEvent>
    decreases c, 3
  {
    if c.Arr? then ItemsEvents(c, k, |c.items|) else Events(c, k)
  }

  /** The elements of the first `n` items of Array `c`, each named `k`. */
  function ItemsEvents(c: Value, k: string, n: nat): seq<XmlEvent>
    requires c.Arr? && n <= |c.items|
    decreases c, 0, n
  {
    if n == 0 then [] else ItemsEvents(c, k, n - 1) + Events(c.items[n - 1], k)
  }

  /** The names at the top level of a child's events. */
  function ChildNames(c: Value, k: string): seq<string> {
    if c.Arr? then Repeat(k, |c.items|) else [k]
  }

  function ChildrenNames(cs: seq<(string, Value)>): seq<string>
    decreases |cs|
  {
    if cs == [] then [] else ChildrenNames(cs[..|cs| - 1]) + ChildNames(cs[|cs| - 1].1, cs[|cs| - 1].0)
  }

  /** The first loop of `value_to_xml`: sort the entries into attributes, text and children. */
  method SortEntries(entries: seq<(string, Value)>)
    returns (attributes: seq<(string, string)>, text: Option<string>, children: seq<(string, Value)>)
    ensures attributes == AttributesOf(entries)
    ensures text == TextOf(entries)
    ensures children == ChildrenOf(entries)
  {
    attributes, text, children := [], None, [];
    for j := 0 to |entries|
      invariant attributes == AttributesOf(entries[..j])
      invariant text == TextOf(entries[..j])
      invariant children == ChildrenOf(entries[..j])
    {
      assert entries[..j + 1][..j] == entries[..j];
      var (k, v) := entries[j];
      if IsAttributeName(k) {
        attributes := attributes + [(TrimAts(k), AsStr(v))];
      } else if k == "#text" {
        text := Some(AsStr(v));
      } else {
        children := Put(children, k, v);
      }
    }
    assert entries[..|entries|] == entries;
  }

  /** `value_to_xml`. */
  method ValueToXml(value: Value, name: string, w: Writer)
    modifies w
    ensures w.events == old(w.events) + Events(value, name)
    decreases value, 2
  {
    var attributes: seq<(string, string)> := [];
    var children: seq<(string, Value)> := [];
    var text: Option<string> := None;
    if value.Obj? {
      attributes, text, children := SortEntries(value.entries);
    }
    if children == [] && text.None? {
      w.WriteEvent(Empty(name, attributes));
    } else {
      assert value.Obj?;
      ghost var before := w.events;
      w.WriteEvent(Start(name, attributes));
      if text.Some? {
        w.WriteEvent(Text(text.value));
      }
      ghost var head := [Start(name, attributes)] + TextEvent(text);
      assert w.events == before + head;
      WriteChildren(value, children, w);
      w.WriteEvent(End(name));
      Regroup(before, head, ChildrenEvents(value, children), [End(name)]);
    }
  }

  /** The `for (name, value) in children` loop. */
  method WriteChildren(value: Value, children: seq<(string, Value)>, w: Writer)
    requires value.Obj? && forall i :: 0 <= i < |children| ==> children[i] in value.entries
    modifies w
    ensures w.events == old(w.events) + ChildrenEvents(value, children)
    decreases value, 1
  {
    for j := 0 to |children|
      invariant w.events == old(w.events) + ChildrenEvents(value, children[..j])
    {
      assert children[..j + 1][..j] == children[..j];
      var (k, child) := children[j];
      assert children[j] in value.entries;
      WriteChild(child, k, w);
    }
    assert children[..|children|] == children;
  }

  /** One child: an Array is written item by item under the same name. */
  method WriteChild(child: Value, k: string, w: Writer)
    modifies w
    ensures w.events == old(w.events) + ChildEvents(child, k)
    decreases child, 3
  {
    if child.Arr? {
      ghost var start := w.events;
      for i := 0 to |child.items|
        invariant w.events == start + ItemsEvents(child, k, i)
      {
        ValueToXml(child.items[i], k, w);
        AppendAssoc(start, ItemsEvents(child, k, i), Events(child.items[i], k));
      }
    } else {
      ValueToXml(child, k, w);
    }
  }

  lemma AppendAssoc(a: seq<XmlEvent>, b: seq<XmlEvent>, c: seq<XmlEvent>)
    ensures a + b + c == a + (b + c)
  {
  }

  lemma Regroup(a: seq<XmlEvent>, b: seq<XmlEvent>, c: seq<XmlEvent>, d: seq<XmlEvent>)
    ensures a + b + c + d == a + (b + c + d)
  {
  }

  /** `dict_to_xml_str`: the XML declaration, then the root element. */
  method DictToXmlStr(data: Value, rootName: string) returns (out: seq<XmlEvent>)
    requires data.Obj?
    ensures out == [Decl("1.0", Some("utf-8"), None)] + Events(data, rootName)
  {
    var w := new Writer();
    w.WriteEvent(Decl("1.0", Some("utf-8"), None));
    ValueToXml(data, rootName, w);
    out := w.events;
  }
}
