/**
  The edge rules of the parse engine: how a finished element is built from its accumulator
  and attributes, what becomes of self-closing and empty elements, duplicate siblings, text
  that replaces children, and values whose parent is not an Object.
*/
module ElementRules {
  import opened Base
  import opened Assoc
  import opened Values
  import opened Deserialize

  /** An attribute map has no `#text` key: every key starts with `@`. */
  lemma CollectedHasNoText(pairs: seq<(string, string)>)
    ensures !HasKey(CollectAttributes(pairs), "#text")
  {
    var attrs := CollectAttributes(pairs);
    forall i | 0 <= i < |attrs| ensures attrs[i].0 != "#text" {
      assert IsAttributeKey(attrs[i].0);
    }
  }

  /** A tag reports no attribute exactly when its attribute map is empty. */
  lemma {:induction false} CollectedEmptyIff(pairs: seq<(string, string)>)
    ensures CollectAttributes(pairs) == [] <==> pairs == []
  {
    if pairs != [] {
      var last := pairs[|pairs| - 1];
      assert Lookup(CollectAttributes(pairs), "@" + last.0).Some?;
    }
  }

  /** Draining attributes into a fresh map inserts them one by one into an empty map. */
  lemma {:induction false} MergeFreshIsPutAll(attrs: Attributes)
    ensures MergeAttributes([], attrs) == PutAll(attrs)
    decreases |attrs|
  {
    if attrs != [] {
      MergeFreshIsPutAll(attrs[..|attrs| - 1]);
    }
  }

  /** Merging a duplicate-free attribute map into a fresh map rebuilds exactly that map. */
  lemma MergeIntoFresh(attrs: Attributes)
    requires UniqueKeys(attrs)
    ensures MergeAttributes([], attrs) == attrs
  {
    MergeFreshIsPutAll(attrs);
    PutAllDistinct(attrs);
  }

  /**
    On End: the element collapses to a bare value exactly when it has no attributes and its
    accumulator is a single `#text` entry (a scalar). Otherwise it is an Object whose
    attributes are the tag's `@` attributes, whose other keys are the accumulator's (in their
    places), and whose scalar accumulator sits under `#text`.
  */
  lemma ElementValueSpec(current: Option<Value>, pairs: seq<(string, string)>)
    ensures var acc := Accumulated(current);
      pairs == [] && |acc| == 1 && acc[0].0 == "#text" ==>
        ElementValue(current, CollectAttributes(pairs)) == acc[0].1
    ensures var acc := Accumulated(current);
      var r := ElementValue(current, CollectAttributes(pairs));
      !(pairs == [] && |acc| == 1 && acc[0].0 == "#text") ==>
        && r.Obj?
        && |acc| <= |r.entries|
        && (forall j :: 0 <= j < |acc| ==> r.entries[j].0 == acc[j].0)
        && (forall k :: Lookup(r.entries, k) ==
              if AttributeValue(pairs, k).Some? then AttributeValue(pairs, k) else Lookup(acc, k))
  {
    var acc := Accumulated(current);
    var attrs := CollectAttributes(pairs);
    var obj := MergeAttributes(acc, attrs);
    MergedShape(acc, pairs);
    CollectedEmptyIff(pairs);
    if pairs == [] {
      assert obj == acc;
    } else {
      NotALoneText(acc, pairs);
    }
  }

  /** The merged map keeps the accumulator's keys in place, and attributes override. */
  lemma MergedShape(acc: seq<(string, Value)>, pairs: seq<(string, string)>)
    ensures var obj := MergeAttributes(acc, CollectAttributes(pairs));
      && |acc| <= |obj| && (forall j :: 0 <= j < |acc| ==> obj[j].0 == acc[j].0)
      && (forall k :: Lookup(obj, k) == if AttributeValue(pairs, k).Some? then AttributeValue(pairs, k) else Lookup(acc, k))
  {
    var attrs := CollectAttributes(pairs);
    var obj := MergeAttributes(acc, attrs);
    MergeAttributesShape(acc, attrs);
    forall k ensures Lookup(obj, k) == if AttributeValue(pairs, k).Some? then AttributeValue(pairs, k) else Lookup(acc, k) {
      MergeAttributesLookup(acc, attrs, k);
    }
  }

  /** With an attribute, the merged map is never a lone `#text`. */
  lemma NotALoneText(acc: seq<(string, Value)>, pairs: seq<(string, string)>)
    requires pairs != []
    ensures var obj := MergeAttributes(acc, CollectAttributes(pairs));
      !(|obj| == 1 && HasKey(obj, "#text"))
  {
    var attrs := CollectAttributes(pairs);
    CollectedEmptyIff(pairs);
    var a := attrs[0].0;
    assert HasKey(attrs, a) && IsAttributeKey(a);
    MergeAttributesLookup(acc, attrs, a);
    LoneKey(MergeAttributes(acc, attrs), a);
  }

  /** A one-entry map holds no key but its own. */
  lemma LoneKey(obj: seq<(string, Value)>, a: string)
    requires HasKey(obj, a) && IsAttributeKey(a)
    ensures !(|obj| == 1 && HasKey(obj, "#text"))
  {
    if |obj| == 1 {
      var j :| 0 <= j < |obj| && obj[j].0 == a;
      assert obj[0].0 == a;
    }
  }

  /** A text-only element without attributes collapses to its bare text. */
  lemma TextOnlyCollapses(v: Value)
    requires !v.Obj?
    ensures ElementValue(Some(v), CollectAttributes([])) == v
  {
    ElementValueSpec(Some(v), []);
  }

  /** An element with text and attributes is an Object holding `#text` first, then the `@` keys. */
  lemma TextWithAttributes(s: string, pairs: seq<(string, string)>)
    requires pairs != []
    ensures var r := ElementValue(Some(Str(s)), CollectAttributes(pairs));
      && r.Obj? && |r.entries| > 0 && r.entries[0] == ("#text", Str(s))
      && forall k :: k != "#text" ==> Lookup(r.entries, k) == AttributeValue(pairs, k)
  {
    ElementValueSpec(Some(Str(s)), pairs);
    var r := ElementValue(Some(Str(s)), CollectAttributes(pairs));
    CollectedHasNoText(pairs);
    assert Lookup(r.entries, "#text") == Some(Str(s));
  }

  /**
    On a self-closing element: keepNull gives Null whatever the attributes; otherwise no
    attribute means nothing at all, and attributes give an Object of exactly those attributes.
  */
  lemma SelfClosingValue(pairs: seq<(string, string)>, keepNull: bool)
    ensures keepNull ==> EmptyElementValue(CollectAttributes(pairs), keepNull) == Some(Null)
    ensures !keepNull && pairs == [] ==> EmptyElementValue(CollectAttributes(pairs), keepNull) == None
    ensures !keepNull && pairs != [] ==>
      && EmptyElementValue(CollectAttributes(pairs), keepNull) == Some(Obj(CollectAttributes(pairs)))
      && forall k :: Lookup(CollectAttributes(pairs), k) == AttributeValue(pairs, k)
  {
    CollectedEmptyIff(pairs);
    MergeIntoFresh(CollectAttributes(pairs));
  }


  /** The first child under a name is stored as it is. */
  lemma InsertFresh(x: string, v: Value)
    ensures InsertOrPromote([], x, v) == [(x, v)]
  {
    var none: seq<(string, Value)> := [];
    assert Lookup(none, x) == None;
  }

  /** A second child under the same name turns the entry into a two-element Array. */
  lemma InsertAgain(x: string, a: Value, b: Value)
    requires !a.Arr?
    ensures InsertOrPromote([(x, a)], x, b) == [(x, Arr([a, b]))]
  {
    assert Lookup([(x, a)], x) == Some(a);
  }

  /** Further children under that name are appended to the Array. */
  lemma InsertOnto(x: string, items: seq<Value>, c: Value)
    ensures InsertOrPromote([(x, Arr(items))], x, c) == [(x, Arr(items + [c]))]
  {
    assert Lookup([(x, Arr(items))], x) == Some(Arr(items));
  }

  /** A single child not named `#text`, without attributes, is not collapsed. */
  lemma SingleChildKept(x: string, v: Value)
    requires x != "#text"
    ensures ElementValue(Some(Obj([(x, v)])), []) == Obj([(x, v)])
  {
    assert !HasKey([(x, v)], "#text");
  }

  /** A tag with one attribute. */
  lemma OneAttribute(n: string, s: string)
    ensures CollectAttributes([(n, s)]) == [("@" + n, Str(s))]
  {
    assert [(n, s)][..0] == [];
    var none: Attributes := [];
    assert !HasKey(none, "@" + n);
  }

  /** One step of the loop, unfolded. */
  lemma RunNext(events: seq<ReaderEvent>, pos: nat, st: State, keepNull: bool, config: ReaderConfig, next: State)
    requires events != [] && Step(st, events[0], pos, keepNull, config) == Next(next)
    ensures Run(events, pos, st, keepNull, config) == Run(events[1..], pos + 1, next, keepNull, config)
  {
  }

  /** One step of the loop in front of the rest of the events. */
  lemma RunCons(e: ReaderEvent, rest: seq<ReaderEvent>, pos: nat, st: State, keepNull: bool, config: ReaderConfig, next: State)
    requires Step(st, e, pos, keepNull, config) == Next(next)
    ensures Run([e] + rest, pos, st, keepNull, config) == Run(rest, pos + 1, next, keepNull, config)
  {
    assert ([e] + rest)[0] == e;
    assert ([e] + rest)[1..] == rest;
  }

  /** The events of `<x>a</x>`. */
  function TextElement(x: string, a: string): seq<ReaderEvent> {
    [Start(x, []), Text(a), End(x)]
  }

  /** `<x>a</x>` inside an open element: its text is attached under `x`. */
  lemma TextChild(rest: seq<ReaderEvent>, pos: nat, st: State, x: string, a: string,
                  keepNull: bool, config: ReaderConfig)
    requires st.rootName != "" && !IsBlank(a)
    ensures Run(TextElement(x, a) + rest, pos, st, keepNull, config)
         == Run(rest, pos + 3, Attach(st, x, Str(a)), keepNull, config)
  {
    var s1 := State(st.stack + [Frame(x, st.current, st.attributes)], st.root, Some(Obj([])), [], st.rootName);
    var s2 := s1.(current := Some(Str(a)));
    TextOnlyCollapses(Str(a));
    assert (st.stack + [Frame(x, st.current, st.attributes)])[..|st.stack|] == st.stack;
    assert TextElement(x, a) + rest == [Start(x, [])] + ([Text(a)] + ([End(x)] + rest));
    RunCons(Start(x, []), [Text(a)] + ([End(x)] + rest), pos, st, keepNull, config, s1);
    RunCons(Text(a), [End(x)] + rest, pos + 1, s1, keepNull, config, s2);
    RunCons(End(x), rest, pos + 2, s2, keepNull, config, Attach(st, x, Str(a)));
  }

  /** The state once the root element `<r>` (without attributes) has been opened. */
  function RootOpened(r: string): State {
    State([Frame(r, None, [])], None, Some(Obj([])), [], r)
  }

  lemma OpenRoot(r: string, rest: seq<ReaderEvent>, keepNull: bool, config: ReaderConfig)
    ensures Run([Start(r, [])] + rest, 0, Initial, keepNull, config) == Run(rest, 1, RootOpened(r), keepNull, config)
  {
    RunCons(Start(r, []), rest, 0, Initial, keepNull, config, RootOpened(r));
  }

  /** Closing the root whose members are `m` (not a lone `#text`) makes them the document. */
  lemma CloseRoot(r: string, m: seq<(string, Value)>, pos: nat, keepNull: bool, config: ReaderConfig)
    requires m != [] && !(|m| == 1 && HasKey(m, "#text"))
    ensures Run([End(r)], pos, RootOpened(r).(current := Some(Obj(m))), keepNull, config)
         == Stopped(State([], Some(Obj(m)), None, [], r))
  {
    RunNext([End(r)], pos, RootOpened(r).(current := Some(Obj(m))), keepNull, config, State([], Some(Obj(m)), None, [], r));
  }

  /** Closing the root whose only member is `x` (not `#text`) makes `{x: v}` the document. */
  lemma CloseRootOne(r: string, x: string, v: Value, pos: nat, keepNull: bool, config: ReaderConfig)
    requires x != "#text"
    ensures Run([End(r)], pos, RootOpened(r).(current := Some(Obj([(x, v)]))), keepNull, config)
         == Stopped(State([], Some(Obj([(x, v)])), None, [], r))
  {
    assert !HasKey([(x, v)], "#text");
    CloseRoot(r, [(x, v)], pos, keepNull, config);
  }

  /** The accumulator of the root after each of three `<x>` children. */
  lemma CoalesceStates(r: string, x: string, a: string, b: string, c: string)
    ensures Attach(RootOpened(r), x, Str(a)) == RootOpened(r).(current := Some(Obj([(x, Str(a))])))
    ensures Attach(RootOpened(r).(current := Some(Obj([(x, Str(a))]))), x, Str(b))
         == RootOpened(r).(current := Some(Obj([(x, Arr([Str(a), Str(b)]))])))
    ensures Attach(RootOpened(r).(current := Some(Obj([(x, Arr([Str(a), Str(b)]))]))), x, Str(c))
         == RootOpened(r).(current := Some(Obj([(x, Arr([Str(a), Str(b), Str(c)]))])))
  {
    InsertFresh(x, Str(a));
    InsertAgain(x, Str(a), Str(b));
    InsertOnto(x, [Str(a), Str(b)], Str(c));
    assert [Str(a), Str(b)] + [Str(c)] == [Str(a), Str(b), Str(c)];
  }

  /** Duplicate siblings coalesce into an Array in document order. */
  lemma DuplicatesCoalesce(r: string, x: string, a: string, b: string, c: string, keepNull: bool, config: ReaderConfig)
    requires r != "" && x != "#text" && !IsBlank(a) && !IsBlank(b) && !IsBlank(c)
    ensures Parse([Start(r, [])] + (TextElement(x, a) + (TextElement(x, b) + (TextElement(x, c) + [End(r)]))), keepNull, config)
         == Ok(Obj([(r, Obj([(x, Arr([Str(a), Str(b), Str(c)]))]))]))
  {
    var tail := [End(r)];
    var third := TextElement(x, c) + tail;
    var second := TextElement(x, b) + third;
    var s1 := RootOpened(r);
    var child := Arr([Str(a), Str(b), Str(c)]);
    CoalesceStates(r, x, a, b, c);
    ThreeTextChildren(x, a, b, c, keepNull, config, s1, s1.(current := Some(Obj([(x, Str(a))]))),
                      s1.(current := Some(Obj([(x, Arr([Str(a), Str(b)]))]))), s1.(current := Some(Obj([(x, child)]))),
                      tail, third, second);
    OpenRoot(r, TextElement(x, a) + second, keepNull, config);
    CloseRootOne(r, x, child, 10, keepNull, config);
  }

  lemma ThreeTextChildren(x: string, a: string, b: string, c: string, keepNull: bool, config: ReaderConfig,
                          s1: State, s2: State, s3: State, s4: State,
                          tail: seq<ReaderEvent>, third: seq<ReaderEvent>, second: seq<ReaderEvent>)
    requires s1.rootName != "" && s2.rootName != "" && s3.rootName != ""
    requires !IsBlank(a) && !IsBlank(b) && !IsBlank(c)
    requires Attach(s1, x, Str(a)) == s2 && Attach(s2, x, Str(b)) == s3 && Attach(s3, x, Str(c)) == s4
    requires third == TextElement(x, c) + tail
    requires second == TextElement(x, b) + third
    ensures Run(TextElement(x, a) + second, 1, s1, keepNull, config) == Run(tail, 10, s4, keepNull, config)
  {
    TextChild(second, 1, s1, x, a, keepNull, config);
    TextChild(third, 4, s2, x, b, keepNull, config);
    TextChild(tail, 7, s3, x, c, keepNull, config);
  }

  /** Text after a child replaces the accumulator outright: the child is lost. */
  lemma TextReplacesChildren(r: string, x: string, s: string, t: string, keepNull: bool, config: ReaderConfig)
    requires r != "" && !IsBlank(s) && !IsBlank(t)
    ensures Parse([Start(r, [])] + (TextElement(x, s) + [Text(t), End(r)]), keepNull, config)
         == Ok(Obj([(r, Str(t))]))
  {
    var tail := [Text(t), End(r)];
    var first := TextElement(x, s) + tail;
    var s1 := RootOpened(r);
    var s2 := s1.(current := Some(Obj([(x, Str(s))])));
    InsertFresh(x, Str(s));
    assert Attach(s1, x, Str(s)) == s2;
    OpenRoot(r, first, keepNull, config);
    TextChild(tail, 1, s1, x, s, keepNull, config);
    TextReplacesTail(r, t, s2, 4, keepNull, config);
  }

  /** A text event, then the close of the root: the text is the document. */
  lemma TextReplacesTail(r: string, t: string, st: State, pos: nat, keepNull: bool, config: ReaderConfig)
    requires !IsBlank(t) && st.stack == [Frame(r, None, [])] && st.root.None? && st.attributes == []
    ensures Run([Text(t), End(r)], pos, st, keepNull, config) == Stopped(State([], Some(Str(t)), None, [], st.rootName))
  {
    var s3 := st.(current := Some(Str(t)));
    RunNext([Text(t), End(r)], pos, st, keepNull, config, s3);
    TextOnlyCollapses(Str(t));
    var s4 := State([], Some(Str(t)), None, [], st.rootName);
    RunNext([End(r)], pos + 1, s3, keepNull, config, s4);
    assert [Text(t), End(r)][1..] == [End(r)];
  }

  /**
    A child finished while its parent's accumulator is text (not an Object) overwrites `root`:
    with the outer element left open, that child's value is the document.
  */
  lemma OrphanBecomesRoot(r: string, t: string, x: string, s: string, keepNull: bool, config: ReaderConfig)
    requires r != "" && !IsBlank(s) && !IsBlank(t)
    ensures Parse([Start(r, []), Text(t)] + TextElement(x, s), keepNull, config)
         == Ok(Obj([(r, Str(s))]))
  {
    var child := TextElement(x, s) + [];
    assert [Start(r, []), Text(t)] + TextElement(x, s) == [Start(r, [])] + ([Text(t)] + child);
    var s1 := State([Frame(r, None, [])], None, Some(Obj([])), [], r);
    RunCons(Start(r, []), [Text(t)] + child, 0, Initial, keepNull, config, s1);
    var s2 := s1.(current := Some(Str(t)));
    RunCons(Text(t), child, 1, s1, keepNull, config, s2);
    TextChild([], 2, s2, x, s, keepNull, config);
    assert Attach(s2, x, Str(s)) == s2.(root := Some(Str(s)));
  }

  /** A self-closing element whose value is kept is attached like any other child. */
  lemma StepEmptyAttach(st: State, name: string, pairs: seq<(string, string)>, pos: nat, keepNull: bool,
                        config: ReaderConfig, v: Value)
    requires EmptyElementValue(CollectAttributes(pairs), keepNull) == Some(v) && Kept(v, keepNull)
    ensures Step(st, Empty(name, pairs), pos, keepNull, config)
         == Next(Attach(st.(rootName := RootNameAfter(st.rootName, name)), name, v))
  {
  }

  /** A kept self-closing child `x` of the open root becomes its only member. */
  lemma FreshChildStep(r: string, x: string, pairs: seq<(string, string)>, keepNull: bool, config: ReaderConfig, v: Value)
    requires r != "" && EmptyElementValue(CollectAttributes(pairs), keepNull) == Some(v) && Kept(v, keepNull)
    ensures Step(RootOpened(r), Empty(x, pairs), 1, keepNull, config)
         == Next(RootOpened(r).(current := Some(Obj([(x, v)]))))
  {
    var st := RootOpened(r);
    StepEmptyAttach(st, x, pairs, 1, keepNull, config, v);
    assert st.(rootName := RootNameAfter(st.rootName, x)) == st;
    InsertFresh(x, v);
  }

  /** `<x .../>` in the open root with keepNull: Null goes under `x`. */
  lemma KeepNullChildStep(r: string, x: string, pairs: seq<(string, string)>, config: ReaderConfig)
    requires r != ""
    ensures Step(RootOpened(r), Empty(x, pairs), 1, true, config)
         == Next(RootOpened(r).(current := Some(Obj([(x, Null)]))))
  {
    SelfClosingValue(pairs, true);
    FreshChildStep(r, x, pairs, true, config, Null);
  }

  /** `<r><x .../></r>` with keepNull: the self-closing child is Null, its attributes dropped. */
  lemma SelfClosingChildKeepNull(r: string, x: string, pairs: seq<(string, string)>, config: ReaderConfig)
    requires r != "" && x != "#text"
    ensures Parse([Start(r, []), Empty(x, pairs), End(r)], true, config) == Ok(Obj([(r, Obj([(x, Null)]))]))
  {
    var child := [(x, Null)];
    assert [Start(r, []), Empty(x, pairs), End(r)] == [Start(r, [])] + ([Empty(x, pairs)] + [End(r)]);
    OpenRoot(r, [Empty(x, pairs)] + [End(r)], true, config);
    KeepNullChildStep(r, x, pairs, config);
    RunCons(Empty(x, pairs), [End(r)], 1, RootOpened(r), true, config, RootOpened(r).(current := Some(Obj(child))));
    CloseRootOne(r, x, Null, 2, true, config);
  }

  /** `<r><x/></r>` without keepNull: the child is dropped, so is the now empty root. */
  lemma SelfClosingChildDropped(r: string, x: string, config: ReaderConfig)
    requires r != ""
    ensures Parse([Start(r, []), Empty(x, []), End(r)], false, config) == Err(EmptyDocument)
  {
    var events := [Start(r, []), Empty(x, []), End(r)];
    var s1 := State([Frame(r, None, [])], None, Some(Obj([])), [], r);
    RunNext(events, 0, Initial, false, config, s1);
    RunNext(events[1..], 1, s1, false, config, s1);
    var s3 := State([], None, None, [], r);
    RunNext(events[1..][1..], 2, s1, false, config, s3);
  }

  /** `<r><x a="…"/></r>` without keepNull: the child is the Object of its attributes. */
  lemma SelfClosingChildAttributes(r: string, x: string, pairs: seq<(string, string)>, config: ReaderConfig)
    requires r != "" && x != "#text" && pairs != []
    ensures Parse([Start(r, []), Empty(x, pairs), End(r)], false, config)
         == Ok(Obj([(r, Obj([(x, Obj(CollectAttributes(pairs)))]))]))
  {
    var child := [(x, Obj(CollectAttributes(pairs)))];
    assert [Start(r, []), Empty(x, pairs), End(r)] == [Start(r, [])] + ([Empty(x, pairs)] + [End(r)]);
    OpenRoot(r, [Empty(x, pairs)] + [End(r)], false, config);
    AttributeChildStep(r, x, pairs, config);
    RunCons(Empty(x, pairs), [End(r)], 1, RootOpened(r), false, config, RootOpened(r).(current := Some(Obj(child))));
    CloseRootOne(r, x, Obj(CollectAttributes(pairs)), 2, false, config);
  }

  lemma AttributeChildStep(r: string, x: string, pairs: seq<(string, string)>, config: ReaderConfig)
    requires r != "" && pairs != []
    ensures Step(RootOpened(r), Empty(x, pairs), 1, false, config)
         == Next(RootOpened(r).(current := Some(Obj([(x, Obj(CollectAttributes(pairs)))]))))
  {
    SelfClosingValue(pairs, false);
    CollectedEmptyIff(pairs);
    FreshChildStep(r, x, pairs, false, config, Obj(CollectAttributes(pairs)));
  }

  /** The state once `<r><x>` (both without attributes) has been opened. */
  function TwoOpened(r: string, x: string): State {
    State([Frame(r, None, []), Frame(x, Some(Obj([])), [])], None, Some(Obj([])), [], r)
  }

  lemma OpenTwo(r: string, x: string, rest: seq<ReaderEvent>, keepNull: bool, config: ReaderConfig)
    requires r != ""
    ensures Run([Start(r, []), Start(x, [])] + rest, 0, Initial, keepNull, config) == Run(rest, 2, TwoOpened(r, x), keepNull, config)
  {
    assert [Start(r, []), Start(x, [])] + rest == [Start(r, [])] + ([Start(x, [])] + rest);
    OpenRoot(r, [Start(x, [])] + rest, keepNull, config);
    RunCons(Start(x, []), rest, 1, RootOpened(r), keepNull, config, TwoOpened(r, x));
  }

  /**
    An End while `<r><x>` is open and empty closes `x`: `{}` is attached with keepNull and
    dropped without. (Without end-name checking, whatever the End names.)
  */
  lemma CloseEmptyInner(r: string, x: string, found: string, keepNull: bool, config: ReaderConfig)
    requires r != "" && (config.checkEndNames ==> found == x)
    ensures Step(TwoOpened(r, x), End(found), 2, keepNull, config)
         == Next(if keepNull then RootOpened(r).(current := Some(Obj([(x, Obj([]))]))) else RootOpened(r))
  {
    var st := TwoOpened(r, x);
    assert st.stack[..1] == [Frame(r, None, [])];
    assert ElementValue(Some(Obj([])), []) == Obj([]);
    InsertFresh(x, Obj([]));
    assert Attach(RootOpened(r), x, Obj([])) == RootOpened(r).(current := Some(Obj([(x, Obj([]))])));
  }

  /** Closing `x` and then `r`, with keepNull: `{x: {}}` is the document. */
  lemma KeptEmptyTail(r: string, x: string, config: ReaderConfig)
    requires r != "" && x != "#text"
    ensures Run([End(x), End(r)], 2, TwoOpened(r, x), true, config) == Stopped(State([], Some(Obj([(x, Obj([]))])), None, [], r))
  {
    var child := [(x, Obj([]))];
    CloseEmptyInner(r, x, x, true, config);
    assert [End(x), End(r)] == [End(x)] + [End(r)];
    RunCons(End(x), [End(r)], 2, TwoOpened(r, x), true, config, RootOpened(r).(current := Some(Obj(child))));
    CloseRootOne(r, x, Obj([]), 3, true, config);
  }

  /** `<r><x></x></r>` with keepNull: the empty child is `{}`. */
  lemma EmptyChildKept(r: string, x: string, config: ReaderConfig)
    requires r != "" && x != "#text"
    ensures Parse([Start(r, []), Start(x, []), End(x), End(r)], true, config)
         == Ok(Obj([(r, Obj([(x, Obj([]))]))]))
  {
    var rest := [End(x), End(r)];
    assert [Start(r, []), Start(x, []), End(x), End(r)] == [Start(r, []), Start(x, [])] + rest;
    OpenTwo(r, x, rest, true, config);
    KeptEmptyTail(r, x, config);
  }

  /** `<r><x></x></r>` without keepNull: the empty child is dropped, and with it `r`. */
  lemma EmptyChildDropped(r: string, x: string, config: ReaderConfig)
    requires r != ""
    ensures Parse([Start(r, []), Start(x, []), End(x), End(r)], false, config) == Err(EmptyDocument)
  {
    var rest := [End(x), End(r)];
    assert [Start(r, []), Start(x, []), End(x), End(r)] == [Start(r, []), Start(x, [])] + rest;
    OpenTwo(r, x, rest, false, config);
    CloseEmptyInner(r, x, x, false, config);
    RunNext(rest, 2, TwoOpened(r, x), false, config, RootOpened(r));
    assert rest[1..] == [End(r)];
    RunNext([End(r)], 3, RootOpened(r), false, config, State([], None, None, [], r));
  }

  /** `<r><x></x></r>`: the empty child is `{}` with keepNull, and is dropped (with `r`) without. */
  lemma EmptyChildElement(r: string, x: string, config: ReaderConfig)
    requires r != "" && x != "#text"
    ensures Parse([Start(r, []), Start(x, []), End(x), End(r)], true, config)
         == Ok(Obj([(r, Obj([(x, Obj([]))]))]))
    ensures Parse([Start(r, []), Start(x, []), End(x), End(r)], false, config) == Err(EmptyDocument)
  {
    EmptyChildKept(r, x, config);
    EmptyChildDropped(r, x, config);
  }

  /** `<a/>`: `{a: null}` with keepNull, and an empty document without. */
  lemma SelfClosingRoot(a: string, config: ReaderConfig)
    ensures Parse([Empty(a, [])], true, config) == Ok(Obj([(a, Null)]))
    ensures Parse([Empty(a, [])], false, config) == Err(EmptyDocument)
  {
    RunNext([Empty(a, [])], 0, Initial, true, config, State([], Some(Null), None, [], a));
    RunNext([Empty(a, [])], 0, Initial, false, config, State([], None, None, [], a));
  }

  /** Text `t` merged with the single attribute `@n = s`: `#text` first, then the attribute. */
  lemma TextAndAttribute(n: string, s: string, t: string)
    ensures ElementValue(Some(Str(t)), [("@" + n, Str(s))]) == Obj([("#text", Str(t)), ("@" + n, Str(s))])
    ensures Kept(Obj([("#text", Str(t)), ("@" + n, Str(s))]), false)
    ensures Kept(Obj([("#text", Str(t)), ("@" + n, Str(s))]), true)
  {
    var attrs := [("@" + n, Str(s))];
    var obj := [("#text", Str(t)), ("@" + n, Str(s))];
    assert attrs[..0] == [];
    assert ("@" + n)[0] != "#text"[0];
    assert !HasKey([("#text", Str(t))], "@" + n);
    assert MergeAttributes([("#text", Str(t))], attrs) == obj;
    assert obj[1].0 != "#text";
  }

  lemma SplitFirst(a: ReaderEvent, b: ReaderEvent, c: ReaderEvent)
    ensures [a, b, c] == [a] + [b, c]
  {
  }

  /** Text and then the End of the root, whose attributes are `attrs`. */
  lemma TextThenClose(r: string, t: string, attrs: Attributes, keepNull: bool, config: ReaderConfig, v: Value)
    requires !IsBlank(t) && ElementValue(Some(Str(t)), attrs) == v && Kept(v, keepNull)
    ensures Run([Text(t), End(r)], 1, State([Frame(r, None, [])], None, Some(Obj([])), attrs, r), keepNull, config)
         == Stopped(State([], Some(v), None, [], r))
  {
    var s1 := State([Frame(r, None, [])], None, Some(Obj([])), attrs, r);
    var s2 := s1.(current := Some(Str(t)));
    assert [Text(t), End(r)] == [Text(t)] + [End(r)];
    RunCons(Text(t), [End(r)], 1, s1, keepNull, config, s2);
    RunNext([End(r)], 2, s2, keepNull, config, State([], Some(v), None, [], r));
  }

  /** `<r n="s">t</r>` is `{r: {"#text": t, "@n": s}}`: the text first, then the attribute. */
  lemma AttributesMergeWithText(r: string, n: string, s: string, t: string, keepNull: bool, config: ReaderConfig)
    requires r != "" && !IsBlank(t)
    ensures Parse([Start(r, [(n, s)]), Text(t), End(r)], keepNull, config)
         == Ok(Obj([(r, Obj([("#text", Str(t)), ("@" + n, Str(s))]))]))
  {
    var attrs := [("@" + n, Str(s))];
    var v := Obj([("#text", Str(t)), ("@" + n, Str(s))]);
    TextAndAttribute(n, s, t);
    SplitFirst(Start(r, [(n, s)]), Text(t), End(r));
    OpenWithAttribute(r, n, s, [Text(t), End(r)], keepNull, config);
    TextThenClose(r, t, attrs, keepNull, config, v);
  }

  /** Opening the root `<r n="s">`. */
  lemma OpenWithAttribute(r: string, n: string, s: string, rest: seq<ReaderEvent>, keepNull: bool, config: ReaderConfig)
    ensures Run([Start(r, [(n, s)])] + rest, 0, Initial, keepNull, config)
         == Run(rest, 1, State([Frame(r, None, [])], None, Some(Obj([])), [("@" + n, Str(s))], r), keepNull, config)
  {
    OneAttribute(n, s);
    RunCons(Start(r, [(n, s)]), rest, 0, Initial, keepNull, config,
            State([Frame(r, None, [])], None, Some(Obj([])), [("@" + n, Str(s))], r));
  }

  /**
    `<a><b></a>`: with end-name checking the reader rejects the closing tag; without it the
    engine closes `b` instead and runs out of input with nothing in `root`. Either way it fails.
  */
  lemma MismatchedTagsFail(a: string, b: string, keepNull: bool)
    requires a != "" && a != b
    ensures Parse([Start(a, []), Start(b, []), End(a)], keepNull, DefaultReader)
         == Err(ReaderError(2, MismatchedEndTag(b, a)))
    ensures Parse([Start(a, []), Start(b, []), End(a)], keepNull, RustReader) == Err(EmptyDocument)
  {
    MismatchRejected(a, b, keepNull);
    MismatchClosesInner(a, b, keepNull);
  }

  lemma MismatchRejected(a: string, b: string, keepNull: bool)
    requires a != "" && a != b
    ensures Parse([Start(a, []), Start(b, []), End(a)], keepNull, DefaultReader)
         == Err(ReaderError(2, MismatchedEndTag(b, a)))
  {
    assert [Start(a, []), Start(b, []), End(a)] == [Start(a, []), Start(b, [])] + [End(a)];
    OpenTwo(a, b, [End(a)], keepNull, DefaultReader);
  }

  lemma MismatchClosesInner(a: string, b: string, keepNull: bool)
    requires a != ""
    ensures Parse([Start(a, []), Start(b, []), End(a)], keepNull, RustReader) == Err(EmptyDocument)
  {
    assert [Start(a, []), Start(b, []), End(a)] == [Start(a, []), Start(b, [])] + [End(a)];
    OpenTwo(a, b, [End(a)], keepNull, RustReader);
    CloseEmptyInner(a, b, a, keepNull, RustReader);
    var s3 := if keepNull then RootOpened(a).(current := Some(Obj([(b, Obj([]))]))) else RootOpened(a);
    RunNext([End(a)], 2, TwoOpened(a, b), keepNull, RustReader, s3);
  }
}
