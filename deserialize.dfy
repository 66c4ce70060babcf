/**
  The XML-event to value-tree parse engine (`parse_xml`, in src_rust/ariane/deserialize.rs
  and src/ariane/deserialize.rs).

  The tokenizer is an input sequence of reader events: text is already unescaped and trimmed,
  attributes are already split into (name, value) pairs, and a reader failure is an `Error`
  event. The reader's position is the index of the event in that sequence, and running out of
  events reads as end of input.

  The engine is written twice: as the specification `Parse`, a fold of `Step` over the events,
  and as the loop `ParseXml`, which keeps the source's mutable stack and accumulators and is
  proved to compute `Parse`.
*/
module Deserialize {
  import opened Base
  import opened Assoc
  import opened Values

  /** One reader event (`quick_xml::events::Event` or a reader error). */
  datatype ReaderEvent =
    | Start(name: string, attributes: seq<(string, string)>)
    | End(name: string)
    | Empty(name: string, attributes: seq<(string, string)>)
    | Text(content: string)
    | Eof
    | Error(message: string)
    /** CDATA, comments, declarations, processing instructions, doctypes, entity references. */
    | Other

  /**
    The one reader setting the two copies disagree on. The src_rust copy turns end-name
    checking off; the src copy keeps the reader default, under which a closing tag whose name
    differs from the innermost open tag is a reader error.
  */
  datatype ReaderConfig = ReaderConfig(checkEndNames: bool)

  const RustReader: ReaderConfig := ReaderConfig(false)
  const DefaultReader: ReaderConfig := ReaderConfig(true)

  datatype ReaderFailure = Reported(message: string) | MismatchedEndTag(expected: string, found: string)

  /**
    `ReaderError` is the "Error at position ..." string, `EmptyDocument` is "Empty XML document",
    and `UnmatchedEnd` stands for the panic of `stack.pop().unwrap()` on an empty stack.
  */
  datatype ParseError =
    | ReaderError(position: nat, failure: ReaderFailure)
    | UnmatchedEnd
    | EmptyDocument

  /** A pending attribute map: `@`-prefixed keys with String values. */
  type Attributes = seq<(string, Value)>

  /** A stack frame: the open element's name, and the parent's accumulator and attributes. */
  datatype Frame = Frame(name: string, parentValue: Option<Value>, parentAttributes: Attributes)

  /** The engine's local variables between two events. */
  datatype State = State(
    stack: seq<Frame>,
    root: Option<Value>,
    current: Option<Value>,
    attributes: Attributes,
    rootName: string)

  const Initial: State := State([], None, None, [], "")

  /** `char::is_whitespace`: the Unicode White_Space property. */
  predicate IsWhitespace(c: char) {
    ('\U{0009}' <= c <= '\U{000D}') || c == ' ' || c == '\U{0085}' || c == '\U{00A0}'
    || c == '\U{1680}' || ('\U{2000}' <= c <= '\U{200A}') || c == '\U{2028}' || c == '\U{2029}'
    || c == '\U{202F}' || c == '\U{205F}' || c == '\U{3000}'
  }

  /** `text.trim().is_empty()` */
  predicate IsBlank(s: string) {
    forall i :: 0 <= i < |s| ==> IsWhitespace(s[i])
  }

  predicate IsAttributeKey(k: string) {
    |k| > 0 && k[0] == '@'
  }

  /** The root name is taken from the first tag seen (while it is still empty). */
  function RootNameAfter(rootName: string, tag: string): string {
    if rootName == "" then tag else rootName
  }

  /**
    Reference definition of an attribute lookup: key `k` is `@` followed by a name the reader
    reported, and the value is the last one reported for that name.
  */
  function AttributeValue(pairs: seq<(string, string)>, k: string): Option<Value>
    decreases |pairs|
  {
    if pairs == [] then None
    else if "@" + pairs[|pairs| - 1].0 == k then Some(Str(pairs[|pairs| - 1].1))
    else AttributeValue(pairs[..|pairs| - 1], k)
  }

  /** The attribute map built from a tag's attributes (each under `@name`, later ones win). */
  function CollectAttributes(pairs: seq<(string, string)>): (attrs: Attributes)
    ensures UniqueKeys(attrs)
    ensures |attrs| <= |pairs|
    ensures forall i :: 0 <= i < |attrs| ==> IsAttributeKey(attrs[i].0) && attrs[i].1.Str?
    ensures forall k :: Lookup(attrs, k) == AttributeValue(pairs, k)
    decreases |pairs|
  {
    if pairs == [] then []
    else
      var last := pairs[|pairs| - 1];
      var prefix := CollectAttributes(pairs[..|pairs| - 1]);
      assert IsAttributeKey("@" + last.0);
      Put(prefix, "@" + last.0, Str(last.1))
  }

  /** `for (k, v) in attrs { obj.insert(k, v) }`, attribute by attribute. */
  function MergeAttributes(obj: seq<(string, Value)>, attrs: Attributes): seq<(string, Value)>
    decreases |attrs|
  {
    if attrs == [] then obj
    else
      var last := attrs[|attrs| - 1];
      Put(MergeAttributes(obj, attrs[..|attrs| - 1]), last.0, last.1)
  }

  /** Merging: the attributes override, every other key keeps its value. */
  lemma {:induction false} MergeAttributesLookup(obj: seq<(string, Value)>, attrs: Attributes, k: string)
    requires UniqueKeys(attrs)
    ensures Lookup(MergeAttributes(obj, attrs), k) == if HasKey(attrs, k) then Lookup(attrs, k) else Lookup(obj, k)
    decreases |attrs|
  {
    if attrs != [] {
      var last := attrs[|attrs| - 1];
      var prefix := attrs[..|attrs| - 1];
      assert attrs == prefix + [last];
      MergeAttributesLookup(obj, prefix, k);
      if k != last.0 {
        FindAppendOther(prefix, last, k);
        assert HasKey(attrs, k) <==> HasKey(prefix, k);
      } else {
        assert Lookup(attrs, k) == Some(last.1);
      }
    }
  }

  /** Merging keeps keys unique and keeps the old keys where they were. */
  lemma {:induction false} MergeAttributesShape(obj: seq<(string, Value)>, attrs: Attributes)
    ensures var r := MergeAttributes(obj, attrs);
      && (UniqueKeys(obj) ==> UniqueKeys(r))
      && |obj| <= |r| && (forall j :: 0 <= j < |obj| ==> r[j].0 == obj[j].0)
    decreases |attrs|
  {
    if attrs != [] {
      MergeAttributesShape(obj, attrs[..|attrs| - 1]);
    }
  }

  /** Every merged entry is an old entry or an attribute. */
  lemma {:induction false} MergeAttributesMembers(obj: seq<(string, Value)>, attrs: Attributes)
    ensures forall e :: e in MergeAttributes(obj, attrs) ==> e in obj || e in attrs
    decreases |attrs|
  {
    if attrs != [] {
      var last := attrs[|attrs| - 1];
      var prefix := attrs[..|attrs| - 1];
      assert attrs == prefix + [last];
      MergeAttributesMembers(obj, prefix);
    }
  }

  /** The member entries the element starts from: the accumulator, wrapped if it is a scalar. */
  function Accumulated(current: Option<Value>): seq<(string, Value)> {
    match current
    case Some(Obj(m)) => m
    case Some(v) => [("#text", v)]
    case None => []
  }

  /** The value of a finished element (End): attributes merged in, a lone `#text` collapsed. */
  function ElementValue(current: Option<Value>, attrs: Attributes): Value {
    var obj := MergeAttributes(Accumulated(current), attrs);
    if |obj| == 1 && HasKey(obj, "#text") then Lookup(obj, "#text").value else Obj(obj)
  }

  /** The value of a self-closing element, or None when it is dropped. */
  function EmptyElementValue(attrs: Attributes, keepNull: bool): Option<Value> {
    if keepNull then Some(Null)
    else if attrs == [] then None
    else
      var obj := MergeAttributes([], attrs);
      if obj == [] then None else Some(Obj(obj))
  }

  /** The two suppression rules: Null, and then an empty Object, only survive with keepNull. */
  predicate Kept(v: Value, keepNull: bool) {
    (keepNull || v != Null) && !(v.Obj? && v.entries == [] && !keepNull)
  }

  /** The values a parent holds under one name, in document order. */
  function Siblings(entry: Option<Value>): seq<Value> {
    match entry
    case None => []
    case Some(Arr(items)) => items
    case Some(v) => [v]
  }

  /** Attaching a child under `name`: insert, or promote to an Array of siblings / append to it. */
  function InsertOrPromote(parent: seq<(string, Value)>, name: string, v: Value): (r: seq<(string, Value)>)
    ensures !HasKey(parent, name) ==> Lookup(r, name) == Some(v)
    ensures HasKey(parent, name) ==> Lookup(r, name).Some? && Lookup(r, name).value.Arr?
    ensures !v.Arr? ==> Siblings(Lookup(r, name)) == Siblings(Lookup(parent, name)) + [v]
    ensures forall k :: k != name ==> Lookup(r, k) == Lookup(parent, k)
    ensures |r| == if HasKey(parent, name) then |parent| else |parent| + 1
    ensures forall j :: 0 <= j < |parent| ==> r[j].0 == parent[j].0
    ensures UniqueKeys(parent) ==> UniqueKeys(r)
  {
    var entry: Option<Value> := Lookup(parent, name);
    match entry
    case None => Put(parent, name, v)
    case Some(Arr(items)) => Put(parent, name, Arr(items + [v]))
    case Some(existing) => Put(parent, name, Arr([existing, v]))
  }

  /** A kept value goes under the accumulator if that is an Object, and otherwise into `root`. */
  function Attach(st: State, name: string, v: Value): State {
    match st.current
    case Some(Obj(parent)) => st.(current := Some(Obj(InsertOrPromote(parent, name, v))))
    case _ => st.(root := Some(v))
  }

  datatype StepOutcome = Next(state: State) | Halt | Abort(error: ParseError)

  /** One turn of the event loop; `pos` is the position of `event`. */
  function Step(st: State, event: ReaderEvent, pos: nat, keepNull: bool, config: ReaderConfig): StepOutcome {
    match event
    case Start(name, pairs) =>
      Next(State(st.stack + [Frame(name, st.current, st.attributes)], st.root, Some(Obj([])),
                 CollectAttributes(pairs), RootNameAfter(st.rootName, name)))
    case Text(content) =>
      if IsBlank(content) then Next(st) else Next(st.(current := Some(Str(content))))
    case End(found) =>
      if st.stack == [] then Abort(UnmatchedEnd)
      else
        var frame := st.stack[|st.stack| - 1];
        if config.checkEndNames && frame.name != found then
          Abort(ReaderError(pos, MismatchedEndTag(frame.name, found)))
        else
          var v := ElementValue(st.current, st.attributes);
          var popped := State(st.stack[..|st.stack| - 1], st.root, frame.parentValue,
                              frame.parentAttributes, st.rootName);
          Next(if Kept(v, keepNull) then Attach(popped, frame.name, v) else popped)
    case Empty(name, pairs) =>
      var named := st.(rootName := RootNameAfter(st.rootName, name));
      (match EmptyElementValue(CollectAttributes(pairs), keepNull)
       case None => Next(named)
       case Some(v) => Next(if Kept(v, keepNull) then Attach(named, name, v) else named))
    case Eof => Halt
    case Error(message) => Abort(ReaderError(pos, Reported(message)))
    case Other => Next(st)
  }

  datatype Final = Stopped(state: State) | Failed(error: ParseError)

  /** The event loop from state `st`, the first event being at position `pos`. */
  function Run(events: seq<ReaderEvent>, pos: nat, st: State, keepNull: bool, config: ReaderConfig): Final
    decreases |events|
  {
    if events == [] then Stopped(st)
    else match Step(st, events[0], pos, keepNull, config)
      case Next(next) => Run(events[1..], pos + 1, next, keepNull, config)
      case Halt => Stopped(st)
      case Abort(e) => Failed(e)
  }

  /** The final wrap into `{root_name: root}`. */
  function Assemble(st: State): Result<Value, ParseError> {
    match st.root
    case Some(r) => Ok(Obj([(st.rootName, r)]))
    case None => Err(EmptyDocument)
  }

  function Parse(events: seq<ReaderEvent>, keepNull: bool, config: ReaderConfig): Result<Value, ParseError> {
    match Run(events, 0, Initial, keepNull, config)
    case Stopped(st) => Assemble(st)
    case Failed(e) => Err(e)
  }

  /** The attribute loop of a Start or Empty event. */
  method ReadAttributes(pairs: seq<(string, string)>) returns (attrs: Attributes)
    ensures attrs == CollectAttributes(pairs)
  {
    attrs := [];
    for j := 0 to |pairs|
      invariant attrs == CollectAttributes(pairs[..j])
    {
      assert pairs[..j + 1][..j] == pairs[..j];
      attrs := Put(attrs, "@" + pairs[j].0, Str(pairs[j].1));
    }
    assert pairs[..|pairs|] == pairs;
  }

  /** The `current_attrs.drain()` loop of an End event. */
  method DrainAttributes(obj: seq<(string, Value)>, attrs: Attributes) returns (r: seq<(string, Value)>)
    ensures r == MergeAttributes(obj, attrs)
  {
    r := obj;
    for j := 0 to |attrs|
      invariant r == MergeAttributes(obj, attrs[..j])
    {
      assert attrs[..j + 1][..j] == attrs[..j];
      r := Put(r, attrs[j].0, attrs[j].1);
    }
    assert attrs[..|attrs|] == attrs;
  }

  /** The attach code shared by End and Empty. */
  method AttachValue(current: Option<Value>, root: Option<Value>, name: string, v: Value)
    returns (current': Option<Value>, root': Option<Value>)
    ensures forall stack, attrs, rootName ::
      State(stack, root', current', attrs, rootName) == Attach(State(stack, root, current, attrs, rootName), name, v)
  {
    current', root' := current, root;
    if current.Some? && current.value.Obj? {
      var parent := current.value.entries;
      current' := Some(Obj(InsertOrPromote(parent, name, v)));
    } else {
      root' := Some(v);
    }
  }

  /**
    The End branch once the frame to close has been popped: merge the attributes, restore the
    parent's accumulators, collapse a lone `#text`, then suppress or attach.
  */
  method CloseElement(frame: Frame, current: Option<Value>, currentAttrs: Attributes, root: Option<Value>, keepNull: bool)
    returns (current': Option<Value>, currentAttrs': Attributes, root': Option<Value>)
    ensures forall stack, rootName ::
      var v := ElementValue(current, currentAttrs);
      var popped := State(stack, root, frame.parentValue, frame.parentAttributes, rootName);
      State(stack, root', current', currentAttrs', rootName) == if Kept(v, keepNull) then Attach(popped, frame.name, v) else popped
  {
    var obj := DrainAttributes(Accumulated(current), currentAttrs);
    current' := frame.parentValue;
    currentAttrs' := frame.parentAttributes;
    root' := root;
    var newValue := if |obj| == 1 && HasKey(obj, "#text") then Lookup(obj, "#text").value else Obj(obj);
    if keepNull || newValue != Null {
      if !(newValue.Obj? && newValue.entries == [] && !keepNull) {
        current', root' := AttachValue(current', root', frame.name, newValue);
      }
    }
  }

  /** The Empty branch after the root name: the element's value, suppressed or attached. */
  method SelfClosingElement(name: string, pairs: seq<(string, string)>, current: Option<Value>, root: Option<Value>, keepNull: bool)
    returns (current': Option<Value>, root': Option<Value>)
    ensures forall stack, attrs, rootName ::
      var named := State(stack, root, current, attrs, rootName);
      State(stack, root', current', attrs, rootName)
        == match EmptyElementValue(CollectAttributes(pairs), keepNull)
           case None => named
           case Some(v) => if Kept(v, keepNull) then Attach(named, name, v) else named
  {
    current', root' := current, root;
    var attrs := ReadAttributes(pairs);
    var newValue: Value;
    if keepNull {
      newValue := Null;
    } else if attrs == [] {
      return;
    } else {
      var obj := DrainAttributes([], attrs);
      if obj == [] {
        return;
      }
      newValue := Obj(obj);
    }
    if keepNull || newValue != Null {
      if !(newValue.Obj? && newValue.entries == [] && !keepNull) {
        current', root' := AttachValue(current, root, name, newValue);
      }
    }
  }

  /** `parse_xml`: the event loop with its frame stack and accumulators. */
  method ParseXml(events: seq<ReaderEvent>, keepNull: bool, config: ReaderConfig)
    returns (r: Result<Value, ParseError>)
    ensures r == Parse(events, keepNull, config)
  {
    var stack: seq<Frame> := [];
    var root: Option<Value> := None;
    var current: Option<Value> := None;
    var currentAttrs: Attributes := [];
    var rootName := "";
    var i := 0;
    while i < |events|
      invariant 0 <= i <= |events|
      invariant Run(events[i..], i, State(stack, root, current, currentAttrs, rootName), keepNull, config)
             == Run(events, 0, Initial, keepNull, config)
    {
      ghost var before := State(stack, root, current, currentAttrs, rootName);
      assert events[i..][1..] == events[i + 1..];
      match events[i] {
        case Start(name, pairs) =>
          if rootName == "" {
            rootName := name;
          }
          var attrs := ReadAttributes(pairs);
          stack := stack + [Frame(name, current, currentAttrs)];
          currentAttrs := attrs;
          current := Some(Obj([]));
        case Text(content) =>
          if !IsBlank(content) {
            current := Some(Str(content));
          }
        case End(found) =>
          if stack == [] {
            r := Err(UnmatchedEnd);
            return;
          }
          var frame := stack[|stack| - 1];
          if config.checkEndNames && frame.name != found {
            r := Err(ReaderError(i, MismatchedEndTag(frame.name, found)));
            return;
          }
          stack := stack[..|stack| - 1];
          current, currentAttrs, root := CloseElement(frame, current, currentAttrs, root, keepNull);
        case Empty(name, pairs) =>
          if rootName == "" {
            rootName := name;
          }
          current, root := SelfClosingElement(name, pairs, current, root, keepNull);
        case Eof =>
          break;
        case Error(message) =>
          r := Err(ReaderError(i, Reported(message)));
          return;
        case Other =>
      }
      i := i + 1;
    }
    r := Assemble(State(stack, root, current, currentAttrs, rootName));
  }
}
