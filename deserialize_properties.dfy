/**
  What the parse engine promises over whole event sequences: the shape of the result, the
  error paths, the frame stack, and the role of end-tag names in the two reader settings.
*/
module DeserializeProperties {
  import opened Base
  import opened Assoc
  import opened Values
  import opened Deserialize

  /** The events the loop actually handles: everything before the first Eof. */
  function Processed(events: seq<ReaderEvent>): seq<ReaderEvent>
    decreases |events|
  {
    if events == [] || events[0] == Eof then [] else [events[0]] + Processed(events[1..])
  }

  function CountStarts(events: seq<ReaderEvent>): nat
    decreases |events|
  {
    if events == [] then 0 else (if events[0].Start? then 1 else 0) + CountStarts(events[1..])
  }

  function CountEnds(events: seq<ReaderEvent>): nat
    decreases |events|
  {
    if events == [] then 0 else (if events[0].End? then 1 else 0) + CountEnds(events[1..])
  }

  /** The name of the first Start or Empty tag with a non-empty name, before the first Eof. */
  function FirstTagName(events: seq<ReaderEvent>): string
    decreases |events|
  {
    if events == [] || events[0] == Eof then ""
    else if (events[0].Start? || events[0].Empty?) && events[0].name != "" then events[0].name
    else FirstTagName(events[1..])
  }

  /** The names of the open elements, outermost first. */
  function OpenNames(stack: seq<Frame>): seq<string> {
    seq(|stack|, i requires 0 <= i < |stack| => stack[i].name)
  }

  /**
    Every End event names the innermost open element (as a reader that checks end names
    guarantees); an End with nothing open is left to the engine.
  */
  predicate EndsMatch(events: seq<ReaderEvent>, open: seq<string>)
    decreases |events|
  {
    if events == [] then true
    else match events[0]
      case Start(n, _) => EndsMatch(events[1..], open + [n])
      case End(n) => open == [] || (open[|open| - 1] == n && EndsMatch(events[1..], open[..|open| - 1]))
      case Eof => true
      case Error(_) => true
      case _ => EndsMatch(events[1..], open)
  }

  function EraseEndName(e: ReaderEvent): ReaderEvent {
    if e.End? then End("") else e
  }

  function EraseEndNames(events: seq<ReaderEvent>): (r: seq<ReaderEvent>)
    ensures |r| == |events|
  {
    seq(|events|, i requires 0 <= i < |events| => EraseEndName(events[i]))
  }

  /** Without end-name checking, the names written in End events make no difference at all. */
  lemma {:induction false} EndNamesIgnored(events: seq<ReaderEvent>, pos: nat, st: State, keepNull: bool)
    ensures Run(events, pos, st, keepNull, RustReader) == Run(EraseEndNames(events), pos, st, keepNull, RustReader)
    decreases |events|
  {
    if events != [] {
      var erased := EraseEndNames(events);
      assert erased[0] == EraseEndName(events[0]);
      assert erased[1..] == EraseEndNames(events[1..]);
      assert Step(st, events[0], pos, keepNull, RustReader) == Step(st, erased[0], pos, keepNull, RustReader);
      match Step(st, events[0], pos, keepNull, RustReader)
      case Next(next) => EndNamesIgnored(events[1..], pos + 1, next, keepNull);
      case Halt =>
      case Abort(_) =>
    }
  }

  /** The src_rust copy's result does not depend on the names of closing tags. */
  lemma ParseIgnoresEndNames(events: seq<ReaderEvent>, keepNull: bool)
    ensures Parse(events, keepNull, RustReader) == Parse(EraseEndNames(events), keepNull, RustReader)
  {
    EndNamesIgnored(events, 0, Initial, keepNull);
  }

  /** Where the two reader settings can differ at all: an End whose name is not the innermost. */
  lemma StepReadersAgree(st: State, e: ReaderEvent, pos: nat, keepNull: bool)
    requires e.End? && st.stack != [] ==> st.stack[|st.stack| - 1].name == e.name
    ensures Step(st, e, pos, keepNull, DefaultReader) == Step(st, e, pos, keepNull, RustReader)
  {
  }

  /** How one event changes the frame stack. */
  lemma StepStack(st: State, e: ReaderEvent, pos: nat, keepNull: bool, config: ReaderConfig)
    requires Step(st, e, pos, keepNull, config).Next?
    ensures e.Start? ==> Step(st, e, pos, keepNull, config).state.stack == st.stack + [Frame(e.name, st.current, st.attributes)]
    ensures e.End? ==> st.stack != [] && Step(st, e, pos, keepNull, config).state.stack == st.stack[..|st.stack| - 1]
    ensures !e.Start? && !e.End? ==> Step(st, e, pos, keepNull, config).state.stack == st.stack
  {
    if e.End? {
      var frame := st.stack[|st.stack| - 1];
      var v := ElementValue(st.current, st.attributes);
      var popped := State(st.stack[..|st.stack| - 1], st.root, frame.parentValue, frame.parentAttributes, st.rootName);
      assert Attach(popped, frame.name, v).stack == popped.stack;
    } else if e.Empty? {
      var named := st.(rootName := RootNameAfter(st.rootName, e.name));
      assert Attach(named, e.name, Null).stack == st.stack;
    }
  }

  lemma {:induction false} ReadersAgreeFrom(events: seq<ReaderEvent>, pos: nat, st: State, keepNull: bool)
    requires EndsMatch(events, OpenNames(st.stack))
    ensures Run(events, pos, st, keepNull, DefaultReader) == Run(events, pos, st, keepNull, RustReader)
    decreases |events|
  {
    if events != [] {
      var open := OpenNames(st.stack);
      var e := events[0];
      StepReadersAgree(st, e, pos, keepNull);
      var step := Step(st, e, pos, keepNull, RustReader);
      if step.Next? {
        var next := step.state;
        StepStack(st, e, pos, keepNull, RustReader);
        if e.Start? {
          assert OpenNames(next.stack) == open + [e.name];
        } else if e.End? {
          assert OpenNames(next.stack) == open[..|open| - 1];
        } else {
          assert OpenNames(next.stack) == open;
        }
        assert EndsMatch(events[1..], OpenNames(next.stack));
        ReadersAgreeFrom(events[1..], pos + 1, next, keepNull);
      }
    }
  }

  /**
    On input whose closing tags all match, the two copies (with and without end-name checking)
    produce the same result.
  */
  lemma ReadersAgree(events: seq<ReaderEvent>, keepNull: bool)
    requires EndsMatch(events, [])
    ensures Parse(events, keepNull, DefaultReader) == Parse(events, keepNull, RustReader)
  {
    assert OpenNames(Initial.stack) == [];
    ReadersAgreeFrom(events, 0, Initial, keepNull);
  }

  /** A reader error that the loop reaches aborts the parse: no partial tree is returned. */
  lemma {:induction false} ReaderErrorAborts(events: seq<ReaderEvent>, k: nat, pos: nat, st: State,
                                             keepNull: bool, config: ReaderConfig)
    requires k < |events| && events[k].Error?
    requires forall j :: 0 <= j < k ==> events[j] != Eof
    ensures Run(events, pos, st, keepNull, config).Failed?
    decreases k
  {
    if k > 0 {
      match Step(st, events[0], pos, keepNull, config)
      case Next(next) => ReaderErrorAborts(events[1..], k - 1, pos + 1, next, keepNull, config);
      case Halt =>
      case Abort(_) =>
    }
  }

  lemma ParseErrorAborts(events: seq<ReaderEvent>, k: nat, keepNull: bool, config: ReaderConfig)
    requires k < |events| && events[k].Error?
    requires forall j :: 0 <= j < k ==> events[j] != Eof
    ensures Parse(events, keepNull, config).Err?
  {
    ReaderErrorAborts(events, k, 0, Initial, keepNull, config);
  }

  /** Every Start pushes exactly one frame and every End pops exactly one. */
  lemma {:induction false} StackDepth(events: seq<ReaderEvent>, pos: nat, st: State, keepNull: bool, config: ReaderConfig)
    requires Run(events, pos, st, keepNull, config).Stopped?
    ensures |Run(events, pos, st, keepNull, config).state.stack| + CountEnds(Processed(events))
         == |st.stack| + CountStarts(Processed(events))
    decreases |events|
  {
    if events != [] && events[0] != Eof {
      assert Processed(events) == [events[0]] + Processed(events[1..]);
      assert Processed(events)[1..] == Processed(events[1..]);
      var step := Step(st, events[0], pos, keepNull, config);
      if step.Next? {
        StepStack(st, events[0], pos, keepNull, config);
        StackDepth(events[1..], pos + 1, step.state, keepNull, config);
      }
    }
  }

  /** Start and Empty set a root name that is still unset; no other event touches it. */
  lemma StepRootName(st: State, e: ReaderEvent, pos: nat, keepNull: bool, config: ReaderConfig)
    requires Step(st, e, pos, keepNull, config).Next?
    ensures Step(st, e, pos, keepNull, config).state.rootName
         == if e.Start? || e.Empty? then RootNameAfter(st.rootName, e.name) else st.rootName
  {
    if e.End? {
      var frame := st.stack[|st.stack| - 1];
      var v := ElementValue(st.current, st.attributes);
      var popped := State(st.stack[..|st.stack| - 1], st.root, frame.parentValue, frame.parentAttributes, st.rootName);
      assert Attach(popped, frame.name, v).rootName == st.rootName;
    } else if e.Empty? {
      var named := st.(rootName := RootNameAfter(st.rootName, e.name));
      assert forall v :: Attach(named, e.name, v).rootName == named.rootName;
    }
  }

  lemma {:induction false} RootNameFrom(events: seq<ReaderEvent>, pos: nat, st: State, keepNull: bool, config: ReaderConfig)
    requires Run(events, pos, st, keepNull, config).Stopped?
    ensures Run(events, pos, st, keepNull, config).state.rootName
         == if st.rootName != "" then st.rootName else FirstTagName(events)
    decreases |events|
  {
    if events != [] && events[0] != Eof {
      var step := Step(st, events[0], pos, keepNull, config);
      if step.Next? {
        StepRootName(st, events[0], pos, keepNull, config);
        RootNameFrom(events[1..], pos + 1, step.state, keepNull, config);
      }
    }
  }

  /** A successful parse is a one-key Object under the name of the first tag. */
  lemma ParseResultShape(events: seq<ReaderEvent>, keepNull: bool, config: ReaderConfig)
    ensures var r := Parse(events, keepNull, config);
      r.Ok? ==> r.value.Obj? && |r.value.entries| == 1 && r.value.entries[0].0 == FirstTagName(events)
  {
    if Run(events, 0, Initial, keepNull, config).Stopped? {
      RootNameFrom(events, 0, Initial, keepNull, config);
    }
  }

  /** Once a value has been stored in `root`, the slot is never emptied again. */
  lemma {:induction false} RootStaysSet(events: seq<ReaderEvent>, pos: nat, st: State, keepNull: bool, config: ReaderConfig)
    requires st.root.Some?
    requires Run(events, pos, st, keepNull, config).Stopped?
    ensures Run(events, pos, st, keepNull, config).state.root.Some?
    decreases |events|
  {
    if events != [] {
      var step := Step(st, events[0], pos, keepNull, config);
      if step.Next? {
        StepKeepsRoot(st, events[0], pos, keepNull, config);
        RootStaysSet(events[1..], pos + 1, step.state, keepNull, config);
      }
    }
  }

  lemma StepKeepsRoot(st: State, e: ReaderEvent, pos: nat, keepNull: bool, config: ReaderConfig)
    requires st.root.Some? && Step(st, e, pos, keepNull, config).Next?
    ensures Step(st, e, pos, keepNull, config).state.root.Some?
  {
    if e.End? {
      var frame := st.stack[|st.stack| - 1];
      var popped := State(st.stack[..|st.stack| - 1], st.root, frame.parentValue, frame.parentAttributes, st.rootName);
      assert forall v :: Attach(popped, frame.name, v).root.Some?;
    } else if e.Empty? {
      var named := st.(rootName := RootNameAfter(st.rootName, e.name));
      assert forall v :: Attach(named, e.name, v).root.Some?;
    }
  }

  /** The loop itself never reports an empty document; only the final wrap does. */
  lemma {:induction false} LoopNeverEmptyDocument(events: seq<ReaderEvent>, pos: nat, st: State, keepNull: bool, config: ReaderConfig)
    ensures Run(events, pos, st, keepNull, config) != Failed(EmptyDocument)
    decreases |events|
  {
    if events != [] {
      match Step(st, events[0], pos, keepNull, config)
      case Next(next) => LoopNeverEmptyDocument(events[1..], pos + 1, next, keepNull, config);
      case Halt =>
      case Abort(_) =>
    }
  }

  /** "Empty XML document" is exactly the case where the loop stops with `root` never set. */
  lemma EmptyDocumentIffRootUnset(events: seq<ReaderEvent>, keepNull: bool, config: ReaderConfig)
    ensures var run := Run(events, 0, Initial, keepNull, config);
      (Parse(events, keepNull, config) == Err(EmptyDocument)) <==> (run.Stopped? && run.state.root.None?)
    ensures var run := Run(events, 0, Initial, keepNull, config);
      run.Stopped? && run.state.root.Some? ==>
        Parse(events, keepNull, config) == Ok(Obj([(FirstTagName(events), run.state.root.value)]))
  {
    LoopNeverEmptyDocument(events, 0, Initial, keepNull, config);
    if Run(events, 0, Initial, keepNull, config).Stopped? {
      RootNameFrom(events, 0, Initial, keepNull, config);
    }
  }

  lemma {:induction false} NoTagNoRoot(events: seq<ReaderEvent>, pos: nat, st: State, keepNull: bool, config: ReaderConfig)
    requires st.stack == [] && st.root.None?
    requires forall j :: 0 <= j < |Processed(events)| ==> !Processed(events)[j].Start? && !Processed(events)[j].Empty?
    ensures var run := Run(events, pos, st, keepNull, config);
      run.Stopped? ==> run.state.root.None?
    decreases |events|
  {
    if events != [] && events[0] != Eof {
      assert Processed(events) == [events[0]] + Processed(events[1..]);
      assert Processed(events)[0] == events[0];
      assert forall j :: 0 <= j < |Processed(events[1..])| ==> Processed(events[1..])[j] == Processed(events)[j + 1];
      match Step(st, events[0], pos, keepNull, config)
      case Next(next) => NoTagNoRoot(events[1..], pos + 1, next, keepNull, config);
      case Halt =>
      case Abort(_) =>
    }
  }

  /** A document without any Start or Empty tag before Eof never parses. */
  lemma NoTagNoDocument(events: seq<ReaderEvent>, keepNull: bool, config: ReaderConfig)
    requires forall j :: 0 <= j < |Processed(events)| ==> !Processed(events)[j].Start? && !Processed(events)[j].Empty?
    ensures Parse(events, keepNull, config).Err?
  {
    NoTagNoRoot(events, 0, Initial, keepNull, config);
  }

  predicate OptionWellFormed(o: Option<Value>) {
    o.Some? ==> WellFormed(o.value)
  }

  /** Every value the engine holds between two events, and every pending attribute map, is well formed. */
  predicate StateWellFormed(st: State) {
    && OptionWellFormed(st.root) && OptionWellFormed(st.current)
    && UniqueKeys(st.attributes) && AllWellFormed(st.attributes)
    && forall i :: 0 <= i < |st.stack| ==>
         && OptionWellFormed(st.stack[i].parentValue)
         && UniqueKeys(st.stack[i].parentAttributes) && AllWellFormed(st.stack[i].parentAttributes)
  }

  lemma CollectedWellFormed(pairs: seq<(string, string)>)
    ensures AllWellFormed(CollectAttributes(pairs))
  {
    var attrs := CollectAttributes(pairs);
    forall i | 0 <= i < |attrs| ensures WellFormed(attrs[i].1) {
      assert attrs[i].1.Str?;
    }
  }

  lemma MergedWellFormed(obj: seq<(string, Value)>, attrs: Attributes)
    requires UniqueKeys(obj) && AllWellFormed(obj) && AllWellFormed(attrs)
    ensures UniqueKeys(MergeAttributes(obj, attrs)) && AllWellFormed(MergeAttributes(obj, attrs))
  {
    var r := MergeAttributes(obj, attrs);
    MergeAttributesShape(obj, attrs);
    MergeAttributesMembers(obj, attrs);
    forall i | 0 <= i < |r| ensures WellFormed(r[i].1) {
      assert r[i] in r;
      if r[i] in obj {
        var j :| 0 <= j < |obj| && obj[j] == r[i];
      } else {
        var j :| 0 <= j < |attrs| && attrs[j] == r[i];
      }
    }
  }

  /** A finished element's value is well formed. */
  lemma ElementValueWellFormed(current: Option<Value>, attrs: Attributes)
    requires OptionWellFormed(current) && AllWellFormed(attrs)
    ensures WellFormed(ElementValue(current, attrs))
  {
    var acc := Accumulated(current);
    assert UniqueKeys(acc) && AllWellFormed(acc);
    MergedWellFormed(acc, attrs);
    LookupWellFormed(MergeAttributes(acc, attrs), "#text");
  }

  lemma EmptyElementValueWellFormed(attrs: Attributes, keepNull: bool)
    requires AllWellFormed(attrs)
    ensures var o := EmptyElementValue(attrs, keepNull); o.Some? ==> WellFormed(o.value)
  {
    MergedWellFormed([], attrs);
  }

  /** Attaching a well-formed child keeps the parent well formed, Array promotion included. */
  lemma InsertOrPromoteWellFormed(parent: seq<(string, Value)>, name: string, v: Value)
    requires UniqueKeys(parent) && AllWellFormed(parent) && WellFormed(v)
    ensures WellFormed(Obj(InsertOrPromote(parent, name, v)))
  {
    var entry: Option<Value> := Lookup(parent, name);
    LookupWellFormed(parent, name);
    match entry
    case None => PutWellFormed(parent, name, v);
    case Some(Arr(items)) =>
      assert WellFormed(Arr(items + [v]));
      PutWellFormed(parent, name, Arr(items + [v]));
    case Some(existing) =>
      assert WellFormed(Arr([existing, v]));
      PutWellFormed(parent, name, Arr([existing, v]));
  }

  lemma AttachWellFormed(st: State, name: string, v: Value)
    requires StateWellFormed(st) && WellFormed(v)
    ensures StateWellFormed(Attach(st, name, v))
  {
    match st.current
    case Some(Obj(parent)) => InsertOrPromoteWellFormed(parent, name, v);
    case _ =>
  }

  /** One event keeps the engine's state well formed. */
  lemma StepWellFormed(st: State, event: ReaderEvent, pos: nat, keepNull: bool, config: ReaderConfig)
    requires StateWellFormed(st)
    ensures var out := Step(st, event, pos, keepNull, config);
      out.Next? ==> StateWellFormed(out.state)
  {
    match event
    case Start(name, pairs) =>
      CollectedWellFormed(pairs);
      var next := Step(st, event, pos, keepNull, config).state;
      assert next.stack == st.stack + [Frame(name, st.current, st.attributes)];
    case End(found) =>
      if st.stack != [] {
        var frame := st.stack[|st.stack| - 1];
        ElementValueWellFormed(st.current, st.attributes);
        var v := ElementValue(st.current, st.attributes);
        var popped := State(st.stack[..|st.stack| - 1], st.root, frame.parentValue,
                            frame.parentAttributes, st.rootName);
        assert StateWellFormed(popped);
        if Kept(v, keepNull) {
          AttachWellFormed(popped, frame.name, v);
        }
      }
    case Empty(name, pairs) =>
      CollectedWellFormed(pairs);
      EmptyElementValueWellFormed(CollectAttributes(pairs), keepNull);
      var named := st.(rootName := RootNameAfter(st.rootName, name));
      var o := EmptyElementValue(CollectAttributes(pairs), keepNull);
      if o.Some? && Kept(o.value, keepNull) {
        AttachWellFormed(named, name, o.value);
      }
    case Text(_) =>
    case Eof =>
    case Error(_) =>
    case Other =>
  }

  lemma {:induction false} RunWellFormed(events: seq<ReaderEvent>, pos: nat, st: State, keepNull: bool, config: ReaderConfig)
    requires StateWellFormed(st)
    ensures var run := Run(events, pos, st, keepNull, config);
      run.Stopped? ==> StateWellFormed(run.state)
    decreases |events|
  {
    if events != [] {
      StepWellFormed(st, events[0], pos, keepNull, config);
      match Step(st, events[0], pos, keepNull, config)
      case Next(next) => RunWellFormed(events[1..], pos + 1, next, keepNull, config);
      case Halt =>
      case Abort(_) =>
    }
  }

  /** Whatever the input, a parsed document is a well-formed tree: no Object has a repeated key. */
  lemma ParseWellFormed(events: seq<ReaderEvent>, keepNull: bool, config: ReaderConfig)
    ensures var r := Parse(events, keepNull, config);
      r.Ok? ==> WellFormed(r.value)
  {
    RunWellFormed(events, 0, Initial, keepNull, config);
  }
}
