/**
  The XML writer both serialisers append to (`quick_xml::Writer` over an in-memory buffer),
  kept as the list of events written so far; escaping and byte encoding are the writer's
  business and are not modelled. Also: when an event list is well nested, and which elements
  sit at its top level.
*/
module XmlWriter {
  import opened Base

  datatype XmlEvent =
    | Decl(version: string, encoding: Option<string>, standalone: Option<string>)
    | Start(name: string, attributes: seq<(string, string)>)
    | Text(content: string)
    | End(name: string)
    | Empty(name: string, attributes: seq<(string, string)>)

  class Writer {
    var events: seq<XmlEvent>

    constructor()
      ensures events == []
    {
      events := [];
    }

    /** `write_event`: the event goes at the end of the buffer. */
    method WriteEvent(e: XmlEvent)
      modifies this
      ensures events == old(events) + [e]
    {
      events := events + [e];
    }
  }

  /**
    Replays `evs` against the stack of open element names: Start pushes, End must close the
    innermost open element. The final stack, or None at the first End that does not match.
  */
  function Close(evs: seq<XmlEvent>, open: seq<string>): Option<seq<string>>
    decreases |evs|
  {
    if evs == [] then Some(open)
    else match evs[0]
      case Start(n, _) => Close(evs[1..], open + [n])
      case End(n) =>
        if open != [] && open[|open| - 1] == n then Close(evs[1..], open[..|open| - 1]) else None
      case _ => Close(evs[1..], open)
  }

  /** Every Start is closed by an End of the same name, after everything written inside it. */
  predicate Balanced(evs: seq<XmlEvent>) {
    Close(evs, []) == Some([])
  }

  /** The names of the elements opened while nothing else is open: the top-level elements. */
  function Roots(evs: seq<XmlEvent>, open: seq<string>): seq<string>
    decreases |evs|
  {
    if evs == [] then []
    else match evs[0]
      case Start(n, _) => (if open == [] then [n] else []) + Roots(evs[1..], open + [n])
      case End(_) => Roots(evs[1..], if open == [] then [] else open[..|open| - 1])
      case Empty(n, _) => (if open == [] then [n] else []) + Roots(evs[1..], open)
      case _ => Roots(evs[1..], open)
  }

  /** The contents of the Text events, in order. */
  function Texts(evs: seq<XmlEvent>): seq<string>
    decreases |evs|
  {
    if evs == [] then []
    else (if evs[0].Text? then [evs[0].content] else []) + Texts(evs[1..])
  }

  function Repeat(n: string, count: nat): (r: seq<string>)
    ensures |r| == count && forall i :: 0 <= i < count ==> r[i] == n
  {
    if count == 0 then [] else [n] + Repeat(n, count - 1)
  }

  lemma TailAppend(a: seq<XmlEvent>, b: seq<XmlEvent>)
    requires a != []
    ensures (a + b)[0] == a[0] && (a + b)[1..] == a[1..] + b
  {
  }

  /** Replaying a concatenation is replaying the halves one after the other. */
  lemma {:induction false} CloseAppend(a: seq<XmlEvent>, b: seq<XmlEvent>, open: seq<string>)
    ensures Close(a + b, open) == match Close(a, open) case None => None case Some(o) => Close(b, o)
    decreases |a|
  {
    if a != [] {
      TailAppend(a, b);
      match a[0] {
        case Start(n, _) => CloseAppend(a[1..], b, open + [n]);
        case End(n) =>
          if open != [] && open[|open| - 1] == n {
            CloseAppend(a[1..], b, open[..|open| - 1]);
          }
        case Text(_) => CloseAppend(a[1..], b, open);
        case Empty(_, _) => CloseAppend(a[1..], b, open);
        case Decl(_, _, _) => CloseAppend(a[1..], b, open);
      }
    } else {
      assert a + b == b;
    }
  }

  lemma {:induction false} RootsAppend(a: seq<XmlEvent>, b: seq<XmlEvent>, open: seq<string>, o: seq<string>)
    requires Close(a, open) == Some(o)
    ensures Roots(a + b, open) == Roots(a, open) + Roots(b, o)
    decreases |a|
  {
    if a != [] {
      TailAppend(a, b);
      match a[0] {
        case Start(n, _) => RootsAppend(a[1..], b, open + [n], o);
        case End(n) => RootsAppend(a[1..], b, open[..|open| - 1], o);
        case Text(_) => RootsAppend(a[1..], b, open, o);
        case Empty(_, _) => RootsAppend(a[1..], b, open, o);
        case Decl(_, _, _) => RootsAppend(a[1..], b, open, o);
      }
    } else {
      assert a + b == b;
    }
  }

  /** A replay that succeeds on one stack succeeds the same way below any further open elements. */
  lemma {:induction false} CloseBelow(a: seq<XmlEvent>, p: seq<string>, s: seq<string>, t: seq<string>)
    requires Close(a, s) == Some(t)
    ensures Close(a, p + s) == Some(p + t)
    ensures p != [] ==> Roots(a, p + s) == []
    decreases |a|
  {
    if a != [] {
      match a[0] {
        case Start(n, _) =>
          assert p + s + [n] == p + (s + [n]);
          CloseBelow(a[1..], p, s + [n], t);
        case End(n) =>
          assert (p + s)[..|p + s| - 1] == p + s[..|s| - 1];
          CloseBelow(a[1..], p, s[..|s| - 1], t);
        case Text(_) => CloseBelow(a[1..], p, s, t);
        case Empty(_, _) => CloseBelow(a[1..], p, s, t);
        case Decl(_, _, _) => CloseBelow(a[1..], p, s, t);
      }
    }
  }

  /** A self-closing element on its own is balanced and is one top-level element. */
  lemma EmptyNested(n: string, attrs: seq<(string, string)>)
    ensures Balanced([Empty(n, attrs)]) && Roots([Empty(n, attrs)], []) == [n]
  {
    assert [Empty(n, attrs)][1..] == [];
  }

  /** Wrapping a balanced body in Start(n) … End(n) gives one balanced element named `n`. */
  lemma Wrap(n: string, attrs: seq<(string, string)>, body: seq<XmlEvent>)
    requires Balanced(body)
    ensures Balanced([Start(n, attrs)] + body + [End(n)])
    ensures Roots([Start(n, attrs)] + body + [End(n)], []) == [n]
  {
    var evs := [Start(n, attrs)] + body + [End(n)];
    CloseBelow(body, [n], [], []);
    assert [n] + [] == [n];
    var empty: seq<string> := [];
    assert empty + [n] == [n];
    assert evs == [Start(n, attrs)] + (body + [End(n)]);
    assert evs[1..] == body + [End(n)];
    CloseAppend(body, [End(n)], [n]);
    RootsAppend(body, [End(n)], [n], [n]);
    assert Close([End(n)], [n]) == Some([]);
    assert Close(evs, []) == Close(body + [End(n)], [n]);
    assert Roots([End(n)], [n]) == [];
  }

  /** Two balanced lists in a row are balanced, with the top-level elements of both. */
  lemma Concat(a: seq<XmlEvent>, b: seq<XmlEvent>)
    requires Balanced(a) && Balanced(b)
    ensures Balanced(a + b)
    ensures Roots(a + b, []) == Roots(a, []) + Roots(b, [])
  {
    CloseAppend(a, b, []);
    RootsAppend(a, b, [], []);
  }

  lemma {:induction false} TextsAppend(a: seq<XmlEvent>, b: seq<XmlEvent>)
    ensures Texts(a + b) == Texts(a) + Texts(b)
    decreases |a|
  {
    if a != [] {
      TailAppend(a, b);
      TextsAppend(a[1..], b);
    } else {
      assert a + b == b;
    }
  }
}
