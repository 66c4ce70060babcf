/**
  The plain serialiser of src_rust/ariane/serialize.rs (`value_to_xml`, `dict_to_xml_str`).

  Every Object key becomes a child element, `@` and `#text` keys included; an Array repeats
  its element name once per item; scalars become the text of their element, and Null a
  self-closing element. `PlainEvents` specifies the events written for a value and
  `PlainValueToXml` is the recursive writer, proved to append exactly those.
*/
module PlainSerialize {
  import opened Base
  import opened Values
  import opened XmlWriter

  function DigitChar(d: nat): char
    requires d < 10
  {
    "0123456789"[d]
  }

  /** The decimal digits of `n`, most significant first, without leading zeros. */
  function Digits(n: nat): (s: string)
    ensures |s| >= 1 && forall i :: 0 <= i < |s| ==> '0' <= s[i] <= '9'
    ensures |s| > 1 ==> s[0] != '0'
    decreases n
  {
    if n < 10 then [DigitChar(n)] else Digits(n / 10) + [DigitChar(n % 10)]
  }

  /** An integer Number's `to_string()`: a `-` sign for negatives, then the digits. */
  function Decimal(n: int): string {
    if n < 0 then "-" + Digits(-n) else Digits(n)
  }

  /** Reading a string of decimal digits back (reference definition). */
  function DigitsValue(s: string): nat
    requires forall i :: 0 <= i < |s| ==> '0' <= s[i] <= '9'
    decreases |s|
  {
    if s == [] then 0
    else
      assert s[|s| - 1] as int >= '0' as int;
      DigitsValue(s[..|s| - 1]) * 10 + (s[|s| - 1] as int - '0' as int)
  }

  function ReadDecimal(s: string): int
    requires forall i :: 0 <= i < |s| ==> '0' <= s[i] <= '9' || (i == 0 && s[i] == '-')
  {
    if s != [] && s[0] == '-' then -(DigitsValue(s[1..]) as int) else DigitsValue(s)
  }

  lemma {:induction false} DigitsRoundTrip(n: nat)
    ensures DigitsValue(Digits(n)) == n
    decreases n
  {
    if n >= 10 {
      DigitsRoundTrip(n / 10);
      var s := Digits(n);
      assert s[..|s| - 1] == Digits(n / 10);
    }
  }

  /** The rendering of an integer reads back as the same integer: no two Numbers share a text. */
  lemma DecimalRoundTrip(n: int)
    ensures ReadDecimal(Decimal(n)) == n
  {
    if n < 0 {
      DigitsRoundTrip(-n);
      assert Decimal(n)[1..] == Digits(-n);
    } else {
      DigitsRoundTrip(n);
    }
  }

  /** `<name>text</name>` */
  function Leaf(name: string, text: string): seq<XmlEvent> {
    [Start(name, []), Text(text), End(name)]
  }

  function BoolText(b: bool): string {
    if b then "true" else "false"
  }

  /** The events written for `v` under `name`. */
  function PlainEvents(v: Value, name: string): seq<XmlEvent>
    decreases v, 1
  {
    match v
    case Obj(entries) => [Start(name, [])] + EntriesEvents(v, |entries|) + [End(name)]
    case Arr(items) => ItemsEvents(v, name, |items|)
    case Str(s) => Leaf(name, s)
    case Num(n) => Leaf(name, Decimal(n))
    case Bool(b) => Leaf(name, BoolText(b))
    case Null => [Empty(name, [])]
  }

  /** The first `n` entries of Object `v`, each under its own key. */
  function EntriesEvents(v: Value, n: nat): seq<XmlEvent>
    requires v.Obj? && n <= |v.entries|
    decreases v, 0, n
  {
    if n == 0 then [] else EntriesEvents(v, n - 1) + PlainEvents(v.entries[n - 1].1, v.entries[n - 1].0)
  }

  /** The first `n` items of Array `v`, each under `name`. */
  function ItemsEvents(v: Value, name: string, n: nat): seq<XmlEvent>
    requires v.Arr? && n <= |v.items|
    decreases v, 0, n
  {
    if n == 0 then [] else ItemsEvents(v, name, n - 1) + PlainEvents(v.items[n - 1], name)
  }

  lemma Regroup(a: seq<XmlEvent>, b: seq<XmlEvent>, c: seq<XmlEvent>)
    ensures a + b + c == a + (b + c)
  {
  }

  /** `value_to_xml`. */
  method PlainValueToXml(value: Value, name: string, w: Writer)
    modifies w
    ensures w.events == old(w.events) + PlainEvents(value, name)
    decreases value
  {
    match value {
      case Obj(entries) =>
        w.WriteEvent(Start(name, []));
        ghost var header := w.events;
        for j := 0 to |entries|
          invariant w.events == header + EntriesEvents(value, j)
        {
          var (k, v) := entries[j];
          assert entries[j] in value.entries;
          PlainValueToXml(v, k, w);
        }
        w.WriteEvent(End(name));
        Regroup(old(w.events), [Start(name, [])] + EntriesEvents(value, |entries|), [End(name)]);
      case Arr(items) =>
        for j := 0 to |items|
          invariant w.events == old(w.events) + ItemsEvents(value, name, j)
        {
          PlainValueToXml(items[j], name, w);
        }
      case Str(s) =>
        w.WriteEvent(Start(name, []));
        w.WriteEvent(Text(s));
        w.WriteEvent(End(name));
      case Num(n) =>
        w.WriteEvent(Start(name, []));
        w.WriteEvent(Text(Decimal(n)));
        w.WriteEvent(End(name));
      case Bool(b) =>
        w.WriteEvent(Start(name, []));
        w.WriteEvent(Text(if b then "true" else "false"));
        w.WriteEvent(End(name));
      case Null =>
        w.WriteEvent(Empty(name, []));
    }
  }

  /** `dict_to_xml_str`: the XML declaration, then the events of the root value. */
  method PlainDictToXmlStr(data: Value, rootName: string) returns (out: seq<XmlEvent>)
    requires data.Obj?
    ensures out == [Decl("1.0", Some("utf-8"), None)] + PlainEvents(data, rootName)
  {
    var w := new Writer();
    w.WriteEvent(Decl("1.0", Some("utf-8"), None));
    PlainValueToXml(data, rootName, w);
    out := w.events;
  }
}
