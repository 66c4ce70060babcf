# OpenSpeleo core conversions, modelled in Dafny

This project models the conversion core of the OpenSpeleo library. It proves properties of
three parts:

- **The XML parse engine** (`parse_xml`). It turns a stream of XML reader events into a
  JSON-like value tree. Attributes are stored under `@name` keys and text under `#text`.
  Repeated siblings coalesce into Arrays. Null and empty elements are suppressed unless
  `keep_null` is set. There are two copies of this engine: one in `src_rust`, with end-name
  checking off, and one in `src`, with the reader's default end-name checking.
- **The two XML serialisers** (`value_to_xml` and `dict_to_xml_str`).
  - The `src` serialiser is attribute-aware: `@` keys become attributes, `#text` becomes the
    element's text, and a non-Object value becomes a self-closing element.
  - The `src_rust` serialiser is plain: every key becomes a child element, and scalars become
    element text.
- **The key-renaming walk** (`apply_key_mapping`). It rebuilds nested dicts and lists from
  the host language (Python), renaming dict keys through a lookup table. There are two
  copies:
  - the `src_rust` copy, which accepts any key;
  - the `src` copy, which accepts string keys only and fails on any other key.

Each imperative loop of the source is written once as a Dafny `method` that follows it. The
same file also holds a specification function, and the method is proved to compute that
function. These are the pairs:

| method | specification function |
|---|---|
| `Deserialize.ParseXml` | `Deserialize.Parse` |
| `Serialize.ValueToXml` | `Serialize.Events` |
| `PlainSerialize.PlainValueToXml` | `PlainSerialize.PlainEvents` |
| `KeyMapping.ApplyKeyMapping` | `KeyMapping.Remap` |
| `KeyMapping.ApplyStringKeyMapping` | `KeyMapping.RemapStr` |

The properties the source promises are proved about those specification functions, in the
`*_properties.dfy` files and in `deserialize_rules.dfy`.

Shared pieces:

- `base.dfy` holds `Option` and `Result`.
- `assoc.dfy` models insertion-ordered maps as association lists. This covers serde_json's
  `Map`, the attribute hash maps and Python `dict`. `insert` and `set_item` overwrite an
  existing key in place and append a new one.
- `values.dfy` defines the value tree.
- `writer.dfy` models the XML writer as the list of events written so far. It also defines
  when an event list is well nested.

Behaviour of the code worth knowing:

- **Each Text event replaces the accumulator at once.** The reader trims text, and every
  non-blank Text event sets `current_value` to that String straight away.
- **An End with nothing open would panic if the reader delivered one.** The panic is in
  `stack.pop().unwrap()`. The reader may reject such an unmatched end tag before the engine
  sees it. The model calls this case `UnmatchedEnd`.
- **`<a><b></a>` can fail with "Empty XML document".** This happens in the `src_rust` copy,
  which checks no end names. The engine closes `b` and runs out of input with `a` still open.
- **A finished element can land in `root` with a parent still open.** The value goes into
  `root` whenever the restored accumulator is not an Object, for example when the parent
  holds text.
- **The `src` serialiser writes every non-Object value as a self-closing element.** Its text
  is dropped. Only the `src_rust` serialiser writes Strings, Numbers and Bools as text.
- **An element without a parent value may still be dropped.** `<a/>` without `keep_null` is
  dropped, so the document is empty.

## Model

| member | source | states |
|---|---|---|
| Assoc.Find | src_rust/ariane/deserialize.rs:122 | the index found holds the key, and no earlier entry does; None exactly when the key is absent |
| Assoc.Lookup | src_rust/ariane/deserialize.rs:122 | Some exactly when the key is present; with unique keys it is the value stored under it |
| Assoc.Put | src_rust/ariane/deserialize.rs:130 | `Map::insert` / `set_item`: the key now maps to the new value and every other key keeps its lookup; an existing key keeps its position and the length, and a new key is appended; uniqueness is preserved |
| Assoc.PutAll | src/mapping.rs:12-19 | inserting pairs one by one into an empty map gives unique keys, exactly the keys of the pairs, and at most as many entries |
| Assoc.PutAllLastWins | src/mapping.rs:17 | a key holds the value of the last pair inserted under it |
| Assoc.PutAllDistinct | src/mapping.rs:12-19 | pairs with distinct keys are stored as they are, in order |
| Deserialize.CollectAttributes | src_rust/ariane/deserialize.rs:51-60 | an attribute map has unique `@`-keys with String values, and each key `@n` looks up the last value the reader reported for `n` |
| Deserialize.MergeAttributesLookup | src_rust/ariane/deserialize.rs:96-98 | after the drain loop, attribute keys hold the attribute values and every other key keeps its accumulator value |
| Deserialize.MergeAttributesShape | src_rust/ariane/deserialize.rs:96-98 | the merge keeps keys unique and keeps the accumulator's keys in their places |
| Deserialize.MergeAttributesMembers | src_rust/ariane/deserialize.rs:96-98 | every merged entry comes from the accumulator or from the attributes |
| Deserialize.InsertOrPromote | src_rust/ariane/deserialize.rs:120-131 | a new name is inserted; an existing name becomes an Array whose siblings are the old ones plus the new value, in document order; other keys, key positions and uniqueness are unchanged |
| Deserialize.ReadAttributes | src_rust/ariane/deserialize.rs:56-60 | the attribute loop builds exactly `CollectAttributes` |
| Deserialize.DrainAttributes | src_rust/ariane/deserialize.rs:96-98 | the drain loop builds exactly `MergeAttributes` |
| Deserialize.CloseElement | src_rust/ariane/deserialize.rs:82-136 | the End branch after the pop: the parent's accumulators come back, and the element's `ElementValue` is attached to them exactly when `Kept`, otherwise the state is only the popped one |
| Deserialize.SelfClosingElement | src_rust/ariane/deserialize.rs:137-201 | the Empty branch after the root name: no value without attributes and keep_null off, otherwise `EmptyElementValue` attached exactly when `Kept`; the stack and the attribute accumulator are untouched |
| Deserialize.AttachValue | src_rust/ariane/deserialize.rs:119-134 | the attach code is `Attach`: the value goes under an Object accumulator, and otherwise into `root` |
| Deserialize.ParseXml | src_rust/ariane/deserialize.rs:24-223 | the event loop with its stack and accumulators returns exactly `Parse` of the events |
| DeserializeProperties.EndNamesIgnored | src_rust/ariane/deserialize.rs:28 | without end-name checking, the loop's outcome does not depend on the names in End events |
| DeserializeProperties.ParseIgnoresEndNames | src_rust/ariane/deserialize.rs:82-84 | the `src_rust` copy's result is unchanged when every End tag's name is erased |
| DeserializeProperties.ReadersAgreeFrom | src/ariane/deserialize.rs:26-27 | from any state, on events whose closing tags match the open elements, the checking and non-checking readers run the same |
| DeserializeProperties.ReadersAgree | src/ariane/deserialize.rs:24-215 | on input whose closing tags all match, the two copies give the same result |
| DeserializeProperties.ReaderErrorAborts | src/ariane/deserialize.rs:195-201 | a reader error reached before Eof makes the loop fail |
| DeserializeProperties.ParseErrorAborts | src/ariane/deserialize.rs:195-201 | a reader error reached before Eof makes the parse return Err, never a partial tree |
| DeserializeProperties.StackDepth | src/ariane/deserialize.rs:62-75 | final stack depth plus the End events handled equals the initial depth plus the Start events handled |
| DeserializeProperties.RootNameFrom | src/ariane/deserialize.rs:46-48 | the root name is the one already set, or else the first Start or Empty tag name |
| DeserializeProperties.ParseResultShape | src_rust/ariane/deserialize.rs:217-222 | a successful parse is a one-key Object keyed by the first tag's name |
| DeserializeProperties.RootStaysSet | src_rust/ariane/deserialize.rs:133 | once `root` holds a value, it keeps holding one |
| DeserializeProperties.LoopNeverEmptyDocument | src_rust/ariane/deserialize.rs:39-214 | the loop itself never fails with "Empty XML document" |
| DeserializeProperties.EmptyDocumentIffRootUnset | src_rust/ariane/deserialize.rs:217-222 | "Empty XML document" exactly when the loop ends with `root` unset; otherwise the result is `{first tag name: root}` |
| DeserializeProperties.NoTagNoRoot | src_rust/ariane/deserialize.rs:133 | with no Start or Empty tag, `root` is never set |
| DeserializeProperties.NoTagNoDocument | src_rust/ariane/deserialize.rs:222 | a document with no tag before Eof never parses |
| DeserializeProperties.CollectedWellFormed | src_rust/ariane/deserialize.rs:56-60 | an attribute map is well formed |
| DeserializeProperties.MergedWellFormed | src_rust/ariane/deserialize.rs:96-98 | merging attributes into a well-formed accumulator keeps it well formed with unique keys |
| DeserializeProperties.ElementValueWellFormed | src_rust/ariane/deserialize.rs:85-108 | a finished element's value is well formed |
| DeserializeProperties.EmptyElementValueWellFormed | src_rust/ariane/deserialize.rs:158-173 | a self-closing element's value is well formed |
| DeserializeProperties.InsertOrPromoteWellFormed | src_rust/ariane/deserialize.rs:120-131 | attaching a well-formed child, Array promotion included, keeps the parent well formed |
| DeserializeProperties.AttachWellFormed | src_rust/ariane/deserialize.rs:119-134 | attaching keeps the engine state well formed |
| DeserializeProperties.StepWellFormed | src_rust/ariane/deserialize.rs:41-212 | one event keeps the engine state well formed |
| DeserializeProperties.RunWellFormed | src_rust/ariane/deserialize.rs:39-214 | the whole loop keeps the engine state well formed |
| DeserializeProperties.ParseWellFormed | src_rust/ariane/deserialize.rs:24-223 | a parsed document never has an Object with a repeated key, at any depth |
| ElementRules.CollectedHasNoText | src_rust/ariane/deserialize.rs:59 | attribute keys never collide with `#text` |
| ElementRules.CollectedEmptyIff | src_rust/ariane/deserialize.rs:161 | the attribute map is empty exactly when the tag has no attributes |
| ElementRules.MergeIntoFresh | src_rust/ariane/deserialize.rs:164-167 | copying an attribute map into a fresh map rebuilds that map |
| ElementRules.ElementValueSpec | src_rust/ariane/deserialize.rs:85-108 | on End, the element collapses to the bare value exactly when it has no attributes and its accumulator is a lone `#text`; otherwise it is an Object that keeps the accumulator's keys in place, with attribute lookups overriding |
| ElementRules.TextOnlyCollapses | src_rust/ariane/deserialize.rs:104-105 | a text-only element without attributes is its bare text |
| ElementRules.TextWithAttributes | src_rust/ariane/deserialize.rs:87-98 | text with attributes gives an Object with `#text` first and the `@` attributes |
| ElementRules.SelfClosingValue | src_rust/ariane/deserialize.rs:158-173 | a self-closing element is Null under keep_null whatever its attributes; otherwise it is nothing without attributes and exactly its attribute Object with them |
| ElementRules.InsertFresh | src_rust/ariane/deserialize.rs:129-130 | the first child under a name is stored as it is |
| ElementRules.InsertAgain | src_rust/ariane/deserialize.rs:125-127 | the second child under a name makes `[old, new]` |
| ElementRules.InsertOnto | src_rust/ariane/deserialize.rs:123-124 | later children under that name are appended |
| ElementRules.SingleChildKept | src_rust/ariane/deserialize.rs:104-107 | a single child not named `#text` is not collapsed |
| ElementRules.OneAttribute | src_rust/ariane/deserialize.rs:59 | one attribute `n="s"` gives `{"@n": "s"}` |
| ElementRules.TextChild | src_rust/ariane/deserialize.rs:63-134 | `<x>a</x>` inside an open element attaches `"a"` under `x` |
| ElementRules.OpenRoot | src_rust/ariane/deserialize.rs:42-66 | opening the root pushes one frame and sets the root name |
| ElementRules.CloseRoot | src_rust/ariane/deserialize.rs:82-134 | closing the root with members `m` stores `Obj(m)` in `root` |
| ElementRules.DuplicatesCoalesce | src_rust/ariane/deserialize.rs:120-131 | `<r><x>a</x><x>b</x><x>c</x></r>` gives `{r: {x: [a, b, c]}}` |
| ElementRules.TextReplacesChildren | src_rust/ariane/deserialize.rs:77-80 | text after a child replaces the accumulator, so `<r><x>s</x>t</r>` gives `{r: t}` |
| ElementRules.TextReplacesTail | src_rust/ariane/deserialize.rs:77-80 | a text event and then the root's End make that text the document |
| ElementRules.OrphanBecomesRoot | src_rust/ariane/deserialize.rs:132-134 | a child finished while the parent holds text overwrites `root` |
| ElementRules.SelfClosingChildKeepNull | src_rust/ariane/deserialize.rs:158-159 | `<r><x .../></r>` under keep_null gives `{r: {x: null}}` |
| ElementRules.SelfClosingChildDropped | src_rust/ariane/deserialize.rs:161-162 | `<r><x/></r>` without keep_null drops `x`, then `r`: an empty document |
| ElementRules.SelfClosingChildAttributes | src_rust/ariane/deserialize.rs:163-171 | `<r><x a=".."/></r>` without keep_null gives `{r: {x: <its attribute Object>}}` |
| ElementRules.AttributeChildStep | src_rust/ariane/deserialize.rs:137-200 | the Empty event with attributes attaches its attribute Object |
| ElementRules.EmptyChildElement | src_rust/ariane/deserialize.rs:111-117 | `<r><x></x></r>` gives `{r: {x: {}}}` under keep_null, and an empty document without it |
| ElementRules.SelfClosingRoot | src_rust/ariane/deserialize.rs:158-162 | `<a/>` gives `{a: null}` under keep_null, and an empty document without it |
| ElementRules.AttributesMergeWithText | src/ariane/deserialize.rs:76-99 | `<r n="s">t</r>` gives `{r: {"#text": t, "@n": s}}` |
| ElementRules.MismatchedTagsFail | src/ariane/deserialize.rs:195-201 | `<a><b></a>` is a reader error at the third event in the `src` copy, and an empty document in the `src_rust` copy |
| XmlWriter.Writer.constructor | src/ariane/serialize.rs:15 | a new writer has written nothing |
| XmlWriter.Writer.WriteEvent | src/ariane/serialize.rs:103-105 | `write_event` appends the event and nothing else |
| XmlWriter.Wrap | src/ariane/serialize.rs:107-132 | Start, a balanced body and a matching End form one balanced element |
| XmlWriter.Concat | src/ariane/serialize.rs:119-128 | balanced event lists in a row are balanced, with the top-level elements of both |
| Serialize.TrimAts | src/ariane/serialize.rs:84 | `trim_start_matches('@')`: a suffix of the key, with only `@` removed, not starting with `@` |
| Serialize.AttributesOf | src/ariane/serialize.rs:81-88 | no attribute name starts with `@`; empty exactly when no key starts with `@` |
| Serialize.TextOf | src/ariane/serialize.rs:89-90 | Some exactly when there is a `#text` key; with unique keys it is that value's string, or `""` |
| Serialize.ChildrenOf | src/ariane/serialize.rs:91-93 | the children are entries of the Object with child names, with unique keys, holding exactly the keys that are neither `@` keys nor `#text` |
| Serialize.SortEntries | src/ariane/serialize.rs:77-95 | the first loop builds exactly the attributes, the text and the children |
| Serialize.ValueToXml | src/ariane/serialize.rs:72-136 | `value_to_xml` appends exactly `Events(value, name)` to the writer |
| Serialize.WriteChildren | src/ariane/serialize.rs:119-128 | the children loop appends each child's events in order |
| Serialize.WriteChild | src/ariane/serialize.rs:120-127 | an Array child is written item by item under the same name |
| Serialize.DictToXmlStr | src/ariane/serialize.rs:13-29 | the output is the XML declaration followed by the root element's events |
| SerializeProperties.EventsNested | src/ariane/serialize.rs:102-133 | every value is written as exactly one well-nested element with the given name |
| SerializeProperties.ChildrenNested | src/ariane/serialize.rs:119-128 | the children are well nested, with one top-level element per child, or per item of an Array child |
| SerializeProperties.ChildNested | src/ariane/serialize.rs:120-127 | an Array child is one element per item, and any other child one element |
| SerializeProperties.ItemsNested | src/ariane/serialize.rs:121-125 | an Array of n items is written as n elements, all with the key's name |
| SerializeProperties.DocumentShape | src/ariane/serialize.rs:13-29 | the document is the declaration and then one well-nested element named `root_name` |
| SerializeProperties.SelfClosingIff | src/ariane/serialize.rs:102-105 | an Object is written self-closing exactly when all its keys are `@` keys, carrying its attributes |
| SerializeProperties.TextBeforeChildren | src/ariane/serialize.rs:107-117 | `#text` is written right after the start tag and before any child |
| SerializeProperties.ScalarSelfCloses | src/ariane/serialize.rs:81 | a non-Object value is written `<name/>` and its text is lost |
| SerializeProperties.ChildrenInObjectOrder | src/ariane/serialize.rs:91-93 | with unique keys, the children come in Object order, filtered (checked against a reference filter) |
| SerializeProperties.AttributeExample | src/ariane/serialize.rs:83-105 | `{"@id": "7"}` gives `<r id="7"/>`, and adding `#text` `hi` gives `<r id="7">hi</r>` |
| PlainSerialize.Digits | src_rust/ariane/serialize.rs:70 | the decimal digits, with no leading zero |
| PlainSerialize.DigitsRoundTrip | src_rust/ariane/serialize.rs:70 | the digits read back as the number |
| PlainSerialize.DecimalRoundTrip | src_rust/ariane/serialize.rs:70 | an integer's rendering reads back as that integer |
| PlainSerialize.PlainValueToXml | src_rust/ariane/serialize.rs:31-98 | `value_to_xml` appends exactly `PlainEvents(value, name)` |
| PlainSerialize.PlainDictToXmlStr | src_rust/ariane/serialize.rs:12-29 | the output is the declaration followed by the root's events |
| PlainSerializeProperties.PlainNested | src_rust/ariane/serialize.rs:36-96 | every value is well nested; its top-level elements all carry the name, one per non-Array value and one per (nested) Array item |
| PlainSerializeProperties.EntriesNested | src_rust/ariane/serialize.rs:42-44 | every Object entry, `@` and `#text` keys included, becomes a child element named by its key, in Object order |
| PlainSerializeProperties.ItemsNested | src_rust/ariane/serialize.rs:49-53 | Array items become sibling elements with the same name |
| PlainSerializeProperties.PlainTexts | src_rust/ariane/serialize.rs:54-90 | the texts written are exactly the tree's scalar leaves in order (reference `Leaves`) |
| PlainSerializeProperties.LeafTexts | src_rust/ariane/serialize.rs:54-64 | a scalar's element carries exactly its text |
| PlainSerializeProperties.EntriesTexts | src_rust/ariane/serialize.rs:42-44 | the texts of an Object's entries are their leaves, in order |
| PlainSerializeProperties.ItemsTexts | src_rust/ariane/serialize.rs:49-53 | the texts of an Array's items are their leaves, in order |
| PlainSerializeProperties.PlainDocumentShape | src_rust/ariane/serialize.rs:12-29 | the declaration, then one well-nested element `<root_name>…</root_name>` |
| PlainSerializeProperties.PlainAttributeExample | src_rust/ariane/serialize.rs:42-44 | `{"@id": "7"}` gives a child element named `@id` |
| PlainSerializeProperties.SerialisersDisagreeOnAttributes | src_rust/ariane/serialize.rs:37-48 | the same Object gives a child element here and an attribute in the `src` serialiser |
| KeyMapping.StrItemsErrorStays | src/mapping.rs:14 | once the dict loop has failed, the later items do not change the error |
| KeyMapping.StrElemsErrorStays | src/mapping.rs:23 | once the list loop has failed, the later elements do not change the error |
| KeyMapping.ApplyKeyMapping | src_rust/mapping.rs:8-27 | the loops return exactly `Remap(data, mapping)` |
| KeyMapping.ApplyStringKeyMapping | src/mapping.rs:6-40 | the loops return exactly `RemapStr(data, mapping)`: the first error, or the renamed tree |
| KeyMappingProperties.RenamedPrefix | src/mapping.rs:13-17 | the renamed pairs of a longer prefix extend those of a shorter one |
| KeyMappingProperties.RemapItemsPutAll | src/mapping.rs:12-18 | a renamed dict is the renamed pairs set one after another into a fresh dict |
| KeyMappingProperties.DictRenamed | src_rust/mapping.rs:9-16 | a renamed dict holds exactly the renamed keys, each once; the last item renamed to a key wins |
| KeyMappingProperties.RenamedKeys | src_rust/mapping.rs:12 | the keys of the renamed pairs are exactly the renamed input keys |
| KeyMappingProperties.ShapeKept | src_rust/mapping.rs:17-26 | a list becomes a list of the same length, element by element in order; any other object comes back as it is |
| KeyMappingProperties.RemapElemsPointwise | src_rust/mapping.rs:17-23 | the list loop produces one remapped element per element, in order |
| KeyMappingProperties.RemapIsRenameAll | src_rust/mapping.rs:8-27 | without collisions, the result is the input with every key at every depth renamed in place (reference `RenameAll`) |
| KeyMappingProperties.UniqueKeysApart | src/mapping.rs:15 | with an empty table, a tree of proper dicts has no collisions |
| KeyMappingProperties.RenameAllEmpty | src/mapping.rs:15 | renaming by an empty table changes nothing |
| KeyMappingProperties.EmptyMappingCopies | src/mapping.rs:12-26 | an empty table yields a structural copy equal to the input |
| KeyMappingProperties.StringWalkAgrees | src/mapping.rs:6-30 | the `src` walk fails exactly when the tree holds a non-string key anywhere, then with such a key; otherwise it equals the `src_rust` walk with the same table |
| KeyMappingProperties.StringItemsAgree | src/mapping.rs:13-18 | the same for the items of one dict |
| KeyMappingProperties.StringItemsOk | src/mapping.rs:14-17 | one more string-keyed item is renamed as the general walk renames it |
| KeyMappingProperties.StringElemsAgree | src/mapping.rs:22-25 | the same for the elements of one list |
| KeyMappingProperties.SurveyExample | src/mapping.rs:56-67 | `{Azimut, Depth, Explorer}` with `Azimut -> Bearing, Explorer -> Diver` gives `{Bearing, Depth, Diver}` in order |
| KeyMappingProperties.NestedExample | src_rust/mapping.rs:13-20 | renaming reaches a dict inside a list inside a dict |
| KeyMappingProperties.CollisionExample | src_rust/mapping.rs:14 | two keys renamed to the same key leave one entry, with the later value |

## Left out

- **Reader and tokeniser.** The quick_xml reader is replaced by its event sequence. That covers tokenising, trimming, entity unescaping and UTF-8 lossy name decoding. A reader error is an `Error` event, and its position is the event's index, not a byte offset.
- **Attribute pairs.** These are taken as the reader yields them. The reader's own attribute checks, such as dropping a duplicate attribute through `filter_map(|a| a.ok())`, happen before the model.
- **Attribute iteration order.** The attribute maps are hash maps, so their drain order is unspecified. The model drains in reader order. `ElementRules.SelfClosingValue`, `ElementRules.AttributeChildStep`, `ElementRules.SelfClosingChildAttributes` and `ElementRules.MergeIntoFresh` state the attribute Object itself, so the order of its `@` keys there is this chosen drain order, not the hash order of the code. The other parser lemmas state lookups, or positions of non-attribute keys only.
- **Map order.** serde_json `Map` is modelled as insertion-ordered, which assumes its order-preserving feature. The build configuration is not part of this model.
- **The End-with-empty-stack panic.** If the reader delivered an End with nothing open, `stack.pop().unwrap()` would panic. That case is modelled as the error `UnmatchedEnd`, not as a process abort.
- **Writer escaping and errors.** The writer is a list of events: escaping, byte output and `write_event` errors are not modelled. The UTF-8 conversion of the output, which cannot fail on this writer's output, is not modelled either.
- **Host-object conversion.** `pyobject_to_value`, `depythonize`, `value_to_pyobject` and the PyO3 function and module wrappers are not part of this model.
- **File and zip loading.** `load_ariane_tml_file_to_dict` is not part of this model.
- **Numbers.** Numbers are integers. Float extraction and float rendering are not modelled. `PlainSerialize.Decimal` renders integers in decimal.
- **Python key equality.** Dict keys are a string or an opaque identity, so cross-type equality such as `1 == 1.0 == True` is not modelled. The `src_rust` table's values are assumed to be valid keys: a `set_item` failure on an unhashable key is not modelled.
- **Opaque host objects.** Anything that is neither a dict nor a list is an `Atom` with an identity. Because objects are values, "the input is never mutated" holds by construction and is not a separate lemma.
- **The raw FFI walk.** `apply_key_mapping_raw` is raw pointer and reference-count manipulation.
- **Other repository parts.** The `convert_xls_json_to_dat` stub, the pydantic models, the Python wrappers, the tests and the scripts are not part of this model.
- **Round trip.** No parse/serialise round trip is claimed. The `src` serialiser drops bare-string text, and the `src_rust` serialiser turns `@` keys into elements. `PlainSerializeProperties.SerialisersDisagreeOnAttributes` shows the difference.
