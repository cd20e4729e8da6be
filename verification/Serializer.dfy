/** Turning objects into JSON trees, with encoders that models may add to. */
module Serializer {
  import opened Prelude
  import opened OrderedDicts

  type TypeId = int
  type EncoderId = int

  datatype Key = TextKey(text: string) | OtherKey(text: string)

  /**
   What `serialize_object` is given. A model carries its own encoders and what its
   `dict()` returns; an opaque object may be turned into a dictionary, or not.
   */
  datatype Value =
    | Null
    | Text(text: string)
    | Number(n: int)
    | List(items: seq<Value>)
    | Dict(entries: seq<Entry>)
    | Model(own: map<TypeId, EncoderId>, fields: seq<Entry>)
    | Dataclass(fields: seq<Entry>)
    | EnumMember(value: Value)
    | Path(text: string)
    | Opaque(kind: TypeId, id: int, asDict: Option<Value>)

  type Entry = Item<Key, Value>

  const ROOT := "__root__"

  type Encoders = map<TypeId, EncoderId>

  /** What an encoder makes of an object. */
  type Encoding = (EncoderId, int) -> Value

  // ----- the function -----

  function EntryOf(fields: seq<Entry>, key: string): Option<Value>
    ensures EntryOf(fields, key).Some? ==>
              exists i :: 0 <= i < |fields| && fields[i].value == EntryOf(fields, key).value
  {
    if fields == [] then None
    else if fields[|fields| - 1].key == TextKey(key) then Some(fields[|fields| - 1].value)
    else EntryOf(fields[..|fields| - 1], key)
  }

  function Serialize(encode: Encoding, v: Value, encoders: Encoders): Option<Value>
    decreases v, 1, 0
  {
    match v
    case Null => Some(v)
    case Text(t) => Some(v)
    case Number(n) => Some(v)
    case Path(t) => Some(Text(t))
    case EnumMember(value) => Some(value)
    case List(items) => SerializeItems(encode, v, |items|, encoders)
    case Dict(entries) => SerializeEntries(encode, v, entries, |entries|, encoders)
    case Dataclass(fields) => SerializeEntries(encode, v, fields, |fields|, encoders)
    case Model(own, fields) =>
      if EntryOf(fields, ROOT).Some? then Serialize(encode, EntryOf(fields, ROOT).value, encoders + own)
      else SerializeEntries(encode, v, fields, |fields|, encoders + own)
    case Opaque(kind, id, asDict) =>
      if kind in encoders then Some(encode(encoders[kind], id))
      else match asDict
        case None => None
        case Some(d) => Serialize(encode, d, encoders)
  }

  function SerializeItems(encode: Encoding, v: Value, n: nat, encoders: Encoders): Option<Value>
    requires v.List? && n <= |v.items|
    decreases v, 0, n
  {
    if n == 0 then Some(List([]))
    else
      var before, item := SerializeItems(encode, v, n - 1, encoders), Serialize(encode, v.items[n - 1], encoders);
      if before.None? || item.None? || !before.value.List? then None else Some(List(before.value.items + [item.value]))
  }

  /** The dictionary comprehension: keys become texts, and a text met again overwrites. */
  function SerializeEntries(encode: Encoding, v: Value, entries: seq<Entry>, n: nat, encoders: Encoders): Option<Value>
    requires n <= |entries| && forall i :: 0 <= i < |entries| ==> entries[i].value < v
    decreases v, 0, n
  {
    if n == 0 then Some(Dict([]))
    else
      var before := SerializeEntries(encode, v, entries, n - 1, encoders);
      var value := Serialize(encode, entries[n - 1].value, encoders);
      if before.None? || value.None? || !before.value.Dict? then None
      else Some(Dict(Put(before.value.entries, TextKey(entries[n - 1].key.text), value.value)))
  }

  // ----- JSON trees -----

  /** A tree of null, texts, numbers, lists, and dictionaries with distinct text keys. */
  predicate IsJson(v: Value) {
    match v
    case Null => true
    case Text(t) => true
    case Number(n) => true
    case List(items) => forall i :: 0 <= i < |items| ==> IsJson(items[i])
    case Dict(entries) =>
      (forall i :: 0 <= i < |entries| ==> entries[i].key.TextKey? && IsJson(entries[i].value)) &&
      (forall i, j :: 0 <= i < j < |entries| ==> entries[i].key != entries[j].key)
    case Model(own, fields) => false
    case Dataclass(fields) => false
    case EnumMember(value) => false
    case Path(t) => false
    case Opaque(kind, id, asDict) => false
  }

  /** The values of the enumeration members met are JSON. */
  predicate EnumsAreJson(v: Value) {
    match v
    case EnumMember(value) => IsJson(value)
    case List(items) => forall i :: 0 <= i < |items| ==> EnumsAreJson(items[i])
    case Dict(entries) => forall i :: 0 <= i < |entries| ==> EnumsAreJson(entries[i].value)
    case Model(own, fields) => forall i :: 0 <= i < |fields| ==> EnumsAreJson(fields[i].value)
    case Dataclass(fields) => forall i :: 0 <= i < |fields| ==> EnumsAreJson(fields[i].value)
    case Opaque(kind, id, asDict) => asDict.Some? ==> EnumsAreJson(asDict.value)
    case Null => true
    case Text(t) => true
    case Number(n) => true
    case Path(t) => true
  }

  ghost predicate EncodersGiveJson(encode: Encoding) {
    forall e, id :: IsJson(encode(e, id))
  }

  ghost predicate TextEntries(entries: seq<Entry>) {
    forall i :: 0 <= i < |entries| ==> entries[i].key.TextKey? && IsJson(entries[i].value)
  }

  lemma {:induction false} PutTextEntries(entries: seq<Entry>, key: string, value: Value)
    requires TextEntries(entries) && IsJson(value)
    ensures TextEntries(Put(entries, TextKey(key), value))
    decreases |entries|
  {
    if entries != [] {
      PutTextEntries(entries[1..], key, value);
    }
  }

  lemma PutTextIsJson(entries: seq<Entry>, key: string, value: Value)
    requires IsJson(Dict(entries)) && IsJson(value)
    ensures IsJson(Dict(Put(entries, TextKey(key), value)))
  {
    assert Distinct(Keys(entries));
    PutKeys(entries, TextKey(key), value);
    PutTextEntries(entries, key, value);
    var put := Put(entries, TextKey(key), value);
    assert forall i :: 0 <= i < |put| ==> Keys(put)[i] == put[i].key;
  }

  lemma EncodedIsJson(encode: Encoding, e: EncoderId, id: int)
    requires EncodersGiveJson(encode)
    ensures IsJson(encode(e, id))
  {
  }

  /** With JSON enumeration values and encoder results, whatever is returned is JSON. */
  lemma {:induction false} SerializedIsJson(encode: Encoding, v: Value, encoders: Encoders)
    requires EncodersGiveJson(encode) && EnumsAreJson(v)
    ensures Serialize(encode, v, encoders).Some? ==> IsJson(Serialize(encode, v, encoders).value)
    decreases v, 1, 0
  {
    match v
    case List(items) => ItemsAreJson(encode, v, |items|, encoders);
    case Dict(entries) => EntriesAreJson(encode, v, entries, |entries|, encoders);
    case Dataclass(fields) => EntriesAreJson(encode, v, fields, |fields|, encoders);
    case Model(own, fields) =>
      if EntryOf(fields, ROOT).Some? {
        SerializedIsJson(encode, EntryOf(fields, ROOT).value, encoders + own);
      } else {
        EntriesAreJson(encode, v, fields, |fields|, encoders + own);
      }
    case Opaque(kind, id, asDict) =>
      if kind in encoders {
        EncodedIsJson(encode, encoders[kind], id);
      } else if asDict.Some? {
        SerializedIsJson(encode, asDict.value, encoders);
      }
    case EnumMember(value) =>
    case Null =>
    case Text(t) =>
    case Number(n) =>
    case Path(t) =>
  }

  lemma {:induction false} ItemsAreJson(encode: Encoding, v: Value, n: nat, encoders: Encoders)
    requires EncodersGiveJson(encode) && EnumsAreJson(v) && v.List? && n <= |v.items|
    ensures SerializeItems(encode, v, n, encoders).Some? ==> IsJson(SerializeItems(encode, v, n, encoders).value)
    decreases v, 0, n
  {
    if n > 0 {
      ItemsAreJson(encode, v, n - 1, encoders);
      SerializedIsJson(encode, v.items[n - 1], encoders);
    }
  }

  lemma {:induction false} EntriesAreJson(encode: Encoding, v: Value, entries: seq<Entry>, n: nat, encoders: Encoders)
    requires EncodersGiveJson(encode)
    requires n <= |entries| && forall i :: 0 <= i < |entries| ==> entries[i].value < v && EnumsAreJson(entries[i].value)
    ensures SerializeEntries(encode, v, entries, n, encoders).Some? ==>
              IsJson(SerializeEntries(encode, v, entries, n, encoders).value)
    decreases v, 0, n
  {
    if n > 0 {
      EntriesAreJson(encode, v, entries, n - 1, encoders);
      SerializedIsJson(encode, entries[n - 1].value, encoders);
      var before := SerializeEntries(encode, v, entries, n - 1, encoders);
      var value := Serialize(encode, entries[n - 1].value, encoders);
      if before.Some? && value.Some? && before.value.Dict? {
        PutTextIsJson(before.value.entries, entries[n - 1].key.text, value.value);
      }
    }
  }

  // ----- when there is a result -----

  /** Every opaque object that is reached has an encoder there, or a dictionary form that is covered in turn. */
  predicate Covered(v: Value, encoders: Encoders)
    decreases v
  {
    match v
    case Opaque(kind, id, asDict) => kind in encoders || (asDict.Some? && Covered(asDict.value, encoders))
    case List(items) => forall i :: 0 <= i < |items| ==> Covered(items[i], encoders)
    case Dict(entries) => forall i :: 0 <= i < |entries| ==> Covered(entries[i].value, encoders)
    case Dataclass(fields) => forall i :: 0 <= i < |fields| ==> Covered(fields[i].value, encoders)
    case Model(own, fields) =>
      if EntryOf(fields, ROOT).Some? then Covered(EntryOf(fields, ROOT).value, encoders + own)
      else forall i :: 0 <= i < |fields| ==> Covered(fields[i].value, encoders + own)
    case EnumMember(value) => true
    case Null => true
    case Text(t) => true
    case Number(n) => true
    case Path(t) => true
  }

  /** A result is returned exactly when everything reached is covered; otherwise a ValueError is raised. */
  lemma {:induction false} SerializesIffCovered(encode: Encoding, v: Value, encoders: Encoders)
    ensures Serialize(encode, v, encoders).Some? <==> Covered(v, encoders)
    decreases v, 1, 0
  {
    match v
    case List(items) => ItemsIffCovered(encode, v, |items|, encoders);
    case Dict(entries) => EntriesIffCovered(encode, v, entries, |entries|, encoders);
    case Dataclass(fields) => EntriesIffCovered(encode, v, fields, |fields|, encoders);
    case Model(own, fields) =>
      if EntryOf(fields, ROOT).Some? {
        SerializesIffCovered(encode, EntryOf(fields, ROOT).value, encoders + own);
      } else {
        EntriesIffCovered(encode, v, fields, |fields|, encoders + own);
      }
    case Opaque(kind, id, asDict) =>
      if kind !in encoders && asDict.Some? {
        SerializesIffCovered(encode, asDict.value, encoders);
      }
    case EnumMember(value) =>
    case Null =>
    case Text(t) =>
    case Number(n) =>
    case Path(t) =>
  }

  lemma {:induction false} ItemsIffCovered(encode: Encoding, v: Value, n: nat, encoders: Encoders)
    requires v.List? && n <= |v.items|
    ensures SerializeItems(encode, v, n, encoders).Some? <==>
            forall i :: 0 <= i < n ==> Covered(v.items[i], encoders)
    ensures SerializeItems(encode, v, n, encoders).Some? ==> SerializeItems(encode, v, n, encoders).value.List?
    decreases v, 0, n
  {
    if n > 0 {
      ItemsIffCovered(encode, v, n - 1, encoders);
      SerializesIffCovered(encode, v.items[n - 1], encoders);
    }
  }

  lemma {:induction false} EntriesIffCovered(encode: Encoding, v: Value, entries: seq<Entry>, n: nat,
      encoders: Encoders)
    requires n <= |entries| && forall i :: 0 <= i < |entries| ==> entries[i].value < v
    ensures SerializeEntries(encode, v, entries, n, encoders).Some? <==>
            forall i :: 0 <= i < n ==> Covered(entries[i].value, encoders)
    ensures SerializeEntries(encode, v, entries, n, encoders).Some? ==>
              SerializeEntries(encode, v, entries, n, encoders).value.Dict?
    decreases v, 0, n
  {
    if n > 0 {
      EntriesIffCovered(encode, v, entries, n - 1, encoders);
      SerializesIffCovered(encode, entries[n - 1].value, encoders);
    }
  }

  // ----- idempotence -----

  /** JSON comes back as it is, whatever the encoders: serialising twice is serialising once. */
  lemma {:induction false} JsonIsUnchanged(encode: Encoding, v: Value, encoders: Encoders)
    requires IsJson(v)
    ensures Serialize(encode, v, encoders) == Some(v)
    decreases v, 1, 0
  {
    if v.List? {
      JsonItemsUnchanged(encode, v, |v.items|, encoders);
      assert v.items[..|v.items|] == v.items;
    } else if v.Dict? {
      JsonEntriesUnchanged(encode, v, |v.entries|, encoders);
      assert v.entries[..|v.entries|] == v.entries;
    }
  }

  lemma {:induction false} JsonItemsUnchanged(encode: Encoding, v: Value, n: nat, encoders: Encoders)
    requires IsJson(v) && v.List? && n <= |v.items|
    ensures SerializeItems(encode, v, n, encoders) == Some(List(v.items[..n]))
    decreases v, 0, n
  {
    if n > 0 {
      JsonItemsUnchanged(encode, v, n - 1, encoders);
      JsonIsUnchanged(encode, v.items[n - 1], encoders);
      assert v.items[..n] == v.items[..n - 1] + [v.items[n - 1]];
    }
  }

  lemma {:induction false} JsonEntriesUnchanged(encode: Encoding, v: Value, n: nat, encoders: Encoders)
    requires IsJson(v) && v.Dict? && n <= |v.entries|
    ensures SerializeEntries(encode, v, v.entries, n, encoders) == Some(Dict(v.entries[..n]))
    decreases v, 0, n
  {
    if n > 0 {
      var e := v.entries[n - 1];
      JsonEntriesUnchanged(encode, v, n - 1, encoders);
      JsonIsUnchanged(encode, e.value, encoders);
      PutFresh(v.entries[..n - 1], e.key, e.value);
      assert v.entries[..n] == v.entries[..n - 1] + [e];
    }
  }

  // ----- scope of encoders -----

  /** The types whose encoder can matter: those of opaque objects, less what models above them define. */
  function Consulted(v: Value): set<TypeId> {
    match v
    case Opaque(kind, id, asDict) => {kind} + if asDict.Some? then Consulted(asDict.value) else {}
    case List(items) => set i, t | 0 <= i < |items| && t in Consulted(items[i]) :: t
    case Dict(entries) => set i, t | 0 <= i < |entries| && t in Consulted(entries[i].value) :: t
    case Dataclass(fields) => set i, t | 0 <= i < |fields| && t in Consulted(fields[i].value) :: t
    case Model(own, fields) => (set i, t | 0 <= i < |fields| && t in Consulted(fields[i].value) :: t) - own.Keys
    case EnumMember(value) => {}
    case Null => {}
    case Text(t) => {}
    case Number(n) => {}
    case Path(t) => {}
  }

  ghost predicate AgreeOn(a: Encoders, b: Encoders, types: set<TypeId>) {
    forall t :: t in types ==> (t in a <==> t in b) && (t in a ==> a[t] == b[t])
  }

  /** Encoders for other types, and any that a model overrides, make no difference below it. */
  lemma {:induction false} OnlyConsultedEncodersMatter(encode: Encoding, v: Value, a: Encoders, b: Encoders)
    requires AgreeOn(a, b, Consulted(v))
    ensures Serialize(encode, v, a) == Serialize(encode, v, b)
    decreases v, 1, 0
  {
    match v
    case List(items) => ItemsAgree(encode, v, |items|, a, b);
    case Dict(entries) => EntriesAgree(encode, v, entries, |entries|, a, b);
    case Dataclass(fields) => EntriesAgree(encode, v, fields, |fields|, a, b);
    case Model(own, fields) =>
      forall i | 0 <= i < |fields|
        ensures AgreeOn(a + own, b + own, Consulted(fields[i].value))
      {
        assert forall t :: t in Consulted(fields[i].value) && t !in own ==> t in Consulted(v);
      }
      if EntryOf(fields, ROOT).Some? {
        var i :| 0 <= i < |fields| && fields[i].value == EntryOf(fields, ROOT).value;
        OnlyConsultedEncodersMatter(encode, fields[i].value, a + own, b + own);
      } else {
        EntriesAgree(encode, v, fields, |fields|, a + own, b + own);
      }
    case Opaque(kind, id, asDict) =>
      if kind !in a && asDict.Some? {
        OnlyConsultedEncodersMatter(encode, asDict.value, a, b);
      }
    case EnumMember(value) =>
    case Null =>
    case Text(t) =>
    case Number(n) =>
    case Path(t) =>
  }

  lemma {:induction false} ItemsAgree(encode: Encoding, v: Value, n: nat, a: Encoders, b: Encoders)
    requires v.List? && n <= |v.items| && AgreeOn(a, b, Consulted(v))
    ensures SerializeItems(encode, v, n, a) == SerializeItems(encode, v, n, b)
    decreases v, 0, n
  {
    if n > 0 {
      ItemsAgree(encode, v, n - 1, a, b);
      assert forall t :: t in Consulted(v.items[n - 1]) ==> t in Consulted(v);
      OnlyConsultedEncodersMatter(encode, v.items[n - 1], a, b);
    }
  }

  lemma {:induction false} EntriesAgree(
      encode: Encoding, v: Value, entries: seq<Entry>, n: nat, a: Encoders, b: Encoders)
    requires n <= |entries|
    requires forall i :: 0 <= i < |entries| ==> entries[i].value < v && AgreeOn(a, b, Consulted(entries[i].value))
    ensures SerializeEntries(encode, v, entries, n, a) == SerializeEntries(encode, v, entries, n, b)
    decreases v, 0, n
  {
    if n > 0 {
      EntriesAgree(encode, v, entries, n - 1, a, b);
      OnlyConsultedEncodersMatter(encode, entries[n - 1].value, a, b);
    }
  }

  // ----- what the result is -----

  /** The `i`-th entry is the last whose key reads as its text. */
  ghost predicate LastWithText(entries: seq<Entry>, i: nat) {
    i < |entries| && forall j :: i < j < |entries| ==> entries[j].key.text != entries[i].key.text
  }

  function KeyTexts(entries: seq<Entry>): (keys: seq<Key>)
    ensures |keys| == |entries| && forall i :: 0 <= i < |entries| ==> keys[i] == TextKey(entries[i].key.text)
  {
    seq(|entries|, i requires 0 <= i < |entries| => TextKey(entries[i].key.text))
  }

  /**
   The result, without saying how it is come by: lists item by item; a dictionary has the texts of the keys in
   the order in which they first occur, each with what its last entry becomes; members of enumerations
   give their value, paths their text; a model is what its fields are under its own encoders before the
   others, and when it is a root model, what the root is; any other object is what its encoder gives, or
   what its dictionary form is.
   */
  ghost predicate IsResult(encode: Encoding, v: Value, encoders: Encoders, out: Value)
    decreases v, 1
  {
    match v
    case Null => out == Null
    case Text(t) => out == Text(t)
    case Number(n) => out == Number(n)
    case Path(t) => out == Text(t)
    case EnumMember(value) => out == value
    case List(items) =>
      out.List? && |out.items| == |items| &&
      forall i :: 0 <= i < |items| ==> IsResult(encode, items[i], encoders, out.items[i])
    case Dict(entries) => AreResults(encode, v, entries, encoders, out)
    case Dataclass(fields) => AreResults(encode, v, fields, encoders, out)
    case Model(own, fields) =>
      (forall i: nat :: i < |fields| && IsRootOf(fields, i) ==>
         IsResult(encode, fields[i].value, encoders + own, out)) &&
      ((forall i: nat :: i < |fields| ==> fields[i].key != TextKey("__root__")) ==>
         AreResults(encode, v, fields, encoders + own, out))
    case Opaque(kind, id, asDict) =>
      if kind in encoders then out == encode(encoders[kind], id)
      else asDict.Some? && IsResult(encode, asDict.value, encoders, out)
  }

  /** The `i`-th field is the root, the last of that name. */
  ghost predicate IsRootOf(fields: seq<Entry>, i: nat) {
    && i < |fields| && fields[i].key == TextKey("__root__")
    && forall j :: i < j < |fields| ==> fields[j].key != TextKey("__root__")
  }

  ghost predicate AreResults(encode: Encoding, v: Value, entries: seq<Entry>, encoders: Encoders, out: Value)
    requires forall i :: 0 <= i < |entries| ==> entries[i].value < v
    decreases v, 0
  {
    && out.Dict? && Keys(out.entries) == Firsts(KeyTexts(entries))
    && forall i: nat, k: nat ::
         LastWithText(entries, i) && k < |out.entries| && out.entries[k].key == TextKey(entries[i].key.text) ==>
           IsResult(encode, entries[i].value, encoders, out.entries[k].value)
  }

  lemma {:induction false} RootIsFound(fields: seq<Entry>)
    ensures forall i: nat :: IsRootOf(fields, i) ==> EntryOf(fields, ROOT) == Some(fields[i].value)
    ensures (forall i: nat :: i < |fields| ==> fields[i].key != TextKey("__root__")) <==> EntryOf(fields, ROOT).None?
  {
    if fields != [] {
      var init, last := fields[..|fields| - 1], fields[|fields| - 1];
      RootIsFound(init);
      assert forall i: nat :: i < |init| ==> fields[i] == init[i];
      forall i: nat | IsRootOf(fields, i)
        ensures EntryOf(fields, ROOT) == Some(fields[i].value)
      {
        assert i < |init| ==> last.key != TextKey("__root__") && IsRootOf(init, i);
      }
    }
  }

  /** Whatever is returned is the result. */
  lemma {:induction false} SerializedIsTheResult(encode: Encoding, v: Value, encoders: Encoders)
    requires Serialize(encode, v, encoders).Some?
    ensures IsResult(encode, v, encoders, Serialize(encode, v, encoders).value)
    decreases v, 1, 0
  {
    match v
    case List(items) => ItemsAreResults(encode, v, |items|, encoders);
    case Dict(entries) => EntriesAreResults(encode, v, entries, encoders);
    case Dataclass(fields) => EntriesAreResults(encode, v, fields, encoders);
    case Model(own, fields) =>
      RootIsFound(fields);
      if EntryOf(fields, ROOT).Some? {
        SerializedIsTheResult(encode, EntryOf(fields, ROOT).value, encoders + own);
      } else {
        EntriesAreResults(encode, v, fields, encoders + own);
      }
    case Opaque(kind, id, asDict) =>
      if kind !in encoders {
        SerializedIsTheResult(encode, asDict.value, encoders);
      }
    case EnumMember(value) =>
    case Null =>
    case Text(t) =>
    case Number(n) =>
    case Path(t) =>
  }

  lemma {:induction false} ItemsAreResults(encode: Encoding, v: Value, n: nat, encoders: Encoders)
    requires v.List? && n <= |v.items| && SerializeItems(encode, v, n, encoders).Some?
    ensures var out := SerializeItems(encode, v, n, encoders).value;
            && out.List? && |out.items| == n
            && forall i :: 0 <= i < n ==> IsResult(encode, v.items[i], encoders, out.items[i])
    decreases v, 0, n
  {
    if n > 0 {
      ItemsAreResults(encode, v, n - 1, encoders);
      SerializedIsTheResult(encode, v.items[n - 1], encoders);
    }
  }

  lemma {:induction false} EntriesAreResults(encode: Encoding, v: Value, entries: seq<Entry>, encoders: Encoders)
    requires forall i :: 0 <= i < |entries| ==> entries[i].value < v
    requires SerializeEntries(encode, v, entries, |entries|, encoders).Some?
    ensures AreResults(encode, v, entries, encoders, SerializeEntries(encode, v, entries, |entries|, encoders).value)
    decreases v, 0, |entries| + 1
  {
    PrefixResults(encode, v, entries, |entries|, encoders);
    assert entries[..|entries|] == entries;
  }

  lemma {:induction false} PrefixResults(encode: Encoding, v: Value, entries: seq<Entry>, n: nat, encoders: Encoders)
    requires n <= |entries| && forall i :: 0 <= i < |entries| ==> entries[i].value < v
    requires SerializeEntries(encode, v, entries, n, encoders).Some?
    ensures AreResults(encode, v, entries[..n], encoders, SerializeEntries(encode, v, entries, n, encoders).value)
    decreases v, 0, n
  {
    if n > 0 {
      PrefixResults(encode, v, entries, n - 1, encoders);
      SerializedIsTheResult(encode, entries[n - 1].value, encoders);
      var before := SerializeEntries(encode, v, entries, n - 1, encoders).value;
      var value := Serialize(encode, entries[n - 1].value, encoders).value;
      OneMoreResult(encode, v, entries, n - 1, encoders, before, value);
    } else {
      assert KeyTexts(entries[..0]) == [];
    }
  }

  lemma OneMoreResult(
      encode: Encoding, v: Value, entries: seq<Entry>, n: nat, encoders: Encoders, before: Value, value: Value)
    requires n < |entries| && forall i :: 0 <= i < |entries| ==> entries[i].value < v
    requires AreResults(encode, v, entries[..n], encoders, before)
    requires IsResult(encode, entries[n].value, encoders, value)
    ensures AreResults(encode, v, entries[..n + 1], encoders,
                       Dict(Put(before.entries, TextKey(entries[n].key.text), value)))
  {
    var key, more := TextKey(entries[n].key.text), entries[..n + 1];
    var put := Put(before.entries, key, value);
    OneMoreKey(entries, n, before.entries, value);
    forall i: nat, k: nat | LastWithText(more, i) && k < |put| && put[k].key == TextKey(more[i].key.text)
      ensures IsResult(encode, more[i].value, encoders, put[k].value)
    {
      OneResultOf(encode, v, entries, n, encoders, before, value, i, k);
    }
  }

  lemma OneMoreKey(entries: seq<Entry>, n: nat, before: seq<Entry>, value: Value)
    requires n < |entries| && Keys(before) == Firsts(KeyTexts(entries[..n]))
    ensures Keys(Put(before, TextKey(entries[n].key.text), value)) == Firsts(KeyTexts(entries[..n + 1]))
  {
    PutKeys(before, TextKey(entries[n].key.text), value);
    assert KeyTexts(entries[..n + 1])[..n] == KeyTexts(entries[..n]);
  }

  lemma OneResultOf(
      encode: Encoding, v: Value, entries: seq<Entry>, n: nat, encoders: Encoders, before: Value, value: Value,
      i: nat, k: nat)
    requires n < |entries| && forall i :: 0 <= i < |entries| ==> entries[i].value < v
    requires AreResults(encode, v, entries[..n], encoders, before) && LastWithText(entries[..n + 1], i)
    requires IsResult(encode, entries[n].value, encoders, value)
    requires var put := Put(before.entries, TextKey(entries[n].key.text), value);
             k < |put| && put[k].key == TextKey(entries[i].key.text)
    ensures var put := Put(before.entries, TextKey(entries[n].key.text), value);
            IsResult(encode, entries[i].value, encoders, put[k].value)
  {
    PutAt(before.entries, TextKey(entries[n].key.text), value, k);
    if i < n {
      assert entries[..n + 1][n].key.text != entries[..n + 1][i].key.text;
      EarlierIsLast(entries, n, i);
    }
  }

  lemma EarlierIsLast(entries: seq<Entry>, n: nat, i: nat)
    requires i < n < |entries| && LastWithText(entries[..n + 1], i)
    ensures LastWithText(entries[..n], i)
  {
    forall j | i < j < n
      ensures entries[..n][j].key.text != entries[..n][i].key.text
    {
      assert entries[..n + 1][j].key.text != entries[..n + 1][i].key.text;
    }
  }

  /** Writing one key leaves what the others have. */
  lemma {:induction false} PutAt(d: seq<Entry>, key: Key, value: Value, k: nat)
    requires Distinct(Keys(d)) && k < |Put(d, key, value)|
    ensures Put(d, key, value)[k].key == key ==> Put(d, key, value)[k].value == value
    ensures Put(d, key, value)[k].key != key ==> k < |d| && Put(d, key, value)[k] == d[k]
    decreases |d|
  {
    if d != [] {
      assert forall i, j :: 0 <= i < j < |d| ==> Keys(d)[i] != Keys(d)[j];
      if d[0].key == key {
        if k > 0 {
          assert Keys(d)[0] != Keys(d)[k];
        }
      } else if k > 0 {
        assert forall i :: 0 <= i < |d[1..]| ==> Keys(d[1..])[i] == Keys(d)[i + 1];
        PutAt(d[1..], key, value, k - 1);
      }
    }
  }
}
