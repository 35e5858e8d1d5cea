/** The presence of a pointer field, at any depth, shows in the JSON (src/k8s_protobuf.rs). */
module GoJsonPointers {
  import opened Wrappers
  import opened Json
  import opened GoJson
  import opened GoJsonWritten

  // Ways into a message tree: through single, embedded, repeated and mapped submessages.

  datatype Place = Single | Item(i: nat) | Entry(i: nat)

  datatype Hop = Hop(field: Field, place: Place)

  /** The submessage at a place of a value. */
  function At(v: Value, place: Place): Option<Msg> {
    match place
    case Single => if v.MessageValue? then Some(v.msg) else None
    case Item(i) =>
      if v.ListValue? && i < |v.items| && v.items[i].MessageValue? then Some(v.items[i].msg) else None
    case Entry(i) =>
      if v.MapValue? && i < |v.entries| && v.entries[i].value.MessageValue? then Some(v.entries[i].value.msg) else None
  }

  /** The value with another submessage there. */
  function Put(v: Value, place: Place, x: Msg): Value
    requires At(v, place).Some?
  {
    match place
    case Single => MessageValue(x)
    case Item(i) => ListValue(v.items[i := MessageValue(x)])
    case Entry(i) => MapValue(v.entries[i := v.entries[i].(value := MessageValue(x))])
  }

  /** How the place is named in a path. */
  function PlacePath(v: Value, place: Place): Path
    requires At(v, place).Some?
  {
    match place
    case Single => []
    case Item(i) => [Index(i)]
    case Entry(i) => if v.entries[i].key.StringKey? then [Key(v.entries[i].key.s)] else []
  }

  function Inside(m: Msg, hop: Hop): Option<Msg> {
    match Lookup(m.fields, hop.field.number)
    case None => None
    case Some(v) => At(v, hop.place)
  }

  function SetField(fields: seq<FieldEntry>, number: nat, v: Value): seq<FieldEntry> {
    if fields == [] then []
    else if fields[0].number == number then [FieldEntry(number, v)] + fields[1..]
    else [fields[0]] + SetField(fields[1..], number, v)
  }

  function Replace(m: Msg, hop: Hop, x: Msg): Msg
    requires Inside(m, hop).Some?
  {
    m.(fields := SetField(m.fields, hop.field.number, Put(Lookup(m.fields, hop.field.number).value, hop.place, x)))
  }

  function Remove(fields: seq<FieldEntry>, number: nat): seq<FieldEntry> {
    if fields == [] then []
    else (if fields[0].number == number then [] else [fields[0]]) + Remove(fields[1..], number)
  }

  /** A decoded map has each key once. */
  ghost predicate KeysOnce(v: Value) {
    v.MapValue? ==> forall i, j :: 0 <= i < j < |v.entries| ==> v.entries[i].key != v.entries[j].key
  }

  /** `hops` lead from `m` through fields of its type to submessages. */
  ghost predicate Leads(s: Schema, m: Msg, hops: seq<Hop>)
    requires s.Ranked()
    decreases |hops|
  {
    && Typed(s, m)
    && (hops != [] ==>
          && hops[0].field in s.Fields(m.name) && s.Go(m.name, hops[0].field).Some?
          && Inside(m, hops[0]).Some?
          && KeysOnce(Lookup(m.fields, hops[0].field.number).value)
          && Leads(s, Inside(m, hops[0]).value, hops[1..]))
  }

  /** The submessage they lead to. */
  function Reached(s: Schema, m: Msg, hops: seq<Hop>): Msg
    requires s.Ranked() && Leads(s, m, hops)
    decreases |hops|
  {
    if hops == [] then m else Reached(s, Inside(m, hops[0]).value, hops[1..])
  }

  /** A pointer field of the message that is not embedded itself. */
  predicate PointerField(s: Schema, m: Msg, f: Field) {
    && f in s.Fields(m.name) && s.Go(m.name, f).Some?
    && s.Go(m.name, f).value.pointer && !s.Go(m.name, f).value.inline
  }

  /** The tree with field `f` of the submessage taken off the wire. */
  function Cut(s: Schema, m: Msg, hops: seq<Hop>, f: Field): Msg
    requires s.Ranked() && Leads(s, m, hops)
    decreases |hops|
  {
    if hops == [] then m.(fields := Remove(m.fields, f.number))
    else Replace(m, hops[0], Cut(s, Inside(m, hops[0]).value, hops[1..], f))
  }

  /** Whether a value is written as `null`: a zero Time, or FieldsV1 without content or with the content `null`. */
  predicate WrittenNull(s: Schema, c: Codec, v: Value) {
    v.MessageValue? && (
      || (v.msg.name == TIME && IntField(s, v.msg, "seconds") == 0 && IntField(s, v.msg, "nanos") == 0)
      || (v.msg.name == FIELDS_V1 &&
            match GetNamed(s, v.msg, "Raw")
            case Some(BytesValue(raw)) => raw == [] || c.parseJson(raw) == Some(Null)
            case _ => true))
  }

  // Looking up and replacing.

  lemma {:induction false} LookupRemove(fields: seq<FieldEntry>, number: nat, other: nat)
    ensures Lookup(Remove(fields, number), other) == if other == number then None else Lookup(fields, other)
  {
    if fields != [] {
      LookupRemove(fields[1..], number, other);
      var rest := Remove(fields[1..], number);
      if fields[0].number == number {
        assert Remove(fields, number) == rest;
      } else {
        assert Remove(fields, number)[1..] == rest;
      }
    }
  }

  lemma {:induction false} LookupSet(fields: seq<FieldEntry>, number: nat, v: Value, other: nat)
    requires Lookup(fields, number).Some?
    ensures Lookup(SetField(fields, number, v), other) == if other == number then Some(v) else Lookup(fields, other)
  {
    if fields[0].number == number {
      assert SetField(fields, number, v)[1..] == fields[1..];
    } else {
      LookupSet(fields[1..], number, v, other);
      assert SetField(fields, number, v)[1..] == SetField(fields[1..], number, v);
    }
  }

  /** A field that is on the wire alike in both is written alike. */
  lemma SameLookup(s: Schema, c: Codec, m: Msg, n: Msg, g: Field, path: Path)
    requires s.Ranked() && m.name == n.name && g in s.Fields(m.name)
    requires Lookup(m.fields, g.number) == Lookup(n.fields, g.number)
    ensures SameField(s, c, m, n, g, path)
  {
    assert Present(m, g) == Present(n, g) && Get(m, g) == Get(n, g);
  }

  lemma SameOthers(s: Schema, c: Codec, m: Msg, n: Msg, f: Field, path: Path)
    requires WellFormed(s) && m.name == n.name && f in s.Fields(m.name)
    requires forall number :: number != f.number ==> Lookup(m.fields, number) == Lookup(n.fields, number)
    ensures forall g :: g in s.Fields(m.name) && g != f ==> SameField(s, c, m, n, g, path)
  {
    assert Distinct(s, m.name);
    forall g | g in s.Fields(m.name) && g != f
      ensures SameField(s, c, m, n, g, path)
    {
      SameLookup(s, c, m, n, g, path);
    }
  }

  lemma RemoveOthers(m: Msg, f: Field)
    ensures var n := m.(fields := Remove(m.fields, f.number));
      Lookup(n.fields, f.number) == None
      && forall number :: number != f.number ==> Lookup(m.fields, number) == Lookup(n.fields, number)
  {
    LookupRemove(m.fields, f.number, f.number);
    forall number | number != f.number
      ensures Lookup(m.fields, number) == Lookup(Remove(m.fields, f.number), number)
    {
      LookupRemove(m.fields, f.number, number);
    }
  }

  lemma ReplaceOthers(m: Msg, hop: Hop, x: Msg)
    requires Inside(m, hop).Some?
    ensures var n := Replace(m, hop, x);
      var v := Lookup(m.fields, hop.field.number).value;
      Lookup(n.fields, hop.field.number) == Some(Put(v, hop.place, x))
      && forall number :: number != hop.field.number ==> Lookup(m.fields, number) == Lookup(n.fields, number)
  {
    var number := hop.field.number;
    var v := Put(Lookup(m.fields, number).value, hop.place, x);
    LookupSet(m.fields, number, v, number);
    forall other | other != number
      ensures Lookup(m.fields, other) == Lookup(SetField(m.fields, number, v), other)
    {
      LookupSet(m.fields, number, v, other);
    }
  }

  // Cutting keeps embedded messages typed.

  lemma {:induction false} CutTyped(s: Schema, m: Msg, hops: seq<Hop>, f: Field)
    requires WellFormed(s) && Leads(s, m, hops) && PointerField(s, Reached(s, m, hops), f)
    ensures Typed(s, Cut(s, m, hops, f))
    decreases |hops|
  {
    var n := Cut(s, m, hops, f);
    assert Distinct(s, m.name);
    if hops == [] {
      RemoveOthers(m, f);
      forall g | g in s.Fields(m.name) && g != f ensures Get(n, g) == Get(m, g) {
      }
    } else {
      var h := hops[0];
      var inner := Inside(m, h).value;
      CutTyped(s, inner, hops[1..], f);
      ReplaceOthers(m, h, Cut(s, inner, hops[1..], f));
      forall g | g in s.Fields(m.name) && g != h.field ensures Get(n, g) == Get(m, g) {
      }
      CutName(s, inner, hops[1..], f);
    }
  }

  lemma {:induction false} CutName(s: Schema, m: Msg, hops: seq<Hop>, f: Field)
    requires s.Ranked() && Leads(s, m, hops)
    ensures Cut(s, m, hops, f).name == m.name && Cut(s, m, hops, f).unknown == m.unknown
  {
  }

  // A change of a submessage shows in the value that holds it.

  /** Converted field by field, and the same if and only if the fields are. */
  lemma SameMessage(s: Schema, c: Codec, m: Msg, n: Msg, path: Path)
    requires s.Ranked() && m.name == n.name && m.name in s.go
    ensures MessageToJson(s, c, m, path) == (if Written(s, c, m, path).Ok? then Ok(Object(Written(s, c, m, path).value)) else Err(Written(s, c, m, path).error))
    ensures MessageToJson(s, c, n, path) == MessageToJson(s, c, m, path) <==> Written(s, c, n, path) == Written(s, c, m, path)
  {
  }

  lemma {:induction false} SameItems(s: Schema, c: Codec, items: seq<Value>, i: nat, x: Msg, path: Path, from: nat)
    requires s.Ranked() && i < |items| && items[i].MessageValue?
    requires ItemsToJson(s, c, items, path, from).Ok?
    ensures MessageToJson(s, c, items[i].msg, path + [Index(from + i)]).Ok?
    ensures i < |ItemsToJson(s, c, items, path, from).value|
    ensures ItemsToJson(s, c, items, path, from).value[i] == MessageToJson(s, c, items[i].msg, path + [Index(from + i)]).value
    ensures ItemsToJson(s, c, items[i := MessageValue(x)], path, from) == ItemsToJson(s, c, items, path, from) <==>
      MessageToJson(s, c, x, path + [Index(from + i)]) == MessageToJson(s, c, items[i].msg, path + [Index(from + i)])
    decreases |items|
  {
    var changed := items[i := MessageValue(x)];
    if i == 0 {
      assert changed[1..] == items[1..];
      var json := ItemToJson(s, c, changed[0], path + [Index(from)]);
      if json.Ok? {
        var rest := ItemsToJson(s, c, items[1..], path, from + 1).value;
        assert ([json.value] + rest)[0] == json.value;
      }
    } else {
      assert changed[1..] == items[1..][i - 1 := MessageValue(x)];
      SameItems(s, c, items[1..], i - 1, x, path, from + 1);
      var first := ItemToJson(s, c, items[0], path + [Index(from)]).value;
      var a := ItemsToJson(s, c, items[1..], path, from + 1).value;
      var b := ItemsToJson(s, c, changed[1..], path, from + 1);
      if b.Ok? {
        assert ([first] + a)[1..] == a && ([first] + b.value)[1..] == b.value;
      }
    }
  }

  lemma {:induction false} KeyStays(s: Schema, c: Codec, entries: seq<MapEntry>, out: map<string, Json>, path: Path, key: string)
    requires s.Ranked() && EntriesToJson(s, c, entries, out, path).Ok? && key in out
    requires forall i :: 0 <= i < |entries| ==> entries[i].key != StringKey(key)
    ensures key in EntriesToJson(s, c, entries, out, path).value
    ensures EntriesToJson(s, c, entries, out, path).value[key] == out[key]
    decreases |entries|
  {
    if entries != [] {
      var k := entries[0].key.s;
      var json := ItemToJson(s, c, entries[0].value, path + [Key(k)]).value;
      KeyStays(s, c, entries[1..], out[k := json], path, key);
    }
  }

  lemma {:induction false} SameEntries(s: Schema, c: Codec, entries: seq<MapEntry>, i: nat, x: Msg, out: map<string, Json>, path: Path)
    requires s.Ranked() && i < |entries| && entries[i].value.MessageValue? && KeysOnce(MapValue(entries))
    requires EntriesToJson(s, c, entries, out, path).Ok?
    ensures entries[i].key.StringKey?
    ensures var p := path + [Key(entries[i].key.s)];
      var changed := entries[i := entries[i].(value := MessageValue(x))];
      && MessageToJson(s, c, entries[i].value.msg, p).Ok?
      && entries[i].key.s in EntriesToJson(s, c, entries, out, path).value
      && EntriesToJson(s, c, entries, out, path).value[entries[i].key.s] == MessageToJson(s, c, entries[i].value.msg, p).value
      && (EntriesToJson(s, c, changed, out, path) == EntriesToJson(s, c, entries, out, path) <==>
            MessageToJson(s, c, x, p) == MessageToJson(s, c, entries[i].value.msg, p))
    decreases |entries|
  {
    var changed := entries[i := entries[i].(value := MessageValue(x))];
    var key := entries[0].key.s;
    if i == 0 {
      assert changed[1..] == entries[1..];
      var was := ItemToJson(s, c, entries[0].value, path + [Key(key)]);
      var next := ItemToJson(s, c, changed[0].value, path + [Key(key)]);
      KeyStays(s, c, entries[1..], out[key := was.value], path, key);
      if next.Ok? && EntriesToJson(s, c, entries[1..], out[key := next.value], path).Ok? {
        KeyStays(s, c, entries[1..], out[key := next.value], path, key);
      }
    } else {
      assert changed[1..] == entries[1..][i - 1 := entries[1..][i - 1].(value := MessageValue(x))];
      var first := ItemToJson(s, c, entries[0].value, path + [Key(key)]).value;
      SameEntries(s, c, entries[1..], i - 1, x, out[key := first], path);
    }
  }

  function AsArray(items: Result<seq<Json>, Error>): Result<Json, Error> {
    if items.Ok? then Ok(Array(items.value)) else Err(items.error)
  }

  lemma ArrayAlike(a: Result<seq<Json>, Error>, b: Result<seq<Json>, Error>)
    ensures AsArray(a) == AsArray(b) <==> a == b
  {
  }

  lemma ListIsItems(s: Schema, c: Codec, items: seq<Value>, path: Path)
    requires s.Ranked()
    ensures ValueToJson(s, c, ListValue(items), path) == AsArray(ItemsToJson(s, c, items, path, 0))
  {
  }

  lemma SameList(s: Schema, c: Codec, items: seq<Value>, i: nat, x: Msg, path: Path)
    requires s.Ranked() && i < |items| && items[i].MessageValue?
    requires ValueToJson(s, c, ListValue(items), path).Ok?
    ensures MessageToJson(s, c, items[i].msg, path + [Index(i)]).Ok?
    ensures ValueToJson(s, c, ListValue(items[i := MessageValue(x)]), path) == ValueToJson(s, c, ListValue(items), path) <==>
      MessageToJson(s, c, x, path + [Index(i)]) == MessageToJson(s, c, items[i].msg, path + [Index(i)])
  {
    var changed := items[i := MessageValue(x)];
    ListIsItems(s, c, items, path);
    ListIsItems(s, c, changed, path);
    var (was, now) := (ItemsToJson(s, c, items, path, 0), ItemsToJson(s, c, changed, path, 0));
    assert was.Ok?;
    SameItems(s, c, items, i, x, path, 0);
    ArrayAlike(now, was);
  }

  lemma SameMap(s: Schema, c: Codec, entries: seq<MapEntry>, i: nat, x: Msg, path: Path)
    requires s.Ranked() && i < |entries| && entries[i].value.MessageValue? && KeysOnce(MapValue(entries))
    requires ValueToJson(s, c, MapValue(entries), path).Ok?
    ensures entries[i].key.StringKey?
    ensures var p := path + [Key(entries[i].key.s)];
      var changed := entries[i := entries[i].(value := MessageValue(x))];
      && MessageToJson(s, c, entries[i].value.msg, p).Ok?
      && (ValueToJson(s, c, MapValue(changed), path) == ValueToJson(s, c, MapValue(entries), path) <==>
            MessageToJson(s, c, x, p) == MessageToJson(s, c, entries[i].value.msg, p))
  {
    SameEntries(s, c, entries, i, x, map[], path);
  }

  /** A value is converted alike if and only if the submessage at the place is. */
  lemma SameValue(s: Schema, c: Codec, v: Value, place: Place, x: Msg, path: Path)
    requires s.Ranked() && At(v, place).Some? && KeysOnce(v) && ValueToJson(s, c, v, path).Ok?
    ensures var p := path + PlacePath(v, place);
      && MessageToJson(s, c, At(v, place).value, p).Ok?
      && (ValueToJson(s, c, Put(v, place, x), path) == ValueToJson(s, c, v, path) <==>
            MessageToJson(s, c, x, p) == MessageToJson(s, c, At(v, place).value, p))
  {
    match place
    case Single => assert path + [] == path;
    case Item(i) => SameList(s, c, v.items, i, x, path);
    case Entry(i) => SameMap(s, c, v.entries, i, x, path);
  }

  // The theorem.

  /** The path that an error in the submessage behind a hop is reported under. */
  function HopPath(s: Schema, m: Msg, hop: Hop, path: Path): Path
    requires s.Go(m.name, hop.field).Some? && Inside(m, hop).Some?
  {
    var go := s.Go(m.name, hop.field).value;
    if go.inline then path
    else path + [Key(go.json)] + PlacePath(Lookup(m.fields, hop.field.number).value, hop.place)
  }

  /** A message writes a field alike if and only if the submessage behind the hop writes the same. */
  lemma SameHop(s: Schema, c: Codec, m: Msg, hop: Hop, x: Msg, path: Path)
    requires s.Ranked() && hop.field in s.Fields(m.name) && s.Go(m.name, hop.field).Some?
    requires Inside(m, hop).Some? && KeysOnce(Lookup(m.fields, hop.field.number).value)
    requires var inner := Inside(m, hop).value; inner.name == x.name && inner.name in s.go
    requires WriteField(s, c, m, hop.field, map[], path).Ok?
    ensures var p := HopPath(s, m, hop, path);
      && Written(s, c, Inside(m, hop).value, p).Ok?
      && (SameField(s, c, m, Replace(m, hop, x), hop.field, path) <==>
            Written(s, c, x, p) == Written(s, c, Inside(m, hop).value, p))
  {
    var go := s.Go(m.name, hop.field).value;
    var inner := Inside(m, hop).value;
    var n := Replace(m, hop, x);
    ReplaceOthers(m, hop, x);
    if !go.inline {
      var v := Lookup(m.fields, hop.field.number).value;
      var p := path + [Key(go.json)];
      FieldInserted(s, c, m, hop.field, go, path, hop.place, v);
      FieldInserted(s, c, n, hop.field, go, path, hop.place, Put(v, hop.place, x));
      SameValue(s, c, v, hop.place, x, p);
      SameMessage(s, c, inner, x, p + PlacePath(v, hop.place));
    }
  }

  function Inserted(key: string, json: Result<Json, Error>): Result<Fields, Error> {
    if json.Ok? then Ok(map[key := json.value]) else Err(json.error)
  }

  lemma InsertedAlike(key: string, a: Result<Json, Error>, b: Result<Json, Error>)
    ensures Inserted(key, a) == Inserted(key, b) <==> a == b
  {
    if a.Ok? && b.Ok? {
      assert map[key := a.value][key] == a.value && map[key := b.value][key] == b.value;
    }
  }

  /** A field that holds a submessage is written by its value alone. */
  lemma FieldInserted(s: Schema, c: Codec, m: Msg, f: Field, go: GoField, path: Path, place: Place, v: Value)
    requires s.Ranked() && f in s.Fields(m.name) && s.Go(m.name, f) == Some(go) && !go.inline
    requires Lookup(m.fields, f.number) == Some(v) && At(v, place).Some?
    ensures WriteField(s, c, m, f, map[], path) == Inserted(go.json, ValueToJson(s, c, v, path + [Key(go.json)]))
    ensures forall b :: Inserted(go.json, ValueToJson(s, c, v, path + [Key(go.json)])) == Inserted(go.json, b) <==>
      ValueToJson(s, c, v, path + [Key(go.json)]) == b
  {
    forall b
      ensures Inserted(go.json, ValueToJson(s, c, v, path + [Key(go.json)])) == Inserted(go.json, b) <==>
        ValueToJson(s, c, v, path + [Key(go.json)]) == b
    {
      InsertedAlike(go.json, ValueToJson(s, c, v, path + [Key(go.json)]), b);
    }
  }

  /** A converted value is `null` only if it is one of those that are. */
  lemma NullExactly(s: Schema, c: Codec, v: Value, path: Path)
    requires s.Ranked() && ValueToJson(s, c, v, path).Ok?
    ensures ValueToJson(s, c, v, path).value == Null <==> WrittenNull(s, c, v)
  {
    if v.MessageValue? {
      assert ValueToJson(s, c, v, path) == MessageToJson(s, c, v.msg, path);
      if IsSpecial(v.msg.name) {
        SpecialNull(s, c, v.msg, path);
      }
    }
  }

  lemma SpecialNull(s: Schema, c: Codec, m: Msg, path: Path)
    requires IsSpecial(m.name) && SpecialToJson(s, c, m, path).Ok?
    ensures SpecialToJson(s, c, m, path).value == Null <==> WrittenNull(s, c, MessageValue(m))
  {
    assert FIELDS_V1 != TIME && FIELDS_V1 != QUANTITY && FIELDS_V1 != INT_OR_STRING && TIME != QUANTITY && TIME != INT_OR_STRING;
  }

  /** Whether taking pointer field `f` off the wire changes what its message writes. */
  predicate Visible(s: Schema, c: Codec, m: Msg, f: Field)
    requires PointerField(s, m, f) && Present(m, f)
  {
    s.Go(m.name, f).value.omitempty || !WrittenNull(s, c, Lookup(m.fields, f.number).value)
  }

  lemma CutHere(s: Schema, c: Codec, m: Msg, f: Field, path: Path)
    requires WellFormed(s) && Typed(s, m) && PointerField(s, m, f) && Present(m, f)
    requires WriteField(s, c, m, f, map[], path).Ok?
    ensures SameField(s, c, m, m.(fields := Remove(m.fields, f.number)), f, path) <==> !Visible(s, c, m, f)
  {
    var go := s.Go(m.name, f).value;
    var n := m.(fields := Remove(m.fields, f.number));
    var v := Lookup(m.fields, f.number).value;
    var json := ValueToJson(s, c, v, path + [Key(go.json)]);
    RemoveOthers(m, f);
    NullExactly(s, c, v, path + [Key(go.json)]);
    assert WriteField(s, c, m, f, map[], path) == Inserted(go.json, json);
    if go.omitempty {
      assert WriteField(s, c, n, f, map[], path) == Ok(map[]);
      assert go.json in map[go.json := json.value];
    } else {
      assert WriteField(s, c, n, f, map[], path) == Inserted(go.json, Ok(Null));
      InsertedAlike(go.json, json, Ok(Null));
    }
  }

  lemma LeadsOn(s: Schema, m: Msg, hops: seq<Hop>, f: Field)
    requires s.Ranked() && Leads(s, m, hops) && PointerField(s, Reached(s, m, hops), f)
    ensures m.name in s.go
  {
  }

  lemma {:induction false} CutShows(s: Schema, c: Codec, m: Msg, hops: seq<Hop>, f: Field, path: Path)
    requires WellFormed(s) && Leads(s, m, hops)
    requires PointerField(s, Reached(s, m, hops), f) && Present(Reached(s, m, hops), f)
    requires Written(s, c, m, path).Ok?
    ensures Written(s, c, Cut(s, m, hops, f), path) != Written(s, c, m, path) <==> Visible(s, c, Reached(s, m, hops), f)
    decreases |hops|
  {
    var n := Cut(s, m, hops, f);
    CutTyped(s, m, hops, f);
    CutName(s, m, hops, f);
    if hops == [] {
      RemoveOthers(m, f);
      SameOthers(s, c, m, n, f, path);
      OneFieldDiffers(s, c, m, n, f, path);
      CutHere(s, c, m, f, path);
    } else {
      var h := hops[0];
      var inner := Inside(m, h).value;
      var x := Cut(s, inner, hops[1..], f);
      CutName(s, inner, hops[1..], f);
      ReplaceOthers(m, h, x);
      SameOthers(s, c, m, n, h.field, path);
      OneFieldDiffers(s, c, m, n, h.field, path);
      LeadsOn(s, inner, hops[1..], f);
      SameHop(s, c, m, h, x, path);
      CutShows(s, c, inner, hops[1..], f, HopPath(s, m, h, path));
    }
  }

  /**
   * Taking a pointer field off the wire, at any depth and in embedded structs too, changes the JSON of the whole
   * object if and only if the field is `omitempty` or its value is not one that is written as `null`.
   */
  lemma PointerPresenceShows(s: Schema, c: Codec, m: Msg, hops: seq<Hop>, f: Field, path: Path)
    requires WellFormed(s) && Leads(s, m, hops)
    requires PointerField(s, Reached(s, m, hops), f) && Present(Reached(s, m, hops), f)
    requires MessageToJson(s, c, m, path).Ok?
    ensures MessageToJson(s, c, Cut(s, m, hops, f), path) != MessageToJson(s, c, m, path) <==>
      Visible(s, c, Reached(s, m, hops), f)
  {
    CutName(s, m, hops, f);
    LeadsOn(s, m, hops, f);
    SameMessage(s, c, m, Cut(s, m, hops, f), path);
    CutShows(s, c, m, hops, f, path);
  }

  /** What the generated schema has: a pointer without `omitempty` never points to a Time or FieldsV1. */
  ghost predicate NoNullPointers(s: Schema) {
    forall name, f :: f in s.Fields(name) && s.Go(name, f).Some? && s.Go(name, f).value.pointer && !s.Go(name, f).value.omitempty ==>
      f.kind.ScalarKind? || f.kind.message !in {TIME, FIELDS_V1}
  }

  /** So, with that schema, the presence of a pointer field always shows. */
  lemma PointerAlwaysShows(s: Schema, c: Codec, m: Msg, hops: seq<Hop>, f: Field, path: Path)
    requires WellFormed(s) && NoNullPointers(s) && Leads(s, m, hops)
    requires PointerField(s, Reached(s, m, hops), f) && Present(Reached(s, m, hops), f)
    requires var v := Lookup(Reached(s, m, hops).fields, f.number).value;
      v.MessageValue? ==> f.kind == MessageKind(v.msg.name)
    requires MessageToJson(s, c, m, path).Ok?
    ensures MessageToJson(s, c, Cut(s, m, hops, f), path) != MessageToJson(s, c, m, path)
  {
    PointerPresenceShows(s, c, m, hops, f, path);
  }
}
