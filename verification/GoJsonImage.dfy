/** The JSON that Go would write for a message, said field by field, and that the conversion yields it (src/k8s_protobuf.rs). */
module GoJsonImage {
  import opened Wrappers
  import opened Json
  import opened GoJson
  import opened GoJsonWritten
  import opened GoJsonPointers
  import opened GoJsonShown
  import GoJsonWriter

  // What the JSON of a message is.

  ghost predicate IsImage(s: Schema, c: Codec, m: Msg, j: Json)
    requires s.Ranked()
    decreases Depth(m), s.Rank(m.name), 2
  {
    if IsSpecial(m.name) then m.unknown == [] && IsSpecialImage(s, c, m, j)
    else j.Object? && IsObject(s, c, m, j.fields) && j.fields.Keys <= AllNames(s, m.name)
  }

  /** Types with a JSON form of their own. */
  ghost predicate IsSpecialImage(s: Schema, c: Codec, m: Msg, j: Json)
    requires IsSpecial(m.name)
  {
    if m.name == TIME then
      if IntField(s, m, "seconds") == 0 && IntField(s, m, "nanos") == 0 then j == Null
      else c.timeText(IntField(s, m, "seconds")).Some? && j == String(c.timeText(IntField(s, m, "seconds")).value)
    else if m.name == QUANTITY then
      j == String(if StringField(s, m, "string") == "" then "0" else StringField(s, m, "string"))
    else if m.name == INT_OR_STRING then
      || (IntField(s, m, "type") == 0 && j == Number(IntField(s, m, "intVal")))
      || (IntField(s, m, "type") == 1 && j == String(StringField(s, m, "strVal")))
    else
      var raw := GetNamed(s, m, "Raw");
      if raw.Some? && raw.value.BytesValue? && raw.value.bytes != [] then c.parseJson(raw.value.bytes) == Some(j) else j == Null
  }

  /** The fields of the message are in the object as they should be, those of embedded structs among them. */
  ghost predicate IsObject(s: Schema, c: Codec, m: Msg, o: Fields)
    requires s.Ranked()
    decreases Depth(m), s.Rank(m.name), 1
  {
    && m.unknown == [] && m.name in s.go
    && forall f :: f in s.Fields(m.name) ==> s.Go(m.name, f).Some? && IsField(s, c, m, f, s.Go(m.name, f).value, o)
  }

  ghost predicate IsField(s: Schema, c: Codec, m: Msg, f: Field, go: GoField, o: Fields)
    requires s.Ranked() && f in s.Fields(m.name) && s.Go(m.name, f) == Some(go)
    decreases Depth(m), s.Rank(m.name), 0
  {
    var wire := Lookup(m.fields, f.number);
    if go.inline then
      Get(m, f).MessageValue? && (InlineDecreases(s, m, f, go); IsObject(s, c, Get(m, f).msg, o))
    else if wire.Some? && wire.value != ListValue([]) && wire.value != MapValue([]) then
      if !go.pointer && go.omitempty && wire.value in {BoolValue(false), IntValue(0), StringValue(""), BytesValue([])}
      then go.json !in o
      else go.json in o && IsValue(s, c, wire.value, o[go.json])
    else if go.pointer || f.shape != Singular || f.kind == ScalarKind(BytesType) then
      if go.omitempty then go.json !in o else go.json in o && o[go.json] == Null
    else if f.kind.MessageKind? then
      go.json in o && (DefaultDecreases(s, m, f, go); IsImage(s, c, Msg(f.kind.message, [], []), o[go.json]))
    else if go.omitempty then go.json !in o
    else go.json in o && IsZero(f.kind.scalar, o[go.json])
  }

  predicate IsZero(t: Scalar, j: Json) {
    match t
    case BoolType => j == Bool(false)
    case IntType => j == Number(0)
    case StringType => j == String("")
    case _ => false
  }

  ghost predicate IsValue(s: Schema, c: Codec, v: Value, j: Json)
    requires s.Ranked()
    decreases DepthOf(v), 0, 1
  {
    match v
    case ListValue(items) =>
      j.Array? && |j.items| == |items| && forall i :: 0 <= i < |items| ==>
        (GoJsonWriter.DepthOfItem(items, i); IsItem(s, c, items[i], j.items[i]))
    case MapValue(entries) =>
      && j.Object?
      && (forall i :: 0 <= i < |entries| ==>
            (GoJsonWriter.DepthOfEntry(entries, i); IsEntry(s, c, entries[i], j.fields)))
      && forall key <- j.fields :: exists i :: 0 <= i < |entries| && entries[i].key == StringKey(key)
    case _ => IsItem(s, c, v, j)
  }

  ghost predicate IsEntry(s: Schema, c: Codec, entry: MapEntry, o: Fields)
    requires s.Ranked()
    decreases DepthOf(entry.value), 0, 1
  {
    entry.key.StringKey? && entry.key.s in o && IsItem(s, c, entry.value, o[entry.key.s])
  }

  ghost predicate IsItem(s: Schema, c: Codec, v: Value, j: Json)
    requires s.Ranked()
    decreases DepthOf(v), 0, 0
  {
    match v
    case BoolValue(b) => j == Bool(b)
    case IntValue(n) => j == Number(n)
    case StringValue(text) => j == String(text)
    case BytesValue(bytes) => j == String(c.base64(bytes))
    case MessageValue(msg) => IsImage(s, c, msg, j)
    case _ => false
  }

  // Messages as decoding leaves them.

  /** Every message reached has its embedded structs typed, and every map each key once. */
  ghost predicate Decoded(s: Schema, m: Msg)
    requires s.Ranked()
    decreases Depth(m)
  {
    && Typed(s, m)
    && forall f :: f in s.Fields(m.name) && Lookup(m.fields, f.number).Some? ==> DecodedValue(s, Lookup(m.fields, f.number).value)
  }

  ghost predicate DecodedValue(s: Schema, v: Value)
    requires s.Ranked()
    decreases DepthOf(v)
  {
    match v
    case MessageValue(msg) => Decoded(s, msg)
    case ListValue(items) =>
      forall i :: 0 <= i < |items| ==> (GoJsonWriter.DepthOfItem(items, i); DecodedValue(s, items[i]))
    case MapValue(entries) =>
      && KeysOnce(v)
      && forall i :: 0 <= i < |entries| ==> (GoJsonWriter.DepthOfEntry(entries, i); DecodedValue(s, entries[i].value))
    case _ => true
  }

  lemma {:induction false} DefaultDecoded(s: Schema, name: string)
    requires s.Ranked()
    ensures Decoded(s, Msg(name, [], []))
    decreases s.Rank(name)
  {
    var m := Msg(name, [], []);
    forall f | f in s.Fields(name) && s.Go(name, f).Some? && s.Go(name, f).value.inline && Get(m, f).MessageValue?
      ensures f.kind == MessageKind(Get(m, f).msg.name) && Typed(s, Get(m, f).msg)
    {
      DefaultDecoded(s, f.kind.message);
    }
  }

  lemma InlineDecoded(s: Schema, m: Msg, f: Field)
    requires s.Ranked() && Decoded(s, m) && f in s.Fields(m.name) && Get(m, f).MessageValue?
    ensures Decoded(s, Get(m, f).msg)
  {
    if Lookup(m.fields, f.number).None? {
      DefaultDecoded(s, f.kind.message);
    } else {
      assert DecodedValue(s, Lookup(m.fields, f.number).value);
    }
  }

  // The conversion yields the image.

  lemma {:induction false} ConvertedIsImage(s: Schema, c: Codec, m: Msg, path: Path)
    requires WellFormed(s) && Decoded(s, m) && MessageToJson(s, c, m, path).Ok?
    ensures IsImage(s, c, m, MessageToJson(s, c, m, path).value)
    decreases Depth(m), s.Rank(m.name), 3
  {
    if IsSpecial(m.name) {
      SpecialIsImage(s, c, m, path);
    } else {
      var o := Written(s, c, m, path).value;
      WrittenKnown(s, c, m, path);
      WritesOnly(s, c, m, s.Fields(m.name), path);
      KnownIsObject(s, c, m, path, o);
    }
  }

  lemma SpecialIsImage(s: Schema, c: Codec, m: Msg, path: Path)
    requires IsSpecial(m.name) && SpecialToJson(s, c, m, path).Ok?
    ensures m.unknown == [] && IsSpecialImage(s, c, m, SpecialToJson(s, c, m, path).value)
  {
  }

  lemma {:induction false} KnownIsObject(s: Schema, c: Codec, m: Msg, path: Path, o: Fields)
    requires WellFormed(s) && Decoded(s, m) && Knows(s, c, m, path, o)
    ensures IsObject(s, c, m, o)
    decreases Depth(m), s.Rank(m.name), 2
  {
    forall f | f in s.Fields(m.name)
      ensures s.Go(m.name, f).Some? && IsField(s, c, m, f, s.Go(m.name, f).value, o)
    {
      FieldKnown(s, c, m, f, path, o);
      KnownIsField(s, c, m, f, path, o);
    }
  }

  lemma {:induction false} KnownIsField(s: Schema, c: Codec, m: Msg, f: Field, path: Path, o: Fields)
    requires WellFormed(s) && Decoded(s, m) && f in s.Fields(m.name) && s.Go(m.name, f).Some?
    requires WriteField(s, c, m, f, map[], path) == Ok(Restrict(o, FieldNames(s, m.name, f)))
    ensures IsField(s, c, m, f, s.Go(m.name, f).value, o)
    decreases Depth(m), s.Rank(m.name), 1
  {
    var go := s.Go(m.name, f).value;
    if go.inline {
      var inner := Get(m, f).msg;
      InlineDecreases(s, m, f, go);
      InlineDecoded(s, m, f);
      assert f.kind == MessageKind(inner.name);
      KnownIsObject(s, c, inner, path, o);
    } else {
      var p := path + [Key(go.json)];
      var json := FieldJson(s, c, m, f, go, p).value;
      if json.Some? {
        assert Restrict(o, {go.json}) == map[go.json := json.value];
        RestrictOne(o, go.json, json.value);
      } else {
        assert go.json !in Restrict(o, {go.json});
      }
      if Present(m, f) {
        var v := Lookup(m.fields, f.number).value;
        if json.Some? {
          ValueIsImage(s, c, v, p);
        }
      } else if Schema.ByValue(f, go) {
        DefaultDecreases(s, m, f, go);
        DefaultDecoded(s, f.kind.message);
        ConvertedIsImage(s, c, Msg(f.kind.message, [], []), p);
      }
    }
  }

  lemma {:induction false} ValueIsImage(s: Schema, c: Codec, v: Value, path: Path)
    requires WellFormed(s) && DecodedValue(s, v) && ValueToJson(s, c, v, path).Ok?
    ensures IsValue(s, c, v, ValueToJson(s, c, v, path).value)
    decreases DepthOf(v), 0, 3
  {
    if v.ListValue? {
      ItemsAreImages(s, c, v.items, path, 0);
    } else if v.MapValue? {
      EntriesAreImages(s, c, v.entries, map[], path);
    } else if v.MessageValue? {
      ConvertedIsImage(s, c, v.msg, path);
    }
  }

  lemma {:induction false} ItemIsImage(s: Schema, c: Codec, v: Value, path: Path)
    requires WellFormed(s) && DecodedValue(s, v) && ItemToJson(s, c, v, path).Ok?
    ensures IsItem(s, c, v, ItemToJson(s, c, v, path).value)
    decreases DepthOf(v), 0, 0
  {
    if v.MessageValue? {
      ConvertedIsImage(s, c, v.msg, path);
    }
  }

  lemma {:induction false} ItemsAreImages(s: Schema, c: Codec, items: seq<Value>, path: Path, from: nat)
    requires WellFormed(s) && ItemsToJson(s, c, items, path, from).Ok?
    requires forall i :: 0 <= i < |items| ==> DecodedValue(s, items[i])
    ensures var js := ItemsToJson(s, c, items, path, from).value;
      |js| == |items| && forall i :: 0 <= i < |items| ==> IsItem(s, c, items[i], js[i])
    decreases DepthOfItems(items), 0, 1 + |items|
  {
    if items != [] {
      ItemIsImage(s, c, items[0], path + [Index(from)]);
      var rest := items[1..];
      forall i | 0 <= i < |rest| ensures DecodedValue(s, rest[i]) {
        assert rest[i] == items[i + 1];
      }
      ItemsAreImages(s, c, rest, path, from + 1);
      var js := ItemsToJson(s, c, items, path, from).value;
      var more := ItemsToJson(s, c, rest, path, from + 1).value;
      forall i | 0 <= i < |items| ensures IsItem(s, c, items[i], js[i]) {
        if i > 0 {
          assert items[i] == rest[i - 1] && js[i] == more[i - 1];
        }
      }
    }
  }

  lemma {:induction false} EntriesAreImages(s: Schema, c: Codec, entries: seq<MapEntry>, out: map<string, Json>, path: Path)
    requires WellFormed(s) && EntriesToJson(s, c, entries, out, path).Ok? && KeysOnce(MapValue(entries))
    requires forall i :: 0 <= i < |entries| ==> DecodedValue(s, entries[i].value)
    ensures var o := EntriesToJson(s, c, entries, out, path).value;
      && (forall i :: 0 <= i < |entries| ==> IsEntry(s, c, entries[i], o))
      && forall key <- o :: key in out || exists i :: 0 <= i < |entries| && entries[i].key == StringKey(key)
    decreases DepthOfEntries(entries), 0, 1 + |entries|
  {
    if entries != [] {
      var key := entries[0].key.s;
      assert DepthOf(entries[0].value) == entries[0].Depth() <= DepthOfEntries(entries);
      ItemIsImage(s, c, entries[0].value, path + [Key(key)]);
      var json := ItemToJson(s, c, entries[0].value, path + [Key(key)]).value;
      var rest := entries[1..];
      forall i | 0 <= i < |rest| ensures DecodedValue(s, rest[i].value) {
        assert rest[i] == entries[i + 1];
      }
      EntriesAreImages(s, c, rest, out[key := json], path);
      KeyStays(s, c, rest, out[key := json], path, key);
      var o := EntriesToJson(s, c, entries, out, path).value;
      forall i | 0 <= i < |entries| ensures IsEntry(s, c, entries[i], o) {
        if i > 0 {
          assert entries[i] == rest[i - 1];
        }
      }
      forall k | k in o ensures k in out || exists i :: 0 <= i < |entries| && entries[i].key == StringKey(k) {
        if k !in out && k != key {
          var i :| 0 <= i < |rest| && rest[i].key == StringKey(k);
          assert entries[i + 1].key == StringKey(k);
        } else if k == key {
          assert entries[0].key == StringKey(k);
        }
      }
    }
  }

  // And it fails only where there is no image.

  lemma {:induction false} ImageIsConverted(s: Schema, c: Codec, m: Msg, j: Json, path: Path)
    requires s.Ranked() && IsImage(s, c, m, j)
    ensures MessageToJson(s, c, m, path).Ok?
    decreases Depth(m), s.Rank(m.name), |s.Fields(m.name)| + 3
  {
    if !IsSpecial(m.name) {
      ObjectIsWritten(s, c, m, j.fields, map[], path);
    }
  }

  lemma {:induction false} ObjectIsWritten(s: Schema, c: Codec, m: Msg, o: Fields, out: Fields, path: Path)
    requires s.Ranked() && IsObject(s, c, m, o)
    ensures WriteFields(s, c, m, out, path).Ok?
    decreases Depth(m), s.Rank(m.name), |s.Fields(m.name)| + 2
  {
    FieldsAreWritten(s, c, m, s.Fields(m.name), o, out, path);
  }

  lemma {:induction false} FieldsAreWritten(s: Schema, c: Codec, m: Msg, fields: seq<Field>, o: Fields, out: Fields, path: Path)
    requires s.Ranked() && IsObject(s, c, m, o) && forall f <- fields :: f in s.Fields(m.name)
    ensures WriteFrom(s, c, m, fields, out, path).Ok?
    decreases Depth(m), s.Rank(m.name), |fields| + 1
  {
    if fields != [] {
      assert fields[0] in fields;
      FieldIsWritten(s, c, m, fields[0], o, out, path);
      FieldsAreWritten(s, c, m, fields[1..], o, WriteField(s, c, m, fields[0], out, path).value, path);
    }
  }

  lemma {:induction false} FieldIsWritten(s: Schema, c: Codec, m: Msg, f: Field, o: Fields, out: Fields, path: Path)
    requires s.Ranked() && f in s.Fields(m.name) && s.Go(m.name, f).Some?
    requires IsField(s, c, m, f, s.Go(m.name, f).value, o)
    ensures WriteField(s, c, m, f, out, path).Ok?
    decreases Depth(m), s.Rank(m.name), 0
  {
    var go := s.Go(m.name, f).value;
    var p := path + [Key(go.json)];
    if go.inline {
      InlineDecreases(s, m, f, go);
      ObjectIsWritten(s, c, Get(m, f).msg, o, out, path);
    } else if Present(m, f) {
      var v := Lookup(m.fields, f.number).value;
      if go.pointer || !go.omitempty || !IsEmpty(v) {
        ImageIsValue(s, c, v, o[go.json], p);
      }
    } else if Schema.ByValue(f, go) {
      DefaultDecreases(s, m, f, go);
      ImageIsConverted(s, c, Msg(f.kind.message, [], []), o[go.json], p);
    }
  }

  lemma {:induction false} ImageIsValue(s: Schema, c: Codec, v: Value, j: Json, path: Path)
    requires s.Ranked() && IsValue(s, c, v, j)
    ensures ValueToJson(s, c, v, path).Ok?
    decreases DepthOf(v), 0, 3
  {
    match v
    case ListValue(items) => ImagesAreItems(s, c, items, j.items, path, 0);
    case MapValue(entries) => ImagesAreEntries(s, c, entries, j.fields, map[], path);
    case _ => ImageIsItem(s, c, v, j, path);
  }

  lemma {:induction false} ImageIsItem(s: Schema, c: Codec, v: Value, j: Json, path: Path)
    requires s.Ranked() && IsItem(s, c, v, j)
    ensures ItemToJson(s, c, v, path).Ok?
    decreases DepthOf(v), 0, 0
  {
    if v.MessageValue? {
      ImageIsConverted(s, c, v.msg, j, path);
    }
  }

  lemma {:induction false} ImagesAreItems(s: Schema, c: Codec, items: seq<Value>, js: seq<Json>, path: Path, from: nat)
    requires s.Ranked() && |js| == |items| && forall i :: 0 <= i < |items| ==> IsItem(s, c, items[i], js[i])
    ensures ItemsToJson(s, c, items, path, from).Ok?
    decreases DepthOfItems(items), 0, 1 + |items|
  {
    if items != [] {
      ImageIsItem(s, c, items[0], js[0], path + [Index(from)]);
      forall i | 0 <= i < |items[1..]| ensures IsItem(s, c, items[1..][i], js[1..][i]) {
        assert items[1..][i] == items[i + 1] && js[1..][i] == js[i + 1];
      }
      ImagesAreItems(s, c, items[1..], js[1..], path, from + 1);
    }
  }

  lemma {:induction false} ImagesAreEntries(s: Schema, c: Codec, entries: seq<MapEntry>, o: Fields, out: Fields, path: Path)
    requires s.Ranked() && forall i :: 0 <= i < |entries| ==> IsEntry(s, c, entries[i], o)
    ensures EntriesToJson(s, c, entries, out, path).Ok?
    decreases DepthOfEntries(entries), 0, 1 + |entries|
  {
    if entries != [] {
      assert IsEntry(s, c, entries[0], o);
      var key := entries[0].key.s;
      assert DepthOf(entries[0].value) == entries[0].Depth() <= DepthOfEntries(entries);
      ImageIsItem(s, c, entries[0].value, o[key], path + [Key(key)]);
      var json := ItemToJson(s, c, entries[0].value, path + [Key(key)]).value;
      forall i | 0 <= i < |entries[1..]| ensures IsEntry(s, c, entries[1..][i], o) {
        assert entries[1..][i] == entries[i + 1];
      }
      ImagesAreEntries(s, c, entries[1..], o, out[key := json], path);
    }
  }

  ghost predicate HasImage(s: Schema, c: Codec, m: Msg)
    requires s.Ranked()
  {
    exists j :: IsImage(s, c, m, j)
  }

  /** A message is converted exactly if it has an image, and then to it. */
  lemma ConvertedExactly(s: Schema, c: Codec, m: Msg, path: Path)
    requires WellFormed(s) && Decoded(s, m)
    ensures MessageToJson(s, c, m, path).Ok? <==> HasImage(s, c, m)
    ensures MessageToJson(s, c, m, path).Ok? ==> IsImage(s, c, m, MessageToJson(s, c, m, path).value)
  {
    if MessageToJson(s, c, m, path).Ok? {
      ConvertedIsImage(s, c, m, path);
    } else if HasImage(s, c, m) {
      var j :| IsImage(s, c, m, j);
      ImageIsConverted(s, c, m, j, path);
    }
  }

  /** What special types read by name is what is on the wire under the field of that name, or its zero. */
  lemma {:induction false} NamedIsRead(s: Schema, m: Msg, f: Field)
    requires f in s.Fields(m.name) && forall g <- s.Fields(m.name) :: g.name == f.name ==> g == f
    ensures var wire := Lookup(m.fields, f.number);
      && (wire.Some? ==> GetNamed(s, m, f.name) == wire)
      && (wire.Some? && wire.value.IntValue? ==> IntField(s, m, f.name) == wire.value.n)
      && (wire.Some? && wire.value.StringValue? ==> StringField(s, m, f.name) == wire.value.s)
      && (wire.None? && f.shape.Singular? && f.kind == ScalarKind(IntType) ==> IntField(s, m, f.name) == 0)
      && (wire.None? && f.shape.Singular? && f.kind == ScalarKind(StringType) ==> StringField(s, m, f.name) == "")
  {
    NameFinds(s.Fields(m.name), f);
  }

  lemma {:induction false} NameFinds(fields: seq<Field>, f: Field)
    requires f in fields && forall g <- fields :: g.name == f.name ==> g == f
    ensures FieldNamed(fields, f.name) == Some(f)
  {
    assert fields[0] in fields;
    if fields[0] != f {
      NameFinds(fields[1..], f);
    }
  }
}
