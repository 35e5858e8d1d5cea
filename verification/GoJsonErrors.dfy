/** What an error of the conversion says: something that is wrong with the message, and where (src/k8s_protobuf.rs). */
module GoJsonErrors {
  import opened Wrappers
  import opened Json
  import opened GoJson
  import GoJsonWriter

  /** `e` names something wrong with `m`, which is at `path`. */
  ghost predicate Blames(s: Schema, c: Codec, m: Msg, path: Path, e: Error)
    requires s.Ranked()
    decreases Depth(m), s.Rank(m.name), 2
  {
    if IsSpecial(m.name) then UnknownIn(m, path, e) || BlamesSpecial(s, c, m, path, e) else BlamesObject(s, c, m, path, e)
  }

  predicate UnknownIn(m: Msg, path: Path, e: Error) {
    m.unknown != [] && e == UnknownField(path, m.unknown[0], m.name)
  }

  predicate BlamesSpecial(s: Schema, c: Codec, m: Msg, path: Path, e: Error) {
    || (m.name == TIME && c.timeText(IntField(s, m, "seconds")).None? && e == TimeOutOfRange(path)
        && (IntField(s, m, "seconds") != 0 || IntField(s, m, "nanos") != 0))
    || (m.name == INT_OR_STRING && IntField(s, m, "type") !in {0, 1} && e == UnknownIntOrStringType(path, IntField(s, m, "type")))
    || (m.name == FIELDS_V1 && e == InvalidFieldsV1(path)
        && var raw := GetNamed(s, m, "Raw");
        raw.Some? && raw.value.BytesValue? && raw.value.bytes != [] && c.parseJson(raw.value.bytes) == None)
  }

  ghost predicate BlamesObject(s: Schema, c: Codec, m: Msg, path: Path, e: Error)
    requires s.Ranked()
    decreases Depth(m), s.Rank(m.name), 1
  {
    || UnknownIn(m, path, e)
    || (m.name !in s.go && e == UnsupportedMessage(path, m.name))
    || exists f :: f in s.Fields(m.name) && BlamesField(s, c, m, f, path, e)
  }

  ghost predicate BlamesField(s: Schema, c: Codec, m: Msg, f: Field, path: Path, e: Error)
    requires s.Ranked() && f in s.Fields(m.name)
    decreases Depth(m), s.Rank(m.name), 0
  {
    match s.Go(m.name, f)
    case None => e == MissingGoField(m.name, f.name)
    case Some(go) =>
      if go.inline then
        if Get(m, f).MessageValue? then
          InlineDecreases(s, m, f, go);
          BlamesObject(s, c, Get(m, f).msg, path, e)
        else e == InlineNonMessage(m.name, f.name)
      else
        var p := path + [Key(go.json)];
        if Present(m, f) then BlamesValue(s, c, Lookup(m.fields, f.number).value, p, e)
        else if Schema.ByValue(f, go) then
          DefaultDecreases(s, m, f, go);
          Blames(s, c, Msg(f.kind.message, [], []), p, e)
        else f.shape.Singular? && f.kind == ScalarKind(EnumType) && !go.pointer && !go.omitempty && e == UnsupportedValue(p)
  }

  ghost predicate BlamesValue(s: Schema, c: Codec, v: Value, path: Path, e: Error)
    requires s.Ranked()
    decreases DepthOf(v), 0, 1
  {
    match v
    case ListValue(items) =>
      exists i :: 0 <= i < |items| &&
        (GoJsonWriter.DepthOfItem(items, i); BlamesItem(s, c, items[i], path + [Index(i)], e))
    case MapValue(entries) =>
      exists i :: 0 <= i < |entries| && (GoJsonWriter.DepthOfEntry(entries, i); BlamesEntry(s, c, entries[i], path, e))
    case _ => BlamesItem(s, c, v, path, e)
  }

  ghost predicate BlamesEntry(s: Schema, c: Codec, entry: MapEntry, path: Path, e: Error)
    requires s.Ranked()
    decreases DepthOf(entry.value), 0, 1
  {
    if entry.key.StringKey? then BlamesItem(s, c, entry.value, path + [Key(entry.key.s)], e) else e == NonStringMapKey(path)
  }

  ghost predicate BlamesItem(s: Schema, c: Codec, v: Value, path: Path, e: Error)
    requires s.Ranked()
    decreases DepthOf(v), 0, 0
  {
    match v
    case MessageValue(msg) => Blames(s, c, msg, path, e)
    case EnumValue(_) => e == UnsupportedValue(path)
    case ListValue(_) => e == UnsupportedValue(path)
    case MapValue(_) => e == UnsupportedValue(path)
    case _ => false
  }

  /** An error of the conversion says what is wrong, and names the place. */
  lemma {:induction false} ErrorBlames(s: Schema, c: Codec, m: Msg, path: Path)
    requires s.Ranked() && MessageToJson(s, c, m, path).Err?
    ensures Blames(s, c, m, path, MessageToJson(s, c, m, path).error)
    decreases Depth(m), s.Rank(m.name), |s.Fields(m.name)| + 3
  {
    if !IsSpecial(m.name) {
      ObjectBlames(s, c, m, map[], path);
    }
  }

  lemma {:induction false} ObjectBlames(s: Schema, c: Codec, m: Msg, out: map<string, Json>, path: Path)
    requires s.Ranked() && WriteFields(s, c, m, out, path).Err?
    ensures BlamesObject(s, c, m, path, WriteFields(s, c, m, out, path).error)
    decreases Depth(m), s.Rank(m.name), |s.Fields(m.name)| + 2
  {
    if m.unknown == [] && m.name in s.go {
      var f := FieldsBlame(s, c, m, s.Fields(m.name), out, path);
    }
  }

  lemma {:induction false} FieldsBlame(s: Schema, c: Codec, m: Msg, fields: seq<Field>, out: map<string, Json>, path: Path)
    returns (f: Field)
    requires s.Ranked() && forall g <- fields :: g in s.Fields(m.name)
    requires WriteFrom(s, c, m, fields, out, path).Err?
    ensures f in s.Fields(m.name) && BlamesField(s, c, m, f, path, WriteFrom(s, c, m, fields, out, path).error)
    decreases Depth(m), s.Rank(m.name), |fields| + 1
  {
    f := fields[0];
    var next := WriteField(s, c, m, f, out, path);
    if next.Ok? {
      f := FieldsBlame(s, c, m, fields[1..], next.value, path);
    } else {
      FieldBlames(s, c, m, f, out, path);
    }
  }

  lemma {:induction false} FieldBlames(s: Schema, c: Codec, m: Msg, f: Field, out: map<string, Json>, path: Path)
    requires s.Ranked() && f in s.Fields(m.name) && WriteField(s, c, m, f, out, path).Err?
    ensures BlamesField(s, c, m, f, path, WriteField(s, c, m, f, out, path).error)
    decreases Depth(m), s.Rank(m.name), 0
  {
    if s.Go(m.name, f).Some? {
      var go := s.Go(m.name, f).value;
      if go.inline {
        if Get(m, f).MessageValue? {
          InlineDecreases(s, m, f, go);
          ObjectBlames(s, c, Get(m, f).msg, out, path);
        }
      } else if Present(m, f) {
        ValueBlames(s, c, Lookup(m.fields, f.number).value, path + [Key(go.json)]);
      } else if Schema.ByValue(f, go) {
        DefaultDecreases(s, m, f, go);
        ErrorBlames(s, c, Msg(f.kind.message, [], []), path + [Key(go.json)]);
      }
    }
  }

  lemma {:induction false} ValueBlames(s: Schema, c: Codec, v: Value, path: Path)
    requires s.Ranked() && ValueToJson(s, c, v, path).Err?
    ensures BlamesValue(s, c, v, path, ValueToJson(s, c, v, path).error)
    decreases DepthOf(v), 0, 2
  {
    if v.ListValue? {
      var i := ItemsBlame(s, c, v.items, path, 0);
      GoJsonWriter.DepthOfItem(v.items, i);
    } else if v.MapValue? {
      var i := EntriesBlame(s, c, v.entries, map[], path);
      GoJsonWriter.DepthOfEntry(v.entries, i);
    } else {
      ItemBlames(s, c, v, path);
    }
  }

  lemma {:induction false} ItemBlames(s: Schema, c: Codec, v: Value, path: Path)
    requires s.Ranked() && ItemToJson(s, c, v, path).Err?
    ensures BlamesItem(s, c, v, path, ItemToJson(s, c, v, path).error)
    decreases DepthOf(v), 0, 0
  {
    if v.MessageValue? {
      ErrorBlames(s, c, v.msg, path);
    }
  }

  lemma {:induction false} ItemsBlame(s: Schema, c: Codec, items: seq<Value>, path: Path, from: nat) returns (i: nat)
    requires s.Ranked() && ItemsToJson(s, c, items, path, from).Err?
    ensures i < |items| && BlamesItem(s, c, items[i], path + [Index(from + i)], ItemsToJson(s, c, items, path, from).error)
    decreases DepthOfItems(items), 0, 1 + |items|
  {
    if ItemToJson(s, c, items[0], path + [Index(from)]).Err? {
      ItemBlames(s, c, items[0], path + [Index(from)]);
      i := 0;
    } else {
      var rest := ItemsBlame(s, c, items[1..], path, from + 1);
      i := rest + 1;
    }
  }

  lemma {:induction false} EntriesBlame(s: Schema, c: Codec, entries: seq<MapEntry>, out: map<string, Json>, path: Path) returns (i: nat)
    requires s.Ranked() && EntriesToJson(s, c, entries, out, path).Err?
    ensures i < |entries| && BlamesEntry(s, c, entries[i], path, EntriesToJson(s, c, entries, out, path).error)
    decreases DepthOfEntries(entries), 0, 1 + |entries|
  {
    i := 0;
    if entries[0].key.StringKey? {
      var key := entries[0].key.s;
      var json := ItemToJson(s, c, entries[0].value, path + [Key(key)]);
      if json.Ok? {
        var rest := EntriesBlame(s, c, entries[1..], out[key := json.value], path);
        i := rest + 1;
      } else {
        assert DepthOf(entries[0].value) == entries[0].Depth() <= DepthOfEntries(entries);
        ItemBlames(s, c, entries[0].value, path + [Key(key)]);
      }
    }
  }

  // And wherever something is wrong, there is an error.

  lemma {:induction false} BlamedFails(s: Schema, c: Codec, m: Msg, path: Path, e: Error)
    requires s.Ranked() && Blames(s, c, m, path, e)
    ensures MessageToJson(s, c, m, path).Err?
    decreases Depth(m), s.Rank(m.name), |s.Fields(m.name)| + 3
  {
    if !IsSpecial(m.name) {
      BlamedObject(s, c, m, map[], path, e);
    }
  }

  lemma {:induction false} BlamedObject(s: Schema, c: Codec, m: Msg, out: map<string, Json>, path: Path, e: Error)
    requires s.Ranked() && BlamesObject(s, c, m, path, e)
    ensures WriteFields(s, c, m, out, path).Err?
    decreases Depth(m), s.Rank(m.name), |s.Fields(m.name)| + 2
  {
    if m.unknown == [] && m.name in s.go {
      var f :| f in s.Fields(m.name) && BlamesField(s, c, m, f, path, e);
      BlamedFrom(s, c, m, s.Fields(m.name), out, path, f, e);
    }
  }

  lemma {:induction false} BlamedFrom(s: Schema, c: Codec, m: Msg, fields: seq<Field>, out: map<string, Json>, path: Path, f: Field, e: Error)
    requires s.Ranked() && forall g <- fields :: g in s.Fields(m.name)
    requires f in fields && BlamesField(s, c, m, f, path, e)
    ensures WriteFrom(s, c, m, fields, out, path).Err?
    decreases Depth(m), s.Rank(m.name), |fields| + 1
  {
    if fields[0] == f {
      BlamedField(s, c, m, f, out, path, e);
    } else {
      var next := WriteField(s, c, m, fields[0], out, path);
      if next.Ok? {
        BlamedFrom(s, c, m, fields[1..], next.value, path, f, e);
      }
    }
  }

  lemma {:induction false} BlamedField(s: Schema, c: Codec, m: Msg, f: Field, out: map<string, Json>, path: Path, e: Error)
    requires s.Ranked() && f in s.Fields(m.name) && BlamesField(s, c, m, f, path, e)
    ensures WriteField(s, c, m, f, out, path).Err?
    decreases Depth(m), s.Rank(m.name), 0
  {
    if s.Go(m.name, f).Some? {
      var go := s.Go(m.name, f).value;
      if go.inline {
        if Get(m, f).MessageValue? {
          InlineDecreases(s, m, f, go);
          BlamedObject(s, c, Get(m, f).msg, out, path, e);
        }
      } else if Present(m, f) {
        BlamedValue(s, c, Lookup(m.fields, f.number).value, path + [Key(go.json)], e);
      } else if Schema.ByValue(f, go) {
        DefaultDecreases(s, m, f, go);
        BlamedFails(s, c, Msg(f.kind.message, [], []), path + [Key(go.json)], e);
      }
    }
  }

  lemma {:induction false} BlamedValue(s: Schema, c: Codec, v: Value, path: Path, e: Error)
    requires s.Ranked() && BlamesValue(s, c, v, path, e)
    ensures ValueToJson(s, c, v, path).Err? && !IsEmpty(v)
    decreases DepthOf(v), 0, 2
  {
    if v.ListValue? {
      var i :| 0 <= i < |v.items| && (GoJsonWriter.DepthOfItem(v.items, i); BlamesItem(s, c, v.items[i], path + [Index(i)], e));
      BlamedItems(s, c, v.items, path, 0, i, e);
    } else if v.MapValue? {
      var i :| 0 <= i < |v.entries| && (GoJsonWriter.DepthOfEntry(v.entries, i); BlamesEntry(s, c, v.entries[i], path, e));
      BlamedEntries(s, c, v.entries, map[], path, i, e);
    } else {
      BlamedItem(s, c, v, path, e);
    }
  }

  lemma {:induction false} BlamedItem(s: Schema, c: Codec, v: Value, path: Path, e: Error)
    requires s.Ranked() && BlamesItem(s, c, v, path, e)
    ensures ItemToJson(s, c, v, path).Err?
    decreases DepthOf(v), 0, 0
  {
    if v.MessageValue? {
      BlamedFails(s, c, v.msg, path, e);
    }
  }

  lemma {:induction false} BlamedItems(s: Schema, c: Codec, items: seq<Value>, path: Path, from: nat, i: nat, e: Error)
    requires s.Ranked() && i < |items| && BlamesItem(s, c, items[i], path + [Index(from + i)], e)
    ensures ItemsToJson(s, c, items, path, from).Err?
    decreases DepthOfItems(items), 0, 1 + |items|
  {
    if i == 0 {
      BlamedItem(s, c, items[0], path + [Index(from)], e);
    } else {
      BlamedItems(s, c, items[1..], path, from + 1, i - 1, e);
    }
  }

  lemma {:induction false} BlamedEntries(s: Schema, c: Codec, entries: seq<MapEntry>, out: map<string, Json>, path: Path, i: nat, e: Error)
    requires s.Ranked() && i < |entries| && BlamesEntry(s, c, entries[i], path, e)
    ensures EntriesToJson(s, c, entries, out, path).Err?
    decreases DepthOfEntries(entries), 0, 1 + |entries|
  {
    if entries[0].key.StringKey? {
      var key := entries[0].key.s;
      var json := ItemToJson(s, c, entries[0].value, path + [Key(key)]);
      if i == 0 {
        assert DepthOf(entries[0].value) == entries[0].Depth() <= DepthOfEntries(entries);
        BlamedItem(s, c, entries[0].value, path + [Key(key)], e);
      } else if json.Ok? {
        BlamedEntries(s, c, entries[1..], out[key := json.value], path, i - 1, e);
      }
    }
  }

  /** Something is wrong with `m`. */
  ghost predicate Faulty(s: Schema, c: Codec, m: Msg, path: Path)
    requires s.Ranked()
  {
    exists e :: Blames(s, c, m, path, e)
  }

  /** The conversion fails exactly if something is wrong, and then with an error that says what, and where. */
  lemma FailsExactly(s: Schema, c: Codec, m: Msg, path: Path)
    requires s.Ranked()
    ensures MessageToJson(s, c, m, path).Err? <==> Faulty(s, c, m, path)
    ensures MessageToJson(s, c, m, path).Err? ==> Blames(s, c, m, path, MessageToJson(s, c, m, path).error)
  {
    if MessageToJson(s, c, m, path).Err? {
      ErrorBlames(s, c, m, path);
    } else if Faulty(s, c, m, path) {
      var e :| Blames(s, c, m, path, e);
      BlamedFails(s, c, m, path, e);
    }
  }
}
