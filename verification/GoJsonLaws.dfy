/** What the protobuf-to-JSON conversion promises, for every message tree (src/k8s_protobuf.rs). */
module GoJsonLaws {
  import opened Wrappers
  import opened Json
  import opened GoJson

  // Presence of zero values on the wire does not matter.

  /** A field whose zero value and absence mean the same in Go: a bool, integer, string or struct by value, or an embedded struct. */
  predicate ZeroIsAbsent(f: Field, go: GoField) {
    go.inline || (!go.pointer && f.shape.Singular? && f.kind !in {ScalarKind(BytesType), ScalarKind(EnumType)})
  }

  /** The two trees differ, at any depth, only in whether such fields holding their zero value are present. */
  ghost predicate SameMessage(s: Schema, a: Msg, b: Msg)
    requires s.Ranked()
    decreases Depth(a) + Depth(b), s.Rank(a.name), 1
  {
    && a.name == b.name
    && a.unknown == b.unknown
    && forall f :: f in s.Fields(a.name) ==>
         if IsSpecial(a.name) then Get(a, f) == Get(b, f) else SameField(s, a, b, f)
  }

  ghost predicate SameField(s: Schema, a: Msg, b: Msg, f: Field)
    requires s.Ranked() && a.name == b.name && f in s.Fields(a.name)
    decreases Depth(a) + Depth(b), s.Rank(a.name), 0
  {
    match s.Go(a.name, f)
    case None => true
    case Some(go) =>
      if ZeroIsAbsent(f, go) then
        var (u, v) := (Get(a, f), Get(b, f));
        if u.MessageValue? && v.MessageValue? then
          ZeroDecreases(s, a, b, f, go);
          SameMessage(s, u.msg, v.msg)
        else u == v
      else
        && Present(a, f) == Present(b, f)
        && (Present(a, f) ==>
              SameValue(s, Lookup(a.fields, f.number).value, Lookup(b.fields, f.number).value))
  }

  ghost predicate SameValue(s: Schema, u: Value, v: Value)
    requires s.Ranked()
    decreases DepthOf(u) + DepthOf(v), 0, 0
  {
    match (u, v)
    case (MessageValue(x), MessageValue(y)) => SameMessage(s, x, y)
    case (ListValue(x), ListValue(y)) => SameItems(s, x, y)
    case (MapValue(x), MapValue(y)) => SameEntries(s, x, y)
    case _ => u == v
  }

  ghost predicate SameItems(s: Schema, x: seq<Value>, y: seq<Value>)
    requires s.Ranked()
    decreases DepthOfItems(x) + DepthOfItems(y), 0, 1 + |x|
  {
    if x == [] || y == [] then x == y else SameValue(s, x[0], y[0]) && SameItems(s, x[1..], y[1..])
  }

  ghost predicate SameEntries(s: Schema, x: seq<MapEntry>, y: seq<MapEntry>)
    requires s.Ranked()
    decreases DepthOfEntries(x) + DepthOfEntries(y), 0, 1 + |x|
  {
    if x == [] || y == [] then x == y
    else
      assert x[0].Depth() <= DepthOfEntries(x) && y[0].Depth() <= DepthOfEntries(y);
      x[0].key == y[0].key && SameValue(s, x[0].value, y[0].value) && SameEntries(s, x[1..], y[1..])
  }

  lemma InlineDepth(s: Schema, a: Msg, f: Field, go: GoField)
    requires s.Ranked() && f in s.Fields(a.name) && s.Go(a.name, f) == Some(go)
    requires ZeroIsAbsent(f, go) && Get(a, f).MessageValue?
    ensures Depth(Get(a, f).msg) <= Depth(a)
    ensures Depth(Get(a, f).msg) < Depth(a) || s.Rank(Get(a, f).msg.name) < s.Rank(a.name)
  {
    if Lookup(a.fields, f.number).None? {
      DefaultDecreases(s, a, f, go);
    }
  }

  lemma ZeroDecreases(s: Schema, a: Msg, b: Msg, f: Field, go: GoField)
    requires s.Ranked() && a.name == b.name && f in s.Fields(a.name) && s.Go(a.name, f) == Some(go)
    requires ZeroIsAbsent(f, go) && Get(a, f).MessageValue? && Get(b, f).MessageValue?
    ensures var (x, y) := (Get(a, f).msg, Get(b, f).msg);
      || Depth(x) + Depth(y) < Depth(a) + Depth(b)
      || (Depth(x) + Depth(y) == Depth(a) + Depth(b) && s.Rank(x.name) < s.Rank(a.name))
  {
    InlineDepth(s, a, f, go);
    InlineDepth(s, b, f, go);
  }

  /** Presence of zero values never shows: the conversions agree, errors included. */
  lemma {:induction false} SameMessageSameJson(s: Schema, c: Codec, a: Msg, b: Msg, path: Path)
    requires s.Ranked() && SameMessage(s, a, b)
    ensures MessageToJson(s, c, a, path) == MessageToJson(s, c, b, path)
    decreases Depth(a) + Depth(b), s.Rank(a.name), |s.Fields(a.name)| + 4
  {
    if IsSpecial(a.name) {
      SameSpecialJson(s, c, a, b, path);
    } else {
      SameWrites(s, c, a, b, map[], path);
      SameObject(s, c, a, b, path);
    }
  }

  lemma SameObject(s: Schema, c: Codec, a: Msg, b: Msg, path: Path)
    requires s.Ranked() && a.name == b.name && !IsSpecial(a.name)
    requires WriteFields(s, c, a, map[], path) == WriteFields(s, c, b, map[], path)
    ensures MessageToJson(s, c, a, path) == MessageToJson(s, c, b, path)
  {
  }

  lemma SameSpecialJson(s: Schema, c: Codec, a: Msg, b: Msg, path: Path)
    requires s.Ranked() && SameMessage(s, a, b) && IsSpecial(a.name)
    ensures MessageToJson(s, c, a, path) == MessageToJson(s, c, b, path)
  {
    SameSpecial(s, c, a, b, path);
  }

  lemma SameSpecial(s: Schema, c: Codec, a: Msg, b: Msg, path: Path)
    requires a.name == b.name && a.unknown == b.unknown && forall f :: f in s.Fields(a.name) ==> Get(a, f) == Get(b, f)
    ensures SpecialToJson(s, c, a, path) == SpecialToJson(s, c, b, path)
  {
    SameNamed(s, a, b, "seconds");
    SameNamed(s, a, b, "nanos");
    SameNamed(s, a, b, "string");
    SameNamed(s, a, b, "type");
    SameNamed(s, a, b, "intVal");
    SameNamed(s, a, b, "strVal");
    SameNamed(s, a, b, "Raw");
  }

  lemma SameNamed(s: Schema, a: Msg, b: Msg, name: string)
    requires a.name == b.name && forall f :: f in s.Fields(a.name) ==> Get(a, f) == Get(b, f)
    ensures GetNamed(s, a, name) == GetNamed(s, b, name)
    ensures IntField(s, a, name) == IntField(s, b, name) && StringField(s, a, name) == StringField(s, b, name)
  {
    NamedIn(s.Fields(a.name), name);
  }

  lemma {:induction false} NamedIn(fields: seq<Field>, name: string)
    ensures FieldNamed(fields, name).Some? ==> FieldNamed(fields, name).value in fields
  {
    if fields != [] && fields[0].name != name {
      NamedIn(fields[1..], name);
    }
  }

  lemma {:induction false} SameWrites(s: Schema, c: Codec, a: Msg, b: Msg, out: map<string, Json>, path: Path)
    requires s.Ranked() && SameMessage(s, a, b)
    ensures WriteFields(s, c, a, out, path) == WriteFields(s, c, b, out, path)
    decreases Depth(a) + Depth(b), s.Rank(a.name), |s.Fields(a.name)| + 3
  {
    if !IsSpecial(a.name) {
      SameWritesFrom(s, c, a, b, s.Fields(a.name), out, path);
    }
  }

  lemma {:induction false} SameWritesFrom(s: Schema, c: Codec, a: Msg, b: Msg, fields: seq<Field>, out: map<string, Json>, path: Path)
    requires s.Ranked() && a.name == b.name
    requires forall f <- fields :: f in s.Fields(a.name) && SameField(s, a, b, f)
    ensures WriteFrom(s, c, a, fields, out, path) == WriteFrom(s, c, b, fields, out, path)
    decreases Depth(a) + Depth(b), s.Rank(a.name), |fields| + 2
  {
    if fields != [] {
      assert fields[0] in fields;
      SameWritesField(s, c, a, b, fields[0], out, path);
      var next := WriteField(s, c, a, fields[0], out, path);
      if next.Ok? {
        SameWritesFrom(s, c, a, b, fields[1..], next.value, path);
      }
    }
  }

  lemma {:induction false} SameWritesField(s: Schema, c: Codec, a: Msg, b: Msg, f: Field, out: map<string, Json>, path: Path)
    requires s.Ranked() && a.name == b.name && f in s.Fields(a.name) && SameField(s, a, b, f)
    ensures WriteField(s, c, a, f, out, path) == WriteField(s, c, b, f, out, path)
    decreases Depth(a) + Depth(b), s.Rank(a.name), 1
  {
    var found := s.Go(a.name, f);
    if found.Some? {
      var go := found.value;
      if go.inline {
        var (u, v) := (Get(a, f), Get(b, f));
        if u.MessageValue? && v.MessageValue? {
          ZeroDecreases(s, a, b, f, go);
          SameWrites(s, c, u.msg, v.msg, out, path);
        }
      } else {
        SameFieldJson(s, c, a, b, f, go, path + [Key(go.json)]);
      }
    }
  }

  lemma StructJson(s: Schema, c: Codec, a: Msg, f: Field, go: GoField, path: Path)
    requires s.Ranked() && f in s.Fields(a.name) && s.Go(a.name, f) == Some(go)
    requires ZeroIsAbsent(f, go) && !go.inline && Get(a, f).MessageValue?
    ensures FieldJson(s, c, a, f, go, path) ==
      match MessageToJson(s, c, Get(a, f).msg, path)
      case Ok(json) => Ok(Some(json))
      case Err(error) => Err(error)
  {
    if Present(a, f) {
      var v := Lookup(a.fields, f.number).value;
      assert ValueToJson(s, c, v, path) == ItemToJson(s, c, v, path) == MessageToJson(s, c, v.msg, path);
    }
  }

  lemma {:induction false} SameFieldJson(s: Schema, c: Codec, a: Msg, b: Msg, f: Field, go: GoField, path: Path)
    requires s.Ranked() && a.name == b.name && f in s.Fields(a.name) && s.Go(a.name, f) == Some(go)
    requires !go.inline && SameField(s, a, b, f)
    ensures FieldJson(s, c, a, f, go, path) == FieldJson(s, c, b, f, go, path)
    decreases Depth(a) + Depth(b), s.Rank(a.name), 0
  {
    if ZeroIsAbsent(f, go) {
      var (u, v) := (Get(a, f), Get(b, f));
      if u.MessageValue? && v.MessageValue? {
        ZeroDecreases(s, a, b, f, go);
        SameMessageSameJson(s, c, u.msg, v.msg, path);
        StructJson(s, c, a, f, go, path);
        StructJson(s, c, b, f, go, path);
      }
    } else if Present(a, f) {
      SameValueSameJson(s, c, Lookup(a.fields, f.number).value, Lookup(b.fields, f.number).value, path);
    }
  }

  lemma {:induction false} SameValueSameJson(s: Schema, c: Codec, u: Value, v: Value, path: Path)
    requires s.Ranked() && SameValue(s, u, v)
    ensures ValueToJson(s, c, u, path) == ValueToJson(s, c, v, path)
    ensures ItemToJson(s, c, u, path) == ItemToJson(s, c, v, path)
    decreases DepthOf(u) + DepthOf(v), 0, 0
  {
    match (u, v)
    case (MessageValue(x), MessageValue(y)) => SameMessageSameJson(s, c, x, y, path);
    case (ListValue(x), ListValue(y)) => SameItemsSameJson(s, c, x, y, path, 0);
    case (MapValue(x), MapValue(y)) => SameEntriesSameJson(s, c, x, y, map[], path);
    case _ =>
  }

  lemma {:induction false} SameItemsSameJson(s: Schema, c: Codec, x: seq<Value>, y: seq<Value>, path: Path, i: nat)
    requires s.Ranked() && SameItems(s, x, y)
    ensures ItemsToJson(s, c, x, path, i) == ItemsToJson(s, c, y, path, i)
    decreases DepthOfItems(x) + DepthOfItems(y), 0, 1 + |x|
  {
    if x != [] && y != [] {
      SameValueSameJson(s, c, x[0], y[0], path + [Index(i)]);
      SameItemsSameJson(s, c, x[1..], y[1..], path, i + 1);
    }
  }

  lemma {:induction false} SameEntriesSameJson(s: Schema, c: Codec, x: seq<MapEntry>, y: seq<MapEntry>, out: map<string, Json>, path: Path)
    requires s.Ranked() && SameEntries(s, x, y)
    ensures EntriesToJson(s, c, x, out, path) == EntriesToJson(s, c, y, out, path)
    decreases DepthOfEntries(x) + DepthOfEntries(y), 0, 1 + |x|
  {
    if x != [] && y != [] && x[0].key.StringKey? {
      var key := x[0].key.s;
      assert x[0].Depth() <= DepthOfEntries(x) && y[0].Depth() <= DepthOfEntries(y);
      SameValueSameJson(s, c, x[0].value, y[0].value, path + [Key(key)]);
      var json := ItemToJson(s, c, x[0].value, path + [Key(key)]);
      if json.Ok? {
        SameEntriesSameJson(s, c, x[1..], y[1..], out[key := json.value], path);
      }
    }
  }

  // Writing out a zero value that was absent is such a difference.

  lemma {:induction false} SameMessageReflexive(s: Schema, m: Msg)
    requires s.Ranked()
    ensures SameMessage(s, m, m)
    decreases Depth(m), s.Rank(m.name), 1
  {
    if !IsSpecial(m.name) {
      forall f | f in s.Fields(m.name) ensures SameField(s, m, m, f) {
        var go := s.Go(m.name, f);
        if go.Some? {
          if ZeroIsAbsent(f, go.value) && Get(m, f).MessageValue? {
            InlineDepth(s, m, f, go.value);
            SameMessageReflexive(s, Get(m, f).msg);
          } else if Present(m, f) {
            SameValueReflexive(s, Lookup(m.fields, f.number).value);
          }
        }
      }
    }
  }

  lemma {:induction false} SameValueReflexive(s: Schema, v: Value)
    requires s.Ranked()
    ensures SameValue(s, v, v)
    decreases DepthOf(v), 0, 0
  {
    match v
    case MessageValue(msg) => SameMessageReflexive(s, msg);
    case ListValue(items) => SameItemsReflexive(s, items);
    case MapValue(entries) => SameEntriesReflexive(s, entries);
    case _ =>
  }

  lemma {:induction false} SameItemsReflexive(s: Schema, x: seq<Value>)
    requires s.Ranked()
    ensures SameItems(s, x, x)
    decreases DepthOfItems(x), 0, 1 + |x|
  {
    if x != [] {
      SameValueReflexive(s, x[0]);
      SameItemsReflexive(s, x[1..]);
    }
  }

  lemma {:induction false} SameEntriesReflexive(s: Schema, x: seq<MapEntry>)
    requires s.Ranked()
    ensures SameEntries(s, x, x)
    decreases DepthOfEntries(x), 0, 1 + |x|
  {
    if x != [] {
      assert x[0].Depth() <= DepthOfEntries(x);
      SameValueReflexive(s, x[0].value);
      SameEntriesReflexive(s, x[1..]);
    }
  }

  lemma {:induction false} LookupAppend(fields: seq<FieldEntry>, e: FieldEntry, number: nat)
    ensures Lookup(fields + [e], number) ==
      if Lookup(fields, number).Some? then Lookup(fields, number)
      else if e.number == number then Some(e.value) else None
  {
    if fields != [] {
      assert (fields + [e])[1..] == fields[1..] + [e];
      LookupAppend(fields[1..], e, number);
    }
  }

  /** Putting an absent field's zero value on the wire changes neither the JSON nor the error. */
  lemma ZeroOnTheWire(s: Schema, c: Codec, m: Msg, f: Field, go: GoField, path: Path)
    requires s.Ranked() && f in s.Fields(m.name) && s.Go(m.name, f) == Some(go) && ZeroIsAbsent(f, go)
    requires forall g <- s.Fields(m.name) :: g.number == f.number ==> g == f
    requires Lookup(m.fields, f.number).None?
    ensures MessageToJson(s, c, m.(fields := m.fields + [FieldEntry(f.number, Default(f))]), path)
      == MessageToJson(s, c, m, path)
  {
    var n := m.(fields := m.fields + [FieldEntry(f.number, Default(f))]);
    SameMessageReflexive(s, m);
    forall g | g in s.Fields(m.name) ensures Get(n, g) == Get(m, g) && (!IsSpecial(m.name) ==> SameField(s, n, m, g)) {
      LookupAppend(m.fields, FieldEntry(f.number, Default(f)), g.number);
      if !IsSpecial(m.name) {
        assert SameField(s, m, m, g);
      }
    }
    SameMessageSameJson(s, c, n, m, path);
  }

  // No field unknown to the schema gets through.

  /** No message reached from `m` holds a field its type does not know. */
  ghost predicate Known(s: Schema, m: Msg)
    decreases Depth(m)
  {
    && m.unknown == []
    && (IsSpecial(m.name) || forall f :: f in s.Fields(m.name) && Lookup(m.fields, f.number).Some? ==>
          KnownValue(s, Lookup(m.fields, f.number).value))
  }

  ghost predicate KnownValue(s: Schema, v: Value)
    decreases DepthOf(v)
  {
    match v
    case MessageValue(msg) => Known(s, msg)
    case ListValue(items) => KnownItems(s, items)
    case MapValue(entries) => KnownEntries(s, entries)
    case _ => true
  }

  ghost predicate KnownItems(s: Schema, items: seq<Value>)
    decreases DepthOfItems(items), |items|
  {
    items == [] || (KnownItem(s, items[0]) && KnownItems(s, items[1..]))
  }

  ghost predicate KnownEntries(s: Schema, entries: seq<MapEntry>)
    decreases DepthOfEntries(entries), |entries|
  {
    entries == [] || (
      assert entries[0].Depth() <= DepthOfEntries(entries);
      KnownItem(s, entries[0].value) && KnownEntries(s, entries[1..]))
  }

  /** A list or map holds no lists or maps of its own. */
  ghost predicate KnownItem(s: Schema, v: Value)
    decreases DepthOf(v), 0
  {
    v.MessageValue? ==> Known(s, v.msg)
  }

  ghost predicate Agrees<T>(r: Result<T, Error>, known: bool) {
    (r.Ok? ==> known) && (r.Err? && r.error.UnknownField? ==> !known)
  }

  /** Success means nothing unknown was reached; the unknown-field error means something was. */
  lemma {:induction false} ConvertedIsKnown(s: Schema, c: Codec, m: Msg, path: Path)
    requires s.Ranked()
    ensures Agrees(MessageToJson(s, c, m, path), Known(s, m))
    decreases Depth(m), s.Rank(m.name), |s.Fields(m.name)| + 3
  {
    if !IsSpecial(m.name) {
      WrittenIsKnown(s, c, m, map[], path);
    }
  }

  lemma {:induction false} WrittenIsKnown(s: Schema, c: Codec, m: Msg, out: map<string, Json>, path: Path)
    requires s.Ranked()
    ensures Agrees(WriteFields(s, c, m, out, path), Known(s, m))
    decreases Depth(m), s.Rank(m.name), |s.Fields(m.name)| + 2
  {
    if !IsSpecial(m.name) {
      FieldsAreKnown(s, c, m, s.Fields(m.name), out, path);
    }
  }

  ghost predicate KnownField(s: Schema, m: Msg, f: Field) {
    Lookup(m.fields, f.number).Some? ==> KnownValue(s, Lookup(m.fields, f.number).value)
  }

  lemma {:induction false} FieldsAreKnown(s: Schema, c: Codec, m: Msg, fields: seq<Field>, out: map<string, Json>, path: Path)
    requires s.Ranked() && forall f <- fields :: f in s.Fields(m.name)
    ensures Agrees(WriteFrom(s, c, m, fields, out, path), forall f <- fields :: KnownField(s, m, f))
    decreases Depth(m), s.Rank(m.name), |fields| + 1
  {
    if fields != [] {
      assert fields[0] in fields;
      FieldIsKnown(s, c, m, fields[0], out, path);
      var next := WriteField(s, c, m, fields[0], out, path);
      if next.Ok? {
        FieldsAreKnown(s, c, m, fields[1..], next.value, path);
        assert forall f <- fields :: f == fields[0] || f in fields[1..];
      }
    }
  }

  lemma {:induction false} FieldIsKnown(s: Schema, c: Codec, m: Msg, f: Field, out: map<string, Json>, path: Path)
    requires s.Ranked() && f in s.Fields(m.name)
    ensures Agrees(WriteField(s, c, m, f, out, path), KnownField(s, m, f))
    decreases Depth(m), s.Rank(m.name), 0
  {
    var found := s.Go(m.name, f);
    if found.Some? {
      var go := found.value;
      if go.inline {
        if Get(m, f).MessageValue? {
          var inner := Get(m, f).msg;
          InlineDecreases(s, m, f, go);
          WrittenIsKnown(s, c, inner, out, path);
          DefaultKnown(s, f);
        }
      } else {
        FieldJsonIsKnown(s, c, m, f, go, path + [Key(go.json)]);
      }
    }
  }

  lemma {:induction false} FieldJsonIsKnown(s: Schema, c: Codec, m: Msg, f: Field, go: GoField, path: Path)
    requires s.Ranked() && f in s.Fields(m.name) && s.Go(m.name, f) == Some(go) && !go.inline
    ensures Agrees(FieldJson(s, c, m, f, go, path), KnownField(s, m, f))
    decreases Depth(m), s.Rank(m.name), 0, 0
  {
    if Present(m, f) {
      ValueIsKnown(s, c, Lookup(m.fields, f.number).value, path);
      EmptyIsKnown(s, Lookup(m.fields, f.number).value);
    } else {
      assert KnownField(s, m, f);
      if Schema.ByValue(f, go) {
        DefaultDecreases(s, m, f, go);
        ConvertedIsKnown(s, c, Msg(f.kind.message, [], []), path);
        DefaultKnown(s, f);
      }
    }
  }

  lemma DefaultKnown(s: Schema, f: Field)
    ensures f.kind.MessageKind? ==> Known(s, Msg(f.kind.message, [], []))
  {
  }

  lemma EmptyIsKnown(s: Schema, v: Value)
    ensures IsEmpty(v) ==> KnownValue(s, v)
  {
  }

  lemma {:induction false} ValueIsKnown(s: Schema, c: Codec, v: Value, path: Path)
    requires s.Ranked()
    ensures Agrees(ValueToJson(s, c, v, path), KnownValue(s, v))
    decreases DepthOf(v), 0, 1
  {
    match v
    case MessageValue(_) => ItemIsKnown(s, c, v, path);
    case ListValue(items) =>
      ItemsAreKnown(s, c, items, path, 0);
      assert KnownValue(s, v) == KnownItems(s, items);
    case MapValue(entries) =>
      EntriesAreKnown(s, c, entries, map[], path);
      assert KnownValue(s, v) == KnownEntries(s, entries);
    case _ =>
      assert ItemToJson(s, c, v, path) == ScalarToJson(c, v, path);
  }

  lemma {:induction false} ItemIsKnown(s: Schema, c: Codec, v: Value, path: Path)
    requires s.Ranked()
    ensures Agrees(ItemToJson(s, c, v, path), KnownItem(s, v))
    decreases DepthOf(v), 0, 0
  {
    if v.MessageValue? {
      ConvertedIsKnown(s, c, v.msg, path);
    }
  }

  lemma {:induction false} ItemsAreKnown(s: Schema, c: Codec, items: seq<Value>, path: Path, i: nat)
    requires s.Ranked()
    ensures Agrees(ItemsToJson(s, c, items, path, i), KnownItems(s, items))
    decreases DepthOfItems(items), 0, 1 + |items|
  {
    if items != [] {
      ItemIsKnown(s, c, items[0], path + [Index(i)]);
      ItemsAreKnown(s, c, items[1..], path, i + 1);
    }
  }

  lemma {:induction false} EntriesAreKnown(s: Schema, c: Codec, entries: seq<MapEntry>, out: map<string, Json>, path: Path)
    requires s.Ranked()
    ensures Agrees(EntriesToJson(s, c, entries, out, path), KnownEntries(s, entries))
    decreases DepthOfEntries(entries), 0, 1 + |entries|
  {
    if entries != [] && entries[0].key.StringKey? {
      var key := entries[0].key.s;
      assert entries[0].Depth() <= DepthOfEntries(entries);
      ItemIsKnown(s, c, entries[0].value, path + [Key(key)]);
      var json := ItemToJson(s, c, entries[0].value, path + [Key(key)]);
      if json.Ok? {
        EntriesAreKnown(s, c, entries[1..], out[key := json.value], path);
      }
    }
  }
}
