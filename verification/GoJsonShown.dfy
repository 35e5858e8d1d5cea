/** What the JSON says about a pointer field, at any depth (src/k8s_protobuf.rs). */
module GoJsonShown {
  import opened Wrappers
  import opened Json
  import opened GoJson
  import opened GoJsonWritten
  import opened GoJsonPointers

  /** The JSON object of the submessage behind a hop, found in the object `o` of the message. */
  function Behind(s: Schema, m: Msg, hop: Hop, o: Fields): Option<Fields>
    requires s.Go(m.name, hop.field).Some? && Inside(m, hop).Some?
  {
    var go := s.Go(m.name, hop.field).value;
    if go.inline then Some(o)
    else if go.json !in o then None
    else Placed(o[go.json], Lookup(m.fields, hop.field.number).value, hop.place)
  }

  function Placed(j: Json, v: Value, place: Place): Option<Fields>
    requires At(v, place).Some?
  {
    match place
    case Single => ObjectFields(j)
    case Item(i) => if j.Array? && i < |j.items| then ObjectFields(j.items[i]) else None
    case Entry(i) =>
      var key := v.entries[i].key;
      if j.Object? && key.StringKey? && key.s in j.fields then ObjectFields(j.fields[key.s]) else None
  }

  function ObjectFields(j: Json): Option<Fields> {
    if j.Object? then Some(j.fields) else None
  }

  function ObjectAt(s: Schema, m: Msg, hops: seq<Hop>, o: Fields): Option<Fields>
    requires s.Ranked() && Leads(s, m, hops)
    decreases |hops|
  {
    if hops == [] then Some(o)
    else
      match Behind(s, m, hops[0], o)
      case None => None
      case Some(inner) => ObjectAt(s, Inside(m, hops[0]).value, hops[1..], inner)
  }

  function PathAt(s: Schema, m: Msg, hops: seq<Hop>, path: Path): Path
    requires s.Ranked() && Leads(s, m, hops)
    decreases |hops|
  {
    if hops == [] then path
    else PathAt(s, Inside(m, hops[0]).value, hops[1..], HopPath(s, m, hops[0], path))
  }

  function AllNames(s: Schema, name: string): set<string>
    requires s.Ranked()
  {
    Names(s, name, s.Fields(name))
  }

  /** Under the names of its type, the object has exactly what the message wrote. */
  ghost predicate Knows(s: Schema, c: Codec, m: Msg, path: Path, o: Fields)
    requires s.Ranked()
  {
    Written(s, c, m, path) == Ok(Restrict(o, AllNames(s, m.name)))
  }

  lemma {:induction false} AmongNames(s: Schema, name: string, fields: seq<Field>, f: Field)
    requires s.Ranked() && (forall g <- fields :: g in s.Fields(name)) && f in fields
    ensures FieldNames(s, name, f) <= Names(s, name, fields)
  {
    assert fields[0] in fields;
    if fields[0] != f {
      AmongNames(s, name, fields[1..], f);
    }
  }

  lemma RestrictTwice(o: Fields, names: set<string>, fewer: set<string>)
    requires fewer <= names
    ensures Restrict(Restrict(o, names), fewer) == Restrict(o, fewer)
  {
  }

  /** Each field wrote what the object has under the field's names. */
  lemma FieldKnown(s: Schema, c: Codec, m: Msg, f: Field, path: Path, o: Fields)
    requires WellFormed(s) && Typed(s, m) && f in s.Fields(m.name) && Knows(s, c, m, path, o)
    ensures WriteField(s, c, m, f, map[], path) == Ok(Restrict(o, FieldNames(s, m.name, f)))
  {
    var fields := s.Fields(m.name);
    assert Distinct(s, m.name);
    FieldDecides(s, c, m, fields, f, path);
    AmongNames(s, m.name, fields, f);
    RestrictTwice(o, AllNames(s, m.name), FieldNames(s, m.name, f));
  }

  lemma WrittenKnown(s: Schema, c: Codec, m: Msg, path: Path)
    requires s.Ranked() && Typed(s, m) && Written(s, c, m, path).Ok?
    ensures Knows(s, c, m, path, Written(s, c, m, path).value)
  {
    var o := Written(s, c, m, path).value;
    WritesOnly(s, c, m, s.Fields(m.name), path);
    assert Restrict(o, AllNames(s, m.name)) == o;
  }

  lemma RestrictOne(o: Fields, key: string, json: Json)
    requires Restrict(o, {key}) == map[key := json]
    ensures key in o && o[key] == json
  {
    assert key in Restrict(o, {key});
  }

  /** The object behind a place of a converted value. */
  lemma PlacedIs(s: Schema, c: Codec, v: Value, place: Place, path: Path)
    requires s.Ranked() && At(v, place).Some? && KeysOnce(v) && At(v, place).value.name in s.go
    requires ValueToJson(s, c, v, path).Ok?
    ensures var written := Written(s, c, At(v, place).value, path + PlacePath(v, place));
      written.Ok? && Placed(ValueToJson(s, c, v, path).value, v, place) == Some(written.value)
  {
    var inner := At(v, place).value;
    SameMessage(s, c, inner, inner, path + PlacePath(v, place));
    match place
    case Single => assert path + [] == path;
    case Item(i) => SameItems(s, c, v.items, i, inner, path, 0);
    case Entry(i) => SameEntries(s, c, v.entries, i, inner, map[], path);
  }

  lemma BehindKnown(s: Schema, c: Codec, m: Msg, hop: Hop, path: Path, o: Fields)
    requires WellFormed(s) && Knows(s, c, m, path, o) && Leads(s, m, [hop])
    requires Inside(m, hop).value.name in s.go
    ensures Behind(s, m, hop, o).Some?
    ensures Knows(s, c, Inside(m, hop).value, HopPath(s, m, hop, path), Behind(s, m, hop, o).value)
  {
    var go := s.Go(m.name, hop.field).value;
    var inner := Inside(m, hop).value;
    assert Leads(s, inner, [hop][1..]);
    FieldKnown(s, c, m, hop.field, path, o);
    if !go.inline {
      var v := Lookup(m.fields, hop.field.number).value;
      var p := path + [Key(go.json)];
      FieldInserted(s, c, m, hop.field, go, path, hop.place, v);
      RestrictOne(o, go.json, ValueToJson(s, c, v, p).value);
      PlacedIs(s, c, v, hop.place, p);
      WrittenKnown(s, c, inner, p + PlacePath(v, hop.place));
    }
  }

  lemma {:induction false} ReachedKnown(s: Schema, c: Codec, m: Msg, hops: seq<Hop>, f: Field, path: Path, o: Fields)
    requires WellFormed(s) && Leads(s, m, hops) && PointerField(s, Reached(s, m, hops), f)
    requires Knows(s, c, m, path, o)
    ensures ObjectAt(s, m, hops, o).Some?
    ensures Knows(s, c, Reached(s, m, hops), PathAt(s, m, hops, path), ObjectAt(s, m, hops, o).value)
    ensures Typed(s, Reached(s, m, hops))
    decreases |hops|
  {
    if hops != [] {
      var inner := Inside(m, hops[0]).value;
      LeadsOn(s, inner, hops[1..], f);
      OneHop(s, m, hops);
      BehindKnown(s, c, m, hops[0], path, o);
      ReachedKnown(s, c, inner, hops[1..], f, HopPath(s, m, hops[0], path), Behind(s, m, hops[0], o).value);
    }
  }

  lemma OneHop(s: Schema, m: Msg, hops: seq<Hop>)
    requires s.Ranked() && hops != [] && Leads(s, m, hops)
    ensures Leads(s, m, [hops[0]])
  {
    var inner := Inside(m, hops[0]).value;
    assert Leads(s, inner, hops[1..]);
    assert [hops[0]][1..] == [] && Leads(s, inner, []);
  }

  /**
   * What the JSON says about a pointer field, wherever it is: nothing for nil with `omitempty`, `null` for nil
   * without, and else its value, in the object of its own message or of the one that embeds it.
   */
  lemma PointerShows(s: Schema, c: Codec, m: Msg, hops: seq<Hop>, f: Field, path: Path)
    requires WellFormed(s) && Leads(s, m, hops) && PointerField(s, Reached(s, m, hops), f)
    requires MessageToJson(s, c, m, path).Ok?
    ensures MessageToJson(s, c, m, path).value.Object?
    ensures var go := s.Go(Reached(s, m, hops).name, f).value;
      var found := ObjectAt(s, m, hops, MessageToJson(s, c, m, path).value.fields);
      && found.Some?
      && (go.json in found.value <==> Present(Reached(s, m, hops), f) || !go.omitempty)
      && (go.json in found.value ==>
            Ok(found.value[go.json]) ==
            if !Present(Reached(s, m, hops), f) then Ok(Null)
            else ValueToJson(s, c, Lookup(Reached(s, m, hops).fields, f.number).value, PathAt(s, m, hops, path) + [Key(go.json)]))
  {
    var go := s.Go(Reached(s, m, hops).name, f).value;
    LeadsOn(s, m, hops, f);
    SameMessage(s, c, m, m, path);
    WrittenKnown(s, c, m, path);
    var o := Written(s, c, m, path).value;
    ReachedKnown(s, c, m, hops, f, path, o);
    ShownHere(s, c, Reached(s, m, hops), f, PathAt(s, m, hops, path), ObjectAt(s, m, hops, o).value);
  }

  lemma ShownHere(s: Schema, c: Codec, m: Msg, f: Field, path: Path, o: Fields)
    requires WellFormed(s) && Typed(s, m) && PointerField(s, m, f) && Knows(s, c, m, path, o)
    ensures var go := s.Go(m.name, f).value;
      && (go.json in o <==> Present(m, f) || !go.omitempty)
      && (go.json in o ==>
            Ok(o[go.json]) ==
            if !Present(m, f) then Ok(Null)
            else ValueToJson(s, c, Lookup(m.fields, f.number).value, path + [Key(go.json)]))
  {
    var key := s.Go(m.name, f).value.json;
    FieldKnown(s, c, m, f, path, o);
    var part := Restrict(o, {key});
    assert key in o <==> key in part;
    assert key in o ==> part[key] == o[key];
  }
}
