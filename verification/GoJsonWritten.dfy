/** What each field of a message contributes to its JSON object (src/k8s_protobuf.rs). */
module GoJsonWritten {
  import opened Wrappers
  import opened Json
  import opened GoJson

  type Fields = map<string, Json>

  /** The JSON names a field of `name` writes to, embedded structs included. */
  function FieldNames(s: Schema, name: string, f: Field): set<string>
    requires s.Ranked() && f in s.Fields(name)
    decreases s.Rank(name), 0
  {
    match s.Go(name, f)
    case None => {}
    case Some(go) =>
      if !go.inline then {go.json}
      else if f.kind.MessageKind? then Names(s, f.kind.message, s.Fields(f.kind.message))
      else {}
  }

  function Names(s: Schema, name: string, fields: seq<Field>): set<string>
    requires s.Ranked() && forall f <- fields :: f in s.Fields(name)
    decreases s.Rank(name), 1 + |fields|
  {
    if fields == [] then {}
    else
      assert fields[0] in fields;
      FieldNames(s, name, fields[0]) + Names(s, name, fields[1..])
  }

  /** No two fields of `name` write to the same JSON name or have the same number, and none is listed twice. */
  ghost predicate Distinct(s: Schema, name: string)
    requires s.Ranked()
  {
    && (forall f, g :: f in s.Fields(name) && g in s.Fields(name) && f != g ==>
          FieldNames(s, name, f) !! FieldNames(s, name, g) && f.number != g.number)
    && forall i, j :: 0 <= i < j < |s.Fields(name)| ==> s.Fields(name)[i] != s.Fields(name)[j]
  }

  /** What the generated schema has. */
  ghost predicate WellFormed(s: Schema) {
    s.Ranked() && forall name :: Distinct(s, name)
  }

  /** Embedded messages have the type their field declares, as decoding makes sure. */
  ghost predicate Typed(s: Schema, m: Msg)
    requires s.Ranked()
    decreases Depth(m), s.Rank(m.name)
  {
    forall f :: f in s.Fields(m.name) && s.Go(m.name, f).Some? && s.Go(m.name, f).value.inline && Get(m, f).MessageValue? ==>
      f.kind == MessageKind(Get(m, f).msg.name)
      && (InlineDecreases(s, m, f, s.Go(m.name, f).value); Typed(s, Get(m, f).msg))
  }

  /** Written over what is there already. */
  function Onto(out: Fields, written: Result<Fields, Error>): Result<Fields, Error> {
    if written.Ok? then Ok(out + written.value) else written
  }

  lemma OntoTwice(a: Fields, b: Fields, r: Result<Fields, Error>)
    ensures Onto(a, Onto(b, r)) == Onto(a + b, r)
  {
    if r.Ok? {
      assert a + (b + r.value) == a + b + r.value;
    }
  }

  /** The fields of a message write the same whatever object they are written into. */
  lemma {:induction false} WritesOnto(s: Schema, c: Codec, m: Msg, fields: seq<Field>, out: Fields, path: Path)
    requires s.Ranked() && forall f <- fields :: f in s.Fields(m.name)
    ensures WriteFrom(s, c, m, fields, out, path) == Onto(out, WriteFrom(s, c, m, fields, map[], path))
    decreases Depth(m), s.Rank(m.name), 1 + |fields|
  {
    if fields == [] {
      assert out + map[] == out;
    } else {
      assert fields[0] in fields;
      FieldOnto(s, c, m, fields[0], out, path);
      var first := WriteField(s, c, m, fields[0], map[], path);
      if first.Ok? {
        WritesOnto(s, c, m, fields[1..], out + first.value, path);
        WritesOnto(s, c, m, fields[1..], first.value, path);
        OntoTwice(out, first.value, WriteFrom(s, c, m, fields[1..], map[], path));
      }
    }
  }

  lemma {:induction false} FieldOnto(s: Schema, c: Codec, m: Msg, f: Field, out: Fields, path: Path)
    requires s.Ranked() && f in s.Fields(m.name)
    ensures WriteField(s, c, m, f, out, path) == Onto(out, WriteField(s, c, m, f, map[], path))
    decreases Depth(m), s.Rank(m.name), 0
  {
    var found := s.Go(m.name, f);
    if found.Some? {
      var go := found.value;
      if go.inline {
        if Get(m, f).MessageValue? {
          var inner := Get(m, f).msg;
          InlineDecreases(s, m, f, go);
          WritesOnto(s, c, inner, s.Fields(inner.name), out, path);
        }
      } else {
        var json := FieldJson(s, c, m, f, go, path + [Key(go.json)]);
        if json.Ok? {
          InsertOnto(out, json.value, go.json);
        }
      }
    }
  }

  lemma InsertOnto(out: Fields, json: Option<Json>, key: string)
    ensures (if json.Some? then out[key := json.value] else out)
      == out + (if json.Some? then map[key := json.value] else map[])
  {
  }

  /** The first field's contribution, and the others' over it. */
  lemma WriteFirst(s: Schema, c: Codec, m: Msg, fields: seq<Field>, path: Path)
    requires s.Ranked() && fields != [] && forall f <- fields :: f in s.Fields(m.name)
    ensures fields[0] in fields
    ensures WriteFrom(s, c, m, fields, map[], path) ==
      var first := WriteField(s, c, m, fields[0], map[], path);
      if first.Ok? then Onto(first.value, WriteFrom(s, c, m, fields[1..], map[], path)) else first
  {
    assert fields[0] in fields;
    var first := WriteField(s, c, m, fields[0], map[], path);
    if first.Ok? {
      WritesOnto(s, c, m, fields[1..], first.value, path);
    }
  }

  /** A field writes to its own names only. */
  lemma {:induction false} WritesOnly(s: Schema, c: Codec, m: Msg, fields: seq<Field>, path: Path)
    requires s.Ranked() && Typed(s, m) && forall f <- fields :: f in s.Fields(m.name)
    requires WriteFrom(s, c, m, fields, map[], path).Ok?
    ensures WriteFrom(s, c, m, fields, map[], path).value.Keys <= Names(s, m.name, fields)
    decreases Depth(m), s.Rank(m.name), 1 + |fields|
  {
    if fields != [] {
      WriteFirst(s, c, m, fields, path);
      FieldWritesOnly(s, c, m, fields[0], path);
      WritesOnly(s, c, m, fields[1..], path);
    }
  }

  lemma {:induction false} FieldWritesOnly(s: Schema, c: Codec, m: Msg, f: Field, path: Path)
    requires s.Ranked() && Typed(s, m) && f in s.Fields(m.name)
    requires WriteField(s, c, m, f, map[], path).Ok?
    ensures WriteField(s, c, m, f, map[], path).value.Keys <= FieldNames(s, m.name, f)
    decreases Depth(m), s.Rank(m.name), 0
  {
    var go := s.Go(m.name, f).value;
    if go.inline {
      var inner := Get(m, f).msg;
      InlineDecreases(s, m, f, go);
      WritesOnly(s, c, inner, s.Fields(inner.name), path);
    }
  }

  /** The part of an object under some names. */
  function Restrict(fields: Fields, names: set<string>): Fields {
    map k | k in fields && k in names :: fields[k]
  }

  lemma RestrictFirst(a: Fields, b: Fields, names: set<string>, other: set<string>)
    requires a.Keys <= names && b.Keys <= other && names !! other
    ensures Restrict(a + b, names) == a
  {
  }

  lemma RestrictRest(a: Fields, b: Fields, names: set<string>, other: set<string>)
    requires a.Keys <= other && names !! other
    ensures Restrict(a + b, names) == Restrict(b, names)
  {
  }

  lemma {:induction false} NotIn(s: Schema, name: string, fields: seq<Field>, names: set<string>)
    requires s.Ranked() && forall f <- fields :: f in s.Fields(name)
    requires forall f <- fields :: names !! FieldNames(s, name, f)
    ensures names !! Names(s, name, fields)
  {
    if fields != [] {
      assert fields[0] in fields;
      NotIn(s, name, fields[1..], names);
    }
  }

  /** A field decides alone what stands under its names. */
  lemma {:induction false} FieldDecides(s: Schema, c: Codec, m: Msg, fields: seq<Field>, f: Field, path: Path)
    requires s.Ranked() && Typed(s, m) && Distinct(s, m.name)
    requires (forall g <- fields :: g in s.Fields(m.name)) && f in fields
    requires forall i, j :: 0 <= i < j < |fields| ==> fields[i] != fields[j]
    requires WriteFrom(s, c, m, fields, map[], path).Ok?
    ensures WriteField(s, c, m, f, map[], path) ==
      Ok(Restrict(WriteFrom(s, c, m, fields, map[], path).value, FieldNames(s, m.name, f)))
    decreases |fields|
  {
    WriteFirst(s, c, m, fields, path);
    var first := WriteField(s, c, m, fields[0], map[], path).value;
    var rest := WriteFrom(s, c, m, fields[1..], map[], path).value;
    FieldWritesOnly(s, c, m, fields[0], path);
    if fields[0] == f {
      forall g | g in fields[1..] ensures FieldNames(s, m.name, f) !! FieldNames(s, m.name, g) {
        assert g in fields && g != f;
      }
      NotIn(s, m.name, fields[1..], FieldNames(s, m.name, f));
      WritesOnly(s, c, m, fields[1..], path);
      RestrictFirst(first, rest, FieldNames(s, m.name, f), Names(s, m.name, fields[1..]));
    } else {
      FieldDecides(s, c, m, fields[1..], f, path);
      RestrictRest(first, rest, FieldNames(s, m.name, f), FieldNames(s, m.name, fields[0]));
    }
  }

  /** What a message writes into an empty object. */
  function Written(s: Schema, c: Codec, m: Msg, path: Path): Result<Fields, Error>
    requires s.Ranked()
  {
    WriteFields(s, c, m, map[], path)
  }

  ghost predicate SameField(s: Schema, c: Codec, m: Msg, n: Msg, f: Field, path: Path)
    requires s.Ranked() && m.name == n.name && f in s.Fields(m.name)
  {
    WriteField(s, c, n, f, map[], path) == WriteField(s, c, m, f, map[], path)
  }

  lemma {:induction false} SameFields(s: Schema, c: Codec, m: Msg, n: Msg, fields: seq<Field>, path: Path)
    requires s.Ranked() && m.name == n.name && forall g <- fields :: g in s.Fields(m.name)
    requires forall g <- fields :: SameField(s, c, m, n, g, path)
    ensures WriteFrom(s, c, n, fields, map[], path) == WriteFrom(s, c, m, fields, map[], path)
  {
    if fields != [] {
      assert fields[0] in fields;
      WriteFirst(s, c, m, fields, path);
      WriteFirst(s, c, n, fields, path);
      assert SameField(s, c, m, n, fields[0], path);
      SameFields(s, c, m, n, fields[1..], path);
    }
  }

  /** If two messages write all fields but one alike, they write the same object if and only if they write that one alike. */
  lemma OneFieldDiffers(s: Schema, c: Codec, m: Msg, n: Msg, f: Field, path: Path)
    requires WellFormed(s) && Typed(s, m) && Typed(s, n)
    requires m.name == n.name && m.unknown == n.unknown && f in s.Fields(m.name)
    requires forall g :: g in s.Fields(m.name) && g != f ==> SameField(s, c, m, n, g, path)
    requires Written(s, c, m, path).Ok?
    ensures Written(s, c, n, path) == Written(s, c, m, path) <==> SameField(s, c, m, n, f, path)
    ensures WriteField(s, c, m, f, map[], path).Ok?
  {
    var fields := s.Fields(m.name);
    assert Distinct(s, m.name);
    FieldDecides(s, c, m, fields, f, path);
    if SameField(s, c, m, n, f, path) {
      SameFields(s, c, m, n, fields, path);
    } else if Written(s, c, n, path).Ok? {
      FieldDecides(s, c, n, fields, f, path);
    }
  }
}
