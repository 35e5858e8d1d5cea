/** The conversion as the source runs it: loops that insert into the JSON object (src/k8s_protobuf.rs). */
module GoJsonWriter {
  import opened Wrappers
  import opened Json
  import opened GoJson
  import Seqs

  method WriteMessage(s: Schema, c: Codec, msg: Msg, path: Path) returns (r: Result<Json, Error>)
    requires s.Ranked()
    ensures r == MessageToJson(s, c, msg, path)
    decreases Depth(msg), s.Rank(msg.name), |s.Fields(msg.name)| + 2
  {
    if IsSpecial(msg.name) {
      return SpecialToJson(s, c, msg, path);
    }
    var fields := WriteInto(s, c, msg, map[], path);
    r := if fields.Ok? then Ok(Object(fields.value)) else Err(fields.error);
  }

  method WriteInto(s: Schema, c: Codec, msg: Msg, fields: map<string, Json>, path: Path)
    returns (r: Result<map<string, Json>, Error>)
    requires s.Ranked()
    ensures r == WriteFields(s, c, msg, fields, path)
    decreases Depth(msg), s.Rank(msg.name), |s.Fields(msg.name)| + 1
  {
    var known := RejectUnknown(msg, path);
    if known.Err? {
      return Err(known.error);
    }
    if msg.name !in s.go {
      return Err(UnsupportedMessage(path, msg.name));
    }
    var desc := s.Fields(msg.name);
    var out := fields;
    for i := 0 to |desc|
      invariant WriteFrom(s, c, msg, desc[i..], out, path) == WriteFrom(s, c, msg, desc, fields, path)
    {
      WriteStep(s, c, msg, desc, i, out, path);
      var f := desc[i];
      var go := s.Go(msg.name, f);
      if go.None? {
        return Err(MissingGoField(msg.name, f.name));
      }
      if go.value.inline {
        var inner := Get(msg, f);
        if !inner.MessageValue? {
          return Err(InlineNonMessage(msg.name, f.name));
        }
        InlineDecreases(s, msg, f, go.value);
        var written := WriteInto(s, c, inner.msg, out, path);
        if written.Err? {
          return written;
        }
        out := written.value;
        continue;
      }
      var value := WriteOne(s, c, msg, f, go.value, path + [Key(go.value.json)]);
      if value.Err? {
        return Err(value.error);
      }
      if value.value.None? {
        continue;
      }
      out := out[go.value.json := value.value.value];
    }
    assert desc[|desc|..] == [];
    r := Ok(out);
  }

  lemma WriteStep(s: Schema, c: Codec, msg: Msg, desc: seq<Field>, i: nat, out: map<string, Json>, path: Path)
    requires s.Ranked() && i < |desc| && desc == s.Fields(msg.name)
    ensures WriteFrom(s, c, msg, desc[i..], out, path) ==
      var next := WriteField(s, c, msg, desc[i], out, path);
      if next.Err? then next else WriteFrom(s, c, msg, desc[i + 1..], next.value, path)
  {
    assert desc[i..][1..] == desc[i + 1..];
  }

  /** The value of one field; `None` where the source goes on to the next field. */
  method WriteOne(s: Schema, c: Codec, msg: Msg, f: Field, go: GoField, path: Path) returns (r: Result<Option<Json>, Error>)
    requires s.Ranked() && f in s.Fields(msg.name) && s.Go(msg.name, f) == Some(go)
    ensures r == FieldJson(s, c, msg, f, go, path)
    decreases Depth(msg), s.Rank(msg.name), 0, 0
  {
    var json: Result<Json, Error>;
    if Present(msg, f) {
      var v := Lookup(msg.fields, f.number).value;
      if !go.pointer && go.omitempty && IsEmpty(v) {
        return Ok(None);
      }
      json := WriteValue(s, c, v, path);
    } else if go.pointer || !f.shape.Singular? || f.kind == ScalarKind(BytesType) {
      return Ok(if go.omitempty then None else Some(Null));
    } else if f.kind.MessageKind? {
      DefaultDecreases(s, msg, f, go);
      json := WriteMessage(s, c, Msg(f.kind.message, [], []), path);
    } else {
      if go.omitempty {
        return Ok(None);
      }
      json := ScalarToJson(c, Default(f), path);
    }
    r := if json.Ok? then Ok(Some(json.value)) else Err(json.error);
  }

  method WriteValue(s: Schema, c: Codec, v: Value, path: Path) returns (r: Result<Json, Error>)
    requires s.Ranked()
    ensures r == ValueToJson(s, c, v, path)
    decreases DepthOf(v), 0, 1
  {
    match v {
      case ListValue(items) =>
        var out: seq<Json> := [];
        assert items[0..] == items;
        AfterNothing(ItemsToJson(s, c, items, path, 0));
        for i := 0 to |items|
          invariant After(out, ItemsToJson(s, c, items[i..], path, i)) == ItemsToJson(s, c, items, path, 0)
        {
          assert items[i..][1..] == items[i + 1..];
          DepthOfItem(items, i);
          var json := WriteItem(s, c, items[i], path + [Index(i)]);
          if json.Err? {
            return Err(json.error);
          }
          AfterOne(out, json.value, ItemsToJson(s, c, items[i + 1..], path, i + 1));
          out := out + [json.value];
        }
        assert items[|items|..] == [] && out + [] == out;
        r := Ok(Array(out));
      case MapValue(entries) =>
        var out: map<string, Json> := map[];
        for i := 0 to |entries|
          invariant EntriesToJson(s, c, entries[i..], out, path) == EntriesToJson(s, c, entries, map[], path)
        {
          assert entries[i..][1..] == entries[i + 1..];
          DepthOfEntry(entries, i);
          if entries[i].key.OtherKey? {
            return Err(NonStringMapKey(path));
          }
          var key := entries[i].key.s;
          var json := WriteItem(s, c, entries[i].value, path + [Key(key)]);
          if json.Err? {
            return Err(json.error);
          }
          out := out[key := json.value];
        }
        assert entries[|entries|..] == [];
        r := Ok(Object(out));
      case _ =>
        r := WriteItem(s, c, v, path);
    }
  }

  method WriteItem(s: Schema, c: Codec, v: Value, path: Path) returns (r: Result<Json, Error>)
    requires s.Ranked()
    ensures r == ItemToJson(s, c, v, path)
    decreases DepthOf(v), 0, 0
  {
    if v.MessageValue? {
      r := WriteMessage(s, c, v.msg, path);
    } else {
      r := ScalarToJson(c, v, path);
    }
  }

  function After(out: seq<Json>, rest: Result<seq<Json>, Error>): Result<seq<Json>, Error> {
    var more :- rest;
    Ok(out + more)
  }

  lemma AfterNothing(rest: Result<seq<Json>, Error>)
    ensures After([], rest) == rest
  {
    if rest.Ok? {
      assert [] + rest.value == rest.value;
    }
  }

  lemma AfterOne(out: seq<Json>, json: Json, rest: Result<seq<Json>, Error>)
    ensures After(out, After([json], rest)) == After(out + [json], rest)
  {
    if rest.Ok? {
      Seqs.Assoc(out, [json], rest.value);
    }
  }

  lemma {:induction false} DepthOfItem(items: seq<Value>, i: nat)
    requires i < |items|
    ensures DepthOf(items[i]) <= DepthOfItems(items)
  {
    if i > 0 {
      DepthOfItem(items[1..], i - 1);
    }
  }

  lemma {:induction false} DepthOfEntry(entries: seq<MapEntry>, i: nat)
    requires i < |entries|
    ensures DepthOf(entries[i].value) <= DepthOfEntries(entries)
  {
    assert DepthOf(entries[0].value) == entries[0].Depth() <= DepthOfEntries(entries);
    if i > 0 {
      DepthOfEntry(entries[1..], i - 1);
    }
  }
}
