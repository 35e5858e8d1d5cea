/** Kubernetes protobuf objects as the JSON Go would write for them (src/k8s_protobuf.rs). */
module GoJson {
  import opened Wrappers
  import opened Numbers
  import opened Seqs
  import opened Json

  // Messages and their schema.

  datatype Scalar = BoolType | IntType | StringType | BytesType | EnumType
  datatype Kind = ScalarKind(scalar: Scalar) | MessageKind(message: string)
  datatype Shape = Singular | Repeated | Mapped

  datatype Field = Field(number: nat, name: string, kind: Kind, shape: Shape)

  /** One entry of the generated table: the name a field has in JSON, and the rules for leaving it out or embedding it. */
  datatype GoField = GoField(json: string, omitempty: bool, pointer: bool, inline: bool)

  datatype MapKey = StringKey(s: string) | OtherKey

  datatype FieldEntry = FieldEntry(number: nat, value: Value) {
    function Depth(): nat {
      DepthOf(value)
    }
  }

  datatype MapEntry = MapEntry(key: MapKey, value: Value) {
    function Depth(): nat {
      DepthOf(value)
    }
  }

  datatype Value =
    | BoolValue(b: bool)
    | IntValue(n: int)
    | StringValue(s: string)
    | BytesValue(bytes: bytes)
    | EnumValue(number: int)
    | ListValue(items: seq<Value>)
    | MapValue(entries: seq<MapEntry>)
    | MessageValue(msg: Msg)

  /** A decoded message: the fields on the wire, and the numbers of fields its type does not know. */
  datatype Msg = Msg(name: string, fields: seq<FieldEntry>, unknown: seq<nat>)

  datatype Schema = Schema(types: map<string, seq<Field>>, go: map<string, map<nat, GoField>>, rank: map<string, nat>) {
    function Fields(name: string): seq<Field> {
      if name in types then types[name] else []
    }

    function Rank(name: string): nat {
      if name in rank then rank[name] else 0
    }

    function Go(name: string, field: Field): Option<GoField> {
      if name in go && field.number in go[name] then Some(go[name][field.number]) else None
    }

    /**
     * What the generated schema has: a Go struct is never part of itself by value, so structs embedded or
     * held by value have lower rank; and types with a JSON form of their own have no field entries.
     */
    ghost predicate Ranked() {
      && (forall name :: IsSpecial(name) ==> name !in go)
      && forall name, f :: f in Fields(name) && Go(name, f).Some? && ByValue(f, Go(name, f).value) ==>
           Rank(f.kind.message) < Rank(name)
    }

    static predicate ByValue(f: Field, go: GoField) {
      f.kind.MessageKind? && (go.inline || (!go.pointer && f.shape.Singular?))
    }
  }

  /** Given functions: base64, chrono's RFC 3339 text of a Unix time, and the JSON parser. */
  datatype Codec = Codec(base64: bytes -> string, timeText: int -> Option<string>, parseJson: bytes -> Option<Json>)

  datatype Step = Key(name: string) | Index(i: nat)
  type Path = seq<Step>

  datatype Error =
    | UnknownField(path: Path, number: nat, message: string)
    | UnsupportedMessage(path: Path, message: string)
    | MissingGoField(message: string, field: string)
    | InlineNonMessage(message: string, field: string)
    | NonStringMapKey(path: Path)
    | UnsupportedValue(path: Path)
    | TimeOutOfRange(path: Path)
    | UnknownIntOrStringType(path: Path, n: int)
    | InvalidFieldsV1(path: Path)

  const TIME := "k8s.io.apimachinery.pkg.apis.meta.v1.Time"
  const FIELDS_V1 := "k8s.io.apimachinery.pkg.apis.meta.v1.FieldsV1"
  const QUANTITY := "k8s.io.apimachinery.pkg.api.resource.Quantity"
  const INT_OR_STRING := "k8s.io.apimachinery.pkg.util.intstr.IntOrString"

  predicate IsSpecial(name: string) {
    name in {TIME, FIELDS_V1, QUANTITY, INT_OR_STRING}
  }

  // Reading fields, as prost-reflect does.

  function Lookup(fields: seq<FieldEntry>, number: nat): (r: Option<Value>)
    ensures r.Some? ==> DepthOf(r.value) <= DepthOfFields(fields)
  {
    if fields == [] then None
    else if fields[0].number == number then Some(fields[0].value)
    else Lookup(fields[1..], number)
  }

  /** `has_field`: an empty list or map is not present. */
  predicate Present(msg: Msg, f: Field) {
    match Lookup(msg.fields, f.number)
    case None => false
    case Some(v) => v != ListValue([]) && v != MapValue([])
  }

  function Default(f: Field): Value {
    match f.shape
    case Repeated => ListValue([])
    case Mapped => MapValue([])
    case Singular =>
      match f.kind
      case MessageKind(name) => MessageValue(Msg(name, [], []))
      case ScalarKind(BoolType) => BoolValue(false)
      case ScalarKind(IntType) => IntValue(0)
      case ScalarKind(StringType) => StringValue("")
      case ScalarKind(BytesType) => BytesValue([])
      case ScalarKind(EnumType) => EnumValue(0)
  }

  /** `get_field`: an absent field reads as its default. */
  function Get(msg: Msg, f: Field): Value {
    match Lookup(msg.fields, f.number)
    case None => Default(f)
    case Some(v) => v
  }

  function FieldNamed(fields: seq<Field>, name: string): Option<Field> {
    if fields == [] then None
    else if fields[0].name == name then Some(fields[0])
    else FieldNamed(fields[1..], name)
  }

  function GetNamed(s: Schema, msg: Msg, name: string): Option<Value> {
    match FieldNamed(s.Fields(msg.name), name)
    case None => None
    case Some(f) => Some(Get(msg, f))
  }

  function StringField(s: Schema, msg: Msg, name: string): string {
    match GetNamed(s, msg, name)
    case Some(StringValue(text)) => text
    case _ => ""
  }

  function IntField(s: Schema, msg: Msg, name: string): int {
    match GetNamed(s, msg, name)
    case Some(IntValue(n)) => n
    case _ => 0
  }

  // The size of a message: what its submessages have less of.

  function Depth(msg: Msg): nat {
    1 + DepthOfFields(msg.fields)
  }

  function DepthOf(v: Value): nat {
    match v
    case MessageValue(msg) => 1 + Depth(msg)
    case ListValue(items) => 1 + DepthOfItems(items)
    case MapValue(entries) => 1 + DepthOfEntries(entries)
    case _ => 0
  }

  function DepthOfFields(fields: seq<FieldEntry>): nat {
    if fields == [] then 0 else Max(fields[0].Depth(), DepthOfFields(fields[1..]))
  }

  function DepthOfItems(items: seq<Value>): nat {
    if items == [] then 0 else Max(DepthOf(items[0]), DepthOfItems(items[1..]))
  }

  function DepthOfEntries(entries: seq<MapEntry>): nat {
    if entries == [] then 0 else Max(entries[0].Depth(), DepthOfEntries(entries[1..]))
  }

  /** The default of a struct held by value is no deeper than its holder, and of lower rank. */
  lemma DefaultDecreases(s: Schema, msg: Msg, f: Field, go: GoField)
    requires s.Ranked() && f in s.Fields(msg.name) && s.Go(msg.name, f) == Some(go)
    requires Schema.ByValue(f, go)
    ensures Depth(Msg(f.kind.message, [], [])) <= Depth(msg)
    ensures s.Rank(f.kind.message) < s.Rank(msg.name)
  {
  }

  lemma InlineDecreases(s: Schema, msg: Msg, f: Field, go: GoField)
    requires s.Ranked() && f in s.Fields(msg.name) && s.Go(msg.name, f) == Some(go) && go.inline
    requires Get(msg, f).MessageValue?
    ensures var inner := Get(msg, f).msg;
      || Depth(inner) < Depth(msg)
      || (Depth(inner) == Depth(msg) && s.Rank(inner.name) < s.Rank(msg.name))
  {
    if Lookup(msg.fields, f.number).None? {
      DefaultDecreases(s, msg, f, go);
    }
  }

  // The conversion.

  function RejectUnknown(msg: Msg, path: Path): Result<(), Error> {
    if msg.unknown == [] then Ok(()) else Err(UnknownField(path, msg.unknown[0], msg.name))
  }

  /** The values that count as nothing where `omitempty` stands; structs and enums never do. */
  predicate IsEmpty(v: Value) {
    match v
    case BoolValue(b) => !b
    case IntValue(n) => n == 0
    case StringValue(s) => s == ""
    case BytesValue(b) => b == []
    case ListValue(items) => items == []
    case MapValue(entries) => entries == []
    case EnumValue(_) => false
    case MessageValue(_) => false
  }

  function ScalarToJson(c: Codec, v: Value, path: Path): Result<Json, Error> {
    match v
    case BoolValue(b) => Ok(Bool(b))
    case IntValue(n) => Ok(Number(n))
    case StringValue(s) => Ok(String(s))
    case BytesValue(b) => Ok(String(c.base64(b)))
    case _ => Err(UnsupportedValue(path))
  }

  function SpecialToJson(s: Schema, c: Codec, msg: Msg, path: Path): Result<Json, Error> {
    var _ :- RejectUnknown(msg, path);
    if msg.name == TIME then
      var seconds := IntField(s, msg, "seconds");
      if seconds == 0 && IntField(s, msg, "nanos") == 0 then Ok(Null)
      else
        match c.timeText(seconds)
        case Some(text) => Ok(String(text))
        case None => Err(TimeOutOfRange(path))
    else if msg.name == QUANTITY then
      var text := StringField(s, msg, "string");
      Ok(String(if text == "" then "0" else text))
    else if msg.name == INT_OR_STRING then
      var n := IntField(s, msg, "type");
      if n == 0 then Ok(Number(IntField(s, msg, "intVal")))
      else if n == 1 then Ok(String(StringField(s, msg, "strVal")))
      else Err(UnknownIntOrStringType(path, n))
    else
      match GetNamed(s, msg, "Raw")
      case Some(BytesValue(raw)) =>
        if raw == [] then Ok(Null)
        else
          (match c.parseJson(raw)
           case Some(json) => Ok(json)
           case None => Err(InvalidFieldsV1(path)))
      case _ => Ok(Null)
  }

  function MessageToJson(s: Schema, c: Codec, msg: Msg, path: Path): Result<Json, Error>
    requires s.Ranked()
    decreases Depth(msg), s.Rank(msg.name), |s.Fields(msg.name)| + 2
  {
    if IsSpecial(msg.name) then SpecialToJson(s, c, msg, path)
    else
      var fields :- WriteFields(s, c, msg, map[], path);
      Ok(Object(fields))
  }

  /** Adds the fields of `msg` to `out`, by Go's rule for each. */
  function WriteFields(s: Schema, c: Codec, msg: Msg, out: map<string, Json>, path: Path): Result<map<string, Json>, Error>
    requires s.Ranked()
    decreases Depth(msg), s.Rank(msg.name), |s.Fields(msg.name)| + 1
  {
    var _ :- RejectUnknown(msg, path);
    if msg.name !in s.go then Err(UnsupportedMessage(path, msg.name))
    else WriteFrom(s, c, msg, s.Fields(msg.name), out, path)
  }

  function WriteFrom(s: Schema, c: Codec, msg: Msg, fields: seq<Field>, out: map<string, Json>, path: Path)
    : Result<map<string, Json>, Error>
    requires s.Ranked()
    requires forall f <- fields :: f in s.Fields(msg.name)
    decreases Depth(msg), s.Rank(msg.name), |fields|
  {
    if fields == [] then Ok(out)
    else
      assert fields[0] in s.Fields(msg.name);
      var next :- WriteField(s, c, msg, fields[0], out, path);
      WriteFrom(s, c, msg, fields[1..], next, path)
  }

  function WriteField(s: Schema, c: Codec, msg: Msg, f: Field, out: map<string, Json>, path: Path)
    : Result<map<string, Json>, Error>
    requires s.Ranked() && f in s.Fields(msg.name)
    decreases Depth(msg), s.Rank(msg.name), 0
  {
    match s.Go(msg.name, f)
    case None => Err(MissingGoField(msg.name, f.name))
    case Some(go) =>
      if go.inline then
        match Get(msg, f)
        case MessageValue(inner) =>
          InlineDecreases(s, msg, f, go);
          WriteFields(s, c, inner, out, path)
        case _ => Err(InlineNonMessage(msg.name, f.name))
      else
        var json :- FieldJson(s, c, msg, f, go, path + [Key(go.json)]);
        Ok(if json.Some? then out[go.json := json.value] else out)
  }

  /** What one field is written as; `None` if it is left out. */
  function FieldJson(s: Schema, c: Codec, msg: Msg, f: Field, go: GoField, path: Path): Result<Option<Json>, Error>
    requires s.Ranked() && f in s.Fields(msg.name) && s.Go(msg.name, f) == Some(go)
    decreases Depth(msg), s.Rank(msg.name), 0, 0
  {
    if Present(msg, f) then
      var v := Lookup(msg.fields, f.number).value;
      if !go.pointer && go.omitempty && IsEmpty(v) then Ok(None)
      else
        var json :- ValueToJson(s, c, v, path);
        Ok(Some(json))
    else if go.pointer || !f.shape.Singular? || f.kind == ScalarKind(BytesType) then
      Ok(if go.omitempty then None else Some(Null))
    else if f.kind.MessageKind? then
      // A struct by value: written even when it is zero.
      DefaultDecreases(s, msg, f, go);
      var json :- MessageToJson(s, c, Msg(f.kind.message, [], []), path);
      Ok(Some(json))
    else if go.omitempty then Ok(None)
    else
      var json :- ScalarToJson(c, Default(f), path);
      Ok(Some(json))
  }

  /** A list, a map, a message or a scalar. */
  function ValueToJson(s: Schema, c: Codec, v: Value, path: Path): Result<Json, Error>
    requires s.Ranked()
    decreases DepthOf(v), 0, 1
  {
    match v
    case ListValue(items) =>
      var all :- ItemsToJson(s, c, items, path, 0);
      Ok(Array(all))
    case MapValue(entries) =>
      var all :- EntriesToJson(s, c, entries, map[], path);
      Ok(Object(all))
    case _ => ItemToJson(s, c, v, path)
  }

  function ItemToJson(s: Schema, c: Codec, v: Value, path: Path): Result<Json, Error>
    requires s.Ranked()
    decreases DepthOf(v), 0, 0
  {
    match v
    case MessageValue(msg) => MessageToJson(s, c, msg, path)
    case _ => ScalarToJson(c, v, path)
  }

  function ItemsToJson(s: Schema, c: Codec, items: seq<Value>, path: Path, i: nat): Result<seq<Json>, Error>
    requires s.Ranked()
    decreases DepthOfItems(items), 0, 1 + |items|
  {
    if items == [] then Ok([])
    else
      var json :- ItemToJson(s, c, items[0], path + [Index(i)]);
      var rest :- ItemsToJson(s, c, items[1..], path, i + 1);
      Ok([json] + rest)
  }

  function EntriesToJson(s: Schema, c: Codec, entries: seq<MapEntry>, out: map<string, Json>, path: Path)
    : Result<map<string, Json>, Error>
    requires s.Ranked()
    decreases DepthOfEntries(entries), 0, 1 + |entries|
  {
    if entries == [] then Ok(out)
    else
      match entries[0].key
      case OtherKey => Err(NonStringMapKey(path))
      case StringKey(key) =>
        assert entries[0].Depth() <= DepthOfEntries(entries);
        var json :- ItemToJson(s, c, entries[0].value, path + [Key(key)]);
        EntriesToJson(s, c, entries[1..], out[key := json], path)
  }
}
