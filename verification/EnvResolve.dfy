/** A container's environment from its Secrets and literals (src/container_env.rs). Text is UTF-8 bytes. */
module EnvResolve {
  import opened Wrappers
  import opened Seqs
  import opened Ascii
  import opened Expansion

  /** One `envFrom` source. */
  datatype EnvSource = EnvSource(prefix: bytes, secret: bytes, optional: bool)

  datatype FieldPath = MetadataName | MetadataNamespace

  /** One `env` entry. */
  datatype EnvEntry =
    | Literal(name: bytes, value: bytes)
    | SecretKey(name: bytes, secret: bytes, key: bytes, optional: bool)
    | FieldRef(name: bytes, path: FieldPath)

  datatype Container = Container(envFrom: seq<EnvSource>, env: seq<EnvEntry>)

  datatype PodFields = PodFields(name: bytes, namespace: bytes)

  datatype SecretEntry = SecretEntry(key: bytes, raw: bytes)

  /** A stored Secret; its entries come in key order. */
  datatype Secret = Data(entries: seq<SecretEntry>) | NotAnObject

  datatype EnvError =
    | UnsupportedName(name: bytes)
    | UnsupportedPrefix(prefix: bytes)
    | SecretNotFound(secret: bytes)
    | SecretMalformed(secret: bytes)
    | KeyNotFound(secret: bytes, key: bytes)
    | InvalidKeyName(secret: bytes, key: bytes)
    | InvalidValue(secret: bytes, key: bytes)

  /** The base64 and UTF-8 decoding of a Secret's value, taken as given. */
  type Decoder = bytes -> Option<bytes>

  /** Printable ASCII except `=`. */
  predicate IsValidName(name: bytes) {
    name != [] && forall i :: 0 <= i < |name| ==> 0x20 <= name[i] < 0x7f && name[i] != EQUALS
  }

  function DecodeValue(d: Decoder, secret: bytes, entry: SecretEntry): Result<bytes, EnvError> {
    match d(entry.raw)
    case None => Err(InvalidValue(secret, entry.key))
    case Some(value) => if IndexOf(value, NUL).Some? then Err(InvalidValue(secret, entry.key)) else Ok(value)
  }

  // Variables in a list, the later of two with one name in the place of the earlier.

  function Put(env: seq<Var>, name: bytes, value: bytes): seq<Var> {
    if env == [] then [Var(name, value)]
    else if env[0].name == name then [Var(name, value)] + env[1..]
    else [env[0]] + Put(env[1..], name, value)
  }

  method SetVar(env: seq<Var>, name: bytes, value: bytes) returns (r: seq<Var>)
    ensures r == Put(env, name, value)
  {
    for i := 0 to |env|
      invariant Put(env, name, value) == env[..i] + Put(env[i..], name, value)
    {
      if env[i].name == name {
        return env[i := Var(name, value)];
      }
      assert env[i..][1..] == env[i + 1..] && env[..i + 1] == env[..i] + [env[i]];
      Assoc(env[..i], [env[i]], Put(env[i + 1..], name, value));
    }
    assert env[..|env|] == env && env[|env|..] == [];
    r := env + [Var(name, value)];
  }

  function AddEntries(d: Decoder, env: seq<Var>, source: EnvSource, entries: seq<SecretEntry>): Result<seq<Var>, EnvError>
    decreases |entries|
  {
    if entries == [] then Ok(env)
    else
      var name := source.prefix + entries[0].key;
      if !IsValidName(name) then Err(InvalidKeyName(source.secret, entries[0].key))
      else
        var value :- DecodeValue(d, source.secret, entries[0]);
        AddEntries(d, Put(env, name, value), source, entries[1..])
  }

  function AddSources(d: Decoder, secrets: map<bytes, Secret>, env: seq<Var>, sources: seq<EnvSource>): Result<seq<Var>, EnvError>
    decreases |sources|
  {
    if sources == [] then Ok(env)
    else
      var source := sources[0];
      if source.secret !in secrets then
        if source.optional then AddSources(d, secrets, env, sources[1..]) else Err(SecretNotFound(source.secret))
      else if secrets[source.secret].NotAnObject? then Err(SecretMalformed(source.secret))
      else
        var next :- AddEntries(d, env, source, secrets[source.secret].entries);
        AddSources(d, secrets, next, sources[1..])
  }

  function EntryNamed(entries: seq<SecretEntry>, key: bytes): Option<SecretEntry> {
    if entries == [] then None
    else if entries[0].key == key then Some(entries[0])
    else EntryNamed(entries[1..], key)
  }

  /** The value of one `env` entry; `None` if an optional reference is missing. */
  function EntryValue(d: Decoder, secrets: map<bytes, Secret>, pod: PodFields, env: seq<Var>, entry: EnvEntry)
    : Result<Option<bytes>, EnvError>
  {
    match entry
    case Literal(_, raw) => Ok(Some(Expanded(raw, env)))
    case FieldRef(_, path) => Ok(Some(if path.MetadataName? then pod.name else pod.namespace))
    case SecretKey(_, _, _, _) => SecretValue(d, secrets, entry)
  }

  function SecretValue(d: Decoder, secrets: map<bytes, Secret>, entry: EnvEntry): Result<Option<bytes>, EnvError>
    requires entry.SecretKey?
  {
    if entry.secret !in secrets then
      if entry.optional then Ok(None) else Err(SecretNotFound(entry.secret))
    else if secrets[entry.secret].NotAnObject? then Err(SecretMalformed(entry.secret))
    else
      match EntryNamed(secrets[entry.secret].entries, entry.key)
      case None => if entry.optional then Ok(None) else Err(KeyNotFound(entry.secret, entry.key))
      case Some(found) =>
        var value :- DecodeValue(d, entry.secret, found);
        Ok(Some(value))
  }

  function AddEnv(d: Decoder, secrets: map<bytes, Secret>, pod: PodFields, env: seq<Var>, entries: seq<EnvEntry>)
    : Result<seq<Var>, EnvError>
    decreases |entries|
  {
    if entries == [] then Ok(env)
    else
      var value :- EntryValue(d, secrets, pod, env, entries[0]);
      AddEnv(d, secrets, pod, if value.Some? then Put(env, entries[0].name, value.value) else env, entries[1..])
  }

  /** The names that admission checks. */
  function Validate(c: Container): Result<(), EnvError> {
    var _ :- ValidateEntries(c.env);
    ValidateSources(c.envFrom)
  }

  function ValidateEntries(entries: seq<EnvEntry>): Result<(), EnvError> {
    if entries == [] then Ok(())
    else if !IsValidName(entries[0].name) then Err(UnsupportedName(entries[0].name))
    else ValidateEntries(entries[1..])
  }

  function ValidateSources(sources: seq<EnvSource>): Result<(), EnvError> {
    if sources == [] then Ok(())
    else if sources[0].prefix != [] && !IsValidName(sources[0].prefix) then Err(UnsupportedPrefix(sources[0].prefix))
    else ValidateSources(sources[1..])
  }

  function Resolved(d: Decoder, secrets: map<bytes, Secret>, pod: PodFields, c: Container): Result<seq<Var>, EnvError> {
    var _ :- Validate(c);
    var env :- AddSources(d, secrets, [], c.envFrom);
    AddEnv(d, secrets, pod, env, c.env)
  }

  method ResolveWithSecrets(d: Decoder, secrets: map<bytes, Secret>, pod: PodFields, c: Container)
    returns (r: Result<seq<Var>, EnvError>)
    ensures r == Resolved(d, secrets, pod, c)
  {
    var valid := Validate(c);
    if valid.Err? {
      return Err(valid.error);
    }
    var env: seq<Var> := [];
    for i := 0 to |c.envFrom|
      invariant AddSources(d, secrets, env, c.envFrom[i..]) == AddSources(d, secrets, [], c.envFrom)
    {
      var source := c.envFrom[i];
      assert c.envFrom[i..][1..] == c.envFrom[i + 1..];
      if source.secret !in secrets {
        if !source.optional {
          return Err(SecretNotFound(source.secret));
        }
      } else {
        if secrets[source.secret].NotAnObject? {
          return Err(SecretMalformed(source.secret));
        }
        var added := AddSecret(d, env, source, secrets[source.secret].entries);
        if added.Err? {
          return Err(added.error);
        }
        env := added.value;
      }
    }
    assert c.envFrom[|c.envFrom|..] == [];
    ghost var fromSources := env;
    for i := 0 to |c.env|
      invariant AddEnv(d, secrets, pod, env, c.env[i..]) == AddEnv(d, secrets, pod, fromSources, c.env)
    {
      var entry := c.env[i];
      assert c.env[i..][1..] == c.env[i + 1..];
      var value: Option<bytes>;
      match entry {
        case Literal(_, raw) =>
          var expanded := Expand(raw, env);
          value := Some(expanded);
        case FieldRef(_, path) =>
          value := Some(if path.MetadataName? then pod.name else pod.namespace);
        case SecretKey(_, _, _, _) =>
          var found := SecretValue(d, secrets, entry);
          if found.Err? {
            return Err(found.error);
          }
          value := found.value;
      }
      if value.Some? {
        env := SetVar(env, entry.name, value.value);
      }
    }
    assert c.env[|c.env|..] == [];
    r := Ok(env);
  }

  /** Adds every entry of one Secret. */
  method AddSecret(d: Decoder, env: seq<Var>, source: EnvSource, entries: seq<SecretEntry>) returns (r: Result<seq<Var>, EnvError>)
    ensures r == AddEntries(d, env, source, entries)
  {
    var vars := env;
    for i := 0 to |entries|
      invariant AddEntries(d, vars, source, entries[i..]) == AddEntries(d, env, source, entries)
    {
      assert entries[i..][1..] == entries[i + 1..];
      var name := source.prefix + entries[i].key;
      if !IsValidName(name) {
        return Err(InvalidKeyName(source.secret, entries[i].key));
      }
      var value := DecodeValue(d, source.secret, entries[i]);
      if value.Err? {
        return Err(value.error);
      }
      vars := SetVar(vars, name, value.value);
    }
    assert entries[|entries|..] == [];
    r := Ok(vars);
  }

  // What the list means: a map, in which the later definition wins.

  type VarMap = map<bytes, bytes>

  function AsMap(env: seq<Var>): VarMap {
    if env == [] then map[] else AsMap(env[1..])[env[0].name := env[0].value]
  }

  ghost predicate Distinct(env: seq<Var>) {
    forall i, j :: 0 <= i < j < |env| ==> env[i].name != env[j].name
  }

  ghost predicate ValidNames(env: seq<Var>) {
    forall i :: 0 <= i < |env| ==> IsValidName(env[i].name)
  }

  lemma {:induction false} FindIsMap(env: seq<Var>, name: bytes)
    ensures Find(env, name) == if name in AsMap(env) then Some(AsMap(env)[name]) else None
  {
    if env != [] {
      FindIsMap(env[1..], name);
    }
  }

  lemma {:induction false} NotInMap(env: seq<Var>, name: bytes)
    ensures name in AsMap(env) <==> exists i :: 0 <= i < |env| && env[i].name == name
  {
    if env != [] {
      NotInMap(env[1..], name);
      if exists i :: 0 <= i < |env[1..]| && env[1..][i].name == name {
        var i :| 0 <= i < |env[1..]| && env[1..][i].name == name;
        assert env[i + 1].name == name;
      }
      if exists i :: 0 <= i < |env| && env[i].name == name {
        var i :| 0 <= i < |env| && env[i].name == name;
        assert i > 0 ==> env[1..][i - 1].name == name;
      }
    }
  }

  lemma {:induction false} PutNames(env: seq<Var>, name: bytes, value: bytes)
    ensures forall i :: 0 <= i < |Put(env, name, value)| ==>
      Put(env, name, value)[i].name == name || (i < |env| && Put(env, name, value)[i].name == env[i].name)
    ensures |env| <= |Put(env, name, value)| <= |env| + 1
    ensures forall i :: 0 <= i < |env| ==> Put(env, name, value)[i].name == env[i].name
  {
    if env != [] && env[0].name != name {
      PutNames(env[1..], name, value);
    }
  }

  /** Setting a variable is a map update, and keeps names distinct. */
  lemma {:induction false} PutIsUpdate(env: seq<Var>, name: bytes, value: bytes)
    requires Distinct(env)
    ensures AsMap(Put(env, name, value)) == AsMap(env)[name := value]
    ensures Distinct(Put(env, name, value))
  {
    var r := Put(env, name, value);
    if env != [] {
      if env[0].name == name {
        assert r[1..] == env[1..];
        assert forall i, j :: 0 <= i < j < |r| ==> r[i].name == env[i].name && r[j].name == env[j].name;
      } else {
        PutIsUpdate(env[1..], name, value);
        PutNames(env[1..], name, value);
        assert r[1..] == Put(env[1..], name, value);
        forall j | 0 < j < |r| ensures r[j].name != env[0].name {
          assert r[j] == r[1..][j - 1];
        }
      }
    }
  }

  /** The variables of one `envFrom` source on their own. */
  function SecretMap(d: Decoder, source: EnvSource, entries: seq<SecretEntry>): Result<VarMap, EnvError> {
    if entries == [] then Ok(map[])
    else
      var name := source.prefix + entries[0].key;
      if !IsValidName(name) then Err(InvalidKeyName(source.secret, entries[0].key))
      else
        var value :- DecodeValue(d, source.secret, entries[0]);
        var rest :- SecretMap(d, source, entries[1..]);
        Ok(map[name := value] + rest)
  }

  /** All sources, each overriding those before it. */
  function SourcesMap(d: Decoder, secrets: map<bytes, Secret>, m: VarMap, sources: seq<EnvSource>): Result<VarMap, EnvError>
    decreases |sources|
  {
    if sources == [] then Ok(m)
    else
      var source := sources[0];
      if source.secret !in secrets then
        if source.optional then SourcesMap(d, secrets, m, sources[1..]) else Err(SecretNotFound(source.secret))
      else if secrets[source.secret].NotAnObject? then Err(SecretMalformed(source.secret))
      else
        var vars :- SecretMap(d, source, secrets[source.secret].entries);
        SourcesMap(d, secrets, m + vars, sources[1..])
  }

  /** What the entries of `env` add to `m`, where the last of a name counts; a literal expands by what precedes it. */
  ghost function EnvMap(d: Decoder, secrets: map<bytes, Secret>, pod: PodFields, m: VarMap, entries: seq<EnvEntry>): Result<VarMap, EnvError>
    decreases |entries|
  {
    if entries == [] then Ok(m)
    else
      match entries[0]
      case Literal(name, raw) => EnvMap(d, secrets, pod, m[name := ExpandedIn(raw, m)], entries[1..])
      case FieldRef(name, path) =>
        EnvMap(d, secrets, pod, m[name := if path.MetadataName? then pod.name else pod.namespace], entries[1..])
      case SecretKey(name, _, _, _) =>
        var value :- SecretValue(d, secrets, entries[0]);
        EnvMap(d, secrets, pod, if value.Some? then m[name := value.value] else m, entries[1..])
  }

  /** Nothing, overridden by `envFrom`, overridden by `env`. */
  ghost function ResolvedMap(d: Decoder, secrets: map<bytes, Secret>, pod: PodFields, c: Container): Result<VarMap, EnvError> {
    var m :- SourcesMap(d, secrets, map[], c.envFrom);
    EnvMap(d, secrets, pod, m, c.env)
  }

  function OverriddenBy(m: VarMap, vars: Result<VarMap, EnvError>): Result<VarMap, EnvError> {
    var later :- vars;
    Ok(m + later)
  }

  /** Expansion by the values of a map. */
  function ExpandedIn(input: bytes, m: VarMap): bytes {
    ValueIn(Pieces(input), m)
  }

  function ValueIn(pieces: seq<Piece>, m: VarMap): bytes {
    if pieces == [] then []
    else
      (match pieces[0]
       case Text(text) => text
       case Escaped => [DOLLAR]
       case Reference(name) => if name in m then m[name] else pieces[0].Source()
       case Unclosed => pieces[0].Source()
       case Lone => pieces[0].Source()) + ValueIn(pieces[1..], m)
  }

  lemma {:induction false} ExpandedSame(pieces: seq<Piece>, env: seq<Var>)
    ensures ValueOf(pieces, env) == ValueIn(pieces, AsMap(env))
  {
    if pieces != [] {
      ExpandedSame(pieces[1..], env);
      if pieces[0].Reference? {
        FindIsMap(env, pieces[0].name);
      }
    }
  }

  /** The list `r` stands for the map `m`, or both are the same error. */
  ghost predicate Stands(r: Result<seq<Var>, EnvError>, m: Result<VarMap, EnvError>) {
    match r
    case Ok(env) => Distinct(env) && ValidNames(env) && m == Ok(AsMap(env))
    case Err(error) => m == Err(error)
  }

  lemma ValidPut(env: seq<Var>, name: bytes, value: bytes)
    requires ValidNames(env) && IsValidName(name)
    ensures ValidNames(Put(env, name, value))
  {
    PutNames(env, name, value);
  }

  lemma UpdateFirst(m: VarMap, name: bytes, value: bytes, rest: VarMap)
    ensures m[name := value] + rest == m + (map[name := value] + rest)
  {
  }

  /** Stands for the same whether an update is made before or counted among what overrides. */
  lemma StandsAfterUpdate(r: Result<seq<Var>, EnvError>, m: VarMap, name: bytes, value: bytes, vars: Result<VarMap, EnvError>)
    requires Stands(r, OverriddenBy(m[name := value], vars))
    ensures Stands(r, OverriddenBy(m, OverriddenBy(map[name := value], vars)))
  {
    if vars.Ok? {
      UpdateFirst(m, name, value, vars.value);
    }
  }

  lemma {:induction false} EntriesStand(d: Decoder, env: seq<Var>, source: EnvSource, entries: seq<SecretEntry>)
    requires Distinct(env) && ValidNames(env)
    ensures Stands(AddEntries(d, env, source, entries), OverriddenBy(AsMap(env), SecretMap(d, source, entries)))
    decreases |entries|
  {
    if entries == [] {
      assert AsMap(env) + map[] == AsMap(env);
    } else {
      var name := source.prefix + entries[0].key;
      var value := DecodeValue(d, source.secret, entries[0]);
      if IsValidName(name) && value.Ok? {
        EntryStands(d, env, source, entries, name, value.value);
      }
    }
  }

  lemma {:induction false} EntryStands(d: Decoder, env: seq<Var>, source: EnvSource, entries: seq<SecretEntry>, name: bytes, value: bytes)
    requires Distinct(env) && ValidNames(env) && IsValidName(name)
    requires entries != [] && name == source.prefix + entries[0].key
    requires DecodeValue(d, source.secret, entries[0]) == Ok(value)
    ensures Stands(AddEntries(d, env, source, entries), OverriddenBy(AsMap(env), SecretMap(d, source, entries)))
    decreases |entries|, 0
  {
    PutIsUpdate(env, name, value);
    ValidPut(env, name, value);
    var next := Put(env, name, value);
    EntriesStand(d, next, source, entries[1..]);
    var rest := SecretMap(d, source, entries[1..]);
    assert SecretMap(d, source, entries) == OverriddenBy(map[name := value], rest);
    assert AddEntries(d, env, source, entries) == AddEntries(d, next, source, entries[1..]);
    StandsAfterUpdate(AddEntries(d, next, source, entries[1..]), AsMap(env), name, value, rest);
  }

  lemma {:induction false} SourcesStand(d: Decoder, secrets: map<bytes, Secret>, env: seq<Var>, sources: seq<EnvSource>)
    requires Distinct(env) && ValidNames(env)
    ensures Stands(AddSources(d, secrets, env, sources), SourcesMap(d, secrets, AsMap(env), sources))
    decreases |sources|
  {
    if sources != [] {
      var source := sources[0];
      if source.secret !in secrets {
        SourcesStand(d, secrets, env, sources[1..]);
      } else if secrets[source.secret].Data? {
        EntriesStand(d, env, source, secrets[source.secret].entries);
        var next := AddEntries(d, env, source, secrets[source.secret].entries);
        if next.Ok? {
          SourcesStand(d, secrets, next.value, sources[1..]);
        }
      }
    }
  }

  lemma {:induction false} EnvStands(d: Decoder, secrets: map<bytes, Secret>, pod: PodFields, env: seq<Var>, entries: seq<EnvEntry>)
    requires Distinct(env) && ValidNames(env) && ValidateEntries(entries).Ok?
    ensures Stands(AddEnv(d, secrets, pod, env, entries), EnvMap(d, secrets, pod, AsMap(env), entries))
    decreases |entries|
  {
    if entries != [] {
      var entry := entries[0];
      if entry.Literal? {
        ExpandedSame(Pieces(entry.value), env);
      }
      var value := EntryValue(d, secrets, pod, env, entry);
      if value.Ok? {
        if value.value.Some? {
          PutIsUpdate(env, entry.name, value.value.value);
          ValidPut(env, entry.name, value.value.value);
          EnvStands(d, secrets, pod, Put(env, entry.name, value.value.value), entries[1..]);
        } else {
          EnvStands(d, secrets, pod, env, entries[1..]);
        }
      }
    }
  }

  /**
   * Resolution yields distinct, valid names, and its map is the right-biased fold of `envFrom`, then `env`;
   * it fails exactly when the fold does, with the same error.
   */
  lemma ResolvedStands(d: Decoder, secrets: map<bytes, Secret>, pod: PodFields, c: Container)
    requires Validate(c).Ok?
    ensures Stands(Resolved(d, secrets, pod, c), ResolvedMap(d, secrets, pod, c))
  {
    SourcesStand(d, secrets, [], c.envFrom);
    var env := AddSources(d, secrets, [], c.envFrom);
    if env.Ok? {
      EnvStands(d, secrets, pod, env.value, c.env);
    }
  }

  // No NUL gets in except from a literal or the pod's own fields.

  ghost predicate NulFree(env: seq<Var>) {
    forall i :: 0 <= i < |env| ==> Without(env[i].value, NUL)
  }

  lemma {:induction false} PutNulFree(env: seq<Var>, name: bytes, value: bytes)
    requires NulFree(env) && Without(value, NUL)
    ensures NulFree(Put(env, name, value))
  {
    if env != [] && env[0].name != name {
      PutNulFree(env[1..], name, value);
    }
  }

  lemma {:induction false} EntriesNulFree(d: Decoder, env: seq<Var>, source: EnvSource, entries: seq<SecretEntry>)
    requires NulFree(env) && AddEntries(d, env, source, entries).Ok?
    ensures NulFree(AddEntries(d, env, source, entries).value)
    decreases |entries|
  {
    if entries != [] {
      var value := DecodeValue(d, source.secret, entries[0]).value;
      IndexOfSpec(value, NUL);
      PutNulFree(env, source.prefix + entries[0].key, value);
      EntriesNulFree(d, Put(env, source.prefix + entries[0].key, value), source, entries[1..]);
    }
  }

  lemma {:induction false} SourcesNulFree(d: Decoder, secrets: map<bytes, Secret>, env: seq<Var>, sources: seq<EnvSource>)
    requires NulFree(env) && AddSources(d, secrets, env, sources).Ok?
    ensures NulFree(AddSources(d, secrets, env, sources).value)
    decreases |sources|
  {
    if sources != [] {
      var source := sources[0];
      if source.secret !in secrets {
        SourcesNulFree(d, secrets, env, sources[1..]);
      } else {
        EntriesNulFree(d, env, source, secrets[source.secret].entries);
        SourcesNulFree(d, secrets, AddEntries(d, env, source, secrets[source.secret].entries).value, sources[1..]);
      }
    }
  }

  lemma {:induction false} EnvNulFree(d: Decoder, secrets: map<bytes, Secret>, pod: PodFields, env: seq<Var>, entries: seq<EnvEntry>)
    requires NulFree(env) && AddEnv(d, secrets, pod, env, entries).Ok?
    requires Without(pod.name, NUL) && Without(pod.namespace, NUL)
    requires forall i :: 0 <= i < |entries| && entries[i].Literal? ==> Without(entries[i].value, NUL)
    ensures NulFree(AddEnv(d, secrets, pod, env, entries).value)
    decreases |entries|
  {
    if entries != [] {
      var entry := entries[0];
      var value := EntryValue(d, secrets, pod, env, entry).value;
      if entry.Literal? {
        ExpandedWithout(entry.value, env, NUL);
      } else if entry.SecretKey? && value.Some? {
        IndexOfSpec(value.value, NUL);
      }
      if value.Some? {
        PutNulFree(env, entry.name, value.value);
        EnvNulFree(d, secrets, pod, Put(env, entry.name, value.value), entries[1..]);
      } else {
        EnvNulFree(d, secrets, pod, env, entries[1..]);
      }
    }
  }

  /** With NUL-free literals, every resolved value is NUL-free. */
  lemma ResolvedNulFree(d: Decoder, secrets: map<bytes, Secret>, pod: PodFields, c: Container)
    requires Resolved(d, secrets, pod, c).Ok?
    requires Without(pod.name, NUL) && Without(pod.namespace, NUL)
    requires forall i :: 0 <= i < |c.env| && c.env[i].Literal? ==> Without(c.env[i].value, NUL)
    ensures NulFree(Resolved(d, secrets, pod, c).value)
  {
    SourcesNulFree(d, secrets, [], c.envFrom);
    EnvNulFree(d, secrets, pod, AddSources(d, secrets, [], c.envFrom).value, c.env);
  }
}
