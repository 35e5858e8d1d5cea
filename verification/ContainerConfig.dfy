/**
 * The files a worker's container is started from (src/cloud_init.rs), and how the worker reads them
 * (bootstrap/cloud-init-template.sh, and podman by the rules src/cloud_init.rs gives). Text is UTF-8 bytes.
 */
module ContainerConfig {
  import opened Wrappers
  import opened Seqs
  import opened Ascii
  import opened Expansion
  import opened EnvResolve

  const MAX_ENV_FILE_LINE := 60 * 1024
  const MAX_SECRET_ENV_VALUE := 512 * 1024

  datatype Config = Config(envFile: bytes, secretEnv: bytes, command: bytes, args: bytes)

  datatype Field = Command | Args

  datatype ConfigError =
    | NameStart(name: bytes)
    | NameHasComma(name: bytes)
    | ValueTooLong(name: bytes)
    | NulInField(field: Field)

  function Assignment(v: Var): bytes {
    v.name + [EQUALS] + v.value
  }

  predicate FitsLine(v: Var) {
    IndexOf(v.value, NL).None? && IndexOf(v.value, CR).None? && |Assignment(v)| + 1 <= MAX_ENV_FILE_LINE
  }

  predicate BadStart(name: bytes) {
    name != [] && name[0] in {SPACE, HASH}
  }

  /** Why a variable cannot be delivered. */
  function Refusal(v: Var): Option<ConfigError> {
    if BadStart(v.name) then Some(NameStart(v.name))
    else if FitsLine(v) then None
    else if IndexOf(v.name, COMMA).Some? then Some(NameHasComma(v.name))
    else if |v.value| > MAX_SECRET_ENV_VALUE then Some(ValueTooLong(v.name))
    else None
  }

  function FirstRefusal(env: seq<Var>): Option<ConfigError> {
    if env == [] then None
    else if Refusal(env[0]).Some? then Refusal(env[0])
    else FirstRefusal(env[1..])
  }

  /** The variables that do, or do not, fit a line of the environment file. */
  function Chosen(env: seq<Var>, fits: bool): seq<Var> {
    if env == [] then []
    else (if FitsLine(env[0]) == fits then [env[0]] else []) + Chosen(env[1..], fits)
  }

  function Lines(vars: seq<Var>): seq<bytes> {
    if vars == [] then [] else [Assignment(vars[0])] + Lines(vars[1..])
  }

  function Flat(vars: seq<Var>): seq<bytes> {
    if vars == [] then [] else [vars[0].name, vars[0].value] + Flat(vars[1..])
  }

  function EnvFile(env: seq<Var>): bytes {
    Terminated(Lines(Chosen(env, true)), NL)
  }

  function SecretEnv(env: seq<Var>): bytes {
    Terminated(Flat(Chosen(env, false)), NUL)
  }

  function Argv(field: Field, entries: seq<bytes>, env: seq<Var>): Result<bytes, ConfigError> {
    if entries == [] then Ok([])
    else
      var expanded := Expanded(entries[0], env);
      if IndexOf(expanded, NUL).Some? then Err(NulInField(field))
      else
        var rest :- Argv(field, entries[1..], env);
        Ok(expanded + [NUL] + rest)
  }

  function ConfigOf(env: seq<Var>, command: seq<bytes>, args: seq<bytes>): Result<Config, ConfigError> {
    var refusal := FirstRefusal(env);
    if refusal.Some? then Err(refusal.value)
    else
      var commandFile :- Argv(Command, command, env);
      var argsFile :- Argv(Args, args, env);
      Ok(Config(EnvFile(env), SecretEnv(env), commandFile, argsFile))
  }

  /** What one variable puts into each file. */
  function FilePart(v: Var): bytes {
    if FitsLine(v) then Assignment(v) + [NL] else []
  }

  function SecretPart(v: Var): bytes {
    if FitsLine(v) then [] else v.name + [NUL] + v.value + [NUL]
  }

  lemma ChosenStep(env: seq<Var>, i: nat)
    requires i < |env|
    ensures EnvFile(env[i..]) == FilePart(env[i]) + EnvFile(env[i + 1..])
    ensures SecretEnv(env[i..]) == SecretPart(env[i]) + SecretEnv(env[i + 1..])
  {
    assert env[i..][1..] == env[i + 1..];
    LinesFirst(env[i], Chosen(env[i + 1..], true));
    FlatFirst(env[i], Chosen(env[i + 1..], false));
    assert [] + Chosen(env[i + 1..], true) == Chosen(env[i + 1..], true);
    assert [] + Chosen(env[i + 1..], false) == Chosen(env[i + 1..], false);
  }

  lemma RefusalStep(env: seq<Var>, i: nat)
    requires i < |env|
    ensures FirstRefusal(env[i..]) == if Refusal(env[i]).Some? then Refusal(env[i]) else FirstRefusal(env[i + 1..])
  {
    assert env[i..][1..] == env[i + 1..];
  }

  lemma LinesFirst(v: Var, vars: seq<Var>)
    ensures Terminated(Lines([v] + vars), NL) == Assignment(v) + [NL] + Terminated(Lines(vars), NL)
  {
    assert ([v] + vars)[1..] == vars;
    assert ([Assignment(v)] + Lines(vars))[1..] == Lines(vars);
  }

  lemma FlatFirst(v: Var, vars: seq<Var>)
    ensures Terminated(Flat([v] + vars), NUL) == v.name + [NUL] + v.value + [NUL] + Terminated(Flat(vars), NUL)
  {
    assert ([v] + vars)[1..] == vars;
    TerminatedAppend([v.name, v.value], Flat(vars), NUL);
    assert [v.name, v.value][1..] == [v.value] && [v.value][1..] == [];
    assert Terminated([v.value], NUL) == v.value + [NUL];
    assert Terminated([v.name, v.value], NUL) == v.name + [NUL] + v.value + [NUL];
  }

  /** One variable: what it adds to the files. */
  method EncodeVar(v: Var) returns (r: Result<(bytes, bytes), ConfigError>)
    ensures r == if Refusal(v).Some? then Err(Refusal(v).value) else Ok((FilePart(v), SecretPart(v)))
  {
    if BadStart(v.name) {
      return Err(NameStart(v.name));
    }
    var line := Assignment(v) + [NL];
    if IndexOf(v.value, NL).None? && IndexOf(v.value, CR).None? && |line| <= MAX_ENV_FILE_LINE {
      return Ok((line, []));
    }
    if IndexOf(v.name, COMMA).Some? {
      return Err(NameHasComma(v.name));
    }
    if |v.value| > MAX_SECRET_ENV_VALUE {
      return Err(ValueTooLong(v.name));
    }
    r := Ok(([], v.name + [NUL] + v.value + [NUL]));
  }

  method EncodeEnv(env: seq<Var>) returns (r: Result<(bytes, bytes), ConfigError>)
    ensures r == if FirstRefusal(env).Some? then Err(FirstRefusal(env).value) else Ok((EnvFile(env), SecretEnv(env)))
  {
    var envFile: bytes := [];
    var secretEnv: bytes := [];
    for i := 0 to |env|
      invariant FirstRefusal(env) == FirstRefusal(env[i..])
      invariant EnvFile(env) == envFile + EnvFile(env[i..])
      invariant SecretEnv(env) == secretEnv + SecretEnv(env[i..])
    {
      ChosenStep(env, i);
      RefusalStep(env, i);
      var parts := EncodeVar(env[i]);
      if parts.Err? {
        return Err(parts.error);
      }
      Assoc(envFile, FilePart(env[i]), EnvFile(env[i + 1..]));
      Assoc(secretEnv, SecretPart(env[i]), SecretEnv(env[i + 1..]));
      envFile := envFile + parts.value.0;
      secretEnv := secretEnv + parts.value.1;
    }
    assert env[|env|..] == [];
    assert envFile + [] == envFile && secretEnv + [] == secretEnv;
    r := Ok((envFile, secretEnv));
  }

  method EncodeArgv(field: Field, entries: seq<bytes>, env: seq<Var>) returns (r: Result<bytes, ConfigError>)
    ensures r == Argv(field, entries, env)
  {
    var out: bytes := [];
    PrependedNothing(Argv(field, entries, env));
    assert entries[0..] == entries;
    for i := 0 to |entries|
      invariant Argv(field, entries, env) == Prepended(out, Argv(field, entries[i..], env))
    {
      assert entries[i..][1..] == entries[i + 1..];
      var expanded := Expand(entries[i], env);
      if IndexOf(expanded, NUL).Some? {
        return Err(NulInField(field));
      }
      PrependedTwice(out, expanded + [NUL], Argv(field, entries[i + 1..], env));
      out := out + (expanded + [NUL]);
    }
    assert entries[|entries|..] == [];
    assert out + [] == out;
    r := Ok(out);
  }

  function Prepended(out: bytes, rest: Result<bytes, ConfigError>): Result<bytes, ConfigError> {
    var more :- rest;
    Ok(out + more)
  }

  lemma PrependedNothing(rest: Result<bytes, ConfigError>)
    ensures Prepended([], rest) == rest
  {
    if rest.Ok? {
      assert [] + rest.value == rest.value;
    }
  }

  lemma PrependedTwice(a: bytes, b: bytes, rest: Result<bytes, ConfigError>)
    ensures Prepended(a, Prepended(b, rest)) == Prepended(a + b, rest)
  {
    if rest.Ok? {
      Assoc(a, b, rest.value);
    }
  }

  method MakeConfig(env: seq<Var>, command: seq<bytes>, args: seq<bytes>) returns (r: Result<Config, ConfigError>)
    ensures r == ConfigOf(env, command, args)
  {
    var files := EncodeEnv(env);
    if files.Err? {
      return Err(files.error);
    }
    var commandFile := EncodeArgv(Command, command, env);
    if commandFile.Err? {
      return Err(commandFile.error);
    }
    var argsFile := EncodeArgv(Args, args, env);
    if argsFile.Err? {
      return Err(argsFile.error);
    }
    r := Ok(Config(files.value.0, files.value.1, commandFile.value, argsFile.value));
  }

  // How the worker reads the files back.

  function DropCr(line: bytes): bytes {
    if line != [] && line[|line| - 1] == CR then line[..|line| - 1] else line
  }

  function TrimStart(s: bytes): bytes {
    if s != [] && (s[0] == SPACE || 9 <= s[0] <= 13) then TrimStart(s[1..]) else s
  }

  /** podman's reading of one line: the variables it defines, `None` if it fails. */
  function ReadLine(line: bytes): Option<seq<Var>> {
    if |line| > 64 * 1024 then None
    else
      var text := DropCr(line);
      if text == [] || text[0] == HASH then Some([])
      else
        match IndexOf(text, EQUALS)
        case None => None
        case Some(i) => Some([Var(TrimStart(text[..i]), text[i + 1..])])
  }

  function ReadLines(lines: seq<bytes>): Option<seq<Var>> {
    if lines == [] then Some([])
    else if ReadLine(lines[0]).None? || ReadLines(lines[1..]).None? then None
    else Some(ReadLine(lines[0]).value + ReadLines(lines[1..]).value)
  }

  function ReadEnvFile(s: bytes): Option<seq<Var>> {
    ReadLines(ReadTerminated(s, NL))
  }

  /** The script's reading of the secret file: NUL-terminated entries, two and two. */
  function ReadPairs(parts: seq<bytes>): seq<Var>
    decreases |parts|
  {
    if |parts| < 2 then [] else [Var(parts[0], parts[1])] + ReadPairs(parts[2..])
  }

  function ReadSecrets(s: bytes): seq<Var> {
    ReadPairs(ReadTerminated(s, NUL))
  }

  // `type=env` and `target=`.
  const TYPE_ENV: bytes := [116, 121, 112, 101, 61, 101, 110, 118]
  const TARGET: bytes := [116, 97, 114, 103, 101, 116, 61]

  /** The script's `--secret` option that sets `name` from a secret. */
  function SecretOption(secret: bytes, name: bytes): bytes {
    Join([secret, TYPE_ENV, TARGET + name], COMMA)
  }

  function Target(fields: seq<bytes>): Option<bytes> {
    if fields == [] then None
    else if TARGET <= fields[0] then Some(fields[0][|TARGET|..])
    else Target(fields[1..])
  }

  /** The variable that podman sets by the option: its comma-separated `target=`. */
  function OptionTarget(option: bytes): Option<bytes> {
    Target(Split(option, COMMA)[1..])
  }

  // What is read is what was written.

  /** A one-line variable survives a line of the file exactly unless its name starts badly or a CR ends its value. */
  lemma OneLineReadsBack(v: Var)
    requires IsValidName(v.name) && Without(v.value, NL) && |Assignment(v)| <= 64 * 1024
    ensures ReadLine(Assignment(v)) == Some([v]) <==> !BadStart(v.name) && !(v.value != [] && v.value[|v.value| - 1] == CR)
  {
    var line := Assignment(v);
    var text := DropCr(line);
    var i := |v.name|;
    assert text[..i] == v.name;
    assert text[i] == EQUALS;
    IndexOfIs(text, EQUALS, i);
    assert text[0] == v.name[0];
    assert TrimStart(v.name) == v.name <==> v.name[0] != SPACE by {
      TrimStartShorter(v.name);
    }
    if v.value != [] && v.value[|v.value| - 1] == CR {
      assert |text[i + 1..]| == |v.value| - 1;
    } else {
      assert line[|line| - 1] == if v.value == [] then EQUALS else v.value[|v.value| - 1];
      assert text[i + 1..] == v.value;
    }
  }

  lemma {:induction false} TrimStartShorter(s: bytes)
    ensures |TrimStart(s)| <= |s|
    ensures s != [] && s[0] == SPACE ==> |TrimStart(s)| < |s|
  {
    if s != [] && (s[0] == SPACE || 9 <= s[0] <= 13) {
      TrimStartShorter(s[1..]);
    }
  }

  /** A secret's option carries the variable's name exactly if the name has no comma. */
  lemma OptionCarriesName(secret: bytes, name: bytes)
    requires Without(secret, COMMA)
    ensures OptionTarget(SecretOption(secret, name)) == Some(name) <==> Without(name, COMMA)
  {
    var option := SecretOption(secret, name);
    if Without(name, COMMA) {
      var fields := [secret, TYPE_ENV, TARGET + name];
      SplitJoin(fields, COMMA);
      assert fields[1..] == [TYPE_ENV, TARGET + name] && fields[1..][1..] == [TARGET + name];
      assert (TARGET + name)[|TARGET|..] == name;
      assert TARGET[1] == 97 && TYPE_ENV[1] == 121;
      assert !(TARGET <= TYPE_ENV);
      assert TARGET <= TARGET + name;
      assert Target([TYPE_ENV, TARGET + name]) == Target([TARGET + name]);
    } else {
      SplitWithout(option, COMMA);
      TargetWithout(Split(option, COMMA)[1..], COMMA);
    }
  }

  lemma {:induction false} TargetWithout(fields: seq<bytes>, c: byte)
    requires forall i :: 0 <= i < |fields| ==> Without(fields[i], c)
    ensures Target(fields).Some? ==> Without(Target(fields).value, c)
  {
    if fields != [] && !(TARGET <= fields[0]) {
      TargetWithout(fields[1..], c);
    }
  }

  ghost predicate AllFit(vars: seq<Var>) {
    forall i :: 0 <= i < |vars| ==> FitsLine(vars[i]) && !BadStart(vars[i].name)
  }

  lemma {:induction false} LinesReadBack(vars: seq<Var>)
    requires AllFit(vars) && ValidNames(vars)
    ensures ReadLines(Lines(vars)) == Some(vars)
  {
    if vars != [] {
      LinesReadBack(vars[1..]);
      FittingLine(vars[0]);
      LineThenLines(vars[0], Lines(vars[1..]));
      assert [vars[0]] + vars[1..] == vars;
    }
  }

  lemma FittingLine(v: Var)
    requires FitsLine(v) && IsValidName(v.name) && !BadStart(v.name)
    ensures ReadLine(Assignment(v)) == Some([v])
  {
    IndexOfSpec(v.value, NL);
    IndexOfSpec(v.value, CR);
    OneLineReadsBack(v);
  }

  lemma LineThenLines(v: Var, lines: seq<bytes>)
    requires ReadLine(Assignment(v)) == Some([v]) && ReadLines(lines).Some?
    ensures ReadLines([Assignment(v)] + lines) == Some([v] + ReadLines(lines).value)
  {
    assert ([Assignment(v)] + lines)[1..] == lines;
  }

  lemma {:induction false} LinesWithoutBreak(vars: seq<Var>)
    requires AllFit(vars) && ValidNames(vars)
    ensures |Lines(vars)| == |vars|
    ensures forall i :: 0 <= i < |vars| ==> Without(Lines(vars)[i], NL)
  {
    if vars != [] {
      LinesWithoutBreak(vars[1..]);
      IndexOfSpec(vars[0].value, NL);
    }
  }

  lemma EnvFileReadsBack(env: seq<Var>)
    requires ValidNames(env) && FirstRefusal(env).None?
    ensures ReadEnvFile(EnvFile(env)) == Some(Chosen(env, true))
  {
    var vars := Chosen(env, true);
    ChosenOnes(env, true);
    LinesWithoutBreak(vars);
    ReadTerminatedUndoes(Lines(vars), NL);
    LinesReadBack(vars);
  }

  /** What is chosen has the property, and is among the variables. */
  lemma {:induction false} ChosenOnes(env: seq<Var>, fits: bool)
    requires FirstRefusal(env).None? && ValidNames(env)
    ensures ValidNames(Chosen(env, fits))
    ensures forall i :: 0 <= i < |Chosen(env, fits)| ==>
      FitsLine(Chosen(env, fits)[i]) == fits && Refusal(Chosen(env, fits)[i]).None?
  {
    if env != [] {
      ChosenOnes(env[1..], fits);
    }
  }

  lemma {:induction false} FlatReadsBack(vars: seq<Var>)
    requires ValidNames(vars) && NulFree(vars)
    ensures forall i :: 0 <= i < |Flat(vars)| ==> Without(Flat(vars)[i], NUL)
    ensures ReadPairs(Flat(vars)) == vars
  {
    if vars != [] {
      FlatReadsBack(vars[1..]);
      assert Flat(vars)[2..] == Flat(vars[1..]);
    }
  }

  lemma {:induction false} ChosenNulFree(env: seq<Var>, fits: bool)
    requires NulFree(env)
    ensures NulFree(Chosen(env, fits))
  {
    if env != [] {
      ChosenNulFree(env[1..], fits);
    }
  }

  /** The variables in the file are exactly those whose value has no line break and whose line takes 60 KiB at most. */
  lemma {:induction false} PlacedExactly(env: seq<Var>)
    requires ValidNames(env) && FirstRefusal(env).None?
    ensures ReadEnvFile(EnvFile(env)).Some?
    ensures forall v :: v in ReadEnvFile(EnvFile(env)).value <==>
      v in env && Without(v.value, 10) && Without(v.value, 13) && |v.name| + |v.value| + 2 <= 61440
  {
    EnvFileReadsBack(env);
    forall v
      ensures v in Chosen(env, true) <==>
        v in env && Without(v.value, 10) && Without(v.value, 13) && |v.name| + |v.value| + 2 <= 61440
    {
      ChosenExactly(env, v);
      IndexOfSpec(v.value, NL);
      IndexOfSpec(v.value, CR);
    }
  }

  lemma {:induction false} ChosenExactly(env: seq<Var>, v: Var)
    ensures v in Chosen(env, true) <==> v in env && FitsLine(v)
  {
    if env != [] {
      ChosenExactly(env[1..], v);
      assert v in env <==> v == env[0] || v in env[1..];
    }
  }

  /** Why a variable is refused. */
  lemma RefusedBecause(v: Var)
    ensures Refusal(v) ==
      if v.name != [] && v.name[0] in {32, 35} then Some(NameStart(v.name))
      else if Without(v.value, 10) && Without(v.value, 13) && |v.name| + |v.value| + 2 <= 61440 then None
      else if !Without(v.name, 44) then Some(NameHasComma(v.name))
      else if |v.value| > 524288 then Some(ValueTooLong(v.name))
      else None
  {
    IndexOfSpec(v.value, NL);
    IndexOfSpec(v.value, CR);
    IndexOfSpec(v.name, COMMA);
  }

  lemma SecretEnvReadsBack(env: seq<Var>)
    requires ValidNames(env) && NulFree(env) && FirstRefusal(env).None?
    ensures ReadSecrets(SecretEnv(env)) == Chosen(env, false)
  {
    ChosenOnes(env, false);
    ChosenNulFree(env, false);
    FlatReadsBack(Chosen(env, false));
    ReadTerminatedUndoes(Flat(Chosen(env, false)), NUL);
  }

  lemma {:induction false} ArgvReadsBack(field: Field, entries: seq<bytes>, env: seq<Var>)
    ensures Argv(field, entries, env).Ok? <==> forall i :: 0 <= i < |entries| ==> Without(Expanded(entries[i], env), NUL)
    ensures Argv(field, entries, env).Ok? ==>
      ReadTerminated(Argv(field, entries, env).value, NUL) == Map(entry => Expanded(entry, env), entries)
  {
    if entries != [] {
      var expanded := Expanded(entries[0], env);
      IndexOfSpec(expanded, NUL);
      ArgvReadsBack(field, entries[1..], env);
      if Without(expanded, NUL) && Argv(field, entries[1..], env).Ok? {
        var rest := Argv(field, entries[1..], env).value;
        ReadFirst(expanded, rest, NUL);
      }
    }
  }

  lemma {:induction false} ArgvRefused(field: Field, entries: seq<bytes>, env: seq<Var>)
    ensures Argv(field, entries, env).Err? ==> Argv(field, entries, env).error == NulInField(field)
  {
    if entries != [] {
      ArgvRefused(field, entries[1..], env);
    }
  }

  lemma ReadFirst(piece: bytes, rest: bytes, end: byte)
    requires Without(piece, end)
    ensures ReadTerminated(piece + [end] + rest, end) == [piece] + ReadTerminated(rest, end)
  {
    var s := piece + [end] + rest;
    assert s[..|piece|] == piece && s[|piece| + 1..] == rest;
    IndexOfIs(s, end, |piece|);
  }

  /** The two halves share no name, and together are the whole map. */
  lemma {:induction false} ChosenSplit(env: seq<Var>)
    requires Distinct(env)
    ensures AsMap(Chosen(env, true)).Keys !! AsMap(Chosen(env, false)).Keys
    ensures AsMap(Chosen(env, true)) + AsMap(Chosen(env, false)) == AsMap(env)
    ensures |Chosen(env, true)| + |Chosen(env, false)| == |env|
  {
    if env != [] {
      ChosenSplit(env[1..]);
      ChosenFirst(env, true);
      ChosenFirst(env, false);
      FirstIsNew(env);
      UpdateHalf(AsMap(Chosen(env[1..], true)), AsMap(Chosen(env[1..], false)), env[0].name, env[0].value);
    }
  }

  lemma FirstIsNew(env: seq<Var>)
    requires env != [] && Distinct(env)
    ensures env[0].name !in AsMap(env[1..])
  {
    NotInMap(env[1..], env[0].name);
  }

  lemma UpdateHalf(a: VarMap, b: VarMap, name: bytes, value: bytes)
    requires a.Keys !! b.Keys && name !in a + b
    ensures a[name := value].Keys !! b.Keys && a[name := value] + b == (a + b)[name := value]
    ensures a.Keys !! b[name := value].Keys && a + b[name := value] == (a + b)[name := value]
  {
  }

  lemma ChosenFirst(env: seq<Var>, fits: bool)
    requires env != []
    ensures AsMap(Chosen(env, fits)) ==
      if FitsLine(env[0]) == fits then AsMap(Chosen(env[1..], fits))[env[0].name := env[0].value]
      else AsMap(Chosen(env[1..], fits))
  {
    assert ([env[0]] + Chosen(env[1..], fits))[1..] == Chosen(env[1..], fits);
    assert [] + Chosen(env[1..], fits) == Chosen(env[1..], fits);
  }

  ghost predicate Delivers(config: Config, m: VarMap, env: seq<Var>, command: seq<bytes>, args: seq<bytes>) {
    var file := ReadEnvFile(config.envFile);
    var secrets := ReadSecrets(config.secretEnv);
    && file.Some?
    && AsMap(file.value).Keys !! AsMap(secrets).Keys
    && AsMap(file.value) + AsMap(secrets) == m
    && |file.value| + |secrets| == |m|
    && (forall i :: 0 <= i < |secrets| ==> Without(secrets[i].name, COMMA))
    && ReadTerminated(config.command, NUL) == Map(entry => Expanded(entry, env), command)
    && ReadTerminated(config.args, NUL) == Map(entry => Expanded(entry, env), args)
  }

  lemma {:induction false} MapSize(env: seq<Var>)
    requires Distinct(env)
    ensures |AsMap(env)| == |env|
  {
    if env != [] {
      MapSize(env[1..]);
      FirstIsNew(env);
      assert AsMap(env).Keys == AsMap(env[1..]).Keys + {env[0].name};
      assert |AsMap(env)| == |AsMap(env).Keys| && |AsMap(env[1..])| == |AsMap(env[1..]).Keys|;
    }
  }

  lemma ConfigDelivers(env: seq<Var>, command: seq<bytes>, args: seq<bytes>)
    requires Distinct(env) && ValidNames(env) && NulFree(env)
    requires ConfigOf(env, command, args).Ok?
    ensures Delivers(ConfigOf(env, command, args).value, AsMap(env), env, command, args)
  {
    EnvFileReadsBack(env);
    SecretEnvReadsBack(env);
    ChosenSplit(env);
    MapSize(env);
    SecretNames(env);
    ArgvReadsBack(Command, command, env);
    ArgvReadsBack(Args, args, env);
  }

  /** What can be delivered. */
  predicate Deliverable(v: Var) {
    && !BadStart(v.name)
    && (FitsLine(v) || (Without(v.name, COMMA) && |v.value| <= MAX_SECRET_ENV_VALUE))
  }

  lemma {:induction false} RefusedExactly(env: seq<Var>)
    ensures FirstRefusal(env).None? <==> forall i :: 0 <= i < |env| ==> Deliverable(env[i])
  {
    if env != [] {
      RefusedExactly(env[1..]);
      IndexOfSpec(env[0].name, COMMA);
    }
  }

  /** A container is accepted exactly if each variable can be delivered and no expanded argument holds a NUL. */
  lemma AcceptedExactly(env: seq<Var>, command: seq<bytes>, args: seq<bytes>)
    ensures ConfigOf(env, command, args).Ok? <==>
      && (forall i :: 0 <= i < |env| ==> Deliverable(env[i]))
      && (forall i :: 0 <= i < |command| ==> Without(Expanded(command[i], env), NUL))
      && (forall i :: 0 <= i < |args| ==> Without(Expanded(args[i], env), NUL))
  {
    RefusedExactly(env);
    ArgvReadsBack(Command, command, env);
    ArgvReadsBack(Args, args, env);
  }

  predicate IsFirstRefusal(env: seq<Var>, k: nat, e: ConfigError) {
    k < |env| && Refusal(env[k]) == Some(e) && forall j :: 0 <= j < k ==> Refusal(env[j]) == None
  }

  lemma {:induction false} RefusedFirst(env: seq<Var>) returns (k: nat)
    requires FirstRefusal(env).Some?
    ensures IsFirstRefusal(env, k, FirstRefusal(env).value)
  {
    k := 0;
    if Refusal(env[0]).None? {
      var rest := RefusedFirst(env[1..]);
      k := rest + 1;
      assert forall j :: 1 <= j <= k ==> env[j] == env[1..][j - 1];
    }
  }

  /** A refusal is that of the first variable refused, or else names the first of the two fields with a NUL in an entry. */
  lemma RefusedFor(env: seq<Var>, command: seq<bytes>, args: seq<bytes>)
    requires ConfigOf(env, command, args).Err?
    ensures var e := ConfigOf(env, command, args).error;
      || (exists k :: IsFirstRefusal(env, k, e))
      || (e == NulInField(Command) && exists i :: 0 <= i < |command| && !Without(Expanded(command[i], env), NUL))
      || (e == NulInField(Args) && (exists i :: 0 <= i < |args| && !Without(Expanded(args[i], env), NUL))
          && forall i :: 0 <= i < |command| ==> Without(Expanded(command[i], env), NUL))
  {
    ArgvReadsBack(Command, command, env);
    ArgvReadsBack(Args, args, env);
    ArgvRefused(Command, command, env);
    ArgvRefused(Args, args, env);
    if FirstRefusal(env).Some? {
      var k := RefusedFirst(env);
    }
  }

  lemma SecretNames(env: seq<Var>)
    requires ValidNames(env) && FirstRefusal(env).None?
    ensures forall i :: 0 <= i < |Chosen(env, false)| ==> Without(Chosen(env, false)[i].name, COMMA)
  {
    ChosenOnes(env, false);
    forall i | 0 <= i < |Chosen(env, false)|
      ensures Without(Chosen(env, false)[i].name, COMMA)
    {
      IndexOfSpec(Chosen(env, false)[i].name, COMMA);
    }
  }

  /**
   * From the pod's specification to the container: what the worker reads is the fold of `envFrom` and `env`, each
   * name once, and `command` and `args` expanded under it.
   */
  lemma ContainerSeesResolved(d: Decoder, secrets: map<bytes, Secret>, pod: PodFields, c: Container,
                              command: seq<bytes>, args: seq<bytes>)
    requires Without(pod.name, NUL) && Without(pod.namespace, NUL)
    requires forall i :: 0 <= i < |c.env| && c.env[i].Literal? ==> Without(c.env[i].value, NUL)
    requires Resolved(d, secrets, pod, c).Ok?
    requires ConfigOf(Resolved(d, secrets, pod, c).value, command, args).Ok?
    ensures ResolvedMap(d, secrets, pod, c).Ok?
    ensures var env := Resolved(d, secrets, pod, c).value;
      Delivers(ConfigOf(env, command, args).value, ResolvedMap(d, secrets, pod, c).value, env, command, args)
  {
    ResolvedStands(d, secrets, pod, c);
    ResolvedNulFree(d, secrets, pod, c);
    ConfigDelivers(Resolved(d, secrets, pod, c).value, command, args);
  }
}
