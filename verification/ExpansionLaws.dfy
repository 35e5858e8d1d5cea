/** What `$(VAR)` expansion makes of each kind of `$`, and what a container's variables stand for (src/container_env.rs). */
module ExpansionLaws {
  import opened Wrappers
  import opened Seqs
  import opened Ascii
  import opened Expansion

  /** A reference becomes the value of the variable, or stays as it is if there is none. */
  lemma Referenced(name: bytes, s: bytes, env: seq<Var>)
    requires Without(name, CLOSE)
    ensures Expanded([DOLLAR, OPEN] + name + [CLOSE] + s, env) ==
      (match Find(env, name) case Some(value) => value case None => [DOLLAR, OPEN] + name + [CLOSE]) + Expanded(s, env)
  {
    var input := [DOLLAR, OPEN] + name + [CLOSE] + s;
    var inner := name + [CLOSE] + s;
    assert input[0] == DOLLAR && input[..0] == [] && input[1..][0] == OPEN && input[1..][1..] == inner;
    assert inner[..|name|] == name && inner[|name| + 1..] == s;
    IndexOfIs(inner, CLOSE, |name|);
    ExpandedFirst(input, Cut([], Reference(name), s), env);
    var value := Reference(name).Value(env);
    assert [] + (value + Expanded(s, env)) == value + Expanded(s, env);
  }

  /** `$(` without an end is text, and expansion goes on behind it. */
  lemma NotClosed(s: bytes, env: seq<Var>)
    requires Without(s, CLOSE)
    ensures Expanded([DOLLAR, OPEN] + s, env) == [DOLLAR, OPEN] + Expanded(s, env)
  {
    var input := [DOLLAR, OPEN] + s;
    assert input[0] == DOLLAR && input[..0] == [] && input[1..][0] == OPEN && input[1..][1..] == s;
    IndexOfSpec(s, CLOSE);
    ExpandedFirst(input, Cut([], Unclosed, s), env);
    assert [] + ([DOLLAR, OPEN] + Expanded(s, env)) == [DOLLAR, OPEN] + Expanded(s, env);
  }

  /** Any other `$` is text. */
  lemma Alone(s: bytes, env: seq<Var>)
    requires s == [] || s[0] !in {DOLLAR, OPEN}
    ensures Expanded([DOLLAR] + s, env) == [DOLLAR] + Expanded(s, env)
  {
    var input := [DOLLAR] + s;
    assert input[0] == DOLLAR && input[..0] == [] && input[1..] == s;
    ExpandedFirst(input, Cut([], Lone, s), env);
    assert [] + ([DOLLAR] + Expanded(s, env)) == [DOLLAR] + Expanded(s, env);
  }

  predicate IsFirst(env: seq<Var>, i: nat, v: Var) {
    i < |env| && env[i] == v && forall j :: 0 <= j < i ==> env[j].name != v.name
  }

  /** The variable found is the first of that name. */
  lemma {:induction false} FindFirst(env: seq<Var>, name: bytes)
    ensures Find(env, name) == None <==> forall v <- env :: v.name != name
    ensures Find(env, name).Some? ==> exists i :: IsFirst(env, i, Var(name, Find(env, name).value))
  {
    if env != [] {
      if env[0].name == name {
        assert IsFirst(env, 0, Var(name, Find(env, name).value));
      } else {
        FindFirst(env[1..], name);
        assert forall v <- env :: v == env[0] || v in env[1..];
        if Find(env, name).Some? {
          var v := Var(name, Find(env, name).value);
          var i: nat :| IsFirst(env[1..], i, v);
          assert IsFirst(env, i + 1, v) by {
            assert forall j :: 1 <= j <= i + 1 ==> env[j] == env[1..][j - 1];
          }
        }
      }
    }
  }
}

/** Which environment entries are accepted, and what a reference to a Secret stands for (src/container_env.rs). */
module EnvLaws {
  import opened Wrappers
  import opened Seqs
  import opened Ascii
  import opened Expansion
  import opened EnvResolve

  /** Printable ASCII without `=`. */
  predicate Printable(name: bytes) {
    forall i :: 0 <= i < |name| ==> 32 <= name[i] <= 126 && name[i] != 61
  }

  /** A container passes exactly if its names are nonempty and printable without `=`, and its prefixes printable so. */
  lemma AcceptedNames(c: Container)
    ensures Validate(c).Ok? <==>
      && (forall e <- c.env :: e.name != [] && Printable(e.name))
      && (forall source <- c.envFrom :: Printable(source.prefix))
  {
    AcceptedEntries(c.env);
    AcceptedSources(c.envFrom);
  }

  lemma {:induction false} AcceptedEntries(entries: seq<EnvEntry>)
    ensures ValidateEntries(entries).Ok? <==> forall e <- entries :: e.name != [] && Printable(e.name)
  {
    if entries != [] {
      AcceptedEntries(entries[1..]);
      assert forall e <- entries :: e == entries[0] || e in entries[1..];
      assert entries[0] in entries;
    }
  }

  lemma {:induction false} AcceptedSources(sources: seq<EnvSource>)
    ensures ValidateSources(sources).Ok? <==> forall source <- sources :: Printable(source.prefix)
  {
    if sources != [] {
      AcceptedSources(sources[1..]);
      assert forall source <- sources :: source == sources[0] || source in sources[1..];
      assert sources[0] in sources;
    }
  }

  /** The first entry under a key. */
  lemma {:induction false} EntryFound(entries: seq<SecretEntry>, key: bytes)
    ensures EntryNamed(entries, key) == None <==> forall e <- entries :: e.key != key
    ensures EntryNamed(entries, key).Some? ==> EntryNamed(entries, key).value in entries && EntryNamed(entries, key).value.key == key
  {
    if entries != [] && entries[0].key != key {
      EntryFound(entries[1..], key);
      assert forall e <- entries :: e == entries[0] || e in entries[1..];
    }
  }

  /** A decoded value is what the decoder says, unless that is nothing or holds a NUL. */
  lemma DecodedExactly(d: Decoder, secret: bytes, entry: SecretEntry)
    ensures DecodeValue(d, secret, entry) ==
      if d(entry.raw).Some? && Without(d(entry.raw).value, 0) then Ok(d(entry.raw).value) else Err(InvalidValue(secret, entry.key))
  {
    if d(entry.raw).Some? {
      IndexOfSpec(d(entry.raw).value, NUL);
    }
  }

  /**
   * What a reference to a Secret's key stands for, where each key is there once: the decoded value under that key; nothing
   * if the Secret or the key is missing and the reference optional; else an error.
   */
  lemma SecretReferenced(d: Decoder, secrets: map<bytes, Secret>, r: EnvEntry, i: nat)
    requires r.SecretKey? && r.secret in secrets && secrets[r.secret].Data?
    requires var entries := secrets[r.secret].entries;
      && i < |entries| && entries[i].key == r.key && (forall j :: 0 <= j < |entries| && j != i ==> entries[j].key != r.key)
    ensures var raw := secrets[r.secret].entries[i].raw;
      SecretValue(d, secrets, r) ==
      if d(raw).Some? && Without(d(raw).value, 0) then Ok(Some(d(raw).value)) else Err(InvalidValue(r.secret, r.key))
  {
    var entries := secrets[r.secret].entries;
    EntryFound(entries, r.key);
    assert entries[i] in entries;
    DecodedExactly(d, r.secret, entries[i]);
  }

  lemma SecretMissing(d: Decoder, secrets: map<bytes, Secret>, r: EnvEntry)
    requires r.SecretKey?
    requires r.secret in secrets && secrets[r.secret].Data? ==> forall e <- secrets[r.secret].entries :: e.key != r.key
    ensures SecretValue(d, secrets, r) ==
      if r.secret in secrets && secrets[r.secret].NotAnObject? then Err(SecretMalformed(r.secret))
      else if r.optional then Ok(None)
      else if r.secret in secrets then Err(KeyNotFound(r.secret, r.key))
      else Err(SecretNotFound(r.secret))
  {
    if r.secret in secrets && secrets[r.secret].Data? {
      EntryFound(secrets[r.secret].entries, r.key);
    }
  }

  // What one more entry, or one more source, adds.

  lemma {:induction false} AddEnvAppend(d: Decoder, secrets: map<bytes, Secret>, pod: PodFields, env: seq<Var>, a: seq<EnvEntry>, b: seq<EnvEntry>)
    requires AddEnv(d, secrets, pod, env, a).Ok?
    ensures AddEnv(d, secrets, pod, env, a + b) == AddEnv(d, secrets, pod, AddEnv(d, secrets, pod, env, a).value, b)
    decreases |a|
  {
    if a == [] {
      assert a + b == b;
    } else {
      assert (a + b)[1..] == a[1..] + b;
      var value := EntryValue(d, secrets, pod, env, a[0]).value;
      AddEnvAppend(d, secrets, pod, if value.Some? then Put(env, a[0].name, value.value) else env, a[1..], b);
    }
  }

  /** The last entry is set over all others: to its text, expanded by what precedes it, or to what it refers to. */
  lemma LastEntry(d: Decoder, secrets: map<bytes, Secret>, pod: PodFields, c: Container, last: EnvEntry)
    requires Resolved(d, secrets, pod, c).Ok? && last.name != [] && Printable(last.name)
    ensures var env := Resolved(d, secrets, pod, c).value;
      var r := Resolved(d, secrets, pod, c.(env := c.env + [last]));
      && (last.Literal? ==> r == Ok(Put(env, last.name, Expanded(last.value, env))))
      && (last.FieldRef? && last.path.MetadataName? ==> r == Ok(Put(env, last.name, pod.name)))
      && (last.FieldRef? && last.path.MetadataNamespace? ==> r == Ok(Put(env, last.name, pod.namespace)))
      && (last.SecretKey? ==>
            var found := SecretValue(d, secrets, last);
            r == if found.Err? then Err(found.error) else Ok(if found.value.Some? then Put(env, last.name, found.value.value) else env))
  {
    var longer := c.(env := c.env + [last]);
    AcceptedNames(c);
    assert forall e <- longer.env :: e in c.env || e == last;
    AcceptedNames(longer);
    AddEnvAppend(d, secrets, pod, AddSources(d, secrets, [], c.envFrom).value, c.env, [last]);
    assert [last][1..] == [];
  }

  lemma {:induction false} FindPut(env: seq<Var>, name: bytes, value: bytes, other: bytes)
    ensures Find(Put(env, name, value), other) == if other == name then Some(value) else Find(env, other)
  {
    if env != [] {
      if env[0].name == name {
        assert Put(env, name, value)[1..] == env[1..];
      } else {
        FindPut(env[1..], name, value, other);
        assert Put(env, name, value)[1..] == Put(env[1..], name, value);
      }
    }
  }

  /** The entry makes a variable that can be had. */
  predicate Usable(d: Decoder, prefix: bytes, e: SecretEntry) {
    && prefix + e.key != [] && Printable(prefix + e.key)
    && d(e.raw).Some? && Without(d(e.raw).value, 0)
  }

  ghost predicate KeysOnce(entries: seq<SecretEntry>) {
    forall i, j :: 0 <= i < j < |entries| ==> entries[i].key != entries[j].key
  }

  ghost predicate Named(prefix: bytes, entries: seq<SecretEntry>, name: bytes) {
    exists i :: 0 <= i < |entries| && prefix + entries[i].key == name
  }

  lemma SamePrefix(prefix: bytes, a: bytes, b: bytes)
    ensures prefix + a == prefix + b ==> a == b
  {
    assert (prefix + a)[|prefix|..] == a && (prefix + b)[|prefix|..] == b;
  }

  lemma EntryAdded(d: Decoder, env: seq<Var>, source: EnvSource, entries: seq<SecretEntry>)
    requires entries != []
    ensures var e := entries[0];
      if Usable(d, source.prefix, e)
      then AddEntries(d, env, source, entries) == AddEntries(d, Put(env, source.prefix + e.key, d(e.raw).value), source, entries[1..])
      else AddEntries(d, env, source, entries).Err?
  {
    DecodedExactly(d, source.secret, entries[0]);
  }

  lemma {:induction false} EntriesAdded(d: Decoder, env: seq<Var>, source: EnvSource, entries: seq<SecretEntry>)
    ensures AddEntries(d, env, source, entries).Ok? <==> forall i :: 0 <= i < |entries| ==> Usable(d, source.prefix, entries[i])
    decreases |entries|
  {
    if entries != [] {
      EntryAdded(d, env, source, entries);
      if Usable(d, source.prefix, entries[0]) {
        EntriesAdded(d, Put(env, source.prefix + entries[0].key, d(entries[0].raw).value), source, entries[1..]);
        assert forall i :: 1 <= i < |entries| ==> entries[i] == entries[1..][i - 1];
        assert forall i :: 0 <= i < |entries[1..]| ==> entries[1..][i] == entries[i + 1];
      }
    }
  }

  lemma {:induction false} OthersKept(d: Decoder, env: seq<Var>, source: EnvSource, entries: seq<SecretEntry>, name: bytes)
    requires AddEntries(d, env, source, entries).Ok? && !Named(source.prefix, entries, name)
    ensures Find(AddEntries(d, env, source, entries).value, name) == Find(env, name)
    decreases |entries|
  {
    if entries != [] {
      var (e, rest) := (entries[0], entries[1..]);
      EntryAdded(d, env, source, entries);
      assert forall i :: 0 <= i < |rest| ==> rest[i] == entries[i + 1];
      OthersKept(d, Put(env, source.prefix + e.key, d(e.raw).value), source, rest, name);
      FindPut(env, source.prefix + e.key, d(e.raw).value, name);
    }
  }

  lemma {:induction false} EntrySet(d: Decoder, env: seq<Var>, source: EnvSource, entries: seq<SecretEntry>, i: nat)
    requires AddEntries(d, env, source, entries).Ok? && KeysOnce(entries) && i < |entries|
    ensures Find(AddEntries(d, env, source, entries).value, source.prefix + entries[i].key) == d(entries[i].raw)
    decreases |entries|
  {
    var (e, rest) := (entries[0], entries[1..]);
    var next := Put(env, source.prefix + e.key, d(e.raw).value);
    EntryAdded(d, env, source, entries);
    if i == 0 {
      forall j | 0 <= j < |rest| ensures source.prefix + rest[j].key != source.prefix + e.key {
        assert rest[j] == entries[j + 1];
        SamePrefix(source.prefix, rest[j].key, e.key);
      }
      OthersKept(d, next, source, rest, source.prefix + e.key);
      FindPut(env, source.prefix + e.key, d(e.raw).value, source.prefix + e.key);
    } else {
      EntrySet(d, next, source, rest, i - 1);
    }
  }

  lemma {:induction false} AddSourcesAppend(d: Decoder, secrets: map<bytes, Secret>, env: seq<Var>, a: seq<EnvSource>, b: seq<EnvSource>)
    requires AddSources(d, secrets, env, a).Ok?
    ensures AddSources(d, secrets, env, a + b) == AddSources(d, secrets, AddSources(d, secrets, env, a).value, b)
    decreases |a|
  {
    if a == [] {
      assert a + b == b;
    } else {
      assert (a + b)[1..] == a[1..] + b;
      var next := if a[0].secret in secrets then AddEntries(d, env, a[0], secrets[a[0].secret].entries).value else env;
      AddSourcesAppend(d, secrets, next, a[1..], b);
    }
  }

  /**
   * The last `envFrom` source of a container without `env`: every key of its Secret, behind the prefix, names a variable
   * with the decoded value, over what was there; it fails exactly if one of them is no variable that can be had.
   */
  lemma LastSource(d: Decoder, secrets: map<bytes, Secret>, pod: PodFields, c: Container, last: EnvSource, name: bytes)
    requires c.env == [] && Resolved(d, secrets, pod, c).Ok? && Printable(last.prefix)
    requires last.secret in secrets && secrets[last.secret].Data? && KeysOnce(secrets[last.secret].entries)
    ensures var entries := secrets[last.secret].entries;
      var r := Resolved(d, secrets, pod, c.(envFrom := c.envFrom + [last]));
      && (r.Ok? <==> forall i :: 0 <= i < |entries| ==> Usable(d, last.prefix, entries[i]))
      && (r.Ok? ==> forall i :: 0 <= i < |entries| ==> Find(r.value, last.prefix + entries[i].key) == d(entries[i].raw))
      && (r.Ok? && !Named(last.prefix, entries, name) ==> Find(r.value, name) == Find(Resolved(d, secrets, pod, c).value, name))
  {
    var longer := c.(envFrom := c.envFrom + [last]);
    var entries := secrets[last.secret].entries;
    var env := AddSources(d, secrets, [], c.envFrom).value;
    AcceptedNames(c);
    assert forall source <- longer.envFrom :: source in c.envFrom || source == last;
    AcceptedNames(longer);
    AddSourcesAppend(d, secrets, [], c.envFrom, [last]);
    assert [last][1..] == [];
    EntriesAdded(d, env, last, entries);
    if AddEntries(d, env, last, entries).Ok? {
      forall i | 0 <= i < |entries|
        ensures Find(AddEntries(d, env, last, entries).value, last.prefix + entries[i].key) == d(entries[i].raw)
      {
        EntrySet(d, env, last, entries, i);
      }
      if !Named(last.prefix, entries, name) {
        OthersKept(d, env, last, entries, name);
      }
    }
  }
}
