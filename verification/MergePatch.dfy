/** JSON merge patch and the CronJob defaults (src/api/cronjob.rs). */
module MergePatch {
  import opened Wrappers
  import opened Json

  type Fields = map<string, Json>

  function FieldsOf(j: Json): Fields {
    if j.Object? then j.fields else map[]
  }

  function FieldOrNull(fields: Fields, k: string): Json {
    if k in fields then fields[k] else Null
  }

  /** Section 2 of RFC 7386, field by field. */
  function Merged(target: Json, patch: Json): Json
    decreases patch
  {
    match patch
    case Object(changes) =>
      var fields := FieldsOf(target);
      Object(map k | k in fields.Keys + changes.Keys && !(k in changes && changes[k] == Null) ::
               if k in changes then Merged(FieldOrNull(fields, k), changes[k]) else fields[k])
    case _ => patch
  }

  /** The source's update in place: the patch's fields one after another, in whatever order. */
  method Merge(target: Json, patch: Json) returns (r: Json)
    ensures r == Merged(target, patch)
    decreases patch
  {
    if !patch.Object? {
      return patch;
    }
    var changes := patch.fields;
    var start := FieldsOf(target);
    var fields := start;
    var todo := changes.Keys;
    while todo != {}
      invariant todo <= changes.Keys
      invariant PartlyMerged(fields, start, changes, changes.Keys - todo)
      decreases todo
    {
      var k :| k in todo;
      if changes[k] == Null {
        fields := fields - {k};
      } else {
        assert k in start <==> k in fields;
        var merged := Merge(FieldOrNull(fields, k), changes[k]);
        fields := fields[k := merged];
      }
      todo := todo - {k};
    }
    assert changes.Keys - todo == changes.Keys;
    r := Object(fields);
    assert r.fields == Merged(target, patch).fields;
  }

  /** The fields when the changes in `done` have been made. */
  ghost predicate PartlyMerged(fields: Fields, start: Fields, changes: Fields, done: set<string>)
    requires done <= changes.Keys
  {
    && (forall k :: k in fields <==> (if k in done then changes[k] != Null else k in start))
    && (forall k :: k in fields ==>
          fields[k] == if k in done then Merged(FieldOrNull(start, k), changes[k]) else start[k])
  }

  lemma MergedKeepsNull(target: Json, patch: Json)
    ensures Merged(target, patch) == Null <==> patch == Null
  {
  }

  /** Applying a patch twice is applying it once. */
  lemma {:induction false} MergedTwice(target: Json, patch: Json)
    ensures Merged(Merged(target, patch), patch) == Merged(target, patch)
    decreases patch
  {
    if patch.Object? {
      var once := Merged(target, patch).fields;
      var twice := Merged(Merged(target, patch), patch).fields;
      forall k | k in once
        ensures k in twice && twice[k] == once[k]
      {
        if k in patch.fields {
          MergedTwice(FieldOrNull(FieldsOf(target), k), patch.fields[k]);
        }
      }
      assert twice.Keys == once.Keys;
      assert twice == once;
    }
  }

  datatype Default = Default(key: string, value: Json)

  const DEFAULTS := [
    Default("concurrencyPolicy", String("Allow")),
    Default("suspend", Bool(false)),
    Default("successfulJobsHistoryLimit", Number(3)),
    Default("failedJobsHistoryLimit", Number(1))]

  predicate Unset(fields: Fields, k: string) {
    k !in fields || fields[k] == Null
  }

  function DefaultOf(defaults: seq<Default>, k: string): Option<Json> {
    if defaults == [] then None
    else if defaults[0].key == k then Some(defaults[0].value)
    else DefaultOf(defaults[1..], k)
  }

  /** One default after another, each set if its field is missing or null. */
  function Filled(fields: Fields, defaults: seq<Default>): Fields
    decreases |defaults|
  {
    if defaults == [] then fields
    else
      Filled(if Unset(fields, defaults[0].key) then fields[defaults[0].key := defaults[0].value] else fields, defaults[1..])
  }

  function Defaulted(spec: Json): Json {
    match spec
    case Object(fields) => Object(Filled(fields, DEFAULTS))
    case _ => spec
  }

  method ApplyDefaults(spec: Json) returns (r: Json)
    ensures r == Defaulted(spec)
  {
    if !spec.Object? {
      return spec;
    }
    var fields := spec.fields;
    for i := 0 to |DEFAULTS|
      invariant Filled(fields, DEFAULTS[i..]) == Filled(spec.fields, DEFAULTS)
    {
      assert DEFAULTS[i..][1..] == DEFAULTS[i + 1..];
      if Unset(fields, DEFAULTS[i].key) {
        fields := fields[DEFAULTS[i].key := DEFAULTS[i].value];
      }
    }
    r := Object(fields);
  }

  ghost predicate FilledFrom(filled: Fields, fields: Fields, defaults: seq<Default>) {
    && (forall k :: k in filled <==> k in fields || DefaultOf(defaults, k).Some?)
    && (forall k :: k in filled ==>
          filled[k] == if Unset(fields, k) && DefaultOf(defaults, k).Some? then DefaultOf(defaults, k).value else fields[k])
  }

  /** Defaulting fills in exactly the defaulted fields that are missing or null, and touches nothing else. */
  lemma {:induction false} FilledFields(fields: Fields, defaults: seq<Default>)
    requires forall i :: 0 <= i < |defaults| ==> defaults[i].value != Null
    ensures FilledFrom(Filled(fields, defaults), fields, defaults)
    decreases |defaults|
  {
    if defaults != [] {
      var key := defaults[0].key;
      var next := if Unset(fields, key) then fields[key := defaults[0].value] else fields;
      FilledFields(next, defaults[1..]);
    }
  }

  lemma DefaultsSet(fields: Fields)
    ensures FilledFrom(Filled(fields, DEFAULTS), fields, DEFAULTS)
    ensures forall k :: DefaultOf(DEFAULTS, k) != Some(Null)
  {
    FilledFields(fields, DEFAULTS);
    forall k
      ensures DefaultOf(DEFAULTS, k) != Some(Null)
    {
      DefaultNotNull(DEFAULTS, k);
    }
  }

  lemma {:induction false} DefaultNotNull(defaults: seq<Default>, k: string)
    requires forall i :: 0 <= i < |defaults| ==> defaults[i].value != Null
    ensures DefaultOf(defaults, k) != Some(Null)
  {
    if defaults != [] {
      DefaultNotNull(defaults[1..], k);
    }
  }

  /** Defaulting what is defaulted changes nothing. */
  lemma DefaultedTwice(spec: Json)
    ensures Defaulted(Defaulted(spec)) == Defaulted(spec)
  {
    if spec.Object? {
      DefaultsSet(spec.fields);
      var once := Filled(spec.fields, DEFAULTS);
      DefaultsSet(once);
      FilledTwice(DEFAULTS, spec.fields, once, Filled(once, DEFAULTS));
    }
  }

  lemma FilledTwice(defaults: seq<Default>, fields: Fields, once: Fields, twice: Fields)
    requires FilledFrom(once, fields, defaults) && FilledFrom(twice, once, defaults)
    requires forall k :: DefaultOf(defaults, k) != Some(Null)
    ensures twice == once
  {
  }

  /** One field, patched and defaulted twice. */
  lemma FieldStays(start: Json, patch: Json, defaults: seq<Default>, stored: Fields, again: Fields, k: string)
    requires patch.Object? && DefaultOf(defaults, k) != Some(Null)
    requires FilledFrom(stored, Merged(start, patch).fields, defaults)
    requires FilledFrom(again, Merged(Object(stored), patch).fields, defaults)
    ensures k in again <==> k in stored
    ensures k in stored ==> again[k] == stored[k]
  {
    if k in patch.fields && patch.fields[k] != Null {
      var before := FieldOrNull(FieldsOf(start), k);
      MergedTwice(before, patch.fields[k]);
      MergedKeepsNull(before, patch.fields[k]);
      MergedKeepsNull(Merged(before, patch.fields[k]), patch.fields[k]);
    }
  }

  /** A patched and defaulted spec is a fixpoint of patching and defaulting, also for a patch that nulls a default. */
  lemma PatchAndDefaultTwice(spec: Json, patch: Json)
    ensures var stored := Defaulted(Merged(spec, patch));
      Defaulted(Merged(stored, patch)) == stored
  {
    if patch.Object? {
      var first := Merged(spec, patch).fields;
      var stored := Filled(first, DEFAULTS);
      var second := Merged(Object(stored), patch).fields;
      var again := Filled(second, DEFAULTS);
      DefaultsSet(first);
      DefaultsSet(second);
      forall k
        ensures k in again <==> k in stored
        ensures k in stored ==> again[k] == stored[k]
      {
        FieldStays(spec, patch, DEFAULTS, stored, again, k);
      }
      SameFields(again, stored);
    }
  }

  lemma SameFields(a: Fields, b: Fields)
    requires forall k :: k in a <==> k in b
    requires forall k :: k in b ==> a[k] == b[k]
    ensures a == b
  {
  }
}

/** The CronJob rows, and loading, replacing and patching them (src/api/cronjob.rs). */
module CronJobStore {
  import opened Wrappers
  import opened Json
  import opened MergePatch

  datatype Key = Key(namespace: string, name: string)

  datatype Row = Row(id: string, spec: Json, schedule: string, createdAt: int, updatedAt: int, version: nat)

  datatype UpdateError = NotFound | Renamed | Rejected

  /** `spec.schedule`, which the scheduler reads from a column of its own. */
  function ScheduleOf(spec: Json): string {
    if spec.Object? && "schedule" in spec.fields && spec.fields["schedule"].String? then spec.fields["schedule"].s else ""
  }

  /** The object that a patch applies to. */
  function ObjectOf(key: Key, spec: Json): Json {
    Object(map[
      "apiVersion" := String("batch/v1"),
      "kind" := String("CronJob"),
      "metadata" := Object(map["name" := String(key.name), "namespace" := String(key.namespace)]),
      "spec" := spec])
  }

  predicate NameKept(whole: Json, key: Key) {
    && whole.Object?
    && "metadata" in whole.fields
    && var metadata := whole.fields["metadata"];
    && metadata.Object?
    && "name" in metadata.fields && metadata.fields["name"] == String(key.name)
    && "namespace" in metadata.fields && metadata.fields["namespace"] == String(key.namespace)
  }

  /** The spec that a PATCH stores over `stored`; admission is any predicate on the new spec. */
  function Patched(key: Key, stored: Json, patch: Json, admit: Json -> bool): Result<Json, UpdateError> {
    var whole := Merged(ObjectOf(key, Defaulted(stored)), patch);
    if !NameKept(whole, key) then Err(Renamed)
    else
      var spec := Defaulted(FieldOrNull(FieldsOf(whole), "spec"));
      if admit(spec) then Ok(spec) else Err(Rejected)
  }

  class CronJobStore {
    var rows: map<Key, Row>

    ghost predicate Valid()
      reads this
    {
      forall key :: key in rows ==> rows[key].schedule == ScheduleOf(rows[key].spec)
    }

    constructor ()
      ensures Valid() && rows == map[]
    {
      rows := map[];
    }

    /** The spec of a CronJob as clients see it. */
    method Load(key: Key) returns (r: Option<Json>)
      ensures r == if key in rows then Some(Defaulted(rows[key].spec)) else None
    {
      if key !in rows {
        return None;
      }
      var spec := ApplyDefaults(rows[key].spec);
      r := Some(spec);
    }

    /** Replaces the spec of a CronJob, keeping its id and creation time. */
    method Update(key: Key, newSpec: Json, admit: Json -> bool, now: int) returns (r: Result<Json, UpdateError>)
      requires Valid()
      modifies this
      ensures Valid()
      ensures r == if !admit(Defaulted(newSpec)) then Err(Rejected)
                   else if key !in old(rows) then Err(NotFound)
                   else Ok(Defaulted(newSpec))
      ensures rows == if r.Ok? then old(rows)[key := old(rows)[key].(spec := r.value, schedule := ScheduleOf(r.value),
                                                                    updatedAt := now, version := old(rows)[key].version + 1)]
                      else old(rows)
    {
      var spec := ApplyDefaults(newSpec);
      if !admit(spec) {
        return Err(Rejected);
      }
      if key !in rows {
        return Err(NotFound);
      }
      var row := rows[key];
      rows := rows[key := row.(spec := spec, schedule := ScheduleOf(spec), updatedAt := now, version := row.version + 1)];
      DefaultedTwice(newSpec);
      var loaded := Load(key);
      r := Ok(loaded.value);
    }

    method Patch(key: Key, patch: Json, admit: Json -> bool, now: int) returns (r: Result<Json, UpdateError>)
      requires Valid()
      modifies this
      ensures Valid()
      ensures r == if key !in old(rows) then Err(NotFound) else Patched(key, old(rows)[key].spec, patch, admit)
      ensures rows == if r.Ok? then old(rows)[key := old(rows)[key].(spec := r.value, schedule := ScheduleOf(r.value),
                                                                    updatedAt := now, version := old(rows)[key].version + 1)]
                      else old(rows)
    {
      var current := Load(key);
      if current.None? {
        return Err(NotFound);
      }
      var whole := Merge(ObjectOf(key, current.value), patch);
      if !NameKept(whole, key) {
        return Err(Renamed);
      }
      r := Update(key, FieldOrNull(FieldsOf(whole), "spec"), admit, now);
    }
  }

  /** Repeating an accepted PATCH is accepted and stores the same spec. */
  lemma PatchedTwice(key: Key, stored: Json, patch: Json, admit: Json -> bool)
    requires Patched(key, stored, patch, admit).Ok?
    ensures var spec := Patched(key, stored, patch, admit).value;
      Patched(key, spec, patch, admit) == Ok(spec)
  {
    var loaded := Defaulted(stored);
    DefaultedTwice(stored);
    var spec := Patched(key, stored, patch, admit).value;
    var first := Merged(ObjectOf(key, loaded), patch);
    var again := Merged(ObjectOf(key, spec), patch);
    DefaultedTwice(FieldOrNull(FieldsOf(first), "spec"));
    assert again.fields["metadata"] == first.fields["metadata"];
    if "spec" in patch.fields && patch.fields["spec"] != Null {
      PatchAndDefaultTwice(loaded, patch.fields["spec"]);
    }
  }
}
