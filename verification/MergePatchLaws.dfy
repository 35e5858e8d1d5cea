/** What a merge patch does to each field, and what a CronJob's PATCH stores (src/api/cronjob.rs). */
module MergePatchLaws {
  import opened Wrappers
  import opened Json
  import opened MergePatch
  import opened CronJobStore

  /** What stands at a path of field names. */
  function At(j: Json, path: seq<string>): Option<Json>
    decreases |path|
  {
    if path == [] then Some(j)
    else if j.Object? && path[0] in j.fields then At(j.fields[path[0]], path[1..])
    else None
  }

  /** The objects of the patch that lead to the path, without the last step. */
  predicate Leads(patch: Json, path: seq<string>)
    requires path != []
    decreases |path|
  {
    patch.Object? && (|path| > 1 ==> path[0] in patch.fields && Leads(patch.fields[path[0]], path[1..]))
  }

  lemma MergedField(target: Json, patch: Json, k: string)
    requires patch.Object?
    ensures Merged(target, patch).Object?
    ensures var r := Merged(target, patch).fields;
      && (k in patch.fields && patch.fields[k] == Null ==> k !in r)
      && (k !in patch.fields ==> At(Merged(target, patch), [k]) == At(target, [k]))
      && (k in patch.fields && patch.fields[k] != Null ==>
            k in r && (!patch.fields[k].Object? ==> r[k] == patch.fields[k])
            && (patch.fields[k].Object? ==> r[k].Object?))
  {
    var (a, b) := (Merged(target, patch), target);
    assert [k][1..] == [];
    assert k in a.fields ==> At(a.fields[k], []) == Some(a.fields[k]);
    if b.Object? && k in b.fields {
      assert At(b.fields[k], []) == Some(b.fields[k]);
    }
  }

  /** In what a patch reaches by its objects, a null removes, anything that is no object replaces, and the rest stays. */
  lemma {:induction false} PathMerged(target: Json, patch: Json, path: seq<string>)
    requires path != [] && Leads(patch, path)
    ensures var found := At(patch, path);
      && (found == Some(Null) ==> At(Merged(target, patch), path) == None)
      && (found.Some? && found.value != Null && !found.value.Object? ==> At(Merged(target, patch), path) == found)
      && (found == None ==> At(Merged(target, patch), path) == At(target, path))
    decreases |path|
  {
    var k := path[0];
    MergedField(target, patch, k);
    if |path| == 1 {
      assert path == [k] && path[1..] == [];
    } else {
      var inner := FieldOrNull(FieldsOf(target), k);
      var change := patch.fields[k];
      assert change.Object?;
      PathMerged(inner, change, path[1..]);
      assert Merged(target, patch).fields[k] == Merged(inner, change);
      assert At(Merged(target, patch), path) == At(Merged(inner, change), path[1..]);
      assert At(patch, path) == At(change, path[1..]);
      assert At(target, path) == if target.Object? && k in target.fields then At(inner, path[1..]) else None;
    }
  }

  /** A patch that is no object replaces everything. */
  lemma WholeReplaced(target: Json, patch: Json)
    requires !patch.Object?
    ensures Merged(target, patch) == patch
  {
  }

  // The defaults there are.

  function Default(k: string): Option<Json> {
    match k
    case "concurrencyPolicy" => Some(String("Allow"))
    case "suspend" => Some(Bool(false))
    case "successfulJobsHistoryLimit" => Some(Number(3))
    case "failedJobsHistoryLimit" => Some(Number(1))
    case _ => None
  }

  lemma DefaultsAre(k: string)
    ensures DefaultOf(DEFAULTS, k) == Default(k)
  {
    var (a, b, c, d) := (DEFAULTS, DEFAULTS[1..], DEFAULTS[2..], DEFAULTS[3..]);
    assert a[1..] == b && b[1..] == c && c[1..] == d && d[1..] == [];
    assert DefaultOf(a, k) == if a[0].key == k then Some(a[0].value) else DefaultOf(b, k);
    assert DefaultOf(b, k) == if b[0].key == k then Some(b[0].value) else DefaultOf(c, k);
    assert DefaultOf(c, k) == if c[0].key == k then Some(c[0].value) else DefaultOf(d, k);
    assert DefaultOf(d, k) == if d[0].key == k then Some(d[0].value) else None;
  }

  /** One field of a defaulted spec. */
  lemma DefaultedField(spec: Json, k: string)
    requires spec.Object?
    ensures Defaulted(spec).Object?
    ensures At(Defaulted(spec), [k]) == if Unset(spec.fields, k) && Default(k).Some? then Default(k) else At(spec, [k])
  {
    DefaultsAre(k);
    DefaultsSet(spec.fields);
    AtOne(spec, k);
    AtOne(Defaulted(spec), k);
  }

  lemma AtBelow(j: Json, path: seq<string>)
    requires |path| > 1
    ensures At(j, path) == if At(j, [path[0]]).Some? then At(At(j, [path[0]]).value, path[1..]) else None
  {
    AtOne(j, path[0]);
  }

  lemma NothingBelow(j: Json, path: seq<string>)
    requires path != [] && !j.Object?
    ensures At(j, path) == None
  {
  }

  predicate NoObject(j: Option<Json>) {
    j.Some? ==> !j.value.Object?
  }

  lemma SameBelow(a: Json, b: Json, path: seq<string>)
    requires |path| > 1
    requires At(a, [path[0]]) == At(b, [path[0]]) || (NoObject(At(a, [path[0]])) && NoObject(At(b, [path[0]])))
    ensures At(a, path) == At(b, path)
  {
    AtBelow(a, path);
    AtBelow(b, path);
    if NoObject(At(a, [path[0]])) && NoObject(At(b, [path[0]])) {
      if At(a, [path[0]]).Some? {
        NothingBelow(At(a, [path[0]]).value, path[1..]);
      }
      if At(b, [path[0]]).Some? {
        NothingBelow(At(b, [path[0]]).value, path[1..]);
      }
    }
  }

  lemma DefaultNoObject(k: string)
    ensures NoObject(Default(k))
  {
  }

  /** And what lies below a field, where no default reaches. */
  lemma DefaultedBelow(spec: Json, path: seq<string>)
    requires spec.Object? && |path| > 1
    ensures At(Defaulted(spec), path) == At(spec, path)
  {
    DefaultedField(spec, path[0]);
    DefaultNoObject(path[0]);
    AtOne(spec, path[0]);
    SameBelow(Defaulted(spec), spec, path);
  }

  // What a PATCH stores.

  /** A patch keeps the name if its metadata, where it has any, is an object that says the same or nothing of both names. */
  predicate KeepsName(key: Key, patch: Json) {
    patch.Object? && ("metadata" in patch.fields ==>
      var metadata := patch.fields["metadata"];
      && metadata.Object?
      && ("name" in metadata.fields ==> metadata.fields["name"] == String(key.name))
      && ("namespace" in metadata.fields ==> metadata.fields["namespace"] == String(key.namespace)))
  }

  lemma MetadataMerged(key: Key, patch: Json)
    requires patch.Object?
    ensures var metadata := Object(map["name" := String(key.name), "namespace" := String(key.namespace)]);
      var merged := Merged(metadata, patch);
      (At(merged, ["name"]) == Some(String(key.name)) && At(merged, ["namespace"]) == Some(String(key.namespace))) <==>
        && ("name" in patch.fields ==> patch.fields["name"] == String(key.name))
        && ("namespace" in patch.fields ==> patch.fields["namespace"] == String(key.namespace))
  {
    var metadata := Object(map["name" := String(key.name), "namespace" := String(key.namespace)]);
    AtOne(metadata, "name");
    AtOne(metadata, "namespace");
    AtOne(Merged(metadata, patch), "name");
    AtOne(Merged(metadata, patch), "namespace");
    MergedField(metadata, patch, "name");
    MergedField(metadata, patch, "namespace");
  }

  lemma AtOne(j: Json, k: string)
    ensures At(j, [k]) == if j.Object? && k in j.fields then Some(j.fields[k]) else None
  {
    assert [k][1..] == [];
  }

  /** A PATCH is refused as a renaming exactly if it does not keep the name. */
  lemma RenamingRefused(key: Key, stored: Json, patch: Json, admit: Json -> bool)
    ensures Patched(key, stored, patch, admit) == Err(Renamed) <==> !KeepsName(key, patch)
  {
    var whole := ObjectOf(key, Defaulted(stored));
    var metadata := whole.fields["metadata"];
    if patch.Object? {
      MergedField(whole, patch, "metadata");
      AtOne(whole, "metadata");
      AtOne(Merged(whole, patch), "metadata");
      if "metadata" in patch.fields && patch.fields["metadata"].Object? {
        var merged := Merged(metadata, patch.fields["metadata"]);
        MetadataMerged(key, patch.fields["metadata"]);
        AtOne(merged, "name");
        AtOne(merged, "namespace");
        assert Merged(whole, patch).fields["metadata"] == merged;
      }
    }
  }

  lemma PatchedSpec(key: Key, stored: Json, patch: Json, admit: Json -> bool)
    requires Patched(key, stored, patch, admit).Ok?
    ensures patch.Object?
    ensures Patched(key, stored, patch, admit).value == Defaulted(
              if "spec" !in patch.fields then Defaulted(stored)
              else if patch.fields["spec"] == Null then Null
              else Merged(Defaulted(stored), patch.fields["spec"]))
  {
    RenamingRefused(key, stored, patch, admit);
    MergedField(ObjectOf(key, Defaulted(stored)), patch, "spec");
  }

  /**
   * A field of the stored spec after a PATCH: nulled, it has its default or is gone; set, it is as set; otherwise it
   * is what it was, or its default if it had none.
   */
  lemma StoredField(key: Key, stored: Json, patch: Json, admit: Json -> bool, k: string)
    requires Patched(key, stored, patch, admit).Ok? && stored.Object?
    requires "spec" in patch.fields && patch.fields["spec"].Object?
    ensures var spec := Patched(key, stored, patch, admit).value;
      var changes := patch.fields["spec"].fields;
      && (k in changes && changes[k] == Null ==> At(spec, [k]) == Default(k))
      && (k in changes && changes[k] != Null && !changes[k].Object? ==> At(spec, [k]) == Some(changes[k]))
      && (k !in changes ==> At(spec, [k]) == if Unset(stored.fields, k) && Default(k).Some? then Default(k) else At(stored, [k]))
  {
    var change := patch.fields["spec"];
    PatchedSpec(key, stored, patch, admit);
    FieldAfter(stored, change, k);
  }

  lemma FieldAfter(stored: Json, change: Json, k: string)
    requires stored.Object? && change.Object?
    ensures var spec := Defaulted(Merged(Defaulted(stored), change));
      && (k in change.fields && change.fields[k] == Null ==> At(spec, [k]) == Default(k))
      && (k in change.fields && change.fields[k] != Null && !change.fields[k].Object? ==> At(spec, [k]) == Some(change.fields[k]))
      && (k !in change.fields ==> At(spec, [k]) == if Unset(stored.fields, k) && Default(k).Some? then Default(k) else At(stored, [k]))
  {
    var before := Defaulted(stored);
    DefaultedField(stored, k);
    MergedField(before, change, k);
    var merged := Merged(before, change);
    DefaultedField(merged, k);
    AtOne(merged, k);
    AtOne(before, k);
    AtOne(stored, k);
  }

  /** Further down a path that the patch nulls is gone, one that it sets is set, and one it says nothing of stays. */
  lemma StoredPath(key: Key, stored: Json, patch: Json, admit: Json -> bool, path: seq<string>)
    requires Patched(key, stored, patch, admit).Ok? && stored.Object?
    requires "spec" in patch.fields && |path| > 1 && Leads(patch.fields["spec"], path)
    ensures var spec := Patched(key, stored, patch, admit).value;
      var found := At(patch.fields["spec"], path);
      && (found == Some(Null) ==> At(spec, path) == None)
      && (found.Some? && found.value != Null && !found.value.Object? ==> At(spec, path) == found)
      && (found == None ==> At(spec, path) == At(stored, path))
  {
    var change := patch.fields["spec"];
    var merged := Merged(Defaulted(stored), change);
    PatchedSpec(key, stored, patch, admit);
    PathMerged(Defaulted(stored), change, path);
    DefaultedBelow(stored, path);
    MergedField(Defaulted(stored), change, path[0]);
    DefaultedBelow(merged, path);
  }

  /** A PATCH that says nothing of `spec` stores the defaulted one, one that replaces it whole the replacement. */
  lemma StoredWhole(key: Key, stored: Json, patch: Json, admit: Json -> bool)
    requires Patched(key, stored, patch, admit).Ok?
    requires "spec" in patch.fields ==> !patch.fields["spec"].Object?
    ensures Patched(key, stored, patch, admit).value ==
      if "spec" in patch.fields then patch.fields["spec"] else Defaulted(stored)
  {
    PatchedSpec(key, stored, patch, admit);
    DefaultedTwice(stored);
  }

  /** The column that the scheduler reads is the spec's own schedule. */
  lemma ScheduleColumn(spec: Json)
    ensures forall schedule :: At(spec, ["schedule"]) == Some(String(schedule)) ==> ScheduleOf(spec) == schedule
    ensures (forall schedule :: At(spec, ["schedule"]) != Some(String(schedule))) ==> ScheduleOf(spec) == ""
  {
    AtOne(spec, "schedule");
    if spec.Object? && "schedule" in spec.fields && spec.fields["schedule"].String? {
      assert At(spec, ["schedule"]) == Some(String(spec.fields["schedule"].s));
    }
  }
}
