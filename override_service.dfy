/**
 * `EntityReferenceOverrideService::getOverriddenValues`: the authoring-time
 * diff. For every listed field, the edited entity's items are completed with
 * the original's by a deep merge (written back onto the edited entity), and
 * when the merged field no longer `equals` the original, the stored values
 * that differ from the original are reported under the field's name.
 *
 * Both entity objects are taken in their default translation.
 */
module OverrideService {
  import opened Wrappers
  import opened PhpArray
  import opened Entities

  /** The edited items completed with the original's. */
  function MergedItems(original: Field, edited: Field): Items
  {
    MergeDeep(original.items, edited.items)
  }

  /** Whether the merged field still `equals` the original. */
  predicate Unchanged(original: Field, edited: Field)
  {
    FieldEquals(edited.(items := MergedItems(original, edited)), original)
  }

  /** Two lists merge into a list: `set()` is handed deltas 0 to n - 1 again. */
  lemma MergedItemsIsList(original: Field, edited: Field)
    requires Dense(original.items) && Dense(edited.items)
    ensures Dense(MergedItems(original, edited))
  {
  }

  /**
   * What `getOverriddenValues` reports for one field: nothing when the merged
   * field still equals the original, otherwise the difference of the merged
   * field's stored values and the original's items. Only genuine edits are
   * reported: the report is a sub-tree of the edited field's stored values,
   * so sub-keys present only in the original and keys that are not stored
   * properties never appear, and every reported scalar is the edited one.
   */
  function Report(original: Field, edited: Field): (r: Option<Items>)
    ensures r.Some? ==> SubTree(r.value, StoredItems(edited.items, edited.properties))
  {
    if Unchanged(original, edited) then None
    else
      var o := original.items;
      var props := edited.properties;
      StoredItemsOfMerge(o, edited.items, props);
      StoredItemsIsSubTree(o, props);
      DiffOfMergeWithinEdit(StoredItems(o, props), StoredItems(edited.items, props), o);
      Some(DiffAssocRecursive(StoredItems(MergedItems(original, edited), props), o))
  }

  /** The entries `f := d` for the names `f` whose report is `Some(d)`. */
  function Collect(names: set<FieldName>, report: FieldName -> Option<Items>): (r: map<FieldName, Items>)
    ensures r.Keys <= names
  {
    map f | f in names && report(f).Some? :: report(f).value
  }

  /** The result of `getOverriddenValues` for the field names `names`. */
  function OverriddenValues(edited: Fields, original: Fields, names: set<FieldName>): (r: map<FieldName, Items>)
    requires names <= edited.Keys && names <= original.Keys
    ensures r.Keys <= names
  {
    Collect(names, f => if f in edited && f in original then Report(original[f], edited[f]) else None)
  }

  /** The set of names in the list `fields`. */
  function Names(fields: seq<FieldName>): (r: set<FieldName>)
    ensures forall f :: f in r <==> f in fields
  {
    if fields == [] then {} else Names(fields[..|fields| - 1]) + {fields[|fields| - 1]}
  }

  /** The edited entity's fields after the call: listed fields merged, all others as they were. */
  function MergedFields(edited: Fields, original: Fields, names: set<FieldName>): (r: Fields)
    requires names <= edited.Keys && names <= original.Keys
    ensures r.Keys == edited.Keys
    ensures forall f :: f in r && f !in names ==> r[f] == edited[f]
  {
    map f | f in edited ::
      if f in names then edited[f].(items := MergedItems(original[f], edited[f])) else edited[f]
  }

  /**
   * `getOverriddenValues($referenced_entity, $original_entity, $fields)`.
   * Each argument is an entity object in the translation it is active in:
   * `referencedLang` and `originalLang`. The two may be the same object, even
   * in the same translation. `ok` is false when a listed name is not a field
   * of both, where Drupal throws; the edited entity may then have been partly
   * merged.
   */
  method GetOverriddenValues(referenced: Entity, referencedLang: Lang, original: Entity, originalLang: Lang,
                             fields: seq<FieldName>)
    returns (values: map<FieldName, Items>, ok: bool)
    requires referencedLang in referenced.translations && originalLang in original.translations
    requires referenced.Valid()
    modifies referenced
    ensures referenced.Valid()
    ensures ok <==> (forall i :: 0 <= i < |fields| ==>
      fields[i] in old(referenced.translations[referencedLang].fields) &&
      fields[i] in old(original.translations[originalLang].fields))
    ensures ok ==>
      var edited := old(referenced.translations[referencedLang]);
      var orig := old(original.translations[originalLang].fields);
      var names := Names(fields);
      && values == OverriddenValues(edited.fields, orig, names)
      && referenced.translations ==
         old(referenced.translations)[referencedLang := edited.(fields := MergedFields(edited.fields, orig, names))]
    ensures referenced.plain == old(referenced.plain)
  {
    var lang := referencedLang;
    ghost var edited := referenced.translations[lang];
    ghost var before := referenced.translations;
    // The original's fields as they are on entry. Where both arguments are
    // the same translation, a listed field is only ever set to its merge with
    // itself, which is its value on entry (`SelfMergeChangesNothing`).
    var orig := original.translations[originalLang].fields;
    values := map[];
    var i := 0;
    MergedFieldsNone(edited.fields, orig);
    assert before[lang := edited] == before;
    while i < |fields|
      invariant Progress(referenced.translations, values, before, lang, edited, orig, fields, i)
      invariant referenced.plain == old(referenced.plain)
    {
      ok, values := MergeNext(referenced, lang, orig, fields, i, values, before, edited);
      if !ok {
        assert !(fields[i] in edited.fields && fields[i] in orig);
        return;
      }
      i := i + 1;
    }
    assert fields[..i] == fields;
    ok := true;
  }

  /**
   * The state after the loop has handled the first `i` listed fields: those
   * are fields of both entities, the edited translation holds them merged and
   * `values` holds their reports.
   */
  ghost predicate Progress(ts: map<Lang, Translation>, values: map<FieldName, Items>,
                           before: map<Lang, Translation>, lang: Lang, edited: Translation, orig: Fields,
                           fields: seq<FieldName>, i: nat)
  {
    var done := Names(fields[..if i <= |fields| then i else 0]);
    && i <= |fields|
    && done <= edited.fields.Keys && done <= orig.Keys
    && values == OverriddenValues(edited.fields, orig, done)
    && ts == before[lang := edited.(fields := MergedFields(edited.fields, orig, done))]
  }

  /**
   * One turn of the loop, on the listed field `fields[i]`: `ok` is false when
   * it is not a field of both entities; otherwise the state moves on by one field.
   */
  method MergeNext(referenced: Entity, lang: Lang, orig: Fields, fields: seq<FieldName>, i: nat,
                   values: map<FieldName, Items>, ghost before: map<Lang, Translation>, ghost edited: Translation)
    returns (ok: bool, values': map<FieldName, Items>)
    requires i < |fields|
    requires Progress(referenced.translations, values, before, lang, edited, orig, fields, i)
    modifies referenced
    ensures ok <==> fields[i] in edited.fields && fields[i] in orig
    ensures !ok ==> referenced.translations == old(referenced.translations)
    ensures referenced.plain == old(referenced.plain)
    ensures ok ==> Progress(referenced.translations, values', before, lang, edited, orig, fields, i + 1)
  {
    var name := fields[i];
    ghost var done := Names(fields[..i]);
    if name !in orig || name !in referenced.translations[lang].fields {
      return false, values;
    }
    var report := MergeField(referenced, lang, orig, name, before, edited, done);
    values' := values;
    if report.Some? {
      values' := values'[name := report.value];
    }
    assert fields[..i + 1][..i] == fields[..i];
    ok := true;
  }

  /**
   * The loop body for the field `name`: `set` it to the original's items
   * merged under its current ones, then report it when it no longer equals
   * the original. The new state and the report extend those for `done` to
   * `done + {name}`.
   */
  method MergeField(referenced: Entity, lang: Lang, orig: Fields, name: FieldName,
                    ghost before: map<Lang, Translation>, ghost edited: Translation, ghost done: set<FieldName>)
    returns (report: Option<Items>)
    requires done <= edited.fields.Keys && done <= orig.Keys
    requires name in edited.fields && name in orig
    requires referenced.translations == before[lang := edited.(fields := MergedFields(edited.fields, orig, done))]
    modifies referenced
    ensures referenced.translations == before[lang := edited.(fields := MergedFields(edited.fields, orig, done + {name}))]
    ensures OverriddenValues(edited.fields, orig, done + {name}) ==
      if report.Some? then OverriddenValues(edited.fields, orig, done)[name := report.value]
      else OverriddenValues(edited.fields, orig, done)
    ensures referenced.plain == old(referenced.plain)
  {
    ghost var current := MergedFields(edited.fields, orig, done);
    assert referenced.translations[lang] == edited.(fields := current);
    var field := referenced.translations[lang].fields[name];
    var merged := MergeDeep(orig[name].items, field.items);
    SetStep(before, lang, edited, orig, done, name, merged);
    referenced.Set(lang, name, Arr(merged));
    var after := referenced.translations[lang].fields[name];
    assert after == field.(items := merged);
    if FieldEquals(after, orig[name]) {
      report := None;
    } else {
      report := Some(DiffAssocRecursive(StoredItems(after.items, after.properties), orig[name].items));
    }
    ReportStep(edited.fields, orig, done, name, report);
  }

  /** Setting the merged items of `name` turns the state for `done` into the state for `done + {name}`. */
  lemma SetStep(before: map<Lang, Translation>, lang: Lang, edited: Translation, orig: Fields,
                done: set<FieldName>, name: FieldName, merged: Items)
    requires done <= edited.fields.Keys && done <= orig.Keys
    requires name in edited.fields && name in orig
    requires merged == MergedItems(orig[name], MergedFields(edited.fields, orig, done)[name])
    ensures
      var t := edited.(fields := MergedFields(edited.fields, orig, done));
      before[lang := t][lang := WithItems(t, name, merged)] ==
      before[lang := edited.(fields := MergedFields(edited.fields, orig, done + {name}))]
  {
    var t := edited.(fields := MergedFields(edited.fields, orig, done));
    MergeStep(edited.fields, orig, done, name);
    MergedFieldsStep(edited.fields, orig, done, name);
    assert WithItems(t, name, merged) == edited.(fields := MergedFields(edited.fields, orig, done + {name}));
  }

  /**
   * Passing the same object as both entities changes no field and reports
   * nothing: every field is set to its own merge with itself.
   */
  lemma SelfMergeChangesNothing(fields: Fields, names: set<FieldName>)
    requires names <= fields.Keys
    ensures MergedFields(fields, fields, names) == fields
    ensures OverriddenValues(fields, fields, names) == map[]
  {
    forall f | f in names ensures MergedItems(fields[f], fields[f]) == fields[f].items {
      MergeDeepSelf(fields[f].items);
    }
    IdenticalGivesEmpty(fields, fields, names);
  }

  /** Merging no field leaves the fields as they were. */
  lemma MergedFieldsNone(edited: Fields, original: Fields)
    ensures MergedFields(edited, original, {}) == edited
  {
  }

  /**
   * One step of the loop, on the field `name`: merging it once more onto its
   * current, possibly already merged, value gives the merged edit.
   */
  lemma MergeStep(edited: Fields, original: Fields, done: set<FieldName>, name: FieldName)
    requires done <= edited.Keys && done <= original.Keys
    requires name in edited && name in original
    ensures
      var current := MergedFields(edited, original, done)[name];
      current.(items := MergeDeep(original[name].items, current.items)) ==
      edited[name].(items := MergedItems(original[name], edited[name]))
  {
    if name in done {
      MergeDeepAbsorb(original[name].items, edited[name].items);
    }
  }

  /** The merged fields for `done + {name}` extend those for `done` by the field `name`. */
  lemma MergedFieldsStep(edited: Fields, original: Fields, done: set<FieldName>, name: FieldName)
    requires done <= edited.Keys && done <= original.Keys
    requires name in edited && name in original
    ensures MergedFields(edited, original, done + {name}) ==
      MergedFields(edited, original, done)[name := edited[name].(items := MergedItems(original[name], edited[name]))]
  {
    var a := MergedFields(edited, original, done + {name});
    var b := MergedFields(edited, original, done)[name := edited[name].(items := MergedItems(original[name], edited[name]))];
    assert a.Keys == b.Keys;
    forall f | f in a ensures a[f] == b[f] {
    }
  }

  /** The report for `done + {name}` is the report for `done`, updated at `name`. */
  lemma OverriddenValuesStep(edited: Fields, original: Fields, done: set<FieldName>, name: FieldName)
    requires done <= edited.Keys && done <= original.Keys
    requires name in edited && name in original
    ensures OverriddenValues(edited, original, done + {name}) ==
      match Report(original[name], edited[name])
      case None => OverriddenValues(edited, original, done) - {name}
      case Some(d) => OverriddenValues(edited, original, done)[name := d]
  {
    CollectStep(done, name, f => if f in edited && f in original then Report(original[f], edited[f]) else None);
  }

  /** Collecting one more name adds its entry when it has one, and removes it otherwise. */
  lemma CollectStep(names: set<FieldName>, name: FieldName, report: FieldName -> Option<Items>)
    ensures Collect(names + {name}, report) ==
      if report(name).Some? then Collect(names, report)[name := report(name).value]
      else Collect(names, report) - {name}
  {
  }

  /**
   * The loop's report for the field `name`, computed on its current, possibly
   * already merged, value, extends the report for `done` to `done + {name}`;
   * when there is nothing to report, the report for `done` has no entry for
   * `name` either.
   */
  lemma ReportStep(edited: Fields, original: Fields, done: set<FieldName>, name: FieldName, report: Option<Items>)
    requires done <= edited.Keys && done <= original.Keys
    requires name in edited && name in original
    requires report == Report(original[name], MergedFields(edited, original, done)[name])
    ensures OverriddenValues(edited, original, done + {name}) ==
      if report.Some? then OverriddenValues(edited, original, done)[name := report.value]
      else OverriddenValues(edited, original, done)
  {
    MergeStep(edited, original, done, name);
    assert report == Report(original[name], edited[name]);
    OverriddenValuesStep(edited, original, done, name);
    if report.None? {
      assert name !in OverriddenValues(edited, original, done);
    }
  }

  /** Identical entities give no overrides: a field merged onto its own value equals it. */
  lemma IdenticalGivesEmpty(edited: Fields, original: Fields, names: set<FieldName>)
    requires names <= edited.Keys && names <= original.Keys
    requires forall f :: f in names ==> edited[f] == original[f]
    ensures OverriddenValues(edited, original, names) == map[]
  {
    forall f | f in names ensures Unchanged(original[f], edited[f]) {
      MergeDeepSelf(original[f].items);
    }
  }

  /**
   * Only genuine edits are reported, for the whole result: what is stored for
   * a field is a sub-tree of the edited field's stored values.
   */
  lemma ReportedValuesAreEdits(edited: Fields, original: Fields, names: set<FieldName>, f: FieldName)
    requires names <= edited.Keys && names <= original.Keys
    requires f in OverriddenValues(edited, original, names)
    ensures SubTree(OverriddenValues(edited, original, names)[f],
                    StoredItems(edited[f].items, edited[f].properties))
  {
    assert OverriddenValues(edited, original, names)[f] == Report(original[f], edited[f]).value;
  }

  /**
   * Round trip with the read side: when both fields hold only stored
   * properties and the edit adds no delta to a non-empty original, merging the
   * reported difference back onto the original gives the merged edit, and a
   * field that is not reported already equals it.
   */
  lemma {:induction false} ReportedValuesRestoreEdit(o: Items, e: Items, props: set<Key>)
    requires OnlyStored(o, props) && OnlyStored(e, props)
    requires o == map[] || e.Keys <= o.Keys
    ensures var m := MergeDeep(o, e);
      && (StoredItems(m, props) == StoredItems(o, props) ==> m == o)
      && (o == map[] ==> DiffAssocRecursive(StoredItems(m, props), o) == m)
      && (o != map[] ==>
            var d := DiffAssocRecursive(StoredItems(m, props), o);
            IntersectKey(d, o) == d && MergeDeep(o, d) == m)
  {
    var m := MergeDeep(o, e);
    StoredItemsOfMerge(o, e, props);
    assert StoredItems(m, props) == m;
    if o == map[] {
      DiffAgainstEmpty(m);
    } else {
      MergeDeepCovers(o, e);
      MergeOfDiffRestores(m, o);
    }
  }
}
