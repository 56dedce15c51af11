/**
 * The loop both field item types run in their `overwriteFields`: for every
 * field name of an overwritten property map, compute the value to hand to
 * `$entity->set()` from the field's current items and the map's value, and
 * set it. The two item types differ only in how that value is computed, which
 * is the `update` parameter here.
 */
module Overwrite {
  import opened PhpArray
  import opened Entities

  /** A decoded `overwritten_property_map`: field name => override value. */
  type PropertyMap = map<FieldName, Value>

  /**
   * The fields after `set($name, update(current items, $map[$name]))` for every
   * name of the map. Each field is set once and from its own items, so the
   * order of the map's entries does not matter.
   */
  function Applied(fields: Fields, pm: PropertyMap, update: (Items, Value) -> Value): (r: Fields)
    requires pm.Keys <= fields.Keys
    ensures r.Keys == fields.Keys
    ensures forall f :: f in r && f !in pm ==> r[f] == fields[f]
    ensures forall f :: f in pm ==>
      r[f].properties == fields[f].properties && r[f].items == ItemsOf(update(fields[f].items, pm[f]))
  {
    map f | f in fields ::
      if f in pm then fields[f].(items := ItemsOf(update(fields[f].items, pm[f]))) else fields[f]
  }

  /** The entries of `pm` whose names are in `names`. */
  function Restrict(pm: PropertyMap, names: set<FieldName>): (r: PropertyMap)
    ensures r.Keys == pm.Keys * names
    ensures forall f :: f in r ==> r[f] == pm[f]
  {
    map f | f in pm && f in names :: pm[f]
  }

  /**
   * The `foreach` of `overwriteFields` on the translation object `lang`.
   * `ok` is false when a name of the map is not a field of the translation,
   * where Drupal throws; the clone being overwritten is then discarded.
   */
  method SetFields(entity: Entity, lang: Lang, pm: PropertyMap, update: (Items, Value) -> Value)
    returns (ok: bool)
    requires lang in entity.translations
    modifies entity
    ensures lang in entity.translations
    ensures entity.translations.Keys == old(entity.translations.Keys)
    ensures ok <==> pm.Keys <= old(entity.translations[lang].fields.Keys)
    ensures ok ==>
      entity.translations == old(entity.translations)[lang := old(entity.translations[lang]).(fields :=
        Applied(old(entity.translations[lang].fields), pm, update))]
    ensures entity.plain == old(entity.plain)
  {
    ghost var before := entity.translations;
    ghost var t := before[lang];
    var todo := pm.Keys;
    ghost var done: set<FieldName> := {};
    AppliedNone(t.fields, pm, update);
    assert before[lang := t] == before;
    while todo != {}
      invariant todo !! done && todo + done == pm.Keys
      invariant done <= t.fields.Keys
      invariant entity.plain == old(entity.plain)
      invariant entity.translations == before[lang := t.(fields := Applied(t.fields, Restrict(pm, done), update))]
      decreases todo
    {
      var name :| name in todo;
      if name !in entity.translations[lang].fields {
        assert name in pm && name !in t.fields;
        return false;
      }
      ghost var cur := Applied(t.fields, Restrict(pm, done), update);
      var v := update(entity.translations[lang].fields[name].items, pm[name]);
      AppliedStep(t.fields, pm, done, name, update);
      SetStep(before, lang, t, cur, name, ItemsOf(v));
      entity.Set(lang, name, v);
      todo := todo - {name};
      done := done + {name};
    }
    assert Restrict(pm, done) == pm;
    ok := true;
  }

  /** Setting one field of the translation `lang` in the state after `cur` is a state of the same shape. */
  lemma SetStep(before: map<Lang, Translation>, lang: Lang, t: Translation, cur: Fields, name: FieldName, items: Items)
    requires name in cur
    ensures before[lang := t.(fields := cur)][lang := WithItems(t.(fields := cur), name, items)] ==
      before[lang := t.(fields := cur[name := cur[name].(items := items)])]
  {
    assert WithItems(t.(fields := cur), name, items) == t.(fields := cur[name := cur[name].(items := items)]);
  }

  /** Applying none of the map leaves the fields as they were. */
  lemma AppliedNone(fields: Fields, pm: PropertyMap, update: (Items, Value) -> Value)
    ensures Applied(fields, Restrict(pm, {}), update) == fields
  {
  }

  /** Applying the entry `name` as well extends the fields by that one field. */
  lemma AppliedStep(fields: Fields, pm: PropertyMap, done: set<FieldName>, name: FieldName,
                    update: (Items, Value) -> Value)
    requires done <= fields.Keys && name in fields && name in pm && name !in done
    ensures
      var cur := Applied(fields, Restrict(pm, done), update);
      Applied(fields, Restrict(pm, done + {name}), update) ==
        cur[name := cur[name].(items := ItemsOf(update(cur[name].items, pm[name])))]
  {
    var cur := Applied(fields, Restrict(pm, done), update);
    var a := Applied(fields, Restrict(pm, done + {name}), update);
    var b := cur[name := cur[name].(items := ItemsOf(update(cur[name].items, pm[name])))];
    assert a.Keys == b.Keys;
    forall f | f in a ensures a[f] == b[f] {
    }
  }

  /**
   * Applying a map twice is applying it once, when every single update is
   * idempotent.
   */
  lemma AppliedTwice(fields: Fields, pm: PropertyMap, update: (Items, Value) -> Value)
    requires pm.Keys <= fields.Keys
    requires forall f :: f in pm ==>
      ItemsOf(update(ItemsOf(update(fields[f].items, pm[f])), pm[f])) == ItemsOf(update(fields[f].items, pm[f]))
    ensures Applied(Applied(fields, pm, update), pm, update) == Applied(fields, pm, update)
  {
    var once := Applied(fields, pm, update);
    var twice := Applied(once, pm, update);
    forall f | f in twice ensures twice[f] == once[f] {
    }
  }
}
