/**
 * `EntityReferenceEntityModifyItem`: the variant that stores its
 * `overwritten_property_map` as a JSON string. Reading its `entity` property
 * yields a clone of the referenced entity with the map applied to one
 * translation only: the item's language when the entity has it, otherwise the
 * default. That translation alone is tagged, and the entity stamped, only
 * when the map is not empty.
 */
module ModifyItem {
  import opened Wrappers
  import opened PhpArray
  import opened Entities
  import opened Overwrite
  import opened OverrideItem

  /**
   * The value `overwriteFields` hands to `set()` here: as for the override
   * item, except that an empty array is set as it is, which empties the field.
   */
  function ModifyValue(current: Items, v: Value): (r: Value)
    ensures v == Arr(map[]) ==> ItemsOf(r) == map[]
    ensures v.Arr? && v.entries != map[] && current != map[] ==> r.Arr? && r.entries.Keys == current.Keys
  {
    if v.Arr? && v.entries != map[] && current != map[] then Arr(MergeDeep(current, IntersectKey(v.entries, current)))
    else v
  }

  /**
   * The one difference from the override item: an empty array empties a
   * non-empty field here, where the override item leaves it as it is.
   */
  lemma EmptyArrayClears(current: Items)
    requires current != map[]
    ensures ItemsOf(ModifyValue(current, Arr(map[]))) == map[]
    ensures ItemsOf(OverrideValue(current, Arr(map[]))) == current
  {
    assert IntersectKey(map[], current) == map[];
    assert MergeDeep(current, map[]) == current;
  }

  /** For every other value the two item types set the same. */
  lemma SameAsOverrideOtherwise(current: Items, v: Value)
    requires v != Arr(map[])
    ensures ModifyValue(current, v) == OverrideValue(current, v)
  {
  }

  /** Whole maps without an empty array overwrite fields as the override item does. */
  lemma SameFieldsAsOverride(fields: Fields, pm: PropertyMap)
    requires pm.Keys <= fields.Keys
    requires forall f :: f in pm ==> pm[f] != Arr(map[])
    ensures Applied(fields, pm, ModifyValue) == Applied(fields, pm, OverrideValue)
  {
    var a := Applied(fields, pm, ModifyValue);
    var b := Applied(fields, pm, OverrideValue);
    forall f | f in a ensures a[f] == b[f] {
      if f in pm {
        SameAsOverrideOtherwise(fields[f].items, pm[f]);
      }
    }
  }

  /**
   * The translation after `overwriteFields($translation, $map)`: its fields
   * overwritten and, for a non-empty map, the host's cache tags added.
   */
  function Modified(t: Translation, pm: PropertyMap, host: Host): (r: Translation)
    requires pm.Keys <= t.fields.Keys
    ensures r.fields == Applied(t.fields, pm, ModifyValue)
    ensures pm == map[] ==> r.cacheTags == t.cacheTags
    ensures pm != map[] ==> r.cacheTags == t.cacheTags + host.cacheTags
  {
    var t1 := t.(fields := Applied(t.fields, pm, ModifyValue));
    if pm == map[] then t1 else t1.(cacheTags := t.cacheTags + host.cacheTags)
  }

  /**
   * The entity's non-field values after `overwriteFields`: a non-empty map
   * stamps the `entity_reference_entity_modify` path, an empty one leaves
   * them as they were.
   */
  function ModifyPlain(plain: Plain, pm: PropertyMap, path: string): Plain
  {
    if pm == map[] then plain else plain.(modifyPath := Some(path))
  }

  /**
   * What reading `entity` yields, as translations of the clone, for a
   * referenced entity whose translations are `ts`; NULL in the column reads
   * as the empty map. `None` where Drupal throws. Every translation other
   * than the chosen one is left as it is.
   */
  function ModifyView(ts: map<Lang, Translation>, defaultLang: Lang, langcode: Lang,
                      stored: Option<PropertyMap>, host: Host): (r: Option<map<Lang, Translation>>)
    requires defaultLang in ts
    ensures r.Some? ==> r.value.Keys == ts.Keys
    ensures r.Some? ==> forall l :: l in ts && l != Chosen(ts, defaultLang, langcode) ==> r.value[l] == ts[l]
  {
    var pm := MapOf(stored);
    var chosen := Chosen(ts, defaultLang, langcode);
    if pm.Keys <= ts[chosen].fields.Keys then Some(ts[chosen := Modified(ts[chosen], pm, host)])
    else None
  }

  /**
   * An empty or missing map yields the referenced entity's translations and
   * non-field values exactly as they are: no tags, no path.
   */
  lemma ModifyPassthrough(ts: map<Lang, Translation>, defaultLang: Lang, langcode: Lang,
                          stored: Option<PropertyMap>, host: Host, plain: Plain, path: string)
    requires defaultLang in ts
    requires MapOf(stored) == map[]
    ensures ModifyView(ts, defaultLang, langcode, stored, host) == Some(ts)
    ensures ModifyPlain(plain, MapOf(stored), path) == plain
  {
    var chosen := Chosen(ts, defaultLang, langcode);
    AppliedNone(ts[chosen].fields, map[], ModifyValue);
    assert Restrict(map[], {}) == map[];
    assert ts[chosen := ts[chosen]] == ts;
  }

  /**
   * Only the chosen translation changes: the item's language when the entity
   * has it, otherwise the default; reading fails exactly when a name of the
   * map is not one of its fields.
   */
  lemma ModifyTouchesOneTranslation(ts: map<Lang, Translation>, defaultLang: Lang, langcode: Lang,
                                    stored: Option<PropertyMap>, host: Host)
    requires defaultLang in ts
    ensures var r := ModifyView(ts, defaultLang, langcode, stored, host);
      var chosen := Chosen(ts, defaultLang, langcode);
      && (r.Some? <==> MapOf(stored).Keys <= ts[chosen].fields.Keys)
      && (r.Some? ==> r.value[chosen].fields == Applied(ts[chosen].fields, MapOf(stored), ModifyValue))
  {
  }

  /** An entity reference field item whose referenced entity may be modified per reference. */
  class EntityReferenceEntityModifyItem {
    const host: Host
    const fieldName: FieldName
    const delta: nat
    const langcode: Lang
    /** What the parent item's `entity` property gives: the referenced entity, or NULL. */
    var target: Entity?
    /** `$this->values['overwritten_property_map']`, already JSON-decoded; `None` is NULL. */
    var storedMap: Option<PropertyMap>

    constructor(host: Host, fieldName: FieldName, delta: nat, langcode: Lang,
                target: Entity?, storedMap: Option<PropertyMap>)
      ensures this.host == host && this.fieldName == fieldName && this.delta == delta
      ensures this.langcode == langcode && this.target == target && this.storedMap == storedMap
    {
      this.host := host;
      this.fieldName := fieldName;
      this.delta := delta;
      this.langcode := langcode;
      this.target := target;
      this.storedMap := storedMap;
    }

    /** `sprintf('%s:%s.%s', ...)` of the host and this item's property path. */
    function Path(): string
    {
      PropertyPath(host, fieldName, delta)
    }

    /** `overwriteFields($entity, $map)` on the translation object `lang` of `entity`. */
    method OverwriteFields(entity: Entity, lang: Lang, pm: PropertyMap) returns (ok: bool)
      requires lang in entity.translations
      modifies entity
      ensures ok <==> pm.Keys <= old(entity.translations[lang].fields.Keys)
      ensures ok ==>
        && entity.translations == old(entity.translations)[lang := Modified(old(entity.translations[lang]), pm, host)]
        && entity.plain == ModifyPlain(old(entity.plain), pm, Path())
    {
      ghost var before := entity.translations;
      ok := SetFields(entity, lang, pm, ModifyValue);
      if ok && pm != map[] {
        entity.AddCacheableDependency(lang, host);
        entity.StampModifyPath(Path());
        ghost var t := before[lang];
        ghost var t1 := t.(fields := Applied(t.fields, pm, ModifyValue));
        UpdateTwice(before, lang, t1, Modified(t, pm, host));
      }
    }

    /**
     * `__get('entity')`: NULL when there is no referenced entity, otherwise a
     * fresh clone holding `ModifyView` and `ModifyPlain` of the referenced
     * entity, which itself is not modified. `ok` is false where Drupal throws.
     */
    method GetEntity() returns (e: Entity?, ok: bool)
      requires target != null ==> target.Valid()
      ensures target == null ==> e == null && ok
      ensures target != null ==>
        var view := ModifyView(target.translations, target.defaultLang, langcode, storedMap, host);
        && (ok <==> view.Some?)
        && (ok ==> e != null && fresh(e) && e.defaultLang == target.defaultLang && e.translations == view.value
                   && e.plain == ModifyPlain(target.plain, MapOf(storedMap), Path()))
    {
      if target == null {
        return null, true;
      }
      var pm := MapOf(storedMap);
      var entity := new Entity.Clone(target);
      var lang := if entity.HasTranslation(langcode) then langcode else entity.defaultLang;
      ok := OverwriteFields(entity, lang, pm);
      if !ok {
        return null, false;
      }
      return entity, true;
    }
  }
}
