/**
 * `EntityReferenceOverrideItem`: an entity reference field item that stores
 * an `overwritten_property_map` beside the target id. Reading its `entity`
 * property yields a clone of the referenced entity with the map applied to
 * the default translation and to the translation of the item's language,
 * tagged with the host's cache tags, flagged as overwritten and stamped with
 * the slot's property path.
 */
module OverrideItem {
  import opened Wrappers
  import opened PhpArray
  import opened Entities
  import opened Overwrite

  /**
   * The value `overwriteFields` hands to `set()` for one field, given the
   * field's current items: an array over non-empty items is cut down to the
   * deltas the field has and merged over its items; anything else (a scalar,
   * NULL, or an array over an empty field) is set as it is.
   */
  function OverrideValue(current: Items, v: Value): (r: Value)
    ensures v.Leaf? || current == map[] ==> r == v
    ensures v.Arr? && current != map[] ==> r.Arr? && r.entries.Keys == current.Keys
  {
    if v.Arr? && current != map[] then Arr(MergeDeep(current, IntersectKey(v.entries, current)))
    else v
  }

  /** A scalar override replaces the field: NULL empties it, any other scalar becomes its only item. */
  lemma ScalarOverrideReplaces(current: Items, s: Scalar)
    ensures ItemsOf(OverrideValue(current, Leaf(s))) == if s.Null? then map[] else map[IntKey(0) := Leaf(s)]
  {
  }

  /** Over an empty field, an array override is taken as the field's items as it is. */
  lemma ArrayOverrideOntoEmpty(m: PhpArr)
    ensures ItemsOf(OverrideValue(map[], Arr(m))) == m
  {
  }

  /**
   * Over a non-empty field, an array override never adds or removes a delta,
   * keeps every delta it does not mention, sets every scalar it gives at an
   * existing delta, and merges deeper arrays recursively.
   */
  lemma ArrayOverrideKeepsDeltas(current: Items, m: PhpArr)
    requires current != map[]
    ensures var r := ItemsOf(OverrideValue(current, Arr(m)));
      && r.Keys == current.Keys
      && (forall d :: d in current && d !in m ==> r[d] == current[d])
      && (forall d :: d in current && d in m && m[d].Leaf? ==> r[d] == m[d])
      && (forall d :: d in current && d in m && current[d].Arr? && m[d].Arr? ==>
            r[d] == Arr(MergeDeep(current[d].entries, m[d].entries)))
  {
    var x := IntersectKey(m, current);
    var r := MergeDeep(current, x);
    forall d | d in current && d !in m ensures r[d] == current[d] {
      MergeDeepKeepsUnmentioned(current, x, d);
    }
    forall d | d in current && d in m && m[d].Leaf? ensures r[d] == m[d] {
      MergeDeepScalarWins(current, x, d);
    }
    forall d | d in current && d in m && current[d].Arr? && m[d].Arr?
      ensures r[d] == Arr(MergeDeep(current[d].entries, m[d].entries))
    {
      MergeDeepRecurses(current, x, d);
    }
  }

  /**
   * Only deltas are filtered: below a delta the field has, every key of the
   * override survives, including keys the field's item does not have.
   */
  lemma DeeperKeysKept(current: Items, m: PhpArr, d: Key)
    requires current != map[] && d in current && d in m && current[d].Arr? && m[d].Arr?
    ensures var r := ItemsOf(OverrideValue(current, Arr(m)));
      r[d].Arr? && r[d].entries.Keys == current[d].entries.Keys + m[d].entries.Keys
  {
    MergeDeepRecurses(current, IntersectKey(m, current), d);
  }

  /**
   * A list stays a list: over a list, an override hands `set()` a list
   * whenever an array override over an empty field is one, so that
   * renumbering the deltas would change nothing.
   */
  lemma OverrideKeepsList(current: Items, v: Value)
    requires Dense(current)
    requires v.Arr? && current == map[] ==> Dense(v.entries)
    ensures Dense(ItemsOf(OverrideValue(current, v)))
  {
  }

  /** Overriding an already overridden field with the same value changes nothing more. */
  lemma {:induction false} OverrideIdempotent(current: Items, v: Value)
    ensures ItemsOf(OverrideValue(ItemsOf(OverrideValue(current, v)), v)) == ItemsOf(OverrideValue(current, v))
  {
    if v.Arr? {
      if current != map[] {
        var x := IntersectKey(v.entries, current);
        var once := MergeDeep(current, x);
        assert IntersectKey(v.entries, once) == x;
        MergeDeepIdempotent(current, x);
      } else if v.entries != map[] {
        assert IntersectKey(v.entries, v.entries) == v.entries;
        MergeDeepSelf(v.entries);
      }
    }
  }

  /** Applying a whole map twice is applying it once. */
  lemma OverwriteTwice(fields: Fields, pm: PropertyMap)
    requires pm.Keys <= fields.Keys
    ensures Applied(Applied(fields, pm, OverrideValue), pm, OverrideValue) == Applied(fields, pm, OverrideValue)
  {
    forall f | f in pm
      ensures ItemsOf(OverrideValue(ItemsOf(OverrideValue(fields[f].items, pm[f])), pm[f])) ==
              ItemsOf(OverrideValue(fields[f].items, pm[f]))
    {
      OverrideIdempotent(fields[f].items, pm[f]);
    }
    AppliedTwice(fields, pm, OverrideValue);
  }

  /** `empty($this->values['overwritten_property_map'])`: NULL and `[]` are both empty. */
  function MapOf(stored: Option<PropertyMap>): PropertyMap
  {
    if stored.Some? then stored.value else map[]
  }

  /** The translation `getTranslation($langcode)` resolves to. */
  function Chosen(ts: map<Lang, Translation>, defaultLang: Lang, langcode: Lang): Lang
  {
    if langcode in ts then langcode else defaultLang
  }

  /**
   * What reading `entity` yields, as translations of the clone, for a
   * referenced entity whose translations are `ts`: `None` where Drupal throws
   * because a name of the map is not a field. Every translation's fields are
   * overwritten at most once, and a translation that is neither the default
   * nor the one of the item's language is left as it is.
   */
  function ReadView(ts: map<Lang, Translation>, defaultLang: Lang, langcode: Lang,
                    stored: Option<PropertyMap>, host: Host): (r: Option<map<Lang, Translation>>)
    requires defaultLang in ts
    ensures r.Some? ==> r.value.Keys == ts.Keys
    ensures r.Some? ==> forall l :: l in ts && l != defaultLang && l != Chosen(ts, defaultLang, langcode) ==>
      r.value[l] == ts[l]
  {
    var pm := MapOf(stored);
    var chosen := Chosen(ts, defaultLang, langcode);
    var d := ts[defaultLang];
    if pm == map[] then
      Some(ts)
    else if !(pm.Keys <= d.fields.Keys && pm.Keys <= ts[chosen].fields.Keys) then
      None
    else
      var c := ts[chosen];
      Some(ts[chosen := c.(fields := Applied(c.fields, pm, OverrideValue))]
             [defaultLang := d.(fields := Applied(d.fields, pm, OverrideValue),
                                cacheTags := d.cacheTags + host.cacheTags)])
  }

  /**
   * The clone's non-field values after a successful read: the property path
   * is always stamped, and the overwritten flag is set when the map is not
   * empty.
   */
  function ReadPlain(plain: Plain, stored: Option<PropertyMap>, path: string): Plain
  {
    if MapOf(stored) == map[] then plain.(overridePath := Some(path))
    else plain.(overwritten := true, overridePath := Some(path))
  }

  /**
   * With an empty map (NULL or `[]`) the clone shows the referenced entity's
   * translations exactly as they are, with no host cache tags, and is not
   * flagged; only the property path is stamped.
   */
  lemma EmptyMapPassthrough(ts: map<Lang, Translation>, defaultLang: Lang, langcode: Lang,
                            stored: Option<PropertyMap>, host: Host, plain: Plain, path: string)
    requires defaultLang in ts
    requires stored.None? || stored.value == map[]
    ensures ReadView(ts, defaultLang, langcode, stored, host) == Some(ts)
    ensures ReadPlain(plain, stored, path) == plain.(overridePath := Some(path))
  {
  }

  /**
   * A non-empty map overwrites the default translation and the translation of
   * the item's language, each exactly once, and tags the default translation
   * with the host's cache tags; the entity is flagged as overwritten and
   * stamped with the property path.
   */
  lemma OverriddenView(ts: map<Lang, Translation>, defaultLang: Lang, langcode: Lang,
                       stored: Option<PropertyMap>, host: Host, plain: Plain, path: string)
    requires defaultLang in ts
    requires MapOf(stored) != map[]
    requires ReadView(ts, defaultLang, langcode, stored, host).Some?
    ensures var r := ReadView(ts, defaultLang, langcode, stored, host).value;
      var pm := MapOf(stored);
      var chosen := Chosen(ts, defaultLang, langcode);
      && r[chosen].fields == Applied(ts[chosen].fields, pm, OverrideValue)
      && r[defaultLang].fields == Applied(ts[defaultLang].fields, pm, OverrideValue)
      && r[defaultLang].cacheTags == ts[defaultLang].cacheTags + host.cacheTags
    ensures ReadPlain(plain, stored, path) == plain.(overwritten := true, overridePath := Some(path))
  {
  }

  /** Reading fails exactly when a name of a non-empty map is not a field of the translations it is applied to. */
  lemma ReadFailsOnUnknownField(ts: map<Lang, Translation>, defaultLang: Lang, langcode: Lang,
                                stored: Option<PropertyMap>, host: Host)
    requires defaultLang in ts
    ensures ReadView(ts, defaultLang, langcode, stored, host).None? <==>
      (exists f :: f in MapOf(stored) &&
        (f !in ts[defaultLang].fields || f !in ts[Chosen(ts, defaultLang, langcode)].fields))
  {
  }

  /**
   * `ReadView` of a non-empty map, as the steps `__get` takes on the clone:
   * overwrite the default translation, then the chosen one, then tag the
   * default translation.
   */
  lemma ReadViewSteps(ts: map<Lang, Translation>, defaultLang: Lang, langcode: Lang,
                      stored: Option<PropertyMap>, host: Host)
    requires defaultLang in ts
    requires MapOf(stored) != map[]
    requires MapOf(stored).Keys <= ts[defaultLang].fields.Keys
    requires MapOf(stored).Keys <= ts[Chosen(ts, defaultLang, langcode)].fields.Keys
    ensures
      var pm := MapOf(stored);
      var chosen := Chosen(ts, defaultLang, langcode);
      var ts1 := ts[defaultLang := ts[defaultLang].(fields := Applied(ts[defaultLang].fields, pm, OverrideValue))];
      var ts2 := ts1[chosen := ts1[chosen].(fields := Applied(ts1[chosen].fields, pm, OverrideValue))];
      ReadView(ts, defaultLang, langcode, stored, host) ==
        Some(ts2[defaultLang := ts2[defaultLang].(cacheTags := ts2[defaultLang].cacheTags + host.cacheTags)])
  {
    var pm := MapOf(stored);
    var chosen := Chosen(ts, defaultLang, langcode);
    var d := ts[defaultLang];
    var c := ts[chosen];
    var last := d.(fields := Applied(d.fields, pm, OverrideValue), cacheTags := d.cacheTags + host.cacheTags);
    var d1 := d.(fields := Applied(d.fields, pm, OverrideValue));
    var ts1 := ts[defaultLang := d1];
    var c2 := ts1[chosen].(fields := Applied(ts1[chosen].fields, pm, OverrideValue));
    var ts2 := ts1[chosen := c2];
    var d3 := ts2[defaultLang].(cacheTags := ts2[defaultLang].cacheTags + host.cacheTags);
    if chosen == defaultLang {
      OverwriteTwice(d.fields, pm);
      assert d3 == last;
      UpdateTwice(ts1, defaultLang, c2, last);
      UpdateTwice(ts, defaultLang, d1, last);
      UpdateTwice(ts, defaultLang, c.(fields := Applied(c.fields, pm, OverrideValue)), last);
    } else {
      assert d3 == last;
      UpdateSwap(ts, defaultLang, chosen, d1, c2);
      UpdateTwice(ts[chosen := c2], defaultLang, d1, last);
    }
  }

  /** An entity reference override field item of the host entity `host`. */
  class EntityReferenceOverrideItem {
    const host: Host
    const fieldName: FieldName
    const delta: nat
    const langcode: Lang
    /** What the parent item's `entity` property gives: the referenced entity, or NULL. */
    var target: Entity?
    /** `$this->values['overwritten_property_map']`, already unserialized. */
    var propertyMap: Option<PropertyMap>

    constructor(host: Host, fieldName: FieldName, delta: nat, langcode: Lang,
                target: Entity?, propertyMap: Option<PropertyMap>)
      ensures this.host == host && this.fieldName == fieldName && this.delta == delta
      ensures this.langcode == langcode && this.target == target && this.propertyMap == propertyMap
    {
      this.host := host;
      this.fieldName := fieldName;
      this.delta := delta;
      this.langcode := langcode;
      this.target := target;
      this.propertyMap := propertyMap;
    }

    /** `sprintf('%s:%s.%s', ...)` of the host and this item's property path. */
    function Path(): string
    {
      PropertyPath(host, fieldName, delta)
    }

    /** `overwriteFields($entity, $map)` on the translation `lang` of `entity`. */
    method OverwriteFields(entity: Entity, lang: Lang, pm: PropertyMap) returns (ok: bool)
      requires lang in entity.translations
      modifies entity
      ensures lang in entity.translations
      ensures entity.translations.Keys == old(entity.translations.Keys)
      ensures ok <==> pm.Keys <= old(entity.translations[lang].fields.Keys)
      ensures ok ==>
        entity.translations == old(entity.translations)[lang := old(entity.translations[lang]).(fields :=
          Applied(old(entity.translations[lang].fields), pm, OverrideValue))]
      ensures entity.plain == old(entity.plain)
    {
      ok := SetFields(entity, lang, pm, OverrideValue);
    }

    /**
     * `__get('entity')`: NULL when there is no referenced entity, otherwise a
     * fresh clone holding `ReadView` and `ReadPlain` of the referenced entity,
     * which itself is not modified. `ok` is false where Drupal throws.
     */
    method GetEntity() returns (e: Entity?, ok: bool)
      requires target != null ==> target.Valid()
      ensures target == null ==> e == null && ok
      ensures target != null ==>
        var view := ReadView(target.translations, target.defaultLang, langcode, propertyMap, host);
        && (ok <==> view.Some?)
        && (ok ==> e != null && fresh(e) && e.defaultLang == target.defaultLang && e.translations == view.value
                   && e.plain == ReadPlain(target.plain, propertyMap, Path()))
    {
      if target == null {
        return null, true;
      }
      var entity := new Entity.Clone(target);
      var lang := entity.defaultLang;
      var pm := MapOf(propertyMap);
      if pm != map[] {
        ok := OverwriteFields(entity, lang, pm);
        if !ok {
          return null, false;
        }
        var chosen := if entity.HasTranslation(langcode) then langcode else lang;
        ghost var ts1 := entity.translations;
        ok := OverwriteFields(entity, chosen, pm);
        if !ok {
          return null, false;
        }
        entity.AddCacheableDependency(lang, host);
        entity.MarkOverwritten();
        ReadViewSteps(target.translations, lang, langcode, propertyMap, host);
      }
      entity.StampOverridePath(Path());
      return entity, true;
    }

    /** `preSave()`: an empty map is stored as `[]`. */
    method PreSave()
      modifies this`propertyMap
      ensures propertyMap == if MapOf(old(propertyMap)) == map[] then Some(map[]) else old(propertyMap)
      ensures target != null && target.Valid() ==>
        && ReadView(target.translations, target.defaultLang, langcode, propertyMap, host) ==
           ReadView(target.translations, target.defaultLang, langcode, old(propertyMap), host)
        && ReadPlain(target.plain, propertyMap, Path()) == ReadPlain(target.plain, old(propertyMap), Path())
    {
      if MapOf(propertyMap) == map[] {
        propertyMap := Some(map[]);
      }
      if target != null && target.Valid() {
        PreSaveKeepsView(target.translations, target.defaultLang, langcode, old(propertyMap), host, target.plain, Path());
      }
    }
  }

  /** Saving does not change what an item reads: the stored `[]` reads like the NULL it replaced. */
  lemma PreSaveKeepsView(ts: map<Lang, Translation>, defaultLang: Lang, langcode: Lang,
                         stored: Option<PropertyMap>, host: Host, plain: Plain, path: string)
    requires defaultLang in ts
    ensures var saved := if MapOf(stored) == map[] then Some(map[]) else stored;
      && ReadView(ts, defaultLang, langcode, saved, host) == ReadView(ts, defaultLang, langcode, stored, host)
      && ReadPlain(plain, saved, path) == ReadPlain(plain, stored, path)
  {
  }

  // The first media item of the multi-value kernel test.
  const FileItems: Items := map[IntKey(0) := Arr(map[StrKey("target_id") := Leaf(Int(1)), StrKey("description") := Leaf(Str(""))])]
  const DescriptionEdit: PhpArr := map[IntKey(0) := Arr(map[StrKey("description") := Leaf(Str("Nice description!"))])]
  const TextItems: Items := map[IntKey(0) := Arr(map[StrKey("value") := Leaf(Str("Media Text 1"))])]
  const SecondTextEdit: PhpArr := map[IntKey(1) := Arr(map[StrKey("value") := Leaf(Str("Overwritten Text 2"))])]

  /** A description for the existing file item merges into it and keeps its target. */
  lemma DescriptionMergesIntoFile()
    ensures ItemsOf(OverrideValue(FileItems, Arr(DescriptionEdit))) ==
      map[IntKey(0) := Arr(map[StrKey("target_id") := Leaf(Int(1)), StrKey("description") := Leaf(Str("Nice description!"))])]
  {
    var item := FileItems[IntKey(0)].entries;
    var edit := DescriptionEdit[IntKey(0)].entries;
    assert IntersectKey(DescriptionEdit, FileItems) == DescriptionEdit;
    MergeDeepRecurses(FileItems, DescriptionEdit, IntKey(0));
    MergeDeepKeepsUnmentioned(item, edit, StrKey("target_id"));
    MergeDeepScalarWins(item, edit, StrKey("description"));
    assert MergeDeep(item, edit) ==
      map[StrKey("target_id") := Leaf(Int(1)), StrKey("description") := Leaf(Str("Nice description!"))];
  }

  /** A text for a delta the field does not have is dropped, and the field keeps its text. */
  lemma ExtraDeltaDropped()
    ensures ItemsOf(OverrideValue(TextItems, Arr(SecondTextEdit))) == TextItems
  {
    assert IntKey(0) in TextItems;
    assert IntersectKey(SecondTextEdit, TextItems) == map[];
    assert MergeDeep(TextItems, map[]) == TextItems;
  }

  /**
   * The multi-value case of the kernel test, on whole fields: the scalar name
   * replaces the name, the description merges into the file item and the
   * text for a second delta leaves the text field as it was.
   */
  lemma MultivalueExample()
    ensures
      var fields := map[
        "name" := Field(map[IntKey(0) := Arr(map[StrKey("value") := Leaf(Str("Mr. Jones"))])], {StrKey("value")}),
        "field_media_file" := Field(FileItems, {StrKey("target_id"), StrKey("description")}),
        "field_text" := Field(TextItems, {StrKey("value")})];
      var pm := map[
        "name" := Leaf(Str("Overwritten name")),
        "field_media_file" := Arr(DescriptionEdit),
        "field_text" := Arr(SecondTextEdit)];
      var r := Applied(fields, pm, OverrideValue);
      && r["name"].items == map[IntKey(0) := Leaf(Str("Overwritten name"))]
      && r["field_media_file"].items ==
           map[IntKey(0) := Arr(map[StrKey("target_id") := Leaf(Int(1)), StrKey("description") := Leaf(Str("Nice description!"))])]
      && r["field_text"].items == TextItems
  {
    DescriptionMergesIntoFile();
    ExtraDeltaDropped();
  }
}
