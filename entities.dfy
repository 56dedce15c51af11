/**
 * The slice of Drupal's content entity API that the override engine touches:
 * field item lists, translations, `clone`, `set`, cacheable dependencies and
 * the plain PHP properties the engine stamps onto an entity object.
 */
module Entities {
  import opened Wrappers
  import opened PhpArray
  import opened PhpString

  type FieldName = string
  type Lang = string

  /** What `FieldItemListInterface::getValue()` returns: delta => item values. */
  type Items = PhpArr

  /**
   * A field of one translation: its items, and the names of its items' stored
   * (non-computed) properties, which `toArray()` and `equals()` look at.
   */
  datatype Field = Field(items: Items, properties: set<Key>)

  type Fields = map<FieldName, Field>

  /**
   * One translation object: its fields, and the cacheable dependencies (as
   * cache tags) added to that PHP object.
   */
  datatype Translation = Translation(fields: Fields, cacheTags: set<string>)

  /**
   * The non-field values the override code writes onto an entity
   * (`$entity->name = ...`). Drupal keeps them in the values array that every
   * translation object of the entity shares, so they belong to the entity,
   * not to one translation: the `entity_reference_override_overwritten` flag,
   * the `entity_reference_override_property_path` and the
   * `entity_reference_entity_modify` path.
   */
  datatype Plain = Plain(overwritten: bool, overridePath: Option<string>, modifyPath: Option<string>)

  /** The translation `t` with the items of its field `name` replaced by `items`. */
  function WithItems(t: Translation, name: FieldName, items: Items): (r: Translation)
    requires name in t.fields
    ensures r.fields.Keys == t.fields.Keys && r.fields[name].items == items
    ensures r.fields[name].properties == t.fields[name].properties
    ensures forall f :: f in t.fields && f != name ==> r.fields[f] == t.fields[f]
    ensures r.cacheTags == t.cacheTags
  {
    t.(fields := t.fields[name := t.fields[name].(items := items)])
  }

  /** The referencing (host) entity, as far as a field item sees it through `getEntity()`. */
  datatype Host = Host(entityType: string, bundle: string, cacheTags: set<string>)

  /**
   * `FieldItemList::setValue`: NULL empties the list, a bare scalar becomes the
   * item at delta 0, and an array is taken as the list of items.
   */
  function ItemsOf(v: Value): Items
  {
    match v
    case Arr(m) => m
    case Leaf(Null) => map[]
    case Leaf(_) => map[IntKey(0) := v]
  }

  /**
   * The items form a list: their keys are the deltas 0 to n - 1. Every
   * `getValue()` of a field is such a list.
   */
  ghost predicate Dense(items: Items)
  {
    forall d :: d in items ==> d.IntKey? && 0 <= d.n && forall j :: 0 <= j < d.n ==> IntKey(j) in items
  }

  /** One item restricted to the stored properties `props`. */
  function StoredItem(item: Value, props: set<Key>): Value
  {
    match item
    case Arr(m) => Arr(map p | p in m && p in props :: m[p])
    case Leaf(_) => item
  }

  /**
   * The items as `toArray()` gives them and as `equals()` compares them: every
   * item restricted to its stored properties, so that a key that is not a
   * property (a form's `button`, say) is dropped.
   */
  function StoredItems(items: Items, props: set<Key>): (r: Items)
    ensures r.Keys == items.Keys
  {
    map d | d in items :: StoredItem(items[d], props)
  }

  /** The stored values are a sub-tree of the items: restricting only ever drops keys. */
  lemma StoredItemsIsSubTree(items: Items, props: set<Key>)
    ensures SubTree(StoredItems(items, props), items)
  {
    var r := StoredItems(items, props);
    forall d | d in r && r[d].Arr? ensures items[d].Arr? && SubTree(r[d].entries, items[d].entries) {
      SubTreeSelf(items[d].entries);
    }
  }

  /** `FieldItemList::equals()`: the two lists hold the same stored values. */
  predicate FieldEquals(a: Field, b: Field) {
    StoredItems(a.items, a.properties) == StoredItems(b.items, a.properties)
  }

  /** The items hold nothing but stored properties. */
  ghost predicate OnlyStored(items: Items, props: set<Key>) {
    StoredItems(items, props) == items
  }

  /** Restricting to stored properties commutes with the deep merge of two item lists. */
  lemma StoredItemsOfMerge(o: Items, e: Items, props: set<Key>)
    ensures StoredItems(MergeDeep(o, e), props) == MergeDeep(StoredItems(o, props), StoredItems(e, props))
  {
    var l := StoredItems(MergeDeep(o, e), props);
    var r := MergeDeep(StoredItems(o, props), StoredItems(e, props));
    assert l.Keys == r.Keys;
    forall d | d in l ensures l[d] == r[d] {
      StoredItemOfMerge(o, e, props, d);
    }
  }

  /** `StoredItemsOfMerge` at the delta `d`. */
  lemma StoredItemOfMerge(o: Items, e: Items, props: set<Key>, d: Key)
    requires d in o || d in e
    ensures StoredItem(MergeDeep(o, e)[d], props) == MergeDeep(StoredItems(o, props), StoredItems(e, props))[d]
  {
    if d in o && d in e && o[d].Arr? && e[d].Arr? {
      var m := MergeDeep(o[d].entries, e[d].entries);
      var x := StoredItem(Arr(m), props).entries;
      var y := MergeDeep(StoredItem(o[d], props).entries, StoredItem(e[d], props).entries);
      assert x.Keys == y.Keys;
      forall p | p in x ensures x[p] == y[p] {
        assert x[p] == m[p];
      }
    }
  }

  /**
   * The sprintf('%s:%s.%s') path of a reference slot: host entity type and
   * bundle, then the item's own property path, field name and delta.
   */
  function PropertyPath(host: Host, fieldName: FieldName, delta: nat): string
  {
    host.entityType + ":" + host.bundle + "." + fieldName + "." + NatToString(delta)
  }

  /** A second update of the same key overrides the first. */
  lemma UpdateTwice<K, V>(m: map<K, V>, k: K, a: V, b: V)
    ensures m[k := a][k := b] == m[k := b]
  {
  }

  /** Updates of two different keys commute. */
  lemma UpdateSwap<K, V>(m: map<K, V>, k1: K, k2: K, a: V, b: V)
    requires k1 != k2
    ensures m[k1 := a][k2 := b] == m[k2 := b][k1 := a]
  {
  }

  /**
   * A content entity object with its translations (the default translation
   * is the object itself) and the non-field values they all share.
   */
  class Entity {
    const entityType: string
    const bundle: string
    const defaultLang: Lang
    var translations: map<Lang, Translation>
    var plain: Plain

    ghost predicate Valid()
      reads this
    {
      defaultLang in translations
    }

    /** PHP `clone`: a new object holding the same values. */
    constructor Clone(source: Entity)
      requires source.Valid()
      ensures Valid()
      ensures entityType == source.entityType && bundle == source.bundle
      ensures defaultLang == source.defaultLang && translations == source.translations
      ensures plain == source.plain
    {
      entityType := source.entityType;
      bundle := source.bundle;
      defaultLang := source.defaultLang;
      translations := source.translations;
      plain := source.plain;
    }

    /** `hasTranslation()`. */
    predicate HasTranslation(lang: Lang)
      reads this
    {
      lang in translations
    }

    /** `$translation->set($name, $v)` on the translation `lang`. */
    method Set(lang: Lang, name: FieldName, v: Value)
      requires lang in translations && name in translations[lang].fields
      modifies this
      ensures translations == old(translations)[lang := WithItems(old(translations)[lang], name, ItemsOf(v))]
      ensures plain == old(plain)
    {
      translations := translations[lang := WithItems(translations[lang], name, ItemsOf(v))];
    }

    /** `addCacheableDependency($host)` on the translation object `lang`. */
    method AddCacheableDependency(lang: Lang, host: Host)
      requires lang in translations
      modifies this
      ensures translations == old(translations)[lang := old(translations)[lang].(cacheTags :=
        old(translations)[lang].cacheTags + host.cacheTags)]
      ensures plain == old(plain)
    {
      var t := translations[lang];
      translations := translations[lang := t.(cacheTags := t.cacheTags + host.cacheTags)];
    }

    /** `$entity->entity_reference_override_overwritten = TRUE`, seen by every translation. */
    method MarkOverwritten()
      modifies this
      ensures plain == old(plain).(overwritten := true)
      ensures translations == old(translations)
    {
      plain := plain.(overwritten := true);
    }

    /** `$entity->entity_reference_override_property_path = $path`, seen by every translation. */
    method StampOverridePath(path: string)
      modifies this
      ensures plain == old(plain).(overridePath := Some(path))
      ensures translations == old(translations)
    {
      plain := plain.(overridePath := Some(path));
    }

    /** `$translation->entity_reference_entity_modify = $path`, seen by every translation. */
    method StampModifyPath(path: string)
      modifies this
      ensures plain == old(plain).(modifyPath := Some(path))
      ensures translations == old(translations)
    {
      plain := plain.(modifyPath := Some(path));
    }
  }
}
