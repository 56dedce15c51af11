/**
 * The authoring side and the read side together: the map that
 * `getOverriddenValues` reports, stored as an `overwritten_property_map` and
 * read back through `EntityReferenceOverrideItem`, shows the edit.
 */
module RoundTrip {
  import opened Wrappers
  import opened PhpArray
  import opened Entities
  import opened Overwrite
  import opened OverrideService
  import opened OverrideItem

  /** The reported values as a property map: every field's difference is stored as an array. */
  function AsPropertyMap(values: map<FieldName, Items>): (r: PropertyMap)
    ensures r.Keys == values.Keys
    ensures forall f :: f in r ==> r[f] == Arr(values[f])
  {
    map f | f in values :: Arr(values[f])
  }

  /**
   * Reading the original through the reported map gives, for every listed
   * field, the edited items completed with the original's — the same items
   * `getOverriddenValues` leaves on the edited entity. This holds when the
   * fields hold nothing but stored properties and the edit adds no delta to
   * a non-empty field.
   */
  lemma ReportedMapReadsBackAsEdit(edited: Fields, original: Fields, names: set<FieldName>)
    requires names <= edited.Keys && names <= original.Keys
    requires forall f :: f in names ==>
      && OnlyStored(original[f].items, edited[f].properties)
      && OnlyStored(edited[f].items, edited[f].properties)
      && (original[f].items == map[] || edited[f].items.Keys <= original[f].items.Keys)
    ensures var read := Applied(original, AsPropertyMap(OverriddenValues(edited, original, names)), OverrideValue);
      forall f :: f in names ==> read[f].items == MergedFields(edited, original, names)[f].items
  {
    var values := OverriddenValues(edited, original, names);
    var read := Applied(original, AsPropertyMap(values), OverrideValue);
    forall f | f in names ensures read[f].items == MergedItems(original[f], edited[f]) {
      var o := original[f].items;
      var props := edited[f].properties;
      ReportedValuesRestoreEdit(o, edited[f].items, props);
      if f in values {
        assert values[f] == DiffAssocRecursive(StoredItems(MergedItems(original[f], edited[f]), props), o);
      }
    }
  }
}
