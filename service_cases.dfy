/**
 * The four cases of the service's kernel test, on one multi-value field
 * `field_test` of a string field (stored property `value`) and of an image
 * field (stored properties `target_id`, `alt`, `title`, `width`, `height`).
 */
module ServiceCases {
  import opened Wrappers
  import opened PhpArray
  import opened Entities
  import opened OverrideService

  /** A one-item list holding `item`. */
  function One(item: map<Key, Value>): Items
  {
    map[IntKey(0) := Arr(item)]
  }

  /** An entity's fields: nothing but the field `name`. */
  function Only(name: FieldName, items: Items, props: set<Key>): Fields
  {
    map[name := Field(items, props)]
  }

  /** An item whose values are all scalars. */
  predicate Flat(item: map<Key, Value>)
  {
    forall k :: k in item ==> item[k].Leaf?
  }

  /** Merging one-item lists merges their items. */
  lemma MergeOne(a: map<Key, Value>, b: map<Key, Value>)
    ensures MergeDeep(One(a), One(b)) == One(MergeDeep(a, b))
  {
    assert MergeDeep(One(a), One(b))[IntKey(0)] == Arr(MergeDeep(a, b));
  }

  /** On a flat item the deep merge is a plain union in which `b` wins. */
  lemma MergeFlat(a: map<Key, Value>, b: map<Key, Value>)
    requires Flat(a)
    ensures MergeDeep(a, b) == a + b
  {
    var m := MergeDeep(a, b);
    assert m.Keys == (a + b).Keys;
    forall k | k in m ensures m[k] == (a + b)[k] {
    }
  }

  /** On flat items the difference keeps the entries `b` lacks or holds differently. */
  lemma DiffFlat(a: map<Key, Value>, b: map<Key, Value>)
    requires Flat(a)
    ensures DiffAssocRecursive(a, b) == map k | k in a && (k !in b || b[k] != a[k]) :: a[k]
  {
  }

  /** Of a one-item list, the stored values are those of its item. */
  lemma StoredOne(a: map<Key, Value>, props: set<Key>)
    ensures StoredItems(One(a), props) == One(map p | p in a && p in props :: a[p])
  {
    assert StoredItems(One(a), props)[IntKey(0)] == StoredItem(Arr(a), props);
  }

  /** The difference of one-item lists is that of their items, when that is not empty. */
  lemma DiffOne(a: map<Key, Value>, b: map<Key, Value>)
    requires DiffAssocRecursive(a, b) != map[]
    ensures DiffAssocRecursive(One(a), One(b)) == One(DiffAssocRecursive(a, b))
  {
    assert DiffAt(Arr(a), One(b), IntKey(0)) == Some(Arr(DiffAssocRecursive(a, b)));
  }

  /** The service on one field gives that field's report, if any. */
  lemma SingleField(name: FieldName, e: Items, o: Items, props: set<Key>)
    ensures OverriddenValues(Only(name, e, props), Only(name, o, props), {name}) ==
      match Report(Field(o, props), Field(e, props))
      case None => map[]
      case Some(d) => map[name := d]
  {
    var edited := Only(name, e, props);
    var original := Only(name, o, props);
    CollectStep({}, name, f => if f in edited && f in original then Report(original[f], edited[f]) else None);
    assert {} + {name} == {name};
  }

  /** The entries of `item` whose keys are in `props`. */
  function Keep(item: map<Key, Value>, props: set<Key>): (r: map<Key, Value>)
    ensures r.Keys == item.Keys * props
    ensures forall k :: k in r ==> r[k] == item[k]
  {
    map p | p in item && p in props :: item[p]
  }

  /** The entries of `a` that `b` lacks or holds differently. */
  function Changed(a: map<Key, Value>, b: map<Key, Value>): (r: map<Key, Value>)
    ensures r.Keys <= a.Keys
    ensures forall k :: k in r <==> k in a && (k !in b || b[k] != a[k])
    ensures forall k :: k in r ==> r[k] == a[k]
  {
    map k | k in a && (k !in b || b[k] != a[k]) :: a[k]
  }

  /**
   * The report for a one-item field whose items hold only scalars: nothing
   * when the merged item's stored values are the original's, otherwise the
   * stored values that differ from the original item.
   */
  lemma ReportOne(oi: map<Key, Value>, ei: map<Key, Value>, props: set<Key>)
    requires Flat(oi) && Flat(ei)
    ensures Report(Field(One(oi), props), Field(One(ei), props)) ==
      if Keep(oi + ei, props) == Keep(oi, props) then None
      else if Changed(Keep(oi + ei, props), oi) == map[] then Some(map[])
      else Some(One(Changed(Keep(oi + ei, props), oi)))
  {
    MergeOne(oi, ei);
    MergeFlat(oi, ei);
    var si := Keep(oi + ei, props);
    StoredOne(oi + ei, props);
    StoredOne(oi, props);
    assert One(si) == One(Keep(oi, props)) <==> si == Keep(oi, props) by {
      if One(si) == One(Keep(oi, props)) {
        assert One(si)[IntKey(0)] == One(Keep(oi, props))[IntKey(0)];
      }
    }
    assert Flat(si);
    DiffFlat(si, oi);
    assert DiffAssocRecursive(si, oi) == Changed(si, oi);
    if Changed(si, oi) == map[] {
      assert DiffAt(Arr(si), One(oi), IntKey(0)).None?;
      assert DiffAssocRecursive(One(si), One(oi)) == map[];
    } else {
      DiffOne(si, oi);
    }
  }

  /**
   * The same value on both sides reports nothing (the first case of the
   * service's kernel test, for any single-item field).
   */
  lemma SameValueReportsNothing(name: FieldName, item: map<Key, Value>, props: set<Key>)
    ensures OverriddenValues(Only(name, One(item), props), Only(name, One(item), props), {name}) == map[]
  {
    var f := Only(name, One(item), props);
    IdenticalGivesEmpty(f, f, {name});
  }

  /**
   * A changed stored scalar is reported whole (the second case: `foo1`
   * over `foo` in a string field's `value`).
   */
  lemma ChangedValueReported(name: FieldName, k: Key, edit: Scalar, old_: Scalar, props: set<Key>)
    requires k in props && edit != old_
    ensures OverriddenValues(Only(name, One(map[k := Leaf(edit)]), props),
                             Only(name, One(map[k := Leaf(old_)]), props), {name}) ==
            map[name := One(map[k := Leaf(edit)])]
  {
    var ei := map[k := Leaf(edit)];
    var oi := map[k := Leaf(old_)];
    assert oi + ei == ei;
    assert Keep(ei, props) == ei;
    assert Keep(oi, props) == oi;
    assert Changed(ei, oi) == ei by {
      assert k in Changed(ei, oi);
    }
    ReportOne(oi, ei, props);
    SingleField(name, One(ei), One(oi), props);
  }

  /**
   * A key that is not a stored property (the form's `button`) is no edit:
   * the merged field still equals the original (the third case, an image
   * item given back with a `button` entry).
   */
  lemma NonPropertyKeyReportsNothing(name: FieldName, oi: map<Key, Value>, button: Key, v: Scalar, props: set<Key>)
    requires Flat(oi) && oi.Keys <= props && button !in props
    ensures OverriddenValues(Only(name, One(oi[button := Leaf(v)]), props), Only(name, One(oi), props), {name}) == map[]
  {
    var ei := oi[button := Leaf(v)];
    assert oi + ei == ei;
    assert Keep(ei, props) == oi;
    assert Keep(oi, props) == oi;
    ReportOne(oi, ei, props);
    SingleField(name, One(ei), One(oi), props);
  }

  /**
   * Of an edited item, only the stored value that differs is reported: an
   * untouched key (`target_id`), the keys only the original holds (`title`,
   * `width`, `height`) and a non-property key (`button`) all stay out (the
   * fourth case, `alt override` over `alt`).
   */
  lemma ChangedPropertyReportedAlone(name: FieldName, oi: map<Key, Value>, same: Key, changed: Key, edit: Scalar,
                                     button: Key, v: Scalar, props: set<Key>)
    requires Flat(oi) && oi.Keys <= props && button !in props
    requires same in oi && changed in oi && same != changed && oi[changed] != Leaf(edit)
    ensures
      var ei := map[same := oi[same], changed := Leaf(edit), button := Leaf(v)];
      OverriddenValues(Only(name, One(ei), props), Only(name, One(oi), props), {name}) ==
        map[name := One(map[changed := Leaf(edit)])]
  {
    var ei := map[same := oi[same], changed := Leaf(edit), button := Leaf(v)];
    var si := oi[changed := Leaf(edit)];
    assert Keep(oi + ei, props) == si by {
      var l := Keep(oi + ei, props);
      assert button !in oi;
      assert l.Keys == si.Keys;
      forall k | k in l ensures l[k] == si[k] {
        if k == changed {
        } else if k == same {
        } else {
          assert k !in ei;
        }
      }
    }
    assert Keep(oi, props) == oi;
    assert Changed(si, oi) == map[changed := Leaf(edit)] by {
      var c := Changed(si, oi);
      assert changed in c;
      assert c.Keys == {changed};
    }
    ReportOne(oi, ei, props);
    SingleField(name, One(ei), One(oi), props);
  }
}
