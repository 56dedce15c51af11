# Entity reference override: a Dafny model

This project models the override engine of the Drupal module
`media_library_media_modify` (entity reference override). An entity reference
field item can carry an `overwritten_property_map`: for some fields of the
referenced entity (a media item, say), values that apply only to this one
reference. The model covers four parts:

- **Authoring.** `EntityReferenceOverrideService::getOverriddenValues` merges
  the original's values under an edited copy of the referenced entity, field
  by field. It then reports, for every field that no longer equals the
  original, the stored values that differ. This becomes the map.
- **Reading, override variant.** `EntityReferenceOverrideItem::__get('entity')`
  returns a clone of the referenced entity with the map applied to the default
  translation and to the item's language. The default translation is tagged
  with the host's cache tags, and the clone is flagged as overwritten and
  stamped with the slot's property path (`type:bundle.field.delta`). `preSave`
  stores an empty map as `[]`.
- **Reading, modify variant.** `EntityReferenceEntityModifyItem::__get('entity')`
  is the JSON-stored variant. It applies the map to one translation only. It
  tags that translation, and stamps the clone, only when the map is not empty.
- **The override dialog.** `OverrideEntityForm` reads the slot back from the
  stamped path and looks up the overwritable properties. It removes every
  other component from the form display and collects the submitted values of
  the allowed properties.

The Dafny modules follow the code:

| module | contents |
|---|---|
| `PhpArray` | PHP's nested arrays, and Drupal core's `NestedArray::mergeDeepArray` and `DiffArray::diffAssocRecursive`. |
| `PhpString` | `explode`, `implode` and integer rendering. |
| `Entities` | Field items, translations, and the `Entity` class with its in-place `set`, cache-dependency and property updates. The flag and the two paths are non-field values, which all translation objects of an entity share, so they are fields of `Entity`, not of a translation. |
| `Overwrite` | The `overwriteFields` loop the two item types share. |
| `OverrideService`, `ServiceCases` | The authoring diff, and the cases of its kernel test. |
| `OverrideItem`, `ModifyItem` | The two field item types. |
| `RoundTrip` | Authoring and reading together. |
| `OverrideForm` | The override dialog. |

Both item types' `__get` are methods on classes whose fields are the item's
values. Each is proved against pure view functions: `ReadView` and
`ReadPlain`, or `ModifyView` and `ModifyPlain`. The service's loop is a method proved against the functions
`OverriddenValues` and `MergedFields`.

## Model

| member | source | states |
|---|---|---|
| PhpArray.MergeDeep | src/EntityReferenceOverrideService.php:33-36 | The merge's keys are exactly the keys of both arrays. |
| PhpArray.IntersectKey | src/Plugin/Field/FieldType/EntityReferenceOverrideItem.php:92 | Keeps exactly the entries whose key the second array has, with their values. |
| PhpArray.MergeDeepSelf | src/EntityReferenceOverrideService.php:33-36 | Merging an array onto itself gives it back. |
| PhpArray.MergeDeepOntoEmpty | src/EntityReferenceOverrideService.php:33-36 | Merging onto an empty array gives the edit. |
| PhpArray.MergeDeepIdempotent | src/Plugin/Field/FieldType/EntityReferenceOverrideItem.php:93-96 | Merging the same edit twice is merging it once. |
| PhpArray.MergeDeepAbsorb | src/EntityReferenceOverrideService.php:33-36 | Merging the original under an already merged edit changes nothing. |
| PhpArray.MergeDeepScalarWins | src/EntityReferenceOverrideService.php:33-36 | A scalar of the edit wins at its key. |
| PhpArray.MergeDeepKeepsUnmentioned | src/EntityReferenceOverrideService.php:33-36 | A key the edit does not mention keeps the original's value. |
| PhpArray.MergeDeepRecurses | src/EntityReferenceOverrideService.php:33-36 | Where both sides hold arrays, the merge recurses. |
| PhpArray.MergeDeepCovers | src/EntityReferenceOverrideService.php:33-36 | The merge result covers the original at every level. |
| PhpArray.DiffAssocRecursive | src/EntityReferenceOverrideService.php:44 | The difference has no key that the first array lacks. |
| PhpArray.DiffAgainstEmpty | src/EntityReferenceOverrideService.php:44 | The difference against an empty array is the whole array. |
| PhpArray.DiffSelf | src/EntityReferenceOverrideService.php:44 | An array differs from itself in nothing. |
| PhpArray.DiffOfSubTree | src/EntityReferenceOverrideService.php:44 | A sub-tree of `b` differs from `b` in nothing. |
| PhpArray.DiffIsSubTree | src/EntityReferenceOverrideService.php:44 | The difference is a sub-tree of the first array. |
| PhpArray.DiffOfMergeWithinEdit | src/EntityReferenceOverrideService.php:33-44 | The merge of an edit onto a sub-tree of `o`, diffed against `o`, is a sub-tree of the edit. |
| PhpArray.EmptyDiffOfCoverIsEqual | src/EntityReferenceOverrideService.php:38-44 | An array that covers `c` and differs from it in nothing is `c`. |
| PhpArray.MergeOfDiffRestores | src/Plugin/Field/FieldType/EntityReferenceOverrideItem.php:93-96 | Merging `m`'s difference from `c` back onto `c` gives `m`, when `m` covers `c`. |
| PhpArray.MergeDiffMergeIdempotent | src/EntityReferenceOverrideService.php:33-44 | Merging back the difference of a merge reproduces the merge. |
| PhpString.Explode | src/Form/OverrideEntityForm.php:173-174 | No piece holds the separator, there is at least one piece, and imploding the pieces gives the string back. |
| PhpString.ExplodeImplode | src/Form/OverrideEntityForm.php:173-174 | Exploding an implosion of separator-free pieces gives the pieces back. |
| PhpString.ExplodeSplits | src/Form/OverrideEntityForm.php:173-174 | There are two pieces or more exactly when the separator occurs. |
| PhpString.ExplodeWithout | src/Form/OverrideEntityForm.php:173-174 | A character absent from the string is absent from every piece. |
| PhpString.NatToString | src/Plugin/Field/FieldType/EntityReferenceOverrideItem.php:70 | The rendering is made of decimal digits whose value is the number. |
| Entities.StoredItems | src/EntityReferenceOverrideService.php:40-43 | Restricting items to their stored properties keeps every delta. |
| Entities.StoredItemsIsSubTree | src/EntityReferenceOverrideService.php:40-43 | The stored values are a sub-tree of the items. |
| Entities.StoredItemsOfMerge | src/EntityReferenceOverrideService.php:33-43 | Restricting to stored properties commutes with the deep merge. |
| Entities.Entity.Clone | src/Plugin/Field/FieldType/EntityReferenceOverrideItem.php:61 | The clone holds the source's translations and non-field values. |
| Entities.Entity.Set | src/EntityReferenceOverrideService.php:33-36 | Only the named field of the named translation takes the new items. The non-field values are unchanged. |
| Entities.Entity.AddCacheableDependency | src/Plugin/Field/FieldType/EntityReferenceOverrideItem.php:67 | The host's cache tags are added to one translation object, and nothing else changes. |
| Entities.Entity.MarkOverwritten | src/Plugin/Field/FieldType/EntityReferenceOverrideItem.php:68 | The entity is flagged, for every translation at once, and nothing else changes. |
| Entities.Entity.StampOverridePath | src/Plugin/Field/FieldType/EntityReferenceOverrideItem.php:70 | The entity carries the path, for every translation at once, and nothing else changes. |
| Entities.Entity.StampModifyPath | src/Plugin/Field/FieldType/EntityReferenceEntityModifyItem.php:125 | The entity carries the path, for every translation at once, and nothing else changes. |
| OverrideService.OverriddenValues | src/EntityReferenceOverrideService.php:27-48 | The report has an entry only for listed fields. |
| OverrideService.MergedFields | src/EntityReferenceOverrideService.php:33-36 | Unlisted fields are untouched, and the field set is unchanged. |
| OverrideService.MergedItemsIsList | src/EntityReferenceOverrideService.php:33-36 | Two lists (deltas 0 to n - 1) merge into a list. |
| OverrideService.Report | src/EntityReferenceOverrideService.php:38-44 | A field's report is a sub-tree of the edited field's stored values: original-only keys and non-property keys never appear, and every reported scalar is the edited one. |
| OverrideService.GetOverriddenValues | src/EntityReferenceOverrideService.php:27-48 | Succeeds exactly when every listed name is a field of both entities, in the translations the two objects stand for. The result is `OverriddenValues` of the edited and original fields. The edited translation ends with every listed field merged. Its other translations and its non-field values are unchanged. |
| OverrideService.SelfMergeChangesNothing | src/EntityReferenceOverrideService.php:29-45 | Passing the same entity as edited and original leaves every field as it was and reports nothing. |
| OverrideService.MergeNext | src/EntityReferenceOverrideService.php:29-45 | One iteration for one field name: it fails exactly on a name missing from either entity, and otherwise moves the loop state from `i` fields to `i + 1`. |
| OverrideService.MergeField | src/EntityReferenceOverrideService.php:30-45 | Setting the merged items, comparing the field after the set with the original and reporting it extend the merged state and the report from `done` to `done + {name}`. |
| OverrideService.IdenticalGivesEmpty | src/EntityReferenceOverrideService.php:38 | Identical fields report nothing. |
| OverrideService.ReportedValuesAreEdits | src/EntityReferenceOverrideService.php:27-48 | Every entry of the service's result is a sub-tree of the edited field's stored values. |
| OverrideService.ReportedValuesRestoreEdit | src/EntityReferenceOverrideService.php:33-44 | For items holding only stored properties, with no new delta: merging the report back onto the original gives the merged edit, and an unreported field already equals it. |
| ServiceCases.SameValueReportsNothing | tests/src/Kernel/EntityReferenceOverrideServiceTest.php:74 | The same value on both sides reports nothing. |
| ServiceCases.ChangedValueReported | tests/src/Kernel/EntityReferenceOverrideServiceTest.php:75-80 | A changed stored scalar is reported whole. |
| ServiceCases.NonPropertyKeyReportsNothing | tests/src/Kernel/EntityReferenceOverrideServiceTest.php:81-86 | A non-property key such as `button` is no edit. |
| ServiceCases.ChangedPropertyReportedAlone | tests/src/Kernel/EntityReferenceOverrideServiceTest.php:87-100 | Only the changed stored value is reported. Untouched, original-only and non-property keys stay out. |
| ServiceCases.ReportOne | src/EntityReferenceOverrideService.php:33-44 | For a one-item field of scalars, the report is none when the stored values are unchanged, and otherwise the changed stored entries. |
| Overwrite.Applied | src/Plugin/Field/FieldType/EntityReferenceOverrideItem.php:86-100 | Every mapped field takes the updated items, and every other field is unchanged. |
| Overwrite.SetFields | src/Plugin/Field/FieldType/EntityReferenceOverrideItem.php:86-100 | Succeeds exactly when every name of the map is a field. The translation then holds `Applied` of its fields, whatever order the map is in. |
| Overwrite.AppliedTwice | src/Plugin/Field/FieldType/EntityReferenceOverrideItem.php:86-100 | Applying a map twice is applying it once, when each field's update is idempotent. |
| OverrideItem.OverrideValue | src/Plugin/Field/FieldType/EntityReferenceOverrideItem.php:87-98 | A scalar, and an array over an empty field, are set as they are. An array over a non-empty field keeps exactly the field's deltas. |
| OverrideItem.ScalarOverrideReplaces | src/Plugin/Field/FieldType/EntityReferenceOverrideItem.php:87-99 | A scalar replaces the field, and NULL empties it. |
| OverrideItem.ArrayOverrideOntoEmpty | src/Plugin/Field/FieldType/EntityReferenceOverrideItem.php:88-99 | Over an empty field, an array is taken as the field's items. |
| OverrideItem.ArrayOverrideKeepsDeltas | src/Plugin/Field/FieldType/EntityReferenceOverrideItem.php:88-98 | Over a non-empty field, no delta is added or removed. Unmentioned deltas are kept, scalars win and arrays merge. |
| OverrideItem.DeeperKeysKept | src/Plugin/Field/FieldType/EntityReferenceOverrideItem.php:92-96 | Below an existing delta, every key of the override survives. |
| OverrideItem.OverrideKeepsList | src/Plugin/Field/FieldType/EntityReferenceOverrideItem.php:87-99 | Over a list, every override hands `set()` a list, provided an array set over an empty field is one. |
| OverrideItem.OverrideIdempotent | src/Plugin/Field/FieldType/EntityReferenceOverrideItem.php:87-99 | Overriding twice with the same value is overriding once. |
| OverrideItem.OverwriteTwice | src/Plugin/Field/FieldType/EntityReferenceOverrideItem.php:63-65 | Overwriting a translation twice with a map equals overwriting it once. This covers a default translation that is also the item's language. |
| OverrideItem.EmptyMapPassthrough | src/Plugin/Field/FieldType/EntityReferenceOverrideItem.php:61-70 | An empty or NULL map gives the referenced translations exactly, with no tags, and no flag. Only the path is stamped. |
| OverrideItem.OverriddenView | src/Plugin/Field/FieldType/EntityReferenceOverrideItem.php:62-70 | A non-empty map overwrites the default translation and the chosen one, and tags the default. The entity is flagged and stamped. |
| OverrideItem.ReadView | src/Plugin/Field/FieldType/EntityReferenceOverrideItem.php:61-67 | The clone has the same translations. One that is neither the default nor the item's language is left as it is. |
| OverrideItem.ReadFailsOnUnknownField | src/Plugin/Field/FieldType/EntityReferenceOverrideItem.php:63-65 | Reading fails exactly when a map name is not a field of a translation it is applied to. |
| OverrideItem.ReadViewSteps | src/Plugin/Field/FieldType/EntityReferenceOverrideItem.php:62-67 | `ReadView` equals the sequence of in-place steps `__get` takes on the translations. |
| OverrideItem.EntityReferenceOverrideItem.OverwriteFields | src/Plugin/Field/FieldType/EntityReferenceOverrideItem.php:85-101 | The translation's fields become `Applied` with the override rule, or the call fails on an unknown name. The non-field values are unchanged. |
| OverrideItem.EntityReferenceOverrideItem.GetEntity | src/Plugin/Field/FieldType/EntityReferenceOverrideItem.php:58-75 | NULL without a target. Otherwise a fresh clone whose translations are `ReadView` and whose non-field values are `ReadPlain` of the target, failing exactly where `ReadView` does. |
| OverrideItem.EntityReferenceOverrideItem.PreSave | src/Plugin/Field/FieldType/EntityReferenceOverrideItem.php:106-111 | An empty map is stored as `[]`, and any other map is kept. Only the stored map changes, and what the item reads, flag and path included, stays the same. |
| OverrideItem.PreSaveKeepsView | src/Plugin/Field/FieldType/EntityReferenceOverrideItem.php:106-111 | Saving does not change what the item reads, flag and path included. |
| OverrideItem.MultivalueExample | tests/src/Kernel/EntityReferenceOverrideItemTest.php:136-152 | The name is replaced, the description merges into the file item, and a text for a missing delta is dropped. |
| OverrideItem.DescriptionMergesIntoFile | tests/src/Kernel/EntityReferenceOverrideItemTest.php:138 | The description merges into the file item and keeps its target. |
| OverrideItem.ExtraDeltaDropped | tests/src/Kernel/EntityReferenceOverrideItemTest.php:139 | A value for delta 1 of a one-item field is dropped. |
| RoundTrip.ReportedMapReadsBackAsEdit | src/EntityReferenceOverrideService.php:27-48 | Read back through the reported map, the original shows the merged edit in every listed field, under the same conditions as `ReportedValuesRestoreEdit`. |
| ModifyItem.EmptyArrayClears | src/Plugin/Field/FieldType/EntityReferenceEntityModifyItem.php:110 | An empty array empties a field here, but leaves it in the override item. |
| ModifyItem.SameAsOverrideOtherwise | src/Plugin/Field/FieldType/EntityReferenceEntityModifyItem.php:109-121 | Every other value is set as the override item sets it. |
| ModifyItem.SameFieldsAsOverride | src/Plugin/Field/FieldType/EntityReferenceEntityModifyItem.php:108-122 | Maps without an empty array overwrite fields as the override item does. |
| ModifyItem.ModifyValue | src/Plugin/Field/FieldType/EntityReferenceEntityModifyItem.php:109-120 | An empty array empties the field. A non-empty array over a non-empty field keeps exactly the field's deltas. |
| ModifyItem.Modified | src/Plugin/Field/FieldType/EntityReferenceEntityModifyItem.php:107-126 | The fields are overwritten. The host's tags are added exactly when the map is not empty. |
| ModifyItem.ModifyPassthrough | src/Plugin/Field/FieldType/EntityReferenceEntityModifyItem.php:80-97 | An empty or missing map gives the translations and the non-field values unchanged: no tags and no path. |
| ModifyItem.ModifyView | src/Plugin/Field/FieldType/EntityReferenceEntityModifyItem.php:86-93 | The clone has the same translations, and every one but the chosen one is left as it is. |
| ModifyItem.ModifyTouchesOneTranslation | src/Plugin/Field/FieldType/EntityReferenceEntityModifyItem.php:87-93 | The chosen translation is the item's language if the entity has it, otherwise the default. Its fields are overwritten, and reading fails exactly on an unknown name. |
| ModifyItem.EntityReferenceEntityModifyItem.OverwriteFields | src/Plugin/Field/FieldType/EntityReferenceEntityModifyItem.php:107-127 | The translation becomes `Modified` and the non-field values `ModifyPlain`, or the call fails on an unknown name. |
| ModifyItem.EntityReferenceEntityModifyItem.GetEntity | src/Plugin/Field/FieldType/EntityReferenceEntityModifyItem.php:80-97 | NULL without a target. Otherwise a fresh clone holding `ModifyView` and `ModifyPlain`, failing exactly where `ModifyView` does. |
| OverrideForm.ExtractStampedPath | src/Form/OverrideEntityForm.php:172-176 | Reading a stamped path gives back its entity type, bundle, field name and delta. |
| OverrideForm.ExtractPropertyPath | src/Form/OverrideEntityForm.php:172-176 | No part holds a separator it was split at. There is a field name exactly when the path holds a '.', and a delta only with a field name. |
| OverrideForm.ArrayFilter | src/Form/OverrideEntityForm.php:195 | Keeps exactly the truthy entries, with their keys. |
| OverrideForm.OverwritableProperties | src/Form/OverrideEntityForm.php:192-196 | A missing field definition is a failure. Otherwise it succeeds exactly when the bundle's options can be filtered, and returns exactly their truthy entries, with keys and values. |
| OverrideForm.OtherBundlesIgnored | src/Form/OverrideEntityForm.php:195 | Options stored for other bundles never change the result. |
| OverrideForm.NoOptionsNoProperties | src/Form/OverrideEntityForm.php:195 | With no options stored for the bundle, nothing is overwritable. |
| OverrideForm.OwnNameAllows | src/Form/OverrideEntityForm.php:136 | An option equal to the component's name allows the component. |
| OverrideForm.FormDisplay.RemoveComponent | src/Form/OverrideEntityForm.php:137 | The component is dropped and hidden. |
| OverrideForm.KeptComponents | src/Form/OverrideEntityForm.php:135-139 | A component is kept exactly when its name is in the allow-list. |
| OverrideForm.RemoveDisallowedComponents | src/Form/OverrideEntityForm.php:135-139 | The display ends with exactly the allowed components, and all others are hidden. |
| OverrideForm.SubmittedValues | src/Form/OverrideEntityForm.php:219-222 | Each entry is the submitted value of its name, or NULL. |
| OverrideForm.StringKey | src/Form/OverrideEntityForm.php:220 | A string that renders an integer becomes that integer key. Any other string stays a string key and renders no integer. |
| OverrideForm.StringKeyInjective | src/Form/OverrideEntityForm.php:220 | Different strings never collide as keys. |
| OverrideForm.CollectValues | src/Form/OverrideEntityForm.php:219-222 | Succeeds exactly when every option can be an array key, and then returns `SubmittedValues`. |
| OverrideForm.SubmittedExactlyAllowed | src/Form/OverrideEntityForm.php:219-222 | A name is submitted exactly when it is an overwritable property. |
| OverrideForm.SelectorOfStampedPath | src/Form/OverrideEntityForm.php:224 | For a stamped path, the selector names the slot's own field and delta. |
| OverrideForm.SuccessfulAjaxSubmit | src/Form/OverrideEntityForm.php:211-231 | Succeeds exactly when the properties can be read and used as keys. Returns the slot's selector and the submitted values. |

## Left out

- PHP arrays are ordered and Dafny maps are not, so key order is not modelled. Keys are taken in canonical form: PHP stores the string key "1" as the integer 1, and so does the model wherever a string becomes a key (`OverrideForm.StringKey`).
- Floating-point scalars are not modelled.
- `FieldItemList::equals` compares with PHP's loose `==` after filtering. The model compares the stored values exactly, so a loosely equal but not identical edit (`"1"` against `1`) is reported here where Drupal would report nothing.
- `toArray()` also fills defined but unset properties with NULL. The model keeps only the properties an item holds.
- `set()` wraps a bare scalar in the field's main property (`['value' => …]`). The model keeps the scalar as the item at delta 0.
- All fields are treated as translatable. An untranslatable field shared by all translations is not modelled.
- The core `getTranslation()` is not part of this model. For a language the entity lacks, the model resolves it to the default translation.
- Drupal throws when a map names a field the entity lacks. The model returns a failure instead, and the clone is discarded.
- JSON encoding and decoding of the modify variant's map, and invalid JSON, are left out. The map is taken already decoded.
- The form's temp-store, its HMAC token, rendering, and the AJAX response and its commands are left out. The form display repository and the entity field manager are parameters.
- `LooseEquals`: PHP 8's comparison of two numeric strings as numbers is not modelled.
- The widgets, the migrate commands, the exception class, the schema and the field settings form are not part of this model.
- OverrideService.GetOverriddenValues: each entity object stands for one translation, given as a language parameter. A caller may pass any translation, or the same object twice. The model covers both, but it does not model how Drupal picks that translation.
- OverrideForm.StringKey: PHP keeps a digit string beyond `PHP_INT_MAX` as a string key. The model has unbounded integers and makes it an integer key.
- Entities.Entity.Set: Drupal's `FieldItemList::setValue` wraps an array whose first key is not numeric as the single item at delta 0, and `ItemList::setValue` renumbers the deltas in order. The model keeps the array's keys as the deltas. The two agree on lists (deltas 0 to n - 1). The engine hands `set()` lists whenever it is given lists (`OverrideService.MergedItemsIsList`, `OverrideItem.OverrideKeepsList`). They differ for a sparse or associative array set over an empty field. Drupal core's `FieldItemList` is not part of this model.
- OverrideItem.ArrayOverrideOntoEmpty: over an empty field the model sets the array's keys as the deltas. Drupal renumbers them in order, so a map entry for delta 1 alone lands at delta 0, and it wraps an associative array as one item.
- OverrideService.ReportedValuesRestoreEdit: stated only for items that hold nothing but stored properties and gain no new delta. Outside those conditions the read side drops deltas or keeps non-property keys.

## Behaviour of the code

- Reading applies every name of the stored map. No allow-list is consulted (`Overwrite.Applied`). The allow-list is used only by the dialog (`OverrideForm.RemoveDisallowedComponents`).
- Only deltas are filtered. `overwriteFields` drops the deltas the field does not have (`OverrideItem.ExtraDeltaDropped`). Below an existing delta every key of the map survives (`OverrideItem.DeeperKeysKept`).
- A map naming a field the entity does not have is not skipped: Drupal throws (`OverrideItem.ReadFailsOnUnknownField`).
- The override item stamps the property path on every read, also for an empty map (`OverrideItem.EmptyMapPassthrough`).
