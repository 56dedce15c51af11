/**
 * `OverrideEntityForm`, the dialog in which an editor overrides fields of a
 * referenced entity: reading the reference slot back from the property path
 * stamped on the entity, looking up which properties the slot lets an editor
 * override, hiding every other form component, and collecting the submitted
 * values of the allowed properties for the slot's hidden map input.
 */
module OverrideForm {
  import opened Wrappers
  import opened PhpArray
  import opened PhpString
  import opened Entities

  /**
   * `[$entity_type_id, $bundle, $field_name, $delta]`. A destructured element
   * that `explode` did not produce is NULL, here `None`.
   */
  datatype PathParts = PathParts(entityTypeId: string, bundle: Option<string>,
                                 fieldName: Option<string>, delta: Option<string>)

  /** The element `i` of an exploded list, NULL past its end. */
  function Nth(pieces: seq<string>, i: nat): Option<string>
  {
    if i < |pieces| then Some(pieces[i]) else None
  }

  /** The string PHP makes of a possibly NULL string: NULL becomes "". */
  function OrEmpty(s: Option<string>): string
  {
    if s.Some? then s.value else ""
  }

  /**
   * `getExtractedPropertyPath()`: split the path at '.' into the entity
   * part, the field name and the delta, and the entity part at ':' into the
   * entity type id and the bundle. The path is that stamped on the referenced
   * entity; a missing one reads as "". No part holds a separator it was split
   * at, and there is a field name exactly when the path holds a '.'.
   */
  function ExtractPropertyPath(path: Option<string>): (r: PathParts)
    ensures '.' !in r.entityTypeId && ':' !in r.entityTypeId
    ensures r.bundle.Some? ==> '.' !in r.bundle.value && ':' !in r.bundle.value
    ensures r.fieldName.Some? ==> '.' !in r.fieldName.value
    ensures r.delta.Some? ==> '.' !in r.delta.value && r.fieldName.Some?
    ensures r.fieldName.Some? <==> '.' in OrEmpty(path)
  {
    var pieces := Explode('.', OrEmpty(path));
    var entityType := Explode(':', pieces[0]);
    ExplodeSplits('.', OrEmpty(path));
    ExplodeWithout(':', pieces[0], '.');
    PathParts(entityType[0], Nth(entityType, 1), Nth(pieces, 1), Nth(pieces, 2))
  }

  /**
   * Round trip with the path the override item stamps: as long as the entity
   * type id and bundle hold neither '.' nor ':' and the field name holds no
   * '.', as Drupal machine names never do, the parts read back are those the
   * path was built from.
   */
  lemma ExtractStampedPath(host: Host, fieldName: FieldName, delta: nat)
    requires '.' !in host.entityType && ':' !in host.entityType
    requires '.' !in host.bundle && ':' !in host.bundle
    requires '.' !in fieldName
    ensures ExtractPropertyPath(Some(PropertyPath(host, fieldName, delta))) ==
      PathParts(host.entityType, Some(host.bundle), Some(fieldName), Some(NatToString(delta)))
  {
    var head := host.entityType + ":" + host.bundle;
    var digits := NatToString(delta);
    assert '.' !in digits;
    assert '.' !in head;
    var parts := [head, fieldName, digits];
    assert Implode('.', parts) == PropertyPath(host, fieldName, delta) by {
      assert Implode('.', parts[2..]) == digits;
      assert Implode('.', parts[1..]) == fieldName + "." + digits;
    }
    ExplodeImplode('.', parts);
    var inner := [host.entityType, host.bundle];
    assert Implode(':', inner) == head by {
      assert Implode(':', inner[1..]) == host.bundle;
    }
    ExplodeImplode(':', inner);
  }

  /** PHP's conversion of a value to bool, as `array_filter` applies it. */
  predicate Truthy(v: Value)
  {
    match v
    case Leaf(s) => ScalarTruthy(s)
    case Arr(m) => m != map[]
  }

  /**
   * `array_filter($options)`: the truthy entries, keys kept. The result keeps
   * exactly the truthy entries.
   */
  function ArrayFilter(a: PhpArr): (r: PhpArr)
    ensures forall k :: k in r <==> k in a && Truthy(a[k])
    ensures forall k :: k in r ==> r[k] == a[k]
  {
    map k | k in a && Truthy(a[k]) :: a[k]
  }

  /**
   * The key PHP makes of a string: the integer it renders, when it is the
   * rendering of an integer ("1", "-7", but not "01" or "-0"), and the string
   * itself otherwise.
   */
  function StringKey(s: string): (r: Key)
    ensures r.IntKey? ==> IntToString(r.n) == s
    ensures r.StrKey? ==> r.name == s && forall i :: IntToString(i) != s
  {
    if CanonicalDigits(s) then
      DecimalRoundTrip(s);
      IntKey(DecimalValue(s))
    else if |s| >= 2 && s[0] == '-' && CanonicalDigits(s[1..]) && s[1..] != "0" then
      NegativeRoundTrip(s);
      IntKey(NegativeValue(s))
    else
      NoIntString(s);
      StrKey(s)
  }

  /** The value of a '-' followed by a canonical digit string. */
  function NegativeValue(s: string): int
    requires |s| >= 2 && CanonicalDigits(s[1..])
  {
    -(DecimalValue(s[1..]) as int)
  }

  /** A negative integer string is the rendering of its value. */
  lemma NegativeRoundTrip(s: string)
    requires |s| >= 2 && s[0] == '-' && CanonicalDigits(s[1..]) && s[1..] != "0"
    ensures IntToString(NegativeValue(s)) == s
  {
    DecimalRoundTrip(s[1..]);
    DecimalPositive(s[1..]);
    assert "-" + s[1..] == s;
  }

  /** A string that is not an integer string is the rendering of no integer. */
  lemma NoIntString(s: string)
    requires !IsIntString(s)
    ensures forall i :: IntToString(i) != s
  {
    forall i ensures IntToString(i) != s {
      IntToStringIsIntString(i);
    }
  }

  /** Different strings make different keys. */
  lemma StringKeyInjective(s: string, t: string)
    requires s != t
    ensures StringKey(s) != StringKey(t)
  {
  }

  /**
   * `$setting[$bundle]['options']` as `??` reads it: the value found, or
   * `None` when a step of the lookup finds no array entry.
   */
  function OptionsEntry(setting: Value, bundle: string): Option<Value>
  {
    if setting.Arr? && StringKey(bundle) in setting.entries && setting.entries[StringKey(bundle)].Arr?
       && StrKey("options") in setting.entries[StringKey(bundle)].entries
    then Some(setting.entries[StringKey(bundle)].entries[StrKey("options")])
    else None
  }

  /**
   * `$setting[$bundle]['options'] ?? []`: the options stored for a bundle,
   * or `[]` when the lookup finds nothing or NULL. A non-null scalar found
   * there is handed to `array_filter`, which rejects it, so it is a failure.
   */
  function OptionsOf(setting: Value, bundle: string): Result<PhpArr, string>
  {
    match OptionsEntry(setting, bundle)
    case None => Success(map[])
    case Some(Arr(options)) => Success(options)
    case Some(Leaf(Null)) => Success(map[])
    case Some(Leaf(_)) => Failure("array_filter() expects an array")
  }

  /** The options stored for other bundles never matter. */
  lemma OtherBundlesIgnored(m: PhpArr, bundle: string, other: string, v: Value)
    requires other != bundle
    ensures OptionsOf(Arr(m[StrKey(other) := v]), bundle) == OptionsOf(Arr(m), bundle)
  {
    assert StrKey(other) != StringKey(bundle);
  }

  /**
   * `getOverwritableProperties($referenced_entity)`. `definitions` stands for
   * the entity field manager: for an entity type id and a bundle, each
   * field's `overwritable_properties` setting. A field name the host bundle
   * has no definition for is a failure (a method call on NULL); otherwise the
   * result is the truthy options for the referenced entity's bundle, with
   * their keys, and a failure exactly when those options cannot be filtered.
   */
  function OverwritableProperties(definitions: (string, string) -> map<FieldName, Value>,
                                  path: Option<string>, referencedBundle: string): (r: Result<PhpArr, string>)
    ensures var parts := ExtractPropertyPath(path);
      var defs := definitions(parts.entityTypeId, OrEmpty(parts.bundle));
      var field := OrEmpty(parts.fieldName);
      && (field !in defs ==> r.Failure?)
      && (field in defs ==> (r.Success? <==> OptionsOf(defs[field], referencedBundle).Success?))
      && (r.Success? ==>
            var options := OptionsOf(defs[field], referencedBundle).value;
            && (forall k :: k in r.value <==> k in options && Truthy(options[k]))
            && (forall k :: k in r.value ==> r.value[k] == options[k]))
  {
    var parts := ExtractPropertyPath(path);
    var defs := definitions(parts.entityTypeId, OrEmpty(parts.bundle));
    var field := OrEmpty(parts.fieldName);
    if field !in defs then Failure("no definition for the field")
    else
      match OptionsOf(defs[field], referencedBundle)
      case Success(options) => Success(ArrayFilter(options))
      case Failure(e) => Failure(e)
  }

  /**
   * A missing bundle entry or a missing `options` entry gives an empty list:
   * nothing can be overridden, and no failure.
   */
  lemma NoOptionsNoProperties(definitions: (string, string) -> map<FieldName, Value>,
                              path: Option<string>, referencedBundle: string)
    requires var parts := ExtractPropertyPath(path);
      var defs := definitions(parts.entityTypeId, OrEmpty(parts.bundle));
      && OrEmpty(parts.fieldName) in defs
      && var setting := defs[OrEmpty(parts.fieldName)];
         !(setting.Arr? && StringKey(referencedBundle) in setting.entries
           && setting.entries[StringKey(referencedBundle)].Arr?
           && StrKey("options") in setting.entries[StringKey(referencedBundle)].entries)
    ensures OverwritableProperties(definitions, path, referencedBundle) == Success(map[])
  {
  }

  /**
   * `$name == $option` under PHP 8's loose comparison of a string with a
   * value. Comparisons of numeric strings as numbers are not modelled.
   */
  predicate LooseEquals(name: string, v: Value)
  {
    match v
    case Leaf(Str(s)) => name == s
    case Leaf(Int(i)) => name == IntToString(i)
    case Leaf(Bool(b)) => ScalarTruthy(Str(name)) == b
    case Leaf(Null) => name == ""
    case Arr(_) => false
  }

  /** `in_array($name, $haystack)`: some value of the array loosely equals the name. */
  predicate InArray(name: string, haystack: PhpArr)
  {
    exists k :: k in haystack && LooseEquals(name, haystack[k])
  }

  /** An option given as the component's own name allows it. */
  lemma OwnNameAllows(name: string, haystack: PhpArr, k: Key)
    requires k in haystack && haystack[k] == Leaf(Str(name))
    ensures InArray(name, haystack)
  {
  }

  /** An entity form display: its components by name, and the names it hides. */
  class FormDisplay {
    var components: map<string, Value>
    var hidden: set<string>

    constructor(components: map<string, Value>)
      ensures this.components == components && hidden == {}
    {
      this.components := components;
      hidden := {};
    }

    /** `removeComponent($name)`: the component is dropped and marked hidden. */
    method RemoveComponent(name: string)
      modifies this
      ensures components == old(components) - {name}
      ensures hidden == old(hidden) + {name}
    {
      components := components - {name};
      hidden := hidden + {name};
    }
  }

  /** The components the form keeps: those whose name is in the allow-list. */
  function KeptComponents(components: map<string, Value>, allowed: PhpArr): (r: map<string, Value>)
    ensures r.Keys <= components.Keys
    ensures forall n :: n in components ==> (n in r <==> InArray(n, allowed))
    ensures forall n :: n in r ==> r[n] == components[n]
  {
    map n | n in components && InArray(n, allowed) :: components[n]
  }

  /**
   * The loop of `buildForm` over the display's components (a copy taken
   * before the loop): every component whose name is not among the
   * overwritable properties is removed.
   */
  method RemoveDisallowedComponents(display: FormDisplay, allowed: PhpArr)
    modifies display
    ensures display.components == KeptComponents(old(display.components), allowed)
    ensures display.hidden == old(display.hidden) + (old(display.components).Keys - KeptComponents(old(display.components), allowed).Keys)
  {
    var components := display.components;
    var todo := components.Keys;
    ghost var done: set<string> := {};
    while todo != {}
      invariant todo !! done && todo + done == components.Keys
      invariant display.components == components - (done - KeptComponents(components, allowed).Keys)
      invariant display.hidden == old(display.hidden) + (done - KeptComponents(components, allowed).Keys)
      decreases todo
    {
      var name :| name in todo;
      if !InArray(name, allowed) {
        display.RemoveComponent(name);
      }
      todo := todo - {name};
      done := done + {name};
    }
    assert display.components == KeptComponents(components, allowed);
  }

  /** `$values[$name]`: the key PHP makes of a name. An array cannot be a key. */
  function KeyOf(name: Value): Option<Key>
  {
    match name
    case Leaf(Str(s)) => Some(StringKey(s))
    case Leaf(Int(i)) => Some(IntKey(i))
    case Leaf(Bool(b)) => Some(IntKey(if b then 1 else 0))
    case Leaf(Null) => Some(StrKey(""))
    case Arr(_) => None
  }

  /** `$form_state->getValue($name)`: the submitted value, NULL when there is none. */
  function FormValue(formValues: PhpArr, k: Key): Value
  {
    if k in formValues then formValues[k] else Leaf(Null)
  }

  /** The `$values` the dialog submits: each allowed name with its submitted value. */
  function SubmittedValues(allowed: PhpArr, formValues: PhpArr): (r: PhpArr)
    requires forall k :: k in allowed ==> KeyOf(allowed[k]).Some?
    ensures forall k :: k in r ==> r[k] == FormValue(formValues, k)
  {
    map k | k in (set a | a in allowed :: KeyOf(allowed[a]).value) :: FormValue(formValues, k)
  }

  /**
   * The `foreach` of `successfulAjaxSubmit`: collect the submitted value of
   * every overwritable property. It fails on an array among the names, which
   * PHP cannot use as a key.
   */
  method CollectValues(allowed: PhpArr, formValues: PhpArr) returns (r: Result<PhpArr, string>)
    ensures r.Success? <==> forall k :: k in allowed ==> KeyOf(allowed[k]).Some?
    ensures r.Success? ==> r.value == SubmittedValues(allowed, formValues)
  {
    var values: PhpArr := map[];
    var todo := allowed.Keys;
    ghost var done: set<Key> := {};
    while todo != {}
      invariant todo !! done && todo + done == allowed.Keys
      invariant forall a :: a in done ==> KeyOf(allowed[a]).Some?
      invariant values == map k | k in (set a | a in done :: KeyOf(allowed[a]).value) :: FormValue(formValues, k)
      decreases todo
    {
      var a :| a in todo;
      var key := KeyOf(allowed[a]);
      if key.None? {
        return Failure("Illegal offset type");
      }
      ghost var before := set b | b in done :: KeyOf(allowed[b]).value;
      assert (set b | b in done + {a} :: KeyOf(allowed[b]).value) == before + {key.value};
      values := values[key.value := FormValue(formValues, key.value)];
      todo := todo - {a};
      done := done + {a};
    }
    return Success(values);
  }

  /**
   * The submitted values hold exactly the allowed names: a name that is not
   * an overwritable property is never submitted, and every overwritable
   * property is, with its form value or NULL.
   */
  lemma SubmittedExactlyAllowed(allowed: PhpArr, formValues: PhpArr, k: Key)
    requires forall a :: a in allowed ==> KeyOf(allowed[a]).Some?
    ensures k in SubmittedValues(allowed, formValues) <==> exists a :: a in allowed && KeyOf(allowed[a]) == Some(k)
  {
    if exists a :: a in allowed && KeyOf(allowed[a]) == Some(k) {
      var a :| a in allowed && KeyOf(allowed[a]) == Some(k);
      assert k in (set b | b in allowed :: KeyOf(allowed[b]).value);
    }
  }

  /** The jQuery selector of the slot's hidden `overwritten_property_map` input. */
  function Selector(parts: PathParts): string
  {
    "[name=\"" + OrEmpty(parts.fieldName) + "[" + OrEmpty(parts.delta) + "][overwritten_property_map]\"]"
  }

  /** For a stamped path, the selector names the slot's own field and delta. */
  lemma SelectorOfStampedPath(host: Host, fieldName: FieldName, delta: nat)
    requires '.' !in host.entityType && ':' !in host.entityType
    requires '.' !in host.bundle && ':' !in host.bundle
    requires '.' !in fieldName
    ensures Selector(ExtractPropertyPath(Some(PropertyPath(host, fieldName, delta)))) ==
      "[name=\"" + fieldName + "[" + NatToString(delta) + "][overwritten_property_map]\"]"
  {
    ExtractStampedPath(host, fieldName, delta);
  }

  /**
   * `successfulAjaxSubmit()` without the AJAX response: the selector of the
   * slot and the values to encode into it.
   */
  method SuccessfulAjaxSubmit(definitions: (string, string) -> map<FieldName, Value>,
                              path: Option<string>, referencedBundle: string, formValues: PhpArr)
    returns (r: Result<(string, PhpArr), string>)
    ensures var props := OverwritableProperties(definitions, path, referencedBundle);
      && (r.Success? <==> props.Success? && forall k :: k in props.value ==> KeyOf(props.value[k]).Some?)
      && (r.Success? ==> r.value == (Selector(ExtractPropertyPath(path)), SubmittedValues(props.value, formValues)))
  {
    var parts := ExtractPropertyPath(path);
    var props := OverwritableProperties(definitions, path, referencedBundle);
    if props.Failure? {
      return Failure(props.error);
    }
    var values := CollectValues(props.value, formValues);
    if values.Failure? {
      return Failure(values.error);
    }
    var selector := Selector(parts);
    return Success((selector, values.value));
  }
}
