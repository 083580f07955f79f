/** Type-directed coercion of raw input values (`_get_typed_field_value`) and
    the construction of input object containers from a raw mapping
    (`InputObjectTypeContainer.__init__`), as pure functions.

    A raw value is walked along the type the input object declares for it:
    a required (`NonNull`) marker is unwrapped without any presence check, a
    list type maps over the raw list, an input object type hands the raw value
    to its container, and anything else is passed through untouched. */
module Coercion {

  import opened Wrappers

  /** A raw input value: Python's `None`, an opaque scalar, a list or a dict. */
  datatype Value =
    | Null
    | Atom(literal: string)
    | List(items: seq<Value>)
    | Dict(entries: map<string, Value>)

  /** The container class of an input object type: the one synthesised from the
      type's own class, or a class supplied in the type's `Meta`. */
  datatype ContainerFactory = Synthesized(typeName: string) | Supplied(className: string)

  /** What a field is declared with. `Plain` stands for everything whose `_meta`
      has no `container` (scalars, enums, and any other declaration), which
      coercion passes through. */
  datatype TypeRef =
    | Plain
    | NonNull(ofType: TypeRef)
    | ListOf(ofType: TypeRef)
    | InputObject(meta: InputMeta)

  /** The `_meta` of an input object type: the keys of its collected fields in
      order, the class attributes the container finds for them (a missing key
      is an attribute that is absent or `None`), and its container class. */
  datatype InputMeta = InputMeta(
    name: string,
    fieldNames: seq<string>,
    classAttrs: map<string, TypeRef>,
    container: ContainerFactory)

  /** A coerced value: a raw value passed through, a freshly built list, or a
      container whose mapping view `dict` holds the raw entries and whose
      attributes `attrs` hold the coerced field values. */
  datatype Typed =
    | Raw(raw: Value)
    | TypedList(elems: seq<Typed>)
    | Instance(factory: ContainerFactory, dict: map<string, Value>, attrs: map<string, Typed>)

  /** The `TypeError`s coercion can raise: iterating a value that is not a list,
      or building a container (a `dict`) from a value that is not a mapping. */
  datatype ShapeError = NotIterable(got: Value) | NotAMapping(got: Value)

  /** The raw value a coerced value was made from. */
  function Erase(x: Typed): Value
  {
    match x
    case Raw(v) => v
    case TypedList(elems) => List(seq(|elems|, i requires 0 <= i < |elems| => Erase(elems[i])))
    case Instance(_, dict, _) => Dict(dict)
  }

  // ---------------------------------------------------------------------------
  // Coercion
  // ---------------------------------------------------------------------------

  /** `_get_typed_field_value(t, v)`. Coercion only ever rebuilds the shape the
      type describes around the raw data: erasing the result gives `v` back. */
  function Coerce(t: TypeRef, v: Value): (r: Result<Typed, ShapeError>)
    ensures r.Ok? ==> Erase(r.value) == v
    decreases v, 1, t
  {
    match t
    case NonNull(inner) => Coerce(inner, v)
    case ListOf(inner) =>
      if v.List? then
        var elems :- CoerceEach(inner, v.items, |v.items|);
        assert forall i :: 0 <= i < |elems| ==> Erase(elems[i]) == v.items[i];
        Ok(TypedList(elems))
      else Err(NotIterable(v))
    case InputObject(meta) => Construct(meta, v)
    case Plain => Ok(Raw(v))
  }

  /** The list comprehension over the first `n` items: element `i` of the result
      is item `i` coerced with `inner`; the first item that fails aborts it. */
  function CoerceEach(inner: TypeRef, items: seq<Value>, n: nat): (r: Result<seq<Typed>, ShapeError>)
    requires n <= |items|
    ensures r.Ok? <==> forall i :: 0 <= i < n ==> Coerce(inner, items[i]).Ok?
    ensures r.Ok? ==> |r.value| == n && forall i :: 0 <= i < n ==> Coerce(inner, items[i]) == Ok(r.value[i])
    ensures r.Err? ==> exists i :: 0 <= i < n && Coerce(inner, items[i]) == Err(r.error)
                                 && forall j :: 0 <= j < i ==> Coerce(inner, items[j]).Ok?
    decreases List(items), 0, n
  {
    if n == 0 then Ok([])
    else
      var init :- CoerceEach(inner, items, n - 1);
      var last :- Coerce(inner, items[n - 1]);
      Ok(init + [last])
  }

  /** `container(v)` for the container class of `meta`: `dict.__init__` copies
      the raw mapping, then every declared field gets its attribute. */
  function Construct(meta: InputMeta, v: Value): (r: Result<Typed, ShapeError>)
    decreases v, 0, |meta.fieldNames| + 1
  {
    match v
    case Dict(raw) =>
      var attrs :- FieldAttrs(meta, raw, |meta.fieldNames|);
      Ok(Instance(meta.container, raw, attrs))
    case _ => Err(NotAMapping(v))
  }

  /** The attribute one declared field `key` gets: `None` when the class has no
      (or a `None`) attribute for it or the raw entry is missing or `None`,
      otherwise the raw entry coerced with the class attribute. */
  function FieldValue(meta: InputMeta, raw: map<string, Value>, key: string): (r: Result<Typed, ShapeError>)
    decreases Dict(raw), 0, 0
  {
    if key !in meta.classAttrs || key !in raw || raw[key] == Null then Ok(Raw(Null))
    else Coerce(meta.classAttrs[key], raw[key])
  }

  /** The attributes set by the first `n` rounds of the loop over the field
      keys; the first field whose coercion fails aborts construction. */
  function FieldAttrs(meta: InputMeta, raw: map<string, Value>, n: nat): Result<map<string, Typed>, ShapeError>
    requires n <= |meta.fieldNames|
    decreases Dict(raw), 0, n
  {
    if n == 0 then Ok(map[])
    else
      var prev :- FieldAttrs(meta, raw, n - 1);
      var key := meta.fieldNames[n - 1];
      var value :- FieldValue(meta, raw, key);
      Ok(prev[key := value])
  }

  /** The loop over the first `n` field keys succeeds exactly when every one of
      its rounds does; it then sets exactly those keys, each to its round's
      value. Otherwise it fails with the error of the first round that fails. */
  lemma {:induction false} FieldAttrsSpec(meta: InputMeta, raw: map<string, Value>, n: nat)
    requires n <= |meta.fieldNames|
    ensures var r := FieldAttrs(meta, raw, n);
      && (r.Ok? <==> forall i :: 0 <= i < n ==> FieldValue(meta, raw, meta.fieldNames[i]).Ok?)
      && (r.Ok? ==> r.value.Keys == set i | 0 <= i < n :: meta.fieldNames[i])
      && (r.Ok? ==> forall i :: 0 <= i < n ==> FieldValue(meta, raw, meta.fieldNames[i]) == Ok(r.value[meta.fieldNames[i]]))
      && (r.Err? ==> exists i :: 0 <= i < n && FieldValue(meta, raw, meta.fieldNames[i]) == Err(r.error)
                                && forall j :: 0 <= j < i ==> FieldValue(meta, raw, meta.fieldNames[j]).Ok?)
  {
    if n > 0 {
      FieldAttrsSpec(meta, raw, n - 1);
    }
  }

  // ---------------------------------------------------------------------------
  // Reference definitions
  // ---------------------------------------------------------------------------

  /** The type with its outermost `NonNull` markers removed. */
  function Unwrap(t: TypeRef): TypeRef
  {
    if t.NonNull? then Unwrap(t.ofType) else t
  }

  /** The type with every `NonNull` marker removed, inside lists and inside the
      class attributes of input object types too. */
  function StripNonNull(t: TypeRef): TypeRef
  {
    match t
    case Plain => Plain
    case NonNull(inner) => StripNonNull(inner)
    case ListOf(inner) => ListOf(StripNonNull(inner))
    case InputObject(meta) =>
      InputObject(meta.(classAttrs := map k | k in meta.classAttrs :: StripNonNull(meta.classAttrs[k])))
  }

  /** The raw values coercion accepts, stated without coercing: lists where a
      list type is declared, mappings where an input object type is declared,
      and, inside a mapping, conforming entries for the declared fields that
      have a class attribute and a raw entry other than `None`. */
  ghost predicate Conforms(t: TypeRef, v: Value)
    decreases v, t
  {
    match t
    case Plain => true
    case NonNull(inner) => Conforms(inner, v)
    case ListOf(inner) =>
      v.List? && forall i :: 0 <= i < |v.items| ==> Conforms(inner, v.items[i])
    case InputObject(meta) =>
      v.Dict? && forall k :: k in meta.fieldNames && k in meta.classAttrs && k in v.entries && v.entries[k] != Null ==>
        Conforms(meta.classAttrs[k], v.entries[k])
  }

  // ---------------------------------------------------------------------------
  // Properties of coercion
  // ---------------------------------------------------------------------------

  /** Outer `NonNull` markers are unwrapped without looking at the value. */
  lemma {:induction false} OuterNonNullTransparent(t: TypeRef, v: Value)
    ensures Coerce(t, v) == Coerce(Unwrap(t), v)
  {
    if t.NonNull? {
      OuterNonNullTransparent(t.ofType, v);
    }
  }

  /** Presence is never checked during coercion: removing every `NonNull`
      marker from a type, at any depth, does not change any coercion. */
  lemma {:induction false} NonNullNeverChecked(t: TypeRef, v: Value)
    ensures Coerce(StripNonNull(t), v) == Coerce(t, v)
    decreases v, t
  {
    match t
    case Plain =>
    case NonNull(inner) =>
      NonNullNeverChecked(inner, v);
    case ListOf(inner) =>
      if v.List? {
        forall i | 0 <= i < |v.items|
          ensures Coerce(StripNonNull(inner), v.items[i]) == Coerce(inner, v.items[i])
        {
          NonNullNeverChecked(inner, v.items[i]);
        }
        CoerceEachAgree(StripNonNull(inner), inner, v.items, |v.items|);
      }
    case InputObject(meta) =>
      if v.Dict? {
        var stripped := StripNonNull(t).meta;
        forall k
          ensures FieldValue(stripped, v.entries, k) == FieldValue(meta, v.entries, k)
        {
          if k in meta.classAttrs && k in v.entries && v.entries[k] != Null {
            NonNullNeverChecked(meta.classAttrs[k], v.entries[k]);
          }
        }
        FieldAttrsAgree(stripped, meta, v.entries, |meta.fieldNames|);
      }
  }

  lemma {:induction false} CoerceEachAgree(a: TypeRef, b: TypeRef, items: seq<Value>, n: nat)
    requires n <= |items|
    requires forall i :: 0 <= i < n ==> Coerce(a, items[i]) == Coerce(b, items[i])
    ensures CoerceEach(a, items, n) == CoerceEach(b, items, n)
  {
    if n > 0 {
      CoerceEachAgree(a, b, items, n - 1);
      assert Coerce(a, items[n - 1]) == Coerce(b, items[n - 1]);
    }
  }

  lemma {:induction false} FieldAttrsAgree(m1: InputMeta, m2: InputMeta, raw: map<string, Value>, n: nat)
    requires m1.fieldNames == m2.fieldNames && n <= |m1.fieldNames|
    requires forall i :: 0 <= i < n ==> FieldValue(m1, raw, m1.fieldNames[i]) == FieldValue(m2, raw, m1.fieldNames[i])
    ensures FieldAttrs(m1, raw, n) == FieldAttrs(m2, raw, n)
  {
    if n > 0 {
      FieldAttrsAgree(m1, m2, raw, n - 1);
    }
  }

  /** A type that is neither a list nor an input object once unwrapped returns
      the raw value unchanged. */
  lemma {:induction false} PassThrough(t: TypeRef, v: Value)
    requires Unwrap(t).Plain?
    ensures Coerce(t, v) == Ok(Raw(v))
  {
    OuterNonNullTransparent(t, v);
  }

  /** A list type maps over a raw list: the result has one element per item,
      element `i` being item `i` coerced with the element type; anything other
      than a list cannot be iterated. */
  lemma {:induction false} ListCoercion(t: TypeRef, v: Value)
    requires Unwrap(t).ListOf?
    ensures !v.List? ==> Coerce(t, v) == Err(NotIterable(v))
    ensures v.List? ==>
      (Coerce(t, v).Ok? <==> forall i :: 0 <= i < |v.items| ==> Coerce(Unwrap(t).ofType, v.items[i]).Ok?)
    ensures v.List? && Coerce(t, v).Ok? ==>
      && Coerce(t, v).value.TypedList?
      && |Coerce(t, v).value.elems| == |v.items|
      && forall i :: 0 <= i < |v.items| ==> Coerce(Unwrap(t).ofType, v.items[i]) == Ok(Coerce(t, v).value.elems[i])
  {
    OuterNonNullTransparent(t, v);
  }

  /** An input object type hands the raw value to its container. The container
      keeps the raw mapping, extra keys included, as its mapping view, and has
      exactly one attribute per declared field: `None` when the class attribute
      is missing or the raw entry is missing or `None`, the coerced raw entry
      otherwise. A value that is not a mapping cannot build a container. */
  lemma {:induction false} InputObjectCoercion(t: TypeRef, v: Value)
    requires Unwrap(t).InputObject?
    ensures !v.Dict? ==> Coerce(t, v) == Err(NotAMapping(v))
    ensures v.Dict? ==>
      (Coerce(t, v).Ok? <==>
        forall k :: k in Unwrap(t).meta.fieldNames && k in Unwrap(t).meta.classAttrs && k in v.entries && v.entries[k] != Null ==>
          Coerce(Unwrap(t).meta.classAttrs[k], v.entries[k]).Ok?)
    ensures Coerce(t, v).Ok? ==>
      var meta, x := Unwrap(t).meta, Coerce(t, v).value;
      && x.Instance?
      && x.factory == meta.container
      && x.dict == v.entries
      && x.attrs.Keys == (set k | k in meta.fieldNames)
      && forall k :: k in meta.fieldNames ==>
           if k !in meta.classAttrs || k !in v.entries || v.entries[k] == Null then x.attrs[k] == Raw(Null)
           else Coerce(meta.classAttrs[k], v.entries[k]) == Ok(x.attrs[k])
  {
    OuterNonNullTransparent(t, v);
    var meta := Unwrap(t).meta;
    if v.Dict? {
      var n := |meta.fieldNames|;
      FieldAttrsSpec(meta, v.entries, n);
      assert (set i | 0 <= i < n :: meta.fieldNames[i]) == (set k | k in meta.fieldNames);
    }
  }

  /** Coercion succeeds exactly on the values that conform to the type. */
  lemma {:induction false} CoerceSucceedsIffConforms(t: TypeRef, v: Value)
    ensures Coerce(t, v).Ok? <==> Conforms(t, v)
    decreases v, t
  {
    match t
    case Plain =>
    case NonNull(inner) =>
      CoerceSucceedsIffConforms(inner, v);
    case ListOf(inner) =>
      if v.List? {
        forall i | 0 <= i < |v.items|
          ensures Coerce(inner, v.items[i]).Ok? <==> Conforms(inner, v.items[i])
        {
          CoerceSucceedsIffConforms(inner, v.items[i]);
        }
      }
    case InputObject(meta) =>
      if v.Dict? {
        forall k | k in meta.classAttrs && k in v.entries && v.entries[k] != Null
          ensures Coerce(meta.classAttrs[k], v.entries[k]).Ok? <==> Conforms(meta.classAttrs[k], v.entries[k])
        {
          CoerceSucceedsIffConforms(meta.classAttrs[k], v.entries[k]);
        }
        InputObjectCoercion(t, v);
      }
  }
}
