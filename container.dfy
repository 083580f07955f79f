/** `InputObjectTypeContainer`: a `dict` subclass whose instances also carry
    one attribute per declared field of their input object type.

    Construction first copies the raw mapping into the dict itself, then walks
    the declared field keys in order and sets each key's attribute, step by
    step. The two views are not the same data: the mapping view keeps the raw
    entries, undeclared keys included, while only the attributes hold coerced
    values. */
module Containers {

  import opened Wrappers
  import opened OrderedFields
  import opened Coercion

  class InputObjectContainer {
    /** The `_meta` of the input object type this container belongs to. */
    const meta: InputMeta
    /** The mapping view: the `dict` contents. */
    var dict: map<string, Value>
    /** The attributes set on the instance. */
    var attrs: map<string, Typed>

    /** The container as a value. */
    function Snapshot(): Typed
      reads this
    {
      Instance(meta.container, dict, attrs)
    }

    /** Allocation and `dict.__init__(self, raw)`: the mapping view is a copy of
        the raw mapping and no attribute is set yet. */
    constructor (meta: InputMeta, raw: map<string, Value>)
      ensures this.meta == meta
      ensures dict == raw && attrs == map[]
    {
      this.meta := meta;
      dict := raw;
      attrs := map[];
    }

    /** The loop of `__init__` over the declared field keys. Each round reads
        the class attribute and the mapping entry for its key and sets the
        attribute for that key; a coercion that fails aborts the loop. The
        mapping view is never written.

        `getattr` finds an instance attribute before the class attribute, so the
        loop reads the class attribute only for a key that has no instance
        attribute yet. That holds on the container `dict.__init__` has just
        filled, whose field keys, the keys of an ordered dictionary, never
        repeat. */
    method SetFieldAttributes() returns (outcome: Result<(), ShapeError>)
      requires attrs == map[]
      requires Distinct(meta.fieldNames)
      modifies this
      ensures dict == old(dict)
      ensures outcome.Ok? <==> FieldAttrs(meta, dict, |meta.fieldNames|).Ok?
      ensures outcome.Ok? ==> attrs == FieldAttrs(meta, dict, |meta.fieldNames|).value
      ensures outcome.Err? ==> outcome.error == FieldAttrs(meta, dict, |meta.fieldNames|).error
      ensures forall k :: k in attrs ==> k in meta.fieldNames
    {
      var raw, n := dict, |meta.fieldNames|;
      var i := 0;
      while i < n
        invariant 0 <= i <= n
        invariant dict == raw
        invariant FieldAttrs(meta, raw, i).Ok?
        invariant attrs == FieldAttrs(meta, raw, i).value
      {
        var key := meta.fieldNames[i];
        var value: Typed;
        if key !in meta.classAttrs || key !in raw || raw[key] == Null {
          value := Raw(Null);
        } else {
          var coerced := Coerce(meta.classAttrs[key], raw[key]);
          if coerced.Err? {
            FirstFailureDecides(meta, raw, i, n);
            FieldAttrsSpec(meta, raw, i);
            return Err(coerced.error);
          }
          value := coerced.value;
        }
        FieldAttrsStep(meta, raw, i, value);
        attrs := attrs[key := value];
        i := i + 1;
      }
      FieldAttrsSpec(meta, raw, n);
      outcome := Ok(());
    }
  }

  /** A round that succeeds adds its key's attribute to those of the rounds before. */
  lemma FieldAttrsStep(meta: InputMeta, raw: map<string, Value>, i: nat, value: Typed)
    requires i < |meta.fieldNames|
    requires FieldAttrs(meta, raw, i).Ok?
    requires FieldValue(meta, raw, meta.fieldNames[i]) == Ok(value)
    ensures FieldAttrs(meta, raw, i + 1) == Ok(FieldAttrs(meta, raw, i).value[meta.fieldNames[i] := value])
  {
  }

  /** Once the rounds before `i` have succeeded and round `i` fails, the whole
      loop fails with round `i`'s error. */
  lemma {:induction false} FirstFailureDecides(meta: InputMeta, raw: map<string, Value>, i: nat, n: nat)
    requires i < n <= |meta.fieldNames|
    requires FieldAttrs(meta, raw, i).Ok?
    requires FieldValue(meta, raw, meta.fieldNames[i]).Err?
    ensures FieldAttrs(meta, raw, n) == Err(FieldValue(meta, raw, meta.fieldNames[i]).error)
    decreases n
  {
    if n > i + 1 {
      FirstFailureDecides(meta, raw, i, n - 1);
    }
  }

  /** `container(raw)`: builds a fresh container and runs `__init__` on it. The
      container it yields is the one `Construct` describes; when `Construct`
      fails, so does this, with the same error. */
  method Instantiate(meta: InputMeta, raw: Value) returns (r: Result<InputObjectContainer, ShapeError>)
    requires Distinct(meta.fieldNames)
    ensures r.Ok? <==> Construct(meta, raw).Ok?
    ensures r.Ok? ==> fresh(r.value) && r.value.meta == meta && r.value.Snapshot() == Construct(meta, raw).value
    ensures r.Err? ==> r.error == Construct(meta, raw).error
  {
    if !raw.Dict? {
      return Err(NotAMapping(raw));
    }
    var c := new InputObjectContainer(meta, raw.entries);
    var outcome := c.SetFieldAttributes();
    if outcome.Err? {
      return Err(outcome.error);
    }
    r := Ok(c);
  }
}
