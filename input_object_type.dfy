/** Declaring an input object type: `InputObjectType.__init_subclass_with_meta__`
    collects the fields along the class's MRO and chooses the container class,
    and the result is the type's `_meta`. */
module InputObjectTypes {

  import opened Wrappers
  import opened OrderedFields
  import opened Coercion

  /** Builds the `_meta` of the input object type `name`, whose MRO (most
      specific class first) declares the fields `mro`. `container` is the
      container class given in the type's `Meta`, if any; without one, a
      container class is synthesised from the type itself.

      The field keys are those of the collected ordered dictionary. The class
      attribute a container finds for a key is resolved along the MRO, as
      attribute lookup does; it is the declaration the merge kept. */
  method Register(name: string, mro: seq<seq<Entry<TypeRef>>>, container: Option<string>) returns (meta: InputMeta)
    ensures meta.name == name
    ensures meta.fieldNames == FirstAppearance(Names(Linearized(mro)))
    ensures Distinct(meta.fieldNames)
    ensures forall k :: k in meta.fieldNames <==> exists c :: 0 <= c < |mro| && k in Names(mro[c])
    ensures forall k :: k in meta.classAttrs <==> k in meta.fieldNames
    ensures forall k :: k in meta.classAttrs ==>
      k in Names(Linearized(mro)) && meta.classAttrs[k] == LastValue(Linearized(mro), k)
    ensures container.Some? ==> meta.container == Supplied(container.value)
    ensures container.None? ==> meta.container == Synthesized(name)
  {
    var fields := CollectFields(mro);
    CollectedFields(mro);
    var keys := Names(fields);
    var attrs := map k | k in keys && ClassLookup(mro, k).Some? :: ClassLookup(mro, k).value;
    forall k | k in keys
      ensures k in attrs && attrs[k] == LastValue(Linearized(mro), k)
    {
      FirstAppearanceMembers(Names(Linearized(mro)));
      LookupAgreesWithMerge(mro, k);
    }
    var factory := if container.Some? then Supplied(container.value) else Synthesized(name);
    meta := InputMeta(name, keys, attrs, factory);
  }
}
