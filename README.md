# Input object types of graphene: field collection and value coercion

This project models the core of `graphene/types/inputobjecttype.py` in Dafny
and proves properties of the model. It covers three pieces:

- **Field collection.** Declaring an `InputObjectType` subclass runs
  `__init_subclass_with_meta__`. It walks the class's MRO (method resolution
  order) from the most general class to the most specific one. It merges each
  class's declared fields into an `OrderedDict` with `update`. It then picks
  the container class: the one given in `Meta`, or one synthesised from the
  type itself. This is modelled in `ordered_fields.dfy` (module
  `OrderedFields`) and `input_object_type.dfy` (module `InputObjectTypes`).
- **Coercion.** `_get_typed_field_value` walks a raw value along a declared
  type:
  - `NonNull` is unwrapped with no presence check.
  - `List` maps over the raw list.
  - A type whose `_meta` has a `container` hands the raw value to that container.
  - Anything else is returned unchanged.

  This is modelled as pure functions in `coercion.dfy` (module `Coercion`).
- **Container construction.** `InputObjectTypeContainer.__init__` first copies
  the raw mapping into the dict. It then loops over the declared field keys and
  sets one attribute per key. Each attribute is `None` when the class attribute
  is missing or `None`, or when the raw entry is missing or `None`. Otherwise it
  is the raw entry coerced with the class attribute. This is modelled as a class
  with a `dict` view and an `attrs` view in `container.dfy` (module
  `Containers`), proved against the function `Construct`.

`wrappers.dfy` holds the `Option`/`Result` types. `scenarios.dfy` holds
concrete cases.

Python's `TypeError`s are modelled as `Err` results of kind `ShapeError`:
- `NotIterable`: a `List` type is given something that is not a list.
- `NotAMapping`: a container is built from something that is not a dict.

The first failing element or field decides the error, as the first exception
would.

Three consequences of the code are worth stating:
- **The two views differ.** The mapping view of a container keeps the raw
  entries, including undeclared keys (`inputobjecttype.py:28`). Only the
  attributes hold coerced values.
- **The presence test is an "or".** An attribute is `None` as soon as either
  the class attribute or the raw entry is missing or `None`
  (`inputobjecttype.py:31`).
- **A `None` nested object is not built.** A nested input object field whose
  raw entry is `None` gets a `None` attribute (`inputobjecttype.py:31-32`). No
  container is built for it (`Scenarios.NullNestedFieldIsNone`). A `None`
  inside a list of input objects reaches the container constructor, which
  raises (`Scenarios.NullInListOfInputObjects`).

## Model

| member | source | states |
|---|---|---|
| `OrderedFields.Put` | graphene/types/inputobjecttype.py:70-72 | Assigning a key in the ordered dict keeps names distinct. An existing key keeps its index and takes the new value. A new key is appended. Every other entry is unchanged. |
| `OrderedFields.UpdateAll` | graphene/types/inputobjecttype.py:70-72 | `update` keeps names distinct. Every key already present keeps its index. |
| `OrderedFields.MergeChain` | graphene/types/inputobjecttype.py:68-72 | The merged fields of a chain never repeat a name. |
| `OrderedFields.Update` | graphene/types/inputobjecttype.py:70-72 | The loop that assigns a class's declarations one by one yields `UpdateAll` of the dict and the declarations. |
| `OrderedFields.CollectFields` | graphene/types/inputobjecttype.py:68-72 | The loop over the reversed MRO yields `MergeChain`. Names come in order of first appearance from the most general class. Each carries the last declaration of that name in visiting order. |
| `OrderedFields.MergeChainIsOneUpdate` | graphene/types/inputobjecttype.py:69-72 | Merging class by class equals one `update` with every declaration of the chain in visiting order. |
| `OrderedFields.UpdateFromEmpty` | graphene/types/inputobjecttype.py:68-72 | Updating an empty ordered dict gives each name once, in order of first appearance, with the value of its last assignment. |
| `OrderedFields.CollectedFields` | graphene/types/inputobjecttype.py:68-72 | Collected names are distinct and in first-appearance order. Their set is exactly the names declared somewhere along the chain. A redefined name keeps its first index and carries the most specific declaration. |
| `OrderedFields.NoDeclarationsNoFields` | graphene/types/inputobjecttype.py:68-72 | A chain whose classes declare no field collects the empty mapping. |
| `OrderedFields.SubclassKeepsPositions` | graphene/types/inputobjecttype.py:69-72 | Adding a more specific class never moves a collected field. The parent chain's names stay at the same indices, and only new names are appended. |
| `OrderedFields.LookupAgreesWithMerge` | graphene/types/inputobjecttype.py:30 | Attribute lookup along the MRO finds a declaration exactly for the names the chain declares. That declaration is the one the merge kept, the most specific. |
| `InputObjectTypes.Register` | graphene/types/inputobjecttype.py:64-77 | The type's `_meta` holds the collected keys, distinct and in first-appearance order, and exactly the names declared along the MRO. Each key's class attribute is the most specific declaration. The container is the supplied one if given, otherwise one synthesised for the type. |
| `Coercion.Coerce` | graphene/types/inputobjecttype.py:41-52 | Coercion only rebuilds shape around the raw data: erasing the typed result gives back the raw value. |
| `Coercion.CoerceEach` | graphene/types/inputobjecttype.py:44-48 | The list comprehension succeeds iff every element coerces. It then has one result per element, element `i` being item `i` coerced. Otherwise it fails with the first failing item's error. |
| `Coercion.FieldAttrsSpec` | graphene/types/inputobjecttype.py:29-35 | The loop over field keys succeeds iff every round does. It then sets exactly the declared keys, each to its round's value. Otherwise it fails with the first failing round's error. |
| `Coercion.OuterNonNullTransparent` | graphene/types/inputobjecttype.py:42-43 | Coercing through outer `NonNull` markers equals coercing with the unwrapped type, for every value. |
| `Coercion.NonNullNeverChecked` | graphene/types/inputobjecttype.py:41-52 | Removing every `NonNull` marker at any depth, inside lists and nested input objects, changes no coercion result or error. |
| `Coercion.PassThrough` | graphene/types/inputobjecttype.py:49-52 | A type that is not a list and has no container once unwrapped returns the raw value unchanged. |
| `Coercion.ListCoercion` | graphene/types/inputobjecttype.py:44-48 | A list type on a non-list fails with `NotIterable`. On a list it succeeds iff every item coerces with the element type, giving a list of the same length whose element `i` is item `i` coerced. |
| `Coercion.InputObjectCoercion` | graphene/types/inputobjecttype.py:27-50 | An input object type hands the raw value to its container. A non-mapping fails with `NotAMapping`. A mapping succeeds iff each declared field that has a class attribute and a non-`None` raw entry coerces. The result is a container of the type's container class. Its mapping view equals the raw mapping, extra keys included. It has one attribute per declared key: `None` if the class attribute is missing or the raw entry is missing or `None`, else the coerced raw entry. |
| `Coercion.CoerceSucceedsIffConforms` | graphene/types/inputobjecttype.py:41-52 | Coercion succeeds exactly on the values that conform to the type: lists where a list is declared, mappings where an input object is declared, recursively. |
| `Containers.InputObjectContainer.constructor` | graphene/types/inputobjecttype.py:28 | After `dict.__init__`, the mapping view is the raw mapping and no attribute is set. |
| `Containers.InputObjectContainer.SetFieldAttributes` | graphene/types/inputobjecttype.py:29-35 | On a freshly filled container with distinct field keys, the loop never writes the mapping view. It succeeds iff `FieldAttrs` does, its attributes then being exactly `FieldAttrs`' attributes, and otherwise fails with its error. It only sets attributes of declared keys. |
| `Containers.FirstFailureDecides` | graphene/types/inputobjecttype.py:29-35 | If the rounds before `i` succeed and round `i` fails, the whole loop fails with round `i`'s error. |
| `Containers.Instantiate` | graphene/types/inputobjecttype.py:27-35 | Calling the container on a raw value, for a type whose field keys are distinct, yields a fresh container whose state is `Construct`'s result, or fails with `Construct`'s error. |
| `Scenarios.RedeclaredFieldKeepsIndex` | graphene/types/inputobjecttype.py:68-72 | `Base{a, b}` then `Derived{b'}` collects `[a, b']`. |
| `Scenarios.MissingFieldIsNone` | graphene/types/inputobjecttype.py:31-32 | A declared field missing from the raw mapping gets a `None` attribute. |
| `Scenarios.ExtraKeyStaysInMappingView` | graphene/types/inputobjecttype.py:28-35 | An undeclared raw key gets no attribute but stays in the mapping view. |
| `Scenarios.NestedContainer` | graphene/types/inputobjecttype.py:49-50 | A nested input object field is built into a nested container. |
| `Scenarios.NullNestedFieldIsNone` | graphene/types/inputobjecttype.py:31-32 | A nested input object field given `None` gets a `None` attribute, not a container. |
| `Scenarios.NullInListOfInputObjects` | graphene/types/inputobjecttype.py:44-50 | A `None` item in a list of input objects fails with `NotAMapping`. |

## Left out

- The class machinery is not modelled. This covers `__init_subclass__`, the
  `BaseOptions`/`BaseType` plumbing, the `super()` call at
  `inputobjecttype.py:78`, `get_type` (`:81-86`) and the static-typing import
  block (`:12-15`). They wire classes together and compute nothing.
- The container class synthesised with `type(...)` at `:76` is represented by
  the tag `Synthesized(name)`. Multiple inheritance is not modelled.
- A container class supplied in `Meta` is assumed to run
  `InputObjectTypeContainer.__init__` with the type's own `_meta` and class
  attributes. Its own code is not visible here.
- `yank_fields_from_attrs` is not part of this model. Each class's own field
  declarations are given as an ordered list of (name, declaration) pairs.
- `InputObjectTypes.Register` derives class attributes from those declarations
  only. A subclass that shadows a field with `None`, or a non-field class member
  named like a field, is not produced by it. Most such types can be written as
  an `InputMeta` directly: a missing `classAttrs` key stands for an absent or
  `None` attribute, and a `dict` method such as `items` that a field name
  resolves to behaves as `Plain`.
- A field named `get` that is not the last field key is not captured. The
  synthesised container finds `dict.get` for it, and the `setattr` at
  `inputobjecttype.py:35` then shadows `get` on the instance. Every later
  round's `self.get(key, None)` at `:31` calls the stored value and raises a
  `TypeError`, whereas `FieldValue` reads the raw mapping directly and the model
  succeeds.
- `Containers.InputObjectContainer.SetFieldAttributes` requires a container
  with no attributes yet, as `dict.__init__` leaves it. Running `__init__` again
  on a container whose attributes are set is not modelled. There, `getattr` at
  `:30` would find the instance attribute before the class attribute.
- `Coercion.FieldAttrs` looks up the class attribute for every round. A field
  key repeated in `InputMeta.fieldNames` would, in Python, find the attribute an
  earlier round set. Field keys come from an ordered dictionary and never
  repeat: `Register` yields only such metas, and the container methods require
  it. The pure functions do not demand it.
- Scalar parsing and serialisation are not modelled. Scalars are opaque `Atom`
  values passed through unchanged.
- Python would iterate a dict or a string given to a `List` type, yielding its
  keys or characters. The model reports `NotIterable` instead.
- Python's `dict.__init__` would accept a list of pairs or keyword arguments.
  The model builds containers only from a mapping and reports `NotAMapping`
  otherwise.
- Nested containers are values in `Coerce`, so sharing between a container and
  the raw input is not modelled. In Python, `dict.__init__` makes a shallow copy
  whose nested values are shared.
- Self-referential input object types cannot be written as finite `TypeRef`
  values. Coercion itself terminates on the raw value, so it does not depend on
  the type being finite.
- `Containers.InputObjectContainer.SetFieldAttributes`: on failure, the contract
  says only which keys the attributes may hold, not which attributes the
  aborted loop had already set.
- There is no concurrency or I/O in this component.
