/** Small concrete cases of field collection and container construction. */
module Scenarios {

  import opened Wrappers
  import opened OrderedFields
  import opened Coercion

  /** `Base` declares `a` then `b`; `Derived(Base)` redeclares `b`. The MRO of
      `Derived` lists `Derived` first. `b` keeps index 1 and takes `Derived`'s
      declaration. */
  lemma RedeclaredFieldKeepsIndex()
    ensures MergeChain([[("b", 2)], [("a", 1), ("b", 0)]]) == [("a", 1), ("b", 2)]
  {
    var base: seq<Entry<int>> := [("a", 1), ("b", 0)];
    var derived: seq<Entry<int>> := [("b", 2)];
    var empty: seq<Entry<int>> := [];
    assert IndexOf(empty, "a") == 0;
    var d1 := Put(empty, "a", 1);
    assert d1 == [("a", 1)];
    assert IndexOf(d1, "b") == 1;
    var d2 := Put(d1, "b", 0);
    assert d2 == [("a", 1), ("b", 0)];
    assert IndexOf(d2, "b") == 1;
    assert Put(d2, "b", 2) == [("a", 1), ("b", 2)];
    assert base[..1] == [("a", 1)] && [("a", 1)][..0] == [];
    assert UpdateAll([], base) == d2;
    assert derived[..0] == [];
    assert UpdateAll(d2, derived) == Put(d2, "b", 2);
    assert [base][1..] == [];
    assert [derived, base][1..] == [base];
  }

  /** An input object type with the one scalar field `x`. */
  function PointMeta(): InputMeta
  {
    InputMeta("Point", ["x"], map["x" := Plain], Synthesized("Point"))
  }

  /** A declared field missing from the raw mapping gets a `None` attribute. */
  lemma MissingFieldIsNone()
    ensures Coerce(InputObject(PointMeta()), Dict(map[])) ==
      Ok(Instance(Synthesized("Point"), map[], map["x" := Raw(Null)]))
  {
  }

  /** An undeclared raw key gets no attribute but stays in the mapping view. */
  lemma ExtraKeyStaysInMappingView()
    ensures var raw := map["x" := Atom("1"), "y" := Atom("2")];
      Coerce(InputObject(PointMeta()), Dict(raw)) ==
        Ok(Instance(Synthesized("Point"), raw, map["x" := Raw(Atom("1"))]))
  {
  }

  /** An input object type whose field `inner` is a `Point`. */
  function OuterMeta(): InputMeta
  {
    InputMeta("Outer", ["inner"], map["inner" := InputObject(PointMeta())], Synthesized("Outer"))
  }

  /** A nested input object is built into a nested container. */
  lemma NestedContainer()
    ensures var raw := map["inner" := Dict(map["x" := Atom("5")])];
      Coerce(InputObject(OuterMeta()), Dict(raw)) ==
        Ok(Instance(Synthesized("Outer"), raw, map["inner" :=
          Instance(Synthesized("Point"), map["x" := Atom("5")], map["x" := Raw(Atom("5"))])]))
  {
    var inner := map["x" := Atom("5")];
    assert FieldValue(PointMeta(), inner, "x") == Ok(Raw(Atom("5")));
    assert FieldAttrs(PointMeta(), inner, 1) == Ok(map["x" := Raw(Atom("5"))]);
    var raw := map["inner" := Dict(inner)];
    assert FieldValue(OuterMeta(), raw, "inner") ==
      Ok(Instance(Synthesized("Point"), inner, map["x" := Raw(Atom("5"))]));
  }

  /** A nested input object field given `None` gets a `None` attribute: no
      container is built for it. */
  lemma NullNestedFieldIsNone()
    ensures var raw := map["inner" := Null];
      Coerce(InputObject(OuterMeta()), Dict(raw)) ==
        Ok(Instance(Synthesized("Outer"), raw, map["inner" := Raw(Null)]))
  {
  }

  /** A `None` inside a list of input objects reaches the container, which
      cannot be built from it. */
  lemma NullInListOfInputObjects()
    ensures Coerce(ListOf(InputObject(PointMeta())), List([Null])) == Err(NotAMapping(Null))
  {
  }
}
