/** Field collection for input object types.

    When an input object type is declared, its fields are gathered from every
    class of its method resolution order (MRO), visited from the most general
    class to the most specific one; each class's own declarations are merged
    into one ordered dictionary with `update`. An ordered dictionary keeps a
    key where it was first inserted, so a field redefined by a subclass takes
    the subclass's declaration but keeps the position its ancestor gave it.

    An ordered dictionary is modelled as an association list whose names are
    distinct. The field declaration type `F` is left abstract. */
module OrderedFields {

  import opened Wrappers

  /** One declared field: its name and its declaration. */
  type Entry<F> = (string, F)

  /** The names of an association list, in order. */
  function Names<F>(d: seq<Entry<F>>): seq<string>
  {
    seq(|d|, i requires 0 <= i < |d| => d[i].0)
  }

  ghost predicate Distinct(ks: seq<string>)
  {
    forall i, j :: 0 <= i < j < |ks| ==> ks[i] != ks[j]
  }

  /** Where `k` sits in `d`: the first index holding `k`, or `|d|` when there is none. */
  function IndexOf<F>(d: seq<Entry<F>>, k: string): (i: nat)
    ensures i <= |d|
    ensures i < |d| ==> d[i].0 == k
    ensures forall j :: 0 <= j < i ==> d[j].0 != k
    ensures i == |d| <==> k !in Names(d)
  {
    if d == [] then 0
    else if d[0].0 == k then
      assert Names(d)[0] == k;
      0
    else
      assert Names(d) == [d[0].0] + Names(d[1..]);
      1 + IndexOf(d[1..], k)
  }

  /** `d[k] = v` on an ordered dictionary: an existing key is overwritten
      where it stands, a new key is appended at the end. */
  function Put<F>(d: seq<Entry<F>>, k: string, v: F): (r: seq<Entry<F>>)
    requires Distinct(Names(d))
    ensures Distinct(Names(r))
    ensures Names(r) == if k in Names(d) then Names(d) else Names(d) + [k]
    ensures forall i :: 0 <= i < |d| && d[i].0 != k ==> r[i] == d[i]
    ensures forall i :: 0 <= i < |r| && r[i].0 == k ==> r[i].1 == v
  {
    var i := IndexOf(d, k);
    if i < |d| then
      assert Names(d[i := (k, v)]) == Names(d);
      assert forall j :: 0 <= j < |d| && d[j].0 == k ==> Names(d)[j] == Names(d)[i];
      d[i := (k, v)]
    else
      assert Names(d + [(k, v)]) == Names(d) + [k];
      d + [(k, v)]
  }

  /** `d.update(ps)`: the entries of `ps` are assigned one after another. */
  function UpdateAll<F>(d: seq<Entry<F>>, ps: seq<Entry<F>>): (r: seq<Entry<F>>)
    requires Distinct(Names(d))
    ensures Distinct(Names(r))
    ensures |d| <= |r| && Names(r)[..|d|] == Names(d)
    decreases |ps|
  {
    if ps == [] then d
    else
      var last := ps[|ps| - 1];
      Put(UpdateAll(d, ps[..|ps| - 1]), last.0, last.1)
  }

  /** The fields collected for a class whose MRO is `mro` (most specific class
      first, each class given by its own declarations in declaration order):
      the classes are visited in reverse and merged with `update`. */
  function MergeChain<F>(mro: seq<seq<Entry<F>>>): (r: seq<Entry<F>>)
    ensures Distinct(Names(r))
  {
    if mro == [] then [] else UpdateAll(MergeChain(mro[1..]), mro[0])
  }

  /** Every declaration of the chain, in the order the merge visits them. */
  function Linearized<F>(mro: seq<seq<Entry<F>>>): seq<Entry<F>>
  {
    if mro == [] then [] else Linearized(mro[1..]) + mro[0]
  }

  /** The names of `ks` in order of first appearance, each once. */
  function FirstAppearance(ks: seq<string>): seq<string>
  {
    if ks == [] then []
    else
      var seen := FirstAppearance(ks[..|ks| - 1]);
      if ks[|ks| - 1] in seen then seen else seen + [ks[|ks| - 1]]
  }

  /** The declaration that the last assignment to `k` in `ps` made. */
  function LastValue<F>(ps: seq<Entry<F>>, k: string): F
    requires k in Names(ps)
  {
    var last := ps[|ps| - 1];
    if last.0 == k then last.1
    else
      assert Names(ps) == Names(ps[..|ps| - 1]) + [last.0];
      LastValue(ps[..|ps| - 1], k)
  }

  /** Attribute lookup on a class: the first class of the MRO that declares `k`
      decides, and within one class body the last declaration of `k` wins. */
  function ClassLookup<F>(mro: seq<seq<Entry<F>>>, k: string): (r: Option<F>)
  {
    if mro == [] then None
    else if k in Names(mro[0]) then Some(LastValue(mro[0], k))
    else ClassLookup(mro[1..], k)
  }

  // ---------------------------------------------------------------------------
  // The imperative merge
  // ---------------------------------------------------------------------------

  /** `fields.update(decls)`: the declarations are assigned one after another
      into the ordered dictionary `d`. */
  method Update<F>(d: seq<Entry<F>>, decls: seq<Entry<F>>) returns (fields: seq<Entry<F>>)
    requires Distinct(Names(d))
    ensures fields == UpdateAll(d, decls)
  {
    fields := d;
    var j := 0;
    while j < |decls|
      invariant 0 <= j <= |decls|
      invariant fields == UpdateAll(d, decls[..j])
    {
      assert decls[..j + 1][..j] == decls[..j];
      fields := Put(fields, decls[j].0, decls[j].1);
      j := j + 1;
    }
    assert decls[..j] == decls;
  }

  /** The loop of `__init_subclass_with_meta__`: an empty ordered dictionary,
      updated with each class's declarations, from the end of the MRO back to
      its start. */
  method CollectFields<F>(mro: seq<seq<Entry<F>>>) returns (fields: seq<Entry<F>>)
    ensures fields == MergeChain(mro)
    ensures Names(fields) == FirstAppearance(Names(Linearized(mro)))
    ensures forall i :: 0 <= i < |fields| ==>
      fields[i].0 in Names(Linearized(mro)) && fields[i].1 == LastValue(Linearized(mro), fields[i].0)
  {
    fields := [];
    var b := |mro|;
    while b > 0
      invariant 0 <= b <= |mro|
      invariant fields == MergeChain(mro[b..])
    {
      b := b - 1;
      assert mro[b..][1..] == mro[b + 1..];
      fields := Update(fields, mro[b]);
    }
    assert mro[0..] == mro;
    CollectedFields(mro);
  }

  // ---------------------------------------------------------------------------
  // Properties of the merge
  // ---------------------------------------------------------------------------

  lemma {:induction false} FirstAppearanceMembers(ks: seq<string>)
    ensures Distinct(FirstAppearance(ks))
    ensures forall k :: k in FirstAppearance(ks) <==> k in ks
  {
    if ks != [] {
      FirstAppearanceMembers(ks[..|ks| - 1]);
      assert ks == ks[..|ks| - 1] + [ks[|ks| - 1]];
    }
  }

  /** Updating with `a + b` is updating with `a`, then with `b`. */
  lemma {:induction false} UpdateAllAppend<F>(d: seq<Entry<F>>, a: seq<Entry<F>>, b: seq<Entry<F>>)
    requires Distinct(Names(d))
    ensures UpdateAll(d, a + b) == UpdateAll(UpdateAll(d, a), b)
    decreases |b|
  {
    if b == [] {
      assert a + b == a;
    } else {
      assert (a + b)[..|a + b| - 1] == a + b[..|b| - 1];
      UpdateAllAppend(d, a, b[..|b| - 1]);
    }
  }

  /** The merge of the chain is one `update` with all its declarations in visiting order. */
  lemma {:induction false} MergeChainIsOneUpdate<F>(mro: seq<seq<Entry<F>>>)
    ensures MergeChain(mro) == UpdateAll([], Linearized(mro))
  {
    if mro != [] {
      MergeChainIsOneUpdate(mro[1..]);
      UpdateAllAppend([], Linearized(mro[1..]), mro[0]);
    }
  }

  /** Updating an empty dictionary with `ps` gives the names of `ps` in order of
      first appearance, each carrying the value of its last assignment. */
  lemma {:induction false} UpdateFromEmpty<F>(ps: seq<Entry<F>>)
    ensures Names(UpdateAll([], ps)) == FirstAppearance(Names(ps))
    ensures forall i :: 0 <= i < |UpdateAll([], ps)| ==>
      UpdateAll([], ps)[i].0 in Names(ps) &&
      UpdateAll([], ps)[i].1 == LastValue(ps, UpdateAll([], ps)[i].0)
  {
    if ps != [] {
      var init := ps[..|ps| - 1];
      var last := ps[|ps| - 1];
      UpdateFromEmpty(init);
      FirstAppearanceMembers(Names(init));
      assert Names(ps) == Names(init) + [last.0];
      assert Names(ps)[..|ps| - 1] == Names(init);
      var before := UpdateAll([], init);
      var after := UpdateAll([], ps);
      assert after == Put(before, last.0, last.1);
      forall i | 0 <= i < |after|
        ensures after[i].0 in Names(ps) && after[i].1 == LastValue(ps, after[i].0)
      {
        if after[i].0 != last.0 {
          assert i < |before| && after[i] == before[i];
          assert before[i].0 == Names(before)[i];
        }
      }
    }
  }

  /** The names collected from a chain are those declared somewhere along it. */
  lemma {:induction false} LinearizedNames<F>(mro: seq<seq<Entry<F>>>, k: string)
    ensures k in Names(Linearized(mro)) <==> exists c :: 0 <= c < |mro| && k in Names(mro[c])
  {
    if mro != [] {
      LinearizedNames(mro[1..], k);
      assert Names(Linearized(mro)) == Names(Linearized(mro[1..])) + Names(mro[0]);
      if k in Names(mro[0]) {
        assert 0 < |mro| && k in Names(mro[0]);
      }
      if exists c :: 0 <= c < |mro| && k in Names(mro[c]) {
        var c :| 0 <= c < |mro| && k in Names(mro[c]);
        if c > 0 {
          assert mro[1..][c - 1] == mro[c];
        }
      }
    }
  }

  /** The collected fields: every name declared along the chain, once, in order
      of first appearance from the most general class, each carrying the
      declaration of the most specific class that declares it. */
  lemma CollectedFields<F>(mro: seq<seq<Entry<F>>>)
    ensures Distinct(Names(MergeChain(mro)))
    ensures Names(MergeChain(mro)) == FirstAppearance(Names(Linearized(mro)))
    ensures forall k :: k in Names(MergeChain(mro)) <==> exists c :: 0 <= c < |mro| && k in Names(mro[c])
    ensures forall i :: 0 <= i < |MergeChain(mro)| ==>
      MergeChain(mro)[i].0 in Names(Linearized(mro)) &&
      MergeChain(mro)[i].1 == LastValue(Linearized(mro), MergeChain(mro)[i].0)
  {
    MergeChainIsOneUpdate(mro);
    UpdateFromEmpty(Linearized(mro));
    FirstAppearanceMembers(Names(Linearized(mro)));
    forall k ensures k in Names(MergeChain(mro)) <==> exists c :: 0 <= c < |mro| && k in Names(mro[c]) {
      LinearizedNames(mro, k);
    }
  }

  /** A chain that declares no field anywhere collects nothing. */
  lemma {:induction false} NoDeclarationsNoFields<F>(mro: seq<seq<Entry<F>>>)
    requires forall c :: 0 <= c < |mro| ==> mro[c] == []
    ensures MergeChain(mro) == []
  {
    if mro != [] {
      NoDeclarationsNoFields(mro[1..]);
    }
  }

  /** Adding a more specific class never moves a collected field: the fields of
      the parent chain keep their indices, and only new names are appended. */
  lemma SubclassKeepsPositions<F>(decls: seq<Entry<F>>, mro: seq<seq<Entry<F>>>)
    ensures |MergeChain(mro)| <= |MergeChain([decls] + mro)|
    ensures Names(MergeChain([decls] + mro))[..|MergeChain(mro)|] == Names(MergeChain(mro))
  {
    assert ([decls] + mro)[1..] == mro;
  }

  /** The declaration attribute lookup finds along the MRO is the one the merge
      kept: the most specific class's. */
  lemma {:induction false} LookupAgreesWithMerge<F>(mro: seq<seq<Entry<F>>>, k: string)
    ensures ClassLookup(mro, k).Some? <==> k in Names(Linearized(mro))
    ensures ClassLookup(mro, k).Some? ==> ClassLookup(mro, k).value == LastValue(Linearized(mro), k)
  {
    if mro != [] {
      LookupAgreesWithMerge(mro[1..], k);
      LastValueAppend(Linearized(mro[1..]), mro[0], k);
    }
  }

  lemma {:induction false} LastValueAppend<F>(a: seq<Entry<F>>, b: seq<Entry<F>>, k: string)
    ensures Names(a + b) == Names(a) + Names(b)
    ensures k in Names(b) ==> LastValue(a + b, k) == LastValue(b, k)
    ensures k !in Names(b) && k in Names(a) ==> LastValue(a + b, k) == LastValue(a, k)
    decreases |b|
  {
    assert Names(a + b) == Names(a) + Names(b);
    if b != [] {
      var last := b[|b| - 1];
      assert (a + b)[..|a + b| - 1] == a + b[..|b| - 1];
      assert Names(b) == Names(b[..|b| - 1]) + [last.0];
      LastValueAppend(a, b[..|b| - 1], k);
    } else {
      assert a + b == a;
    }
  }
}
