/**
  What pass 1 builds, stated independently of the loop that builds it: the
  instance of declaration `i` lives at reference `i`, and each id names the
  instance of its last declaration (`HashMap.put` overwrites).
 */
module Instantiation {
  import opened Objects
  import opened Container

  /** The ids declared in `ds`. */
  function Ids(ds: seq<Decl>): set<string>
  {
    set i | 0 <= i < |ds| :: ds[i].id
  }

  /** Every declared class resolves and can be instantiated. */
  predicate AllInstantiable(types: TypeTable, ds: seq<Decl>)
  {
    forall i :: 0 <= i < |ds| ==> Instantiable(types, ds[i].className)
  }

  /** The position of the last declaration of `id`. */
  function LastIndex(ds: seq<Decl>, id: string): (k: nat)
    requires id in Ids(ds)
    ensures k < |ds| && ds[k].id == id
    ensures forall j :: k < j < |ds| ==> ds[j].id != id
    decreases |ds|
  {
    if ds[|ds| - 1].id == id then |ds| - 1
    else
      assert id in Ids(ds[..|ds| - 1]) by {
        var i :| 0 <= i < |ds| && ds[i].id == id;
        assert ds[..|ds| - 1][i] == ds[i];
      }
      LastIndex(ds[..|ds| - 1], id)
  }

  /** No id is declared twice. */
  predicate UniqueIds(ds: seq<Decl>)
  {
    forall i, j :: 0 <= i < j < |ds| ==> ds[i].id != ds[j].id
  }

  /** The declaration an id denotes once pass 1 is over: its last one. */
  function DeclOf(ds: seq<Decl>, id: string): (d: Decl)
    requires id in Ids(ds)
    ensures d in ds && d.id == id
  {
    ds[LastIndex(ds, id)]
  }

  /** With unique ids, an id denotes its one declaration, wherever it stands. */
  lemma UniqueDeclOf(ds: seq<Decl>, i: nat)
    requires UniqueIds(ds) && i < |ds|
    ensures ds[i].id in Ids(ds) && DeclOf(ds, ds[i].id) == ds[i]
  {
    assert ds[i].id in Ids(ds);
  }

  /** Each declared id mapped to the position of its last declaration. */
  function Latest(ds: seq<Decl>): map<string, Ref>
  {
    map id | id in Ids(ds) :: LastIndex(ds, id)
  }

  /** The registry and heap a complete pass 1 over `ds` leaves behind. */
  function Registry(types: TypeTable, ds: seq<Decl>): (c: Context)
    requires AllInstantiable(types, ds)
    ensures WellFormed(c)
    ensures c.beans.Keys == Ids(ds)
    ensures |c.heap| == |ds|
    ensures forall q :: 0 <= q < |ds| ==> c.heap[q].className == ds[q].className && Unset(c.heap[q])
    ensures forall q :: 0 <= q < |ds| ==> c.heap[q].fields.Keys == types[ds[q].className].fields
    ensures forall id :: id in c.beans ==> ds[c.beans[id]].id == id
    ensures forall id, j :: id in c.beans && c.beans[id] < j < |ds| ==> ds[j].id != id
  {
    Context(
      Latest(ds),
      seq(|ds|, i requires 0 <= i < |ds| => NewInstance(ds[i].className, types[ds[i].className])))
  }

  /** Distinct ids that survive pass 1 denote distinct instances. */
  lemma DistinctIdsDistinctInstances(types: TypeTable, ds: seq<Decl>, a: string, b: string)
    requires AllInstantiable(types, ds)
    requires a in Ids(ds) && b in Ids(ds) && a != b
    ensures Registry(types, ds).beans[a] != Registry(types, ds).beans[b]
  {
    var c := Registry(types, ds);
    assert ds[c.beans[a]].id == a && ds[c.beans[b]].id == b;
  }

  /**
    Duplicate ids are not rejected: a later declaration of the same id replaces
    the earlier one's instance in the registry.
   */
  lemma LaterDeclarationWins(types: TypeTable, ds: seq<Decl>, i: nat, j: nat)
    requires AllInstantiable(types, ds)
    requires i < j < |ds| && ds[i].id == ds[j].id
    ensures ds[i].id in Registry(types, ds).beans
    ensures j <= Registry(types, ds).beans[ds[i].id]
  {
    var c := Registry(types, ds);
    assert ds[i].id in Ids(ds);
  }

  lemma PrefixIds(ds: seq<Decl>)
    requires |ds| > 0
    ensures Ids(ds) == Ids(ds[..|ds| - 1]) + {ds[|ds| - 1].id}
  {
    var init := ds[..|ds| - 1];
    forall id | id in Ids(ds) ensures id in Ids(init) + {ds[|ds| - 1].id} {
      var i :| 0 <= i < |ds| && ds[i].id == id;
      if i < |ds| - 1 {
        assert init[i] == ds[i];
      }
    }
    forall id | id in Ids(init) ensures id in Ids(ds) {
      var i :| 0 <= i < |init| && init[i].id == id;
      assert ds[i] == init[i];
    }
  }

  lemma PrefixInstantiable(types: TypeTable, ds: seq<Decl>, k: nat)
    requires k <= |ds| && AllInstantiable(types, ds)
    ensures AllInstantiable(types, ds[..k])
  {
    forall i | 0 <= i < k ensures Instantiable(types, ds[..k][i].className) {
      assert ds[..k][i] == ds[i];
    }
  }

  /** Extending the declarations by one re-points the last id at the new position. */
  lemma LatestSnoc(ds: seq<Decl>)
    requires |ds| > 0
    ensures Latest(ds) == Latest(ds[..|ds| - 1])[ds[|ds| - 1].id := |ds| - 1]
  {
    var init := ds[..|ds| - 1];
    PrefixIds(ds);
    var before := Latest(init);
    var after := Latest(ds);
    var last := ds[|ds| - 1].id;
    var expected := before[last := |ds| - 1];
    assert after.Keys == expected.Keys;
    forall id | id in after && id != last
      ensures after[id] == before[id]
    {
      assert LastIndex(ds, id) == LastIndex(init, id);
    }
    assert after[last] == |ds| - 1;
    assert forall id :: id in after ==> after[id] == expected[id];
  }

  /** Extending the declarations by one appends one fresh instance to the heap. */
  lemma RegistrySnocHeap(types: TypeTable, ds: seq<Decl>)
    requires |ds| > 0 && AllInstantiable(types, ds)
    ensures AllInstantiable(types, ds[..|ds| - 1])
    ensures Registry(types, ds).heap ==
              Registry(types, ds[..|ds| - 1]).heap + [NewInstance(ds[|ds| - 1].className, types[ds[|ds| - 1].className])]
  {
    var init := ds[..|ds| - 1];
    PrefixInstantiable(types, ds, |ds| - 1);
    var before := Registry(types, init).heap;
    var after := Registry(types, ds).heap;
    forall q | 0 <= q < |ds| - 1 ensures after[q] == before[q] {
      assert init[q] == ds[q];
    }
  }

  /** Extending the declarations by one: pass 1's step adds exactly the new bean to the registry. */
  lemma RegistrySnoc(types: TypeTable, ds: seq<Decl>)
    requires |ds| > 0 && AllInstantiable(types, ds)
    ensures AllInstantiable(types, ds[..|ds| - 1])
    ensures Instantiate(types, Registry(types, ds[..|ds| - 1]), ds[|ds| - 1]) == Done(Registry(types, ds))
  {
    LatestSnoc(ds);
    RegistrySnocHeap(types, ds);
  }

  /** A complete pass 1 from the empty container builds exactly `Registry(types, ds)`. */
  lemma {:induction false} InstantiateAllBuildsRegistry(types: TypeTable, ds: seq<Decl>)
    requires AllInstantiable(types, ds)
    ensures InstantiateAll(types, ds, Empty) == Done(Registry(types, ds))
    decreases |ds|
  {
    if |ds| == 0 {
      assert Registry(types, ds).beans == map[];
    } else {
      RegistrySnoc(types, ds);
      InstantiateAllBuildsRegistry(types, ds[..|ds| - 1]);
    }
  }

  /**
    Pass 1 stops at the first declaration whose class is not instantiable; the
    beans registered before it stay in place.
   */
  lemma {:induction false} InstantiateAllStopsAtFirstFailure(types: TypeTable, ds: seq<Decl>, k: nat)
    requires k < |ds| && !Instantiable(types, ds[k].className)
    requires AllInstantiable(types, ds[..k])
    ensures InstantiateAll(types, ds, Empty) == Failed(Registry(types, ds[..k]), ClassError(types, ds[k].className))
    decreases |ds|
  {
    var init := ds[..|ds| - 1];
    if k == |ds| - 1 {
      assert init == ds[..k];
      InstantiateAllBuildsRegistry(types, init);
    } else {
      assert init[..k] == ds[..k];
      assert init[k] == ds[k];
      InstantiateAllStopsAtFirstFailure(types, init, k);
    }
  }
}
