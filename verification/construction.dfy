/**
  What a constructed container looks like, stated against the reference
  definitions of the two passes: when construction completes, when and where
  it stops, and what every field holds afterwards.
 */
module Construction {
  import opened Objects
  import opened Container
  import opened Instantiation
  import opened Wiring

  /** An empty path throws before the configuration is read: neither the resource nor the classes matter. */
  lemma EmptyPathReadsNothing(path: Option<string>, load: string -> Load, load': string -> Load, types: TypeTable, types': TypeTable)
    requires IsEmpty(path)
    ensures Construct(path, load, types) == Construct(path, load', types') == Thrown(EmptyPath)
  {
  }

  /** The no-argument constructor is the one-argument constructor on `applicationContext.xml`. */
  lemma DefaultConstructorReadsDefaultPath(load: string -> Load, types: TypeTable)
    ensures ConstructDefault(load, types) == Construct(Some("applicationContext.xml"), load, types)
  {
  }

  /**
    Construction completes exactly when every declared class is instantiable and
    every property names a field declared by the class of its bean's surviving instance.
   */
  lemma CompletesIff(path: Option<string>, load: string -> Load, types: TypeTable, ds: seq<Decl>)
    requires !IsEmpty(path) && load(path.value) == Loaded(ds)
    ensures Construct(path, load, types).Completed? <==>
              AllInstantiable(types, ds) && Feasible(Registry(types, ds), Assignments(ds))
  {
    if AllInstantiable(types, ds) {
      var reg := Registry(types, ds);
      InstantiateAllBuildsRegistry(types, ds);
      WireAllIsWireSeq(reg, ds);
      WireSeqDoneIff(reg, Assignments(ds));
    }
  }

  /**
    A completed container holds the registry pass 1 builds, over objects whose
    classes and declared fields are those of the fresh instances.
   */
  lemma CompletedRegistry(path: Option<string>, load: string -> Load, types: TypeTable, ds: seq<Decl>, c: Context)
    requires !IsEmpty(path) && load(path.value) == Loaded(ds)
    requires Construct(path, load, types) == Completed(c)
    ensures AllInstantiable(types, ds) && Feasible(Registry(types, ds), Assignments(ds))
    ensures c.beans == Registry(types, ds).beans
    ensures SameShape(Registry(types, ds).heap, c.heap)
  {
    CompletesIff(path, load, types, ds);
    var reg := Registry(types, ds);
    var plan := Assignments(ds);
    WireSeqDoneIff(reg, plan);
    FollowsReference(path, load, types, ds);
  }

  /**
    The fields of a completed container: a field that some property names holds
    the very reference `getBean(ref)` returns for the last such property (null
    for an undeclared ref); every other field is still null.
   */
  lemma CompletedGraph(path: Option<string>, load: string -> Load, types: TypeTable, ds: seq<Decl>, c: Context)
    requires !IsEmpty(path) && load(path.value) == Loaded(ds)
    requires Construct(path, load, types) == Completed(c)
    ensures WellFormed(c)
    ensures forall k ::
              (0 <= k < |Assignments(ds)| && Wirable(c, Assignments(ds)[k]) &&
               NotWrittenFrom(c.beans, Assignments(ds), k + 1, c.beans[Assignments(ds)[k].owner], Assignments(ds)[k].prop.name)) ==>
              c.heap[c.beans[Assignments(ds)[k].owner]].fields[Assignments(ds)[k].prop.name] == GetBean(c, Assignments(ds)[k].prop.ref)
    ensures forall o, f ::
              0 <= o < |c.heap| && f in c.heap[o].fields && NotWrittenFrom(c.beans, Assignments(ds), 0, o, f) ==>
              c.heap[o].fields[f] == None
  {
    CompletedRegistry(path, load, types, ds, c);
    var reg := Registry(types, ds);
    var plan := Assignments(ds);
    WireSeqDoneIff(reg, plan);
    FollowsReference(path, load, types, ds);
    WiredFields(reg, plan, c);
    forall o, f | 0 <= o < |c.heap| && f in c.heap[o].fields && NotWrittenFrom(c.beans, plan, 0, o, f)
      ensures c.heap[o].fields[f] == None
    {
      assert Unset(reg.heap[o]);
    }
  }

  /**
    One property in a completed container: if it is the last property to name
    field `f` of the instance `o` its bean id resolves to, that field holds
    exactly what `getBean(ref)` returns.
   */
  lemma WiredProperty(path: Option<string>, load: string -> Load, types: TypeTable, ds: seq<Decl>, c: Context,
                      k: nat, o: Ref, f: string)
    requires !IsEmpty(path) && load(path.value) == Loaded(ds)
    requires Construct(path, load, types) == Completed(c)
    requires k < |Assignments(ds)| && Writes(c.beans, Assignments(ds)[k], o, f)
    requires NotWrittenFrom(c.beans, Assignments(ds), k + 1, o, f)
    ensures o < |c.heap| && f in c.heap[o].fields
    ensures c.heap[o].fields[f] == GetBean(c, Assignments(ds)[k].prop.ref)
  {
    CompletedRegistry(path, load, types, ds, c);
    assert Wirable(Registry(types, ds), Assignments(ds)[k]);
    CompletedGraph(path, load, types, ds, c);
    assert Wirable(c, Assignments(ds)[k]);
  }

  /**
    An instance that no property is wired onto (an instance whose id was taken
    over by a later declaration, or a bean nobody configures) keeps every field null.
   */
  lemma UntargetedStaysUnset(path: Option<string>, load: string -> Load, types: TypeTable, ds: seq<Decl>, c: Context, o: Ref)
    requires !IsEmpty(path) && load(path.value) == Loaded(ds)
    requires Construct(path, load, types) == Completed(c)
    requires o < |c.heap| && !Targets(c.beans, Assignments(ds), o)
    ensures Unset(c.heap[o])
  {
    CompletedGraph(path, load, types, ds, c);
    forall f | f in c.heap[o].fields ensures c.heap[o].fields[f] == None {
      assert NotWrittenFrom(c.beans, Assignments(ds), 0, o, f);
    }
  }

  /** Once pass 1 completes, construction is the single wiring loop over the reference registry. */
  lemma FollowsReference(path: Option<string>, load: string -> Load, types: TypeTable, ds: seq<Decl>)
    requires !IsEmpty(path) && load(path.value) == Loaded(ds)
    requires AllInstantiable(types, ds)
    ensures var w := WireSeq(Registry(types, ds), Assignments(ds));
            && (w.Done? ==> Construct(path, load, types) == Completed(w.ctx))
            && (w.Failed? ==> Construct(path, load, types) == Caught(w.ctx, w.error))
  {
    InstantiateAllBuildsRegistry(types, ds);
    WireAllIsWireSeq(Registry(types, ds), ds);
  }

  /**
    A class that does not resolve or instantiate stops construction in pass 1:
    the container keeps the beans registered before it, and no field is wired.
   */
  lemma StopsInInstantiation(path: Option<string>, load: string -> Load, types: TypeTable, ds: seq<Decl>, k: nat)
    requires !IsEmpty(path) && load(path.value) == Loaded(ds)
    requires k < |ds| && !Instantiable(types, ds[k].className)
    requires AllInstantiable(types, ds[..k])
    ensures Construct(path, load, types) == Caught(Registry(types, ds[..k]), ClassError(types, ds[k].className))
    ensures forall q :: 0 <= q < k ==> Unset(Construct(path, load, types).ctx.heap[q])
  {
    InstantiateAllStopsAtFirstFailure(types, ds, k);
  }

  /**
    A property naming a field its bean's class does not declare stops
    construction in pass 2: the container keeps every bean and every property
    wired before it, and wires nothing after it.
   */
  lemma StopsInWiring(path: Option<string>, load: string -> Load, types: TypeTable, ds: seq<Decl>, k: nat)
    requires !IsEmpty(path) && load(path.value) == Loaded(ds)
    requires AllInstantiable(types, ds)
    requires k < |Assignments(ds)| && !Wirable(Registry(types, ds), Assignments(ds)[k])
    requires forall j :: 0 <= j < k ==> Wirable(Registry(types, ds), Assignments(ds)[j])
    ensures var reg, plan := Registry(types, ds), Assignments(ds);
            && WireSeq(reg, plan[..k]).Done?
            && Construct(path, load, types) ==
                 Caught(WireSeq(reg, plan[..k]).ctx, NoSuchField(reg.heap[reg.beans[plan[k].owner]].className, plan[k].prop.name))
  {
    var reg := Registry(types, ds);
    var plan := Assignments(ds);
    InstantiateAllBuildsRegistry(types, ds);
    WireAllIsWireSeq(reg, ds);
    WireSeqStopsAtFirstFailure(reg, plan, k);
  }

  /** A completed container registers exactly the declared ids, each at its own instance. */
  lemma CompletedNames(path: Option<string>, load: string -> Load, types: TypeTable, ds: seq<Decl>, c: Context)
    requires !IsEmpty(path) && load(path.value) == Loaded(ds)
    requires Construct(path, load, types) == Completed(c)
    ensures c.beans.Keys == Ids(ds) && Injective(c.beans)
  {
    CompletedRegistry(path, load, types, ds, c);
    var reg := Registry(types, ds);
    forall a, b | a in c.beans && b in c.beans && c.beans[a] == c.beans[b] ensures a == b {
      assert ds[reg.beans[a]].id == a && ds[reg.beans[b]].id == b;
    }
  }

  /** The instance `getBean(id)` returns is one of the class of the id's (last) declaration, with that class's fields. */
  lemma CompletedInstanceOf(path: Option<string>, load: string -> Load, types: TypeTable, ds: seq<Decl>, c: Context, id: string)
    requires !IsEmpty(path) && load(path.value) == Loaded(ds)
    requires Construct(path, load, types) == Completed(c)
    requires id in Ids(ds)
    ensures id in c.beans && c.beans[id] < |c.heap| && Instantiable(types, DeclOf(ds, id).className)
    ensures c.heap[c.beans[id]].className == DeclOf(ds, id).className
    ensures c.heap[c.beans[id]].fields.Keys == types[DeclOf(ds, id).className].fields
  {
    CompletedRegistry(path, load, types, ds, c);
    var reg := Registry(types, ds);
    assert reg.beans[id] == LastIndex(ds, id);
  }

  /**
    A field of a completed container, located by bean id rather than by heap
    position: `getBean` of the ref of the last property, over every declaration
    of that id, that names the field; null when none does.
   */
  lemma CompletedFieldById(path: Option<string>, load: string -> Load, types: TypeTable, ds: seq<Decl>, c: Context,
                           id: string, f: string)
    requires !IsEmpty(path) && load(path.value) == Loaded(ds)
    requires Construct(path, load, types) == Completed(c)
    requires id in Ids(ds) && f in c.heap[c.beans[id]].fields
    ensures c.heap[c.beans[id]].fields[f] == Resolved(c, LastWrite(Assignments(ds), id, f), None)
  {
    CompletedRegistry(path, load, types, ds, c);
    var reg := Registry(types, ds);
    var plan := Assignments(ds);
    WireSeqDoneIff(reg, plan);
    FollowsReference(path, load, types, ds);
    assert WireSeq(reg, plan) == Done(c);
    CompletedNames(path, load, types, ds, c);
    assert Unset(reg.heap[reg.beans[id]]);
    WireSeqFieldIsLastWrite(reg, plan, id, f);
  }

  /**
    With unique ids, a field of a completed container depends only on the id's
    own declaration: `getBean` of the ref of its last property naming the field,
    or null. Neither the order of the declarations nor heap positions enter.
   */
  lemma CompletedGraphById(path: Option<string>, load: string -> Load, types: TypeTable, ds: seq<Decl>, c: Context,
                           id: string, f: string)
    requires !IsEmpty(path) && load(path.value) == Loaded(ds) && UniqueIds(ds)
    requires Construct(path, load, types) == Completed(c)
    requires id in Ids(ds) && f in c.heap[c.beans[id]].fields
    ensures c.heap[c.beans[id]].fields[f] == Resolved(c, LastRef(DeclOf(ds, id).props, f), None)
  {
    CompletedFieldById(path, load, types, ds, c, id, f);
    LastWriteOfDecl(ds, id, f);
  }

  /** Two registries with the same ids, each injective, name the same instance for a ref the same way. */
  lemma ResolvedAgree(c1: Context, c2: Context, last: Option<string>, x: string)
    requires c1.beans.Keys == c2.beans.Keys && Injective(c1.beans) && Injective(c2.beans)
    ensures Resolved(c1, last, None) == GetBean(c1, x) <==> Resolved(c2, last, None) == GetBean(c2, x)
  {
  }

  /** Reordering declarations with unique ids keeps the same declarations per id. */
  lemma PermutedDecls(ds1: seq<Decl>, ds2: seq<Decl>, id: string)
    requires UniqueIds(ds2) && multiset(ds1) == multiset(ds2) && id in Ids(ds1)
    ensures id in Ids(ds2) && DeclOf(ds2, id) == DeclOf(ds1, id)
  {
    var d := DeclOf(ds1, id);
    assert d in multiset(ds2);
    var j :| 0 <= j < |ds2| && ds2[j] == d;
    UniqueDeclOf(ds2, j);
  }

  /** Reordering declarations keeps the same declared ids. */
  lemma PermutedIds(ds1: seq<Decl>, ds2: seq<Decl>)
    requires multiset(ds1) == multiset(ds2)
    ensures Ids(ds1) == Ids(ds2)
  {
    forall id | id in Ids(ds1) ensures id in Ids(ds2) {
      var i :| 0 <= i < |ds1| && ds1[i].id == id;
      assert ds1[i] in multiset(ds2);
      var j :| 0 <= j < |ds2| && ds2[j] == ds1[i];
    }
    forall id | id in Ids(ds2) ensures id in Ids(ds1) {
      var i :| 0 <= i < |ds2| && ds2[i].id == id;
      assert ds2[i] in multiset(ds1);
      var j :| 0 <= j < |ds1| && ds1[j] == ds2[i];
    }
  }

  /**
    Given unique ids, the order of the declarations does not matter: two
    completed containers built from reorderings of the same declarations have
    the same field set on the instance of every id, and each field points at
    the instance of the same id (or is null) in both.
   */
  lemma PermutedGraphsAgree(path1: Option<string>, load1: string -> Load, path2: Option<string>, load2: string -> Load,
                            types: TypeTable, ds1: seq<Decl>, ds2: seq<Decl>, c1: Context, c2: Context,
                            id: string, f: string, x: string)
    requires !IsEmpty(path1) && load1(path1.value) == Loaded(ds1) && Construct(path1, load1, types) == Completed(c1)
    requires !IsEmpty(path2) && load2(path2.value) == Loaded(ds2) && Construct(path2, load2, types) == Completed(c2)
    requires UniqueIds(ds1) && UniqueIds(ds2) && multiset(ds1) == multiset(ds2)
    requires id in Ids(ds1)
    ensures id in c1.beans && id in c2.beans && c1.beans[id] < |c1.heap| && c2.beans[id] < |c2.heap|
    ensures c1.heap[c1.beans[id]].fields.Keys == c2.heap[c2.beans[id]].fields.Keys
    ensures f in c1.heap[c1.beans[id]].fields ==>
              (c1.heap[c1.beans[id]].fields[f] == GetBean(c1, x) <==> c2.heap[c2.beans[id]].fields[f] == GetBean(c2, x))
  {
    PermutedIds(ds1, ds2);
    PermutedDecls(ds1, ds2, id);
    CompletedInstanceOf(path1, load1, types, ds1, c1, id);
    CompletedInstanceOf(path2, load2, types, ds2, c2, id);
    if f in c1.heap[c1.beans[id]].fields {
      CompletedGraphById(path1, load1, types, ds1, c1, id, f);
      CompletedGraphById(path2, load2, types, ds2, c2, id, f);
      CompletedNames(path1, load1, types, ds1, c1);
      CompletedNames(path2, load2, types, ds2, c2);
      ResolvedAgree(c1, c2, LastRef(DeclOf(ds1, id).props, f), x);
    }
  }
}
