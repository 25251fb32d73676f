/**
  Concrete configurations and what the container makes of them: circular and
  self references, duplicate ids, dangling references, and the two ways a
  build stops early.
 */
module Scenarios {
  import opened Objects
  import opened Container
  import opened Instantiation
  import opened Wiring
  import opened Construction

  /** The class resolves, instantiates, and declares (at least) the given fields. */
  predicate Declares(types: TypeTable, className: string, fields: set<string>)
  {
    Instantiable(types, className) && fields <= types[className].fields
  }

  /** `a` refers forward to `b`, `b` back to `a`, and `a` to itself. */
  const Cycle: seq<Decl> := [
    Decl("a", "demo.A", [Property("b", "b"), Property("self", "a")]),
    Decl("b", "demo.B", [Property("a", "a")])
  ]

  lemma CycleIds()
    ensures Ids(Cycle) == {"a", "b"}
  {
    assert Cycle[0].id == "a" && Cycle[1].id == "b";
  }

  lemma CyclePlan()
    ensures Assignments(Cycle) ==
              [Assignment("a", Property("b", "b")), Assignment("a", Property("self", "a")), Assignment("b", Property("a", "a"))]
  {
    assert Cycle[..1] == [Cycle[0]] && Cycle[..1][..0] == [];
    assert Assignments(Cycle[..1]) == Owned("a", Cycle[0].props);
  }

  /** Pass 1 registers `a` at the first instance and `b` at the second. */
  lemma CycleRegistry(types: TypeTable)
    requires Declares(types, "demo.A", {"b", "self"}) && Declares(types, "demo.B", {"a"})
    ensures AllInstantiable(types, Cycle)
    ensures Registry(types, Cycle).beans == map["a" := 0, "b" := 1]
    ensures {"b", "self"} <= Registry(types, Cycle).heap[0].fields.Keys
    ensures {"a"} <= Registry(types, Cycle).heap[1].fields.Keys
  {
    CycleIds();
    assert Cycle[..1] == [Cycle[0]];
    assert LastIndex(Cycle, "a") == 0;
    assert LastIndex(Cycle, "b") == 1;
    assert Latest(Cycle) == map["a" := 0, "b" := 1];
  }

  /** With `a` at 0 and `b` at 1, each property of the cycle is the last to write its slot. */
  lemma CycleSlots(beans: map<string, Ref>)
    requires beans == map["a" := 0, "b" := 1]
    ensures var plan := Assignments(Cycle);
            && Writes(beans, plan[0], 0, "b") && NotWrittenFrom(beans, plan, 1, 0, "b")
            && Writes(beans, plan[1], 0, "self") && NotWrittenFrom(beans, plan, 2, 0, "self")
            && Writes(beans, plan[2], 1, "a") && NotWrittenFrom(beans, plan, 3, 1, "a")
            && |plan| == 3 && plan[0].prop.ref == "b" && plan[1].prop.ref == "a" && plan[2].prop.ref == "a"
  {
    CyclePlan();
    var plan := Assignments(Cycle);
    forall j | 1 <= j < |plan| ensures !Writes(beans, plan[j], 0, "b") {
      assert j == 1 || j == 2;
    }
  }

  /** Every property of the cycle names a registered bean and a declared field. */
  lemma CycleFeasible(types: TypeTable)
    requires Declares(types, "demo.A", {"b", "self"}) && Declares(types, "demo.B", {"a"})
    ensures AllInstantiable(types, Cycle) && Feasible(Registry(types, Cycle), Assignments(Cycle))
  {
    CycleRegistry(types);
    var reg := Registry(types, Cycle);
    var plan := Assignments(Cycle);
    CycleSlots(reg.beans);
    assert Wirable(reg, plan[0]) && Wirable(reg, plan[1]) && Wirable(reg, plan[2]);
  }

  /** `getBean` on the registry `Cycle` leaves behind. */
  lemma CycleLookups(c: Context)
    requires c.beans == map["a" := 0, "b" := 1]
    ensures GetBean(c, "a") == Some(0) && GetBean(c, "b") == Some(1)
  {
  }

  /** Forward, backward and self references all resolve: construction completes. */
  lemma CycleCompletes(path: Option<string>, load: string -> Load, types: TypeTable)
    requires !IsEmpty(path) && load(path.value) == Loaded(Cycle)
    requires Declares(types, "demo.A", {"b", "self"}) && Declares(types, "demo.B", {"a"})
    ensures Construct(path, load, types).Completed?
  {
    CycleFeasible(types);
    CompletesIff(path, load, types, Cycle);
  }

  /** Each wired field is the very instance `getBean` returns for its ref. */
  lemma CycleResolves(path: Option<string>, load: string -> Load, types: TypeTable, c: Context)
    requires !IsEmpty(path) && load(path.value) == Loaded(Cycle)
    requires Construct(path, load, types) == Completed(c)
    requires Declares(types, "demo.A", {"b", "self"}) && Declares(types, "demo.B", {"a"})
    ensures GetBean(c, "a") == Some(0) && GetBean(c, "b") == Some(1)
    ensures |c.heap| == 2 && {"b", "self"} <= c.heap[0].fields.Keys && "a" in c.heap[1].fields
    ensures c.heap[0].fields["b"] == GetBean(c, "b")
    ensures c.heap[0].fields["self"] == GetBean(c, "a")
    ensures c.heap[1].fields["a"] == GetBean(c, "a")
  {
    CycleRegistry(types);
    CompletedRegistry(path, load, types, Cycle, c);
    CycleSlots(c.beans);
    CycleLookups(c);
    var plan := Assignments(Cycle);
    WiredProperty(path, load, types, Cycle, c, 0, 0, "b");
    assert c.heap[0].fields["b"] == GetBean(c, plan[0].prop.ref);
    WiredProperty(path, load, types, Cycle, c, 1, 0, "self");
    assert c.heap[0].fields["self"] == GetBean(c, plan[1].prop.ref);
    WiredProperty(path, load, types, Cycle, c, 2, 1, "a");
    assert c.heap[1].fields["a"] == GetBean(c, plan[2].prop.ref);
  }

  /**
    `x` is declared twice: the second instance replaces the first in the
    registry, and the properties of both declarations land on it; the second
    declaration names `b` twice, the last time with an undeclared ref.
   */
  const Twice: seq<Decl> := [
    Decl("x", "demo.A", [Property("self", "y")]),
    Decl("x", "demo.A", [Property("b", "y"), Property("b", "nowhere")]),
    Decl("y", "demo.B", [])
  ]

  lemma TwicePlan()
    ensures Assignments(Twice) ==
              [Assignment("x", Property("self", "y")), Assignment("x", Property("b", "y")), Assignment("x", Property("b", "nowhere"))]
  {
    assert Twice[..2] == [Twice[0], Twice[1]] && Twice[..2][..1] == [Twice[0]] && Twice[..2][..1][..0] == [];
    assert Assignments(Twice[..2][..1]) == Owned("x", Twice[0].props);
    assert Assignments(Twice[..2]) == Owned("x", Twice[0].props) + Owned("x", Twice[1].props);
  }

  /** Pass 1 leaves `x` at the second instance; the first is unreachable by id. */
  lemma TwiceRegistry(types: TypeTable)
    requires Declares(types, "demo.A", {"b", "self"}) && Declares(types, "demo.B", {"a"})
    ensures AllInstantiable(types, Twice)
    ensures Registry(types, Twice).beans == map["x" := 1, "y" := 2]
    ensures {"b", "self"} <= Registry(types, Twice).heap[1].fields.Keys
  {
    assert Twice[0].id == "x" && Twice[1].id == "x" && Twice[2].id == "y";
    assert Ids(Twice) == {"x", "y"};
    assert Twice[..2] == [Twice[0], Twice[1]];
    assert LastIndex(Twice, "x") == 1;
    assert LastIndex(Twice, "y") == 2;
    assert Latest(Twice) == map["x" := 1, "y" := 2];
  }

  lemma TwiceSlots(beans: map<string, Ref>)
    requires beans == map["x" := 1, "y" := 2]
    ensures var plan := Assignments(Twice);
            && Writes(beans, plan[0], 1, "self") && NotWrittenFrom(beans, plan, 1, 1, "self")
            && Writes(beans, plan[1], 1, "b")
            && Writes(beans, plan[2], 1, "b") && NotWrittenFrom(beans, plan, 3, 1, "b")
            && !Targets(beans, plan, 0) && !Targets(beans, plan, 2)
            && |plan| == 3 && plan[0].prop.ref == "y" && plan[2].prop.ref == "nowhere"
  {
    TwicePlan();
    var plan := Assignments(Twice);
    forall j | 1 <= j < |plan| ensures !Writes(beans, plan[j], 1, "self") {
      assert j == 1 || j == 2;
    }
  }

  /** Every property of both `x` declarations names a field of the surviving instance's class. */
  lemma TwiceFeasible(types: TypeTable)
    requires Declares(types, "demo.A", {"b", "self"}) && Declares(types, "demo.B", {"a"})
    ensures AllInstantiable(types, Twice) && Feasible(Registry(types, Twice), Assignments(Twice))
  {
    TwiceRegistry(types);
    var reg := Registry(types, Twice);
    var plan := Assignments(Twice);
    TwiceSlots(reg.beans);
    assert Wirable(reg, plan[0]) && Wirable(reg, plan[1]) && Wirable(reg, plan[2]);
  }

  /** `getBean` on the registry `Twice` leaves behind. */
  lemma TwiceLookups(c: Context)
    requires c.beans == map["x" := 1, "y" := 2]
    ensures GetBean(c, "x") == Some(1) && GetBean(c, "y") == Some(2) && GetBean(c, "nowhere") == None
  {
    assert "nowhere" != "x" && "nowhere" != "y";
  }

  /** Neither the duplicate id nor the undeclared ref stops construction. */
  lemma TwiceCompletes(path: Option<string>, load: string -> Load, types: TypeTable)
    requires !IsEmpty(path) && load(path.value) == Loaded(Twice)
    requires Declares(types, "demo.A", {"b", "self"}) && Declares(types, "demo.B", {"a"})
    ensures Construct(path, load, types).Completed?
  {
    TwiceFeasible(types);
    CompletesIff(path, load, types, Twice);
  }

  /**
    No duplicate-id error and no dangling-reference error: the surviving `x`
    carries the first declaration's `self` and the second's last `b` (null,
    since `nowhere` is not declared).
   */
  lemma TwiceWiresSurvivor(path: Option<string>, load: string -> Load, types: TypeTable, c: Context)
    requires !IsEmpty(path) && load(path.value) == Loaded(Twice)
    requires Construct(path, load, types) == Completed(c)
    requires Declares(types, "demo.A", {"b", "self"}) && Declares(types, "demo.B", {"a"})
    ensures GetBean(c, "x") == Some(1) && GetBean(c, "y") == Some(2) && GetBean(c, "nowhere") == None
    ensures |c.heap| == 3 && {"b", "self"} <= c.heap[1].fields.Keys
    ensures c.heap[1].fields["self"] == GetBean(c, "y")
    ensures c.heap[1].fields["b"] == None
  {
    TwiceRegistry(types);
    CompletedRegistry(path, load, types, Twice, c);
    TwiceSlots(c.beans);
    TwiceLookups(c);
    var plan := Assignments(Twice);
    WiredProperty(path, load, types, Twice, c, 0, 1, "self");
    assert c.heap[1].fields["self"] == GetBean(c, plan[0].prop.ref);
    WiredProperty(path, load, types, Twice, c, 2, 1, "b");
    assert c.heap[1].fields["b"] == GetBean(c, plan[2].prop.ref);
  }

  /** The replaced first `x` and the property-less `y` are never wired: all their fields stay null. */
  lemma TwiceLeavesOthersUnset(path: Option<string>, load: string -> Load, types: TypeTable, c: Context)
    requires !IsEmpty(path) && load(path.value) == Loaded(Twice)
    requires Construct(path, load, types) == Completed(c)
    requires Declares(types, "demo.A", {"b", "self"}) && Declares(types, "demo.B", {"a"})
    ensures |c.heap| == 3 && Unset(c.heap[0]) && Unset(c.heap[2])
  {
    TwiceRegistry(types);
    CompletedRegistry(path, load, types, Twice, c);
    TwiceSlots(c.beans);
    UntargetedStaysUnset(path, load, types, Twice, c, 0);
    UntargetedStaysUnset(path, load, types, Twice, c, 2);
  }
}
