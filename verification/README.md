# A model of `ClassPathXmlApplicationContext`

This is a Dafny model of the IoC container in `ClassPathXmlApplicationContext`. The container reads an
ordered list of `<bean id class>` declarations and builds a registry (`beanMap`) in two passes:

- **Pass 1** creates one instance per declaration, in document order, and `put`s it under its id.
- **Pass 2** then walks every `<property name ref>` child of every bean. It sets the owner instance's field
  `name` to `beanMap.get(ref)`.

`getBean(id)` is `beanMap.get(id)`.

The model follows the code rather than an idealised container:

- a duplicate id silently replaces the earlier instance (`HashMap.put`);
- a `ref` to an undeclared id wires `null`;
- every checked exception is caught and printed, so the constructor returns normally with whatever it had
  built so far.

Of the exceptions modelled, only two escape the constructor: the explicit `RuntimeException` for an empty
path, and the unchecked exception from parsing a resource that does not exist. The unchecked exceptions
that reflection itself can raise are listed under "Left out".

Modules:

- `Objects`: the abstraction of Java reflection.
  - A type table maps each class name to `ClassInfo(instantiable, fields)`.
  - The heap is a sequence of objects. A reference is an index into it.
  - Each object maps exactly its declared fields to `Option<Ref>`, where `None` is `null`.
- `Container`: the constructor and `getBean`.
  - The passes are written as folds over the declarations. Each step returns `Done`, `Failed` (a checked
    exception) or `Aborted` (an unchecked one).
  - The constructor returns `Completed`, `Caught(partial state, error)` or `Thrown`.
- `Instantiation`: `Registry`, a direct definition of what pass 1 builds. The instance of declaration `i`
  is at reference `i`. Each id maps to the instance of its last declaration. The module proves pass 1
  equal to it.
- `Wiring`: pass 2 flattened into one loop over the list of assignments (owner id, property), with
  last-write-wins and frame lemmas.
- `Construction`: the whole constructor against the reference definitions. It states when construction
  completes, where it stops, and what every field holds afterwards.
- `Scenarios`: two concrete configurations.
  - A cycle with a self-reference.
  - A duplicate id together with a dangling ref.

## Model

| member | source | states |
|---|---|---|
| Objects.NewInstance | src/com/hive/myssm/ioc/ClassPathXmlApplicationContext.java:59 | A fresh instance has its class, exactly its class's declared fields, and every one of them null. |
| Objects.SetField | src/com/hive/myssm/ioc/ClassPathXmlApplicationContext.java:88-91 | Setting a declared field changes that one slot to the given value. Every other slot of every object and every object's class and field set stay as they were. |
| Container.IsEmpty | src/com/hive/myssm/ioc/ClassPathXmlApplicationContext.java:34 | The guard on the path: assumes `StringUtil.isEmpty` means null or the empty string. |
| Container.ClassError | src/com/hive/myssm/ioc/ClassPathXmlApplicationContext.java:57-59 | A class name the type table does not know gives `ClassNotFoundException` (line 57). A known class that cannot be instantiated gives the `newInstance` error (line 59). Both carry the class name. |
| Container.GetBean | src/com/hive/myssm/ioc/ClassPathXmlApplicationContext.java:127-129 | An id that is not registered gives `null`, not an error. A registered id gives exactly the reference stored under it. |
| Container.Instantiate | src/com/hive/myssm/ioc/ClassPathXmlApplicationContext.java:54-61 | One pass-1 step succeeds iff the class resolves and instantiates. On failure the state is unchanged and the error is `ClassNotFoundException` or the instantiation error. On success the heap grows by one fresh instance of the declared class, with exactly that class's declared fields, every one null. The id is re-pointed at that instance, even if it was already registered. Every other id keeps its instance. |
| Container.InstantiateAll | src/com/hive/myssm/ioc/ClassPathXmlApplicationContext.java:51-65 | Pass 1 raises none of the modelled unchecked exceptions. It completes iff every class is instantiable. It only appends fresh, all-null instances to the heap and never removes an id. On completion it has created one instance per declaration, in order, each of its declaration's class and with that class's declared fields, and registered every id. |
| Container.Wire | src/com/hive/myssm/ioc/ClassPathXmlApplicationContext.java:83-91 | One pass-2 step throws a null dereference iff the owner id is unregistered. It fails with `NoSuchFieldException` (state unchanged) iff the owner's class lacks the field. Otherwise it sets exactly that field of the owner instance to `getBean(ref)` and changes no other field, object or registry entry. |
| Container.WireBean | src/com/hive/myssm/ioc/ClassPathXmlApplicationContext.java:71-105 | The per-bean loop never changes the registry or the shape of any object. It can only throw when the bean has a property and its id is unregistered. |
| Container.WireAll | src/com/hive/myssm/ioc/ClassPathXmlApplicationContext.java:67-107 | Pass 2 never changes the registry or any object's class or field set. It can only throw if some declared id is unregistered. |
| Container.Assemble | src/com/hive/myssm/ioc/ClassPathXmlApplicationContext.java:51-107 | Pass 2 runs only after pass 1 completes. Running both raises none of the modelled unchecked exceptions: the null-owner dereference cannot happen after pass 1. The result is well formed. When it completes, every declared id is registered. |
| Container.Construct | src/com/hive/myssm/ioc/ClassPathXmlApplicationContext.java:32-123 | The constructor throws the empty-path exception iff the path is null or empty. The only other modelled unchecked exception is parsing a missing resource's null stream. A malformed document is caught and leaves an empty registry. A loaded document runs the two passes and nothing throws. Every returned container is well formed. |
| Container.ConstructDefault | src/com/hive/myssm/ioc/ClassPathXmlApplicationContext.java:25-29 | The no-argument constructor never throws the empty-path exception. Of the modelled unchecked exceptions, it throws one iff `applicationContext.xml` is missing. |
| Instantiation.LastIndex | src/com/hive/myssm/ioc/ClassPathXmlApplicationContext.java:55-61 | Finds the position of a declaration of the id with no later declaration of it. |
| Instantiation.Registry | src/com/hive/myssm/ioc/ClassPathXmlApplicationContext.java:51-65 | The reference state after pass 1. Its ids are exactly the declared ids. There is one instance per declaration, of that declaration's class and with every declared field null. Each id denotes its last declaration. |
| Instantiation.InstantiateAllBuildsRegistry | src/com/hive/myssm/ioc/ClassPathXmlApplicationContext.java:51-65 | A complete pass 1 from an empty map builds exactly `Registry`. |
| Instantiation.InstantiateAllStopsAtFirstFailure | src/com/hive/myssm/ioc/ClassPathXmlApplicationContext.java:57-61 | Pass 1 stops at the first class that does not instantiate, with that class's error. The beans of all earlier declarations stay registered. |
| Instantiation.DistinctIdsDistinctInstances | src/com/hive/myssm/ioc/ClassPathXmlApplicationContext.java:59-61 | Distinct ids that survive pass 1 denote distinct instances. |
| Instantiation.LaterDeclarationWins | src/com/hive/myssm/ioc/ClassPathXmlApplicationContext.java:61 | A duplicate id is not rejected: a later declaration's instance replaces the earlier one's. |
| Instantiation.DeclOf | src/com/hive/myssm/ioc/ClassPathXmlApplicationContext.java:55-61 | The declaration an id denotes after pass 1 is one of the declarations and carries that id. |
| Instantiation.UniqueDeclOf | src/com/hive/myssm/ioc/ClassPathXmlApplicationContext.java:55-61 | With unique ids, an id denotes its one declaration, wherever that declaration stands. |
| Instantiation.LatestSnoc | src/com/hive/myssm/ioc/ClassPathXmlApplicationContext.java:61 | One more declaration re-points only its own id, at the newest instance. |
| Instantiation.RegistrySnoc | src/com/hive/myssm/ioc/ClassPathXmlApplicationContext.java:54-61 | One pass-1 step extends the reference registry of a prefix to the reference registry of the next prefix. |
| Wiring.Assignments | src/com/hive/myssm/ioc/ClassPathXmlApplicationContext.java:67-80 | Every (owner, property) pair pass 2 visits names a declared bean. |
| Wiring.WireSeq | src/com/hive/myssm/ioc/ClassPathXmlApplicationContext.java:67-107 | Pass 2 as one loop over the assignments. Unless it throws, it preserves the registry and every object's shape. |
| Wiring.WireSeqAppend | src/com/hive/myssm/ioc/ClassPathXmlApplicationContext.java:67-107 | Wiring is a fold: running `a + b` is running `a`, then `b` from where it stopped, unless it stopped early. |
| Wiring.WireBeanIsWireSeq | src/com/hive/myssm/ioc/ClassPathXmlApplicationContext.java:73-105 | The per-bean loop is the single loop over that bean's assignments. |
| Wiring.WireAllIsWireSeq | src/com/hive/myssm/ioc/ClassPathXmlApplicationContext.java:67-107 | The nested loops of pass 2 equal the single loop over all assignments, in document order. |
| Wiring.WireSeqDoneIff | src/com/hive/myssm/ioc/ClassPathXmlApplicationContext.java:86-91 | Pass 2 runs to the end iff every assignment names a registered owner whose class declares the field. |
| Wiring.WireSeqStopsAtFirstFailure | src/com/hive/myssm/ioc/ClassPathXmlApplicationContext.java:73-91 | A missing field stops pass 2 at the first assignment that names it, with that field's error. Every earlier assignment has been carried out. |
| Wiring.WireKeepsOtherSlots | src/com/hive/myssm/ioc/ClassPathXmlApplicationContext.java:86-91 | A wiring step leaves every field other than its own slot unchanged. |
| Wiring.WireSeqKeepsUnwritten | src/com/hive/myssm/ioc/ClassPathXmlApplicationContext.java:73-91 | A field that no assignment writes keeps its value through pass 2. |
| Wiring.WireSeqLastWriteWins | src/com/hive/myssm/ioc/ClassPathXmlApplicationContext.java:73-91 | After pass 2, a field holds `beanMap.get(ref)` of the last assignment that writes it. |
| Wiring.WiredFields | src/com/hive/myssm/ioc/ClassPathXmlApplicationContext.java:67-107 | After pass 2, each written field holds the reference of its last assignment, and every other field keeps its previous value. |
| Wiring.WireSeqFieldIsLastWrite | src/com/hive/myssm/ioc/ClassPathXmlApplicationContext.java:73-91 | A field of bean `id` after pass 2, when no other owner shares its instance, is `getBean` of the ref of the last assignment to it, or its earlier value when nothing assigns it. |
| Wiring.LastWriteOfDecl | src/com/hive/myssm/ioc/ClassPathXmlApplicationContext.java:67-80 | With unique ids, the last assignment pass 2 makes to a field of a bean is the last property with that name in the bean's own declaration. |
| Construction.EmptyPathReadsNothing | src/com/hive/myssm/ioc/ClassPathXmlApplicationContext.java:34-36 | An empty or null path throws before any resource is read or class resolved: the result depends on neither. |
| Construction.DefaultConstructorReadsDefaultPath | src/com/hive/myssm/ioc/ClassPathXmlApplicationContext.java:25-29 | The no-argument constructor is the one-argument constructor on `applicationContext.xml`. |
| Construction.CompletesIff | src/com/hive/myssm/ioc/ClassPathXmlApplicationContext.java:51-107 | Construction completes iff every class is instantiable and every property names a field of its owner's surviving instance. |
| Construction.CompletedRegistry | src/com/hive/myssm/ioc/ClassPathXmlApplicationContext.java:51-65 | A completed container's map is exactly the pass-1 registry, over instances of the declared classes with their declared fields. |
| Construction.CompletedGraph | src/com/hive/myssm/ioc/ClassPathXmlApplicationContext.java:67-107 | In a completed container, a field holds `getBean(ref)` of the last property that names it. Every other field is still null. |
| Construction.WiredProperty | src/com/hive/myssm/ioc/ClassPathXmlApplicationContext.java:83-91 | The last property to name a field leaves there the very reference `getBean(ref)` returns: the same instance, not a copy. |
| Construction.UntargetedStaysUnset | src/com/hive/myssm/ioc/ClassPathXmlApplicationContext.java:59-91 | An instance no property is wired onto keeps every field null. This covers an instance whose id a later declaration took over. |
| Construction.FollowsReference | src/com/hive/myssm/ioc/ClassPathXmlApplicationContext.java:39-122 | Once pass 1 completes, the constructor's result is that of the single wiring loop over the reference registry. |
| Construction.StopsInInstantiation | src/com/hive/myssm/ioc/ClassPathXmlApplicationContext.java:57-118 | An unresolvable or uninstantiable class is caught. The container keeps the beans registered before it and wires nothing. |
| Construction.StopsInWiring | src/com/hive/myssm/ioc/ClassPathXmlApplicationContext.java:88-122 | A missing field is caught. The container keeps every bean and every property wired before it. |
| Construction.CompletedNames | src/com/hive/myssm/ioc/ClassPathXmlApplicationContext.java:55-61 | A completed container registers exactly the declared ids, and no two ids share an instance. |
| Construction.CompletedInstanceOf | src/com/hive/myssm/ioc/ClassPathXmlApplicationContext.java:54-61 | `getBean(id)` returns an instance of the class of the id's last declaration, with exactly that class's fields. |
| Construction.CompletedFieldById | src/com/hive/myssm/ioc/ClassPathXmlApplicationContext.java:67-107 | A field located by bean id holds `getBean` of the ref of the last property naming it over all declarations of that id, or null. |
| Construction.CompletedGraphById | src/com/hive/myssm/ioc/ClassPathXmlApplicationContext.java:67-107 | With unique ids, a field depends only on the id's own declaration: `getBean` of the ref of its last property naming the field, or null. |
| Construction.PermutedIds | src/com/hive/myssm/ioc/ClassPathXmlApplicationContext.java:51-65 | Reordering the declarations keeps the set of declared ids. |
| Construction.PermutedDecls | src/com/hive/myssm/ioc/ClassPathXmlApplicationContext.java:51-65 | With unique ids, reordering the declarations keeps the declaration each id denotes. |
| Construction.PermutedGraphsAgree | src/com/hive/myssm/ioc/ClassPathXmlApplicationContext.java:51-107 | With unique ids, two completed containers built from reorderings of the same declarations agree up to renaming instances: the instance of each id has the same fields, and each field points at the instance of the same id, or is null, in both. |
| Scenarios.CycleCompletes | src/com/hive/myssm/ioc/ClassPathXmlApplicationContext.java:51-107 | Forward, backward and self references do not stop construction. |
| Scenarios.CycleResolves | src/com/hive/myssm/ioc/ClassPathXmlApplicationContext.java:83-91 | In the cycle `a -> b -> a` with `a -> a`, each field is the instance `getBean` returns for its ref. |
| Scenarios.TwiceCompletes | src/com/hive/myssm/ioc/ClassPathXmlApplicationContext.java:61-83 | Neither a duplicate id nor a dangling ref stops construction. |
| Scenarios.TwiceWiresSurvivor | src/com/hive/myssm/ioc/ClassPathXmlApplicationContext.java:61-91 | The properties of both declarations of a duplicate id land on the surviving instance. A later property of the same name wins. A dangling ref wires null. |
| Scenarios.TwiceLeavesOthersUnset | src/com/hive/myssm/ioc/ClassPathXmlApplicationContext.java:59-91 | The replaced instance and a bean with no properties keep every field null. |

## Left out

- XML parsing and class-path resource loading (lines 41-50, 68-80) are one parameter,
  `load: string -> Load`. It returns the bean elements in document order, each with its `property`
  children. The parameter also covers the filtering on element nodes and on the name `property`
  (lines 53, 69, 76). A `ParserConfigurationException`, `SAXException` or `IOException` is the one result
  `Malformed`.
- A resource that does not exist makes `getResourceAsStream` return null. The model assumes the JAXP
  `DocumentBuilder.parse` rejects that null stream with an unchecked `IllegalArgumentException`, which
  escapes the constructor (`Thrown(NullStream)`).
- Reflection (`Class.forName`, `newInstance`, `getDeclaredField`, `setAccessible`, `Field.set`) is
  abstracted as the type table plus a heap update:
  - `InstantiationException` and `IllegalAccessException` from `newInstance` are the one flag
    `instantiable = false`;
  - inherited fields are not declared fields (as with `getDeclaredField`), and a class's field set is
    whatever the type table says;
  - static and final fields are not distinguished;
  - field types are not modelled: every declared field is a reference slot, so a primitive field (whose
    default is 0 or false) is treated as null;
  - constructor bodies and field initialisers that assign fields are not modelled: a fresh instance has
    every declared field `null`.
- A `Field.set` whose value's type does not match the field throws an uncaught `IllegalArgumentException`.
  This depends on the Java type system and is not modelled: every wiring of a declared field succeeds.
- `Container.IsEmpty` assumes `StringUtil.isEmpty` means null or empty; that class's source is not part
  of this model.
- Unchecked exceptions raised by reflection are not modelled, and the model's "only these escape"
  statements hold only for the exceptions it models. These are:
  - a bean's no-argument constructor that throws, which `newInstance` (line 59) passes on;
  - a static initialiser that fails during `Class.forName` (line 57), raising `ExceptionInInitializerError`;
  - `setAccessible(true)` (line 89) refusing access with `InaccessibleObjectException` or
    `SecurityException`.
- `printStackTrace` output is not modelled.
- The `BeanFactory` interface is not part of this model.
- The unused `path` field (line 25) is not modelled.
- Container.Construct: the model does not distinguish which of the three parser exceptions was caught.
- Construction.PermutedGraphsAgree: assumes that both orders complete. It does not prove that whether
  construction completes is itself independent of the order.
