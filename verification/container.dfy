/**
  `ClassPathXmlApplicationContext`: build a bean registry from an ordered list of
  bean declarations in two passes (instantiate every bean, then wire every
  `property`), and look beans up by id.

  Every checked exception of the constructor is caught and printed, so the
  constructor still returns a container whose registry holds whatever was built
  before the failure; only unchecked exceptions escape.
 */
module Container {
  import opened Objects

  /** The configuration file the no-argument constructor reads. */
  const DefaultPath: string := "applicationContext.xml"

  /** A `<property name=".." ref=".."/>` child of a bean element. */
  datatype Property = Property(name: string, ref: string)

  /** A `<bean id=".." class="..">` element with its property children in document order. */
  datatype Decl = Decl(id: string, className: string, props: seq<Property>)

  /** What reading and parsing the configuration resource yields. */
  datatype Load =
    | Loaded(decls: seq<Decl>)  // the bean elements, in document order
    | NoResource                // the class loader finds no such resource
    | Malformed                 // the parser raises a checked exception

  /** The container state: `beanMap` and the objects it refers to. */
  datatype Context = Context(beans: map<string, Ref>, heap: Heap)

  const Empty: Context := Context(map[], [])

  /** The checked exceptions the constructor catches (and prints). */
  datatype CheckedError =
    | ParseFailure
    | ClassNotFound(className: string)
    | NotInstantiable(className: string)
    | NoSuchField(className: string, field: string)

  /** The unchecked exceptions the model tracks; `NullOwner` cannot occur after a complete pass 1. */
  datatype UncheckedError =
    | EmptyPath         // the explicit RuntimeException for an unspecified path
    | NullStream        // parsing a missing resource's null stream
    | NullOwner(id: string)  // dereferencing `beanMap.get(id)` when it is null

  /** The result of one step or one pass. */
  datatype Step = Done(ctx: Context) | Failed(ctx: Context, error: CheckedError) | Aborted(fault: UncheckedError)

  /** What the constructor does: finish, return after a caught exception, or throw. */
  datatype Outcome = Completed(ctx: Context) | Caught(ctx: Context, error: CheckedError) | Thrown(fault: UncheckedError)

  /** Every registered reference denotes an object of the heap. */
  predicate WellFormed(c: Context)
  {
    forall id :: id in c.beans ==> c.beans[id] < |c.heap|
  }

  /** No two ids denote the same instance. */
  predicate Injective(beans: map<string, Ref>)
  {
    forall a, b :: a in beans && b in beans && beans[a] == beans[b] ==> a == b
  }

  /** `StringUtil.isEmpty`: a null or empty string. */
  predicate IsEmpty(s: Option<string>)
  {
    s.None? || s.value == ""
  }

  /** `getBean`, which is also `beanMap.get`: the registered instance, or null. */
  function GetBean(c: Context, id: string): (r: Option<Ref>)
    ensures r.Some? <==> id in c.beans
    ensures r.Some? ==> r.value == c.beans[id]
  {
    if id in c.beans then Some(c.beans[id]) else None
  }

  /** The error `Class.forName` or `newInstance` raises for a class that is not instantiable. */
  function ClassError(types: TypeTable, className: string): (e: CheckedError)
    ensures e.ClassNotFound? <==> className !in types
    ensures e.NotInstantiable? <==> className in types
    ensures e.className == className
  {
    if className in types then NotInstantiable(className) else ClassNotFound(className)
  }

  // ---------------------------------------------------------------------------
  // Pass 1: instantiate every declared bean and put it into the registry.
  // ---------------------------------------------------------------------------

  /** One iteration of pass 1: resolve the class, create an instance, `put` it under the id. */
  function Instantiate(types: TypeTable, c: Context, d: Decl): (r: Step)
    requires WellFormed(c)
    ensures !r.Aborted?
    ensures r.Done? <==> Instantiable(types, d.className)
    ensures r.Failed? ==> r.ctx == c && r.error == ClassError(types, d.className)
    ensures r.Done? ==>
              && WellFormed(r.ctx)
              && c.heap <= r.ctx.heap && |r.ctx.heap| == |c.heap| + 1
              && r.ctx.heap[|c.heap|].className == d.className
              && r.ctx.heap[|c.heap|].fields.Keys == types[d.className].fields
              && Unset(r.ctx.heap[|c.heap|])
              && r.ctx.beans.Keys == c.beans.Keys + {d.id}
              && r.ctx.beans[d.id] == |c.heap|
              && (forall id :: id in c.beans && id != d.id ==> r.ctx.beans[id] == c.beans[id])
  {
    if Instantiable(types, d.className) then
      var o := NewInstance(d.className, types[d.className]);
      Done(Context(c.beans[d.id := |c.heap|], c.heap + [o]))
    else
      Failed(c, ClassError(types, d.className))
  }

  /** Pass 1 over `ds` in order; the first failure stops the pass. */
  function InstantiateAll(types: TypeTable, ds: seq<Decl>, c: Context): (r: Step)
    requires WellFormed(c)
    ensures !r.Aborted?
    ensures WellFormed(r.ctx)
    ensures r.Done? <==> forall i :: 0 <= i < |ds| ==> Instantiable(types, ds[i].className)
    ensures c.heap <= r.ctx.heap
    ensures c.beans.Keys <= r.ctx.beans.Keys
    ensures forall q :: |c.heap| <= q < |r.ctx.heap| ==> Unset(r.ctx.heap[q])
    ensures r.Done? ==> |r.ctx.heap| == |c.heap| + |ds|
    ensures r.Done? ==> forall i :: 0 <= i < |ds| ==> ds[i].id in r.ctx.beans
    ensures r.Done? ==> forall i :: 0 <= i < |ds| ==>
              && r.ctx.heap[|c.heap| + i].className == ds[i].className
              && r.ctx.heap[|c.heap| + i].fields.Keys == types[ds[i].className].fields
    decreases |ds|
  {
    if |ds| == 0 then Done(c)
    else
      var prior := InstantiateAll(types, ds[..|ds| - 1], c);
      if prior.Done? then Instantiate(types, prior.ctx, ds[|ds| - 1]) else prior
  }

  // ---------------------------------------------------------------------------
  // Pass 2: wire every property of every bean.
  // ---------------------------------------------------------------------------

  /**
    One iteration of pass 2: `refObj = beanMap.get(ref)`, `beanObj = beanMap.get(owner)`,
    then set `beanObj`'s declared field `p.name` to `refObj`.
   */
  function Wire(c: Context, owner: string, p: Property): (r: Step)
    requires WellFormed(c)
    ensures r.Aborted? <==> owner !in c.beans
    ensures r.Failed? <==> owner in c.beans && p.name !in c.heap[c.beans[owner]].fields
    ensures r.Failed? ==> r.ctx == c && r.error == NoSuchField(c.heap[c.beans[owner]].className, p.name)
    ensures r.Done? ==>
              && r.ctx.beans == c.beans
              && SameShape(c.heap, r.ctx.heap)
              && r.ctx.heap[c.beans[owner]].fields[p.name] == GetBean(c, p.ref)
              && OnlySlotChanged(c.heap, r.ctx.heap, c.beans[owner], p.name)
  {
    var refObj := GetBean(c, p.ref);
    match GetBean(c, owner)
    case None => Aborted(NullOwner(owner))
    case Some(o) =>
      if p.name in c.heap[o].fields then
        Done(c.(heap := SetField(c.heap, o, p.name, refObj)))
      else
        Failed(c, NoSuchField(c.heap[o].className, p.name))
  }

  /** The inner loop of pass 2: the properties of one bean, in document order. */
  function WireBean(c: Context, owner: string, ps: seq<Property>): (r: Step)
    requires WellFormed(c)
    ensures !r.Aborted? ==> r.ctx.beans == c.beans && SameShape(c.heap, r.ctx.heap)
    ensures r.Aborted? ==> |ps| > 0 && owner !in c.beans
    decreases |ps|
  {
    if |ps| == 0 then Done(c)
    else
      var prior := WireBean(c, owner, ps[..|ps| - 1]);
      if prior.Done? then Wire(prior.ctx, owner, ps[|ps| - 1]) else prior
  }

  /** The outer loop of pass 2: every bean, in document order. */
  function WireAll(c: Context, ds: seq<Decl>): (r: Step)
    requires WellFormed(c)
    ensures !r.Aborted? ==> r.ctx.beans == c.beans && SameShape(c.heap, r.ctx.heap)
    ensures r.Aborted? ==> exists i :: 0 <= i < |ds| && ds[i].id !in c.beans
    decreases |ds|
  {
    if |ds| == 0 then Done(c)
    else
      var prior := WireAll(c, ds[..|ds| - 1]);
      if prior.Done? then WireBean(prior.ctx, ds[|ds| - 1].id, ds[|ds| - 1].props) else prior
  }

  // ---------------------------------------------------------------------------
  // The constructors and the two passes put together.
  // ---------------------------------------------------------------------------

  /** The body of the `try` block once the declarations are known: pass 1, then pass 2. */
  function Assemble(types: TypeTable, ds: seq<Decl>): (r: Outcome)
    ensures !r.Thrown?
    ensures WellFormed(r.ctx)
    ensures r.Completed? ==> forall i :: 0 <= i < |ds| ==> ds[i].id in r.ctx.beans
  {
    var built := InstantiateAll(types, ds, Empty);
    if built.Failed? then Caught(built.ctx, built.error)
    else
      var wired := WireAll(built.ctx, ds);
      match wired
      case Done(c) => Completed(c)
      case Failed(c, e) => Caught(c, e)
      case Aborted(f) => Thrown(f)
  }

  /**
    `new ClassPathXmlApplicationContext(path)`, where `load` stands for reading and
    parsing the class-path resource called `path`.
   */
  function Construct(path: Option<string>, load: string -> Load, types: TypeTable): (r: Outcome)
    ensures r == Thrown(EmptyPath) <==> IsEmpty(path)
    ensures r.Thrown? ==> r.fault == EmptyPath || r.fault == NullStream
    ensures !IsEmpty(path) && load(path.value) == NoResource ==> r == Thrown(NullStream)
    ensures !IsEmpty(path) && load(path.value) == Malformed ==> r == Caught(Empty, ParseFailure)
    ensures !IsEmpty(path) && load(path.value).Loaded? ==> r == Assemble(types, load(path.value).decls)
    ensures !r.Thrown? ==> WellFormed(r.ctx)
  {
    if IsEmpty(path) then Thrown(EmptyPath)
    else
      match load(path.value)
      case NoResource => Thrown(NullStream)
      case Malformed => Caught(Empty, ParseFailure)
      case Loaded(ds) => Assemble(types, ds)
  }

  /** `new ClassPathXmlApplicationContext()`: the one-argument constructor on the default file. */
  function ConstructDefault(load: string -> Load, types: TypeTable): (r: Outcome)
    ensures !r.Thrown? || r.fault == NullStream
    ensures load(DefaultPath) == NoResource <==> r.Thrown?
  {
    Construct(Some(DefaultPath), load, types)
  }
}
