/**
  The object world the container works in: a table of loadable classes (what
  `Class.forName` can resolve, whether `newInstance` succeeds, which fields
  `getDeclaredField` can find) and an explicit heap of objects whose fields hold
  references or null.
 */
module Objects {

  /** `None` plays the role of a Java `null`. */
  datatype Option<+T> = None | Some(value: T)

  /** A reference is the address of an object in the heap. */
  type Ref = nat

  /** What reflection can learn about a loadable class. */
  datatype ClassInfo = ClassInfo(instantiable: bool, fields: set<string>)

  /** Class name to class; a name absent from the table does not resolve. */
  type TypeTable = map<string, ClassInfo>

  /** An object: its runtime class and the value of each declared field. */
  datatype Obj = Obj(className: string, fields: map<string, Option<Ref>>)

  /** The heap; a reference `r` denotes `h[r]`. */
  type Heap = seq<Obj>

  /** Every field of `o` is null. */
  predicate Unset(o: Obj)
  {
    forall f :: f in o.fields ==> o.fields[f] == None
  }

  /** The class can be both resolved and instantiated. */
  predicate Instantiable(types: TypeTable, className: string)
  {
    className in types && types[className].instantiable
  }

  /** A fresh instance of a class: its declared fields, all at their default null. */
  function NewInstance(className: string, info: ClassInfo): (o: Obj)
    ensures o.className == className
    ensures o.fields.Keys == info.fields
    ensures Unset(o)
  {
    Obj(className, map f | f in info.fields :: None)
  }

  /** Two heaps hold the same objects of the same classes with the same declared fields. */
  predicate SameShape(h: Heap, h': Heap)
  {
    && |h| == |h'|
    && forall q :: 0 <= q < |h| ==>
         h'[q].className == h[q].className && h'[q].fields.Keys == h[q].fields.Keys
  }

  /** `h'` differs from `h` at most in field `name` of object `r`. */
  predicate OnlySlotChanged(h: Heap, h': Heap, r: Ref, name: string)
    requires SameShape(h, h')
  {
    && (forall q :: 0 <= q < |h| && q != r ==> h'[q] == h[q])
    && (r < |h| ==> forall f :: f in h[r].fields && f != name ==> h'[r].fields[f] == h[r].fields[f])
  }

  /** Reflective field assignment: `Field.set(h[r], v)` for the field called `name`. */
  function SetField(h: Heap, r: Ref, name: string, v: Option<Ref>): (h': Heap)
    requires r < |h| && name in h[r].fields
    ensures SameShape(h, h')
    ensures h'[r].fields[name] == v
    ensures OnlySlotChanged(h, h', r, name)
  {
    h[r := h[r].(fields := h[r].fields[name := v])]
  }
}
