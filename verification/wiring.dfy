/**
  Pass 2 seen as one loop over the flattened list of assignments (every
  property of every bean, in document order), and what that loop leaves in each
  field: the reference of the last assignment to it, or its earlier value if
  nothing assigns it.
 */
module Wiring {
  import opened Objects
  import opened Container
  import opened Instantiation

  /** One `property` element together with the id of the bean it belongs to. */
  datatype Assignment = Assignment(owner: string, prop: Property)

  /** The properties of one bean as assignments. */
  function Owned(owner: string, ps: seq<Property>): (plan: seq<Assignment>)
    ensures |plan| == |ps|
    ensures forall j :: 0 <= j < |ps| ==> plan[j] == Assignment(owner, ps[j])
  {
    seq(|ps|, j requires 0 <= j < |ps| => Assignment(owner, ps[j]))
  }

  /** Every property of every bean, in the order pass 2 visits them. */
  function Assignments(ds: seq<Decl>): (plan: seq<Assignment>)
    ensures forall k :: 0 <= k < |plan| ==> plan[k].owner in Ids(ds)
    decreases |ds|
  {
    if |ds| == 0 then []
    else
      PrefixIds(ds);
      Assignments(ds[..|ds| - 1]) + Owned(ds[|ds| - 1].id, ds[|ds| - 1].props)
  }

  /** Pass 2 as a single loop over `plan`. */
  function WireSeq(c: Context, plan: seq<Assignment>): (r: Step)
    requires WellFormed(c)
    ensures !r.Aborted? ==> r.ctx.beans == c.beans && SameShape(c.heap, r.ctx.heap)
    decreases |plan|
  {
    if |plan| == 0 then Done(c)
    else
      var prior := WireSeq(c, plan[..|plan| - 1]);
      var a := plan[|plan| - 1];
      if prior.Done? then Wire(prior.ctx, a.owner, a.prop) else prior
  }

  /** Carry on with `plan` after an intermediate result, unless that result stopped the loop. */
  function Resume(s: Step, plan: seq<Assignment>): Step
    requires s.Done? ==> WellFormed(s.ctx)
  {
    if s.Done? then WireSeq(s.ctx, plan) else s
  }

  /** The assignment's owner is registered and its class declares the field. */
  predicate Wirable(c: Context, a: Assignment)
    requires WellFormed(c)
  {
    a.owner in c.beans && a.prop.name in c.heap[c.beans[a.owner]].fields
  }

  /** Every assignment of `plan` names a registered owner and a field its class declares. */
  predicate Feasible(c: Context, plan: seq<Assignment>)
    requires WellFormed(c)
  {
    forall k :: 0 <= k < |plan| ==> Wirable(c, plan[k])
  }

  /** The assignment writes field `f` of object `o`. */
  predicate Writes(beans: map<string, Ref>, a: Assignment, o: Ref, f: string)
  {
    a.owner in beans && beans[a.owner] == o && a.prop.name == f
  }

  /** No assignment of `plan` at position `from` or later writes field `f` of object `o`. */
  predicate NotWrittenFrom(beans: map<string, Ref>, plan: seq<Assignment>, from: nat, o: Ref, f: string)
  {
    forall j :: from <= j < |plan| ==> !Writes(beans, plan[j], o, f)
  }

  /** Some assignment of `plan` is wired onto object `o`. */
  predicate Targets(beans: map<string, Ref>, plan: seq<Assignment>, o: Ref)
  {
    exists k :: 0 <= k < |plan| && plan[k].owner in beans && beans[plan[k].owner] == o
  }

  /** The ref of the last property named `f` in `ps`, if there is one. */
  function LastRef(ps: seq<Property>, f: string): Option<string>
    decreases |ps|
  {
    if |ps| == 0 then None
    else if ps[|ps| - 1].name == f then Some(ps[|ps| - 1].ref)
    else LastRef(ps[..|ps| - 1], f)
  }

  /** The ref of the last assignment of `plan` to field `f` of bean `id`, if there is one. */
  function LastWrite(plan: seq<Assignment>, id: string, f: string): Option<string>
    decreases |plan|
  {
    if |plan| == 0 then None
    else if plan[|plan| - 1].owner == id && plan[|plan| - 1].prop.name == f then Some(plan[|plan| - 1].prop.ref)
    else LastWrite(plan[..|plan| - 1], id, f)
  }

  /** What a field holds after wiring: the instance its last ref names, or its earlier value. */
  function Resolved(c: Context, last: Option<string>, earlier: Option<Ref>): Option<Ref>
  {
    match last
    case None => earlier
    case Some(r) => GetBean(c, r)
  }

  /** Wiring is a fold: running `a + b` is running `a`, then `b` from where it stopped. */
  lemma {:induction false} WireSeqAppend(c: Context, a: seq<Assignment>, b: seq<Assignment>)
    requires WellFormed(c)
    ensures WireSeq(c, a + b) == Resume(WireSeq(c, a), b)
    decreases |b|
  {
    if |b| == 0 {
      assert a + b == a;
    } else {
      assert (a + b)[..|a + b| - 1] == a + b[..|b| - 1];
      assert (a + b)[|a + b| - 1] == b[|b| - 1];
      WireSeqAppend(c, a, b[..|b| - 1]);
    }
  }

  /** The inner loop of pass 2 is the single loop over the bean's own assignments. */
  lemma {:induction false} WireBeanIsWireSeq(c: Context, owner: string, ps: seq<Property>)
    requires WellFormed(c)
    ensures WireBean(c, owner, ps) == WireSeq(c, Owned(owner, ps))
    decreases |ps|
  {
    if |ps| > 0 {
      assert Owned(owner, ps)[..|ps| - 1] == Owned(owner, ps[..|ps| - 1]);
      WireBeanIsWireSeq(c, owner, ps[..|ps| - 1]);
    }
  }

  /** The nested loops of pass 2 are the single loop over all assignments. */
  lemma {:induction false} WireAllIsWireSeq(c: Context, ds: seq<Decl>)
    requires WellFormed(c)
    ensures WireAll(c, ds) == WireSeq(c, Assignments(ds))
    decreases |ds|
  {
    if |ds| > 0 {
      var init := ds[..|ds| - 1];
      var d := ds[|ds| - 1];
      WireAllIsWireSeq(c, init);
      WireSeqAppend(c, Assignments(init), Owned(d.id, d.props));
      var prior := WireAll(c, init);
      if prior.Done? {
        WireBeanIsWireSeq(prior.ctx, d.id, d.props);
      }
    }
  }

  /** Pass 2 runs to the end exactly when every assignment names a registered owner and a declared field. */
  lemma {:induction false} WireSeqDoneIff(c: Context, plan: seq<Assignment>)
    requires WellFormed(c)
    ensures WireSeq(c, plan).Done? <==> Feasible(c, plan)
    decreases |plan|
  {
    if |plan| > 0 {
      var init := plan[..|plan| - 1];
      WireSeqDoneIff(c, init);
      forall k | 0 <= k < |init| ensures init[k] == plan[k] { }
      var prior := WireSeq(c, init);
      if prior.Done? {
        var a := plan[|plan| - 1];
        assert Wirable(prior.ctx, a) == Wirable(c, a);
      }
    }
  }

  /**
    A missing field stops pass 2 at the first assignment that names it; every
    assignment before it has been carried out and nothing after it is.
   */
  lemma {:induction false} WireSeqStopsAtFirstFailure(c: Context, plan: seq<Assignment>, k: nat)
    requires WellFormed(c)
    requires k < |plan| && plan[k].owner in c.beans && !Wirable(c, plan[k])
    requires forall j :: 0 <= j < k ==> Wirable(c, plan[j])
    ensures WireSeq(c, plan[..k]).Done?
    ensures WireSeq(c, plan) ==
              Failed(WireSeq(c, plan[..k]).ctx, NoSuchField(c.heap[c.beans[plan[k].owner]].className, plan[k].prop.name))
    decreases |plan|
  {
    WireSeqDoneIff(c, plan[..k]);
    var init := plan[..|plan| - 1];
    if k == |plan| - 1 {
      assert init == plan[..k];
    } else {
      assert init[..k] == plan[..k];
      assert init[k] == plan[k];
      forall j | 0 <= j < k ensures Wirable(c, init[j]) {
        assert init[j] == plan[j];
      }
      WireSeqStopsAtFirstFailure(c, init, k);
    }
  }

  /** A completed wiring step leaves every field other than its own slot as it was. */
  lemma WireKeepsOtherSlots(c: Context, a: Assignment, o: Ref, f: string)
    requires WellFormed(c) && Wire(c, a.owner, a.prop).Done?
    requires o < |c.heap| && f in c.heap[o].fields && !Writes(c.beans, a, o, f)
    ensures Wire(c, a.owner, a.prop).ctx.heap[o].fields[f] == c.heap[o].fields[f]
  {
    var after := Wire(c, a.owner, a.prop).ctx;
    assert OnlySlotChanged(c.heap, after.heap, c.beans[a.owner], a.prop.name);
  }

  /** A field no assignment of `plan` writes keeps its value through a complete pass 2. */
  lemma {:induction false} WireSeqKeepsUnwritten(c: Context, plan: seq<Assignment>, o: Ref, f: string)
    requires WellFormed(c) && WireSeq(c, plan).Done?
    requires o < |c.heap| && f in c.heap[o].fields && NotWrittenFrom(c.beans, plan, 0, o, f)
    ensures WireSeq(c, plan).ctx.heap[o].fields[f] == c.heap[o].fields[f]
    decreases |plan|
  {
    if |plan| > 0 {
      var init := plan[..|plan| - 1];
      var a := plan[|plan| - 1];
      assert NotWrittenFrom(c.beans, init, 0, o, f) by {
        forall j | 0 <= j < |init| ensures !Writes(c.beans, init[j], o, f) {
          assert init[j] == plan[j];
        }
      }
      WireSeqKeepsUnwritten(c, init, o, f);
      assert !Writes(c.beans, a, o, f);
      WireKeepsOtherSlots(WireSeq(c, init).ctx, a, o, f);
    }
  }

  /**
    Last write wins: after a complete pass 2, a field holds `beanMap.get(ref)`
    of the last assignment that writes it.
   */
  lemma {:induction false} WireSeqLastWriteWins(c: Context, plan: seq<Assignment>, k: nat)
    requires WellFormed(c) && WireSeq(c, plan).Done?
    requires k < |plan| && Wirable(c, plan[k])
    requires NotWrittenFrom(c.beans, plan, k + 1, c.beans[plan[k].owner], plan[k].prop.name)
    ensures WireSeq(c, plan).ctx.heap[c.beans[plan[k].owner]].fields[plan[k].prop.name] == GetBean(c, plan[k].prop.ref)
    decreases |plan|
  {
    var init := plan[..|plan| - 1];
    var a := plan[|plan| - 1];
    var o, f := c.beans[plan[k].owner], plan[k].prop.name;
    if k < |plan| - 1 {
      assert init[k] == plan[k];
      assert NotWrittenFrom(c.beans, init, k + 1, o, f) by {
        forall j | k + 1 <= j < |init| ensures !Writes(c.beans, init[j], o, f) {
          assert init[j] == plan[j];
        }
      }
      WireSeqLastWriteWins(c, init, k);
      assert !Writes(c.beans, a, o, f);
      WireKeepsOtherSlots(WireSeq(c, init).ctx, a, o, f);
    }
  }

  /**
    The fields after a complete pass 2 over `plan`: each written field holds the
    reference of its last assignment, every other field keeps its value.
   */
  lemma WiredFields(c: Context, plan: seq<Assignment>, c': Context)
    requires WellFormed(c) && WireSeq(c, plan) == Done(c')
    ensures WellFormed(c')
    ensures forall k ::
              (0 <= k < |plan| && Wirable(c', plan[k]) &&
               NotWrittenFrom(c'.beans, plan, k + 1, c'.beans[plan[k].owner], plan[k].prop.name)) ==>
              c'.heap[c'.beans[plan[k].owner]].fields[plan[k].prop.name] == GetBean(c', plan[k].prop.ref)
    ensures forall o, f ::
              0 <= o < |c'.heap| && f in c'.heap[o].fields && NotWrittenFrom(c'.beans, plan, 0, o, f) ==>
              o < |c.heap| && f in c.heap[o].fields && c'.heap[o].fields[f] == c.heap[o].fields[f]
  {
    forall k | 0 <= k < |plan| && Wirable(c', plan[k]) &&
               NotWrittenFrom(c'.beans, plan, k + 1, c'.beans[plan[k].owner], plan[k].prop.name)
      ensures c'.heap[c'.beans[plan[k].owner]].fields[plan[k].prop.name] == GetBean(c', plan[k].prop.ref)
    {
      assert Wirable(c, plan[k]);
      WireSeqLastWriteWins(c, plan, k);
    }
    forall o, f | 0 <= o < |c'.heap| && f in c'.heap[o].fields && NotWrittenFrom(c'.beans, plan, 0, o, f)
      ensures o < |c.heap| && f in c.heap[o].fields && c'.heap[o].fields[f] == c.heap[o].fields[f]
    {
      WireSeqKeepsUnwritten(c, plan, o, f);
    }
  }

  lemma {:induction false} LastWriteAppend(p: seq<Assignment>, q: seq<Assignment>, id: string, f: string)
    ensures LastWrite(p + q, id, f) == if LastWrite(q, id, f).Some? then LastWrite(q, id, f) else LastWrite(p, id, f)
    decreases |q|
  {
    if |q| == 0 {
      assert p + q == p;
    } else {
      assert (p + q)[..|p + q| - 1] == p + q[..|q| - 1];
      assert (p + q)[|p + q| - 1] == q[|q| - 1];
      LastWriteAppend(p, q[..|q| - 1], id, f);
    }
  }

  lemma {:induction false} LastWriteOwned(owner: string, ps: seq<Property>, id: string, f: string)
    ensures LastWrite(Owned(owner, ps), id, f) == if owner == id then LastRef(ps, f) else None
    decreases |ps|
  {
    if |ps| > 0 {
      assert Owned(owner, ps)[..|ps| - 1] == Owned(owner, ps[..|ps| - 1]);
      LastWriteOwned(owner, ps[..|ps| - 1], id, f);
    }
  }

  lemma {:induction false} LastWriteAbsent(plan: seq<Assignment>, id: string, f: string)
    requires forall k :: 0 <= k < |plan| ==> plan[k].owner != id
    ensures LastWrite(plan, id, f) == None
    decreases |plan|
  {
    if |plan| > 0 {
      var init := plan[..|plan| - 1];
      forall k | 0 <= k < |init| ensures init[k].owner != id {
        assert init[k] == plan[k];
      }
      LastWriteAbsent(init, id, f);
    }
  }

  /**
    With unique ids, the last assignment pass 2 makes to field `f` of bean `id`
    is the last property named `f` in that bean's own declaration.
   */
  lemma {:induction false} LastWriteOfDecl(ds: seq<Decl>, id: string, f: string)
    requires UniqueIds(ds) && id in Ids(ds)
    ensures LastWrite(Assignments(ds), id, f) == LastRef(DeclOf(ds, id).props, f)
    decreases |ds|
  {
    var init := ds[..|ds| - 1];
    var d := ds[|ds| - 1];
    PrefixIds(ds);
    LastWriteAppend(Assignments(init), Owned(d.id, d.props), id, f);
    LastWriteOwned(d.id, d.props, id, f);
    if d.id == id {
      assert LastIndex(ds, id) == |ds| - 1;
      forall i | 0 <= i < |init| ensures init[i].id != id {
        assert init[i] == ds[i];
      }
      assert id !in Ids(init);
      LastWriteAbsent(Assignments(init), id, f);
    } else {
      assert LastIndex(ds, id) == LastIndex(init, id);
      assert UniqueIds(init) by {
        forall i, j | 0 <= i < j < |init| ensures init[i].id != init[j].id {
          assert init[i] == ds[i] && init[j] == ds[j];
        }
      }
      LastWriteOfDecl(init, id, f);
    }
  }

  /**
    A field of bean `id` after a complete pass 2, when no other owner of `plan`
    shares its instance: `getBean` of the ref of the last assignment to it, or
    its earlier value when nothing assigns it.
   */
  lemma {:induction false} WireSeqFieldIsLastWrite(c: Context, plan: seq<Assignment>, id: string, f: string)
    requires WellFormed(c) && WireSeq(c, plan).Done?
    requires id in c.beans && f in c.heap[c.beans[id]].fields
    requires forall k :: 0 <= k < |plan| && plan[k].owner in c.beans && c.beans[plan[k].owner] == c.beans[id] ==> plan[k].owner == id
    ensures WireSeq(c, plan).ctx.heap[c.beans[id]].fields[f] ==
              Resolved(c, LastWrite(plan, id, f), c.heap[c.beans[id]].fields[f])
    decreases |plan|
  {
    if |plan| > 0 {
      var init := plan[..|plan| - 1];
      var a := plan[|plan| - 1];
      var o := c.beans[id];
      forall k | 0 <= k < |init| && init[k].owner in c.beans && c.beans[init[k].owner] == o
        ensures init[k].owner == id
      {
        assert init[k] == plan[k];
      }
      WireSeqFieldIsLastWrite(c, init, id, f);
      var prior := WireSeq(c, init).ctx;
      if a.owner == id && a.prop.name == f {
        assert Wire(prior, a.owner, a.prop).ctx.heap[o].fields[f] == GetBean(prior, a.prop.ref);
      } else {
        assert !Writes(c.beans, a, o, f);
        WireKeepsOtherSlots(prior, a, o, f);
      }
    }
  }
}
