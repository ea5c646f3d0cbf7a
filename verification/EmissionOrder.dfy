/**
 * The runner emits what it keeps in the order in which Go ranges over a map.  When two kept operations
 * are all there is, this says exactly when that order shows in the applied resource.
 */
module EmissionOrder {
  import opened Wrappers
  import opened Json
  import opened Patch
  import opened PatchOrder
  import opened Runner
  import opened Applier
  import opened NestedOrder
  import opened PairOrder
  import Pointer

  /** Conflict resolution keeps both operations, and may emit them either way round. */
  ghost predicate KeptEitherWay(prio: Priorities, x: PluginOperation, y: PluginOperation)
  {
    var r := Settled(prio, [x, y]);
    && r.Ok? && r.value.ignored == [] && r.value.repeats == []
    && Emits([x.op, y.op], r.value.kept) && Emits([y.op, x.op], r.value.kept)
  }

  /** It compares whole paths, so different paths are enough, whatever the priorities. */
  lemma DifferentPathsKept(prio: Priorities, x: PluginOperation, y: PluginOperation)
    requires x.op.path.Present? && y.op.path.Present? && x.op.path != y.op.path
    ensures KeptEitherWay(prio, x, y)
  {
    var a, b := x.op.path.v, y.op.path.v;
    assert [x, y][..1] == [x] && [x][..0] == [];
    assert Settled(prio, [x][..0]) == Ok(Tally(map[], [], []));
    assert Settled(prio, [x]) == Ok(Tally(map[a := x], [], []));
    assert Settled(prio, [x, y]) == Ok(Tally(map[a := x][b := y], [], []));
    var kept := map[a := x][b := y];
    assert kept.Keys == {a, b} && kept[a] == x && kept[b] == y;
    assert x.op in OpsOf(kept, kept.Keys) && y.op in OpsOf(kept, kept.Keys);
    assert OpsOf(kept, kept.Keys) == {x.op, y.op};
    assert multiset([x.op, y.op]) == multiset{x.op, y.op} == multiset([y.op, x.op]);
  }

  /** The applied resource shows the order unless the documents agree, or neither is a resource any more. */
  lemma ApplyShowsIff(resource: Object, x: Operation, y: Operation)
    requires Resolve(x).Ok? && Resolve(y).Ok?
    ensures var r, s, doc := Resolve(x).value, Resolve(y).value, Obj(resource);
            var xy := Then(ApplyAt(doc, r.path, r.action), s.path, s.action);
            var yx := Then(ApplyAt(doc, s.path, s.action), r.path, r.action);
            Apply(resource, [x, y]) == Apply(resource, [y, x]) <==>
            xy == yx || (!IsResource(xy) && !IsResource(yx))
  {
    ApplyTwo(Obj(resource), x, y);
    ApplyTwo(Obj(resource), y, x);
  }

  lemma KindUntouched(resource: Object, p: Path, a: Action, q: Path, b: Action)
    requires HasKind(Obj(resource)) && BesideKind(p) && BesideKind(q)
    ensures var after := Then(ApplyAt(Obj(resource), p, a), q, b);
            after.Ok? ==> HasKind(after.value)
  {
    KindKept(resource, p, a);
    var middle := ApplyAt(Obj(resource), p, a);
    if middle.Ok? {
      KindKept(middle.value.members, q, b);
    }
  }

  lemma KindKept(resource: Object, p: Path, a: Action)
    requires HasKind(Obj(resource)) && BesideKind(p)
    ensures ApplyAt(Obj(resource), p, a).Ok? ==> HasKind(ApplyAt(Obj(resource), p, a).value)
  {
    ObjectEdit(resource, p, a);
  }

  predicate BesideKind(p: Path)
  {
    p != [] && p[0] != "kind"
  }

  /** What is left is a Kubernetes object. */
  predicate IsResource(r: Result<Json>)
  {
    r.Ok? && HasKind(r.value)
  }

  /**
   * The operations of two plugins with different paths: conflict resolution keeps both, and the order it
   * emits them in shows in the applied resource exactly when `OrderHidden` does not hold, unless both
   * orders spoil the kind.  Operations beside the kind of a resource cannot do that.
   */
  lemma EmissionShowsIff(prio: Priorities, x: PluginOperation, y: PluginOperation, resource: Object)
    requires x.op.path.Present? && y.op.path.Present? && x.op.path != y.op.path
    ensures KeptEitherWay(prio, x, y)
    ensures var doc, r, s := Obj(resource), Resolve(x.op), Resolve(y.op);
            var same := Apply(resource, [x.op, y.op]) == Apply(resource, [y.op, x.op]);
            if r.Err? || s.Err? then same
            else
              var p, a, q, b := r.value.path, r.value.action, s.value.path, s.value.action;
              var spoilt := !IsResource(Then(ApplyAt(doc, p, a), q, b)) && !IsResource(Then(ApplyAt(doc, q, b), p, a));
              && (same <==> OrderHidden(doc, p, a, q, b) || spoilt)
              && (HasKind(doc) && BesideKind(p) && BesideKind(q) ==> (same <==> OrderHidden(doc, p, a, q, b)))
  {
    DifferentPathsKept(prio, x, y);
    ApplyTwo(Obj(resource), x.op, y.op);
    ApplyTwo(Obj(resource), y.op, x.op);
    var r, s := Resolve(x.op), Resolve(y.op);
    if r.Ok? && s.Ok? {
      var p, a, q, b := r.value.path, r.value.action, s.value.path, s.value.action;
      ApplyShowsIff(resource, x.op, y.op);
      OrderHiddenIff(Obj(resource), p, a, q, b);
      if HasKind(Obj(resource)) && BesideKind(p) && BesideKind(q) {
        KindUntouched(resource, p, a, q, b);
        KindUntouched(resource, q, b, p, a);
      }
    }
  }

  /**
   * It does show: on every resource, an empty object added at a member other than the kind, and a value
   * added inside it.
   */
  lemma NestedOrderShows(prio: Priorities, one: string, other: string,
                         resource: Object, k: string, name: string, v: Json)
    requires HasKind(Obj(resource)) && k != "kind"
    ensures var outer := AddOp(Pointer.Write([k]), Obj(map[]));
            var inner := AddOp(Pointer.Write([k, name]), v);
            && KeptEitherWay(prio, PluginOperation(one, outer), PluginOperation(other, inner))
            && Apply(resource, [outer, inner]) == Ok(resource[k := Obj(map[name := v])])
            && Apply(resource, [inner, outer]) != Apply(resource, [outer, inner])
  {
    var outer, inner := AddOp(Pointer.Write([k]), Obj(map[])), AddOp(Pointer.Write([k, name]), v);
    if Pointer.Write([k]) == Pointer.Write([k, name]) {
      Pointer.WriteInjective([k], [k, name]);
    }
    DifferentPathsKept(prio, PluginOperation(one, outer), PluginOperation(other, inner));
    ResolveWritten([k], Obj(map[]));
    ResolveWritten([k, name], v);
    ApplyTwo(Obj(resource), outer, inner);
    ApplyTwo(Obj(resource), inner, outer);
    OuterThenInner(resource, k, name, v);
    InnerThenOuter(resource, k, name, v);
  }

  lemma OuterThenInner(resource: Object, k: string, name: string, v: Json)
    ensures Then(ApplyAt(Obj(resource), [k], Add(Obj(map[]))), [k, name], Add(v)) ==
            Ok(Obj(resource[k := Obj(map[name := v])]))
  {
    var none: Object := map[];
    assert [k, name][1..] == [name];
    assert ApplyAt(Obj(none), [name], Add(v)) == Ok(Obj(none[name := v]));
    TwiceMember(resource, k, Obj(none), Obj(none[name := v]));
  }

  lemma InnerThenOuter(resource: Object, k: string, name: string, v: Json)
    ensures var after := Then(ApplyAt(Obj(resource), [k, name], Add(v)), [k], Add(Obj(map[])));
            after.Err? || after == Ok(Obj(resource[k := Obj(map[])]))
    ensures resource[k := Obj(map[])] != resource[k := Obj(map[name := v])]
  {
    assert [k, name][1..] == [name];
    var inner := ApplyAt(MemberOrNull(resource, k), [name], Add(v));
    if inner.Ok? {
      TwiceMember(resource, k, inner.value, Obj(map[]));
    }
    var none, some: Object := map[], map[name := v];
    assert name in some && name !in none;
    assert resource[k := Obj(none)][k] != resource[k := Obj(some)][k];
  }
}
