/**
 * The runner emits a plugin's operations in an arbitrary order.  For the patches the Kubernetes plugin
 * makes by stripping fields and preparing Jobs, every order gives the result of the plugin's own order.
 */
module JobOrder {
  import opened Wrappers
  import opened Json
  import opened Patch
  import opened PatchOrder
  import opened Unstructured
  import opened Removals
  import opened KubernetesPlugin
  import Pointer

  lemma RemovalsIndependent(doc: Json, fields: seq<Path>)
    requires Typed(doc, fields)
    ensures PairwiseIndependent(RemoveAll(fields)) && AllSafe(doc, RemoveAll(fields))
  {
    var ops := RemoveAll(fields);
    forall i | 0 <= i < |ops| ensures Resolve(ops[i]) == Ok(Step(fields[i], Remove)) && SafeOp(doc, ops[i]) {
      ResolveWritten(fields[i], Null);
      assert fields[i] in fields;
      NestedIsSafe(doc, fields[i]);
    }
  }

  /** Stripping works in any order. */
  lemma StripAnyOrder(doc: Json, fields: seq<Path>, permuted: seq<Operation>)
    requires StripOps(doc, fields).Ok? && forall f <- fields :: f != []
    requires multiset(permuted) == multiset(StripOps(doc, fields).value)
    ensures ApplyAll(doc, permuted) == ApplyAll(doc, StripOps(doc, fields).value)
  {
    StripOpsRemovesFound(doc, fields);
    RemovalsIndependent(doc, FoundFields(doc, fields));
    OrderIrrelevant(doc, RemoveAll(FoundFields(doc, fields)), permuted);
  }

  lemma AppendOne(doc: Json, ops: seq<Operation>, op: Operation)
    requires PairwiseIndependent(ops) && AllSafe(doc, ops) && SafeOp(doc, op)
    requires forall i :: 0 <= i < |ops| ==> Independent(ops[i], op)
    ensures PairwiseIndependent(ops + [op]) && AllSafe(doc, ops + [op])
  {
  }

  lemma ApartFromSuspend(f: Path, op: Operation)
    requires Beside(f) && Resolve(op) == Ok(Step(SUSPEND, Add(Bool(true))))
    ensures Independent(RemoveOp(Pointer.Write(f)), op)
  {
    ResolveWritten(f, Null);
    BesideIncomparable(f, []);
  }

  lemma SuspendIndependent(obj: Object, fields: seq<Path>)
    requires Typed(Obj(obj), fields) && forall f <- fields :: Beside(f)
    requires NestedField(Obj(obj), SUSPEND) != TypeError
    ensures var all := RemoveAll(fields) + [AddOp("/spec/suspend", Bool(true))];
            PairwiseIndependent(all) && AllSafe(Obj(obj), all)
  {
    var ops, add := RemoveAll(fields), AddOp("/spec/suspend", Bool(true));
    RemovalsIndependent(Obj(obj), fields);
    SpecMemberText("spec", "suspend", "/spec/suspend");
    ResolveWritten(SUSPEND, Bool(true));
    SuspendSafe(obj);
    forall i | 0 <= i < |ops| ensures Independent(ops[i], add) {
      assert fields[i] in fields;
      ApartFromSuspend(fields[i], add);
    }
    AppendOne(Obj(obj), ops, add);
  }

  lemma SuspendSafe(obj: Object)
    requires NestedField(Obj(obj), SUSPEND) != TypeError
    ensures Safe(Obj(obj), SUSPEND, Add(Bool(true)))
  {
    NotArrayToken("suspend");
    assert SUSPEND[1..] == ["suspend"];
    var inner := MemberOrNull(obj, "spec");
    assert inner.Obj? || inner.Null? by {
      assert "spec" in obj ==> NestedField(obj["spec"], ["suspend"]) != TypeError;
    }
    assert Safe(inner, ["suspend"], Add(Bool(true)));
  }

  ghost predicate LeavesPrepared(obj: Object, patch: seq<Operation>)
  {
    exists after :: ApplyAll(Obj(obj), patch) == Ok(after) && JobPrepared(obj, after)
  }

  /** However the operations of a Job's patch are ordered, applying them prepares the Job. */
  lemma JobAnyOrder(obj: Object, removals: seq<Operation>, suspend: seq<Operation>, permuted: seq<Operation>)
    requires StripOps(Obj(obj), JobFields(obj)) == Ok(removals) && SuspendStandaloneJob(obj) == Ok(suspend)
    requires multiset(permuted) == multiset(removals + suspend)
    ensures LeavesPrepared(obj, permuted)
  {
    JobExact(obj, removals, suspend);
    JobFieldsApart(obj);
    StripOpsRemovesFound(Obj(obj), JobFields(obj));
    var present := FoundFields(Obj(obj), JobFields(obj));
    if suspend == [] {
      RemovalsIndependent(Obj(obj), present);
      assert removals + [] == removals;
    } else {
      SuspendIndependent(obj, present);
      assert suspend == [AddOp("/spec/suspend", Bool(true))];
    }
    OrderIrrelevant(Obj(obj), removals + suspend, permuted);
  }

  /** Whatever order the patch is applied in, it leaves a prepared Job. */
  ghost predicate PreparesInEveryOrder(obj: Object, patch: seq<Operation>)
  {
    forall permuted: seq<Operation> :: multiset(permuted) == multiset(patch) ==> LeavesPrepared(obj, permuted)
  }

  lemma EveryOrderPrepares(obj: Object, removals: seq<Operation>, suspend: seq<Operation>)
    requires StripOps(Obj(obj), JobFields(obj)) == Ok(removals) && SuspendStandaloneJob(obj) == Ok(suspend)
    ensures PreparesInEveryOrder(obj, removals + suspend)
  {
    forall permuted: seq<Operation> | multiset(permuted) == multiset(removals + suspend)
      ensures LeavesPrepared(obj, permuted)
    {
      JobAnyOrder(obj, removals, suspend, permuted);
    }
  }

  /**
   * The Job part of `getKubernetesTransforms`, with no optional flag set; `decodes` says whether the
   * object decodes into a typed Job.  In every order its patch applies and leaves a prepared Job.
   */
  method JobTransforms(obj: Object, decodes: bool) returns (r: Result<seq<Operation>>)
    ensures r.Ok? <==>
      && decodes
      && (forall f <- FIELDS_TO_STRIP :: NestedField(Obj(obj), f) != TypeError)
      && JobReads(Obj(obj))
      && (!HasOwners(Obj(obj)) && !MarkedIdempotent(Obj(obj)) ==> ReadsBool(Obj(obj), ["spec", "suspend"]))
    ensures r.Ok? ==> PreparesInEveryOrder(obj, r.value)
  {
    StripFieldsNonempty();
    StripOpsRemovesFound(Obj(obj), FIELDS_TO_STRIP);
    var strip :- StripListed(obj, FIELDS_TO_STRIP);
    if !decodes {
      return Err;
    }
    var uid :- RemoveJobControllerUID(obj);
    SuspendsIff(obj);
    SuspendReadable(obj, "spec", "suspend");
    var suspend :- SuspendStandaloneJob(obj);
    StripOpsAppend(Obj(obj), FIELDS_TO_STRIP, UidFields(obj));
    EveryOrderPrepares(obj, strip + uid, suspend);
    return Ok(strip + uid + suspend);
  }
}
