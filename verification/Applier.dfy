/** Applying a stored patch to a resource (apply/applier.go). */
module Applier {
  import opened Wrappers
  import opened Json
  import opened Patch
  import opened PatchOrder

  /** A Kubernetes object: a JSON object that names its kind. */
  predicate HasKind(doc: Json)
  {
    doc.Obj? && "kind" in doc.members && doc.members["kind"].Str? && doc.members["kind"].s != ""
  }

  /** The result still has to be a Kubernetes object. */
  function Apply(resource: Object, patch: seq<Operation>): Result<Object>
  {
    var doc :- ApplyAll(Obj(resource), patch);
    if HasKind(doc) then Ok(doc.members) else Err
  }

  /** Exactly when and with what it succeeds. */
  lemma ApplyIff(resource: Object, patch: seq<Operation>, result: Object)
    ensures Apply(resource, patch) == Ok(result) <==>
            && ApplyAll(Obj(resource), patch) == Ok(Obj(result))
            && Lookup(Obj(result), ["kind"]).Some? && Lookup(Obj(result), ["kind"]).value.Str?
            && Lookup(Obj(result), ["kind"]) != Some(Str(""))
  {
    assert ["kind"][1..] == [];
    assert "kind" in result ==> Lookup(result["kind"], []) == Some(result["kind"]);
  }

  /** Independent operations may be stored in any order: the outcome is the same, failure included. */
  lemma AnyOrderApplies(resource: Object, patch: seq<Operation>, permuted: seq<Operation>)
    requires PairwiseIndependent(patch) && AllSafe(Obj(resource), patch)
    requires multiset(patch) == multiset(permuted)
    ensures Apply(resource, patch) == Apply(resource, permuted)
  {
    OrderIrrelevant(Obj(resource), patch, permuted);
  }
}
