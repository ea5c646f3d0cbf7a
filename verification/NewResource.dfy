/** Splitting a resource into a skeleton and the patch that rebuilds it (transform/new_resource.go). */
module NewResource {
  import opened Wrappers
  import opened Json
  import opened Patch
  import opened PatchOrder
  import opened Sorting
  import Pointer

  /** `full["metadata"].(map[string]interface{})`: absent and non-object metadata are both nil. */
  function Metadata(full: Object): Option<Object>
  {
    if "metadata" in full && full["metadata"].Obj? then Some(full["metadata"].members) else None
  }

  method BuildSkeleton(full: Object) returns (skeleton: Object)
    ensures IsSkeleton(full, skeleton)
  {
    skeleton := map[];
    if "apiVersion" in full {
      skeleton := skeleton["apiVersion" := full["apiVersion"]];
    }
    if "kind" in full {
      skeleton := skeleton["kind" := full["kind"]];
    }
    var fullMeta := Metadata(full);
    if fullMeta.Some? {
      var skeletonMeta: Object := map[];
      if "name" in fullMeta.value {
        skeletonMeta := skeletonMeta["name" := fullMeta.value["name"]];
      }
      if "namespace" in fullMeta.value {
        skeletonMeta := skeletonMeta["namespace" := fullMeta.value["namespace"]];
      }
      skeleton := skeleton["metadata" := Obj(skeletonMeta)];
    }
  }

  /** The skeleton identifies the resource and holds nothing else. */
  ghost predicate IsSkeleton(full: Object, skeleton: Object)
  {
    && (forall k :: k in skeleton && k != "metadata" <==> k in full && k in {"apiVersion", "kind"})
    && (forall k <- skeleton :: k != "metadata" ==> skeleton[k] == full[k])
    && ("metadata" in skeleton <==> Metadata(full).Some?)
    && ("metadata" in skeleton ==>
          && skeleton["metadata"].Obj?
          && var meta, skeletonMeta := Metadata(full).value, skeleton["metadata"].members;
             && (forall k :: k in skeletonMeta <==> k in meta && k in {"name", "namespace"})
             && (forall k <- skeletonMeta :: skeletonMeta[k] == meta[k]))
  }

  /** The keys of `full` that `part` lacks, in order. */
  function Lacking(keys: seq<string>, part: Object): (r: seq<string>)
    ensures forall k :: k in r <==> k in keys && k !in part
  {
    if keys == [] then []
    else
      var n := |keys| - 1;
      assert keys == keys[..n] + [keys[n]];
      Lacking(keys[..n], part) + if keys[n] !in part then [keys[n]] else []
  }

  lemma LackingSnoc(keys: seq<string>, n: nat, part: Object)
    requires n < |keys|
    ensures Lacking(keys[..n + 1], part) == Lacking(keys[..n], part) + if keys[n] !in part then [keys[n]] else []
  {
    assert keys[..n + 1][..n] == keys[..n];
  }

  predicate Distinct(keys: seq<string>)
  {
    forall i, j :: 0 <= i < j < |keys| ==> keys[i] != keys[j]
  }

  lemma {:induction false} LackingDistinct(keys: seq<string>, part: Object)
    requires Distinct(keys)
    ensures Distinct(Lacking(keys, part))
  {
    if keys != [] {
      var n := |keys| - 1;
      LackingDistinct(keys[..n], part);
      assert forall k <- Lacking(keys[..n], part) :: k in keys[..n] && k != keys[n];
    }
  }

  /** One add operation per key, each under the prefix. */
  function Adds(prefix: Path, keys: seq<string>, values: Object): (r: seq<Operation>)
    requires forall k <- keys :: k in values
    ensures |r| == |keys|
    ensures forall i :: 0 <= i < |r| ==> r[i] == AddOp(Pointer.Write(prefix + [keys[i]]), values[keys[i]])
  {
    seq(|keys|, i requires 0 <= i < |keys| => AddOp(Pointer.Write(prefix + [keys[i]]), values[keys[i]]))
  }

  lemma AddsSnoc(prefix: Path, keys: seq<string>, k: string, values: Object)
    requires k in values && forall x <- keys :: x in values
    ensures Adds(prefix, keys + [k], values) ==
            Adds(prefix, keys, values) + [AddOp(Pointer.Write(prefix + [k]), values[k])]
  {
  }

  lemma TopWrites()
    ensures Pointer.Writes([], "/")
  {
    Pointer.WritesUnder([], "/");
  }

  lemma MetadataWrites(name: string, prefix: string)
    requires name == "metadata" && prefix == "/metadata/"
    ensures Pointer.Writes([name], prefix)
  {
    Pointer.EscapePlain(name);
    Pointer.WriteOne(name);
    assert "/" + name + "/" == prefix;
    Pointer.WritesUnder([name], prefix);
  }

  /** The operations that add, in key order, what the skeleton lacks: first inside metadata, then at the top. */
  ghost predicate IsRebuild(full: Object, skeleton: Object, ops: seq<Operation>)
  {
    exists metaKeys: seq<string>, topKeys: seq<string> ::
      && IsMetaKeys(full, skeleton, metaKeys)
      && StrictlyOrderedBy(topKeys, (k: string) => k)
      && multiset(topKeys) == multiset(full.Keys)
      && RebuildFrom(full, skeleton, metaKeys, topKeys, ops)
  }

  ghost predicate IsMetaKeys(full: Object, skeleton: Object, metaKeys: seq<string>)
  {
    if Metadata(full).Some? && Metadata(skeleton).Some?
    then StrictlyOrderedBy(metaKeys, (k: string) => k) && multiset(metaKeys) == multiset(Metadata(full).value.Keys)
    else metaKeys == []
  }

  function MetaOps(full: Object, skeleton: Object, metaKeys: seq<string>): seq<Operation>
  {
    if Metadata(full).Some? && Metadata(skeleton).Some? && forall k <- metaKeys :: k in Metadata(full).value
    then Adds(["metadata"], Lacking(metaKeys, Metadata(skeleton).value), Metadata(full).value)
    else []
  }

  ghost predicate RebuildFrom(full: Object, skeleton: Object, metaKeys: seq<string>, topKeys: seq<string>,
                              ops: seq<Operation>)
  {
    && (forall k <- topKeys :: k in full)
    && ops == MetaOps(full, skeleton, metaKeys) + Adds([], Lacking(topKeys, skeleton), full)
  }

  lemma AddStep(path: Path, prefix: string, keys: seq<string>, n: nat, part: Object, values: Object)
    requires Pointer.Writes(path, prefix) && n < |keys| && forall k <- keys :: k in values
    ensures Adds(path, Lacking(keys[..n + 1], part), values) == Adds(path, Lacking(keys[..n], part), values) +
            if keys[n] !in part then [AddOp(prefix + Pointer.Escape(keys[n]), values[keys[n]])] else []
  {
    LackingSnoc(keys, n, part);
    if keys[n] !in part {
      AddsSnoc(path, Lacking(keys[..n], part), keys[n], values);
    }
  }

  /** Both loops of `buildPatchOps`: an add operation for every key that `part` lacks. */
  method AddLacking(prefix: string, ghost path: Path, keys: seq<string>, part: Object, values: Object)
    returns (ops: seq<Operation>)
    requires Pointer.Writes(path, prefix) && forall k <- keys :: k in values
    ensures ops == Adds(path, Lacking(keys, part), values)
  {
    ops := [];
    for n := 0 to |keys|
      invariant ops == Adds(path, Lacking(keys[..n], part), values)
    {
      AddStep(path, prefix, keys, n, part, values);
      if keys[n] !in part {
        ops := ops + [AddOp(prefix + Pointer.Escape(keys[n]), values[keys[n]])];
      }
    }
    assert keys[..|keys|] == keys;
  }

  method BuildMetaOps(full: Object, skeleton: Object) returns (ops: seq<Operation>, ghost metaKeys: seq<string>)
    ensures IsMetaKeys(full, skeleton, metaKeys) && ops == MetaOps(full, skeleton, metaKeys)
  {
    ops, metaKeys := [], [];
    var skeletonMeta, fullMeta := Metadata(skeleton), Metadata(full);
    if fullMeta.Some? && skeletonMeta.Some? {
      var keys := SortedKeys(fullMeta.value);
      KeysDistinct(keys, fullMeta.value.Keys);
      metaKeys := keys;
      MetadataWrites("metadata", "/metadata/");
      ops := AddLacking("/metadata/", ["metadata"], keys, skeletonMeta.value, fullMeta.value);
    }
  }

  method BuildPatchOps(full: Object, skeleton: Object) returns (ops: seq<Operation>)
    ensures IsRebuild(full, skeleton, ops)
  {
    ghost var metaKeys;
    ops, metaKeys := BuildMetaOps(full, skeleton);
    var topKeys := SortedKeys(full);
    KeysDistinct(topKeys, full.Keys);
    TopWrites();
    var topOps := AddLacking("/", [], topKeys, skeleton, full);
    ops := ops + topOps;
    assert RebuildFrom(full, skeleton, metaKeys, topKeys, ops);
  }

  // ----- applying the operations to the skeleton -----

  function Selected(values: Object, keys: seq<string>): Object
    requires forall k <- keys :: k in values
  {
    map k | k in keys :: values[k]
  }

  lemma AddsHead(prefix: Path, k: string, rest: seq<string>, values: Object)
    requires k in values && forall x <- rest :: x in values
    ensures Adds(prefix, [k] + rest, values) ==
            [AddOp(Pointer.Write(prefix + [k]), values[k])] + Adds(prefix, rest, values)
  {
  }

  lemma AddToTop(doc: Object, k: string, v: Json)
    ensures ApplyOp(Obj(doc), AddOp(Pointer.Write([] + [k]), v)) == Ok(Obj(doc[k := v]))
  {
    ResolveWritten([] + [k], v);
    assert |[] + [k]| == 1 && ([] + [k])[0] == k;
  }

  lemma {:induction false} AddsToTop(doc: Object, keys: seq<string>, values: Object)
    requires forall k <- keys :: k in values
    ensures ApplyAll(Obj(doc), Adds([], keys, values)) == Ok(Obj(doc + Selected(values, keys)))
    decreases |keys|
  {
    if keys == [] {
      assert doc + Selected(values, keys) == doc;
    } else {
      var k, rest := keys[0], keys[1..];
      assert keys == [k] + rest;
      AddsHead([], k, rest, values);
      AddToTop(doc, k, values[k]);
      ApplyAllHead(Obj(doc), AddOp(Pointer.Write([] + [k]), values[k]), Adds([], rest, values));
      AddsToTop(doc[k := values[k]], rest, values);
      SelectFirst(doc, k, rest, values);
    }
  }

  lemma SelectFirst(doc: Object, k: string, rest: seq<string>, values: Object)
    requires k in values && forall x <- rest :: x in values
    ensures doc[k := values[k]] + Selected(values, rest) == doc + Selected(values, [k] + rest)
  {
  }

  lemma AddToMetadata(doc: Object, k: string, v: Json)
    requires Metadata(doc).Some?
    ensures ApplyOp(Obj(doc), AddOp(Pointer.Write(["metadata"] + [k]), v)) ==
            Ok(Obj(doc["metadata" := Obj(Metadata(doc).value[k := v])]))
  {
    AddToMember(doc, "metadata", Metadata(doc).value, k, v);
  }

  lemma AddToMember(doc: Object, name: string, part: Object, k: string, v: Json)
    requires name in doc && doc[name] == Obj(part)
    ensures SafeOp(Obj(doc), AddOp(Pointer.Write([name] + [k]), v))
    ensures ApplyOp(Obj(doc), AddOp(Pointer.Write([name] + [k]), v)) == Ok(Obj(doc[name := Obj(part[k := v])]))
  {
    var path := [name] + [k];
    ResolveWritten(path, v);
    assert path[0] == name && path[1..] == [k];
    assert Safe(Obj(part), [k], Add(v));
    assert ApplyAt(Obj(part), [k], Add(v)) == Ok(Obj(part[k := v]));
  }

  function WithMetadata(doc: Object, meta: Object): Object
  {
    doc["metadata" := Obj(meta)]
  }

  lemma MetadataTwice(doc: Object, a: Object, b: Object)
    ensures WithMetadata(WithMetadata(doc, a), b) == WithMetadata(doc, b)
    ensures Metadata(WithMetadata(doc, a)) == Some(a)
    ensures Metadata(doc) == Some(a) ==> WithMetadata(doc, a) == doc
  {
  }

  lemma {:induction false} AddsToMetadata(doc: Object, meta: Object, keys: seq<string>, values: Object)
    requires Metadata(doc) == Some(meta) && forall k <- keys :: k in values
    ensures ApplyAll(Obj(doc), Adds(["metadata"], keys, values)) ==
            Ok(Obj(WithMetadata(doc, meta + Selected(values, keys))))
    decreases |keys|
  {
    if keys == [] {
      assert meta + Selected(values, keys) == meta;
      MetadataTwice(doc, meta, meta);
    } else {
      var k, rest := keys[0], keys[1..];
      assert keys == [k] + rest;
      AddsHead(["metadata"], k, rest, values);
      AddToMetadata(doc, k, values[k]);
      var next := WithMetadata(doc, meta[k := values[k]]);
      ApplyAllHead(Obj(doc), AddOp(Pointer.Write(["metadata"] + [k]), values[k]), Adds(["metadata"], rest, values));
      MetadataTwice(doc, meta[k := values[k]], meta + Selected(values, keys));
      AddsToMetadata(next, meta[k := values[k]], rest, values);
      SelectFirst(meta, k, rest, values);
    }
  }

  /** What the skeleton lacks and what it has make up the resource. */
  lemma SkeletonPlusLacking(full: Object, part: Object, keys: seq<string>)
    requires forall k :: k in keys <==> k in full
    requires forall k <- part :: k in full && part[k] == full[k]
    ensures part + Selected(full, Lacking(keys, part)) == full
  {
  }

  /** The skeleton once its metadata is complete. */
  function Middle(full: Object, skeleton: Object): Object
  {
    if "metadata" in skeleton && "metadata" in full then skeleton["metadata" := full["metadata"]] else skeleton
  }

  lemma MetadataRebuilt(full: Object, skeleton: Object, metaKeys: seq<string>)
    requires IsSkeleton(full, skeleton) && IsMetaKeys(full, skeleton, metaKeys)
    ensures ApplyAll(Obj(skeleton), MetaOps(full, skeleton, metaKeys)) == Ok(Obj(Middle(full, skeleton)))
  {
    if "metadata" in skeleton {
      var meta, part := Metadata(full).value, Metadata(skeleton).value;
      KeysDistinct(metaKeys, meta.Keys);
      AddsToMetadata(skeleton, part, Lacking(metaKeys, part), meta);
      SkeletonPlusLacking(meta, part, metaKeys);
    }
  }

  lemma MiddleAgrees(full: Object, skeleton: Object)
    requires IsSkeleton(full, skeleton)
    ensures Middle(full, skeleton).Keys == skeleton.Keys
    ensures forall k <- Middle(full, skeleton) :: k in full && Middle(full, skeleton)[k] == full[k]
  {
  }

  lemma SameLacking(full: Object, part: Object, other: Object, keys: seq<string>)
    requires part.Keys == other.Keys && forall k <- keys :: k in full
    ensures Selected(full, Lacking(keys, part)) == Selected(full, Lacking(keys, other))
  {
    assert forall k :: k in part <==> k in part.Keys;
    assert forall k :: k in other <==> k in other.Keys;
  }

  lemma TopRebuilt(full: Object, skeleton: Object, topKeys: seq<string>)
    requires IsSkeleton(full, skeleton) && forall k :: k in topKeys <==> k in full
    ensures ApplyAll(Obj(Middle(full, skeleton)), Adds([], Lacking(topKeys, skeleton), full)) == Ok(Obj(full))
  {
    var middle := Middle(full, skeleton);
    AddsToTop(middle, Lacking(topKeys, skeleton), full);
    MiddleAgrees(full, skeleton);
    SkeletonPlusLacking(full, middle, topKeys);
    SameLacking(full, middle, skeleton, topKeys);
  }

  /** Applying the generated operations to the skeleton gives back the original resource. */
  lemma Rebuilds(full: Object, skeleton: Object, ops: seq<Operation>)
    requires IsSkeleton(full, skeleton) && IsRebuild(full, skeleton, ops)
    ensures ApplyAll(Obj(skeleton), ops) == Ok(Obj(full))
  {
    var metaKeys: seq<string>, topKeys: seq<string> :|
      && IsMetaKeys(full, skeleton, metaKeys)
      && StrictlyOrderedBy(topKeys, (k: string) => k)
      && multiset(topKeys) == multiset(full.Keys)
      && RebuildFrom(full, skeleton, metaKeys, topKeys, ops);
    KeysDistinct(topKeys, full.Keys);
    MetadataRebuilt(full, skeleton, metaKeys);
    TopRebuilt(full, skeleton, topKeys);
    ApplyAllAppend(Obj(skeleton), MetaOps(full, skeleton, metaKeys), Adds([], Lacking(topKeys, skeleton), full));
  }

  // ----- any order will do -----

  lemma AddsIndependent(prefix: Path, keys: seq<string>, values: Object)
    requires Distinct(keys) && forall k <- keys :: k in values
    ensures PairwiseIndependent(Adds(prefix, keys, values))
  {
    var ops := Adds(prefix, keys, values);
    forall i, j | 0 <= i < j < |ops| ensures Independent(ops[i], ops[j]) {
      var p, q := prefix + [keys[i]], prefix + [keys[j]];
      ResolveWritten(p, values[keys[i]]);
      ResolveWritten(q, values[keys[j]]);
      assert p[|prefix|] != q[|prefix|];
    }
  }

  lemma MetadataApartFromTop(meta: seq<string>, metaValues: Object, top: seq<string>, values: Object, i: nat, j: nat)
    requires (forall k <- meta :: k in metaValues) && (forall k <- top :: k in values && k != "metadata")
    requires i < |meta| && j < |top|
    ensures Independent(Adds(["metadata"], meta, metaValues)[i], Adds([], top, values)[j])
  {
    var p, q := ["metadata"] + [meta[i]], [] + [top[j]];
    ResolveWritten(p, metaValues[meta[i]]);
    ResolveWritten(q, values[top[j]]);
    assert p[0] != q[0];
  }

  lemma ConcatIndependent(xs: seq<Operation>, ys: seq<Operation>)
    requires PairwiseIndependent(xs) && PairwiseIndependent(ys)
    requires forall i, j :: 0 <= i < |xs| && 0 <= j < |ys| ==> Independent(xs[i], ys[j])
    ensures PairwiseIndependent(xs + ys)
  {
  }

  lemma AddSafe(doc: Object, prefix: Path, k: string, v: Json)
    requires prefix == [] || (prefix == ["metadata"] && Metadata(doc).Some?)
    ensures SafeOp(Obj(doc), AddOp(Pointer.Write(prefix + [k]), v))
  {
    if prefix == [] {
      ResolveWritten(prefix + [k], v);
      assert |prefix + [k]| == 1;
    } else {
      AddToMember(doc, "metadata", Metadata(doc).value, k, v);
    }
  }

  lemma AddsSafe(doc: Object, prefix: Path, keys: seq<string>, values: Object)
    requires prefix == [] || (prefix == ["metadata"] && Metadata(doc).Some?)
    requires forall k <- keys :: k in values
    ensures AllSafe(Obj(doc), Adds(prefix, keys, values))
  {
    var ops := Adds(prefix, keys, values);
    forall op | op in ops ensures SafeOp(Obj(doc), op) {
      var i :| 0 <= i < |ops| && ops[i] == op;
      AddSafe(doc, prefix, keys[i], values[keys[i]]);
    }
  }

  lemma MetaOpsIndependent(full: Object, skeleton: Object, metaKeys: seq<string>, missing: seq<string>)
    requires IsSkeleton(full, skeleton) && IsMetaKeys(full, skeleton, metaKeys)
    requires forall k <- missing :: k in full && k !in skeleton
    ensures var ops := MetaOps(full, skeleton, metaKeys);
            && PairwiseIndependent(ops) && AllSafe(Obj(skeleton), ops)
            && forall i, j :: 0 <= i < |ops| && 0 <= j < |missing| ==> Independent(ops[i], Adds([], missing, full)[j])
  {
    if Metadata(full).Some? {
      var meta, part := Metadata(full).value, Metadata(skeleton).value;
      KeysDistinct(metaKeys, meta.Keys);
      LackingDistinct(metaKeys, part);
      var inside := Lacking(metaKeys, part);
      AddsIndependent(["metadata"], inside, meta);
      AddsSafe(skeleton, ["metadata"], inside, meta);
      forall i, j | 0 <= i < |inside| && 0 <= j < |missing|
        ensures Independent(Adds(["metadata"], inside, meta)[i], Adds([], missing, full)[j])
      {
        MetadataApartFromTop(inside, meta, missing, full, i, j);
      }
    }
  }

  lemma RebuildIndependent(full: Object, skeleton: Object, ops: seq<Operation>)
    requires IsSkeleton(full, skeleton) && IsRebuild(full, skeleton, ops)
    ensures PairwiseIndependent(ops) && AllSafe(Obj(skeleton), ops)
  {
    var metaKeys: seq<string>, topKeys: seq<string> :|
      && IsMetaKeys(full, skeleton, metaKeys)
      && StrictlyOrderedBy(topKeys, (k: string) => k)
      && multiset(topKeys) == multiset(full.Keys)
      && RebuildFrom(full, skeleton, metaKeys, topKeys, ops);
    KeysDistinct(topKeys, full.Keys);
    var missing := Lacking(topKeys, skeleton);
    LackingDistinct(topKeys, skeleton);
    AddsIndependent([], missing, full);
    AddsSafe(skeleton, [], missing, full);
    MetaOpsIndependent(full, skeleton, metaKeys, missing);
    ConcatIndependent(MetaOps(full, skeleton, metaKeys), Adds([], missing, full));
  }

  /** The operations rebuild the resource in whatever order they are applied. */
  lemma RebuildsInAnyOrder(full: Object, skeleton: Object, ops: seq<Operation>, permuted: seq<Operation>)
    requires IsSkeleton(full, skeleton) && IsRebuild(full, skeleton, ops)
    requires multiset(permuted) == multiset(ops)
    ensures ApplyAll(Obj(skeleton), permuted) == Ok(Obj(full))
  {
    Rebuilds(full, skeleton, ops);
    RebuildIndependent(full, skeleton, ops);
    OrderIrrelevant(Obj(skeleton), ops, permuted);
  }

  /** `SplitNewResourceToSkeletonAndPatch`; a nil object is an error. */
  method SplitNewResource(resource: Option<Object>) returns (r: Result<(Object, seq<Operation>)>)
    ensures r.Ok? <==> resource.Some?
    ensures r.Ok? ==>
      var (skeleton, patch) := r.value;
      && IsSkeleton(resource.value, skeleton)
      && IsRebuild(resource.value, skeleton, patch)
      && forall permuted: seq<Operation> :: multiset(permuted) == multiset(patch) ==>
           ApplyAll(Obj(skeleton), permuted) == Ok(Obj(resource.value))
  {
    if resource.None? {
      return Err;
    }
    var skeleton := BuildSkeleton(resource.value);
    var ops := BuildPatchOps(resource.value, skeleton);
    forall permuted: seq<Operation> | multiset(permuted) == multiset(ops)
      ensures ApplyAll(Obj(skeleton), permuted) == Ok(Obj(resource.value))
    {
      RebuildsInAnyOrder(resource.value, skeleton, ops, permuted);
    }
    return Ok((skeleton, ops));
  }
}
