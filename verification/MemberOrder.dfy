/**
 * The patches of Services and RoleBindings: removals inside one member, after the stripping of fields.
 * The runner emits them in an arbitrary order, and every order gives the result of the plugin's own.
 */
module MemberOrder {
  import opened Wrappers
  import opened Strconv
  import opened Json
  import opened Patch
  import opened PatchOrder
  import opened Unstructured
  import opened Removals
  import opened ListPruning
  import opened KubernetesPlugin
  import Service = ServicePlugin
  import Role = RoleBindings
  import Laws = ServiceLaws
  import Pointer

  /** A removal at or below member `k`, at a safe path. */
  predicate RemovesIn(doc: Json, k: string, op: Operation)
  {
    var step := Resolve(op);
    && step.Ok? && step.value.action.Remove?
    && step.value.path != [] && step.value.path[0] == k && |step.value.path| > 1
    && Safe(doc, step.value.path, Remove)
  }

  predicate AllRemoveIn(doc: Json, k: string, ops: seq<Operation>)
  {
    forall op <- ops :: RemovesIn(doc, k, op)
  }

  lemma RemovalsSafe(doc: Json, k: string, ops: seq<Operation>, fields: seq<Path>)
    requires AllRemoveIn(doc, k, ops) && Typed(doc, fields)
    ensures PairwiseIndependent(RemoveAll(fields) + ops) && AllSafe(doc, RemoveAll(fields) + ops)
  {
    var all := RemoveAll(fields) + ops;
    forall i | 0 <= i < |all|
      ensures Resolve(all[i]).Ok? && Resolve(all[i]).value.action == Remove && SafeOp(doc, all[i])
    {
      if i < |fields| {
        ResolveWritten(fields[i], Null);
        assert fields[i] in fields;
        NestedIsSafe(doc, fields[i]);
      } else {
        assert all[i] == ops[i - |fields|] && all[i] in ops;
      }
    }
  }

  // ----- removals inside a member see that member only -----

  lemma OneInMember(doc: Object, other: Object, k: string, op: Operation)
    requires RemovesIn(Obj(doc), k, op) && k in doc && k in other && doc[k] == other[k]
    ensures var x, y := ApplyOp(Obj(doc), op), ApplyOp(Obj(other), op);
            && x.Ok? && x.value.Obj? && k in x.value.members
            && y == Ok(Obj(other[k := x.value.members[k]]))
            && x.value == Obj(doc[k := x.value.members[k]])
  {
    var path := Resolve(op).value.path;
    RemoveSucceeds(doc[k], path[1..]);
  }

  lemma {:induction false} AllInMember(doc: Object, other: Object, k: string, ops: seq<Operation>)
    requires AllRemoveIn(Obj(doc), k, ops) && PairwiseIndependent(ops)
    requires k in doc && k in other && doc[k] == other[k]
    ensures var x := ApplyAll(Obj(doc), ops);
            && x.Ok? && x.value.Obj? && k in x.value.members
            && ApplyAll(Obj(other), ops) == Ok(Obj(other[k := x.value.members[k]]))
    decreases |ops|
  {
    if ops == [] {
      assert other[k := doc[k]] == other;
    } else {
      var op, rest := ops[0], ops[1..];
      assert ops == [op] + rest && op in ops;
      OneInMember(doc, other, k, op);
      var next := ApplyOp(Obj(doc), op).value.members;
      forall x | x in rest ensures RemovesIn(Obj(next), k, x) {
        assert x in ops;
        var p, q := Resolve(op).value.path, Resolve(x).value.path;
        StaysSafe(Obj(doc), p, Remove, q, Remove);
      }
      AllInMember(next, other[k := next[k]], k, rest);
      ApplyAllHead(Obj(doc), op, rest);
      ApplyAllHead(Obj(other), op, rest);
      var end := ApplyAll(Obj(next), rest).value.members;
      assert other[k := next[k]][k := end[k]] == other[k := end[k]];
    }
  }

  /** Stripping, and then one member as the removals inside it leave it. */
  ghost predicate StrippedBeside(obj: Object, after: Json, k: string, own: Json)
  {
    exists middle: Object ::
      && Stripped(Obj(obj), Obj(middle), FIELDS_TO_STRIP)
      && after == Obj(if own.Obj? && k in own.members then middle[k := own.members[k]] else middle)
  }

  /**
   * However the stripping of fields and removals inside another member are ordered, the result is the
   * stripped resource with that member as the removals alone leave it.
   */
  lemma MemberAnyOrder(obj: Object, k: string, strip: seq<Operation>, ops: seq<Operation>, permuted: seq<Operation>)
    requires StripOps(Obj(obj), FIELDS_TO_STRIP) == Ok(strip) && k != "metadata" && k != "status"
    requires AllRemoveIn(Obj(obj), k, ops) && (k in obj || ops == [])
    requires multiset(permuted) == multiset(strip + ops)
    ensures ApplyAll(Obj(obj), ops).Ok? && ApplyAll(Obj(obj), permuted).Ok?
    ensures StrippedBeside(obj, ApplyAll(Obj(obj), permuted).value, k, ApplyAll(Obj(obj), ops).value)
  {
    StripFieldsNonempty();
    StripOpsRemovesFound(Obj(obj), FIELDS_TO_STRIP);
    StripExact(Obj(obj), FIELDS_TO_STRIP);
    RemovalsSafe(Obj(obj), k, ops, FoundFields(Obj(obj), FIELDS_TO_STRIP));
    OrderIrrelevant(Obj(obj), strip + ops, permuted);
    var middle := ApplyAll(Obj(obj), strip).value;
    StaysObject(obj, middle, FIELDS_TO_STRIP);
    MemberKept(obj, middle, k);
    ApplyAllAppend(Obj(obj), strip, ops);
    if k in obj {
      LaterIndependent(strip, ops);
      AllInMember(obj, middle.members, k, ops);
    } else {
      assert ApplyAll(Obj(obj), ops) == Ok(Obj(obj));
    }
    var after := ApplyAll(Obj(obj), permuted).value;
    assert Stripped(Obj(obj), Obj(middle.members), FIELDS_TO_STRIP);
  }

  /** The member of the result is that of the removals alone. */
  lemma OwnMember(obj: Object, after: Json, k: string, own: Json)
    requires StrippedBeside(obj, after, k, own) && k != "metadata" && k != "status"
    requires own.Obj? && (k in own.members <==> k in obj)
    ensures Lookup(after, [k]) == Lookup(own, [k])
  {
    var middle: Object :|
      && Stripped(Obj(obj), Obj(middle), FIELDS_TO_STRIP)
      && after == Obj(if own.Obj? && k in own.members then middle[k := own.members[k]] else middle);
    MemberKept(obj, Obj(middle), k);
    Role.TopLookup(after.members, k);
    Role.TopLookup(own.members, k);
  }

  lemma LaterIndependent(xs: seq<Operation>, ys: seq<Operation>)
    requires PairwiseIndependent(xs + ys)
    ensures PairwiseIndependent(ys)
  {
    forall i, j | 0 <= i < j < |ys| ensures Independent(ys[i], ys[j]) {
      assert (xs + ys)[|xs| + i] == ys[i] && (xs + ys)[|xs| + j] == ys[j];
    }
  }

  lemma MemberKept(obj: Object, middle: Json, k: string)
    requires Stripped(Obj(obj), middle, FIELDS_TO_STRIP) && middle.Obj? && k != "metadata" && k != "status"
    ensures k in obj <==> k in middle.members
    ensures k in obj ==> obj[k] == middle.members[k]
  {
    StripFieldsBeside(k);
    assert StrippedAt(Obj(obj), middle, FIELDS_TO_STRIP, [k]);
    assert forall f <- FIELDS_TO_STRIP :: Incomparable(f, [k]);
    assert [k][1..] == [];
    assert Lookup(Obj(obj), [k]) == Get(obj, k) && Lookup(middle, [k]) == Get(middle.members, k);
  }

  // ----- the removals of the plugin -----

  lemma {:induction false} SafeBelow(doc: Json, fields: Path, below: Path)
    requires NestedField(doc, fields).Found? && below != [] && Safe(NestedField(doc, fields).v, below, Remove)
    ensures Safe(doc, fields + below, Remove)
    decreases |fields|
  {
    if fields == [] {
      assert fields + below == below;
    } else {
      assert (fields + below)[1..] == fields[1..] + below;
      SafeBelow(doc.members[fields[0]], fields[1..], below);
    }
  }

  lemma {:induction false} PruneRemovesIn(doc: Json, base: Path, xs: seq<Json>, marks: seq<bool>, key: string)
    requires base != [] && NestedField(doc, base) == Found(Arr(xs)) && |marks| <= |xs|
    requires forall i :: 0 <= i < |marks| && marks[i] ==> xs[i].Obj?
    ensures AllRemoveIn(doc, base[0], PruneOps(base, marks, key))
    decreases |marks|
  {
    if marks != [] {
      var n := |marks| - 1;
      PruneRemovesIn(doc, base, xs, marks[..n], key);
      if marks[n] {
        var below := [Decimal(n), key];
        ArrayIndexOfDecimal(n, |xs|);
        assert below[1..] == [key];
        assert Safe(Arr(xs), below, Remove);
        SafeBelow(doc, base, below);
        ResolveWritten(base + below, Null);
      }
    }
  }

  /** What the plugin makes of a RoleBinding, in any order. */
  lemma RoleBindingAnyOrder(obj: Object, strip: seq<Operation>, permuted: seq<Operation>)
    requires StripOps(Obj(obj), FIELDS_TO_STRIP) == Ok(strip)
    requires Role.Namespace(obj).Ok? && Role.Subjects(obj).Ok?
    requires multiset(permuted) == multiset(strip + Role.RoleBindingOps(obj))
    ensures ApplyAll(Obj(obj), permuted).Ok?
    ensures StrippedBeside(obj, ApplyAll(Obj(obj), permuted).value, "subjects", Role.Localized(obj))
  {
    var subjects, namespace := Role.Subjects(obj).value, Role.Namespace(obj).value;
    Role.LocalizedExact(obj);
    if "subjects" in obj && obj["subjects"].Arr? {
      Role.SubjectsNested(obj);
      Role.NullIsNotLocal(namespace);
      PruneRemovesIn(Obj(obj), Role.SUBJECTS, subjects, Role.Marks(subjects, namespace), Role.NAMESPACE);
    } else {
      assert Role.Marks(subjects, namespace) == [];
    }
    SubjectsIsBeside("subjects");
    MemberAnyOrder(obj, "subjects", strip, Role.RoleBindingOps(obj), permuted);
  }

  lemma SubjectsIsBeside(subjects: string)
    requires subjects == "subjects"
    ensures subjects != "metadata" && subjects != "status"
  {
    var metadata, status := "metadata", "status";
    assert |metadata| == 8 && |status| == 6 && metadata[0] == 'm' && subjects[0] == 's' && |subjects| == 8;
  }

  /** What the plugin makes of a Service, in any order. */
  lemma ServiceAnyOrder(obj: Object, decode: Service.Decoder, strip: seq<Operation>, permuted: seq<Operation>)
    requires StripOps(Obj(obj), FIELDS_TO_STRIP) == Ok(strip)
    requires multiset(permuted) == multiset(strip + Service.ServiceOps(obj, decode))
    ensures ApplyAll(Obj(obj), permuted).Ok?
    ensures StrippedBeside(obj, ApplyAll(Obj(obj), permuted).value, "spec", Service.Serviced(obj, decode))
  {
    Service.ServiceExact(obj, decode);
    ServiceRemovesIn(obj, decode);
    SpecIsBeside("spec");
    MemberAnyOrder(obj, "spec", strip, Service.ServiceOps(obj, decode), permuted);
  }

  lemma ServiceRemovesIn(obj: Object, decode: Service.Decoder)
    ensures AllRemoveIn(Obj(obj), "spec", Service.ServiceOps(obj, decode))
    ensures "spec" in obj || Service.ServiceOps(obj, decode) == []
  {
    var addresses, ports := Service.RemoveSpecOps(Service.OldAddresses(obj)), Service.NodePortOps(obj, decode);
    AddressesRemoveIn(obj, Service.OldAddresses(obj));
    if Service.ServicePorts(obj).Some? && Service.AppliedPorts(obj, decode).Ok? {
      var xs := Service.ServicePorts(obj).value;
      Service.PortsNested(obj);
      PruneRemovesIn(Obj(obj), Service.PORTS, xs, Service.Marks(xs, Service.AppliedPorts(obj, decode).value),
                     Service.NODE_PORT);
    }
  }

  lemma AddressesRemoveIn(obj: Object, keys: seq<string>)
    requires keys != [] ==> "spec" in obj && obj["spec"].Obj?
    ensures AllRemoveIn(Obj(obj), "spec", Service.RemoveSpecOps(keys))
  {
    var ops := Service.RemoveSpecOps(keys);
    forall op | op in ops ensures RemovesIn(Obj(obj), "spec", op) {
      var i :| 0 <= i < |ops| && ops[i] == op;
      SpecKeyRemovesIn(obj, keys[i], "spec");
    }
  }

  lemma SpecKeyRemovesIn(obj: Object, key: string, spec: string)
    requires spec in obj && obj[spec].Obj?
    ensures RemovesIn(Obj(obj), spec, RemoveOp(Pointer.Write([spec, key])))
  {
    var path := [spec, key];
    ResolveWritten(path, Null);
    assert path[1..] == [key];
  }

  lemma ServiceMigrated(obj: Object, decode: Service.Decoder, after: Json)
    requires Service.PortsReadable(obj, decode) && StrippedBeside(obj, after, "spec", Service.Serviced(obj, decode))
    ensures Laws.AddressesMigrated(Obj(obj), after) && Laws.NodePortsMigrated(Obj(obj), after, decode)
  {
    Laws.AddressesExact(obj, decode);
    Laws.NodePortsServiced(obj, decode);
    SpecIsBeside("spec");
    Laws.SpecStays(obj, decode);
    OwnMember(obj, after, "spec", Service.Serviced(obj, decode));
    Laws.SameAddresses(Obj(obj), Service.Serviced(obj, decode), after);
    Laws.SameNodePorts(Obj(obj), Service.Serviced(obj, decode), after, decode);
  }

  lemma SubjectsMigrated(obj: Object, after: Json)
    requires Role.Namespace(obj).Ok? && Role.Subjects(obj).Ok?
    requires StrippedBeside(obj, after, "subjects", Role.Localized(obj))
    ensures Role.SubjectsMigrated(Obj(obj), after)
  {
    SubjectsIsBeside("subjects");
    Role.SubjectsExact(obj);
    OwnMember(obj, after, "subjects", Role.Localized(obj));
    Role.SameSubjects(Obj(obj), Role.Localized(obj), after);
  }

  lemma StripReadable(obj: Object)
    ensures StripOps(Obj(obj), FIELDS_TO_STRIP).Ok? <==>
            forall f <- FIELDS_TO_STRIP :: NestedField(Obj(obj), f) != TypeError
  {
    StripFieldsNonempty();
    StripOpsRemovesFound(Obj(obj), FIELDS_TO_STRIP);
  }

  /** The Service part of `getKubernetesTransforms`, with no optional flag set. */
  method ServiceTransforms(obj: Object, decode: Service.Decoder) returns (r: Result<seq<Operation>>)
    ensures r.Ok? <==>
      (forall f <- FIELDS_TO_STRIP :: NestedField(Obj(obj), f) != TypeError) && Service.PortsReadable(obj, decode)
    ensures r.Ok? ==> forall permuted: seq<Operation> :: multiset(permuted) == multiset(r.value) ==>
      && ApplyAll(Obj(obj), permuted).Ok?
      && StrippedBeside(obj, ApplyAll(Obj(obj), permuted).value, "spec", Service.Serviced(obj, decode))
      && Laws.AddressesMigrated(Obj(obj), ApplyAll(Obj(obj), permuted).value)
      && Laws.NodePortsMigrated(Obj(obj), ApplyAll(Obj(obj), permuted).value, decode)
  {
    StripReadable(obj);
    var strip :- StripListed(obj, FIELDS_TO_STRIP);
    var ops :- Laws.RemoveServiceFields(obj, decode);
    forall permuted: seq<Operation> | multiset(permuted) == multiset(strip + ops)
      ensures ApplyAll(Obj(obj), permuted).Ok?
      ensures StrippedBeside(obj, ApplyAll(Obj(obj), permuted).value, "spec", Service.Serviced(obj, decode))
      ensures Laws.AddressesMigrated(Obj(obj), ApplyAll(Obj(obj), permuted).value)
      ensures Laws.NodePortsMigrated(Obj(obj), ApplyAll(Obj(obj), permuted).value, decode)
    {
      ServiceAnyOrder(obj, decode, strip, permuted);
      ServiceMigrated(obj, decode, ApplyAll(Obj(obj), permuted).value);
    }
    return Ok(strip + ops);
  }

  /** The RoleBinding part, likewise. */
  method RoleBindingTransforms(obj: Object, decodes: bool) returns (r: Result<seq<Operation>>)
    ensures r.Ok? <==>
      && (forall f <- FIELDS_TO_STRIP :: NestedField(Obj(obj), f) != TypeError)
      && decodes && Role.ReadableBinding(Obj(obj))
    ensures r.Ok? ==> Role.Namespace(obj).Ok? && Role.Subjects(obj).Ok?
    ensures r.Ok? ==> forall permuted: seq<Operation> :: multiset(permuted) == multiset(r.value) ==>
      && ApplyAll(Obj(obj), permuted).Ok?
      && StrippedBeside(obj, ApplyAll(Obj(obj), permuted).value, "subjects", Role.Localized(obj))
      && Role.SubjectsMigrated(Obj(obj), ApplyAll(Obj(obj), permuted).value)
  {
    StripReadable(obj);
    var strip :- StripListed(obj, FIELDS_TO_STRIP);
    var ops :- Role.RoleBindingPatch(obj, decodes);
    forall permuted: seq<Operation> | multiset(permuted) == multiset(strip + ops)
      ensures ApplyAll(Obj(obj), permuted).Ok?
      ensures StrippedBeside(obj, ApplyAll(Obj(obj), permuted).value, "subjects", Role.Localized(obj))
      ensures Role.SubjectsMigrated(Obj(obj), ApplyAll(Obj(obj), permuted).value)
    {
      RoleBindingAnyOrder(obj, strip, permuted);
      SubjectsMigrated(obj, ApplyAll(Obj(obj), permuted).value);
    }
    return Ok(strip + ops);
  }
}
