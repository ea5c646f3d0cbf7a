/** The RoleBinding part of the Kubernetes plugin (transform/kubernetes/kubernetes.go). */
module RoleBindings {
  import opened Wrappers
  import opened Strconv
  import opened Json
  import opened Patch
  import opened Unstructured
  import opened ListPruning
  import Pointer

  const SUBJECTS: Path := ["subjects"]
  const NAMESPACE := "namespace"

  /** A string field of a typed object: "" when absent or null, an error for anything but a string. */
  function StringField(m: Object, name: string): Result<string>
  {
    if name !in m || m[name].Null? then Ok("") else if m[name].Str? then Ok(m[name].s) else Err
  }

  /** What decoding into the typed RoleBinding keeps of a subject. */
  datatype Subject = Subject(kind: string, namespace: string)

  function ReadSubject(v: Json): Result<Subject>
  {
    match v
    case Null => Ok(Subject("", ""))
    case Obj(m) =>
      var kind :- StringField(m, "kind");
      var namespace :- StringField(m, NAMESPACE);
      Ok(Subject(kind, namespace))
    case _ => Err
  }

  function Namespace(obj: Object): Result<string>
  {
    if "metadata" !in obj || obj["metadata"].Null? then Ok("")
    else if obj["metadata"].Obj? then StringField(obj["metadata"].members, NAMESPACE)
    else Err
  }

  function Subjects(obj: Object): Result<seq<Json>>
  {
    if "subjects" !in obj || obj["subjects"].Null? then Ok([])
    else if obj["subjects"].Arr? then Ok(obj["subjects"].items)
    else Err
  }

  /** A service account of the binding's own namespace. */
  predicate IsLocal(subject: Json, namespace: string)
  {
    ReadSubject(subject) == Ok(Subject("ServiceAccount", namespace))
  }

  function Marks(subjects: seq<Json>, namespace: string): (r: seq<bool>)
    ensures |r| == |subjects| && forall i :: 0 <= i < |r| ==> r[i] == IsLocal(subjects[i], namespace)
  {
    seq(|subjects|, i requires 0 <= i < |subjects| => IsLocal(subjects[i], namespace))
  }

  /** The binding without the namespaces of its local service accounts, and otherwise unchanged. */
  function Localized(obj: Object): Json
    requires Namespace(obj).Ok? && Subjects(obj).Ok?
  {
    if "subjects" in obj && obj["subjects"].Arr? then
      var subjects := Subjects(obj).value;
      Obj(obj["subjects" := Arr(Prune(subjects, Marks(subjects, Namespace(obj).value), NAMESPACE))])
    else Obj(obj)
  }

  lemma SubjectText(n: nat, subjects: string, namespace: string, start: string, end: string)
    requires subjects == "subjects" && namespace == "namespace" && start == "/subjects/" && end == "/namespace"
    ensures Pointer.Write([subjects] + [Decimal(n), namespace]) == start + Decimal(n) + end
  {
    ValueOfDecimal(n);
    var text := "/" + subjects + "/" + Decimal(n) + "/" + namespace;
    assert start == "/" + subjects + "/" && end == "/" + namespace;
    Pointer.WritePlainThree(subjects, Decimal(n), namespace, text);
    assert [subjects] + [Decimal(n), namespace] == [subjects, Decimal(n), namespace];
  }

  lemma MarksNext(subjects: seq<Json>, namespace: string, n: nat)
    requires n < |subjects|
    ensures PruneOps(SUBJECTS, Marks(subjects[..n + 1], namespace), NAMESPACE) ==
            PruneOps(SUBJECTS, Marks(subjects[..n], namespace), NAMESPACE) +
            if IsLocal(subjects[n], namespace)
            then [RemoveOp(Pointer.Write(SUBJECTS + [Decimal(n), NAMESPACE]))] else []
  {
    assert Marks(subjects[..n + 1], namespace)[..n] == Marks(subjects[..n], namespace);
  }

  function RoleBindingOps(obj: Object): seq<Operation>
    requires Namespace(obj).Ok? && Subjects(obj).Ok?
  {
    PruneOps(SUBJECTS, Marks(Subjects(obj).value, Namespace(obj).value), NAMESPACE)
  }

  /**
   * The operations for a RoleBinding: applied, they give exactly the localized binding.  `decodes` says
   * whether what is not read here decodes into a typed RoleBinding.
   */
  method RoleBindingPatch(obj: Object, decodes: bool) returns (r: Result<seq<Operation>>)
    ensures r.Ok? <==> decodes && ReadableBinding(Obj(obj))
    ensures r.Ok? ==> Namespace(obj).Ok? && Subjects(obj).Ok?
    ensures r.Ok? ==> r.value == RoleBindingOps(obj) && ApplyAll(Obj(obj), r.value) == Ok(Localized(obj))
    ensures r.Ok? ==> SubjectsMigrated(Obj(obj), Localized(obj))
  {
    ReadableBindingIff(obj);
    var namespace :- Namespace(obj);
    var subjects :- Subjects(obj);
    if !decodes {
      return Err;
    }
    if s :| s in subjects && ReadSubject(s).Err? {
      return Err;
    }
    var patch: seq<Operation> := [];
    for i := 0 to |subjects|
      invariant patch == PruneOps(SUBJECTS, Marks(subjects[..i], namespace), NAMESPACE)
    {
      MarksNext(subjects, namespace, i);
      var subject := ReadSubject(subjects[i]);
      if subject.Ok? && subject.value.kind == "ServiceAccount" && subject.value.namespace == namespace {
        SubjectText(i, "subjects", "namespace", "/subjects/", "/namespace");
        patch := patch + [RemoveOp("/subjects/" + Decimal(i) + "/namespace")];
      }
    }
    assert subjects[..|subjects|] == subjects;
    LocalizedExact(obj);
    SubjectsExact(obj);
    return Ok(patch);
  }

  lemma LocalizedExact(obj: Object)
    requires Namespace(obj).Ok? && Subjects(obj).Ok?
    ensures ApplyAll(Obj(obj), RoleBindingOps(obj)) == Ok(Localized(obj))
  {
    var subjects, namespace := Subjects(obj).value, Namespace(obj).value;
    if "subjects" in obj && obj["subjects"].Arr? {
      SubjectsNested(obj);
      NullIsNotLocal(namespace);
      PruneExact(Obj(obj), SUBJECTS, subjects, Marks(subjects, namespace), NAMESPACE);
    } else {
      assert Marks(subjects, namespace) == [];
    }
  }

  lemma SubjectsNested(obj: Object)
    requires "subjects" in obj
    ensures NestedField(Obj(obj), SUBJECTS) == Found(obj["subjects"])
  {
    assert SUBJECTS[1..] == [];
  }

  lemma NullIsNotLocal(namespace: string)
    ensures !IsLocal(Null, namespace)
  {
    var kind := "ServiceAccount";
    assert kind != "";
  }

  // ----- the same, by what the documents hold -----

  /** The namespace of the binding; nothing and null read as "". */
  function BindingNamespace(doc: Json): string
  {
    match Lookup(doc, ["metadata", "namespace"])
    case Some(Str(namespace)) => namespace
    case _ => ""
  }

  /** A service account of that namespace. */
  predicate LosesNamespace(subject: Json, namespace: string)
  {
    && subject.Obj?
    && "kind" in subject.members && subject.members["kind"] == Str("ServiceAccount")
    && if "namespace" in subject.members && !subject.members["namespace"].Null?
       then subject.members["namespace"] == Str(namespace)
       else namespace == ""
  }

  /** Local service accounts have no namespace any more; all other subjects are as they were. */
  ghost predicate SubjectsMigrated(before: Json, after: Json)
  {
    match Lookup(before, ["subjects"])
    case Some(Arr(was)) =>
      var now := Lookup(after, ["subjects"]);
      && now.Some? && now.value.Arr? && |now.value.items| == |was|
      && forall i :: 0 <= i < |was| ==>
           now.value.items[i] ==
           if LosesNamespace(was[i], BindingNamespace(before)) then Obj(was[i].members - {"namespace"}) else was[i]
    case was => Lookup(after, ["subjects"]) == was
  }

  lemma IsLocalIff(subject: Json, namespace: string)
    ensures IsLocal(subject, namespace) <==> LosesNamespace(subject, namespace)
  {
    var account := "ServiceAccount";
    assert account != "";
  }

  lemma NamespaceIs(obj: Object, metadata: string, namespace: string)
    requires metadata == "metadata" && namespace == "namespace" && Namespace(obj).Ok?
    ensures BindingNamespace(Obj(obj)) == Namespace(obj).value
  {
    var path := [metadata, namespace];
    assert path[1..] == [namespace] && path[1..][1..] == [];
    if metadata in obj {
      assert Lookup(Obj(obj), path) == Lookup(obj[metadata], [namespace]);
      if obj[metadata].Obj? && namespace in obj[metadata].members {
        var v := obj[metadata].members[namespace];
        assert Lookup(v, []) == Some(v);
      }
    }
  }

  lemma TopLookup(m: Object, k: string)
    ensures Lookup(Obj(m), [k]) == if k in m then Some(m[k]) else None
  {
    assert [k][1..] == [];
    assert k in m ==> Lookup(m[k], []) == Some(m[k]);
  }

  /** For every RoleBinding. */
  lemma SubjectsExact(obj: Object)
    requires Namespace(obj).Ok? && Subjects(obj).Ok?
    ensures SubjectsMigrated(Obj(obj), Localized(obj))
  {
    TopLookup(obj, "subjects");
    NamespaceIs(obj, "metadata", "namespace");
    if "subjects" in obj && obj["subjects"].Arr? {
      var was, namespace := obj["subjects"].items, Namespace(obj).value;
      TopLookup(Localized(obj).members, "subjects");
      forall i | 0 <= i < |was| ensures IsLocal(was[i], namespace) <==> LosesNamespace(was[i], namespace) {
        IsLocalIff(was[i], namespace);
      }
    }
  }

  /** Absent, null or a string. */
  predicate Stringlike(v: Option<Json>)
  {
    v == None || v == Some(Null) || v.value.Str?
  }

  predicate ReadableSubject(subject: Json)
  {
    subject.Null? ||
    (subject.Obj? && Stringlike(Lookup(subject, ["kind"])) && Stringlike(Lookup(subject, ["namespace"])))
  }

  /** What the code reads of a binding has the types it expects. */
  predicate ReadableBinding(doc: Json)
  {
    var metadata, subjects := Lookup(doc, ["metadata"]), Lookup(doc, ["subjects"]);
    && (metadata == None || metadata == Some(Null) || metadata.value.Obj?)
    && Stringlike(Lookup(doc, ["metadata", "namespace"]))
    && (subjects == None || subjects == Some(Null) ||
        (subjects.value.Arr? && forall s <- subjects.value.items :: ReadableSubject(s)))
  }

  lemma MemberLookup(obj: Object, k: string, l: string)
    requires k in obj && obj[k].Obj?
    ensures Lookup(Obj(obj), [k, l]) == Lookup(obj[k], [l])
  {
    assert [k, l][1..] == [l];
  }

  lemma ReadSubjectIff(subject: Json)
    ensures ReadSubject(subject).Ok? <==> ReadableSubject(subject)
  {
    if subject.Obj? {
      TopLookup(subject.members, "kind");
      TopLookup(subject.members, "namespace");
    }
  }

  /** Exactly when reading a binding succeeds. */
  lemma ReadableBindingIff(obj: Object)
    ensures ReadableBinding(Obj(obj)) <==>
            && Namespace(obj).Ok? && Subjects(obj).Ok?
            && forall s <- Subjects(obj).value :: ReadSubject(s).Ok?
  {
    TopLookup(obj, "metadata");
    TopLookup(obj, "subjects");
    NamespaceIff(obj, "metadata", "namespace");
    forall s: Json ensures ReadSubject(s).Ok? <==> ReadableSubject(s) {
      ReadSubjectIff(s);
    }
  }

  lemma NamespaceIff(obj: Object, metadata: string, namespace: string)
    requires metadata == "metadata" && namespace == "namespace"
    ensures Namespace(obj).Ok? <==>
            (metadata in obj ==> obj[metadata].Null? || obj[metadata].Obj?) &&
            Stringlike(Lookup(Obj(obj), [metadata, namespace]))
  {
    assert [metadata, namespace][1..] == [namespace];
    if metadata in obj && obj[metadata].Obj? {
      MemberLookup(obj, metadata, namespace);
      TopLookup(obj[metadata].members, namespace);
    }
  }

  lemma SameSubjects(before: Json, x: Json, y: Json)
    requires Lookup(x, ["subjects"]) == Lookup(y, ["subjects"]) && SubjectsMigrated(before, x)
    ensures SubjectsMigrated(before, y)
  {
  }

  /** After the patch a subject has a namespace exactly when it had one and is not a local service account. */
  lemma NamespaceSurvivesIff(obj: Object, i: nat)
    requires Namespace(obj).Ok? && Subjects(obj).Ok? && i < |Subjects(obj).value| && Subjects(obj).value[i].Obj?
    ensures var after := NestedField(Localized(obj), SUBJECTS);
            && after.Found? && after.v.Arr? && |after.v.items| == |Subjects(obj).value|
            && after.v.items[i].Obj?
            && (NAMESPACE in after.v.items[i].members <==>
                  NAMESPACE in Subjects(obj).value[i].members &&
                  !LosesNamespace(Subjects(obj).value[i], BindingNamespace(Obj(obj))))
            && after.v.items[i].members - {NAMESPACE} == Subjects(obj).value[i].members - {NAMESPACE}
  {
    assert SUBJECTS[1..] == [];
    NamespaceIs(obj, "metadata", "namespace");
    IsLocalIff(Subjects(obj).value[i], Namespace(obj).value);
    var m := Subjects(obj).value[i].members;
    assert m - {NAMESPACE} - {NAMESPACE} == m - {NAMESPACE};
  }
}
