/** The Kubernetes plugin: stripping server-side fields and preparing Jobs (transform/kubernetes/kubernetes.go). */
module KubernetesPlugin {
  import opened Wrappers
  import opened Json
  import opened Patch
  import opened Unstructured
  import opened Removals
  import Pointer
  import Strconv

  const CONTROLLER_UID := "controller-uid"
  const BATCH_CONTROLLER_UID := "batch.kubernetes.io/controller-uid"
  const LAST_APPLIED := "kubectl.kubernetes.io/last-applied-configuration"
  const JOB_IDEMPOTENT := "crane.konveyor.io/job-idempotent"

  const FIELDS_TO_STRIP: seq<Path> := [
    ["metadata", "uid"],
    ["metadata", "selfLink"],
    ["metadata", "resourceVersion"],
    ["metadata", "creationTimestamp"],
    ["metadata", "generation"],
    ["metadata", "managedFields"],
    ["metadata", "annotations", LAST_APPLIED],
    ["metadata", "annotations", BATCH_CONTROLLER_UID],
    ["metadata", "annotations", CONTROLLER_UID],
    ["metadata", "labels", BATCH_CONTROLLER_UID],
    ["metadata", "labels", CONTROLLER_UID],
    ["status"]
  ]

  const CONTROLLER_UID_KEYS: seq<string> := [BATCH_CONTROLLER_UID, CONTROLLER_UID]

  const SELECTOR: Path := ["spec", "selector"]
  const MATCH_LABELS: Path := ["spec", "selector", "matchLabels"]
  const TEMPLATE_LABELS: Path := ["spec", "template", "metadata", "labels"]
  const MANUAL_SELECTOR: Path := ["spec", "manualSelector"]
  const SUSPEND: Path := ["spec", "suspend"]

  lemma {:induction false} StripOpsFails(doc: Json, fields: seq<Path>, n: nat)
    requires n <= |fields| && StripOps(doc, fields[..n]).Err?
    ensures StripOps(doc, fields).Err?
    decreases |fields| - n
  {
    if n < |fields| {
      assert fields[..n + 1][..n] == fields[..n];
      StripOpsFails(doc, fields, n + 1);
    } else {
      assert fields[..n] == fields;
    }
  }

  /** `stripFields`, for a list of fields: a removal for every field that is there. */
  method StripListed(obj: Object, fields: seq<Path>) returns (r: Result<seq<Operation>>)
    ensures r == StripOps(Obj(obj), fields)
  {
    var patches: seq<Operation> := [];
    for n := 0 to |fields|
      invariant StripOps(Obj(obj), fields[..n]) == Ok(patches)
    {
      assert fields[..n + 1][..n] == fields[..n];
      var field := NestedField(Obj(obj), fields[n]);
      if field.TypeError? {
        StripOpsFails(Obj(obj), fields, n + 1);
        return Err;
      }
      if field.Found? {
        patches := patches + [RemoveOp(Pointer.Write(fields[n]))];
      }
    }
    assert fields[..|fields|] == fields;
    return Ok(patches);
  }

  predicate IsControllerUid(key: string)
  {
    key == "controller-uid" || key == "batch.kubernetes.io/controller-uid"
  }

  predicate IsServerMetadata(name: string)
  {
    || name == "uid" || name == "selfLink" || name == "resourceVersion" || name == "creationTimestamp"
    || name == "generation" || name == "managedFields"
  }

  /** What the server filled in on the old cluster. */
  predicate IsServerField(f: Path)
  {
    || (|f| == 1 && f[0] == "status")
    || (|f| == 2 && f[0] == "metadata" && IsServerMetadata(f[1]))
    || (|f| == 3 && f[0] == "metadata" && f[1] == "annotations" &&
          f[2] == "kubectl.kubernetes.io/last-applied-configuration")
    || (|f| == 3 && f[0] == "metadata" && (f[1] == "annotations" || f[1] == "labels") && IsControllerUid(f[2]))
  }

  /** These are the listed fields, all of them and no others. */
  lemma StripListIs(f: Path)
    ensures f in FIELDS_TO_STRIP <==> IsServerField(f)
  {
    if IsServerField(f) {
      ServerFieldListed(f);
    }
  }

  lemma ServerFieldListed(f: Path)
    requires IsServerField(f)
    ensures f in FIELDS_TO_STRIP
  {
    var all := FIELDS_TO_STRIP;
    if |f| == 1 {
      assert f == all[11];
    } else if |f| == 2 {
      assert f == [f[0], f[1]];
      assert f == all[0] || f == all[1] || f == all[2] || f == all[3] || f == all[4] || f == all[5];
    } else {
      assert f == [f[0], f[1], f[2]];
      assert f == all[6] || f == all[7] || f == all[8] || f == all[9] || f == all[10];
    }
  }

  lemma StripFieldsNonempty()
    ensures forall f <- FIELDS_TO_STRIP :: f != []
  {
  }

  /**
   * `stripFields`: applying its patch succeeds, leaves none of the listed fields, keeps the value of
   * every path beside them, and leaves nothing to strip a second time.
   */
  method StripFields(obj: Object) returns (r: Result<seq<Operation>>)
    ensures r.Err? <==> exists f <- FIELDS_TO_STRIP :: NestedField(Obj(obj), f) == TypeError
    ensures r.Ok? ==>
      var after := ApplyAll(Obj(obj), r.value);
      && after.Ok? && after.value.Obj?
      && Stripped(Obj(obj), after.value, FIELDS_TO_STRIP)
      && StripOps(after.value, FIELDS_TO_STRIP) == Ok([])
  {
    r := StripListed(obj, FIELDS_TO_STRIP);
    StripFieldsNonempty();
    StripOpsRemovesFound(Obj(obj), FIELDS_TO_STRIP);
    if r.Ok? {
      StripExact(Obj(obj), FIELDS_TO_STRIP);
      StaysObject(obj, ApplyAll(Obj(obj), r.value).value, FIELDS_TO_STRIP);
    }
  }

  lemma StaysObject(obj: Object, after: Json, fields: seq<Path>)
    requires Stripped(Obj(obj), after, fields) && forall f <- fields :: f != []
    ensures after.Obj?
  {
    assert StrippedAt(Obj(obj), after, fields, []);
  }

  // ----- Jobs -----

  function Under(path: Path, keys: seq<string>): (r: seq<Path>)
    ensures |r| == |keys| && forall i :: 0 <= i < |r| ==> r[i] == path + [keys[i]]
  {
    seq(|keys|, i requires 0 <= i < |keys| => path + [keys[i]])
  }

  /** The selector is the user's own. */
  predicate Manual(obj: Object)
  {
    NestedBool(Obj(obj), MANUAL_SELECTOR) == Found(Bool(true))
  }

  /** The same, by what the document holds. */
  predicate ManualSelector(doc: Json)
  {
    Lookup(doc, ["spec", "manualSelector"]) == Some(Bool(true))
  }

  lemma PlainNotIndex(token: string)
    requires token != "" && !Strconv.IsDigit(token[0])
    ensures !IsIndex(token)
  {
    assert token[0] in token;
  }

  lemma ManualIs(obj: Object)
    ensures Manual(obj) <==> ManualSelector(Obj(obj))
  {
    PlainNotIndex("spec");
    PlainNotIndex("manualSelector");
    FoundIsLookup(Obj(obj), MANUAL_SELECTOR);
  }

  /** Where a Job may carry the identity of its old controller, apart from its own metadata. */
  function UidFields(obj: Object): seq<Path>
  {
    (if Manual(obj) then Under(MATCH_LABELS, CONTROLLER_UID_KEYS) else [SELECTOR])
    + Under(TEMPLATE_LABELS, CONTROLLER_UID_KEYS)
  }

  predicate StringsUnder(doc: Json, path: Path, keys: seq<string>)
  {
    forall k <- keys :: NestedString(doc, path + [k]) != TypeError
  }

  /** Every value the Job transform reads has the type it expects. */
  predicate JobReadable(obj: Object)
  {
    && NestedBool(Obj(obj), MANUAL_SELECTOR) != TypeError
    && (if ManualSelector(Obj(obj)) then StringsUnder(Obj(obj), MATCH_LABELS, CONTROLLER_UID_KEYS)
        else NestedMap(Obj(obj), SELECTOR) != TypeError)
    && StringsUnder(Obj(obj), TEMPLATE_LABELS, CONTROLLER_UID_KEYS)
  }

  /** The same, by what the document holds. */
  ghost predicate JobReads(doc: Json)
  {
    && ReadsBool(doc, ["spec", "manualSelector"])
    && (if ManualSelector(doc)
        then forall k: string :: IsControllerUid(k) ==> ReadsString(doc, ["spec", "selector", "matchLabels"] + [k])
        else ReadsMap(doc, ["spec", "selector"]))
    && (forall k: string :: IsControllerUid(k) ==>
          ReadsString(doc, ["spec", "template", "metadata", "labels"] + [k]))
  }

  lemma StringsUnderIff(doc: Json, path: Path)
    requires forall t <- path :: !IsIndex(t)
    ensures StringsUnder(doc, path, CONTROLLER_UID_KEYS) <==>
            forall k: string :: IsControllerUid(k) ==> ReadsString(doc, path + [k])
  {
    forall k: string | IsControllerUid(k)
      ensures NestedString(doc, path + [k]) != TypeError <==> ReadsString(doc, path + [k])
    {
      PlainNotIndex(k);
      TypeErrorIff(doc, path + [k]);
    }
    forall k: string ensures k in CONTROLLER_UID_KEYS <==> IsControllerUid(k) {
      assert CONTROLLER_UID_KEYS == [BATCH_CONTROLLER_UID, CONTROLLER_UID];
    }
  }

  lemma SuspendReadable(obj: Object, spec: string, suspend: string)
    requires spec == "spec" && suspend == "suspend"
    ensures NestedBool(Obj(obj), SUSPEND) != TypeError <==> ReadsBool(Obj(obj), [spec, suspend])
  {
    PlainNotIndex(spec);
    PlainNotIndex(suspend);
    TypeErrorIff(Obj(obj), [spec, suspend]);
  }

  lemma JobReadableIff(obj: Object)
    ensures JobReadable(obj) <==> JobReads(Obj(obj))
  {
    JobPathsNotIndex("spec", "selector", "matchLabels", "template", "metadata", "labels", "manualSelector");
    StringsUnderIff(Obj(obj), MATCH_LABELS);
    StringsUnderIff(Obj(obj), TEMPLATE_LABELS);
    TypeErrorIff(Obj(obj), MANUAL_SELECTOR);
    TypeErrorIff(Obj(obj), SELECTOR);
  }

  lemma JobPathsNotIndex(spec: string, selector: string, matchLabels: string, template: string, metadata: string,
                         labels: string, manualSelector: string)
    requires spec == "spec" && selector == "selector" && matchLabels == "matchLabels" && template == "template"
    requires metadata == "metadata" && labels == "labels" && manualSelector == "manualSelector"
    ensures !IsIndex(spec) && !IsIndex(selector) && !IsIndex(matchLabels) && !IsIndex(template)
    ensures !IsIndex(metadata) && !IsIndex(labels) && !IsIndex(manualSelector)
  {
    PlainNotIndex(spec);
    PlainNotIndex(selector);
    PlainNotIndex(matchLabels);
    PlainNotIndex(template);
    PlainNotIndex(metadata);
    PlainNotIndex(labels);
    PlainNotIndex(manualSelector);
  }

  lemma NextKey(obj: Object, path: Path, keys: seq<string>, n: nat)
    requires n < |keys| && StripOps(Obj(obj), Under(path, keys[..n])).Ok?
    ensures StringsUnder(Obj(obj), path, keys[..n + 1]) <==>
            StringsUnder(Obj(obj), path, keys[..n]) && NestedString(Obj(obj), path + [keys[n]]) != TypeError
    ensures var field := NestedField(Obj(obj), path + [keys[n]]);
            var before := StripOps(Obj(obj), Under(path, keys[..n])).value;
            StripOps(Obj(obj), Under(path, keys[..n + 1])) ==
            match field
            case TypeError => Err
            case NotFound => Ok(before)
            case Found(_) => Ok(before + [RemoveOp(Pointer.Write(path + [keys[n]]))])
  {
    assert keys[..n + 1] == keys[..n] + [keys[n]];
    assert Under(path, keys[..n + 1])[..n] == Under(path, keys[..n]);
  }

  /** Both key loops of `removeJobControllerUID`: a removal for each key that is there. */
  method RemoveKeys(obj: Object, prefix: string, path: Path, keys: seq<string>) returns (r: Result<seq<Operation>>)
    requires Pointer.Writes(path, prefix)
    ensures r.Ok? <==> StringsUnder(Obj(obj), path, keys)
    ensures r.Ok? ==> r == StripOps(Obj(obj), Under(path, keys))
  {
    var patches: seq<Operation> := [];
    for n := 0 to |keys|
      invariant StringsUnder(Obj(obj), path, keys[..n])
      invariant StripOps(Obj(obj), Under(path, keys[..n])) == Ok(patches)
    {
      NextKey(obj, path, keys, n);
      var found := NestedString(Obj(obj), path + [keys[n]]);
      if found.TypeError? {
        return Err;
      }
      if found.Found? {
        patches := patches + [RemoveOp(prefix + Pointer.Escape(keys[n]))];
      }
    }
    assert keys[..|keys|] == keys;
    return Ok(patches);
  }

  /** The two members of "spec" that the code writes pointers to by hand. */
  lemma SpecMemberText(spec: string, member: string, text: string)
    requires spec == "spec"
    requires (member == "selector" && text == "/spec/selector") || (member == "suspend" && text == "/spec/suspend")
    ensures Pointer.Write([spec, member]) == text
  {
    assert text == "/" + spec + "/" + member;
    Pointer.WritePlainTwo(spec, member, text);
  }

  lemma MatchLabelsPrefix(spec: string, selector: string, matchLabels: string, prefix: string)
    requires spec == "spec" && selector == "selector" && matchLabels == "matchLabels"
    requires prefix == "/spec/selector/matchLabels/"
    ensures Pointer.Writes([spec, selector, matchLabels], prefix)
  {
    MatchLabelsText(spec, selector, matchLabels, prefix);
    var text := "/" + spec + "/" + selector + "/" + matchLabels;
    Pointer.WritePlainThree(spec, selector, matchLabels, text);
    Pointer.WritesUnder([spec, selector, matchLabels], prefix);
  }

  lemma MatchLabelsText(spec: string, selector: string, matchLabels: string, prefix: string)
    requires spec == "spec" && selector == "selector" && matchLabels == "matchLabels"
    requires prefix == "/spec/selector/matchLabels/"
    ensures prefix == "/" + spec + "/" + selector + "/" + matchLabels + "/"
    ensures Pointer.IsPlain(spec) && Pointer.IsPlain(selector) && Pointer.IsPlain(matchLabels)
  {
  }

  lemma TemplateLabelsPrefix(spec: string, template: string, metadata: string, labels: string, prefix: string)
    requires spec == "spec" && template == "template" && metadata == "metadata" && labels == "labels"
    requires prefix == "/spec/template/metadata/labels/"
    ensures Pointer.Writes([spec, template, metadata, labels], prefix)
  {
    TemplateLabelsText(spec, template, metadata, labels, prefix);
    var text := "/" + spec + "/" + template + "/" + metadata + "/" + labels;
    Pointer.WritePlainFour(spec, template, metadata, labels, text);
    Pointer.WritesUnder([spec, template, metadata, labels], prefix);
  }

  lemma TemplateLabelsText(spec: string, template: string, metadata: string, labels: string, prefix: string)
    requires spec == "spec" && template == "template" && metadata == "metadata" && labels == "labels"
    requires prefix == "/spec/template/metadata/labels/"
    ensures prefix == "/" + spec + "/" + template + "/" + metadata + "/" + labels + "/"
    ensures Pointer.IsPlain(spec) && Pointer.IsPlain(template) && Pointer.IsPlain(metadata) && Pointer.IsPlain(labels)
  {
  }

  /** The first half: the whole selector, or the two labels of a manual one. */
  method RemoveSelectorUID(obj: Object) returns (r: Result<seq<Operation>>)
    ensures r.Ok? <==>
      && NestedBool(Obj(obj), MANUAL_SELECTOR) != TypeError
      && if ManualSelector(Obj(obj)) then StringsUnder(Obj(obj), MATCH_LABELS, CONTROLLER_UID_KEYS)
         else NestedMap(Obj(obj), SELECTOR) != TypeError
    ensures r.Ok? ==> r == StripOps(Obj(obj), if ManualSelector(Obj(obj)) then Under(MATCH_LABELS, CONTROLLER_UID_KEYS)
                                              else [SELECTOR])
  {
    ManualIs(obj);
    var manual := NestedBool(Obj(obj), MANUAL_SELECTOR);
    if manual.TypeError? {
      return Err;
    }
    if manual.NotFound? || manual.v == Bool(false) {
      r := RemoveSelector(obj);
    } else {
      r := RemoveSelectorLabels(obj);
    }
  }

  method RemoveSelectorLabels(obj: Object) returns (r: Result<seq<Operation>>)
    ensures r.Ok? <==> StringsUnder(Obj(obj), MATCH_LABELS, CONTROLLER_UID_KEYS)
    ensures r.Ok? ==> r == StripOps(Obj(obj), Under(MATCH_LABELS, CONTROLLER_UID_KEYS))
  {
    MatchLabelsPrefix("spec", "selector", "matchLabels", "/spec/selector/matchLabels/");
    r := RemoveKeys(obj, "/spec/selector/matchLabels/", MATCH_LABELS, CONTROLLER_UID_KEYS);
  }

  method RemoveSelector(obj: Object) returns (r: Result<seq<Operation>>)
    ensures r.Ok? <==> NestedMap(Obj(obj), SELECTOR) != TypeError
    ensures r.Ok? ==> r == StripOps(Obj(obj), [SELECTOR])
  {
    SpecMemberText("spec", "selector", "/spec/selector");
    StripOpsOne(Obj(obj), SELECTOR);
    var selector := NestedMap(Obj(obj), SELECTOR);
    if selector.TypeError? {
      return Err;
    }
    if selector.Found? {
      return Ok([RemoveOp("/spec/selector")]);
    }
    return Ok([]);
  }

  method RemoveJobControllerUID(obj: Object) returns (r: Result<seq<Operation>>)
    ensures r.Ok? <==> JobReads(Obj(obj))
    ensures r.Ok? ==> r == StripOps(Obj(obj), UidFields(obj))
  {
    JobReadableIff(obj);
    var patches :- RemoveSelectorUID(obj);
    TemplateLabelsPrefix("spec", "template", "metadata", "labels", "/spec/template/metadata/labels/");
    var labels :- RemoveKeys(obj, "/spec/template/metadata/labels/", TEMPLATE_LABELS, CONTROLLER_UID_KEYS);
    ManualIs(obj);
    StripOpsAppend(Obj(obj), if Manual(obj) then Under(MATCH_LABELS, CONTROLLER_UID_KEYS) else [SELECTOR],
                   Under(TEMPLATE_LABELS, CONTROLLER_UID_KEYS));
    return Ok(patches + labels);
  }

  predicate Idempotent(obj: Object)
  {
    JOB_IDEMPOTENT in Annotations(obj) && Annotations(obj)[JOB_IDEMPOTENT] == "true"
  }

  /** The Job has to be suspended: nobody owns it and it is not marked as safe to run again. */
  predicate Suspends(obj: Object)
  {
    !Owned(obj) && !Idempotent(obj)
  }

  function SuspendStandaloneJob(obj: Object): Result<seq<Operation>>
  {
    if Owned(obj) then Ok([])
    else if Idempotent(obj) then Ok([])
    else
      match NestedBool(Obj(obj), SUSPEND)
      case TypeError => Err
      case Found(Bool(true)) => Ok([])
      case _ => Ok([AddOp("/spec/suspend", Bool(true))])
  }

  function JobFields(obj: Object): seq<Path>
  {
    FIELDS_TO_STRIP + UidFields(obj)
  }

  /** What the removals and the suspension make of a Job. */
  ghost predicate FieldsPrepared(obj: Object, after: Json)
  {
    && (forall f <- JobFields(obj), rest: Path :: Lookup(after, f + rest) == None)
    && Lookup(after, SUSPEND) == (if Suspends(obj) then Some(Bool(true)) else Lookup(Obj(obj), SUSPEND))
    && (forall q: Path :: Incomparable(SUSPEND, q) && (forall f <- JobFields(obj) :: Incomparable(f, q)) ==>
          Lookup(after, q) == Lookup(Obj(obj), q))
  }

  // ----- the same, by what the documents hold -----

  /** The Job belongs to something: a nonempty list of owners, each an object. */
  predicate HasOwners(doc: Json)
  {
    match Lookup(doc, ["metadata", "ownerReferences"])
    case Some(Arr(refs)) => refs != [] && forall r <- refs :: r.Obj?
    case _ => false
  }

  /** It is marked as safe to run again, and no other annotation voids them all by not being a string. */
  predicate MarkedIdempotent(doc: Json)
  {
    match Lookup(doc, ["metadata", "annotations"])
    case Some(Obj(m)) =>
      var mark := "crane.konveyor.io/job-idempotent";
      mark in m && m[mark] == Str("true") && forall k <- m :: m[k].Str? || m[k].Null?
    case _ => false
  }

  lemma MetadataNotIndex(metadata: string, owners: string, annotations: string)
    requires metadata == "metadata" && owners == "ownerReferences" && annotations == "annotations"
    ensures !IsIndex(metadata) && !IsIndex(owners) && !IsIndex(annotations)
  {
    PlainNotIndex(metadata);
    PlainNotIndex(owners);
    PlainNotIndex(annotations);
  }

  lemma SuspendsIff(obj: Object)
    ensures Suspends(obj) <==> !HasOwners(Obj(obj)) && !MarkedIdempotent(Obj(obj))
  {
    MetadataNotIndex("metadata", "ownerReferences", "annotations");
    FoundIsLookup(Obj(obj), ["metadata", "ownerReferences"]);
    FoundIsLookup(Obj(obj), ["metadata", "annotations"]);
  }

  /** A place where a Job carries the identity of its old controller, or a selector made from it. */
  predicate IsUidField(doc: Json, f: Path)
  {
    || (|f| == 5 && f[..4] == ["spec", "template", "metadata", "labels"] && IsControllerUid(f[4]))
    || (if ManualSelector(doc) then |f| == 4 && f[..3] == ["spec", "selector", "matchLabels"] && IsControllerUid(f[3])
        else f == ["spec", "selector"])
  }

  predicate IsJobField(doc: Json, f: Path)
  {
    IsServerField(f) || IsUidField(doc, f)
  }

  lemma UnderIs(path: Path, f: Path)
    ensures f in Under(path, CONTROLLER_UID_KEYS) <==>
      |f| == |path| + 1 && f[..|path|] == path && IsControllerUid(f[|path|])
  {
    var under := Under(path, CONTROLLER_UID_KEYS);
    assert under == [path + [BATCH_CONTROLLER_UID], path + [CONTROLLER_UID]];
    if |f| == |path| + 1 && f[..|path|] == path {
      assert f == path + [f[|path|]];
    }
  }

  lemma JobFieldsAre(obj: Object, f: Path)
    ensures f in JobFields(obj) <==> IsJobField(Obj(obj), f)
  {
    StripListIs(f);
    ManualIs(obj);
    UnderIs(TEMPLATE_LABELS, f);
    UnderIs(MATCH_LABELS, f);
  }

  /**
   * The Job that is left: nothing of the old server and controller, suspended unless something owns it or
   * it is marked as safe to run again, and everything beside that as it was.
   */
  ghost predicate JobPrepared(obj: Object, after: Json)
  {
    && (forall f: Path, rest: Path :: IsJobField(Obj(obj), f) ==> Lookup(after, f + rest) == None)
    && Lookup(after, ["spec", "suspend"]) ==
       (if HasOwners(Obj(obj)) || MarkedIdempotent(Obj(obj)) then Lookup(Obj(obj), ["spec", "suspend"])
        else Some(Bool(true)))
    && (forall q: Path ::
          Incomparable(["spec", "suspend"], q) && (forall f: Path :: IsJobField(Obj(obj), f) ==> Incomparable(f, q)) ==>
          Lookup(after, q) == Lookup(Obj(obj), q))
  }

  lemma FieldsPreparedIs(obj: Object, after: Json)
    requires FieldsPrepared(obj, after)
    ensures JobPrepared(obj, after)
  {
    forall f: Path ensures f in JobFields(obj) <==> IsJobField(Obj(obj), f) {
      JobFieldsAre(obj, f);
    }
    SuspendsIff(obj);
    assert SUSPEND == ["spec", "suspend"];
  }

  lemma JobExact(obj: Object, removals: seq<Operation>, suspend: seq<Operation>)
    requires StripOps(Obj(obj), JobFields(obj)) == Ok(removals) && SuspendStandaloneJob(obj) == Ok(suspend)
    ensures exists after :: ApplyAll(Obj(obj), removals + suspend) == Ok(after) && JobPrepared(obj, after)
  {
    var after := JobResult(obj, removals, suspend);
    FieldsPreparedIs(obj, after);
  }

  lemma JobResult(obj: Object, removals: seq<Operation>, suspend: seq<Operation>) returns (after: Json)
    requires StripOps(Obj(obj), JobFields(obj)) == Ok(removals) && SuspendStandaloneJob(obj) == Ok(suspend)
    ensures ApplyAll(Obj(obj), removals + suspend) == Ok(after) && FieldsPrepared(obj, after)
  {
    var fields := JobFields(obj);
    JobFieldsApart(obj);
    StripExact(Obj(obj), fields);
    var middle := ApplyAll(Obj(obj), removals).value;
    StaysObject(obj, middle, fields);
    ApplyAllAppend(Obj(obj), removals, suspend);
    UnchangedBeside(obj, middle, fields);
    after := SuspendDone(obj, middle, suspend);
    PreparedBy(obj, middle, after);
  }

  lemma UnchangedBeside(obj: Object, middle: Json, fields: seq<Path>)
    requires Stripped(Obj(obj), middle, fields) && forall f <- fields :: Beside(f)
    ensures Lookup(middle, SUSPEND) == Lookup(Obj(obj), SUSPEND)
  {
    forall f | f in fields ensures Incomparable(f, SUSPEND) {
      BesideIncomparable(f, []);
    }
    assert StrippedAt(Obj(obj), middle, fields, SUSPEND);
  }

  /** Whether or not there is an operation for it, the field ends up as it should. */
  lemma SuspendDone(obj: Object, middle: Json, suspend: seq<Operation>) returns (after: Json)
    requires SuspendStandaloneJob(obj) == Ok(suspend) && middle.Obj?
    requires Lookup(middle, SUSPEND) == Lookup(Obj(obj), SUSPEND)
    requires NestedField(Obj(obj), SUSPEND) != TypeError ==> NestedField(middle, SUSPEND) != TypeError
    ensures ApplyAll(middle, suspend) == Ok(after)
    ensures Lookup(after, SUSPEND) == if Suspends(obj) then Some(Bool(true)) else Lookup(Obj(obj), SUSPEND)
    ensures forall q: Path :: Incomparable(SUSPEND, q) ==> Lookup(after, q) == Lookup(middle, q)
  {
    if suspend == [] {
      if Suspends(obj) {
        KeptSuspend(obj);
      }
      after := middle;
    } else {
      var op := AddOp("/spec/suspend", Bool(true));
      assert suspend == [op] + [];
      ApplyAllHead(middle, op, []);
      SpecMemberText("spec", "suspend", "/spec/suspend");
      ResolveWritten(SUSPEND, Bool(true));
      NotArrayToken("suspend");
      AddMember(middle, SUSPEND, Bool(true));
      after := ApplyAt(middle, SUSPEND, Add(Bool(true))).value;
    }
  }

  /** The field is true afterwards unless something owns the Job or it is marked, and then it is as before. */
  lemma SuspendApplied(obj: Object, middle: Json, suspend: seq<Operation>) returns (after: Json)
    requires SuspendStandaloneJob(obj) == Ok(suspend) && middle.Obj?
    requires Lookup(middle, SUSPEND) == Lookup(Obj(obj), SUSPEND)
    requires NestedField(Obj(obj), SUSPEND) != TypeError ==> NestedField(middle, SUSPEND) != TypeError
    ensures ApplyAll(middle, suspend) == Ok(after)
    ensures Lookup(after, SUSPEND) ==
            if HasOwners(Obj(obj)) || MarkedIdempotent(Obj(obj)) then Lookup(Obj(obj), SUSPEND) else Some(Bool(true))
    ensures forall q: Path :: Incomparable(SUSPEND, q) ==> Lookup(after, q) == Lookup(middle, q)
  {
    after := SuspendDone(obj, middle, suspend);
    SuspendsIff(obj);
  }

  /** Without an operation of its own the field already has the value it should have. */
  lemma KeptSuspend(obj: Object)
    requires SuspendStandaloneJob(obj) == Ok([]) && Suspends(obj)
    ensures Lookup(Obj(obj), SUSPEND) == Some(Bool(true))
  {
    NestedIsLookup(Obj(obj), SUSPEND);
  }

  lemma NotArrayToken(token: string)
    requires token != "" && token[0] != '-' && token[0] != '+' && !Strconv.IsDigit(token[0])
    ensures !CreatesArray(token)
  {
    assert token[0] in token;
  }

  /** Adding a member of a member of an object, creating the member in between if need be. */
  lemma AddMember(doc: Json, p: Path, v: Json)
    requires doc.Obj? && |p| == 2 && NestedField(doc, p) != TypeError && !CreatesArray(p[1])
    ensures ApplyAt(doc, p, Add(v)).Ok?
    ensures Lookup(ApplyAt(doc, p, Add(v)).value, p) == Some(v)
    ensures forall q: Path :: Incomparable(p, q) ==> Lookup(ApplyAt(doc, p, Add(v)).value, q) == Lookup(doc, q)
  {
    var inner := MemberOrNull(doc.members, p[0]);
    assert p[1..] == [p[1]];
    assert inner.Obj? || inner.Null? by {
      assert p[0] in doc.members ==> NestedField(inner, p[1..]) != TypeError;
    }
    assert ApplyAt(Obj(map[]), p[1..], Add(v)).Ok?;
    assert p + [] == p;
    EffectAt(doc, p, Add(v), []);
    forall q: Path | Incomparable(p, q)
      ensures Lookup(ApplyAt(doc, p, Add(v)).value, q) == Lookup(doc, q)
    {
      FrameAt(doc, p, Add(v), q);
    }
  }

  // ----- the fields of a Job lie beside spec.suspend -----

  predicate Beside(f: Path)
  {
    |f| >= 1 && (f[0] != SUSPEND[0] || (|f| >= 2 && f[1] != SUSPEND[1]))
  }

  lemma BesideIncomparable(f: Path, rest: Path)
    requires Beside(f)
    ensures Incomparable(SUSPEND, f + rest) && Incomparable(SUSPEND, f) && Incomparable(f, SUSPEND)
  {
    var all := f + rest;
    assert all[0] == f[0] && (|f| >= 2 ==> all[1] == f[1]);
  }

  lemma StripFieldsBeside(member: string)
    requires member != "metadata" && member != "status"
    ensures forall f <- FIELDS_TO_STRIP :: f != [] && f[0] != member
  {
    var metadata, status := "metadata", "status";
    assert forall f <- FIELDS_TO_STRIP :: f != [] && (f[0] == metadata || f[0] == status);
  }

  lemma SpecIsBeside(spec: string)
    requires spec == "spec"
    ensures spec != "metadata" && spec != "status"
  {
    var metadata, status := "metadata", "status";
    assert metadata[0] == 'm' && status[1] == 't' && spec[0] == 's' && spec[1] == 'p';
  }

  lemma UidFieldsBeside(obj: Object)
    ensures forall f <- UidFields(obj) :: Beside(f)
  {
    var selector, template, suspend := "selector", "template", "suspend";
    assert selector[1] == 'e' && template[0] == 't' && suspend[0] == 's' && suspend[1] == 'u';
    var labels, matching := Under(TEMPLATE_LABELS, CONTROLLER_UID_KEYS), Under(MATCH_LABELS, CONTROLLER_UID_KEYS);
    assert TEMPLATE_LABELS[1] == template && MATCH_LABELS[1] == selector && SELECTOR[1] == selector;
    forall f | f in labels + matching + [SELECTOR] ensures |f| >= 2 && f[1] != suspend {
    }
  }

  lemma JobFieldsApart(obj: Object)
    ensures forall f <- JobFields(obj) :: f != [] && Beside(f)
  {
    SpecIsBeside("spec");
    StripFieldsBeside("spec");
    UidFieldsBeside(obj);
  }

  lemma PreparedBy(obj: Object, middle: Json, after: Json)
    requires Stripped(Obj(obj), middle, JobFields(obj))
    requires forall f <- JobFields(obj) :: Beside(f)
    requires Lookup(after, SUSPEND) == if Suspends(obj) then Some(Bool(true)) else Lookup(Obj(obj), SUSPEND)
    requires forall q: Path :: Incomparable(SUSPEND, q) ==> Lookup(after, q) == Lookup(middle, q)
    ensures FieldsPrepared(obj, after)
  {
    forall f, rest: Path | f in JobFields(obj) ensures Lookup(after, f + rest) == None {
      BesideIncomparable(f, rest);
      assert StrippedAt(Obj(obj), middle, JobFields(obj), f + rest) && Prefix(f, f + rest);
    }
    forall q: Path | Incomparable(SUSPEND, q) && (forall f <- JobFields(obj) :: Incomparable(f, q))
      ensures Lookup(after, q) == Lookup(Obj(obj), q)
    {
      assert StrippedAt(Obj(obj), middle, JobFields(obj), q);
    }
  }

  /** No label or annotation of the old controller is left, nor a selector the user did not write. */
  lemma NoControllerLeft(obj: Object, after: Json, k: string)
    requires JobPrepared(obj, after) && IsControllerUid(k)
    ensures Lookup(after, ["metadata", "labels", k]) == None
    ensures Lookup(after, ["metadata", "annotations", k]) == None
    ensures Lookup(after, TEMPLATE_LABELS + [k]) == None
    ensures Lookup(after, MATCH_LABELS + [k]) == None
    ensures !ManualSelector(Obj(obj)) ==> Lookup(after, SELECTOR) == None
  {
    Gone(obj, after, ["metadata", "labels", k], []);
    Gone(obj, after, ["metadata", "annotations", k], []);
    UidGone(obj, after, k);
  }

  lemma UidGone(obj: Object, after: Json, k: string)
    requires JobPrepared(obj, after) && IsControllerUid(k)
    ensures Lookup(after, TEMPLATE_LABELS + [k]) == None
    ensures Lookup(after, MATCH_LABELS + [k]) == None
    ensures !ManualSelector(Obj(obj)) ==> Lookup(after, SELECTOR) == None
  {
    assert (TEMPLATE_LABELS + [k])[..4] == TEMPLATE_LABELS && (MATCH_LABELS + [k])[..3] == MATCH_LABELS;
    Gone(obj, after, TEMPLATE_LABELS + [k], []);
    if ManualSelector(Obj(obj)) {
      Gone(obj, after, MATCH_LABELS + [k], []);
    } else {
      Gone(obj, after, SELECTOR, []);
      Gone(obj, after, SELECTOR, ["matchLabels", k]);
      assert SELECTOR + ["matchLabels", k] == MATCH_LABELS + [k];
    }
  }

  lemma Gone(obj: Object, after: Json, f: Path, rest: Path)
    requires JobPrepared(obj, after) && IsJobField(Obj(obj), f)
    ensures Lookup(after, f + rest) == None
    ensures rest == [] ==> Lookup(after, f) == None
  {
    assert f + [] == f;
  }
}
