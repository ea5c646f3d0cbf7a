/** The accessors of Kubernetes' `unstructured` package that the plugin reads resources with. */
module Unstructured {
  import opened Wrappers
  import opened Json
  import opened Patch

  datatype Nested = Found(v: Json) | NotFound | TypeError

  /** `NestedFieldNoCopy`: walks objects only; null counts as absent, anything else is a type error. */
  function NestedField(doc: Json, fields: Path): Nested
  {
    if fields == [] then Found(doc)
    else
      match doc
      case Obj(m) => if fields[0] in m then NestedField(m[fields[0]], fields[1..]) else NotFound
      case Null => NotFound
      case _ => TypeError
  }

  function NestedBool(doc: Json, fields: Path): Nested
  {
    var r := NestedField(doc, fields);
    if r.Found? && !r.v.Bool? then TypeError else r
  }

  function NestedString(doc: Json, fields: Path): Nested
  {
    var r := NestedField(doc, fields);
    if r.Found? && !r.v.Str? then TypeError else r
  }

  function NestedMap(doc: Json, fields: Path): Nested
  {
    var r := NestedField(doc, fields);
    if r.Found? && !r.v.Obj? then TypeError else r
  }

  function NestedSlice(doc: Json, fields: Path): Nested
  {
    var r := NestedField(doc, fields);
    if r.Found? && !r.v.Arr? then TypeError else r
  }

  /** `GetAnnotations`: null values read as "", any other value that is not a string voids them all. */
  function Annotations(obj: Object): map<string, string>
  {
    match NestedField(Obj(obj), ["metadata", "annotations"])
    case Found(Obj(m)) =>
      if forall k <- m :: m[k].Str? || m[k].Null?
      then map k | k in m :: if m[k].Str? then m[k].s else ""
      else map[]
    case _ => map[]
  }

  /** `len(GetOwnerReferences()) > 0`: a list all of whose entries are objects. */
  predicate Owned(obj: Object)
  {
    match NestedField(Obj(obj), ["metadata", "ownerReferences"])
    case Found(Arr(refs)) => refs != [] && forall r <- refs :: r.Obj?
    case _ => false
  }

  lemma {:induction false} NestedIsLookup(doc: Json, fields: Path)
    requires NestedField(doc, fields) != TypeError
    ensures Lookup(doc, fields) == match NestedField(doc, fields) case Found(v) => Some(v) case _ => None
  {
    if fields != [] && doc.Obj? && fields[0] in doc.members {
      NestedIsLookup(doc.members[fields[0]], fields[1..]);
    }
  }

  /** Where no token is a list index, a field is found exactly when the path leads to it. */
  lemma {:induction false} FoundIsLookup(doc: Json, fields: Path)
    requires forall t <- fields :: !IsIndex(t)
    ensures match Lookup(doc, fields)
            case Some(v) => NestedField(doc, fields) == Found(v)
            case None => !NestedField(doc, fields).Found?
  {
    if fields != [] {
      assert !IsIndex(fields[0]);
      if Child(doc, fields[0]).Some? {
        FoundIsLookup(doc.members[fields[0]], fields[1..]);
      }
    }
  }

  /** Every value on the way that there is, is an object or null. */
  predicate Walkable(doc: Json, fields: Path)
  {
    forall n :: 0 <= n < |fields| && Lookup(doc, fields[..n]).Some? ==>
      Lookup(doc, fields[..n]).value.Obj? || Lookup(doc, fields[..n]).value.Null?
  }

  lemma {:induction false} WalkIff(doc: Json, fields: Path)
    requires forall t <- fields :: !IsIndex(t)
    ensures NestedField(doc, fields) != TypeError <==> Walkable(doc, fields)
  {
    if fields != [] {
      assert !IsIndex(fields[0]);
      assert Lookup(doc, fields[..0]) == Some(doc);
      forall n | 0 < n < |fields|
        ensures Lookup(doc, fields[..n]) ==
                match Child(doc, fields[0]) case Some(child) => Lookup(child, fields[1..][..n - 1]) case None => None
      {
        assert fields[..n][1..] == fields[1..][..n - 1];
      }
      if Child(doc, fields[0]).Some? {
        var child := Child(doc, fields[0]).value;
        WalkIff(child, fields[1..]);
        assert Walkable(doc, fields) ==> Walkable(child, fields[1..]) by {
          forall n | 0 <= n < |fields| - 1 && Walkable(doc, fields) && Lookup(child, fields[1..][..n]).Some?
            ensures Lookup(child, fields[1..][..n]).value.Obj? || Lookup(child, fields[1..][..n]).value.Null?
          {
            assert Lookup(doc, fields[..n + 1]) == Lookup(child, fields[1..][..n]);
          }
        }
      }
    }
  }

  predicate ReadsBool(doc: Json, fields: Path)
  {
    Walkable(doc, fields) && (Lookup(doc, fields) == None || Lookup(doc, fields).value.Bool?)
  }

  predicate ReadsString(doc: Json, fields: Path)
  {
    Walkable(doc, fields) && (Lookup(doc, fields) == None || Lookup(doc, fields).value.Str?)
  }

  predicate ReadsMap(doc: Json, fields: Path)
  {
    Walkable(doc, fields) && (Lookup(doc, fields) == None || Lookup(doc, fields).value.Obj?)
  }

  predicate ReadsSlice(doc: Json, fields: Path)
  {
    Walkable(doc, fields) && (Lookup(doc, fields) == None || Lookup(doc, fields).value.Arr?)
  }

  /** Which reads are type errors: a value on the way that is no object, or one of another type at the end. */
  lemma TypeErrorIff(doc: Json, fields: Path)
    requires forall t <- fields :: !IsIndex(t)
    ensures NestedBool(doc, fields) != TypeError <==> ReadsBool(doc, fields)
    ensures NestedString(doc, fields) != TypeError <==> ReadsString(doc, fields)
    ensures NestedMap(doc, fields) != TypeError <==> ReadsMap(doc, fields)
    ensures NestedSlice(doc, fields) != TypeError <==> ReadsSlice(doc, fields)
  {
    WalkIff(doc, fields);
    FoundIsLookup(doc, fields);
  }

  lemma {:induction false} NestedIsSafe(doc: Json, fields: Path)
    requires NestedField(doc, fields) != TypeError && fields != []
    ensures Safe(doc, fields, Remove)
    decreases |fields|
  {
    if doc.Obj? && |fields| > 1 && fields[0] in doc.members {
      NestedIsSafe(doc.members[fields[0]], fields[1..]);
    }
  }

  /** Removing any field keeps every other walk free of type errors. */
  lemma {:induction false} RemoveKeepsTypes(doc: Json, removed: Path, fields: Path)
    requires NestedField(doc, fields) != TypeError
    requires NestedField(doc, removed) != TypeError && removed != []
    ensures ApplyAt(doc, removed, Remove).Ok?
    ensures NestedField(ApplyAt(doc, removed, Remove).value, fields) != TypeError
    decreases |removed|
  {
    NestedIsSafe(doc, removed);
    RemoveSucceeds(doc, removed);
    if fields != [] && doc.Obj? && |removed| > 1 && removed[0] in doc.members && fields[0] == removed[0] {
      RemoveKeepsTypes(doc.members[removed[0]], removed[1..], fields[1..]);
    }
  }

  /** Above a removed field, objects stay objects and everything else stays what it is. */
  ghost predicate Agree(before: Option<Json>, after: Option<Json>)
  {
    before == after || (before.Some? && after.Some? && before.value.Obj? && after.value.Obj?)
  }

  lemma {:induction false} RemoveKeepsShape(doc: Json, removed: Path, above: Path)
    requires NestedField(doc, removed) != TypeError && |above| < |removed| && Prefix(above, removed)
    ensures ApplyAt(doc, removed, Remove).Ok?
    ensures Agree(Lookup(doc, above), Lookup(ApplyAt(doc, removed, Remove).value, above))
    decreases |removed|
  {
    NestedIsSafe(doc, removed);
    RemoveSucceeds(doc, removed);
    if above != [] && doc.Obj? {
      PrefixStep(above, removed);
      if removed[0] in doc.members {
        RemoveKeepsShape(doc.members[removed[0]], removed[1..], above[1..]);
      }
    }
  }
}
