/** Exactly when the order of two operations shows although one works inside the value the other names. */
module NestedOrder {
  import opened Wrappers
  import opened Json
  import opened Patch
  import opened PatchOrder
  import opened Outcomes

  lemma TwiceMember(m: Object, t: string, x: Json, y: Json)
    ensures m[t := x][t := y] == m[t := y]
  {
  }

  lemma TwiceElement(xs: seq<Json>, i: nat, x: Json, y: Json)
    requires i < |xs|
    ensures xs[i := x][i := y] == xs[i := y]
  {
  }

  // ----- values in place -----

  /** The document with the value at an existing path replaced. */
  function PutAt(doc: Json, path: Path, v: Json): Json
    requires Lookup(doc, path).Some?
  {
    if path == [] then v
    else
      match doc
      case Obj(m) => Obj(m[path[0] := PutAt(m[path[0]], path[1..], v)])
      case Arr(xs) =>
        var i := ArrayIndex(path[0], |xs|).value;
        Arr(xs[i := PutAt(xs[i], path[1..], v)])
  }

  lemma {:induction false} PutAtLaws(doc: Json, path: Path, v: Json, w: Json)
    requires Lookup(doc, path).Some?
    ensures Lookup(PutAt(doc, path, v), path) == Some(v)
    ensures PutAt(PutAt(doc, path, v), path, w) == PutAt(doc, path, w)
    ensures ApplyAt(doc, path, Replace(v)) == Ok(PutAt(doc, path, v))
    decreases |path|
  {
    if path != [] {
      assert |path| == 1 ==> path[1..] == [];
      match doc
      case Obj(m) =>
        PutAtLaws(m[path[0]], path[1..], v, w);
        TwiceMember(m, path[0], PutAt(m[path[0]], path[1..], v), PutAt(m[path[0]], path[1..], w));
      case Arr(xs) =>
        var i := ArrayIndex(path[0], |xs|).value;
        PutAtLaws(xs[i], path[1..], v, w);
        TwiceElement(xs, i, PutAt(xs[i], path[1..], v), PutAt(xs[i], path[1..], w));
    }
  }

  lemma PutAtInjective(doc: Json, path: Path, v: Json, w: Json)
    requires Lookup(doc, path).Some?
    ensures PutAt(doc, path, v) == PutAt(doc, path, w) <==> v == w
  {
    PutAtLaws(doc, path, v, w);
    PutAtLaws(doc, path, w, v);
  }

  /** Working inside an existing value changes that value and nothing else. */
  lemma {:induction false} Within(doc: Json, path: Path, r: Path, b: Action)
    requires Lookup(doc, path).Some? && r != []
    ensures ApplyAt(doc, path + r, b) ==
            match ApplyAt(Lookup(doc, path).value, r, b) case Err => Err case Ok(w) => Ok(PutAt(doc, path, w))
    decreases |path|
  {
    if path == [] {
      assert path + r == r;
    } else {
      assert (path + r)[1..] == path[1..] + r && (path + r)[0] == path[0];
      match doc
      case Obj(m) => Within(m[path[0]], path[1..], r, b);
      case Arr(xs) => Within(xs[ArrayIndex(path[0], |xs|).value], path[1..], r, b);
    }
  }

  // ----- the outer operation replaces -----

  /** An add that succeeds leaves a value at every path above its own. */
  lemma {:induction false} AddReaches(doc: Json, path: Path, r: Path, w: Json)
    requires r != [] && ApplyAt(doc, path + r, Add(w)).Ok?
    ensures Lookup(ApplyAt(doc, path + r, Add(w)).value, path).Some?
    decreases |path|, if doc.Null? then 1 else 0
  {
    if path != [] {
      assert (path + r)[1..] == path[1..] + r && (path + r)[0] == path[0];
      match doc
      case Obj(m) => AddReaches(MemberOrNull(m, path[0]), path[1..], r, w);
      case Arr(xs) => AddReaches(xs[ArrayIndex(path[0], |xs|).value], path[1..], r, w);
      case Null => AddReaches(Obj(map[]), path, r, w);
    }
  }

  lemma NothingBelow(doc: Json, path: Path, r: Path, b: Action)
    requires r != [] && Lookup(doc, path) == None && !b.Add?
    ensures ApplyAt(doc, path + r, b) == if b.Remove? then Ok(doc) else Err
  {
    LookupSplit(doc, path, r);
    FailsIff(doc, path + r, b);
    SettlesIff(doc, path + r, b);
    var above := (path + r)[..|path + r| - 1];
    assert above == path + r[..|r| - 1];
    LookupSplit(doc, path, r[..|r| - 1]);
  }

  /** The inner operation fails on the old and on the new value, or works on the old one and keeps the new one. */
  ghost predicate InnerHidden(was: Json, v: Json, r: Path, b: Action)
    requires r != []
  {
    if Refused(was, r, b) then Refused(v, r, b) else Settles(v, r, b)
  }

  /** A replacement of any value, list elements included, next to an operation inside that value. */
  lemma NestedReplaceIff(doc: Json, p: Path, v: Json, r: Path, b: Action)
    requires p != [] && r != []
    ensures Then(ApplyAt(doc, p, Replace(v)), p + r, b) == Then(ApplyAt(doc, p + r, b), p, Replace(v)) <==>
            match Lookup(doc, p)
            case Some(was) => InnerHidden(was, v, r, b)
            case None => b.Add? ==> Refused(doc, p + r, b)
  {
    FailsIff(doc, p + r, b);
    match Lookup(doc, p)
    case Some(was) => ReplaceInPlace(doc, p, v, r, b);
    case None =>
      ReplaceFailsIff(doc, p, v);
      if !b.Add? {
        NothingBelow(doc, p, r, b);
      } else if ApplyAt(doc, p + r, b).Ok? {
        AddReaches(doc, p, r, b.value);
        ReplaceFailsIff(ApplyAt(doc, p + r, b).value, p, v);
      }
  }

  lemma ReplaceInPlace(doc: Json, p: Path, v: Json, r: Path, b: Action)
    requires p != [] && r != [] && Lookup(doc, p).Some?
    ensures Then(ApplyAt(doc, p, Replace(v)), p + r, b) == Then(ApplyAt(doc, p + r, b), p, Replace(v)) <==>
            InnerHidden(Lookup(doc, p).value, v, r, b)
  {
    var was := Lookup(doc, p).value;
    var inOld, inNew := ApplyAt(was, r, b), ApplyAt(v, r, b);
    FailsIff(was, r, b);
    FailsIff(v, r, b);
    SettlesIff(v, r, b);
    PutAtLaws(doc, p, v, inNew.GetOr(v));
    Within(doc, p, r, b);
    Within(PutAt(doc, p, v), p, r, b);
    if inOld.Ok? {
      PutAtLaws(doc, p, inOld.value, v);
      PutAtLaws(PutAt(doc, p, inOld.value), p, v, v);
      PutAtInjective(doc, p, inNew.GetOr(v), v);
    }
  }

  // ----- the outer operation adds -----

  /** The last token of the path names no element of an existing list. */
  predicate OffList(doc: Json, p: Path)
  {
    p != [] && !InList(doc, p)
  }

  /** Off lists, an add that succeeds leaves its value at the path. */
  lemma {:induction false} AddEffect(doc: Json, p: Path, v: Json)
    requires OffList(doc, p) && ApplyAt(doc, p, Add(v)).Ok?
    ensures var after := ApplyAt(doc, p, Add(v)).value; Lookup(after, p) == Some(v) && OffList(after, p)
    decreases |p|, if doc.Null? then 1 else 0
  {
    var after := ApplyAt(doc, p, Add(v)).value;
    if |p| == 1 {
      assert p[..0] == [] && p[1..] == [];
      if doc.Null? {
        AddEffect(Obj(map[]), p, v);
      }
    } else {
      InListBelow(doc, p);
      InListBelow(after, p);
      match doc
      case Obj(m) => AddEffect(MemberOrNull(m, p[0]), p[1..], v);
      case Arr(xs) => AddEffect(xs[ArrayIndex(p[0], |xs|).value], p[1..], v);
      case Null =>
        InListBelow(Obj(map[]), p);
        AddEffect(Obj(map[]), p, v);
    }
  }

  /** Writing a value makes everything done inside the old one irrelevant. */
  lemma {:induction false} Overwritten(doc: Json, p: Path, v: Json, r: Path, b: Action)
    requires OffList(doc, p) && (r == [] ==> b.Add?) && ApplyAt(doc, p + r, b).Ok?
    ensures ApplyAt(ApplyAt(doc, p + r, b).value, p, Add(v)) == ApplyAt(doc, p, Add(v))
    decreases |p|, if doc.Null? then 1 else 0
  {
    assert (p + r)[1..] == p[1..] + r && (p + r)[0] == p[0];
    if |p| == 1 {
      assert p[..0] == [];
    } else {
      InListBelow(doc, p);
    }
    match doc
    case Obj(m) =>
      if p[0] in m || !b.Remove? {
        var c := MemberOrNull(m, p[0]);
        if |p| == 1 {
          TwiceMember(m, p[0], ApplyAt(doc, p + r, b).value.members[p[0]], v);
        } else {
          Overwritten(c, p[1..], v, r, b);
          TwiceMember(m, p[0], ApplyAt(c, p[1..] + r, b).value, ApplyAt(c, p[1..], Add(v)).GetOr(Null));
        }
      }
    case Arr(xs) =>
      var i := ArrayIndex(p[0], |xs|);
      if i.Some? {
        Overwritten(xs[i.value], p[1..], v, r, b);
        TwiceElement(xs, i.value, ApplyAt(xs[i.value], p[1..] + r, b).value,
                     ApplyAt(xs[i.value], p[1..], Add(v)).GetOr(Null));
      }
    case Null =>
      if b.Add? {
        EmptyOffList(p);
        Overwritten(Obj(map[]), p, v, r, b);
      }
    case _ =>
  }

  lemma EmptyOffList(p: Path)
    requires p != []
    ensures OffList(Obj(map[]), p) && OffList(Null, p)
  {
    if |p| == 1 {
      assert p[..0] == [];
    } else {
      InListBelow(Obj(map[]), p);
      InListBelow(Null, p);
    }
  }

  /** The document with a value added, once more operated on inside that value. */
  lemma InsideAdded(doc: Json, p: Path, v: Json, r: Path, b: Action)
    requires OffList(doc, p) && r != [] && ApplyAt(doc, p, Add(v)).Ok?
    ensures var after := ApplyAt(doc, p, Add(v)).value;
            && (ApplyAt(after, p + r, b).Err? <==> Refused(v, r, b))
            && (ApplyAt(after, p + r, b) == Ok(after) <==> Settles(v, r, b))
  {
    var after := ApplyAt(doc, p, Add(v)).value;
    AddEffect(doc, p, v);
    Within(after, p, r, b);
    FailsIff(v, r, b);
    SettlesIff(v, r, b);
    PutItself(after, p);
    PutAtInjective(after, p, ApplyAt(v, r, b).GetOr(v), v);
  }

  lemma {:induction false} PutItself(doc: Json, path: Path)
    requires Lookup(doc, path).Some?
    ensures PutAt(doc, path, Lookup(doc, path).value) == doc
    decreases |path|
  {
    if path != [] {
      match doc
      case Obj(m) =>
        PutItself(m[path[0]], path[1..]);
        assert m[path[0] := m[path[0]]] == m;
      case Arr(xs) =>
        var i := ArrayIndex(path[0], |xs|).value;
        PutItself(xs[i], path[1..]);
        assert xs[i := xs[i]] == xs;
    }
  }

  /**
   * An add next to an operation inside the value it adds: the order does not show exactly when the add
   * fails anyway, or the inner operation fails on both the old and the new value, or it works on the old
   * one and changes nothing in the new one.
   */
  lemma NestedAddIff(doc: Json, p: Path, v: Json, r: Path, b: Action)
    requires OffList(doc, p) && r != []
    ensures Then(ApplyAt(doc, p, Add(v)), p + r, b) == Then(ApplyAt(doc, p + r, b), p, Add(v)) <==>
            || Refused(doc, p, Add(v))
            || (if Refused(doc, p + r, b) then Refused(v, r, b) else Settles(v, r, b))
  {
    FailsIff(doc, p, Add(v));
    FailsIff(doc, p + r, b);
    if ApplyAt(doc, p + r, b).Ok? {
      Overwritten(doc, p, v, r, b);
    }
    if ApplyAt(doc, p, Add(v)).Ok? {
      InsideAdded(doc, p, v, r, b);
    }
  }

  // ----- the outer operation removes -----

  /** Off lists, a removal always succeeds and leaves nothing at the path. */
  lemma {:induction false} RemoveEffect(doc: Json, p: Path)
    requires OffList(doc, p)
    ensures ApplyAt(doc, p, Remove).Ok?
    ensures Lookup(ApplyAt(doc, p, Remove).value, p) == None && OffList(ApplyAt(doc, p, Remove).value, p)
    decreases |p|
  {
    FailsIff(doc, p, Remove);
    var after := ApplyAt(doc, p, Remove).value;
    if |p| == 1 {
      assert p[..0] == [];
    } else {
      InListBelow(doc, p);
      InListBelow(after, p);
      match doc
      case Obj(m) =>
        if p[0] in m {
          RemoveEffect(m[p[0]], p[1..]);
        }
      case Arr(xs) =>
        if ArrayIndex(p[0], |xs|).Some? {
          RemoveEffect(xs[ArrayIndex(p[0], |xs|).value], p[1..]);
        }
      case _ =>
    }
  }

  /** Once the value is gone, what was done inside it before is gone too. */
  lemma {:induction false} RemovedAfterInner(doc: Json, p: Path, r: Path, b: Action)
    requires OffList(doc, p) && (r == [] ==> b.Add?) && ApplyAt(doc, p + r, b).Ok?
    ensures var after := ApplyAt(ApplyAt(doc, p + r, b).value, p, Remove);
            after.Ok? && Lookup(after.value, p) == None
    ensures !b.Add? ==> ApplyAt(ApplyAt(doc, p + r, b).value, p, Remove) == ApplyAt(doc, p, Remove)
    decreases |p|, if doc.Null? then 1 else 0
  {
    assert (p + r)[1..] == p[1..] + r && (p + r)[0] == p[0];
    if |p| == 1 {
      assert p[..0] == [];
    } else {
      InListBelow(doc, p);
    }
    match doc
    case Obj(m) =>
      if p[0] in m || !b.Remove? {
        if |p| == 1 {
          assert m[p[0] := ApplyAt(doc, p + r, b).value.members[p[0]]] - {p[0]} == m - {p[0]};
        } else {
          var c := MemberOrNull(m, p[0]);
          var inner := ApplyAt(c, p[1..] + r, b).value;
          RemovedAfterInner(c, p[1..], r, b);
          TwiceMember(m, p[0], inner, ApplyAt(inner, p[1..], Remove).value);
        }
      } else {
        assert m - {p[0]} == m;
      }
    case Arr(xs) =>
      var i := ArrayIndex(p[0], |xs|);
      if i.Some? {
        RemovedAfterInner(xs[i.value], p[1..], r, b);
        var inner := ApplyAt(xs[i.value], p[1..] + r, b).value;
        TwiceElement(xs, i.value, inner, ApplyAt(inner, p[1..], Remove).value);
      }
    case Null =>
      if b.Add? {
        EmptyOffList(p);
        RemovedAfterInner(Obj(map[]), p, r, b);
      }
    case _ =>
  }

  /** Once the value is gone, an add inside it has to get to the path and build everything below it. */
  lemma {:induction false} AddAfterRemoval(doc: Json, p: Path, r: Path, w: Json)
    requires OffList(doc, p)
    ensures ApplyAt(doc, p, Remove).Ok?
    ensures ApplyAt(ApplyAt(doc, p, Remove).value, p + r, Add(w)).Err? <==>
            ApplyAt(doc, p, Add(w)).Err? || NeedsList(r)
    decreases |p|
  {
    RemoveEffect(doc, p);
    assert (p + r)[1..] == p[1..] + r && (p + r)[0] == p[0];
    if |p| == 1 {
      assert p[..0] == [];
    } else {
      InListBelow(doc, p);
    }
    match doc
    case Obj(m) =>
      if |p| == 1 {
        assert p[1..] + r == r;
        if r != [] {
          CreateFailsIff(r, w);
        }
      } else {
        var c := MemberOrNull(m, p[0]);
        if p[0] in m {
          AddAfterRemoval(c, p[1..], r, w);
        } else {
          CreateFailsIff(p[1..] + r, w);
          CreateFailsIff(p[1..], w);
          NeedsEither(p[1..], r);
        }
      }
    case Arr(xs) =>
      if ArrayIndex(p[0], |xs|).Some? {
        AddAfterRemoval(xs[ArrayIndex(p[0], |xs|).value], p[1..], r, w);
      }
    case Null =>
      CreateFailsIff(p + r, w);
      CreateFailsIff(p, w);
      NeedsEither(p, r);
    case _ =>
  }

  lemma NeedsEither(p: Path, r: Path)
    ensures NeedsList(p + r) <==> NeedsList(p) || NeedsList(r)
  {
    assert forall t <- p :: t in p + r;
    assert forall t <- r :: t in p + r;
  }

  /**
   * A removal next to an operation inside what it removes.  Another removal shows exactly when it fails,
   * a replacement exactly when it finds something, and an add unless it fails in both orders.
   */
  lemma NestedRemoveIff(doc: Json, p: Path, r: Path, b: Action)
    requires OffList(doc, p) && r != []
    ensures Then(ApplyAt(doc, p, Remove), p + r, b) == Then(ApplyAt(doc, p + r, b), p, Remove) <==>
            match b
            case Remove => !Refused(doc, p + r, b)
            case Replace(_) => Refused(doc, p + r, b)
            case Add(_) => Refused(doc, p + r, b) && (Refused(doc, p, b) || NeedsList(r))
  {
    RemoveEffect(doc, p);
    FailsIff(doc, p + r, b);
    var gone := ApplyAt(doc, p, Remove).value;
    if ApplyAt(doc, p + r, b).Ok? {
      RemovedAfterInner(doc, p, r, b);
    }
    if b.Add? {
      AddAfterRemoval(doc, p, r, b.value);
      FailsIff(doc, p, b);
      if ApplyAt(gone, p + r, b).Ok? {
        AddReaches(gone, p, r, b.value);
      }
    } else {
      NothingBelow(gone, p, r, b);
    }
  }

  // ----- all of them -----

  /** When the order of an operation and one inside its value does not show, by what can be looked up. */
  ghost predicate NestedHidden(doc: Json, p: Path, a: Action, r: Path, b: Action)
    requires p != [] && r != []
  {
    match a
    case Add(v) => Refused(doc, p, a) || if Refused(doc, p + r, b) then Refused(v, r, b) else Settles(v, r, b)
    case Replace(v) =>
      (match Lookup(doc, p)
       case Some(was) => InnerHidden(was, v, r, b)
       case None => b.Add? ==> Refused(doc, p + r, b))
    case Remove =>
      (match b
       case Remove => !Refused(doc, p + r, b)
       case Replace(_) => Refused(doc, p + r, b)
       case Add(_) => Refused(doc, p + r, b) && (Refused(doc, p, b) || NeedsList(r)))
  }

  /** Whatever the two operations are, as long as the outer one is not at an element of a list. */
  lemma NestedOrderIff(doc: Json, p: Path, a: Action, r: Path, b: Action)
    requires OffList(doc, p) && r != []
    ensures Then(ApplyAt(doc, p, a), p + r, b) == Then(ApplyAt(doc, p + r, b), p, a) <==> NestedHidden(doc, p, a, r, b)
  {
    match a
    case Add(v) => NestedAddIff(doc, p, v, r, b);
    case Replace(v) => NestedReplaceIff(doc, p, v, r, b);
    case Remove => NestedRemoveIff(doc, p, r, b);
  }

  // ----- two operations at the very same place -----

  /** Replacing a value that is there is adding it. */
  lemma {:induction false} ReplaceIsAdd(doc: Json, p: Path, v: Json)
    requires OffList(doc, p) && Lookup(doc, p).Some?
    ensures ApplyAt(doc, p, Replace(v)) == ApplyAt(doc, p, Add(v))
    decreases |p|
  {
    if |p| == 1 {
      assert p[..0] == [];
    } else {
      InListBelow(doc, p);
      match doc
      case Obj(m) => ReplaceIsAdd(m[p[0]], p[1..], v);
      case Arr(xs) => ReplaceIsAdd(xs[ArrayIndex(p[0], |xs|).value], p[1..], v);
    }
  }

  lemma AddsFailAlike(doc: Json, p: Path, v: Json, w: Json)
    requires p != []
    ensures ApplyAt(doc, p, Add(v)).Err? <==> ApplyAt(doc, p, Add(w)).Err?
  {
    AddFailsIff(doc, p, v);
    AddFailsIff(doc, p, w);
  }

  /** After an add, adding and replacing there come to the same. */
  lemma AddedTwice(doc: Json, p: Path, v: Json, w: Json)
    requires OffList(doc, p) && ApplyAt(doc, p, Add(v)).Ok?
    ensures var after := ApplyAt(doc, p, Add(v)).value;
            && ApplyAt(after, p, Add(w)) == ApplyAt(doc, p, Add(w)) == ApplyAt(after, p, Replace(w))
            && ApplyAt(doc, p, Add(w)).Ok? && Lookup(ApplyAt(doc, p, Add(w)).value, p) == Some(w)
  {
    assert p + [] == p;
    AddsFailAlike(doc, p, v, w);
    Overwritten(doc, p, w, [], Add(v));
    AddEffect(doc, p, v);
    AddEffect(doc, p, w);
    ReplaceIsAdd(ApplyAt(doc, p, Add(v)).value, p, w);
  }

  lemma AddAndRemove(doc: Json, p: Path, v: Json)
    requires OffList(doc, p)
    ensures Then(ApplyAt(doc, p, Add(v)), p, Remove) == Then(ApplyAt(doc, p, Remove), p, Add(v)) <==>
            ApplyAt(doc, p, Add(v)).Err?
  {
    assert p + [] == p;
    RemoveEffect(doc, p);
    AddAfterRemoval(doc, p, [], v);
    if ApplyAt(doc, p, Add(v)).Ok? {
      RemovedAfterInner(doc, p, [], Add(v));
      AddEffect(ApplyAt(doc, p, Remove).value, p, v);
    }
  }

  lemma ReplaceAndRemove(doc: Json, p: Path, v: Json)
    requires OffList(doc, p)
    ensures Then(ApplyAt(doc, p, Replace(v)), p, Remove) == Then(ApplyAt(doc, p, Remove), p, Replace(v)) <==>
            Lookup(doc, p) == None
  {
    assert p + [] == p;
    RemoveEffect(doc, p);
    ReplaceFailsIff(doc, p, v);
    ReplaceFailsIff(ApplyAt(doc, p, Remove).value, p, v);
    if Lookup(doc, p).Some? {
      ReplaceIsAdd(doc, p, v);
      RemovedAfterInner(doc, p, [], Add(v));
    }
  }

  lemma AddAndReplace(doc: Json, p: Path, v: Json, w: Json)
    requires OffList(doc, p)
    ensures Then(ApplyAt(doc, p, Add(v)), p, Replace(w)) == Then(ApplyAt(doc, p, Replace(w)), p, Add(v)) <==>
            ApplyAt(doc, p, Add(v)).Err? || (Lookup(doc, p).Some? && v == w)
  {
    AddsFailAlike(doc, p, v, w);
    ReplaceFailsIff(doc, p, w);
    if ApplyAt(doc, p, Add(v)).Ok? {
      AddedTwice(doc, p, v, w);
      AddedTwice(doc, p, w, v);
    }
    if Lookup(doc, p).Some? {
      ReplaceIsAdd(doc, p, w);
    }
  }

  /** When the order of two operations at the same place, which is no list element, does not show. */
  ghost predicate SamePlaceHidden(doc: Json, p: Path, a: Action, b: Action)
    requires p != []
  {
    match (a, b)
    case (Remove, Remove) => true
    case (Add(v), Add(w)) => Refused(doc, p, a) || v == w
    case (Add(v), Replace(w)) => Refused(doc, p, a) || (Lookup(doc, p).Some? && v == w)
    case (Replace(w), Add(v)) => Refused(doc, p, b) || (Lookup(doc, p).Some? && v == w)
    case (Replace(v), Replace(w)) => Lookup(doc, p) == None || v == w
    case (Add(_), Remove) => Refused(doc, p, a)
    case (Remove, Add(_)) => Refused(doc, p, b)
    case (_, _) => Lookup(doc, p) == None
  }

  /**
   * Two pointers can name one place by different texts when an escape in them is neither "~0" nor "~1",
   * and then conflict resolution keeps both operations.
   */
  lemma SamePlaceIff(doc: Json, p: Path, a: Action, b: Action)
    requires OffList(doc, p)
    ensures Then(ApplyAt(doc, p, a), p, b) == Then(ApplyAt(doc, p, b), p, a) <==> SamePlaceHidden(doc, p, a, b)
  {
    FailsIff(doc, p, a);
    FailsIff(doc, p, b);
    match (a, b)
    case (Remove, Remove) =>
    case (Add(v), Add(w)) =>
      AddsFailAlike(doc, p, v, w);
      if ApplyAt(doc, p, a).Ok? {
        AddedTwice(doc, p, v, w);
        AddedTwice(doc, p, w, v);
      }
    case (Add(v), Replace(w)) => AddAndReplace(doc, p, v, w);
    case (Replace(w), Add(v)) => AddAndReplace(doc, p, v, w);
    case (Replace(v), Replace(w)) =>
      if Lookup(doc, p).Some? {
        PutAtLaws(doc, p, v, w);
        PutAtLaws(doc, p, w, v);
        PutAtLaws(PutAt(doc, p, v), p, w, w);
        PutAtLaws(PutAt(doc, p, w), p, v, v);
        PutAtInjective(doc, p, v, w);
      }
    case (Add(v), Remove) => AddAndRemove(doc, p, v);
    case (Remove, Add(v)) => AddAndRemove(doc, p, v);
    case (Replace(v), Remove) => ReplaceAndRemove(doc, p, v);
    case (Remove, Replace(v)) => ReplaceAndRemove(doc, p, v);
  }
}
