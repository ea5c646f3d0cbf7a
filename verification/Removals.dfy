/** Patches that remove the fields of a resource that are there. */
module Removals {
  import opened Wrappers
  import opened Json
  import opened Patch
  import opened Unstructured
  import Pointer

  /** Look up the fields one after the other; a type error stops, a field that is there is to be removed. */
  function StripOps(doc: Json, fields: seq<Path>): Result<seq<Operation>>
  {
    if fields == [] then Ok([])
    else
      var n := |fields| - 1;
      var before :- StripOps(doc, fields[..n]);
      match NestedField(doc, fields[n])
      case TypeError => Err
      case NotFound => Ok(before)
      case Found(_) => Ok(before + [RemoveOp(Pointer.Write(fields[n]))])
  }

  lemma StripOpsOne(doc: Json, f: Path)
    ensures StripOps(doc, [f]) ==
            match NestedField(doc, f)
            case TypeError => Err
            case NotFound => Ok([])
            case Found(_) => Ok([RemoveOp(Pointer.Write(f))])
  {
    assert [f][..0] == [];
    assert StripOps(doc, [f][..0]) == Ok([]);
    assert [] + [RemoveOp(Pointer.Write(f))] == [RemoveOp(Pointer.Write(f))];
  }

  lemma {:induction false} StripOpsAppend(doc: Json, xs: seq<Path>, ys: seq<Path>)
    ensures StripOps(doc, xs + ys) ==
            if StripOps(doc, xs).Ok? && StripOps(doc, ys).Ok?
            then Ok(StripOps(doc, xs).value + StripOps(doc, ys).value) else Err
    decreases |ys|
  {
    if ys == [] {
      assert xs + ys == xs;
      var a := StripOps(doc, xs);
      assert a.Ok? ==> a.value + [] == a.value;
    } else {
      var n := |ys| - 1;
      StripOpsAppend(doc, xs, ys[..n]);
      var all := xs + ys;
      assert all[..|all| - 1] == xs + ys[..n] && all[|all| - 1] == ys[n];
      var a, b := StripOps(doc, xs), StripOps(doc, ys[..n]);
      var last := [RemoveOp(Pointer.Write(ys[n]))];
      if a.Ok? && b.Ok? {
        assert a.value + b.value + last == a.value + (b.value + last);
      }
    }
  }

  /** Below the removed fields there is nothing, beside them nothing changes, above them shapes stay. */
  ghost predicate Stripped(doc: Json, after: Json, fields: seq<Path>)
  {
    forall q: Path :: StrippedAt(doc, after, fields, q)
  }

  ghost predicate StrippedAt(doc: Json, after: Json, fields: seq<Path>, q: Path)
  {
    if exists f <- fields :: Prefix(f, q) then Lookup(after, q) == None
    else if forall f <- fields :: Incomparable(f, q) then Lookup(after, q) == Lookup(doc, q)
    else Agree(Lookup(doc, q), Lookup(after, q))
  }

  predicate Typed(doc: Json, fields: seq<Path>)
  {
    forall f <- fields :: f != [] && NestedField(doc, f) != TypeError
  }

  lemma StripOne(doc: Json, f: Path)
    requires f != [] && NestedField(doc, f) != TypeError
    ensures ApplyAt(doc, f, Remove).Ok?
    ensures Stripped(doc, ApplyAt(doc, f, Remove).value, [f])
  {
    NestedIsSafe(doc, f);
    RemoveSucceeds(doc, f);
    var after := ApplyAt(doc, f, Remove).value;
    forall q: Path ensures StrippedAt(doc, after, [f], q) {
      assert f in [f];
      if Prefix(f, q) {
        assert f + q[|f|..] == q;
        EffectAt(doc, f, Remove, q[|f|..]);
      } else if Prefix(q, f) {
        RemoveKeepsShape(doc, f, q);
      } else {
        FrameAt(doc, f, Remove, q);
      }
    }
  }

  lemma StrippedCompose(doc: Json, middle: Json, after: Json, f: Path, rest: seq<Path>)
    requires Stripped(doc, middle, [f]) && Stripped(middle, after, rest)
    ensures Stripped(doc, after, [f] + rest)
  {
    forall q: Path ensures StrippedAt(doc, after, [f] + rest, q) {
      assert StrippedAt(doc, middle, [f], q) && StrippedAt(middle, after, rest, q);
      ComposeAt(doc, middle, after, f, rest, q);
    }
  }

  /** What a pass leaves at one path, given whether the path lies below a field or beside all of them. */
  ghost predicate Effect(below: bool, beside: bool, before: Option<Json>, after: Option<Json>)
  {
    if below then after == None else if beside then after == before else Agree(before, after)
  }

  lemma EffectsCompose(below: bool, beside: bool, restBelow: bool, restBeside: bool,
                       doc: Option<Json>, middle: Option<Json>, after: Option<Json>)
    requires Effect(below, beside, doc, middle) && Effect(restBelow, restBeside, middle, after)
    ensures Effect(below || restBelow, beside && restBeside, doc, after)
  {
  }

  lemma ComposeAt(doc: Json, middle: Json, after: Json, f: Path, rest: seq<Path>, q: Path)
    requires StrippedAt(doc, middle, [f], q) && StrippedAt(middle, after, rest, q)
    ensures StrippedAt(doc, after, [f] + rest, q)
  {
    var all := [f] + rest;
    assert f in [f] && f in all && forall g <- rest :: g in all;
    EffectsCompose(Prefix(f, q), Incomparable(f, q),
                   exists g <- rest :: Prefix(g, q), forall g <- rest :: Incomparable(g, q),
                   Lookup(doc, q), Lookup(middle, q), Lookup(after, q));
  }

  function RemoveAll(fields: seq<Path>): (r: seq<Operation>)
    ensures |r| == |fields| && forall i :: 0 <= i < |r| ==> r[i] == RemoveOp(Pointer.Write(fields[i]))
  {
    seq(|fields|, i requires 0 <= i < |fields| => RemoveOp(Pointer.Write(fields[i])))
  }

  lemma RemoveHead(doc: Json, f: Path, rest: seq<Path>)
    requires f != [] && NestedField(doc, f) != TypeError
    ensures ApplyAt(doc, f, Remove).Ok?
    ensures ApplyAll(doc, RemoveAll([f] + rest)) == ApplyAll(ApplyAt(doc, f, Remove).value, RemoveAll(rest))
  {
    NestedIsSafe(doc, f);
    RemoveSucceeds(doc, f);
    ResolveWritten(f, Null);
    RemoveAllHead(f, rest);
    ApplyAllHead(doc, RemoveOp(Pointer.Write(f)), RemoveAll(rest));
  }

  lemma RemoveAllHead(f: Path, rest: seq<Path>)
    ensures RemoveAll([f] + rest) == [RemoveOp(Pointer.Write(f))] + RemoveAll(rest)
  {
  }

  lemma RemoveKeepsAllTypes(doc: Json, f: Path)
    requires f != [] && NestedField(doc, f) != TypeError
    ensures ApplyAt(doc, f, Remove).Ok?
    ensures forall g: Path :: NestedField(doc, g) != TypeError ==>
              NestedField(ApplyAt(doc, f, Remove).value, g) != TypeError
  {
    NestedIsSafe(doc, f);
    RemoveSucceeds(doc, f);
    forall g: Path | NestedField(doc, g) != TypeError
      ensures NestedField(ApplyAt(doc, f, Remove).value, g) != TypeError
    {
      RemoveKeepsTypes(doc, f, g);
    }
  }

  lemma {:induction false} RemoveAllStrips(doc: Json, fields: seq<Path>)
    requires Typed(doc, fields)
    ensures ApplyAll(doc, RemoveAll(fields)).Ok?
    ensures Stripped(doc, ApplyAll(doc, RemoveAll(fields)).value, fields)
    ensures forall g: Path :: NestedField(doc, g) != TypeError ==>
              NestedField(ApplyAll(doc, RemoveAll(fields)).value, g) != TypeError
    decreases |fields|
  {
    if fields == [] {
      forall q: Path ensures StrippedAt(doc, doc, fields, q) {
      }
    } else {
      var f, rest := fields[0], fields[1..];
      assert fields == [f] + rest && f in fields;
      assert forall g <- rest :: g in fields;
      RemoveHead(doc, f, rest);
      RemoveKeepsAllTypes(doc, f);
      StripOne(doc, f);
      var middle := ApplyAt(doc, f, Remove).value;
      RemoveAllStrips(middle, rest);
      StrippedCompose(doc, middle, ApplyAll(middle, RemoveAll(rest)).value, f, rest);
    }
  }

  /** The fields of the list that are there. */
  function FoundFields(doc: Json, fields: seq<Path>): (r: seq<Path>)
    ensures forall f :: f in r <==> f in fields && NestedField(doc, f).Found?
  {
    if fields == [] then []
    else
      var n := |fields| - 1;
      assert fields == fields[..n] + [fields[n]];
      FoundFields(doc, fields[..n]) + if NestedField(doc, fields[n]).Found? then [fields[n]] else []
  }

  lemma FoundFieldsSnoc(doc: Json, fields: seq<Path>)
    requires fields != []
    ensures var n := |fields| - 1;
            RemoveAll(FoundFields(doc, fields)) == RemoveAll(FoundFields(doc, fields[..n])) +
            if NestedField(doc, fields[n]).Found? then [RemoveOp(Pointer.Write(fields[n]))] else []
  {
  }

  lemma TypedSnoc(doc: Json, fields: seq<Path>)
    requires fields != []
    ensures var n := |fields| - 1;
            Typed(doc, fields) <==>
            Typed(doc, fields[..n]) && fields[n] != [] && NestedField(doc, fields[n]) != TypeError
  {
    var n := |fields| - 1;
    var init := fields[..n];
    assert fields == init + [fields[n]];
    if Typed(doc, init) && fields[n] != [] && NestedField(doc, fields[n]) != TypeError {
      forall f | f in fields ensures f != [] && NestedField(doc, f) != TypeError {
        assert f in init || f == fields[n];
      }
    }
    if Typed(doc, fields) {
      forall f | f in init ensures f != [] && NestedField(doc, f) != TypeError {
        assert f in fields;
      }
      assert fields[n] in fields;
    }
  }

  lemma {:induction false} StripOpsRemovesFound(doc: Json, fields: seq<Path>)
    requires forall f <- fields :: f != []
    ensures StripOps(doc, fields).Ok? <==> Typed(doc, fields)
    ensures StripOps(doc, fields).Ok? ==> StripOps(doc, fields).value == RemoveAll(FoundFields(doc, fields))
    decreases |fields|
  {
    if fields != [] {
      var n := |fields| - 1;
      assert fields[n] in fields && forall f <- fields[..n] :: f in fields;
      StripOpsRemovesFound(doc, fields[..n]);
      TypedSnoc(doc, fields);
      FoundFieldsSnoc(doc, fields);
      var before := RemoveAll(FoundFields(doc, fields[..n]));
      assert before + [] == before;
    }
  }

  /** Fields that were never there are absent afterwards too. */
  lemma StrippedAll(doc: Json, after: Json, fields: seq<Path>)
    requires Typed(doc, fields) && Stripped(doc, after, FoundFields(doc, fields))
    ensures Stripped(doc, after, fields)
  {
    var present := FoundFields(doc, fields);
    forall q: Path ensures StrippedAt(doc, after, fields, q) {
      assert StrippedAt(doc, after, present, q);
      if f :| f in fields && f !in present && Prefix(f, q) {
        NestedIsLookup(doc, f);
        assert f + q[|f|..] == q;
        LookupSplit(doc, f, q[|f|..]);
      }
    }
  }

  /** Applying the removals succeeds and strips exactly the fields; doing it again finds nothing. */
  lemma StripExact(doc: Json, fields: seq<Path>)
    requires StripOps(doc, fields).Ok? && forall f <- fields :: f != []
    ensures var after := ApplyAll(doc, StripOps(doc, fields).value);
            && after.Ok?
            && Stripped(doc, after.value, fields)
            && StripOps(after.value, fields) == Ok([])
            && forall g: Path :: NestedField(doc, g) != TypeError ==> NestedField(after.value, g) != TypeError
  {
    StripOpsRemovesFound(doc, fields);
    RemoveAllStrips(doc, FoundFields(doc, fields));
    var after := ApplyAll(doc, StripOps(doc, fields).value).value;
    StrippedAll(doc, after, fields);
    forall f | f in fields ensures NestedField(after, f) == NotFound {
      assert NestedField(doc, f) != TypeError;
      assert StrippedAt(doc, after, fields, f) && Prefix(f, f);
      NestedIsLookup(after, f);
    }
    NothingToStrip(after, fields);
  }

  lemma {:induction false} NothingToStrip(doc: Json, fields: seq<Path>)
    requires forall f <- fields :: NestedField(doc, f) == NotFound
    ensures StripOps(doc, fields) == Ok([])
    decreases |fields|
  {
    if fields != [] {
      var n := |fields| - 1;
      assert fields == fields[..n] + [fields[n]];
      NothingToStrip(doc, fields[..n]);
    }
  }
}
