/** Patches that remove one member from some of the objects in a list. */
module ListPruning {
  import opened Wrappers
  import opened Strconv
  import opened Json
  import opened Patch
  import opened Unstructured
  import Pointer

  /** The document with the value of an existing field replaced. */
  function SetField(doc: Json, fields: Path, v: Json): Json
    requires NestedField(doc, fields).Found?
  {
    if fields == [] then v
    else Obj(doc.members[fields[0] := SetField(doc.members[fields[0]], fields[1..], v)])
  }

  lemma {:induction false} SetFieldAgain(doc: Json, fields: Path, v: Json, w: Json)
    requires NestedField(doc, fields).Found?
    ensures NestedField(SetField(doc, fields, v), fields) == Found(v)
    ensures SetField(SetField(doc, fields, v), fields, w) == SetField(doc, fields, w)
    ensures NestedField(doc, fields) == Found(v) ==> SetField(doc, fields, v) == doc
  {
    if fields != [] {
      var m, f := doc.members, fields[0];
      SetFieldAgain(m[f], fields[1..], v, w);
      assert m[f := SetField(m[f], fields[1..], v)][f := SetField(m[f], fields[1..], w)] ==
             m[f := SetField(m[f], fields[1..], w)];
      assert m[f := m[f]] == m;
    }
  }

  /** Working below an existing field changes that field and nothing else. */
  lemma {:induction false} ApplyBelow(doc: Json, fields: Path, below: Path, action: Action)
    requires NestedField(doc, fields).Found? && below != []
    ensures ApplyAt(doc, fields + below, action) ==
            match ApplyAt(NestedField(doc, fields).v, below, action)
            case Err => Err
            case Ok(v) => Ok(SetField(doc, fields, v))
    decreases |fields|
  {
    if fields == [] {
      assert fields + below == below;
    } else {
      assert (fields + below)[1..] == fields[1..] + below;
      ApplyBelow(doc.members[fields[0]], fields[1..], below, action);
    }
  }

  function Without(v: Json, key: string): Json
  {
    if v.Obj? then Obj(v.members - {key}) else v
  }

  /** The list with `key` taken out of the objects that are marked. */
  function Prune(xs: seq<Json>, marks: seq<bool>, key: string): (r: seq<Json>)
    requires |marks| <= |xs|
    ensures |r| == |xs|
    ensures forall i :: 0 <= i < |xs| ==> r[i] == if i < |marks| && marks[i] then Without(xs[i], key) else xs[i]
  {
    seq(|xs|, i requires 0 <= i < |xs| => if i < |marks| && marks[i] then Without(xs[i], key) else xs[i])
  }

  function PruneOps(base: Path, marks: seq<bool>, key: string): seq<Operation>
  {
    if marks == [] then []
    else
      var n := |marks| - 1;
      PruneOps(base, marks[..n], key) + if marks[n] then [RemoveOp(Pointer.Write(base + [Decimal(n), key]))] else []
  }

  lemma RemoveFromElement(xs: seq<Json>, n: nat, key: string)
    requires n < |xs| && xs[n].Obj?
    ensures ApplyAt(Arr(xs), [Decimal(n), key], Remove) == Ok(Arr(xs[n := Without(xs[n], key)]))
  {
    ArrayIndexOfDecimal(n, |xs|);
    assert [Decimal(n), key][1..] == [key];
  }

  lemma PruneNext(xs: seq<Json>, marks: seq<bool>, key: string)
    requires 0 < |marks| <= |xs|
    ensures var n := |marks| - 1;
            Prune(xs, marks, key) ==
            if marks[n] then Prune(xs, marks[..n], key)[n := Without(xs[n], key)] else Prune(xs, marks[..n], key)
  {
  }

  /** Applying the removals succeeds and prunes exactly the marked objects, leaving the rest of the document alone. */
  lemma {:induction false} PruneExact(doc: Json, base: Path, xs: seq<Json>, marks: seq<bool>, key: string)
    requires NestedField(doc, base) == Found(Arr(xs)) && |marks| <= |xs|
    requires forall i :: 0 <= i < |marks| && marks[i] ==> xs[i].Obj?
    ensures ApplyAll(doc, PruneOps(base, marks, key)) == Ok(SetField(doc, base, Arr(Prune(xs, marks, key))))
    decreases |marks|
  {
    if marks == [] {
      assert Prune(xs, marks, key) == xs;
      SetFieldAgain(doc, base, Arr(xs), Arr(xs));
    } else {
      var n := |marks| - 1;
      PruneExact(doc, base, xs, marks[..n], key);
      PruneNext(xs, marks, key);
      if marks[n] {
        PruneStep(doc, base, xs, marks[..n], key);
      } else {
        assert PruneOps(base, marks[..n], key) + [] == PruneOps(base, marks[..n], key);
      }
    }
  }

  lemma PruneStep(doc: Json, base: Path, xs: seq<Json>, marks: seq<bool>, key: string)
    requires NestedField(doc, base) == Found(Arr(xs)) && |marks| < |xs| && xs[|marks|].Obj?
    requires ApplyAll(doc, PruneOps(base, marks, key)) == Ok(SetField(doc, base, Arr(Prune(xs, marks, key))))
    ensures ApplyAll(doc, PruneOps(base, marks, key) + [RemoveOp(Pointer.Write(base + [Decimal(|marks|), key]))]) ==
            Ok(SetField(doc, base, Arr(Prune(xs, marks, key)[|marks| := Without(xs[|marks|], key)])))
  {
    var n, pruned := |marks|, Prune(xs, marks, key);
    var middle := SetField(doc, base, Arr(pruned));
    var path := base + [Decimal(n), key];
    ApplyAllAppend(doc, PruneOps(base, marks, key), [RemoveOp(Pointer.Write(path))]);
    assert [RemoveOp(Pointer.Write(path))] == [RemoveOp(Pointer.Write(path))] + [];
    ApplyAllHead(middle, RemoveOp(Pointer.Write(path)), []);
    ResolveWritten(path, Null);
    SetFieldAgain(doc, base, Arr(pruned), Arr(pruned[n := Without(xs[n], key)]));
    ApplyBelow(middle, base, [Decimal(n), key], Remove);
    RemoveFromElement(pruned, n, key);
  }
}
