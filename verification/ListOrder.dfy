/** Exactly when the order of two operations on the elements of one list shows. */
module ListOrder {
  import opened Wrappers
  import opened Strconv
  import opened Json
  import opened Patch
  import opened PatchOrder
  import opened Outcomes
  import opened NestedOrder

  /** Inside an existing value two operations show their order in the document exactly when they do in the value. */
  lemma OrderWithin(doc: Json, base: Path, s: Path, a: Action, t: Path, b: Action)
    requires Lookup(doc, base).Some? && s != [] && t != []
    ensures var d := Lookup(doc, base).value;
            Then(ApplyAt(doc, base + s, a), base + t, b) == Then(ApplyAt(doc, base + t, b), base + s, a) <==>
            Then(ApplyAt(d, s, a), t, b) == Then(ApplyAt(d, t, b), s, a)
  {
    var d := Lookup(doc, base).value;
    ThenWithin(doc, base, s, a, t, b);
    ThenWithin(doc, base, t, b, s, a);
    var x, y := Then(ApplyAt(d, s, a), t, b), Then(ApplyAt(d, t, b), s, a);
    PutAtInjective(doc, base, x.GetOr(d), y.GetOr(d));
  }

  lemma ThenWithin(doc: Json, base: Path, s: Path, a: Action, t: Path, b: Action)
    requires Lookup(doc, base).Some? && s != [] && t != []
    ensures Then(ApplyAt(doc, base + s, a), base + t, b) ==
            match Then(ApplyAt(Lookup(doc, base).value, s, a), t, b)
            case Err => Err
            case Ok(w) => Ok(PutAt(doc, base, w))
  {
    Within(doc, base, s, a);
    var first := ApplyAt(Lookup(doc, base).value, s, a);
    if first.Ok? {
      PutAtLaws(doc, base, first.value, ApplyAt(first.value, t, b).GetOr(first.value));
      Within(PutAt(doc, base, first.value), base, t, b);
    }
  }

  // ----- operations on one element -----

  function Insert(xs: seq<Json>, i: nat, v: Json): (r: seq<Json>)
    requires i <= |xs|
    ensures |r| == |xs| + 1
    ensures forall k :: 0 <= k < |r| ==> r[k] == if k < i then xs[k] else if k == i then v else xs[k - 1]
  {
    xs[..i] + [v] + xs[i..]
  }

  function Delete(xs: seq<Json>, i: nat): (r: seq<Json>)
    ensures |r| == if i < |xs| then |xs| - 1 else |xs|
    ensures forall k :: 0 <= k < |r| ==> r[k] == if k < i then xs[k] else xs[k + 1]
  {
    if i < |xs| then xs[..i] + xs[i + 1..] else xs
  }

  /** An operation at element `i`. */
  function Edited(xs: seq<Json>, i: nat, a: Action): Result<seq<Json>>
  {
    match a
    case Add(v) => if i <= |xs| then Ok(Insert(xs, i, v)) else Err
    case Remove => Ok(Delete(xs, i))
    case Replace(v) => if i < |xs| then Ok(xs[i := v]) else Err
  }

  function AsList(r: Result<seq<Json>>): Result<Json>
  {
    match r
    case Err => Err
    case Ok(xs) => Ok(Arr(xs))
  }

  lemma EditedElement(xs: seq<Json>, i: nat, a: Action)
    ensures ApplyAt(Arr(xs), [Decimal(i)], a) == AsList(Edited(xs, i, a))
  {
    ArrayIndexOfDecimal(i, |xs|);
    ArrayIndexOfDecimal(i, |xs| + 1);
    ValueOfDecimal(i);
    NotDash(Decimal(i), "-");
  }

  function EditedTwice(xs: seq<Json>, i: nat, a: Action, j: nat, b: Action): Result<seq<Json>>
  {
    var ys :- Edited(xs, i, a);
    Edited(ys, j, b)
  }

  lemma EditedElements(xs: seq<Json>, i: nat, a: Action, j: nat, b: Action)
    ensures Then(ApplyAt(Arr(xs), [Decimal(i)], a), [Decimal(j)], b) == AsList(EditedTwice(xs, i, a, j, b))
  {
    EditedElement(xs, i, a);
    if Edited(xs, i, a).Ok? {
      EditedElement(Edited(xs, i, a).value, j, b);
    }
  }

  /**
   * Two operations on different elements: what the lower one inserts or deletes shifts the element that
   * the higher one names, so they must find the same on both sides of the shift.
   */
  predicate ElementsHidden(xs: seq<Json>, i: nat, a: Action, j: nat, b: Action)
    requires i < j
  {
    match (a, b)
    case (Replace(_), _) => true
    case (Remove, Add(w)) => j > |xs| || (j < |xs| && xs[j] == w)
    case (Remove, Remove) => j >= |xs| || (j + 1 < |xs| && xs[j] == xs[j + 1])
    case (Remove, Replace(w)) => j >= |xs| || (j + 1 < |xs| && xs[j] == w && xs[j + 1] == w)
    case (Add(_), Add(w)) => i > |xs| || j > |xs| + 1 || (j <= |xs| && xs[j - 1] == w)
    case (Add(_), Remove) => j > |xs| || (j < |xs| && xs[j - 1] == xs[j])
    case (Add(_), Replace(w)) => j > |xs| || (j < |xs| && xs[j - 1] == w && xs[j] == w)
  }

  lemma BelowReplaced(xs: seq<Json>, i: nat, v: Json, j: nat, b: Action)
    requires i < j
    ensures EditedTwice(xs, i, Replace(v), j, b) == EditedTwice(xs, j, b, i, Replace(v))
  {
    if i < |xs| && Edited(xs, j, b).Ok? {
      var x, y := EditedTwice(xs, i, Replace(v), j, b).value, EditedTwice(xs, j, b, i, Replace(v)).value;
      assert |x| == |y| && forall k :: 0 <= k < |x| ==> x[k] == y[k];
      assert x == y;
    }
  }

  /** Equal exactly when they agree at the two places where they can differ. */
  lemma DifferAt(x: seq<Json>, y: seq<Json>, m: nat, n: nat)
    requires |x| == |y| && m < |x| && n < |x|
    requires forall k :: 0 <= k < |x| && k != m && k != n ==> x[k] == y[k]
    ensures x == y <==> x[m] == y[m] && x[n] == y[n]
  {
  }

  lemma DeleteAndInsert(xs: seq<Json>, i: nat, j: nat, w: Json)
    requires i < j < |xs|
    ensures Insert(Delete(xs, i), j, w) == Delete(Insert(xs, j, w), i) <==> xs[j] == w
  {
    DifferAt(Insert(Delete(xs, i), j, w), Delete(Insert(xs, j, w), i), j - 1, j);
  }

  lemma RemovedThenAdd(xs: seq<Json>, i: nat, j: nat, b: Action)
    requires i < j && b.Add?
    ensures EditedTwice(xs, i, Remove, j, b) == EditedTwice(xs, j, b, i, Remove) <==>
            ElementsHidden(xs, i, Remove, j, b)
  {
    if j < |xs| {
      DeleteAndInsert(xs, i, j, b.value);
    }
  }

  lemma RemovedThenRemove(xs: seq<Json>, i: nat, j: nat, b: Action)
    requires i < j && b.Remove?
    ensures EditedTwice(xs, i, Remove, j, b) == EditedTwice(xs, j, b, i, Remove) <==>
            ElementsHidden(xs, i, Remove, j, b)
  {
    var x, y := EditedTwice(xs, i, Remove, j, b), EditedTwice(xs, j, b, i, Remove);
    if x.Ok? && y.Ok? && |x.value| == |y.value| {
      if j < |xs| {
        DifferAt(x.value, y.value, j - 1, j - 1);
      } else {
        assert x.value == y.value;
      }
    }
  }

  lemma RemovedThenReplace(xs: seq<Json>, i: nat, j: nat, b: Action)
    requires i < j && b.Replace?
    ensures EditedTwice(xs, i, Remove, j, b) == EditedTwice(xs, j, b, i, Remove) <==>
            ElementsHidden(xs, i, Remove, j, b)
  {
    var x, y := EditedTwice(xs, i, Remove, j, b), EditedTwice(xs, j, b, i, Remove);
    if x.Ok? && y.Ok? && |x.value| == |y.value| {
      if j < |xs| {
        DifferAt(x.value, y.value, j - 1, j);
      }
    }
  }

  lemma AddedThenAdd(xs: seq<Json>, i: nat, v: Json, j: nat, b: Action)
    requires i < j && b.Add?
    ensures EditedTwice(xs, i, Add(v), j, b) == EditedTwice(xs, j, b, i, Add(v)) <==>
            ElementsHidden(xs, i, Add(v), j, b)
  {
    var x, y := EditedTwice(xs, i, Add(v), j, b), EditedTwice(xs, j, b, i, Add(v));
    if x.Ok? && y.Ok? && |x.value| == |y.value| {
      if j <= |xs| {
        DifferAt(x.value, y.value, j, j + 1);
      }
    }
  }

  lemma AddedThenRemove(xs: seq<Json>, i: nat, v: Json, j: nat, b: Action)
    requires i < j && b.Remove?
    ensures EditedTwice(xs, i, Add(v), j, b) == EditedTwice(xs, j, b, i, Add(v)) <==>
            ElementsHidden(xs, i, Add(v), j, b)
  {
    var x, y := EditedTwice(xs, i, Add(v), j, b), EditedTwice(xs, j, b, i, Add(v));
    if x.Ok? && y.Ok? && |x.value| == |y.value| {
      if j < |xs| {
        DifferAt(x.value, y.value, j, j);
      } else {
        assert x.value == y.value;
      }
    }
  }

  lemma AddedThenReplace(xs: seq<Json>, i: nat, v: Json, j: nat, b: Action)
    requires i < j && b.Replace?
    ensures EditedTwice(xs, i, Add(v), j, b) == EditedTwice(xs, j, b, i, Add(v)) <==>
            ElementsHidden(xs, i, Add(v), j, b)
  {
    var x, y := EditedTwice(xs, i, Add(v), j, b), EditedTwice(xs, j, b, i, Add(v));
    if x.Ok? && y.Ok? && |x.value| == |y.value| {
      if j < |xs| {
        DifferAt(x.value, y.value, j, j + 1);
      }
    }
  }

  /** Exactly when the order of operations on two elements of a list does not show. */
  lemma EditsIff(xs: seq<Json>, i: nat, a: Action, j: nat, b: Action)
    requires i < j
    ensures EditedTwice(xs, i, a, j, b) == EditedTwice(xs, j, b, i, a) <==> ElementsHidden(xs, i, a, j, b)
  {
    match (a, b)
    case (Replace(v), _) => BelowReplaced(xs, i, v, j, b);
    case (Remove, Add(_)) => RemovedThenAdd(xs, i, j, b);
    case (Remove, Remove) => RemovedThenRemove(xs, i, j, b);
    case (Remove, Replace(_)) => RemovedThenReplace(xs, i, j, b);
    case (Add(v), Add(_)) => AddedThenAdd(xs, i, v, j, b);
    case (Add(v), Remove) => AddedThenRemove(xs, i, v, j, b);
    case (Add(v), Replace(_)) => AddedThenReplace(xs, i, v, j, b);
  }

  /** Two operations on different elements of one list, anywhere in a document. */
  lemma ElementsIff(doc: Json, base: Path, xs: seq<Json>, i: nat, a: Action, j: nat, b: Action)
    requires Lookup(doc, base) == Some(Arr(xs)) && i < j
    ensures Then(ApplyAt(doc, base + [Decimal(i)], a), base + [Decimal(j)], b) ==
            Then(ApplyAt(doc, base + [Decimal(j)], b), base + [Decimal(i)], a) <==>
            ElementsHidden(xs, i, a, j, b)
  {
    OrderWithin(doc, base, [Decimal(i)], a, [Decimal(j)], b);
    EditedElements(xs, i, a, j, b);
    EditedElements(xs, j, b, i, a);
    EditsIff(xs, i, a, j, b);
  }

  // ----- two operations on one element -----

  /** When the order of two operations on the very same element does not show. */
  predicate SameElementHidden(xs: seq<Json>, i: nat, a: Action, b: Action)
  {
    match (a, b)
    case (Remove, Remove) => true
    case (Replace(v), Replace(w)) => i >= |xs| || v == w
    case (Add(v), Add(w)) => i > |xs| || v == w
    case (Replace(v), Remove) => i >= |xs| || (i + 1 < |xs| && xs[i + 1] == v)
    case (Remove, Replace(v)) => i >= |xs| || (i + 1 < |xs| && xs[i + 1] == v)
    case (Add(v), Remove) => i > |xs| || (i < |xs| && xs[i] == v)
    case (Remove, Add(v)) => i > |xs| || (i < |xs| && xs[i] == v)
    case (Replace(v), Add(w)) => i > |xs| || (i < |xs| && v == w && w == xs[i])
    case (Add(w), Replace(v)) => i > |xs| || (i < |xs| && v == w && w == xs[i])
  }

  lemma AddedTwiceAt(xs: seq<Json>, i: nat, v: Json, w: Json)
    ensures EditedTwice(xs, i, Add(v), i, Add(w)) == EditedTwice(xs, i, Add(w), i, Add(v)) <==> i > |xs| || v == w
  {
    if i <= |xs| {
      DifferAt(Insert(Insert(xs, i, v), i, w), Insert(Insert(xs, i, w), i, v), i, i + 1);
    }
  }

  lemma ReplacedTwiceAt(xs: seq<Json>, i: nat, v: Json, w: Json)
    ensures EditedTwice(xs, i, Replace(v), i, Replace(w)) == EditedTwice(xs, i, Replace(w), i, Replace(v)) <==>
            i >= |xs| || v == w
  {
    if i < |xs| {
      DifferAt(xs[i := v][i := w], xs[i := w][i := v], i, i);
    }
  }

  lemma ReplacedAndRemoved(xs: seq<Json>, i: nat, v: Json)
    ensures EditedTwice(xs, i, Replace(v), i, Remove) == EditedTwice(xs, i, Remove, i, Replace(v)) <==>
            i >= |xs| || (i + 1 < |xs| && xs[i + 1] == v)
  {
    if i + 1 < |xs| {
      DifferAt(Delete(xs[i := v], i), Delete(xs, i)[i := v], i, i);
    }
  }

  lemma AddedAndRemoved(xs: seq<Json>, i: nat, v: Json)
    ensures EditedTwice(xs, i, Add(v), i, Remove) == EditedTwice(xs, i, Remove, i, Add(v)) <==>
            i > |xs| || (i < |xs| && xs[i] == v)
  {
    if i < |xs| {
      DifferAt(Delete(Insert(xs, i, v), i), Insert(Delete(xs, i), i, v), i, i);
    } else if i == |xs| {
      assert |Delete(Insert(xs, i, v), i)| != |Insert(Delete(xs, i), i, v)|;
    }
  }

  lemma ReplacedAndAdded(xs: seq<Json>, i: nat, v: Json, w: Json)
    ensures EditedTwice(xs, i, Replace(v), i, Add(w)) == EditedTwice(xs, i, Add(w), i, Replace(v)) <==>
            i > |xs| || (i < |xs| && v == w && w == xs[i])
  {
    if i < |xs| {
      DifferAt(Insert(xs[i := v], i, w), Insert(xs, i, w)[i := v], i, i + 1);
    }
  }

  lemma SameElementEdits(xs: seq<Json>, i: nat, a: Action, b: Action)
    ensures EditedTwice(xs, i, a, i, b) == EditedTwice(xs, i, b, i, a) <==> SameElementHidden(xs, i, a, b)
  {
    match (a, b)
    case (Remove, Remove) =>
    case (Replace(v), Replace(w)) => ReplacedTwiceAt(xs, i, v, w);
    case (Add(v), Add(w)) => AddedTwiceAt(xs, i, v, w);
    case (Replace(v), Remove) => ReplacedAndRemoved(xs, i, v);
    case (Remove, Replace(v)) => ReplacedAndRemoved(xs, i, v);
    case (Add(v), Remove) => AddedAndRemoved(xs, i, v);
    case (Remove, Add(v)) => AddedAndRemoved(xs, i, v);
    case (Replace(v), Add(w)) => ReplacedAndAdded(xs, i, v, w);
    case (Add(w), Replace(v)) => ReplacedAndAdded(xs, i, v, w);
  }

  /** Two operations on the very same element of a list, anywhere in a document. */
  lemma SameElementIff(doc: Json, base: Path, xs: seq<Json>, i: nat, a: Action, b: Action)
    requires Lookup(doc, base) == Some(Arr(xs))
    ensures Then(ApplyAt(doc, base + [Decimal(i)], a), base + [Decimal(i)], b) ==
            Then(ApplyAt(doc, base + [Decimal(i)], b), base + [Decimal(i)], a) <==>
            SameElementHidden(xs, i, a, b)
  {
    OrderWithin(doc, base, [Decimal(i)], a, [Decimal(i)], b);
    EditedElements(xs, i, a, i, b);
    EditedElements(xs, i, b, i, a);
    SameElementEdits(xs, i, a, b);
  }

  // ----- one operation on an element, one inside an element -----

  function EditedInside(xs: seq<Json>, j: nat, r: Path, b: Action): Result<seq<Json>>
  {
    if j < |xs| then
      var w :- ApplyAt(xs[j], r, b);
      Ok(xs[j := w])
    else if b.Remove? then Ok(xs)
    else Err
  }

  lemma InsideElement(xs: seq<Json>, j: nat, r: Path, b: Action)
    requires r != []
    ensures ApplyAt(Arr(xs), [Decimal(j)] + r, b) == AsList(EditedInside(xs, j, r, b))
  {
    ArrayIndexOfDecimal(j, |xs|);
    var path := [Decimal(j)] + r;
    assert path[0] == Decimal(j) && path[1..] == r;
  }

  function ElementAt(xs: seq<Json>, j: nat): Option<Json>
  {
    if j < |xs| then Some(xs[j]) else None
  }

  /** The operation inside an element fails; where there is no element, all but removals do. */
  ghost predicate RefusedIn(e: Option<Json>, r: Path, b: Action)
    requires r != []
  {
    match e
    case Some(v) => Refused(v, r, b)
    case None => !b.Remove?
  }

  ghost predicate SettlesIn(e: Option<Json>, r: Path, b: Action)
    requires r != []
  {
    match e
    case Some(v) => Settles(v, r, b)
    case None => b.Remove?
  }

  /**
   * An operation on element `i` next to one inside element `j`.  Below the shift nothing shows.  Above it
   * the inner operation meets another element in each order: it must fail on both, or change neither; a
   * change inside the very element that is removed does not count.
   */
  ghost predicate InsideHidden(xs: seq<Json>, i: nat, a: Action, j: nat, r: Path, b: Action)
    requires r != []
  {
    match a
    case Replace(v) => i != j || i >= |xs| || InnerHidden(xs[i], v, r, b)
    case Remove =>
      j < i || i >= |xs| ||
      (var was, now := ElementAt(xs, j), ElementAt(xs, j + 1);
       if RefusedIn(was, r, b) then RefusedIn(now, r, b)
       else SettlesIn(now, r, b) && (i == j || SettlesIn(was, r, b)))
    case Add(v) =>
      j < i || i > |xs| ||
      (var was, now := ElementAt(xs, j), ElementAt(Insert(xs, i, v), j);
       if RefusedIn(was, r, b) then RefusedIn(now, r, b)
       else SettlesIn(now, r, b) && SettlesIn(was, r, b))
  }

  function EditedThenInside(xs: seq<Json>, i: nat, a: Action, j: nat, r: Path, b: Action): Result<seq<Json>>
  {
    var ys :- Edited(xs, i, a);
    EditedInside(ys, j, r, b)
  }

  function InsideThenEdited(xs: seq<Json>, i: nat, a: Action, j: nat, r: Path, b: Action): Result<seq<Json>>
  {
    var ys :- EditedInside(xs, j, r, b);
    Edited(ys, i, a)
  }

  lemma InsertAndSet(xs: seq<Json>, i: nat, v: Json, j: nat, y: Json, x: Json)
    requires i <= j < |xs|
    ensures Insert(xs, i, v)[j := y] == Insert(xs[j := x], i, v) <==> y == Insert(xs, i, v)[j] && x == xs[j]
  {
    DifferAt(Insert(xs, i, v)[j := y], Insert(xs[j := x], i, v), j, j + 1);
  }

  lemma DeleteAndSet(xs: seq<Json>, i: nat, j: nat, y: Json, x: Json)
    requires i <= j < |xs| - 1
    ensures Delete(xs, i)[j := y] == Delete(xs[j := x], i) <==> y == xs[j + 1] && (i == j || x == xs[j])
  {
    DifferAt(Delete(xs, i)[j := y], Delete(xs[j := x], i), if i == j then j else j - 1, j);
  }

  lemma DeleteAndSetLast(xs: seq<Json>, i: nat, x: Json)
    requires i < |xs|
    ensures Delete(xs, i) == Delete(xs[|xs| - 1 := x], i) <==> i == |xs| - 1 || x == xs[|xs| - 1]
  {
    var y := Delete(xs[|xs| - 1 := x], i);
    if i < |xs| - 1 {
      DifferAt(Delete(xs, i), y, |xs| - 2, |xs| - 2);
    } else {
      assert Delete(xs, i) == y;
    }
  }

  lemma InsideOutcomes(e: Json, r: Path, b: Action)
    requires r != []
    ensures ApplyAt(e, r, b).Err? <==> Refused(e, r, b)
    ensures ApplyAt(e, r, b) == Ok(e) <==> Settles(e, r, b)
  {
    FailsIff(e, r, b);
    SettlesIff(e, r, b);
  }

  lemma BelowInside(xs: seq<Json>, i: nat, a: Action, j: nat, r: Path, b: Action)
    requires j < i && r != []
    ensures EditedThenInside(xs, i, a, j, r, b) == InsideThenEdited(xs, i, a, j, r, b)
  {
    var x, y := EditedThenInside(xs, i, a, j, r, b), InsideThenEdited(xs, i, a, j, r, b);
    if x.Ok? && y.Ok? {
      assert x.value == y.value;
    }
  }

  lemma AddedInside(xs: seq<Json>, i: nat, v: Json, j: nat, r: Path, b: Action)
    requires i <= j && i <= |xs| && r != []
    ensures EditedThenInside(xs, i, Add(v), j, r, b) == InsideThenEdited(xs, i, Add(v), j, r, b) <==>
            InsideHidden(xs, i, Add(v), j, r, b)
  {
    var ys := Insert(xs, i, v);
    if j <= |xs| {
      InsideOutcomes(ys[j], r, b);
      var y := ApplyAt(ys[j], r, b);
      if j < |xs| {
        InsideOutcomes(xs[j], r, b);
        InsertAndSet(xs, i, v, j, y.GetOr(v), ApplyAt(xs[j], r, b).GetOr(v));
      } else {
        assert y.Ok? ==> (ys[j := y.value] == ys <==> y.value == ys[j]) by {
          SetElement(ys, j, y.GetOr(v));
        }
      }
    }
  }

  lemma RemovedInside(xs: seq<Json>, i: nat, j: nat, r: Path, b: Action)
    requires i <= j && i < |xs| && r != []
    ensures EditedThenInside(xs, i, Remove, j, r, b) == InsideThenEdited(xs, i, Remove, j, r, b) <==>
            InsideHidden(xs, i, Remove, j, r, b)
  {
    if j < |xs| {
      InsideOutcomes(xs[j], r, b);
      var x := ApplyAt(xs[j], r, b).GetOr(xs[j]);
      if j + 1 < |xs| {
        InsideOutcomes(xs[j + 1], r, b);
        DeleteAndSet(xs, i, j, ApplyAt(xs[j + 1], r, b).GetOr(xs[j]), x);
      } else {
        DeleteAndSetLast(xs, i, x);
      }
    }
  }

  lemma ReplacedInside(xs: seq<Json>, i: nat, v: Json, j: nat, r: Path, b: Action)
    requires r != []
    ensures EditedThenInside(xs, i, Replace(v), j, r, b) == InsideThenEdited(xs, i, Replace(v), j, r, b) <==>
            InsideHidden(xs, i, Replace(v), j, r, b)
  {
    if i < |xs| && j < |xs| {
      if i == j {
        InsideOutcomes(xs[i], r, b);
        InsideOutcomes(v, r, b);
        var w := ApplyAt(v, r, b).GetOr(v);
        TwiceElement(xs, i, v, w);
        TwiceElement(xs, i, ApplyAt(xs[i], r, b).GetOr(v), v);
        SetElement(xs[i := v], i, w);
      } else {
        var w := ApplyAt(xs[j], r, b).GetOr(v);
        assert xs[i := v][j := w] == xs[j := w][i := v];
      }
    }
  }

  lemma EditInsideIff(xs: seq<Json>, i: nat, a: Action, j: nat, r: Path, b: Action)
    requires r != []
    ensures EditedThenInside(xs, i, a, j, r, b) == InsideThenEdited(xs, i, a, j, r, b) <==>
            InsideHidden(xs, i, a, j, r, b)
  {
    if a.Replace? {
      ReplacedInside(xs, i, a.value, j, r, b);
    } else if j < i {
      BelowInside(xs, i, a, j, r, b);
    } else if a.Add? && i <= |xs| {
      AddedInside(xs, i, a.value, j, r, b);
    } else if a.Remove? && i < |xs| {
      RemovedInside(xs, i, j, r, b);
    }
  }

  /** An operation on an element of a list next to one inside an element of that list. */
  lemma InsideElementIff(doc: Json, base: Path, xs: seq<Json>, i: nat, a: Action, j: nat, r: Path, b: Action)
    requires Lookup(doc, base) == Some(Arr(xs)) && r != []
    ensures Then(ApplyAt(doc, base + [Decimal(i)], a), base + ([Decimal(j)] + r), b) ==
            Then(ApplyAt(doc, base + ([Decimal(j)] + r), b), base + [Decimal(i)], a) <==>
            InsideHidden(xs, i, a, j, r, b)
  {
    OrderWithin(doc, base, [Decimal(i)], a, [Decimal(j)] + r, b);
    EditedElement(xs, i, a);
    InsideElement(xs, j, r, b);
    var ys, zs := Edited(xs, i, a), EditedInside(xs, j, r, b);
    if ys.Ok? {
      InsideElement(ys.value, j, r, b);
    }
    if zs.Ok? {
      EditedElement(zs.value, i, a);
    }
    EditInsideIff(xs, i, a, j, r, b);
  }

  // ----- the token "-" -----

  lemma Append(xs: seq<Json>, v: Json)
    ensures ApplyAt(Arr(xs), ["-"], Add(v)) == Ok(Arr(xs + [v]))
  {
  }

  lemma AppendEditIff(xs: seq<Json>, v: Json, j: nat, b: Action)
    ensures (match Edited(xs, j, b) case Err => Err case Ok(ys) => Ok(ys + [v])) == Edited(xs + [v], j, b) <==>
            j != |xs| + if b.Add? then 1 else 0
  {
    var x, y := Edited(xs, j, b), Edited(xs + [v], j, b);
    if x.Ok? && y.Ok? {
      if b.Remove? && j == |xs| {
        assert |x.value + [v]| != |y.value|;
      } else {
        assert x.value + [v] == y.value;
      }
    }
  }

  /** Two operations that append to one list. */
  lemma TwoAppendsIff(doc: Json, base: Path, xs: seq<Json>, v: Json, w: Json)
    requires Lookup(doc, base) == Some(Arr(xs))
    ensures Then(ApplyAt(doc, base + ["-"], Add(v)), base + ["-"], Add(w)) ==
            Then(ApplyAt(doc, base + ["-"], Add(w)), base + ["-"], Add(v)) <==>
            v == w
  {
    OrderWithin(doc, base, ["-"], Add(v), ["-"], Add(w));
    Append(xs, v);
    Append(xs, w);
    Append(xs + [v], w);
    Append(xs + [w], v);
    assert (xs + [v] + [w])[|xs|] == v && (xs + [w] + [v])[|xs|] == w;
  }

  /** Appending to a list next to an operation on one of its elements. */
  lemma AppendElementIff(doc: Json, base: Path, xs: seq<Json>, v: Json, j: nat, b: Action)
    requires Lookup(doc, base) == Some(Arr(xs))
    ensures Then(ApplyAt(doc, base + ["-"], Add(v)), base + [Decimal(j)], b) ==
            Then(ApplyAt(doc, base + [Decimal(j)], b), base + ["-"], Add(v)) <==>
            j != |xs| + if b.Add? then 1 else 0
  {
    OrderWithin(doc, base, ["-"], Add(v), [Decimal(j)], b);
    Append(xs, v);
    EditedElement(xs + [v], j, b);
    EditedElement(xs, j, b);
    if Edited(xs, j, b).Ok? {
      Append(Edited(xs, j, b).value, v);
    }
    AppendEditIff(xs, v, j, b);
  }

  /** Appending to a list next to an operation inside one of its elements. */
  lemma AppendInsideIff(doc: Json, base: Path, xs: seq<Json>, v: Json, j: nat, r: Path, b: Action)
    requires Lookup(doc, base) == Some(Arr(xs)) && r != []
    ensures Then(ApplyAt(doc, base + ["-"], Add(v)), base + ([Decimal(j)] + r), b) ==
            Then(ApplyAt(doc, base + ([Decimal(j)] + r), b), base + ["-"], Add(v)) <==>
            (j == |xs| ==> if b.Remove? then Settles(v, r, b) else Refused(v, r, b))
  {
    OrderWithin(doc, base, ["-"], Add(v), [Decimal(j)] + r, b);
    Append(xs, v);
    InsideElement(xs + [v], j, r, b);
    InsideElement(xs, j, r, b);
    var ys := EditedInside(xs, j, r, b);
    if ys.Ok? {
      Append(ys.value, v);
    }
    InsideOutcomes(v, r, b);
    if j < |xs| {
      assert ys.Ok? ==> xs[j := ApplyAt(xs[j], r, b).value] + [v] == (xs + [v])[j := ApplyAt(xs[j], r, b).value];
    } else if j == |xs| {
      var w := ApplyAt(v, r, b).GetOr(v);
      SetElement(xs + [v], j, w);
    }
  }

  // ----- the other tokens, and two different elements -----

  /** Operations inside two different elements never get in each other's way. */
  lemma InsideTwoElements(doc: Json, base: Path, xs: seq<Json>, i: nat, q: Path, a: Action, j: nat, r: Path, b: Action)
    requires Lookup(doc, base) == Some(Arr(xs)) && q != [] && r != [] && i != j
    ensures Then(ApplyAt(doc, base + ([Decimal(i)] + q), a), base + ([Decimal(j)] + r), b) ==
            Then(ApplyAt(doc, base + ([Decimal(j)] + r), b), base + ([Decimal(i)] + q), a)
  {
    OrderWithin(doc, base, [Decimal(i)] + q, a, [Decimal(j)] + r, b);
    InsideElement(xs, i, q, a);
    InsideElement(xs, j, r, b);
    var x, y := EditedInside(xs, i, q, a), EditedInside(xs, j, r, b);
    if x.Ok? {
      InsideElement(x.value, j, r, b);
    }
    if y.Ok? {
      InsideElement(y.value, i, q, a);
    }
    if x.Ok? && y.Ok? && i < |xs| && j < |xs| {
      var v, w := ApplyAt(xs[i], q, a).value, ApplyAt(xs[j], r, b).value;
      assert xs[i := v][j := w] == xs[j := w][i := v];
    }
  }

  /** The first token names no element of any list, and is not where an add appends. */
  predicate NamesNoElement(s: Path, a: Action)
    requires s != []
  {
    !IsIndex(s[0]) && !(|s| == 1 && s[0] == "-" && a.Add?)
  }

  lemma NoElement(xs: seq<Json>, s: Path, a: Action)
    requires s != [] && NamesNoElement(s, a)
    ensures ApplyAt(Arr(xs), s, a) == if |s| > 1 && a.Remove? then Ok(Arr(xs)) else Err
  {
  }

  lemma {:induction false} ListStaysList(xs: seq<Json>, t: Path, b: Action)
    requires t != [] && ApplyAt(Arr(xs), t, b).Ok?
    ensures ApplyAt(Arr(xs), t, b).value.Arr?
  {
  }

  /** Such an operation shows its order next to no other. */
  lemma NoElementHidden(doc: Json, base: Path, xs: seq<Json>, s: Path, a: Action, t: Path, b: Action)
    requires Lookup(doc, base) == Some(Arr(xs)) && s != [] && t != [] && NamesNoElement(s, a)
    ensures Then(ApplyAt(doc, base + s, a), base + t, b) == Then(ApplyAt(doc, base + t, b), base + s, a)
  {
    OrderWithin(doc, base, s, a, t, b);
    NoElement(xs, s, a);
    var y := ApplyAt(Arr(xs), t, b);
    if y.Ok? {
      ListStaysList(xs, t, b);
      NoElement(y.value.items, s, a);
    }
  }

  /** In an object, operations that go to different members show nothing, safe or not. */
  lemma MembersHidden(doc: Json, base: Path, m: Object, s: Path, a: Action, t: Path, b: Action)
    requires Lookup(doc, base) == Some(Obj(m)) && s != [] && t != [] && s[0] != t[0]
    ensures Then(ApplyAt(doc, base + s, a), base + t, b) == Then(ApplyAt(doc, base + t, b), base + s, a)
  {
    OrderWithin(doc, base, s, a, t, b);
    CommuteAcrossMembers(m, s, a, t, b);
  }
}
