/** When the order of a patch's operations does not matter. */
module PatchOrder {
  import opened Wrappers
  import opened Json
  import opened Patch
  import opened Pairings

  function Then(r: Result<Json>, path: Path, action: Action): Result<Json>
  {
    var doc :- r;
    ApplyAt(doc, path, action)
  }

  /** Neither path lies on the other, or both operations only remove. */
  predicate Apart(p: Path, a: Action, q: Path, b: Action)
  {
    Incomparable(p, q) || (a.Remove? && b.Remove?)
  }

  // ----- an operation keeps the other's path safe -----

  lemma {:induction false} StaysSafe(doc: Json, p: Path, a: Action, q: Path, b: Action)
    requires Safe(doc, p, a) && Safe(doc, q, b) && Apart(p, a, q, b)
    requires ApplyAt(doc, p, a).Ok?
    ensures Safe(ApplyAt(doc, p, a).value, q, b)
    decreases |p|, if doc.Null? then 1 else 0
  {
    PrefixStep(p, q);
    PrefixStep(q, p);
    match doc
    case Obj(m) =>
      if |p| > 1 && |q| > 1 && p[0] == q[0] && (p[0] in m || !a.Remove?) {
        StaysSafe(MemberOrNull(m, p[0]), p[1..], a, q[1..], b);
      }
    case Arr(xs) =>
      var i := ArrayIndex(p[0], |xs|).value;
      if p[0] == q[0] {
        StaysSafe(xs[i], p[1..], a, q[1..], b);
      }
    case Null =>
      if |p| > 1 {
        SafeNullTail(p, a);
      }
      if |q| > 1 {
        SafeNullTail(q, b);
      }
      NullActsEmpty(p, a);
      if a.Add? {
        StaysSafe(Obj(map[]), p, a, q, b);
      }
    case _ =>
  }

  // ----- two operations commute -----

  lemma {:induction false} CommuteAt(doc: Json, p: Path, a: Action, q: Path, b: Action)
    requires Safe(doc, p, a) && Safe(doc, q, b) && Apart(p, a, q, b)
    ensures Then(ApplyAt(doc, p, a), q, b) == Then(ApplyAt(doc, q, b), p, a)
    decreases |p|, if doc.Null? then 1 else 0
  {
    match doc
    case Obj(m) => CommuteInObject(m, p, a, q, b);
    case Arr(xs) => CommuteInArray(xs, p, a, q, b);
    case Null =>
      if |p| > 1 {
        SafeNullTail(p, a);
      }
      if |q| > 1 {
        SafeNullTail(q, b);
      }
      NullActsEmpty(p, a);
      NullActsEmpty(q, b);
      CommuteAt(Obj(map[]), p, a, q, b);
    case _ =>
  }

  lemma {:induction false} CommuteInObject(m: Object, p: Path, a: Action, q: Path, b: Action)
    requires Safe(Obj(m), p, a) && Safe(Obj(m), q, b) && Apart(p, a, q, b)
    ensures Then(ApplyAt(Obj(m), p, a), q, b) == Then(ApplyAt(Obj(m), q, b), p, a)
    decreases |p|, 0, 0
  {
    if p[0] != q[0] {
      CommuteAcrossMembers(m, p, a, q, b);
    } else {
      PrefixStep(p, q);
      PrefixStep(q, p);
      if |p| > 1 && |q| > 1 {
        CommuteAt(MemberOrNull(m, p[0]), p[1..], a, q[1..], b);
        CommuteDeeper(Get(m, p[0]), p, a, q, b);
      } else if |p| > 1 {
        RemoveSucceeds(MemberOrNull(m, p[0]), p[1..]);
      } else if |q| > 1 {
        RemoveSucceeds(MemberOrNull(m, q[0]), q[1..]);
      }
      CommuteInMember(m, p, a, q, b);
    }
  }

  function Get(m: Object, t: string): Option<Json>
  {
    if t in m then Some(m[t]) else None
  }

  function Put(m: Object, t: string, member: Option<Json>): Object
  {
    match member
    case Some(v) => m[t := v]
    case None => m - {t}
  }

  /** What an operation on an object does to the one member its first token names. */
  function Edit(member: Option<Json>, p: Path, a: Action): Result<Option<Json>>
    requires p != []
  {
    if |p| == 1 then
      match a
      case Add(v) => Ok(Some(v))
      case Remove => Ok(None)
      case Replace(v) => if member.Some? then Ok(Some(v)) else Err
    else if member.None? && a.Remove? then Ok(None)
    else
      var child :- ApplyAt(if member.Some? then member.value else Null, p[1..], a);
      Ok(Some(child))
  }

  lemma ObjectEdit(m: Object, p: Path, a: Action)
    requires p != []
    ensures ApplyAt(Obj(m), p, a) ==
            match Edit(Get(m, p[0]), p, a)
            case Err => Err
            case Ok(member) => Ok(Obj(Put(m, p[0], member)))
  {
    if p[0] !in m {
      assert m - {p[0]} == m;
    }
  }

  lemma PutTwice(m: Object, t: string, x: Option<Json>, u: string, y: Option<Json>)
    ensures Get(Put(m, t, x), t) == x
    ensures t == u ==> Put(Put(m, t, x), u, y) == Put(m, u, y)
    ensures t != u ==> Put(Put(m, t, x), u, y) == Put(Put(m, u, y), t, x) && Get(Put(m, t, x), u) == Get(m, u)
  {
  }

  lemma CommuteAcrossMembers(m: Object, p: Path, a: Action, q: Path, b: Action)
    requires p != [] && q != [] && p[0] != q[0]
    ensures Then(ApplyAt(Obj(m), p, a), q, b) == Then(ApplyAt(Obj(m), q, b), p, a)
  {
    ObjectEdit(m, p, a);
    ObjectEdit(m, q, b);
    var x, y := Edit(Get(m, p[0]), p, a), Edit(Get(m, q[0]), q, b);
    if x.Ok? {
      ObjectEdit(Put(m, p[0], x.value), q, b);
      PutTwice(m, p[0], x.value, q[0], None);
    }
    if y.Ok? {
      ObjectEdit(Put(m, q[0], y.value), p, a);
      PutTwice(m, q[0], y.value, p[0], None);
    }
    if x.Ok? && y.Ok? {
      PutTwice(m, p[0], x.value, q[0], y.value);
    }
  }

  /** Two operations on the same member commute when they commute inside it. */
  lemma CommuteInMember(m: Object, p: Path, a: Action, q: Path, b: Action)
    requires p != [] && q != [] && p[0] == q[0]
    requires var c := Get(m, p[0]);
             EditThen(Edit(c, p, a), q, b) == EditThen(Edit(c, q, b), p, a)
    ensures Then(ApplyAt(Obj(m), p, a), q, b) == Then(ApplyAt(Obj(m), q, b), p, a)
  {
    ObjectEdit(m, p, a);
    ObjectEdit(m, q, b);
    var t, c := p[0], Get(m, p[0]);
    var x, y := Edit(c, p, a), Edit(c, q, b);
    if x.Ok? {
      ObjectEdit(Put(m, t, x.value), q, b);
      PutTwice(m, t, x.value, t, EditThen(x, q, b).GetOr(None));
    }
    if y.Ok? {
      ObjectEdit(Put(m, t, y.value), p, a);
      PutTwice(m, t, y.value, t, EditThen(y, p, a).GetOr(None));
    }
  }

  function EditThen(r: Result<Option<Json>>, p: Path, a: Action): Result<Option<Json>>
    requires p != []
  {
    var member :- r;
    Edit(member, p, a)
  }

  /** Inside one member: both operations go deeper, or both only remove. */
  lemma CommuteDeeper(c: Option<Json>, p: Path, a: Action, q: Path, b: Action)
    requires |p| > 1 && |q| > 1
    requires var d := if c.Some? then c.value else Null;
             && Safe(d, p[1..], a) && Safe(d, q[1..], b)
             && Then(ApplyAt(d, p[1..], a), q[1..], b) == Then(ApplyAt(d, q[1..], b), p[1..], a)
    ensures EditThen(Edit(c, p, a), q, b) == EditThen(Edit(c, q, b), p, a)
  {
    if c.None? {
      NullActsEmpty(p[1..], a);
      NullActsEmpty(q[1..], b);
    }
  }

  lemma {:induction false} CommuteInArray(xs: seq<Json>, p: Path, a: Action, q: Path, b: Action)
    requires Safe(Arr(xs), p, a) && Safe(Arr(xs), q, b) && Apart(p, a, q, b)
    ensures Then(ApplyAt(Arr(xs), p, a), q, b) == Then(ApplyAt(Arr(xs), q, b), p, a)
    decreases |p|, 0, 0
  {
    var i, k := ArrayIndex(p[0], |xs|).value, ArrayIndex(q[0], |xs|).value;
    var x, y := ApplyAt(xs[i], p[1..], a), ApplyAt(xs[k], q[1..], b);
    if p[0] == q[0] {
      PrefixStep(p, q);
      PrefixStep(q, p);
      CommuteAt(xs[i], p[1..], a, q[1..], b);
      if x.Ok? {
        SameElement(xs, i, x.value, ApplyAt(x.value, q[1..], b));
      }
      if y.Ok? {
        SameElement(xs, i, y.value, ApplyAt(y.value, p[1..], a));
      }
    } else {
      TwoElements(xs, i, x.GetOr(Null), k, y.GetOr(Null));
    }
  }

  lemma TwoElements(xs: seq<Json>, i: nat, v: Json, k: nat, w: Json)
    requires i < |xs| && k < |xs| && i != k
    ensures xs[i := v][k := w] == xs[k := w][i := v]
  {
  }

  lemma SameElement(xs: seq<Json>, i: nat, v: Json, w: Result<Json>)
    requires i < |xs|
    ensures w.Ok? ==> xs[i := v][i := w.value] == xs[i := w.value]
  {
  }

  // ----- whole patches -----

  /** Two operations that do not get in each other's way. */
  predicate Independent(x: Operation, y: Operation)
  {
    var r, s := Resolve(x), Resolve(y);
    r.Ok? && s.Ok? ==> Apart(r.value.path, r.value.action, s.value.path, s.value.action)
  }

  predicate PairwiseIndependent(ops: seq<Operation>)
  {
    forall i, k :: 0 <= i < k < |ops| ==> Independent(ops[i], ops[k])
  }

  predicate SafeOp(doc: Json, op: Operation)
  {
    var step := Resolve(op);
    step.Ok? ==> Safe(doc, step.value.path, step.value.action)
  }

  predicate AllSafe(doc: Json, ops: seq<Operation>)
  {
    forall op <- ops :: SafeOp(doc, op)
  }

  lemma StaySafe(doc: Json, op: Operation, ops: seq<Operation>)
    requires SafeOp(doc, op) && AllSafe(doc, ops)
    requires forall x <- ops :: Independent(op, x)
    requires ApplyOp(doc, op).Ok?
    ensures AllSafe(ApplyOp(doc, op).value, ops)
  {
    var step := Resolve(op).value;
    forall x | x in ops && Resolve(x).Ok?
      ensures SafeOp(ApplyOp(doc, op).value, x)
    {
      assert SafeOp(doc, x) && Independent(op, x);
      var other := Resolve(x).value;
      StaysSafe(doc, step.path, step.action, other.path, other.action);
    }
  }

  lemma SwapFront(doc: Json, x: Operation, y: Operation, rest: seq<Operation>)
    requires SafeOp(doc, x) && SafeOp(doc, y) && Independent(x, y)
    ensures ApplyAll(doc, [x, y] + rest) == ApplyAll(doc, [y, x] + rest)
  {
    ApplyAllAppend(doc, [x, y], rest);
    ApplyAllAppend(doc, [y, x], rest);
    ApplyTwo(doc, x, y);
    ApplyTwo(doc, y, x);
    var r, s := Resolve(x), Resolve(y);
    if r.Ok? && s.Ok? {
      CommuteAt(doc, r.value.path, r.value.action, s.value.path, s.value.action);
    }
  }

  lemma ApplyTwo(doc: Json, x: Operation, y: Operation)
    ensures ApplyAll(doc, [x, y]) == match ApplyOp(doc, x) case Err => Err case Ok(next) => ApplyOp(next, y)
  {
    var first := ApplyOp(doc, x);
    assert [x, y][1..] == [y];
    if first.Ok? {
      assert [y][1..] == [];
      assert ApplyAll(first.value, [y]) == ApplyOp(first.value, y);
    }
  }

  /** An operation independent of all those before it may just as well come first. */
  lemma {:induction false} BringForward(doc: Json, xs: seq<Operation>, op: Operation, ys: seq<Operation>)
    requires AllSafe(doc, xs) && SafeOp(doc, op)
    requires PairwiseIndependent(xs) && forall x <- xs :: Independent(x, op)
    ensures ApplyAll(doc, xs + [op] + ys) == ApplyAll(doc, [op] + xs + ys)
    decreases |xs|
  {
    if xs == [] {
      assert xs + [op] + ys == [op] + xs + ys;
    } else {
      var x, rest := xs[0], xs[1..];
      assert xs + [op] + ys == [x] + (rest + [op] + ys);
      assert [op] + xs + ys == [op, x] + (rest + ys);
      assert [x, op] + (rest + ys) == [x] + ([op] + rest + ys);
      var first := ApplyOp(doc, x);
      if first.Ok? {
        forall y | y in rest + [op] ensures Independent(x, y) && SafeOp(doc, y) {
          if y in rest {
            var k :| 0 <= k < |rest| && rest[k] == y;
            assert xs[k + 1] == y;
          }
        }
        StaySafe(doc, x, rest + [op]);
        assert forall y <- rest :: y in rest + [op];
        assert op in rest + [op];
        BringForward(first.value, rest, op, ys);
      }
      SwapFront(doc, x, op, rest + ys);
    }
  }

  lemma IndependentSymmetric(x: Operation, y: Operation)
    requires Independent(x, y)
    ensures Independent(y, x)
  {
  }

  lemma FirstIndependent(ops: seq<Operation>, others: seq<Operation>)
    requires PairwiseIndependent(ops) && ops != [] && multiset(ops[1..]) == multiset(others)
    ensures forall x <- others :: x in ops && Independent(ops[0], x) && Independent(x, ops[0])
  {
    forall x | x in others ensures x in ops && Independent(ops[0], x) && Independent(x, ops[0]) {
      assert x in multiset(others);
      var k :| 0 <= k < |ops[1..]| && ops[1..][k] == x;
      assert ops[k + 1] == x;
      IndependentSymmetric(ops[0], x);
    }
  }

  lemma PrefixIndependent(xs: seq<Operation>, ys: seq<Operation>)
    requires PairwiseIndependent(xs + ys)
    ensures PairwiseIndependent(xs)
  {
    assert xs == (xs + ys)[..|xs|];
  }

  lemma {:induction false} PermutedIndependent(ops: seq<Operation>, permuted: seq<Operation>)
    requires PairwiseIndependent(ops) && multiset(ops) == multiset(permuted)
    ensures PairwiseIndependent(permuted)
    decreases |ops|
  {
    if ops == [] {
      assert |permuted| == |multiset(permuted)| == 0;
    } else {
      var op, rest := ops[0], ops[1..];
      assert ops == [op] + rest;
      var xs, ys := TakeOut(permuted, op);
      assert multiset(rest) == multiset(xs + ys);
      PermutedIndependent(rest, xs + ys);
      FirstIndependent(ops, xs + ys);
      InsertIndependent(xs, op, ys);
    }
  }

  lemma InsertIndependent(xs: seq<Operation>, op: Operation, ys: seq<Operation>)
    requires PairwiseIndependent(xs + ys)
    requires forall x <- xs + ys :: Independent(op, x) && Independent(x, op)
    ensures PairwiseIndependent(xs + [op] + ys)
  {
    var all, others := xs + [op] + ys, xs + ys;
    forall i, k | 0 <= i < k < |all| ensures Independent(all[i], all[k]) {
      var i', k' := if i < |xs| then i else i - 1, if k < |xs| then k else k - 1;
      if i != |xs| {
        assert all[i] == others[i'];
      }
      if k != |xs| {
        assert all[k] == others[k'];
      }
    }
  }

  /** The first operation, wherever a permutation puts it, may be applied first. */
  lemma PullFront(doc: Json, ops: seq<Operation>, xs: seq<Operation>, ys: seq<Operation>)
    requires ops != [] && PairwiseIndependent(ops) && AllSafe(doc, ops) && multiset(ops[1..]) == multiset(xs + ys)
    ensures ApplyAll(doc, xs + [ops[0]] + ys) == ApplyAll(doc, [ops[0]] + (xs + ys))
  {
    var op := ops[0];
    TailIndependent(ops);
    PermutedIndependent(ops[1..], xs + ys);
    FirstIndependent(ops, xs + ys);
    PrefixIndependent(xs, ys);
    assert forall x <- xs :: x in xs + ys;
    BringForward(doc, xs, op, ys);
    assert [op] + xs + ys == [op] + (xs + ys);
  }

  lemma TailIndependent(ops: seq<Operation>)
    requires ops != [] && PairwiseIndependent(ops)
    ensures PairwiseIndependent(ops[1..])
  {
  }

  lemma StepSafe(doc: Json, ops: seq<Operation>)
    requires ops != [] && PairwiseIndependent(ops) && AllSafe(doc, ops) && ApplyOp(doc, ops[0]).Ok?
    ensures AllSafe(ApplyOp(doc, ops[0]).value, ops[1..])
  {
    forall x | x in ops[1..] ensures Independent(ops[0], x) && SafeOp(doc, x) {
      var k :| 0 <= k < |ops[1..]| && ops[1..][k] == x;
      assert ops[k + 1] == x;
    }
    StaySafe(doc, ops[0], ops[1..]);
  }

  /**
   * The order in which independent operations are applied never shows: every order fails, or every
   * order gives the same document.
   */
  lemma {:induction false} OrderIrrelevant(doc: Json, ops: seq<Operation>, permuted: seq<Operation>)
    requires PairwiseIndependent(ops) && AllSafe(doc, ops)
    requires multiset(ops) == multiset(permuted)
    ensures ApplyAll(doc, ops) == ApplyAll(doc, permuted)
    decreases |ops|
  {
    if ops == [] {
      assert |permuted| == |multiset(permuted)| == 0;
    } else {
      var op, rest := ops[0], ops[1..];
      assert ops == [op] + rest;
      var xs, ys := TakeOut(permuted, op);
      PullFront(doc, ops, xs, ys);
      ApplyAllHead(doc, op, rest);
      ApplyAllHead(doc, op, xs + ys);
      if ApplyOp(doc, op).Ok? {
        StepSafe(doc, ops);
        TailIndependent(ops);
        OrderIrrelevant(ApplyOp(doc, op).value, rest, xs + ys);
      }
    }
  }
}
