/**
 * RFC 6902 add, remove and replace (sections 4.1, 4.2 and 4.3) under the two options the applier
 * sets: a missing path is created on add and ignored on remove.
 */
module Patch {
  import opened Wrappers
  import opened Strconv
  import opened Json
  import Pointer

  /**
   * One member of an operation: a readable value, absent, null, or bytes that do not decode.  A null that
   * came from JSON text is a nil pointer to the patch library; `Present(Null)` are the bytes "null" behind
   * a pointer, which only an operation that was not decoded from text can hold.
   */
  datatype Field<+T> = Present(v: T) | Missing | Nil | Malformed(raw: string)

  datatype Operation = Operation(kind: string, path: Field<string>, from: Field<string>, value: Field<Json>)

  datatype Action = Add(value: Json) | Remove | Replace(value: Json)

  datatype Step = Step(path: Path, action: Action)

  function RemoveOp(text: string): Operation
  {
    Operation("remove", Present(text), Missing, Missing)
  }

  /** A value as `DecodePatch` leaves it. */
  function Decoded(value: Json): Field<Json>
  {
    if value.Null? then Nil else Present(value)
  }

  function AddOp(text: string, value: Json): Operation
  {
    Operation("add", Present(text), Missing, Decoded(value))
  }

  /** The value an operation writes: a nil pointer is stored, read back and written as null. */
  function WrittenValue(op: Operation): Option<Json>
  {
    match op.value
    case Present(v) => Some(v)
    case Nil => Some(Null)
    case _ => None
  }

  /** What an operation asks for.  Operations of another kind are outside this model. */
  function Resolve(op: Operation): Result<Step>
  {
    if !op.path.Present? then Err
    else
      match Pointer.Read(op.path.v)
      case None => Err
      case Some(path) =>
        if op.kind == "remove" then Ok(Step(path, Remove))
        else if op.kind == "add" && WrittenValue(op).Some? then Ok(Step(path, Add(WrittenValue(op).value)))
        else if op.kind == "replace" && WrittenValue(op).Some? then Ok(Step(path, Replace(WrittenValue(op).value)))
        else Err
  }

  /** Exactly what a readable operation asks for, by its kind. */
  lemma ResolveIs(op: Operation, path: Path)
    requires op.path.Present? && Pointer.Read(op.path.v) == Some(path)
    ensures op.kind == "remove" ==> Resolve(op) == Ok(Step(path, Remove))
    ensures op.kind == "add" ==>
      Resolve(op) ==
      match op.value
      case Present(v) => Ok(Step(path, Add(v)))
      case Nil => Ok(Step(path, Add(Null)))
      case _ => Err
    ensures op.kind == "replace" ==>
      Resolve(op) ==
      match op.value
      case Present(v) => Ok(Step(path, Replace(v)))
      case Nil => Ok(Step(path, Replace(Null)))
      case _ => Err
    ensures op.kind != "remove" && op.kind != "add" && op.kind != "replace" ==> Resolve(op) == Err
  {
    var add, remove, replace := "add", "remove", "replace";
    assert |add| == 3 && |remove| == 6 && |replace| == 7;
  }

  /** Operations written for a list of tokens mean those tokens. */
  lemma ResolveWritten(path: Path, value: Json)
    ensures Resolve(AddOp(Pointer.Write(path), value)) == Ok(Step(path, Add(value)))
    ensures Resolve(RemoveOp(Pointer.Write(path))) == Ok(Step(path, Remove))
  {
    Pointer.ReadWrite(path);
  }

  /** Creating the container a token like this points into would create an array. */
  predicate CreatesArray(token: string)
  {
    token == "-" || Atoi(token).Some?
  }

  function ApplyMember(m: Object, name: string, action: Action): Result<Json>
  {
    match action
    case Add(v) => Ok(Obj(m[name := v]))
    case Remove => Ok(Obj(m - {name}))
    case Replace(v) => if name in m then Ok(Obj(m[name := v])) else Err
  }

  function ApplyElement(xs: seq<Json>, token: string, action: Action): Result<Json>
  {
    match action
    case Add(v) =>
      if token == "-" then Ok(Arr(xs + [v]))
      else
        (match ArrayIndex(token, |xs| + 1)
         case Some(i) => Ok(Arr(xs[..i] + [v] + xs[i..]))
         case None => Err)
    case Remove =>
      (match ArrayIndex(token, |xs|)
       case Some(i) => Ok(Arr(xs[..i] + xs[i + 1..]))
       case None => if IsIndex(token) then Ok(Arr(xs)) else Err)
    case Replace(v) =>
      (match ArrayIndex(token, |xs|)
       case Some(i) => Ok(Arr(xs[i := v]))
       case None => Err)
  }

  /** Carry out `action` at `path` of `doc`. */
  function ApplyAt(doc: Json, path: Path, action: Action): Result<Json>
    decreases |path|, if doc.Null? then 1 else 0
  {
    if path == [] then
      if action.Remove? then Ok(doc) else Ok(action.value)
    else
      match doc
      case Obj(m) =>
        if |path| == 1 then ApplyMember(m, path[0], action)
        else if path[0] !in m && action.Remove? then Ok(doc)
        else
          var child :- ApplyAt(MemberOrNull(m, path[0]), path[1..], action);
          Ok(Obj(m[path[0] := child]))
      case Arr(xs) =>
        if |path| == 1 then ApplyElement(xs, path[0], action)
        else
          (match ArrayIndex(path[0], |xs|)
           case Some(i) =>
             var child :- ApplyAt(xs[i], path[1..], action);
             Ok(Arr(xs[i := child]))
           case None => if action.Remove? then Ok(doc) else Err)
      case Null =>
        if action.Remove? then Ok(doc)
        else if action.Replace? || CreatesArray(path[0]) then Err
        else ApplyAt(Obj(map[]), path, action)
      case _ => if action.Remove? then Ok(doc) else Err
  }

  /** The empty path names the document itself; removing it counts as removing nothing. */
  lemma RootEffects(doc: Json, v: Json)
    ensures ApplyAt(doc, [], Add(v)) == ApplyAt(doc, [], Replace(v)) == Ok(v)
    ensures ApplyAt(doc, [], Remove) == Ok(doc)
  {
  }

  /** Lists would be created for "-" and for numbers, and for nothing that starts with another character. */
  lemma ListTokens(token: string, n: nat)
    ensures CreatesArray("-")
    ensures n <= MAX_INT64 ==> CreatesArray(Decimal(n))
    ensures token != "" && !IsDigit(token[0]) && token[0] != '-' && token[0] != '+' ==> !CreatesArray(token)
  {
    if n <= MAX_INT64 {
      AtoiOfDecimal(n);
    }
    if token != "" {
      assert token[0] in token;
    }
  }

  function ApplyOp(doc: Json, op: Operation): Result<Json>
  {
    var step :- Resolve(op);
    ApplyAt(doc, step.path, step.action)
  }

  /** `patch.ApplyWithOptions`: one operation after the other; the first failure fails the patch. */
  function ApplyAll(doc: Json, ops: seq<Operation>): Result<Json>
    decreases |ops|
  {
    if ops == [] then Ok(doc)
    else
      var next :- ApplyOp(doc, ops[0]);
      ApplyAll(next, ops[1..])
  }

  lemma ApplyAllHead(doc: Json, op: Operation, rest: seq<Operation>)
    ensures ApplyAll(doc, [op] + rest) ==
            match ApplyOp(doc, op) case Err => Err case Ok(next) => ApplyAll(next, rest)
  {
    assert ([op] + rest)[1..] == rest;
  }

  lemma {:induction false} ApplyAllAppend(doc: Json, xs: seq<Operation>, ys: seq<Operation>)
    ensures ApplyAll(doc, xs + ys) ==
            match ApplyAll(doc, xs) case Err => Err case Ok(next) => ApplyAll(next, ys)
    decreases |xs|
  {
    if xs == [] {
      assert xs + ys == ys;
    } else {
      assert (xs + ys)[1..] == xs[1..] + ys;
      var first := ApplyOp(doc, xs[0]);
      if first.Ok? {
        ApplyAllAppend(first.value, xs[1..], ys);
      }
    }
  }

  // ----- where an operation may work -----

  predicate Prefix(p: Path, q: Path)
  {
    |p| <= |q| && q[..|p|] == p
  }

  predicate Incomparable(p: Path, q: Path)
  {
    !Prefix(p, q) && !Prefix(q, p)
  }

  lemma PrefixStep(p: Path, q: Path)
    requires p != [] && q != []
    ensures Prefix(p, q) <==> p[0] == q[0] && Prefix(p[1..], q[1..])
  {
    if Prefix(p, q) {
      assert q[..|p|][0] == p[0];
      assert q[1..][..|p| - 1] == q[..|p|][1..];
    }
    if p[0] == q[0] && Prefix(p[1..], q[1..]) {
      assert q[..|p|] == [q[0]] + q[1..][..|p| - 1] == [p[0]] + p[1..] == p;
    }
  }

  /**
   * The last token of `path` names an object member, every array on the way is indexed at an
   * existing element, and whatever an add would have to create on the way are objects.
   */
  predicate Safe(doc: Json, path: Path, action: Action)
    decreases |path|
  {
    path != [] &&
    match doc
    case Obj(m) => |path| == 1 || Safe(MemberOrNull(m, path[0]), path[1..], action)
    case Arr(xs) =>
      (match ArrayIndex(path[0], |xs|)
       case Some(i) => |path| > 1 && Safe(xs[i], path[1..], action)
       case None => false)
    case Null => action.Add? ==> forall t <- path :: !CreatesArray(t)
    case _ => true
  }

  lemma SafeNullTail(path: Path, action: Action)
    requires |path| > 1 && Safe(Null, path, action)
    ensures Safe(Null, path[1..], action) && Safe(Obj(map[]), path, action)
  {
  }

  /** Below a missing value, add starts from an empty object; the other actions never create one. */
  lemma NullActsEmpty(path: Path, action: Action)
    requires Safe(Null, path, action)
    ensures action.Add? ==> ApplyAt(Null, path, action) == ApplyAt(Obj(map[]), path, action)
    ensures action.Replace? ==> ApplyAt(Null, path, action).Err? && ApplyAt(Obj(map[]), path, action).Err?
    ensures action.Remove? ==> ApplyAt(Null, path, action) == Ok(Null) &&
                               ApplyAt(Obj(map[]), path, action) == Ok(Obj(map[]))
  {
    assert path[0] in path;
    var none: Object := map[];
    if |path| == 1 {
      assert none - {path[0]} == none;
    } else if action.Replace? {
      assert MemberOrNull(none, path[0]) == Null;
    }
  }

  /** Removing a safe path always succeeds. */
  lemma {:induction false} RemoveSucceeds(doc: Json, path: Path)
    requires Safe(doc, path, Remove)
    ensures ApplyAt(doc, path, Remove).Ok?
    decreases |path|
  {
    if |path| > 1 {
      match doc
      case Obj(m) => RemoveSucceeds(MemberOrNull(m, path[0]), path[1..]);
      case Arr(xs) => RemoveSucceeds(xs[ArrayIndex(path[0], |xs|).value], path[1..]);
      case _ =>
    }
  }

  // ----- list elements -----

  lemma ReadElement(xs: seq<Json>, k: nat)
    requires k < |xs|
    ensures Lookup(Arr(xs), [Decimal(k)]) == Some(xs[k])
  {
    ArrayIndexOfDecimal(k, |xs|);
    var path := [Decimal(k)];
    assert path[1..] == [];
    assert Lookup(xs[k], []) == Some(xs[k]);
  }

  lemma NotDash(token: string, dash: string)
    requires IsIndex(token) && dash == "-"
    ensures token != dash
  {
    assert !IsDigit(dash[0]);
    assert dash[0] in dash;
  }

  lemma AddedElement(xs: seq<Json>, i: nat, v: Json)
    requires i <= |xs|
    ensures ApplyElement(xs, Decimal(i), Add(v)) == Ok(Arr(xs[..i] + [v] + xs[i..]))
  {
    ArrayIndexOfDecimal(i, |xs| + 1);
    NotDash(Decimal(i), "-");
  }

  /** Adding to a list puts the value at the index and shifts the later elements; none is lost. */
  lemma AddShifts(xs: seq<Json>, i: nat, v: Json, k: nat)
    requires i <= |xs| && k <= |xs|
    ensures ApplyElement(xs, Decimal(i), Add(v)).Ok?
    ensures Lookup(ApplyElement(xs, Decimal(i), Add(v)).value, [Decimal(k)])
         == Some(if k < i then xs[k] else if k == i then v else xs[k - 1])
  {
    AddedElement(xs, i, v);
    InsertedAt(xs, i, v, k);
    ReadElement(xs[..i] + [v] + xs[i..], k);
  }

  lemma InsertedAt<T>(xs: seq<T>, i: nat, v: T, k: nat)
    requires i <= |xs| && k <= |xs|
    ensures (xs[..i] + [v] + xs[i..])[k] == if k < i then xs[k] else if k == i then v else xs[k - 1]
  {
  }

  /** Removing undoes adding, at the end as in the middle, and replacing changes one element only. */
  lemma RemoveUndoesAdd(xs: seq<Json>, i: nat, v: Json, w: Json)
    requires i <= |xs|
    ensures var added := ApplyElement(xs, Decimal(i), Add(v));
            && added.Ok? && added.value.Arr?
            && ApplyElement(added.value.items, Decimal(i), Remove) == Ok(Arr(xs))
            && ApplyElement(added.value.items, Decimal(i), Replace(w)) == ApplyElement(xs, Decimal(i), Add(w))
  {
    AddedElement(xs, i, v);
    AddedElement(xs, i, w);
    var ys := xs[..i] + [v] + xs[i..];
    ArrayIndexOfDecimal(i, |ys|);
    assert ys[..i] + ys[i + 1..] == xs;
    assert ys[i := w] == xs[..i] + [w] + xs[i..];
  }

  /** "-" means the place after the last element; removing there or beyond changes nothing. */
  lemma PastTheEnd(xs: seq<Json>, n: nat, v: Json)
    requires n >= |xs|
    ensures ApplyElement(xs, "-", Add(v)) == ApplyElement(xs, Decimal(|xs|), Add(v))
    ensures ApplyElement(xs, Decimal(n), Remove) == Ok(Arr(xs))
    ensures ApplyElement(xs, Decimal(n), Replace(v)) == Err
  {
    AddedElement(xs, |xs|, v);
    assert xs[..|xs|] + [v] + xs[|xs|..] == xs + [v];
    ArrayIndexOfDecimal(n, |xs|);
    ValueOfDecimal(n);
  }

  // ----- what an operation leaves in place -----

  /** Afterwards the path holds the value written, or nothing. */
  lemma {:induction false} EffectAt(doc: Json, p: Path, action: Action, q: Path)
    requires Safe(doc, p, action) && ApplyAt(doc, p, action).Ok?
    ensures var after := ApplyAt(doc, p, action).value;
            Lookup(after, p + q) == if action.Remove? then None else Lookup(action.value, q)
    decreases |p|, if doc.Null? then 1 else 0
  {
    assert (p + q)[1..] == p[1..] + q;
    if |p| == 1 {
      assert p[1..] + q == q;
    }
    match doc
    case Obj(m) =>
      if |p| > 1 {
        if p[0] in m || !action.Remove? {
          EffectAt(MemberOrNull(m, p[0]), p[1..], action, q);
        }
      }
    case Arr(xs) =>
      EffectAt(xs[ArrayIndex(p[0], |xs|).value], p[1..], action, q);
    case Null =>
      if |p| > 1 {
        SafeNullTail(p, action);
      }
      NullActsEmpty(p, action);
      if action.Add? {
        EffectAt(Obj(map[]), p, action, q);
      }
    case _ =>
  }

  /** A path that is neither above nor below keeps its value, or its absence. */
  lemma {:induction false} FrameAt(doc: Json, p: Path, action: Action, q: Path)
    requires Safe(doc, p, action) && ApplyAt(doc, p, action).Ok?
    requires Incomparable(p, q)
    ensures Lookup(ApplyAt(doc, p, action).value, q) == Lookup(doc, q)
    decreases |p|, if doc.Null? then 1 else 0
  {
    PrefixStep(p, q);
    PrefixStep(q, p);
    match doc
    case Obj(m) =>
      if |p| > 1 && p[0] == q[0] && (p[0] in m || !action.Remove?) {
        FrameAt(MemberOrNull(m, p[0]), p[1..], action, q[1..]);
      }
    case Arr(xs) =>
      var i := ArrayIndex(p[0], |xs|).value;
      var k := ArrayIndex(q[0], |xs|);
      if k == Some(i) {
        FrameAt(xs[i], p[1..], action, q[1..]);
      }
    case Null =>
      if |p| > 1 {
        SafeNullTail(p, action);
      }
      NullActsEmpty(p, action);
      if action.Add? {
        FrameAt(Obj(map[]), p, action, q);
      }
    case _ =>
  }
}
