/** When an operation fails and when it changes nothing, by what can be looked up before it is applied. */
module Outcomes {
  import opened Wrappers
  import opened Json
  import opened Patch

  /** The path ends in a token for an element of an existing list. */
  predicate InList(doc: Json, path: Path)
    requires path != []
  {
    var list := Lookup(doc, path[..|path| - 1]);
    list.Some? && list.value.Arr?
  }

  predicate NeedsList(rest: Path)
  {
    exists t <- rest :: CreatesArray(t)
  }

  /** An add cannot get past value `x` along `rest`. */
  predicate Blocks(x: Option<Json>, rest: Path)
    requires rest != []
  {
    match x
    case None => false
    case Some(Obj(m)) => rest[0] !in m && NeedsList(rest[1..])
    case Some(Arr(xs)) =>
      if |rest| == 1 then rest[0] != "-" && ArrayIndex(rest[0], |xs| + 1).None? else ArrayIndex(rest[0], |xs|).None?
    case Some(Null) => NeedsList(rest)
    case _ => true
  }

  ghost predicate Blocked(doc: Json, path: Path)
  {
    exists n :: 0 <= n < |path| && Blocks(Lookup(doc, path[..n]), path[n..])
  }

  /** The operation fails. */
  ghost predicate Refused(doc: Json, path: Path, action: Action)
    requires path != []
  {
    match action
    case Add(_) => Blocked(doc, path)
    case Remove => InList(doc, path) && !IsIndex(path[|path| - 1])
    case Replace(_) => Lookup(doc, path) == None
  }

  /** The operation succeeds and changes nothing. */
  ghost predicate Settles(doc: Json, path: Path, action: Action)
    requires path != []
  {
    match action
    case Add(w) => Lookup(doc, path) == Some(w) && !InList(doc, path)
    case Remove => Lookup(doc, path) == None && !Refused(doc, path, action)
    case Replace(w) => Lookup(doc, path) == Some(w)
  }

  // ----- going down one token -----

  lemma LookupBelow(doc: Json, path: Path, n: nat)
    requires 0 < n <= |path|
    ensures Lookup(doc, path[..n]) ==
            match Child(doc, path[0]) case Some(child) => Lookup(child, path[1..][..n - 1]) case None => None
  {
    assert path[..n][0] == path[0] && path[..n][1..] == path[1..][..n - 1];
  }

  lemma InListBelow(doc: Json, path: Path)
    requires |path| > 1
    ensures InList(doc, path) <==> Child(doc, path[0]).Some? && InList(Child(doc, path[0]).value, path[1..])
  {
    LookupBelow(doc, path, |path| - 1);
  }

  lemma BlockedBelow(doc: Json, path: Path)
    requires path != []
    ensures Blocked(doc, path) <==>
            Blocks(Some(doc), path) ||
            (|path| > 1 && Child(doc, path[0]).Some? && Blocked(Child(doc, path[0]).value, path[1..]))
  {
    assert path[..0] == [] && path[0..] == path;
    var child := Child(doc, path[0]);
    if n :| 0 <= n < |path| && Blocks(Lookup(doc, path[..n]), path[n..]) && n > 0 {
      LookupBelow(doc, path, n);
      assert path[1..][n - 1..] == path[n..];
      assert Blocks(Lookup(child.value, path[1..][..n - 1]), path[1..][n - 1..]);
    }
    if |path| > 1 && child.Some? {
      if n :| 0 <= n < |path| - 1 && Blocks(Lookup(child.value, path[1..][..n]), path[1..][n..]) {
        LookupBelow(doc, path, n + 1);
        assert path[1..][n..] == path[n + 1..];
        assert Blocks(Lookup(doc, path[..n + 1]), path[n + 1..]);
      }
    }
    if Blocks(Some(doc), path) {
      assert Blocks(Lookup(doc, path[..0]), path[0..]);
    }
  }

  // ----- failures -----

  lemma {:induction false} CreateFailsIff(path: Path, v: Json)
    requires path != []
    ensures ApplyAt(Null, path, Add(v)).Err? <==> NeedsList(path)
    decreases |path|
  {
    assert path == [path[0]] + path[1..];
    if |path| > 1 {
      CreateFailsIff(path[1..], v);
    }
  }

  lemma {:induction false} AddFailsIff(doc: Json, path: Path, v: Json)
    requires path != []
    ensures ApplyAt(doc, path, Add(v)).Err? <==> Blocked(doc, path)
    decreases |path|
  {
    BlockedBelow(doc, path);
    match doc
    case Obj(m) =>
      if |path| > 1 {
        if path[0] in m {
          AddFailsIff(m[path[0]], path[1..], v);
        } else {
          CreateFailsIff(path[1..], v);
        }
      }
    case Arr(xs) =>
      if |path| > 1 && ArrayIndex(path[0], |xs|).Some? {
        AddFailsIff(xs[ArrayIndex(path[0], |xs|).value], path[1..], v);
      }
    case Null => CreateFailsIff(path, v);
    case _ =>
  }

  lemma {:induction false} ReplaceFailsIff(doc: Json, path: Path, v: Json)
    ensures path != [] ==> (ApplyAt(doc, path, Replace(v)).Err? <==> Lookup(doc, path) == None)
    decreases |path|
  {
    if |path| == 1 {
      assert path[1..] == [];
    } else if |path| > 1 {
      match doc
      case Obj(m) => ReplaceFailsIff(MemberOrNull(m, path[0]), path[1..], v);
      case Arr(xs) =>
        if ArrayIndex(path[0], |xs|).Some? {
          ReplaceFailsIff(xs[ArrayIndex(path[0], |xs|).value], path[1..], v);
        }
      case _ =>
    }
  }

  lemma {:induction false} RemoveFailsIff(doc: Json, path: Path)
    requires path != []
    ensures ApplyAt(doc, path, Remove).Err? <==> InList(doc, path) && !IsIndex(path[|path| - 1])
    decreases |path|
  {
    if |path| == 1 {
      assert path[..0] == [];
    } else {
      InListBelow(doc, path);
      match doc
      case Obj(m) =>
        if path[0] in m {
          RemoveFailsIff(m[path[0]], path[1..]);
        }
      case Arr(xs) =>
        if ArrayIndex(path[0], |xs|).Some? {
          RemoveFailsIff(xs[ArrayIndex(path[0], |xs|).value], path[1..]);
        }
      case _ =>
    }
  }

  /** Exactly which operations fail. */
  lemma FailsIff(doc: Json, path: Path, action: Action)
    requires path != []
    ensures ApplyAt(doc, path, action).Err? <==> Refused(doc, path, action)
  {
    match action
    case Add(v) => AddFailsIff(doc, path, v);
    case Remove => RemoveFailsIff(doc, path);
    case Replace(v) => ReplaceFailsIff(doc, path, v);
  }

  predicate IsScalar(v: Json)
  {
    v.Bool? || v.Num? || v.Str?
  }

  /** Some value on the way to the path is neither a container nor null. */
  ghost predicate ScalarAbove(doc: Json, path: Path)
  {
    exists n :: 0 <= n < |path| && Lookup(doc, path[..n]).Some? && IsScalar(Lookup(doc, path[..n]).value)
  }

  lemma SafeStep(doc: Json, path: Path, n: nat, action: Action)
    requires Safe(doc, path, action) && n < |path| && Lookup(doc, path[..n]).Some?
    ensures Safe(Lookup(doc, path[..n]).value, path[n..], action)
    decreases n
  {
    if n == 0 {
      assert path[..0] == [] && path[0..] == path;
    } else {
      LookupBelow(doc, path, n);
      SafeStep(Child(doc, path[0]).value, path[1..], n - 1, action);
      assert path[1..][n - 1..] == path[n..];
    }
  }

  /** On a safe path only a scalar on the way makes an add fail. */
  lemma SafeAddFailsIff(doc: Json, path: Path, v: Json)
    requires Safe(doc, path, Add(v))
    ensures ApplyAt(doc, path, Add(v)).Err? <==> ScalarAbove(doc, path)
  {
    AddFailsIff(doc, path, v);
    forall n | 0 <= n < |path| && Lookup(doc, path[..n]).Some?
      ensures Blocks(Lookup(doc, path[..n]), path[n..]) <==> IsScalar(Lookup(doc, path[..n]).value)
    {
      SafeStep(doc, path, n, Add(v));
      SafeBlocks(Lookup(doc, path[..n]).value, path[n..], v);
    }
  }

  lemma SafeBlocks(x: Json, rest: Path, v: Json)
    requires Safe(x, rest, Add(v))
    ensures Blocks(Some(x), rest) <==> IsScalar(x)
  {
    if x.Obj? && rest[0] !in x.members && |rest| > 1 {
      assert Safe(Null, rest[1..], Add(v));
    }
  }

  // ----- operations that change nothing -----

  /** Exactly which operations succeed and leave the document as it is. */
  lemma {:induction false} SettlesIff(doc: Json, path: Path, action: Action)
    requires path != []
    ensures ApplyAt(doc, path, action) == Ok(doc) <==> Settles(doc, path, action)
    decreases |path|
  {
    RefusedBelow(doc, path, action);
    if |path| == 1 {
      SettlesHere(doc, path[0], action);
      assert path == [path[0]];
    } else {
      InListBelow(doc, path);
      match doc
      case Obj(m) =>
        if path[0] in m {
          SettlesIff(m[path[0]], path[1..], action);
          SetMember(m, path[0], ApplyAt(m[path[0]], path[1..], action).GetOr(Null));
        }
      case Arr(xs) =>
        var i := ArrayIndex(path[0], |xs|);
        if i.Some? {
          SettlesIff(xs[i.value], path[1..], action);
          SetElement(xs, i.value, ApplyAt(xs[i.value], path[1..], action).GetOr(Null));
        }
      case _ =>
    }
  }

  lemma RefusedBelow(doc: Json, path: Path, action: Action)
    requires path != []
    ensures action.Remove? && |path| > 1 ==>
      var child := Child(doc, path[0]);
      (Refused(doc, path, action) <==> child.Some? && Refused(child.value, path[1..], action))
  {
    if |path| > 1 {
      InListBelow(doc, path);
    }
  }

  lemma SetMember(m: Object, t: string, v: Json)
    requires t in m
    ensures Obj(m[t := v]) == Obj(m) <==> v == m[t]
  {
    assert m[t := m[t]] == m;
    assert m[t := v][t] == v;
  }

  lemma SetElement(xs: seq<Json>, i: nat, v: Json)
    requires i < |xs|
    ensures Arr(xs[i := v]) == Arr(xs) <==> v == xs[i]
  {
    assert xs[i := xs[i]] == xs && xs[i := v][i] == v;
  }

  lemma SettlesHere(doc: Json, token: string, action: Action)
    ensures ApplyAt(doc, [token], action) == Ok(doc) <==> Settles(doc, [token], action)
  {
    var path := [token];
    assert path[..0] == [] && path[1..] == [];
    assert Lookup(doc, []) == Some(doc) && (InList(doc, path) <==> doc.Arr?);
    match doc
    case Obj(m) =>
      MemberSettles(m, token, action);
      assert token in m ==> Lookup(m[token], []) == Some(m[token]);
    case Arr(xs) =>
      ElementSettles(xs, token, action);
      var i := ArrayIndex(token, |xs|);
      assert i.Some? ==> Lookup(xs[i.value], []) == Some(xs[i.value]);
    case _ =>
  }

  lemma MemberSettles(m: Object, token: string, action: Action)
    ensures ApplyMember(m, token, action) == Ok(Obj(m)) <==>
            match action
            case Remove => token !in m
            case _ => token in m && m[token] == action.value
  {
    if action.Remove? {
      assert token !in m ==> m - {token} == m;
    } else if token in m {
      SetMember(m, token, action.value);
    }
  }

  lemma ElementSettles(xs: seq<Json>, token: string, action: Action)
    ensures var i := ArrayIndex(token, |xs|);
            ApplyElement(xs, token, action) == Ok(Arr(xs)) <==>
            match action
            case Add(_) => false
            case Remove => i.None? && IsIndex(token)
            case Replace(w) => i.Some? && xs[i.value] == w
  {
    var i := ArrayIndex(token, |xs|);
    match action
    case Add(v) =>
      var at := ArrayIndex(token, |xs| + 1);
      if token == "-" {
        assert |xs + [v]| != |xs|;
      } else if at.Some? {
        assert |xs[..at.value] + [v] + xs[at.value..]| != |xs|;
      }
    case Remove =>
      if i.Some? {
        assert |xs[..i.value] + xs[i.value + 1..]| != |xs|;
      }
    case Replace(w) =>
      if i.Some? {
        SetElement(xs, i.value, w);
      }
  }
}
