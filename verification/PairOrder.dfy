/** For any two operations on any document: exactly when the order they are applied in does not show. */
module PairOrder {
  import opened Wrappers
  import opened Strconv
  import opened Json
  import opened Patch
  import opened PatchOrder
  import opened Outcomes
  import opened NestedOrder
  import opened ListOrder

  /** Both orders give the same document, or both fail. */
  predicate SameEitherWay(doc: Json, p: Path, a: Action, q: Path, b: Action)
  {
    Then(ApplyAt(doc, p, a), q, b) == Then(ApplyAt(doc, q, b), p, a)
  }

  function Front(p: Path): Path
    requires p != []
  {
    p[..|p| - 1]
  }

  function Last(p: Path): string
    requires p != []
  {
    p[|p| - 1]
  }

  function ListAbove(doc: Json, p: Path): seq<Json>
    requires p != [] && InList(doc, p)
  {
    Lookup(doc, Front(p)).value.items
  }

  // ----- one place -----

  /** Two operations at the same place: the document, a list element, or anything else. */
  ghost predicate SameHidden(doc: Json, p: Path, a: Action, b: Action)
  {
    if p == [] then !a.Remove? && !b.Remove? ==> a.value == b.value
    else if OffList(doc, p) then SamePlaceHidden(doc, p, a, b)
    else if IsIndex(Last(p)) then SameElementHidden(ListAbove(doc, p), Value(Last(p)), a, b)
    else Last(p) == "-" && a.Add? && b.Add? ==> a.value == b.value
  }

  lemma SameIff(doc: Json, p: Path, a: Action, b: Action)
    ensures SameEitherWay(doc, p, a, p, b) <==> SameHidden(doc, p, a, b)
  {
    if p != [] {
      if OffList(doc, p) {
        SamePlaceIff(doc, p, a, b);
      } else {
        SameInList(doc, Front(p), Last(p), ListAbove(doc, p), a, b);
        assert Front(p) + [Last(p)] == p;
      }
    }
  }

  lemma SameInList(doc: Json, base: Path, token: string, xs: seq<Json>, a: Action, b: Action)
    requires Lookup(doc, base) == Some(Arr(xs))
    ensures SameEitherWay(doc, base + [token], a, base + [token], b) <==>
            if IsIndex(token) then SameElementHidden(xs, Value(token), a, b)
            else token == "-" && a.Add? && b.Add? ==> a.value == b.value
  {
    if IsIndex(token) {
      SameElementIff(doc, base, xs, Value(token), a, b);
    } else if NamesNoElement([token], a) {
      NoElementHidden(doc, base, xs, [token], a, [token], b);
    } else if NamesNoElement([token], b) {
      NoElementHidden(doc, base, xs, [token], b, [token], a);
    } else {
      TwoAppendsIff(doc, base, xs, a.value, b.value);
    }
  }

  // ----- one place inside the other -----

  /** An operation at `p` and one below it, at `p + r`. */
  ghost predicate InnerOrderHidden(doc: Json, p: Path, a: Action, r: Path, b: Action)
    requires r != []
  {
    if p == [] then a.Remove? || InnerHidden(doc, a.value, r, b)
    else if OffList(doc, p) then NestedHidden(doc, p, a, r, b)
    else IsIndex(Last(p)) ==> InsideHidden(ListAbove(doc, p), Value(Last(p)), a, Value(Last(p)), r, b)
  }

  lemma InnerOrderIff(doc: Json, p: Path, a: Action, r: Path, b: Action)
    requires r != []
    ensures SameEitherWay(doc, p, a, p + r, b) <==> InnerOrderHidden(doc, p, a, r, b)
  {
    if p == [] {
      assert p + r == r;
      FailsIff(doc, r, b);
      if !a.Remove? {
        FailsIff(a.value, r, b);
        SettlesIff(a.value, r, b);
      }
    } else if OffList(doc, p) {
      NestedOrderIff(doc, p, a, r, b);
    } else {
      InnerInList(doc, Front(p), Last(p), ListAbove(doc, p), a, r, b);
      assert Front(p) + [Last(p)] == p && Front(p) + ([Last(p)] + r) == p + r;
    }
  }

  lemma InnerInList(doc: Json, base: Path, token: string, xs: seq<Json>, a: Action, r: Path, b: Action)
    requires Lookup(doc, base) == Some(Arr(xs)) && r != []
    ensures SameEitherWay(doc, base + [token], a, base + ([token] + r), b) <==>
            (IsIndex(token) ==> InsideHidden(xs, Value(token), a, Value(token), r, b))
  {
    if IsIndex(token) {
      InsideElementIff(doc, base, xs, Value(token), a, Value(token), r, b);
    } else {
      NoElementHidden(doc, base, xs, [token] + r, b, [token], a);
    }
  }

  // ----- two places in one list -----

  ghost predicate AppendHidden(xs: seq<Json>, v: Json, t: Path, b: Action)
    requires t != [] && IsIndex(t[0])
  {
    var j := Value(t[0]);
    if |t| == 1 then j != |xs| + if b.Add? then 1 else 0
    else j == |xs| ==> if b.Remove? then Settles(v, t[1..], b) else Refused(v, t[1..], b)
  }

  ghost predicate IndexesHidden(xs: seq<Json>, s: Path, a: Action, t: Path, b: Action)
    requires s != [] && t != [] && IsIndex(s[0]) && IsIndex(t[0]) && s[0] != t[0]
  {
    var i, j := Value(s[0]), Value(t[0]);
    if |s| == 1 && |t| == 1 then if i < j then ElementsHidden(xs, i, a, j, b) else ElementsHidden(xs, j, b, i, a)
    else if |s| == 1 then InsideHidden(xs, i, a, j, t[1..], b)
    else if |t| == 1 then InsideHidden(xs, j, b, i, s[1..], a)
    else true
  }

  ghost predicate ListHidden(xs: seq<Json>, s: Path, a: Action, t: Path, b: Action)
    requires s != [] && t != [] && s[0] != t[0]
  {
    if NamesNoElement(s, a) || NamesNoElement(t, b) then true
    else if !IsIndex(s[0]) then AppendHidden(xs, a.value, t, b)
    else if !IsIndex(t[0]) then AppendHidden(xs, b.value, s, a)
    else IndexesHidden(xs, s, a, t, b)
  }

  lemma HeadAndTail(s: Path)
    requires s != []
    ensures s == [s[0]] + s[1..] && (|s| == 1 ==> s == [s[0]])
  {
  }

  lemma AppendIff(doc: Json, base: Path, xs: seq<Json>, v: Json, t: Path, b: Action)
    requires Lookup(doc, base) == Some(Arr(xs)) && t != [] && IsIndex(t[0])
    ensures SameEitherWay(doc, base + ["-"], Add(v), base + t, b) <==> AppendHidden(xs, v, t, b)
  {
    HeadAndTail(t);
    if |t| == 1 {
      AppendElementIff(doc, base, xs, v, Value(t[0]), b);
    } else {
      AppendInsideIff(doc, base, xs, v, Value(t[0]), t[1..], b);
    }
  }

  lemma IndexesIff(doc: Json, base: Path, xs: seq<Json>, s: Path, a: Action, t: Path, b: Action)
    requires Lookup(doc, base) == Some(Arr(xs)) && s != [] && t != [] && s[0] != t[0]
    requires IsIndex(s[0]) && IsIndex(t[0])
    ensures SameEitherWay(doc, base + s, a, base + t, b) <==> IndexesHidden(xs, s, a, t, b)
  {
    HeadAndTail(s);
    HeadAndTail(t);
    var i, j := Value(s[0]), Value(t[0]);
    if |s| == 1 && |t| == 1 {
      if i < j {
        ElementsIff(doc, base, xs, i, a, j, b);
      } else {
        ElementsIff(doc, base, xs, j, b, i, a);
      }
    } else if |s| == 1 {
      InsideElementIff(doc, base, xs, i, a, j, t[1..], b);
    } else if |t| == 1 {
      InsideElementIff(doc, base, xs, j, b, i, s[1..], a);
    } else {
      InsideTwoElements(doc, base, xs, i, s[1..], a, j, t[1..], b);
    }
  }

  lemma ListIff(doc: Json, base: Path, xs: seq<Json>, s: Path, a: Action, t: Path, b: Action)
    requires Lookup(doc, base) == Some(Arr(xs)) && s != [] && t != [] && s[0] != t[0]
    ensures SameEitherWay(doc, base + s, a, base + t, b) <==> ListHidden(xs, s, a, t, b)
  {
    HeadAndTail(s);
    HeadAndTail(t);
    if NamesNoElement(s, a) {
      NoElementHidden(doc, base, xs, s, a, t, b);
    } else if NamesNoElement(t, b) {
      NoElementHidden(doc, base, xs, t, b, s, a);
    } else if !IsIndex(s[0]) {
      AppendIff(doc, base, xs, a.value, t, b);
    } else if !IsIndex(t[0]) {
      AppendIff(doc, base, xs, b.value, s, a);
    } else {
      IndexesIff(doc, base, xs, s, a, t, b);
    }
  }

  // ----- two places below a value that is not there, or null -----

  predicate NotThere(doc: Json, base: Path)
  {
    Lookup(doc, base) == None || Lookup(doc, base) == Some(Null)
  }

  /** An add that gets past such a value leaves an object there with the one member on its way. */
  lemma {:induction false} Created(doc: Json, base: Path, s: Path, v: Json)
    requires NotThere(doc, base) && s != [] && ApplyAt(doc, base + s, Add(v)).Ok?
    ensures var made := Lookup(ApplyAt(doc, base + s, Add(v)).value, base);
            made.Some? && made.value.Obj? && made.value.members.Keys == {s[0]}
    decreases |base|, if doc.Null? then 1 else 0
  {
    if base == [] {
      assert base + s == s;
      HeadAndTail(s);
      assert ApplyAt(doc, s, Add(v)) == ApplyAt(Obj(map[]), s, Add(v));
    } else {
      assert (base + s)[1..] == base[1..] + s && (base + s)[0] == base[0];
      match doc
      case Obj(m) => Created(MemberOrNull(m, base[0]), base[1..], s, v);
      case Arr(xs) => Created(xs[ArrayIndex(base[0], |xs|).value], base[1..], s, v);
      case Null => Created(Obj(map[]), base, s, v);
    }
  }

  lemma IdleBelow(doc: Json, base: Path, t: Path, b: Action)
    requires NotThere(doc, base) && t != [] && !b.Add?
    ensures ApplyAt(doc, base + t, b) == if b.Remove? then Ok(doc) else Err
  {
    if Lookup(doc, base) == None {
      NothingBelow(doc, base, t, b);
    } else {
      Within(doc, base, t, b);
      PutItself(doc, base);
    }
  }

  /** Where the first add has made an object, the second operation does not meet it. */
  lemma AfterCreation(doc: Json, base: Path, s: Path, v: Json, t: Path, b: Action)
    requires NotThere(doc, base) && s != [] && t != [] && s[0] != t[0] && ApplyAt(doc, base + s, Add(v)).Ok?
    ensures var after := ApplyAt(doc, base + s, Add(v)).value;
            && (b.Remove? ==> ApplyAt(after, base + t, b) == Ok(after))
            && (b.Replace? ==> ApplyAt(after, base + t, b) == Err)
            && (b.Add? ==> (ApplyAt(after, base + t, b).Err? <==> NeedsList(t[1..])))
  {
    Created(doc, base, s, v);
    var after := ApplyAt(doc, base + s, Add(v)).value;
    var made := Lookup(after, base).value;
    assert t[0] !in made.members.Keys;
    Within(after, base, t, b);
    PutItself(after, base);
    assert made.members - {t[0]} == made.members;
    if b.Add? && |t| > 1 {
      CreateFailsIff(t[1..], b.value);
    }
  }

  /** Off lists, an add that does not fail is at a safe path. */
  lemma {:induction false} AddedIsSafe(doc: Json, p: Path, v: Json)
    requires OffList(doc, p) && ApplyAt(doc, p, Add(v)).Ok?
    ensures Safe(doc, p, Add(v))
    decreases |p|
  {
    if |p| == 1 {
      assert p[..0] == [];
    } else {
      InListBelow(doc, p);
    }
    match doc
    case Obj(m) =>
      if |p| > 1 {
        AddedIsSafe(MemberOrNull(m, p[0]), p[1..], v);
      }
    case Arr(xs) => AddedIsSafe(xs[ArrayIndex(p[0], |xs|).value], p[1..], v);
    case Null => CreateFailsIff(p, v);
  }

  lemma BelowOffList(doc: Json, base: Path, s: Path)
    requires NotThere(doc, base) && s != []
    ensures OffList(doc, base + s)
  {
    assert Front(base + s) == base + Front(s);
    LookupSplit(doc, base, Front(s));
  }

  /** Only two adds can show: one that fails alone can succeed after the other has made the object. */
  ghost predicate AddsHidden(doc: Json, base: Path, s: Path, a: Action, t: Path, b: Action)
    requires s != [] && t != []
  {
    a.Add? && b.Add? ==>
      var ra, rb := Refused(doc, base + s, a), Refused(doc, base + t, b);
      (ra <==> rb) || NeedsList(if ra then s[1..] else t[1..])
  }

  lemma AddsIff(doc: Json, base: Path, s: Path, a: Action, t: Path, b: Action)
    requires NotThere(doc, base) && s != [] && t != [] && s[0] != t[0]
    ensures SameEitherWay(doc, base + s, a, base + t, b) <==> AddsHidden(doc, base, s, a, t, b)
  {
    if a.Add? && b.Add? {
      TwoAdds(doc, base, s, a.value, t, b.value);
    } else if a.Add? {
      IdleBelow(doc, base, t, b);
      if ApplyAt(doc, base + s, a).Ok? {
        AfterCreation(doc, base, s, a.value, t, b);
      }
    } else {
      IdleBelow(doc, base, s, a);
      if !b.Add? {
        IdleBelow(doc, base, t, b);
      } else if ApplyAt(doc, base + t, b).Ok? {
        AfterCreation(doc, base, t, b.value, s, a);
      }
    }
  }

  lemma TwoAdds(doc: Json, base: Path, s: Path, v: Json, t: Path, w: Json)
    requires NotThere(doc, base) && s != [] && t != [] && s[0] != t[0]
    ensures SameEitherWay(doc, base + s, Add(v), base + t, Add(w)) <==> AddsHidden(doc, base, s, Add(v), t, Add(w))
  {
    var x, y := ApplyAt(doc, base + s, Add(v)), ApplyAt(doc, base + t, Add(w));
    FailsIff(doc, base + s, Add(v));
    FailsIff(doc, base + t, Add(w));
    if x.Ok? {
      AfterCreation(doc, base, s, v, t, Add(w));
    }
    if y.Ok? {
      AfterCreation(doc, base, t, w, s, Add(v));
    }
    if x.Ok? && y.Ok? {
      BelowOffList(doc, base, s);
      BelowOffList(doc, base, t);
      AddedIsSafe(doc, base + s, v);
      AddedIsSafe(doc, base + t, w);
      assert (base + s)[|base|] != (base + t)[|base|];
      CommuteAt(doc, base + s, Add(v), base + t, Add(w));
    }
  }

  // ----- two places that part at `base` -----

  ghost predicate ApartHidden(doc: Json, base: Path, s: Path, a: Action, t: Path, b: Action)
    requires s != [] && t != [] && s[0] != t[0]
  {
    match Lookup(doc, base)
    case None => AddsHidden(doc, base, s, a, t, b)
    case Some(Null) => AddsHidden(doc, base, s, a, t, b)
    case Some(Arr(xs)) => ListHidden(xs, s, a, t, b)
    case Some(_) => true
  }

  lemma ApartIff(doc: Json, base: Path, s: Path, a: Action, t: Path, b: Action)
    requires s != [] && t != [] && s[0] != t[0]
    ensures SameEitherWay(doc, base + s, a, base + t, b) <==> ApartHidden(doc, base, s, a, t, b)
  {
    match Lookup(doc, base)
    case None => AddsIff(doc, base, s, a, t, b);
    case Some(Null) => AddsIff(doc, base, s, a, t, b);
    case Some(Arr(xs)) => ListIff(doc, base, xs, s, a, t, b);
    case Some(Obj(m)) => MembersHidden(doc, base, m, s, a, t, b);
    case Some(_) => OrderWithin(doc, base, s, a, t, b);
  }

  // ----- any two places -----

  /** How many leading tokens two paths share. */
  function Meet(p: Path, q: Path): (n: nat)
    ensures n <= |p| && n <= |q| && p[..n] == q[..n]
    ensures n < |p| && n < |q| ==> p[n] != q[n]
  {
    if p == [] || q == [] || p[0] != q[0] then 0
    else
      var n := Meet(p[1..], q[1..]);
      assert p[..n + 1] == [p[0]] + p[1..][..n] && q[..n + 1] == [q[0]] + q[1..][..n];
      n + 1
  }

  /** When the order of two operations does not show, by what can be looked up before either is applied. */
  ghost predicate OrderHidden(doc: Json, p: Path, a: Action, q: Path, b: Action)
  {
    var n := Meet(p, q);
    var s, t := p[n..], q[n..];
    if s == [] && t == [] then SameHidden(doc, p, a, b)
    else if s == [] then InnerOrderHidden(doc, p, a, t, b)
    else if t == [] then InnerOrderHidden(doc, q, b, s, a)
    else ApartHidden(doc, p[..n], s, a, t, b)
  }

  /** Any two operations, anywhere: both orders come to the same exactly when `OrderHidden` says so. */
  lemma OrderHiddenIff(doc: Json, p: Path, a: Action, q: Path, b: Action)
    ensures SameEitherWay(doc, p, a, q, b) <==> OrderHidden(doc, p, a, q, b)
  {
    var n := Meet(p, q);
    var base, s, t := p[..n], p[n..], q[n..];
    assert p == base + s && q == base + t;
    if s == [] && t == [] {
      assert p == q;
      SameIff(doc, p, a, b);
    } else if s == [] {
      assert p == base;
      InnerOrderIff(doc, p, a, t, b);
    } else if t == [] {
      assert q == base;
      InnerOrderIff(doc, q, b, s, a);
    } else {
      ApartIff(doc, base, s, a, t, b);
    }
  }
}
