/** JSON documents and the places in them that a pointer's tokens name. */
module Json {
  import opened Wrappers
  import opened Strconv

  /** One number type: Go's int64 and float64 values are both exact reals here. */
  datatype Json =
    | Null
    | Bool(b: bool)
    | Num(n: real)
    | Str(s: string)
    | Arr(items: seq<Json>)
    | Obj(members: Object)

  /** The members of a JSON object: Go's `map[string]interface{}`. */
  type Object = map<string, Json>

  type Path = seq<string>

  /** RFC 6901, section 4: an array index is "0" or digits without a leading zero. */
  predicate IsIndex(token: string)
  {
    AllDigits(token) && Decimal(Value(token)) == token
  }

  function ArrayIndex(token: string, length: nat): (r: Option<nat>)
    ensures r.Some? ==> r.value < length && token == Decimal(r.value)
  {
    if IsIndex(token) && Value(token) < length then Some(Value(token)) else None
  }

  lemma ArrayIndexOfDecimal(i: nat, length: nat)
    ensures ArrayIndex(Decimal(i), length) == if i < length then Some(i) else None
  {
    ValueOfDecimal(i);
  }

  function MemberOrNull(m: Object, name: string): Json
  {
    if name in m then m[name] else Null
  }

  function Child(doc: Json, token: string): Option<Json>
  {
    match doc
    case Obj(m) => if token in m then Some(m[token]) else None
    case Arr(xs) =>
      (match ArrayIndex(token, |xs|)
       case Some(i) => Some(xs[i])
       case None => None)
    case _ => None
  }

  /** The value a pointer names, if any. */
  function Lookup(doc: Json, path: Path): Option<Json>
  {
    if path == [] then Some(doc)
    else
      match Child(doc, path[0])
      case Some(child) => Lookup(child, path[1..])
      case None => None
  }

  lemma {:induction false} LookupSplit(doc: Json, p: Path, q: Path)
    ensures Lookup(doc, p + q) == match Lookup(doc, p) case Some(d) => Lookup(d, q) case None => None
  {
    if p == [] {
      assert p + q == q;
    } else {
      assert (p + q)[1..] == p[1..] + q;
      match Child(doc, p[0])
      case Some(child) => LookupSplit(child, p[1..], q);
      case None =>
    }
  }
}
