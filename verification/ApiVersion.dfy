/** Taking an apiVersion apart and naming resource types (transform/types.go). */
module ApiVersion {
  import opened Wrappers
  import opened Strings
  import opened Json

  /** Bytes of a character in UTF-8. */
  function Width(c: char): nat
  {
    var n := c as int;
    if n < 0x80 then 1 else if n < 0x800 then 2 else if n < 0x10000 then 3 else 4
  }

  function ByteLength(s: string): nat
  {
    if s == "" then 0 else ByteLength(s[..|s| - 1]) + Width(s[|s| - 1])
  }

  lemma {:induction false} ByteLengthMonotone(s: string, n: nat)
    requires n <= |s|
    ensures ByteLength(s[..n]) + (|s| - n) <= ByteLength(s)
  {
    if n < |s| {
      ByteLengthMonotone(s[..|s| - 1], n);
      assert s[..|s| - 1][..n] == s[..n];
    } else {
      assert s[..n] == s;
    }
  }

  /** The parts that are not empty, in order. */
  function NonEmpty(parts: seq<string>): seq<string>
  {
    if parts == [] then []
    else
      var n := |parts| - 1;
      NonEmpty(parts[..n]) + if parts[n] != "" then [parts[n]] else []
  }

  lemma NonEmptySnoc(parts: seq<string>, last: string)
    ensures NonEmpty(parts + [last]) == NonEmpty(parts) + if last != "" then [last] else []
  {
    assert (parts + [last])[..|parts|] == parts;
  }

  /** The parts once `d`, which is no separator, is added to the last one. */
  function Extend(parts: seq<string>, d: char): (r: seq<string>)
    requires |parts| >= 1
    ensures |r| == |parts|
  {
    parts[..|parts| - 1] + [parts[|parts| - 1] + [d]]
  }

  lemma AttachExtend(a: char, c: char, parts: seq<string>, d: char)
    requires |parts| >= 1
    ensures Attach(a, c, Extend(parts, d)) == Extend(Attach(a, c, parts), d)
  {
    if |parts| == 1 {
      assert [a] + (parts[0] + [d]) == [a] + parts[0] + [d];
      assert Extend(parts, d) == [parts[0] + [d]];
    } else {
      var n := |parts| - 1;
      assert Extend(parts, d) == [parts[0]] + parts[1..n] + [parts[n] + [d]];
      assert Extend(parts, d)[1..] == parts[1..n] + [parts[n] + [d]];
    }
    assert Attach(a, c, Extend(parts, d)) == Extend(Attach(a, c, parts), d);
  }

  lemma {:induction false} SplitExtend(s: string, d: char, c: char)
    requires d != c
    ensures Split(s + [d], c) == Extend(Split(s, c), d)
  {
    if s == "" {
      SplitHead([d], "", c);
      assert s + [d] == [d] && "" + [d] == [d];
    } else {
      SplitExtend(s[1..], d, c);
      assert (s + [d])[0] == s[0] && (s + [d])[1..] == s[1..] + [d];
      AttachExtend(s[0], c, Split(s[1..], c), d);
    }
  }

  lemma SplitSnoc(s: string, d: char, c: char)
    ensures Split(s + [d], c) == if d == c then Split(s, c) + [""] else Extend(Split(s, c), d)
  {
    if d == c {
      SplitCut(s, "", c);
      assert s + [c] + "" == s + [d];
    } else {
      SplitExtend(s, d, c);
    }
  }

  /** Everything up to the last byte is seen as a one-byte character, or there is nothing. */
  predicate EndsInOneByte(s: string)
  {
    s == "" || Width(s[|s| - 1]) == 1
  }

  /** One byte is ASCII. */
  lemma OneByteIsAscii(s: string)
    ensures EndsInOneByte(s) <==> s == "" || s[|s| - 1] < '\U{80}'
  {
  }

  /** What `splitAPIVersion` computes: the parts that are not empty, but not a last one ending in a longer character. */
  function Parts(apiVersion: string): seq<string>
  {
    var parts := NonEmpty(Split(apiVersion, '/'));
    if EndsInOneByte(apiVersion) || parts == [] then parts else parts[..|parts| - 1]
  }

  ghost predicate Scanned(s: string, result: seq<string>, current: string)
  {
    var parts := Split(s, '/');
    result == NonEmpty(parts[..|parts| - 1]) && current == parts[|parts| - 1]
  }

  lemma ScanNext(s: string, n: nat, result: seq<string>, current: string)
    requires n < |s| && Scanned(s[..n], result, current)
    ensures s[n] == '/' ==> Scanned(s[..n + 1], result + (if current != "" then [current] else []), "")
    ensures s[n] != '/' ==> Scanned(s[..n + 1], result, current + [s[n]])
  {
    assert s[..n + 1] == s[..n] + [s[n]];
    SplitSnoc(s[..n], s[n], '/');
    var parts := Split(s[..n], '/');
    assert parts == parts[..|parts| - 1] + [current];
    NonEmptySnoc(parts[..|parts| - 1], current);
  }

  lemma ScanEnd(s: string, result: seq<string>, current: string)
    requires Scanned(s, result, current)
    ensures NonEmpty(Split(s, '/')) == result + if current != "" then [current] else []
  {
    var parts := Split(s, '/');
    assert parts == parts[..|parts| - 1] + [current];
    NonEmptySnoc(parts[..|parts| - 1], current);
  }

  /** The byte offset of a character is the last one exactly when the character is last and one byte long. */
  lemma LastByte(s: string, n: nat)
    requires n < |s|
    ensures ByteLength(s[..n]) == ByteLength(s) - 1 <==> n == |s| - 1 && Width(s[n]) == 1
  {
    ByteLengthMonotone(s, n + 1);
    assert s[..n + 1][..n] == s[..n];
    if n == |s| - 1 {
      assert s[..n + 1] == s;
    }
  }

  lemma LastPart(s: string)
    requires s != "" && s[|s| - 1] != '/'
    ensures var parts := Split(s, '/'); parts[|parts| - 1] != ""
  {
    var n := |s| - 1;
    assert s == s[..n] + [s[n]];
    SplitSnoc(s[..n], s[n], '/');
  }

  /** State of the scan before character `n`; after the last one the last part may have been added. */
  ghost predicate ScanState(s: string, n: nat, result: seq<string>, current: string)
    requires n <= |s|
  {
    if n == |s| && n > 0 && EndsInOneByte(s) then result == NonEmpty(Split(s, '/'))
    else Scanned(s[..n], result, current)
  }

  /** After the last character the last part is complete. */
  lemma ScanLast(s: string, n: nat, next: seq<string>, rest: string)
    requires n < |s| && Scanned(s[..n + 1], next, rest)
    ensures ScanState(s, n + 1, if n == |s| - 1 && Width(s[n]) == 1 && rest != "" then next + [rest] else next, rest)
  {
    if n == |s| - 1 {
      assert s[..n + 1] == s;
      ScanEnd(s, next, rest);
      assert next + [] == next;
    }
  }

  lemma ScanStep(s: string, n: nat, result: seq<string>, current: string, next: seq<string>, rest: string)
    requires n < |s| && Scanned(s[..n], result, current)
    requires s[n] == '/' ==> next == result + (if current != "" then [current] else []) && rest == ""
    requires s[n] != '/' ==> next == result && rest == current + [s[n]]
    ensures ScanState(s, n + 1,
                      if ByteLength(s[..n]) == ByteLength(s) - 1 && rest != "" then next + [rest] else next, rest)
  {
    ScanNext(s, n, result, current);
    LastByte(s, n);
    ScanLast(s, n, next, rest);
  }

  lemma ScanDone(s: string, result: seq<string>, current: string)
    requires ScanState(s, |s|, result, current)
    ensures result == Parts(s)
  {
    assert s[..|s|] == s;
    if !EndsInOneByte(s) {
      ScanEnd(s, result, current);
      LastPart(s);
      assert (result + [current])[..|result|] == result;
    }
  }

  method SplitAPIVersion(apiVersion: string) returns (result: seq<string>)
    ensures result == Parts(apiVersion)
  {
    result := [];
    var current, offset, length := "", 0, ByteLength(apiVersion);
    for n := 0 to |apiVersion|
      invariant offset == ByteLength(apiVersion[..n])
      invariant ScanState(apiVersion, n, result, current)
    {
      ghost var before, part := result, current;
      var c := apiVersion[n];
      if c == '/' {
        if current != "" {
          result := result + [current];
          current := "";
        }
      } else {
        current := current + [c];
      }
      ScanStep(apiVersion, n, before, part, result, current);
      if offset == length - 1 && current != "" {
        result := result + [current];
      }
      assert apiVersion[..n + 1][..n] == apiVersion[..n];
      offset := offset + Width(c);
    }
    ScanDone(apiVersion, result, current);
  }

  /** `parseAPIVersion`: group and version.  Go panics when an apiVersion that is not empty has no parts. */
  function ParseAPIVersion(apiVersion: string): Result<(string, string)>
  {
    if apiVersion == "" then Ok(("", ""))
    else
      var parts := Parts(apiVersion);
      if parts == [] then Err
      else if |parts| == 1 then Ok(("", parts[0]))
      else Ok((parts[0], parts[1]))
  }

  /** A part that stays one, also at the end. */
  predicate Part(s: string)
  {
    s != "" && '/' !in s && EndsInOneByte(s)
  }

  lemma SplitThree(group: string, version: string, more: string)
    requires '/' !in group && '/' !in version && '/' !in more
    ensures Split(group + "/" + version + "/" + more, '/') == [group, version, more]
  {
    var tail := version + ['/'] + more;
    assert group + "/" + version + "/" + more == group + ['/'] + tail;
    SplitHead(group, tail, '/');
    SplitHead(version, more, '/');
    SplitHead(more, "", '/');
    assert [group] + ([version] + [more]) == [group, version, more];
  }

  lemma ThreeNonEmpty(a: string, b: string, c: string)
    requires a != "" && b != "" && c != ""
    ensures NonEmpty([a, b, c]) == [a, b, c]
  {
    NonEmptySnoc([], a);
    NonEmptySnoc([a], b);
    NonEmptySnoc([a, b], c);
    assert [] + [a] == [a] && [a] + [b] == [a, b] && [a, b] + [c] == [a, b, c];
  }

  /** A third part is a part. */
  lemma ThreeParts(group: string, version: string, more: string)
    requires group != "" && version != "" && '/' !in group && '/' !in version && Part(more)
    ensures Parts(group + "/" + version + "/" + more) == [group, version, more]
  {
    var all := group + "/" + version + "/" + more;
    assert all[|all| - 1] == more[|more| - 1];
    SplitThree(group, version, more);
    ThreeNonEmpty(group, version, more);
  }

  /** The usual shapes come apart as documented; of three parts only the first two count. */
  lemma ParseShapes(group: string, version: string, more: string)
    requires '/' !in group && Part(version)
    ensures ParseAPIVersion("") == Ok(("", ""))
    ensures ParseAPIVersion(version) == Ok(("", version))
    ensures group != "" ==> ParseAPIVersion(group + "/" + version) == Ok((group, version))
    ensures group != "" && Part(more) ==> ParseAPIVersion(group + "/" + version + "/" + more) == Ok((group, version))
  {
    SplitHead(version, "", '/');
    NonEmptySnoc([], version);
    assert [] + [version] == [version];
    assert Parts(version) == [version];
    if group != "" {
      SplitHead(group, version, '/');
      assert group + "/" + version == group + ['/'] + version;
      var all := group + "/" + version;
      assert all[|all| - 1] == version[|version| - 1];
      assert [group] + [version] == [group, version];
      NonEmptySnoc([group], version);
      NonEmptySnoc([], group);
      assert [] + [group] == [group];
      assert Parts(all) == [group, version];
      if Part(more) {
        ThreeParts(group, version, more);
      }
    }
  }

  /** The panic happens exactly for slashes only, or a single part that ends in a longer character. */
  lemma ParsePanicsIff(apiVersion: string)
    ensures ParseAPIVersion(apiVersion).Err? <==>
            apiVersion != "" && |NonEmpty(Split(apiVersion, '/'))| <= if EndsInOneByte(apiVersion) then 0 else 1
  {
  }

  function StringMember(obj: Object, name: string): string
  {
    if name in obj && obj[name].Str? then obj[name].s else ""
  }

  /** `GetResourceTypeKey`: the kind, and the group if there is one. */
  function TypeKey(resource: Object): Result<string>
  {
    var (group, version) :- ParseAPIVersion(StringMember(resource, "apiVersion"));
    var kind := StringMember(resource, "kind");
    Ok(if group == "" then kind else kind + "." + group)
  }

  function Group(resource: Object): string
    requires TypeKey(resource).Ok?
  {
    ParseAPIVersion(StringMember(resource, "apiVersion")).value.0
  }

  /** As long as kinds have no dots, a type key stands for one kind and one group. */
  lemma TypeKeyInjective(a: Object, b: Object)
    requires TypeKey(a).Ok? && TypeKey(b).Ok?
    requires '.' !in StringMember(a, "kind") && '.' !in StringMember(b, "kind")
    ensures TypeKey(a) == TypeKey(b) <==>
            StringMember(a, "kind") == StringMember(b, "kind") && Group(a) == Group(b)
  {
    SplitAtDot(StringMember(a, "kind"), Group(a), StringMember(b, "kind"), Group(b));
  }

  lemma SplitAtDot(kind: string, group: string, kind': string, group': string)
    requires '.' !in kind && '.' !in kind'
    ensures kind + "." + group == kind' + "." + group' ==> kind == kind' && group == group'
    ensures kind + "." + group != kind'
    ensures kind != kind' + "." + group'
  {
    var all, all' := kind + "." + group, kind' + "." + group';
    assert all[|kind|] == '.' && all'[|kind'|] == '.';
    assert '.' in all && '.' in all';
    assert forall j :: 0 <= j < |kind| ==> all[j] == kind[j] && kind[j] in kind;
    assert forall j :: 0 <= j < |kind'| ==> all'[j] == kind'[j] && kind'[j] in kind';
    if all == all' {
      assert kind == all[..|kind|] && kind' == all'[..|kind'|];
      assert group == all[|kind| + 1..] && group' == all'[|kind'| + 1..];
    }
  }

  /** The key is the kind in the core group, and the kind, a dot and the group in any other. */
  lemma TypeKeyShapes(kind: string, group: string, version: string)
    requires '/' !in group && Part(version)
    ensures TypeKey(map["kind" := Str(kind)]) == Ok(kind)
    ensures TypeKey(map["apiVersion" := Str(version), "kind" := Str(kind)]) == Ok(kind)
    ensures group != "" ==>
      TypeKey(map["apiVersion" := Str(group + "/" + version), "kind" := Str(kind)]) == Ok(kind + "." + group)
  {
    ParseShapes(group, version, "");
  }

  /** With dots in kinds it may stand for two. */
  lemma DottedKindCollides(kind: string, group: string)
    requires group != "" && '/' !in group
    ensures var a := map["apiVersion" := Str(group + "/" + "v1"), "kind" := Str(kind)];
            var b := map["apiVersion" := Str("v1"), "kind" := Str(kind + "." + group)];
            TypeKey(a) == TypeKey(b) && TypeKey(a).Ok?
  {
    ParseShapes(group, "v1", "");
  }
}
