/** Names of patch files (transform/kustomize/serializer.go). */
module Filenames {
  import opened Strings

  /** Characters that do not belong in a file name, in the order they are replaced. */
  const UNSAFE: string := "/\\:*?\"<>| "

  const SUFFIX := ".patch.yaml"

  /** One `strings.ReplaceAll` per unsafe character. */
  function ReplaceEach(s: string, unsafe: string): string
    decreases |unsafe|
  {
    if unsafe == "" then s else ReplaceEach(ReplaceChar(s, unsafe[0], "-"), unsafe[1..])
  }

  function SanitizeComponent(s: string): string
  {
    ReplaceEach(s, UNSAFE)
  }

  lemma {:induction false} ReplaceCharEach(s: string, c: char)
    ensures var r := ReplaceChar(s, c, "-");
            |r| == |s| && forall i :: 0 <= i < |s| ==> r[i] == if s[i] == c then '-' else s[i]
  {
    if s != "" {
      ReplaceCharEach(s[1..], c);
    }
  }

  lemma {:induction false} ReplaceEachPointwise(s: string, unsafe: string)
    requires '-' !in unsafe
    ensures var r := ReplaceEach(s, unsafe);
            |r| == |s| && forall i :: 0 <= i < |s| ==> r[i] == if s[i] in unsafe then '-' else s[i]
    decreases |unsafe|
  {
    if unsafe != "" {
      var first := ReplaceChar(s, unsafe[0], "-");
      assert unsafe == [unsafe[0]] + unsafe[1..];
      ReplaceCharEach(s, unsafe[0]);
      ReplaceEachPointwise(first, unsafe[1..]);
    }
  }

  /** What some file system or shell gives a meaning to. */
  predicate IsUnsafe(c: char)
  {
    || c == '/' || c == '\\' || c == ':' || c == '*' || c == '?'
    || c == '\"' || c == '<' || c == '>' || c == '|' || c == ' '
  }

  lemma UnsafeIs(c: char)
    ensures c in UNSAFE <==> IsUnsafe(c)
  {
    assert UNSAFE == ['/', '\\', ':', '*', '?', '\"', '<', '>', '|', ' '];
  }

  /** Sanitizing turns exactly the unsafe characters into dashes and keeps the length. */
  lemma SanitizePointwise(s: string)
    ensures var r := SanitizeComponent(s);
            |r| == |s| && forall i :: 0 <= i < |s| ==> r[i] == if IsUnsafe(s[i]) then '-' else s[i]
  {
    UnsafeIs('-');
    ReplaceEachPointwise(s, UNSAFE);
    UnsafeInside(s, UNSAFE);
  }

  lemma UnsafeInside(s: string, unsafe: string)
    requires unsafe == UNSAFE
    ensures forall i :: 0 <= i < |s| ==> (s[i] in unsafe <==> IsUnsafe(s[i]))
    ensures (forall c <- s :: c !in unsafe) <==> forall c <- s :: !IsUnsafe(c)
  {
    forall c: char ensures c in unsafe <==> IsUnsafe(c) {
      UnsafeIs(c);
    }
  }

  lemma SafeUnchanged(s: string)
    ensures SanitizeComponent(s) == s <==> forall c <- s :: !IsUnsafe(c)
  {
    UnsafeIs('-');
    EachUnchanged(s, UNSAFE);
    UnsafeInside(s, UNSAFE);
  }

  lemma EachUnchanged(s: string, unsafe: string)
    requires '-' !in unsafe
    ensures ReplaceEach(s, unsafe) == s <==> forall c <- s :: c !in unsafe
  {
    var r := ReplaceEach(s, unsafe);
    ReplaceEachPointwise(s, unsafe);
    if r == s {
      forall c | c in s ensures c !in unsafe {
        var i :| 0 <= i < |s| && s[i] == c;
        assert r[i] == s[i];
      }
    }
    if forall c <- s :: c !in unsafe {
      assert forall i :: 0 <= i < |s| ==> s[i] in s;
      assert r == s;
    }
  }

  function GeneratePatchFilename(group: string, version: string, kind: string, name: string, namespace: string): string
  {
    var tail := SanitizeComponent(kind) + "--" + SanitizeComponent(name) + SUFFIX;
    var groupVersion := if group == "" then version else SanitizeComponent(group) + "-" + version;
    if namespace != "" then SanitizeComponent(namespace) + "--" + groupVersion + "--" + tail
    else groupVersion + "--" + tail
  }

  /** A component that needs no sanitizing and cannot be mistaken for a separator. */
  predicate Plain(s: string)
  {
    && (forall c <- s :: !IsUnsafe(c))
    && (forall i :: 0 <= i < |s| - 1 && s[i] == '-' ==> s[i + 1] != '-')
    && (s != "" ==> s[|s| - 1] != '-')
  }

  /** Double dashes separate: what stands before the first one is determined. */
  lemma SeparatorDetermines(a: string, x: string, b: string, y: string)
    requires Plain(a) && Plain(b)
    requires a + "--" + x == b + "--" + y
    ensures a == b && x == y
  {
    var all := a + "--" + x;
    assert all[|a|] == '-' && all[|a| + 1] == '-';
    assert all == b + "--" + y;
    assert all[|b|] == '-' && all[|b| + 1] == '-';
    assert forall i :: 0 <= i < |a| ==> all[i] == a[i];
    assert forall i :: 0 <= i < |b| ==> all[i] == b[i];
    assert |a| == |b|;
    assert a == all[..|a|] && b == all[..|b|];
    assert x == all[|a| + 2..] && y == all[|b| + 2..];
  }

  lemma NoSeparatorInside(a: string, b: string, x: string)
    requires Plain(a)
    ensures a != b + "--" + x
  {
    var all := b + "--" + x;
    assert all[|b|] == '-' && all[|b| + 1] == '-';
  }

  function GroupVersion(group: string, version: string): string
  {
    if group == "" then version else group + "-" + version
  }

  lemma GroupVersionPlain(group: string, version: string)
    requires Plain(group) && version != "" && '-' !in version && forall c <- version :: !IsUnsafe(c)
    ensures Plain(GroupVersion(group, version))
  {
    var all := GroupVersion(group, version);
    assert forall i :: 0 <= i < |version| ==> version[i] in version;
    if group != "" {
      assert forall i :: 0 <= i < |group| ==> all[i] == group[i];
      assert forall i :: 0 <= i < |version| ==> all[|group| + 1 + i] == version[i];
    }
  }

  lemma LastDashDetermines(g: string, v: string, g': string, v': string)
    requires '-' !in v && '-' !in v'
    requires g + "-" + v == g' + "-" + v'
    ensures g == g' && v == v'
  {
    var all := g + "-" + v;
    assert all[|g|] == '-';
    assert all == g' + "-" + v';
    assert all[|g'|] == '-';
    assert forall i :: |g| < i < |all| ==> all[i] == v[i - |g| - 1] && v[i - |g| - 1] in v;
    assert forall i :: |g'| < i < |all| ==> all[i] == v'[i - |g'| - 1] && v'[i - |g'| - 1] in v';
    assert |g| == |g'|;
    assert g == all[..|g|] && g' == all[..|g'|];
    assert v == all[|g| + 1..] && v' == all[|g'| + 1..];
  }

  lemma GroupVersionDetermines(g: string, v: string, g': string, v': string)
    requires '-' !in v && '-' !in v'
    requires GroupVersion(g, v) == GroupVersion(g', v')
    ensures g == g' && v == v'
  {
    if g != "" && g' != "" {
      LastDashDetermines(g, v, g', v');
    } else {
      HasDash(g, v);
      HasDash(g', v');
    }
  }

  lemma HasDash(g: string, v: string)
    ensures g != "" ==> '-' in GroupVersion(g, v)
  {
    assert (g + "-" + v)[|g|] == '-';
  }

  /** The target of a patch, made of components that need no sanitizing. */
  predicate PlainTarget(group: string, version: string, kind: string, name: string, namespace: string)
  {
    && Plain(group) && Plain(version) && Plain(kind) && Plain(name) && Plain(namespace)
    && version != "" && '-' !in version && kind != "" && name != ""
  }

  lemma PlainFilename(group: string, version: string, kind: string, name: string, namespace: string)
    requires PlainTarget(group, version, kind, name, namespace)
    ensures var groupVersion := if group == "" then version else group + "-" + version;
            var rest := groupVersion + "--" + (kind + "--" + (name + ".patch.yaml"));
            GeneratePatchFilename(group, version, kind, name, namespace) ==
            if namespace != "" then namespace + "--" + rest else rest
  {
    SafeUnchanged(group);
    SafeUnchanged(kind);
    SafeUnchanged(name);
    SafeUnchanged(namespace);
    var gv := GroupVersion(group, version);
    Associate(gv, kind, name);
    if namespace != "" {
      AssociateOne(namespace, gv, kind + "--" + name + SUFFIX);
    }
  }

  lemma Associate(gv: string, kind: string, name: string)
    ensures kind + "--" + name + SUFFIX == kind + "--" + (name + SUFFIX)
    ensures gv + "--" + (kind + "--" + name + SUFFIX) == gv + "--" + (kind + "--" + (name + SUFFIX))
  {
  }

  lemma AssociateOne(namespace: string, gv: string, tail: string)
    ensures namespace + "--" + gv + "--" + tail == namespace + "--" + (gv + "--" + tail)
  {
  }

  lemma SuffixDetermines(a: string, b: string)
    requires a + SUFFIX == b + SUFFIX
    ensures a == b
  {
    var all := a + SUFFIX;
    assert |a| == |b| && a == all[..|a|] && b == all[..|a|];
  }

  lemma TailDetermines(gv: string, kind: string, name: string, gv': string, kind': string, name': string)
    requires Plain(gv) && Plain(kind) && Plain(gv') && Plain(kind')
    requires gv + "--" + (kind + "--" + (name + SUFFIX)) == gv' + "--" + (kind' + "--" + (name' + SUFFIX))
    ensures gv == gv' && kind == kind' && name == name'
  {
    SeparatorDetermines(gv, kind + "--" + (name + SUFFIX), gv', kind' + "--" + (name' + SUFFIX));
    SeparatorDetermines(kind, name + SUFFIX, kind', name' + SUFFIX);
    SuffixDetermines(name, name');
  }

  /** A namespaced name has one separator more than a cluster-scoped one. */
  lemma ScopesDiffer(namespace: string, gv: string, kind: string, name: string, gv': string, kind': string,
                     name': string)
    requires Plain(namespace) && Plain(gv) && Plain(gv') && Plain(kind') && Plain(name')
    ensures namespace + "--" + (gv + "--" + (kind + "--" + (name + SUFFIX))) !=
            gv' + "--" + (kind' + "--" + (name' + SUFFIX))
  {
    var inner := kind + "--" + (name + SUFFIX);
    if namespace + "--" + (gv + "--" + inner) == gv' + "--" + (kind' + "--" + (name' + SUFFIX)) {
      SeparatorDetermines(namespace, gv + "--" + inner, gv', kind' + "--" + (name' + SUFFIX));
      SeparatorDetermines(gv, inner, kind', name' + SUFFIX);
      DropSuffix(kind + "--" + name, name');
      NoSeparatorInside(name', kind, name);
    }
  }

  lemma DropSuffix(a: string, b: string)
    ensures a + SUFFIX == b + SUFFIX ==> a == b
  {
    if a + SUFFIX == b + SUFFIX {
      SuffixDetermines(a, b);
    }
  }

  /** Different targets get different file names, as long as no component needs sanitizing or looks like a separator. */
  lemma FilenameInjective(g: string, v: string, k: string, n: string, ns: string,
                          g': string, v': string, k': string, n': string, ns': string)
    requires PlainTarget(g, v, k, n, ns) && PlainTarget(g', v', k', n', ns')
    requires GeneratePatchFilename(g, v, k, n, ns) == GeneratePatchFilename(g', v', k', n', ns')
    ensures g == g' && v == v' && k == k' && n == n' && ns == ns'
  {
    PlainFilename(g, v, k, n, ns);
    PlainFilename(g', v', k', n', ns');
    GroupVersionPlain(g, v);
    GroupVersionPlain(g', v');
    var gv, gv' := GroupVersion(g, v), GroupVersion(g', v');
    var rest, rest' := gv + "--" + (k + "--" + (n + SUFFIX)), gv' + "--" + (k' + "--" + (n' + SUFFIX));
    if ns != "" && ns' == "" {
      ScopesDiffer(ns, gv, k, n, gv', k', n');
    } else if ns == "" && ns' != "" {
      ScopesDiffer(ns', gv', k', n', gv, k, n);
    } else {
      if ns != "" {
        SeparatorDetermines(ns, rest, ns', rest');
      }
      TailDetermines(gv, k, n, gv', k', n');
      GroupVersionDetermines(g, v, g', v');
    }
  }

  /** Characters that end up as the same character. */
  predicate Confused(a: char, b: char)
  {
    a == b || ((IsUnsafe(a) || a == '-') && (IsUnsafe(b) || b == '-'))
  }

  /** Exactly when two names share a file name: they differ only in which unsafe characters or dashes they use. */
  lemma NamesCollideIff(group: string, version: string, kind: string, name: string, other: string, namespace: string)
    ensures GeneratePatchFilename(group, version, kind, name, namespace) ==
            GeneratePatchFilename(group, version, kind, other, namespace) <==>
            |name| == |other| && forall i :: 0 <= i < |name| ==> Confused(name[i], other[i])
  {
    SanitizePointwise(name);
    SanitizePointwise(other);
    var s, t := SanitizeComponent(name), SanitizeComponent(other);
    NameShows(group, version, kind, name, namespace);
    NameShows(group, version, kind, other, namespace);
    Sandwich(NamePrefix(group, version, kind, namespace), s, t);
    if s == t {
      forall i | 0 <= i < |name| ensures Confused(name[i], other[i]) {
        assert s[i] == t[i];
      }
    }
    if |name| == |other| && forall i :: 0 <= i < |name| ==> Confused(name[i], other[i]) {
      assert s == t;
    }
  }

  function NamePrefix(group: string, version: string, kind: string, namespace: string): string
  {
    NameStart(group, version, namespace) + "--" + (SanitizeComponent(kind) + "--")
  }

  function NameStart(group: string, version: string, namespace: string): string
  {
    var groupVersion := if group == "" then version else SanitizeComponent(group) + "-" + version;
    if namespace != "" then SanitizeComponent(namespace) + "--" + groupVersion else groupVersion
  }

  lemma NameShows(group: string, version: string, kind: string, name: string, namespace: string)
    ensures GeneratePatchFilename(group, version, kind, name, namespace) ==
            NamePrefix(group, version, kind, namespace) + SanitizeComponent(name) + SUFFIX
  {
    Glue(NameStart(group, version, namespace), SanitizeComponent(kind), SanitizeComponent(name));
  }

  lemma Glue(start: string, kind: string, name: string)
    ensures start + "--" + (kind + "--" + name + SUFFIX) == start + "--" + (kind + "--") + name + SUFFIX
  {
  }

  lemma Sandwich(prefix: string, s: string, t: string)
    ensures prefix + s + SUFFIX == prefix + t + SUFFIX <==> s == t
  {
    var a, b := prefix + s + SUFFIX, prefix + t + SUFFIX;
    assert a[|prefix|..|prefix| + |s|] == s && b[|prefix|..|prefix| + |t|] == t;
  }
}
