/** Rewriting image references (transform/util/registry.go). */
module Registry {
  import opened Strings

  /** `key` is the whole image, or a leading part of it that ends before a "/". */
  predicate IsPathPrefix(key: string, image: string)
  {
    HasPrefix(image, key) && (|key| == |image| || image[|key|] == '/')
  }

  /** `key` is the longest key of the map that is a path prefix of the image. */
  ghost predicate LongestMatch(replacements: map<string, string>, image: string, key: string)
  {
    && key in replacements && IsPathPrefix(key, image)
    && forall k <- replacements :: IsPathPrefix(k, image) ==> |k| <= |key|
  }

  lemma LongestMatchUnique(replacements: map<string, string>, image: string, key: string, other: string)
    requires LongestMatch(replacements, image, key) && LongestMatch(replacements, image, other)
    ensures key == other
  {
    assert key == image[..|key|] && other == image[..|other|];
  }

  /** The image falls into the joined parts before and after any split point. */
  lemma CutAt(image: string, i: nat)
    requires 0 < i <= |Split(image, '/')|
    ensures var parts := Split(image, '/');
            if i == |parts| then Join(parts[..i], '/') == image
            else image == Join(parts[..i], '/') + "/" + Join(parts[i..], '/')
  {
    var parts := Split(image, '/');
    JoinSplit(image, '/');
    assert parts[..|parts|] == parts;
    if i < |parts| {
      assert parts[..i] + parts[i..] == parts;
      JoinAppend(parts[..i], parts[i..], '/');
    }
  }

  lemma CutIsPathPrefix(image: string, i: nat)
    requires 0 < i <= |Split(image, '/')|
    ensures IsPathPrefix(Join(Split(image, '/')[..i], '/'), image)
  {
    CutAt(image, i);
  }

  /** Longer runs of parts are longer prefixes. */
  lemma CutMonotone(image: string, i: nat, k: nat)
    requires 0 < i <= k <= |Split(image, '/')|
    ensures |Join(Split(image, '/')[..i], '/')| <= |Join(Split(image, '/')[..k], '/')|
  {
    var parts := Split(image, '/');
    if i < k {
      assert parts[..k] == parts[..i] + parts[i..k];
      JoinAppend(parts[..i], parts[i..k], '/');
    }
  }

  /** Every path prefix is the join of a run of parts. */
  lemma PathPrefixIsCut(key: string, image: string) returns (i: nat)
    requires IsPathPrefix(key, image)
    ensures 0 < i <= |Split(image, '/')| && Join(Split(image, '/')[..i], '/') == key
  {
    JoinSplit(key, '/');
    i := |Split(key, '/')|;
    if |key| == |image| {
      assert key == image;
      assert Split(image, '/')[..i] == Split(image, '/');
    } else {
      var tail := image[|key| + 1..];
      assert image == key + ['/'] + tail;
      SplitCut(key, tail, '/');
      assert Split(image, '/')[..i] == Split(key, '/');
    }
  }

  /** What the rewritten image is made of. */
  lemma Rewritten(image: string, i: nat, replacement: string)
    requires 0 < i <= |Split(image, '/')|
    ensures var parts := Split(image, '/');
            var key := Join(parts[..i], '/');
            && |key| <= |image|
            && replacement + image[|key|..] ==
               if i == |parts| then replacement else replacement + "/" + Join(parts[i..], '/')
  {
    CutAt(image, i);
    var parts := Split(image, '/');
    var key := Join(parts[..i], '/');
    if i == |parts| {
      Behind(key, "", "", image, replacement);
    } else {
      Behind(key, "/", Join(parts[i..], '/'), image, replacement);
    }
  }

  /** What follows `key` in `image` follows the replacement afterwards. */
  lemma Behind(key: string, separator: string, rest: string, image: string, replacement: string)
    requires image == key + separator + rest
    ensures replacement + image[|key|..] == replacement + separator + rest
  {
    assert image[|key|..] == separator + rest;
  }

  lemma NoneFound(replacements: map<string, string>, image: string)
    requires forall k :: 0 < k <= |Split(image, '/')| ==> Join(Split(image, '/')[..k], '/') !in replacements
    ensures forall key <- replacements :: !IsPathPrefix(key, image)
  {
    forall key | key in replacements && IsPathPrefix(key, image) ensures false {
      var k := PathPrefixIsCut(key, image);
    }
  }

  /** `UpdateImageRegistry`: replace the longest matching path prefix and keep the rest of the image. */
  method UpdateImageRegistry(replacements: map<string, string>, image: string) returns (updated: string, ok: bool)
    ensures ok <==> exists key <- replacements :: IsPathPrefix(key, image)
    ensures ok ==> exists key :: LongestMatch(replacements, image, key) && updated == replacements[key] + image[|key|..]
    ensures !ok ==> updated == ""
  {
    var parts := Split(image, '/');
    var i := |parts|;
    while i > 0
      invariant 0 <= i <= |parts|
      invariant forall k :: i < k <= |parts| ==> Join(parts[..k], '/') !in replacements
    {
      var key := Join(parts[..i], '/');
      if key in replacements {
        FirstFound(replacements, image, i);
        Rewritten(image, i, replacements[key]);
        if i == |parts| {
          return replacements[key], true;
        }
        return replacements[key] + "/" + Join(parts[i..], '/'), true;
      }
      i := i - 1;
    }
    NoneFound(replacements, image);
    return "", false;
  }

  lemma FirstFound(replacements: map<string, string>, image: string, i: nat)
    requires 0 < i <= |Split(image, '/')|
    requires Join(Split(image, '/')[..i], '/') in replacements
    requires forall k :: i < k <= |Split(image, '/')| ==> Join(Split(image, '/')[..k], '/') !in replacements
    ensures LongestMatch(replacements, image, Join(Split(image, '/')[..i], '/'))
  {
    CutIsPathPrefix(image, i);
    forall key | key in replacements && IsPathPrefix(key, image)
      ensures |key| <= |Join(Split(image, '/')[..i], '/')|
    {
      var k := PathPrefixIsCut(key, image);
      CutMonotone(image, k, i);
    }
  }
}
