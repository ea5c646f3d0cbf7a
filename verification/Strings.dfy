/** The parts of Go's `strings` package the repository relies on, over sequences of characters. */
module Strings {

  /** `strings.Split` for a one-character separator. */
  function Split(s: string, c: char): (parts: seq<string>)
    ensures |parts| >= 1
  {
    if s == "" then [""] else Attach(s[0], c, Split(s[1..], c))
  }

  /** The parts once `a` is put in front: a separator starts a new part, anything else joins the first. */
  function Attach(a: char, c: char, parts: seq<string>): (r: seq<string>)
    requires |parts| >= 1
    ensures |r| >= 1
  {
    if a == c then [""] + parts else [[a] + parts[0]] + parts[1..]
  }

  lemma AttachAppend(a: char, c: char, parts: seq<string>, more: seq<string>)
    requires |parts| >= 1
    ensures Attach(a, c, parts + more) == Attach(a, c, parts) + more
  {
  }

  /** A separator between two texts separates their parts. */
  lemma {:induction false} SplitCut(head: string, tail: string, c: char)
    ensures Split(head + [c] + tail, c) == Split(head, c) + Split(tail, c)
  {
    var all := head + [c] + tail;
    if head == "" {
      assert all[1..] == tail;
    } else {
      SplitCut(head[1..], tail, c);
      assert all[0] == head[0] && all[1..] == head[1..] + [c] + tail;
      AttachAppend(head[0], c, Split(head[1..], c), Split(tail, c));
    }
  }

  /** `strings.Join` for a one-character separator. */
  function Join(parts: seq<string>, c: char): string
  {
    if |parts| == 0 then ""
    else if |parts| == 1 then parts[0]
    else parts[0] + [c] + Join(parts[1..], c)
  }

  lemma JoinAttach(a: char, c: char, parts: seq<string>)
    requires |parts| >= 1
    ensures Join(Attach(a, c, parts), c) == [a] + Join(parts, c)
  {
    if a == c {
      assert ([""] + parts)[1..] == parts;
      assert "" + [c] + Join(parts, c) == [a] + Join(parts, c);
    } else {
      assert Attach(a, c, parts)[1..] == parts[1..];
      assert |parts| > 1 ==> [a] + parts[0] + [c] + Join(parts[1..], c) == [a] + (parts[0] + [c] + Join(parts[1..], c));
    }
  }

  lemma {:induction false} JoinSplit(s: string, c: char)
    ensures Join(Split(s, c), c) == s
    ensures forall part <- Split(s, c) :: c !in part
  {
    if s != "" {
      JoinSplit(s[1..], c);
      JoinAttach(s[0], c, Split(s[1..], c));
      assert s == [s[0]] + s[1..];
    }
  }

  /** A separator-free piece in front of a separator comes back as the first part. */
  lemma {:induction false} SplitHead(head: string, tail: string, c: char)
    requires c !in head
    ensures Split(head, c) == [head]
    ensures Split(head + [c] + tail, c) == [head] + Split(tail, c)
  {
    if head != "" {
      SplitHead(head[1..], tail, c);
      assert [head[0]] + head[1..] == head;
    }
    SplitCut(head, tail, c);
  }

  lemma {:induction false} SplitJoin(parts: seq<string>, c: char)
    requires |parts| >= 1
    requires forall part <- parts :: c !in part
    ensures Split(Join(parts, c), c) == parts
  {
    if |parts| == 1 {
      SplitHead(parts[0], "", c);
    } else {
      SplitJoin(parts[1..], c);
      SplitHead(parts[0], Join(parts[1..], c), c);
    }
  }

  lemma {:induction false} JoinAppend(xs: seq<string>, ys: seq<string>, c: char)
    requires xs != [] && ys != []
    ensures Join(xs + ys, c) == Join(xs, c) + [c] + Join(ys, c)
  {
    if |xs| == 1 {
      assert (xs + ys)[1..] == ys;
    } else {
      assert (xs + ys)[1..] == xs[1..] + ys;
      JoinAppend(xs[1..], ys, c);
    }
  }

  lemma JoinSnoc(parts: seq<string>, last: string, c: char)
    requires parts != []
    ensures Join(parts + [last], c) == Join(parts, c) + [c] + last
  {
    JoinAppend(parts, [last], c);
  }

  /** `strings.ReplaceAll` for a one-character pattern. */
  function ReplaceChar(s: string, c: char, with: string): string
  {
    if s == "" then "" else (if s[0] == c then with else [s[0]]) + ReplaceChar(s[1..], c, with)
  }

  /** `strings.ReplaceAll` for a pattern of two different characters. */
  function ReplacePair(s: string, c: char, d: char, with: string): string
  {
    if |s| < 2 then s
    else if s[0] == c && s[1] == d then with + ReplacePair(s[2..], c, d, with)
    else [s[0]] + ReplacePair(s[1..], c, d, with)
  }

  /** `pattern` occurs in `s` at position `i`. */
  predicate OccursAt(s: string, pattern: string, i: nat)
  {
    i + |pattern| <= |s| && s[i..i + |pattern|] == pattern
  }

  predicate HasPrefix(s: string, prefix: string)
  {
    |prefix| <= |s| && s[..|prefix|] == prefix
  }

  /** The order of Go strings: by code point, a proper prefix first. */
  predicate Less(a: string, b: string)
  {
    b != "" && (a == "" || a[0] < b[0] || (a[0] == b[0] && Less(a[1..], b[1..])))
  }

  /** The first difference decides. */
  lemma {:induction false} LessIff(a: string, b: string)
    ensures Less(a, b) <==> exists n :: 0 <= n <= |a| && n < |b| && a[..n] == b[..n] && (n == |a| || a[n] < b[n])
  {
    if a == "" || b == "" || a[0] != b[0] {
      assert a[..0] == b[..0];
    } else {
      LessIff(a[1..], b[1..]);
      if n :| && 0 <= n <= |a| - 1 && n < |b| - 1
              && a[1..][..n] == b[1..][..n] && (n == |a| - 1 || a[1..][n] < b[1..][n]) {
        assert a[..n + 1] == [a[0]] + a[1..][..n] && b[..n + 1] == [b[0]] + b[1..][..n];
      }
      if n :| 0 <= n <= |a| && n < |b| && a[..n] == b[..n] && (n == |a| || a[n] < b[n]) {
        assert n > 0;
        assert a[1..][..n - 1] == a[..n][1..] && b[1..][..n - 1] == b[..n][1..];
      }
    }
  }

  lemma {:induction false} LessTransitive(a: string, b: string, c: string)
    requires Less(a, b) && Less(b, c)
    ensures Less(a, c)
  {
    if a != "" && a[0] == b[0] && b[0] == c[0] {
      LessTransitive(a[1..], b[1..], c[1..]);
    }
  }

  lemma {:induction false} LessTotal(a: string, b: string)
    ensures Less(a, b) || a == b || Less(b, a)
    ensures !(Less(a, b) && Less(b, a)) && !Less(a, a)
  {
    if a != "" && b != "" {
      LessTotal(a[1..], b[1..]);
      if a[0] == b[0] && a[1..] == b[1..] {
        assert a == [a[0]] + a[1..] == b;
      }
    }
    if a != "" {
      LessTotal(a[1..], a[1..]);
    }
  }
}
