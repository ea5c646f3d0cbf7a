/** Writing and reading multi-document YAML files (transform/grouping.go). */
module YamlDocuments {
  import opened Strings

  const SEPARATOR := "\n---\n"
  const SEPARATOR_AT_END := "\n---"
  const SEPARATOR_AT_START := "---\n"

  /** `bytes.Index`: the first position of the pattern, or -1. */
  function Index(s: string, pattern: string): (r: int)
    ensures r == -1 || (0 <= r && OccursAt(s, pattern, r))
    ensures forall k: nat :: OccursAt(s, pattern, k) ==> 0 <= r <= k
  {
    if OccursAt(s, pattern, 0) then 0
    else if s == "" then -1
    else
      var r := Index(s[1..], pattern);
      assert forall k: nat :: k > 0 && OccursAt(s, pattern, k) ==> OccursAt(s[1..], pattern, k - 1) by {
        forall k: nat | k > 0 && OccursAt(s, pattern, k) ensures OccursAt(s[1..], pattern, k - 1) {
          assert s[1..][k - 1..k - 1 + |pattern|] == s[k..k + |pattern|];
        }
      }
      if r == -1 then -1
      else
        assert s[r + 1..r + 1 + |pattern|] == s[1..][r..r + |pattern|];
        r + 1
  }

  /** `unicode.IsSpace`. */
  predicate IsSpace(c: char)
  {
    var n := c as int;
    || 0x09 <= n <= 0x0D || n == 0x20 || n == 0x85 || n == 0xA0 || n == 0x1680
    || 0x2000 <= n <= 0x200A || n == 0x2028 || n == 0x2029 || n == 0x202F || n == 0x205F || n == 0x3000
  }

  /** Trimming white space leaves nothing. */
  predicate Blank(s: string)
  {
    forall c <- s :: IsSpace(c)
  }

  /** Only the usual white space among the characters of ASCII, and no visible one. */
  lemma BlankIs(s: string)
    requires forall c <- s :: c < '\U{80}'
    ensures Blank(s) <==>
            forall c <- s :: c == ' ' || c == '\t' || c == '\n' || c == '\r' || c == '\U{b}' || c == '\U{c}'
  {
  }

  /** The documents of a file. */
  function Documents(data: string): seq<string>
    decreases |data|
  {
    if data == "" then []
    else
      var line, end := Index(data, SEPARATOR), Index(data, SEPARATOR_AT_END);
      if line != -1 then FirstDocument(data[..line]) + Documents(data[line + 5..])
      else if end != -1 then FirstDocument(data[..end]) + Documents(data[end + 4..])
      else if HasPrefix(data, SEPARATOR_AT_START) then Documents(data[4..])
      else [data]
  }

  function FirstDocument(doc: string): seq<string>
  {
    if Blank(doc) then [] else [doc]
  }

  lemma DocumentsStep(data: string, idx: int, matched: nat)
    requires data != "" && idx != -1
    requires (idx == Index(data, SEPARATOR) && matched == 5) ||
             (Index(data, SEPARATOR) == -1 && idx == Index(data, SEPARATOR_AT_END) && matched == 4)
    ensures 0 <= idx && idx + matched <= |data|
    ensures Documents(data) == FirstDocument(data[..idx]) + Documents(data[idx + matched..])
  {
  }

  lemma DocumentsEnd(data: string)
    requires data != "" && Index(data, SEPARATOR) == -1 && Index(data, SEPARATOR_AT_END) == -1
    ensures Documents(data) == if HasPrefix(data, SEPARATOR_AT_START) then Documents(data[4..]) else [data]
  {
  }

  lemma Regroup<T>(a: seq<T>, b: seq<T>, c: seq<T>)
    ensures a + (b + c) == a + b + c
  {
  }

  /** `splitYAMLDocuments`: each round shortens what remains. */
  method SplitYAMLDocuments(data: string) returns (docs: seq<string>)
    ensures docs == Documents(data)
  {
    docs := [];
    var remaining := data;
    while |remaining| > 0
      invariant docs + Documents(remaining) == Documents(data)
      decreases |remaining|
    {
      var idx, matched := Index(remaining, SEPARATOR), |SEPARATOR|;
      if idx == -1 {
        idx := Index(remaining, SEPARATOR_AT_END);
        if idx == -1 {
          DocumentsEnd(remaining);
          if HasPrefix(remaining, SEPARATOR_AT_START) {
            remaining := remaining[4..];
            continue;
          }
          docs := docs + [remaining];
          return;
        }
        matched := |SEPARATOR_AT_END|;
      }
      var doc, rest := remaining[..idx], remaining[idx + matched..];
      DocumentsStep(remaining, idx, matched);
      Regroup(docs, FirstDocument(doc), Documents(rest));
      docs := docs + FirstDocument(doc);
      remaining := rest;
    }
  }

  /** The text of a file: the documents with a separator line before each but the first. */
  function Joined(docs: seq<string>): string
  {
    if docs == [] then ""
    else if |docs| == 1 then docs[0]
    else docs[0] + SEPARATOR_AT_START + Joined(docs[1..])
  }

  lemma {:induction false} JoinedSnoc(docs: seq<string>, doc: string)
    requires docs != []
    ensures Joined(docs + [doc]) == Joined(docs) + SEPARATOR_AT_START + doc
  {
    if |docs| == 1 {
      assert (docs + [doc])[1..] == [doc];
    } else {
      assert (docs + [doc])[1..] == docs[1..] + [doc];
      JoinedSnoc(docs[1..], doc);
    }
  }

  /** What is left when no separator is found is a document, blank or not. */
  lemma RemainderKept(rest: string)
    requires rest != "" && Index(rest, "\n---") == -1 && !HasPrefix(rest, "---\n")
    ensures Documents(rest) == [rest]
  {
    if k: nat :| OccursAt(rest, SEPARATOR, k) {
      SeparatorStartsWithEnd(rest, k);
    }
  }

  /** The separator line between two documents. */
  lemma JoinedTwo(a: string, b: string)
    ensures Joined([a, b]) == a + "---\n" + b
  {
    assert [a, b][1..] == [b];
  }

  /** The buffer that `WriteResourceTypeFile` fills. */
  method WriteDocuments(docs: seq<string>) returns (buffer: string)
    ensures buffer == Joined(docs)
  {
    buffer := "";
    for i := 0 to |docs|
      invariant buffer == Joined(docs[..i])
    {
      assert docs[..i + 1] == docs[..i] + [docs[i]];
      if i > 0 {
        JoinedSnoc(docs[..i], docs[i]);
        buffer := buffer + SEPARATOR_AT_START;
      }
      buffer := buffer + docs[i];
    }
    assert docs[..|docs|] == docs;
  }

  /** A document as the YAML encoder writes it: not blank, newline at the end,
   * no line starting with three dashes after the first. */
  predicate Clean(doc: string)
  {
    && !Blank(doc)
    && doc[|doc| - 1] == '\n'
    && Index(doc, SEPARATOR_AT_END) == -1
  }

  lemma SeparatorStartsWithEnd(s: string, k: nat)
    requires OccursAt(s, SEPARATOR, k)
    ensures OccursAt(s, SEPARATOR_AT_END, k)
  {
    assert s[k..k + 4] == s[k..k + 5][..4];
  }

  /** A separator that starts before the final newline of a document lies inside it. */
  lemma EarlierInside(doc: string, rest: string, k: nat)
    requires doc != "" && doc[|doc| - 1] == '\n' && k < |doc| - 1
    requires OccursAt(doc + SEPARATOR_AT_START + rest, SEPARATOR, k)
    ensures OccursAt(doc, SEPARATOR_AT_END, k)
  {
    var s, n := doc + SEPARATOR_AT_START + rest, |doc| - 1;
    assert s[n] == '\n';
    SeparatorStartsWithEnd(s, k);
    var found := s[k..k + 4];
    assert s[k + 1] == found[1] && s[k + 2] == found[2] && s[k + 3] == found[3];
    assert doc[k..k + 4] == found;
  }

  /** In a clean document followed by a separator line, the first separator is the one at its end. */
  lemma SeparatorFound(doc: string, rest: string)
    requires Clean(doc)
    ensures Index(doc + SEPARATOR_AT_START + rest, SEPARATOR) == |doc| - 1
  {
    var s, n := doc + SEPARATOR_AT_START + rest, |doc| - 1;
    assert s[n..n + 5] == SEPARATOR;
    assert OccursAt(s, SEPARATOR, n);
    var k := Index(s, SEPARATOR);
    if k < n {
      EarlierInside(doc, rest, k);
    }
  }

  lemma TrimNewline(doc: string)
    requires doc != "" && doc[|doc| - 1] == '\n'
    ensures Blank(doc[..|doc| - 1]) <==> Blank(doc)
  {
    assert doc == doc[..|doc| - 1] + ['\n'];
  }

  /** Every document but the last loses its final newline to the separator. */
  function Trimmed(docs: seq<string>): seq<string>
  {
    if |docs| <= 1 then docs
    else [if docs[0] == "" then "" else docs[0][..|docs[0]| - 1]] + Trimmed(docs[1..])
  }

  lemma NothingFound(doc: string)
    requires Clean(doc)
    ensures Index(doc, SEPARATOR) == -1
  {
    var k := Index(doc, SEPARATOR);
    if k != -1 {
      SeparatorStartsWithEnd(doc, k);
    }
  }

  lemma {:induction false} DocumentsNoLonger(data: string)
    ensures forall d <- Documents(data) :: |d| <= |data|
    decreases |data|
  {
    if data != "" {
      var line, end := Index(data, SEPARATOR), Index(data, SEPARATOR_AT_END);
      if line != -1 {
        DocumentsNoLonger(data[line + 5..]);
      } else if end != -1 {
        DocumentsNoLonger(data[end + 4..]);
      } else if HasPrefix(data, SEPARATOR_AT_START) {
        DocumentsNoLonger(data[4..]);
      }
    }
  }

  /**
   * Splitting undoes joining, for clean documents, exactly when the last one does not start with a
   * separator line of its own.
   */
  lemma {:induction false} SplitUndoesJoin(docs: seq<string>)
    requires docs != [] && forall d <- docs :: Clean(d)
    ensures Documents(Joined(docs)) == Trimmed(docs) <==> !HasPrefix(docs[|docs| - 1], SEPARATOR_AT_START)
    decreases |docs|
  {
    if |docs| == 1 {
      SplitsOne(docs[0]);
    } else {
      assert docs == [docs[0]] + docs[1..];
      SplitUndoesJoin(docs[1..]);
      SplitsFirst(docs[0], docs[1..]);
      assert Documents(Joined(docs))[1..] == Documents(Joined(docs[1..])) && Trimmed(docs)[1..] == Trimmed(docs[1..]);
    }
  }

  lemma SplitsOne(doc: string)
    requires Clean(doc)
    ensures Documents(doc) == [doc] <==> !HasPrefix(doc, SEPARATOR_AT_START)
  {
    NothingFound(doc);
    DocumentsEnd(doc);
    if HasPrefix(doc, SEPARATOR_AT_START) {
      DocumentsNoLonger(doc[4..]);
      assert doc in [doc];
    }
  }

  lemma SplitsFirst(doc: string, rest: seq<string>)
    requires Clean(doc) && rest != []
    ensures Documents(Joined([doc] + rest)) == [doc[..|doc| - 1]] + Documents(Joined(rest))
  {
    var n := |doc| - 1;
    assert ([doc] + rest)[1..] == rest;
    var s := doc + SEPARATOR_AT_START + Joined(rest);
    SeparatorFound(doc, Joined(rest));
    TrimNewline(doc);
    assert s[..n] == doc[..n] && s[n + 5..] == Joined(rest);
    DocumentsStep(s, n, 5);
  }

  /** On any input, no document contains a separator line, and a document is blank only if it is the whole remainder. */
  lemma {:induction false} DocumentsSeparated(data: string)
    ensures forall d <- Documents(data) :: Index(d, SEPARATOR) == -1 && d != ""
    ensures forall i :: 0 <= i < |Documents(data)| - 1 ==> !Blank(Documents(data)[i])
    decreases |data|
  {
    if data != "" {
      var line, end := Index(data, SEPARATOR), Index(data, SEPARATOR_AT_END);
      if line != -1 {
        DocumentsSeparated(data[line + 5..]);
        NoSeparatorBefore(data, line);
      } else if end != -1 {
        DocumentsSeparated(data[end + 4..]);
        NoSeparatorBefore(data, end);
      } else if HasPrefix(data, SEPARATOR_AT_START) {
        DocumentsSeparated(data[4..]);
      }
    }
  }

  /** What lies before the first separator contains none. */
  lemma NoSeparatorBefore(data: string, n: nat)
    requires n <= |data| && (Index(data, SEPARATOR) == -1 || n <= Index(data, SEPARATOR))
    ensures Index(data[..n], SEPARATOR) == -1
  {
    var k := Index(data[..n], SEPARATOR);
    if k != -1 {
      assert data[..n][k..k + 5] == data[k..k + 5];
      assert OccursAt(data, SEPARATOR, k);
    }
  }
}
