/** JSON pointers (RFC 6901, sections 3 and 4) and the escaping the repository writes them with. */
module Pointer {
  import opened Wrappers
  import opened Strings
  import opened Json

  /** Both copies of `escapeJSONPointer`: "~" first, then "/". */
  function Escape(token: string): string
  {
    ReplaceChar(ReplaceChar(token, '~', "~0"), '/', "~1")
  }

  /** RFC 6901, section 4: "~1" first, then "~0". */
  function Unescape(token: string): string
  {
    ReplacePair(ReplacePair(token, '~', '1', "/"), '~', '0', "~")
  }

  function EscapeAll(tokens: Path): (r: Path)
    ensures |r| == |tokens| && forall i :: 0 <= i < |r| ==> r[i] == Escape(tokens[i])
  {
    seq(|tokens|, i requires 0 <= i < |tokens| => Escape(tokens[i]))
  }

  /** The pointer text written for a list of tokens: "/" and the escaped tokens joined with "/". */
  function Write(tokens: Path): string
  {
    if tokens == [] then "" else "/" + Join(EscapeAll(tokens), '/')
  }

  /** Reading a pointer: every token follows a "/"; any other text is not a pointer. */
  function Read(text: string): Option<Path>
  {
    if text == "" then Some([])
    else if text[0] != '/' then None
    else
      var parts := Split(text[1..], '/');
      Some(seq(|parts|, i requires 0 <= i < |parts| => Unescape(parts[i])))
  }

  // ----- one token -----

  /** No "~" of `s` is followed by `d`. */
  predicate NoPair(s: string, d: char)
  {
    forall i :: 0 <= i < |s| - 1 && s[i] == '~' ==> s[i + 1] != d
  }

  lemma {:induction false} EscapeTildeUndone(s: string)
    ensures NoPair(ReplaceChar(s, '~', "~0"), '1')
    ensures ReplacePair(ReplaceChar(s, '~', "~0"), '~', '0', "~") == s
  {
    if s != "" {
      EscapeTildeUndone(s[1..]);
      var rest := ReplaceChar(s[1..], '~', "~0");
      if s[0] == '~' {
        assert ("~0" + rest)[2..] == rest;
      } else {
        assert ([s[0]] + rest)[1..] == rest;
      }
      assert s == [s[0]] + s[1..];
    }
  }

  lemma {:induction false} EscapeSlashUndone(s: string)
    requires NoPair(s, '1')
    ensures '/' !in ReplaceChar(s, '/', "~1")
    ensures s != "" && s[0] != '1' ==> ReplaceChar(s, '/', "~1") != "" && ReplaceChar(s, '/', "~1")[0] != '1'
    ensures ReplacePair(ReplaceChar(s, '/', "~1"), '~', '1', "/") == s
  {
    if s != "" {
      EscapeSlashUndone(s[1..]);
      var rest := ReplaceChar(s[1..], '/', "~1");
      if s[0] == '/' {
        assert ("~1" + rest)[2..] == rest;
      } else {
        assert ([s[0]] + rest)[1..] == rest;
        assert |s| > 1 && s[0] == '~' ==> s[1] != '1';
      }
      assert s == [s[0]] + s[1..];
    }
  }

  /** Decoding inverts escaping for every token, and an escaped token never looks like a separator. */
  lemma EscapeRoundTrip(token: string)
    ensures Unescape(Escape(token)) == token
    ensures '/' !in Escape(token)
  {
    EscapeTildeUndone(token);
    EscapeSlashUndone(ReplaceChar(token, '~', "~0"));
  }

  lemma {:induction false} NothingToReplace(s: string, c: char, with: string)
    requires c !in s
    ensures ReplaceChar(s, c, with) == s
  {
    if s != "" {
      NothingToReplace(s[1..], c, with);
      assert s == [s[0]] + s[1..];
    }
  }

  lemma EscapePlain(token: string)
    requires '~' !in token && '/' !in token
    ensures Escape(token) == token
  {
    NothingToReplace(token, '~', "~0");
    NothingToReplace(token, '/', "~1");
  }

  // ----- whole pointers -----

  lemma ReadWrite(tokens: Path)
    ensures Read(Write(tokens)) == Some(tokens)
  {
    if tokens != [] {
      var parts := EscapeAll(tokens);
      forall i | 0 <= i < |parts|
        ensures '/' !in parts[i] && Unescape(parts[i]) == tokens[i]
      {
        EscapeRoundTrip(tokens[i]);
      }
      SplitJoin(parts, '/');
      var text := Write(tokens);
      assert text[0] == '/' && text[1..] == Join(parts, '/');
      assert Read(text).value == tokens;
    }
  }

  lemma WriteOne(key: string)
    ensures Write([key]) == "/" + Escape(key)
  {
    assert EscapeAll([key]) == [Escape(key)];
  }

  lemma WriteSnoc(path: Path, key: string)
    ensures Write(path + [key]) == Write(path) + "/" + Escape(key)
  {
    assert EscapeAll(path + [key]) == EscapeAll(path) + [Escape(key)];
    if path == [] {
      assert path + [key] == [key];
      WriteOne(key);
    } else {
      JoinSnoc(EscapeAll(path), Escape(key), '/');
    }
  }

  predicate IsPlain(token: string)
  {
    forall c <- token :: c != '~' && c != '/'
  }

  lemma WritePlainSnoc(path: Path, token: string)
    requires IsPlain(token)
    ensures Write(path + [token]) == Write(path) + "/" + token
  {
    WriteSnoc(path, token);
    EscapePlain(token);
  }

  // Here and elsewhere, lemmas about the text of pointers take tokens such as "spec" as parameters and
  // require them to be those texts: the solver then sees names where it would see sequences of characters.

  lemma WritePlainTwo(a: string, b: string, text: string)
    requires IsPlain(a) && IsPlain(b) && text == "/" + a + "/" + b
    ensures Write([a, b]) == text
  {
    WriteOne(a);
    EscapePlain(a);
    assert [a] + [b] == [a, b];
    WritePlainSnoc([a], b);
  }

  lemma WritePlainThree(a: string, b: string, c: string, text: string)
    requires IsPlain(a) && IsPlain(b) && IsPlain(c) && text == "/" + a + "/" + b + "/" + c
    ensures Write([a, b, c]) == text
  {
    WritePlainTwo(a, b, "/" + a + "/" + b);
    assert [a, b] + [c] == [a, b, c];
    WritePlainSnoc([a, b], c);
  }

  lemma WritePlainFour(a: string, b: string, c: string, d: string, text: string)
    requires IsPlain(a) && IsPlain(b) && IsPlain(c) && IsPlain(d) && text == "/" + a + "/" + b + "/" + c + "/" + d
    ensures Write([a, b, c, d]) == text
  {
    WritePlainThree(a, b, c, "/" + a + "/" + b + "/" + c);
    assert [a, b, c] + [d] == [a, b, c, d];
    WritePlainSnoc([a, b, c], d);
  }

  /** Under `path`, key `k` is written as `prefix` and the escaped key. */
  ghost predicate Writes(path: Path, prefix: string)
  {
    forall k: string :: Write(path + [k]) == prefix + Escape(k)
  }

  lemma WritesUnder(path: Path, prefix: string)
    requires Write(path) + "/" == prefix
    ensures Writes(path, prefix)
  {
    forall k: string ensures Write(path + [k]) == prefix + Escape(k) {
      WriteSnoc(path, k);
    }
  }

  /** Different token lists are written as different pointers. */
  lemma WriteInjective(p: Path, q: Path)
    requires Write(p) == Write(q)
    ensures p == q
  {
    ReadWrite(p);
    ReadWrite(q);
  }

  /** With an escape that is neither "~0" nor "~1", two texts can name one place. */
  lemma TwoTextsOnePlace(text: string)
    requires text == "~2"
    ensures Read("/" + text) == Read(Write([text])) == Some([text]) && "/" + text != Write([text])
  {
    ReadWrite([text]);
    WriteOne(text);
    assert text[1..] == "2" && "2"[1..] == "";
    assert ReplaceChar("2", '~', "~0") == "2" && ReplaceChar(text, '~', "~0") == "~02";
    NothingToReplace("~02", '/', "~1");
    assert Escape(text) == "~02";
    assert ReplacePair("2", '~', '1', "/") == "2" && ReplacePair("2", '~', '0', "~") == "2";
    assert Unescape(text) == text;
    var file := "/" + text;
    SplitHead(text, "", '/');
    assert file[0] == '/' && file[1..] == text && Split(file[1..], '/') == [text];
    assert Read(file).value == [text];
  }

  /** The order of the two passes matters: "/" before "~" would write "/" and "~1" alike. */
  lemma OtherOrderCollides()
    ensures ReplaceChar(ReplaceChar("/", '/', "~1"), '~', "~0") == ReplaceChar(ReplaceChar("~1", '/', "~1"), '~', "~0")
    ensures Escape("/") != Escape("~1")
  {
    assert ReplaceChar("/", '/', "~1") == "~1";
    EscapeRoundTrip("/");
    EscapeRoundTrip("~1");
  }
}
