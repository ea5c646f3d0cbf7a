/** The JSON text of node selectors, as `encoding/json` writes a map of strings, can be read back. */
module SelectorCodec {
  import opened Wrappers
  import opened Workloads
  import Strings

  // ----- characters and strings -----

  /** The letter behind the backslash of a short escape. */
  function Short(c: char): Option<char>
  {
    match c
    case '\"' => Some('\"')
    case '\\' => Some('\\')
    case '\U{8}' => Some('b')
    case '\U{c}' => Some('f')
    case '\n' => Some('n')
    case '\r' => Some('r')
    case '\t' => Some('t')
    case _ => None
  }

  /** The other characters that are escaped: control characters, those special in HTML, line separators. */
  predicate Long(c: char)
  {
    c < ' ' || c == '<' || c == '>' || c == '&' || c == '\U{2028}' || c == '\U{2029}'
  }

  function HexDigit(d: nat): char
    requires d < 16
  {
    if d < 10 then '0' + d as char else 'a' + (d - 10) as char
  }

  function Hex(n: nat): string
    requires n < 0x1_0000
  {
    [HexDigit(n / 16 / 16 / 16), HexDigit(n / 16 / 16 % 16), HexDigit(n / 16 % 16), HexDigit(n % 16)]
  }

  function QuoteChar(c: char): string
  {
    match Short(c)
    case Some(d) => ['\\', d]
    case None => if Long(c) then ['\\', 'u'] + Hex(c as int) else [c]
  }

  function QuoteChars(s: string): string
  {
    if s == "" then "" else QuoteChar(s[0]) + QuoteChars(s[1..])
  }

  function Quote(s: string): string
  {
    ['\"'] + QuoteChars(s) + ['\"']
  }

  lemma HexDigitInjective(d: nat, e: nat)
    requires d < 16 && e < 16 && HexDigit(d) == HexDigit(e)
    ensures d == e
  {
  }

  lemma SameNumber(m: nat, n: nat)
    requires m / 16 == n / 16 && m % 16 == n % 16
    ensures m == n
  {
  }

  lemma HexInjective(m: nat, n: nat)
    requires m < 0x1_0000 && n < 0x1_0000 && Hex(m) == Hex(n)
    ensures m == n
  {
    SameDigits(m / 16 / 16 / 16, m / 16 / 16 % 16, m / 16 % 16, m % 16,
               n / 16 / 16 / 16, n / 16 / 16 % 16, n / 16 % 16, n % 16);
    SameNumber(m / 16 / 16, n / 16 / 16);
    SameNumber(m / 16, n / 16);
    SameNumber(m, n);
  }

  lemma SameDigits(a: nat, b: nat, c: nat, d: nat, e: nat, f: nat, g: nat, h: nat)
    requires a < 16 && b < 16 && c < 16 && d < 16 && e < 16 && f < 16 && g < 16 && h < 16
    requires [HexDigit(a), HexDigit(b), HexDigit(c), HexDigit(d)] ==
             [HexDigit(e), HexDigit(f), HexDigit(g), HexDigit(h)]
    ensures a == e && b == f && c == g && d == h
  {
    HexDigitInjective(a, e);
    HexDigitInjective(b, f);
    HexDigitInjective(c, g);
    HexDigitInjective(d, h);
  }

  /** A quoted character is followed by nothing that could belong to it. */
  lemma CharEnds(c: char, x: string, d: char, y: string)
    requires QuoteChar(c) + x == QuoteChar(d) + y
    ensures c == d && x == y
  {
    var text := QuoteChar(c) + x;
    assert text[0] == QuoteChar(c)[0] == QuoteChar(d)[0];
    if Short(c).Some? || Long(c) {
      assert text[1] == QuoteChar(c)[1] == QuoteChar(d)[1];
      if Short(c).None? {
        assert text[2..6] == Hex(c as int) && text[2..6] == Hex(d as int);
        HexInjective(c as int, d as int);
      }
    }
    assert text[|QuoteChar(c)|..] == x && text[|QuoteChar(d)|..] == y;
  }

  lemma NoQuote(c: char, x: string)
    ensures (QuoteChar(c) + x)[0] != '\"'
  {
  }

  lemma {:induction false} CharsEnd(a: string, x: string, b: string, y: string)
    requires QuoteChars(a) + ['\"'] + x == QuoteChars(b) + ['\"'] + y
    ensures a == b && x == y
    decreases |a|
  {
    var u, v := QuoteChars(a) + ['\"'] + x, QuoteChars(b) + ['\"'] + y;
    if a != "" {
      Unquote(a, x);
      NoQuote(a[0], QuoteChars(a[1..]) + ['\"'] + x);
    }
    if b != "" {
      Unquote(b, y);
      NoQuote(b[0], QuoteChars(b[1..]) + ['\"'] + y);
    }
    if a == "" || b == "" {
      assert a == "" ==> u[0] == '\"' && u[1..] == x;
      assert b == "" ==> v[0] == '\"' && v[1..] == y;
    } else {
      CharEnds(a[0], QuoteChars(a[1..]) + ['\"'] + x, b[0], QuoteChars(b[1..]) + ['\"'] + y);
      CharsEnd(a[1..], x, b[1..], y);
      assert a == [a[0]] + a[1..] && b == [b[0]] + b[1..];
    }
  }

  lemma Unquote(a: string, x: string)
    requires a != ""
    ensures QuoteChars(a) + ['\"'] + x == QuoteChar(a[0]) + (QuoteChars(a[1..]) + ['\"'] + x)
  {
  }

  lemma QuoteEnds(a: string, x: string, b: string, y: string)
    requires Quote(a) + x == Quote(b) + y
    ensures a == b && x == y
  {
    assert (Quote(a) + x)[1..] == QuoteChars(a) + ['\"'] + x;
    assert (Quote(b) + y)[1..] == QuoteChars(b) + ['\"'] + y;
    CharsEnd(a, x, b, y);
  }

  // ----- reading a string back, as RFC 8259 section 7 says -----

  function Plain(letter: char): Option<char>
  {
    match letter
    case '\"' => Some('\"')
    case '\\' => Some('\\')
    case '/' => Some('/')
    case 'b' => Some('\U{8}')
    case 'f' => Some('\U{c}')
    case 'n' => Some('\n')
    case 'r' => Some('\r')
    case 't' => Some('\t')
    case _ => None
  }

  function HexValue(c: char): Option<nat>
  {
    if '0' <= c <= '9' then Some((c as int - '0' as int) as nat)
    else if 'a' <= c <= 'f' then Some((c as int - 'a' as int + 10) as nat)
    else if 'A' <= c <= 'F' then Some((c as int - 'A' as int + 10) as nat)
    else None
  }

  /** The character that four hexadecimal digits stand for, unless they are half of a pair. */
  function HexChar(a: char, b: char, c: char, d: char): Option<char>
  {
    var x, y, z, w := HexValue(a), HexValue(b), HexValue(c), HexValue(d);
    if x.None? || y.None? || z.None? || w.None? then None
    else
      var n := ((x.value * 16 + y.value) * 16 + z.value) * 16 + w.value;
      if n < 0xD800 || 0xDFFF < n < 0x11_0000 then Some(n as char) else None
  }

  /** The first character of a string's text, and how much of the text it takes. */
  function FirstChar(text: string): Option<(char, nat)>
  {
    if text == "" || text[0] == '\"' || text[0] < ' ' then None
    else if text[0] != '\\' then Some((text[0], 1))
    else if |text| >= 2 && Plain(text[1]).Some? then Some((Plain(text[1]).value, 2))
    else if |text| >= 6 && text[1] == 'u' && HexChar(text[2], text[3], text[4], text[5]).Some?
    then Some((HexChar(text[2], text[3], text[4], text[5]).value, 6))
    else None
  }

  lemma HexDigitValue(d: nat)
    requires d < 16
    ensures HexValue(HexDigit(d)) == Some(d) && HexDigit(d) == "0123456789abcdef"[d]
  {
  }

  lemma FourDigits(n: nat)
    requires n < 0x1_0000
    ensures ((n / 16 / 16 / 16 * 16 + n / 16 / 16 % 16) * 16 + n / 16 % 16) * 16 + n % 16 == n
  {
    var a := n / 16;
    var b := a / 16;
    assert n == 16 * a + n % 16 && a == 16 * b + a % 16 && b == 16 * (b / 16) + b % 16;
  }

  lemma HexCharIs(c: char)
    requires c as int < 0x1_0000
    ensures var h := Hex(c as int); HexChar(h[0], h[1], h[2], h[3]) == Some(c)
  {
    var n := c as int;
    HexDigitValue(n / 16 / 16 / 16);
    HexDigitValue(n / 16 / 16 % 16);
    HexDigitValue(n / 16 % 16);
    HexDigitValue(n % 16);
    FourDigits(n);
  }

  /** Every quoted character reads as itself, by the escapes of the standard. */
  lemma QuotedCharReads(c: char, rest: string)
    ensures FirstChar(QuoteChar(c) + rest) == Some((c, |QuoteChar(c)|))
  {
    var text := QuoteChar(c) + rest;
    if Short(c).None? && Long(c) {
      HexCharIs(c);
      var h := Hex(c as int);
      assert text[2] == h[0] && text[3] == h[1] && text[4] == h[2] && text[5] == h[3];
    }
  }

  /** Exactly which characters stand for themselves. */
  lemma UnquotedIff(c: char)
    ensures QuoteChar(c) == [c] <==>
            c as int >= 32 && c !in "\"\\<>&" && c as int != 0x2028 && c as int != 0x2029
  {
  }

  /** The text holds nothing that HTML or JavaScript would give another meaning to. */
  lemma {:induction false} QuotedIsHarmless(s: string)
    ensures forall c <- QuoteChars(s) ::
      c >= ' ' && c != '<' && c != '>' && c != '&' && c != '\U{2028}' && c != '\U{2029}'
  {
    if s != "" {
      QuotedIsHarmless(s[1..]);
      HarmlessChar(s[0]);
    }
  }

  lemma HarmlessChar(c: char)
    ensures forall q <- QuoteChar(c) ::
      q >= ' ' && q != '<' && q != '>' && q != '&' && q != '\U{2028}' && q != '\U{2029}'
  {
    if Short(c).None? && Long(c) {
      var h := Hex(c as int);
      forall d | d in h ensures HexValue(d).Some? {
      }
    }
  }

  // ----- maps -----

  /** The least key. */
  ghost predicate IsFirst(s: Selector, k: string)
  {
    k in s && forall j <- s :: j == k || Strings.Less(k, j)
  }

  lemma {:induction false} FirstExists(s: Selector)
    requires s != map[]
    ensures exists k :: IsFirst(s, k)
    decreases |s|
  {
    var k :| k in s;
    var rest := s - {k};
    assert rest.Keys == s.Keys - {k};
    if rest == map[] {
      assert forall j <- s :: j == k || j in rest;
      assert IsFirst(s, k);
    } else {
      FirstExists(rest);
      var l :| IsFirst(rest, l);
      Strings.LessTotal(k, l);
      var least := if Strings.Less(k, l) then k else l;
      forall j | j in s && j != least ensures Strings.Less(least, j) {
        if j != k && j != l && least == k {
          assert j in rest;
          Strings.LessTransitive(k, l, j);
        }
        assert j == k || j in rest;
      }
      assert IsFirst(s, least);
    }
  }

  ghost function First(s: Selector): (k: string)
    requires s != map[]
    ensures IsFirst(s, k)
  {
    FirstExists(s);
    var k :| IsFirst(s, k);
    k
  }

  /** The members in the order of their keys, and the closing brace. */
  ghost function Members(s: Selector): string
    decreases |s|
  {
    if s == map[] then "}"
    else
      var k := First(s);
      assert |s - {k}| < |s| by {
        assert (s - {k}).Keys == s.Keys - {k};
      }
      Quote(k) + (":" + (Quote(s[k]) + ((if s - {k} == map[] then "" else ",") + Members(s - {k}))))
  }

  /** `json.Marshal`. */
  ghost function Marshal(s: Selector): string
  {
    "{" + Members(s)
  }

  /** `json.Unmarshal`, on texts that `Marshal` writes. */
  ghost function Unmarshal(text: string): Option<Selector>
  {
    if s: Selector :| Marshal(s) == text then Some(s) else None
  }

  lemma MembersStep(s: Selector) returns (k: string, rest: Selector, more: string)
    requires s != map[]
    ensures k in s && rest == s - {k} && |rest| < |s|
    ensures more == (if rest == map[] then "" else ",") + Members(rest)
    ensures Members(s) == Quote(k) + (":" + (Quote(s[k]) + more)) && Members(s)[0] == '\"'
    ensures s == rest[k := s[k]]
  {
    k := First(s);
    rest := s - {k};
    assert rest.Keys == s.Keys - {k};
    more := (if rest == map[] then "" else ",") + Members(rest);
  }

  lemma Behind(c: string, x: string, y: string)
    requires c + x == c + y
    ensures x == y
  {
    assert (c + x)[|c|..] == x && (c + y)[|c|..] == y;
  }

  lemma MembersStart(s: Selector)
    ensures Members(s) != "" && (Members(s)[0] == '}' <==> s == map[]) && Members(s)[0] != ','
  {
    if s != map[] {
      var k, rest, more := MembersStep(s);
    }
  }

  lemma {:induction false} MembersInjective(s: Selector, t: Selector)
    requires Members(s) == Members(t)
    ensures s == t
    decreases |s|
  {
    MembersStart(s);
    MembersStart(t);
    if s != map[] {
      var k, rest, more := MembersStep(s);
      var l, later, after := MembersStep(t);
      QuoteEnds(k, ":" + (Quote(s[k]) + more), l, ":" + (Quote(t[l]) + after));
      Behind(":", Quote(s[k]) + more, Quote(t[l]) + after);
      QuoteEnds(s[k], more, t[l], after);
      SameRest(rest, later);
      MembersInjective(rest, later);
    }
  }

  /** A comma follows exactly when there are more members. */
  lemma SameRest(s: Selector, t: Selector)
    requires (if s == map[] then "" else ",") + Members(s) == (if t == map[] then "" else ",") + Members(t)
    ensures Members(s) == Members(t)
  {
    var more := (if s == map[] then "" else ",") + Members(s);
    MembersStart(s);
    MembersStart(t);
    assert more[0] == ',' <==> s != map[];
    assert more[0] == ',' <==> t != map[];
    Behind(if s == map[] then "" else ",", Members(s), Members(t));
  }

  /** The encoding of the source can be read back. */
  lemma MarshalFaithful()
    ensures Faithful(Codec((s: Selector) => Marshal(s), (text: string) => Unmarshal(text)))
  {
    var codec := Codec((s: Selector) => Marshal(s), (text: string) => Unmarshal(text));
    forall s: Selector ensures codec.decode(codec.encode(s)) == Some(s) {
      var t :| Marshal(t) == Marshal(s) && Unmarshal(Marshal(s)) == Some(t);
      Behind("{", Members(t), Members(s));
      MembersInjective(t, s);
    }
  }
}
