/** Decimal text: `strconv.FormatInt(n, 10)`, `strconv.Atoi` and the `int32` conversion. */
module Strconv {
  import opened Wrappers

  const MAX_INT32 := 0x7FFF_FFFF
  const MAX_INT64 := 0x7FFF_FFFF_FFFF_FFFF

  function Digit(d: nat): char
    requires d < 10
  {
    '0' + d as char
  }

  predicate IsDigit(c: char)
  {
    '0' <= c <= '9'
  }

  predicate AllDigits(s: string)
  {
    forall c <- s :: IsDigit(c)
  }

  function Decimal(n: nat): string
  {
    if n < 10 then [Digit(n)] else Decimal(n / 10) + [Digit(n % 10)]
  }

  /** The value of a digit string, most significant digit first. */
  function Value(s: string): nat
    requires AllDigits(s)
  {
    if s == "" then 0
    else
      assert IsDigit(s[|s| - 1]);
      10 * Value(s[..|s| - 1]) + (s[|s| - 1] as int - '0' as int)
  }

  lemma {:induction false} ValueOfDecimal(n: nat)
    ensures Decimal(n) != "" && AllDigits(Decimal(n)) && Value(Decimal(n)) == n
  {
    if n >= 10 {
      ValueOfDecimal(n / 10);
      var s := Decimal(n);
      assert s[..|s| - 1] == Decimal(n / 10);
    } else {
      var s := Decimal(n);
      assert s[..|s| - 1] == "";
    }
  }

  function FormatInt(n: int): string
  {
    if n < 0 then "-" + Decimal(-n) else Decimal(n)
  }

  /** `strconv.Atoi` where `int` has 64 bits: an optional sign, at least one digit, in range. */
  function Atoi(s: string): Option<int>
  {
    var signed := s != "" && (s[0] == '-' || s[0] == '+');
    var digits := if signed then s[1..] else s;
    if digits == "" || !AllDigits(digits) then None
    else
      var magnitude: int := Value(digits);
      var n := if signed && s[0] == '-' then 0 - magnitude else magnitude;
      if -MAX_INT64 - 1 <= n <= MAX_INT64 then Some(n) else None
  }

  /** Go's conversion `int32(n)`: the low 32 bits, read as two's complement. */
  function ToInt32(n: int): (r: int)
    ensures IsInt32(r)
    ensures (n - r) % 0x1_0000_0000 == 0
  {
    (n + 0x8000_0000) % 0x1_0000_0000 - 0x8000_0000
  }

  predicate IsInt32(n: int)
  {
    -MAX_INT32 - 1 <= n <= MAX_INT32
  }

  lemma AtoiOfDecimal(n: int)
    requires 0 <= n <= MAX_INT64
    ensures Atoi(Decimal(n)) == Some(n) && Atoi("-" + Decimal(n)) == Some(-n)
  {
    ValueOfDecimal(n);
    var digits := Decimal(n);
    assert IsDigit(digits[0]);
    var signed := "-" + digits;
    assert signed[0] == '-' && signed[1..] == digits;
  }

  function Zeros(k: nat): (r: string)
    ensures |r| == k && forall c <- r :: c == '0'
  {
    seq(k, _ => '0')
  }

  lemma AppendDigit(w: nat, c: char)
    requires IsDigit(c)
    ensures Decimal(10 * w + (c as int - '0' as int)) == if w == 0 then [c] else Decimal(w) + [c]
  {
    var d: nat := c as int - '0' as int;
    assert Digit(d) == c;
  }

  lemma ValueSnoc(init: string, c: char)
    requires AllDigits(init) && IsDigit(c)
    ensures AllDigits(init + [c]) && Value(init + [c]) == 10 * Value(init) + (c as int - '0' as int)
  {
    assert (init + [c])[..|init|] == init;
  }

  lemma OneMoreZero(k: nat, init: string, c: char)
    requires init == Zeros(k) + "0"
    ensures init + [c] == Zeros(k + 1) + [c]
  {
    assert Zeros(k) + "0" == Zeros(k + 1);
  }

  lemma DigitsSnoc(init: string, w: nat, c: char, k: nat) returns (m: nat)
    requires IsDigit(c) && init == Zeros(k) + Decimal(w)
    ensures init + [c] == Zeros(m) + Decimal(10 * w + (c as int - '0' as int))
  {
    AppendDigit(w, c);
    m := k;
    if w == 0 {
      OneMoreZero(k, init, c);
      m := k + 1;
    } else {
      assert Zeros(k) + (Decimal(w) + [c]) == init + [c];
    }
  }

  /** Digits are the decimal text of their value behind some zeros. */
  lemma {:induction false} DigitsAre(t: string) returns (k: nat)
    requires t != "" && AllDigits(t)
    ensures t == Zeros(k) + Decimal(Value(t))
    decreases |t|
  {
    var init, c := t[..|t| - 1], t[|t| - 1];
    assert c in t && t == init + [c];
    ValueSnoc(init, c);
    if init == "" {
      k := 0;
      AppendDigit(0, c);
      assert Zeros(0) + [c] == [c];
    } else {
      k := DigitsAre(init);
      k := DigitsSnoc(init, Value(init), c, k);
    }
  }

  lemma {:induction false} ZerosDoNotCount(k: nat, t: string)
    requires AllDigits(t)
    ensures AllDigits(Zeros(k) + t) && Value(Zeros(k) + t) == Value(t)
    decreases k + |t|
  {
    var all := Zeros(k) + t;
    if t != "" {
      ZerosDoNotCount(k, t[..|t| - 1]);
      assert all[..|all| - 1] == Zeros(k) + t[..|t| - 1];
    } else if k > 0 {
      ZerosDoNotCount(k - 1, t);
      assert all[..|all| - 1] == Zeros(k - 1) + t;
    }
  }

  /** A numeral for `n`: a sign if wanted, zeros, and the decimal text. */
  predicate Numeral(s: string, n: int, sign: string, k: nat)
  {
    && s == sign + (Zeros(k) + Decimal(if n < 0 then -n else n))
    && (if sign == "-" then n <= 0 else (sign == "" || sign == "+") && n >= 0)
  }

  /** Exactly which texts are read, and as what. */
  lemma AtoiIff(s: string, n: int)
    ensures Atoi(s) == Some(n) <==>
            -MAX_INT64 - 1 <= n <= MAX_INT64 && exists sign: string, k: nat :: Numeral(s, n, sign, k)
  {
    if Atoi(s) == Some(n) {
      var sign := if s[0] == '-' || s[0] == '+' then s[..1] else "";
      var digits := s[|sign|..];
      var k := DigitsAre(digits);
      assert s == sign + digits;
      assert Numeral(s, n, sign, k);
    }
    if -MAX_INT64 - 1 <= n <= MAX_INT64 {
      if sign: string, k: nat :| Numeral(s, n, sign, k) {
        NumeralIsRead(s, n, sign, k);
      }
    }
  }

  lemma NumeralIsRead(s: string, n: int, sign: string, k: nat)
    requires -MAX_INT64 - 1 <= n <= MAX_INT64 && Numeral(s, n, sign, k)
    ensures Atoi(s) == Some(n)
  {
    var magnitude := if n < 0 then -n else n;
    var digits := Zeros(k) + Decimal(magnitude);
    ValueOfDecimal(magnitude);
    ZerosDoNotCount(k, Decimal(magnitude));
    assert IsDigit(digits[0]);
    if sign != "" {
      assert s[0] == sign[0] && s[1..] == digits;
    } else {
      assert s == digits;
    }
  }

  lemma ToInt32Same(n: int)
    requires IsInt32(n)
    ensures ToInt32(n) == n
  {
  }

  /** Saving a replica count as text and reading it back returns the count, for every int32. */
  lemma AtoiOfFormatInt(n: int)
    requires IsInt32(n)
    ensures Atoi(FormatInt(n)) == Some(n) && ToInt32(n) == n
    ensures FormatInt(n) == if n >= 0 then Decimal(n) else "-" + Decimal(-n)
  {
    AtoiOfDecimal(if n < 0 then -n else n);
    ToInt32Same(n);
  }
}
