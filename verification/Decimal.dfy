/** Decimal numbers in keys: rendering, and parsing as Rust's `u32::from_str` does it. */
module Decimal {
  import opened Basics

  const U32_LIMIT: nat := 0x1_0000_0000

  predicate IsDigit(c: char) {
    '0' <= c <= '9'
  }

  predicate AllDigits(s: string) {
    forall i :: 0 <= i < |s| ==> IsDigit(s[i])
  }

  function Value(s: string): nat
    requires AllDigits(s)
  {
    if s == [] then 0
    else
      assert IsDigit(s[|s| - 1]);
      10 * Value(s[..|s| - 1]) + (s[|s| - 1] as int - '0' as int)
  }

  function WithoutPlus(s: string): string {
    if s != [] && s[0] == '+' then s[1..] else s
  }

  /** An optional plus sign, then digits, and no more than 32 bits. */
  function ParseU32(s: string): Option<nat> {
    var digits := WithoutPlus(s);
    if digits == [] || !AllDigits(digits) then None
    else if Value(digits) < U32_LIMIT then Some(Value(digits)) else None
  }

  function Render(n: nat): (s: string)
    ensures s != [] && AllDigits(s)
  {
    var last := ['0' + (n % 10) as char];
    if n < 10 then last else Render(n / 10) + last
  }

  lemma {:induction false} ValueOfRender(n: nat)
    ensures Value(Render(n)) == n
  {
    var s := Render(n);
    if n < 10 {
      assert Value(s[..0]) == 0;
    } else {
      ValueOfRender(n / 10);
      assert s[..|s| - 1] == Render(n / 10);
    }
  }

  lemma ParseRendered(n: nat)
    requires n < U32_LIMIT
    ensures ParseU32(Render(n)) == Some(n)
  {
    ValueOfRender(n);
    assert IsDigit(Render(n)[0]);
  }

  // ---------- Texts of one number ----------

  function WithoutZeros(s: string): string {
    if s != [] && s[0] == '0' then WithoutZeros(s[1..]) else s
  }

  /** The texts are the same but for one plus sign in front and for leading zeros. */
  predicate SameNumber(a: string, b: string) {
    WithoutZeros(WithoutPlus(a)) == WithoutZeros(WithoutPlus(b))
  }

  lemma {:induction false} LeadingZero(s: string)
    requires AllDigits(s) && s != [] && s[0] == '0'
    ensures AllDigits(s[1..]) && Value(s[1..]) == Value(s)
  {
    if |s| > 1 {
      LeadingZero(s[..|s| - 1]);
      assert s[1..][..|s| - 2] == s[..|s| - 1][1..];
    }
  }

  lemma {:induction false} ValueWithoutZeros(s: string)
    requires AllDigits(s)
    ensures AllDigits(WithoutZeros(s)) && Value(WithoutZeros(s)) == Value(s)
    ensures WithoutZeros(s) != [] ==> WithoutZeros(s)[0] != '0'
  {
    if s != [] && s[0] == '0' {
      LeadingZero(s);
      ValueWithoutZeros(s[1..]);
    }
  }

  lemma {:induction false} ValueIsPositive(s: string)
    requires AllDigits(s) && s != [] && s[0] != '0'
    ensures Value(s) > 0
  {
    if |s| > 1 {
      ValueIsPositive(s[..|s| - 1]);
    }
  }

  /** Digits without a leading zero are determined by their value. */
  lemma {:induction false} ValueIsInjective(s: string, t: string)
    requires AllDigits(s) && AllDigits(t) && Value(s) == Value(t)
    requires (s != [] ==> s[0] != '0') && (t != [] ==> t[0] != '0')
    ensures s == t
  {
    if s == [] || t == [] {
      if s != [] {
        ValueIsPositive(s);
      } else if t != [] {
        ValueIsPositive(t);
      }
    } else {
      var m, n := |s| - 1, |t| - 1;
      LastDigit(s, t);
      ValueIsInjective(s[..m], t[..n]);
      assert s == s[..m] + [s[m]] && t == t[..n] + [t[n]];
    }
  }

  lemma LastDigit(s: string, t: string)
    requires AllDigits(s) && AllDigits(t) && s != [] && t != [] && Value(s) == Value(t)
    ensures s[|s| - 1] == t[|t| - 1] && Value(s[..|s| - 1]) == Value(t[..|t| - 1])
  {
    var a, b := s[|s| - 1], t[|t| - 1];
    assert IsDigit(a) && IsDigit(b);
    assert (a as int - '0' as int) == Value(s) % 10 && (b as int - '0' as int) == Value(t) % 10;
  }

  /** Two texts are parsed to the same number if and only if they differ at most by a plus sign
      and leading zeros. */
  lemma ParsedAlikeIff(a: string, b: string)
    requires ParseU32(a).Some? && ParseU32(b).Some?
    ensures ParseU32(a) == ParseU32(b) <==> SameNumber(a, b)
  {
    hide Value, WithoutZeros;
    ValueWithoutZeros(WithoutPlus(a));
    ValueWithoutZeros(WithoutPlus(b));
    if ParseU32(a) == ParseU32(b) {
      ValueIsInjective(WithoutZeros(WithoutPlus(a)), WithoutZeros(WithoutPlus(b)));
    }
  }
  /** Exactly which texts are parsed, and to what: digits, with or without a plus sign in front,
      that are the number but for leading zeros, if it has no more than 32 bits. */
  lemma ParseIff(s: string, n: nat)
    ensures ParseU32(s) == Some(n) <==>
      n < 4_294_967_296 && WithoutPlus(s) != [] && AllDigits(WithoutPlus(s)) && SameNumber(s, Render(n))
  {
    hide Value, Render, WithoutZeros;
    assert IsDigit(Render(n)[0]) && WithoutPlus(Render(n)) == Render(n);
    ValueOfRender(n);
    ValueWithoutZeros(Render(n));
    if AllDigits(WithoutPlus(s)) {
      ValueWithoutZeros(WithoutPlus(s));
      if Value(WithoutPlus(s)) == n {
        ValueIsInjective(WithoutZeros(WithoutPlus(s)), WithoutZeros(Render(n)));
      }
    }
  }

  lemma TenIsTen()
    ensures Render(10) == "10" && ParseU32("+010") == Some(10)
  {
    assert Render(1) == "1";
    assert WithoutPlus("+010") == "010" && "010"[1..] == "10";
    ParseIff("+010", 10);
  }
}
