/**
 * Decimal integers as the bridge reads and writes them: Python's `int(s)`
 * on an ASCII token, `str(n)` for a non-negative count or level, and the
 * conversion of a 0-100 level to the hub's 0-255 brightness scale.
 */
module Numbers {
  import opened Optional

  predicate IsDigit(c: char) {
    '0' <= c <= '9'
  }

  function DigitValue(c: char): (d: nat)
    requires IsDigit(c)
    ensures d < 10
  {
    c as int - '0' as int
  }

  function DigitChar(d: nat): (c: char)
    requires d < 10
    ensures IsDigit(c) && DigitValue(c) == d
  {
    ('0' as int + d) as char
  }

  /** `str(n)` for a non-negative integer: its decimal digits, without leading zeros. */
  function NatToString(n: nat): (s: string)
    ensures |s| > 0 && forall i :: 0 <= i < |s| ==> IsDigit(s[i])
    ensures |s| > 1 ==> s[0] != '0'
  {
    if n < 10 then [DigitChar(n)] else NatToString(n / 10) + [DigitChar(n % 10)]
  }

  /**
   * The body of a base-10 literal that Python's `int()` accepts after the
   * sign: digits, with single underscores allowed between two digits
   * (`1_000`), leading zeros allowed (`007`).
   */
  predicate IsDigitRun(t: string) {
    && |t| > 0
    && IsDigit(t[0])
    && IsDigit(t[|t| - 1])
    && (forall i :: 0 <= i < |t| ==> IsDigit(t[i]) || t[i] == '_')
    && (forall i :: 0 <= i < |t| - 1 ==> t[i] == '_' ==> t[i + 1] != '_')
  }

  /** The value of a run of digits and underscores, reading the underscores as nothing. */
  function DigitsValue(t: string): nat
    requires forall i :: 0 <= i < |t| ==> IsDigit(t[i]) || t[i] == '_'
    decreases |t|
  {
    if t == [] then 0
    else if t[|t| - 1] == '_' then DigitsValue(t[..|t| - 1])
    else DigitsValue(t[..|t| - 1]) * 10 + DigitValue(t[|t| - 1])
  }

  predicate IsSign(c: char) {
    c == '+' || c == '-'
  }

  /**
   * `int(t)` for a token that holds no whitespace: an optional sign and a
   * digit run; anything else raises, which is `None` here.
   */
  function ParseInt(t: string): (r: Option<int>)
    ensures r.Some? <==> (IsDigitRun(t) || (|t| > 0 && IsSign(t[0]) && IsDigitRun(t[1..])))
    ensures r.Some? && |t| > 0 && t[0] == '-' ==> r.value <= 0
    ensures r.Some? && (|t| == 0 || t[0] != '-') ==> r.value >= 0
  {
    if |t| > 0 && IsSign(t[0]) then
      if IsDigitRun(t[1..]) then
        var n := DigitsValue(t[1..]);
        Some(if t[0] == '-' then -(n as int) else n)
      else None
    else if IsDigitRun(t) then Some(DigitsValue(t))
    else None
  }

  lemma {:induction false} DigitsValueOfNatToString(n: nat)
    ensures DigitsValue(NatToString(n)) == n
    decreases n
  {
    var s := NatToString(n);
    if n >= 10 {
      DigitsValueOfNatToString(n / 10);
      assert s[..|s| - 1] == NatToString(n / 10);
    }
  }

  /** A leading zero adds nothing to the value. */
  lemma {:induction false} LeadingZero(t: string)
    requires forall i :: 0 <= i < |t| ==> IsDigit(t[i]) || t[i] == '_'
    ensures DigitsValue("0" + t) == DigitsValue(t)
    decreases |t|
  {
    var z := "0" + t;
    if t == [] {
      assert z[..0] == [];
    } else {
      assert z[..|z| - 1] == "0" + t[..|t| - 1];
      assert z[|z| - 1] == t[|t| - 1];
      LeadingZero(t[..|t| - 1]);
    }
  }

  /** An underscore between digits adds nothing to the value: `1_000` is `1000`. */
  lemma {:induction false} UnderscoreIgnored(a: string, b: string)
    requires forall i :: 0 <= i < |a| ==> IsDigit(a[i]) || a[i] == '_'
    requires forall i :: 0 <= i < |b| ==> IsDigit(b[i]) || b[i] == '_'
    ensures DigitsValue(a + "_" + b) == DigitsValue(a + b)
    decreases |b|
  {
    var u := a + "_" + b;
    if b == [] {
      assert u[..|u| - 1] == a;
      assert a + b == a;
    } else {
      var b' := b[..|b| - 1];
      assert u[..|u| - 1] == a + "_" + b';
      assert u[|u| - 1] == b[|b| - 1];
      assert (a + b)[..|a + b| - 1] == a + b';
      assert (a + b)[|a + b| - 1] == b[|b| - 1];
      UnderscoreIgnored(a, b');
    }
  }

  /** `int()` ignores leading zeros: `050` is read as `50`, so the LEVEL range check sees `50`. */
  lemma ParseLeadingZero(t: string)
    requires IsDigitRun(t)
    ensures ParseInt("0" + t) == ParseInt(t)
  {
    LeadingZero(t);
    assert ("0" + t)[|"0" + t| - 1] == t[|t| - 1];
  }

  /** `int()` ignores an underscore between two digits: `1_00` is read as `100`. */
  lemma ParseUnderscore(a: string, b: string)
    requires IsDigitRun(a) && IsDigitRun(b)
    ensures ParseInt(a + "_" + b) == ParseInt(a + b)
  {
    UnderscoreIgnored(a, b);
    var u := a + "_" + b;
    var v := a + b;
    assert u[0] == a[0] && v[0] == a[0];
    assert u[|u| - 1] == b[|b| - 1] && v[|v| - 1] == b[|b| - 1];
    assert IsDigitRun(u) by {
      forall i | 0 <= i < |u| - 1 && u[i] == '_' ensures u[i + 1] != '_' {
        if i < |a| - 1 {
          assert u[i] == a[i] && u[i + 1] == a[i + 1];
        } else if i > |a| {
          assert u[i] == b[i - |a| - 1] && u[i + 1] == b[i - |a|];
        }
      }
    }
    assert IsDigitRun(v) by {
      forall i | 0 <= i < |v| - 1 && v[i] == '_' ensures v[i + 1] != '_' {
        if i < |a| - 1 {
          assert v[i] == a[i] && v[i + 1] == a[i + 1];
        } else if i >= |a| {
          assert v[i] == b[i - |a|] && v[i + 1] == b[i - |a| + 1];
        }
      }
    }
  }

  /** Reading back what `str(n)` printed gives `n`: the two are inverse. */
  lemma ParseNatToString(n: nat)
    ensures ParseInt(NatToString(n)) == Some(n)
  {
    DigitsValueOfNatToString(n);
  }

  /** A leading `-` negates and a leading `+` changes nothing. */
  lemma ParseSigned(n: nat)
    ensures ParseInt("-" + NatToString(n)) == Some(-(n as int))
    ensures ParseInt("+" + NatToString(n)) == Some(n)
  {
    DigitsValueOfNatToString(n);
    assert ("-" + NatToString(n))[1..] == NatToString(n);
    assert ("+" + NatToString(n))[1..] == NatToString(n);
  }

  /**
   * `int(level * 255 / 100)`: the float quotient is exact enough for every
   * level in 0..100 that truncating it is the floor of the exact quotient.
   */
  function Brightness(level: int): (b: int)
    requires 0 <= level <= 100
    ensures 0 <= b <= 255
    ensures b * 100 <= level * 255 < b * 100 + 100
  {
    level * 255 / 100
  }

  /** A higher level never asks for less light. */
  lemma BrightnessMonotone(a: int, b: int)
    requires 0 <= a <= b <= 100
    ensures Brightness(a) <= Brightness(b)
  {
  }
}
