/** The global `parseInt(text)` of ECMAScript (no radix argument), over
    mathematical integers: leading white space is skipped, one sign is
    read, a `0x`/`0X` prefix switches to base 16, and the longest run of
    digits of the base that follows is read. Without any digit the result
    is NaN, modelled as `None`. */
module JsParse {
  import opened Results
  import opened Text

  /** The value of `c` as a digit of base `radix` (10 or 16). */
  function DigitValue(c: char, radix: nat): (r: Option<nat>)
    requires radix == 10 || radix == 16
    ensures r.Some? ==> r.value < radix
  {
    if '0' <= c <= '9' then Some(c as int - '0' as int)
    else if radix == 16 && 'a' <= c <= 'f' then Some(c as int - 'a' as int + 10)
    else if radix == 16 && 'A' <= c <= 'F' then Some(c as int - 'A' as int + 10)
    else None
  }

  /** The longest prefix of `s` made of digits of base `radix`. */
  function DigitRun(s: string, radix: nat): (r: string)
    requires radix == 10 || radix == 16
    ensures |r| <= |s| && r == s[..|r|]
    ensures forall i :: 0 <= i < |r| ==> DigitValue(r[i], radix).Some?
    ensures |r| < |s| ==> DigitValue(s[|r|], radix).None?
  {
    if |s| > 0 && DigitValue(s[0], radix).Some? then [s[0]] + DigitRun(s[1..], radix) else ""
  }

  /** The number a run of digits denotes, most significant digit first. */
  function RunValue(ds: string, radix: nat): nat
    requires radix == 10 || radix == 16
    requires forall i :: 0 <= i < |ds| ==> DigitValue(ds[i], radix).Some?
  {
    if |ds| == 0 then 0
    else RunValue(ds[..|ds| - 1], radix) * radix + DigitValue(ds[|ds| - 1], radix).value
  }

  /** `parseInt(s)`; `None` stands for NaN. */
  function ParseInt(s: string): Option<int> {
    var t := TrimStart(s);
    var negative := |t| > 0 && t[0] == '-';
    var u := if |t| > 0 && (t[0] == '-' || t[0] == '+') then t[1..] else t;
    match ParseMagnitude(u)
    case None => None
    case Some(m) => Some(if negative then 0 - m else m)
  }

  /** The unsigned part of `parseInt`: an optional `0x`/`0X` prefix, then
      the longest run of digits of the chosen base. */
  function ParseMagnitude(u: string): Option<nat> {
    var hex := |u| >= 2 && u[0] == '0' && (u[1] == 'x' || u[1] == 'X');
    var radix := if hex then 16 else 10;
    var ds := DigitRun(if hex then u[2..] else u, radix);
    if |ds| == 0 then None else Some(RunValue(ds, radix))
  }

  lemma {:induction false} RunOfDecimal(s: string)
    requires forall i :: 0 <= i < |s| ==> IsDigit(s[i])
    ensures DigitRun(s, 10) == s
  {
    if |s| > 0 {
      assert forall i :: 0 <= i < |s[1..]| ==> IsDigit(s[1..][i]);
      RunOfDecimal(s[1..]);
    }
  }

  lemma {:induction false} ValueOfShowNat(n: nat)
    ensures forall i :: 0 <= i < |ShowNat(n)| ==> DigitValue(ShowNat(n)[i], 10).Some?
    ensures RunValue(ShowNat(n), 10) == n
    decreases n
  {
    if n >= 10 {
      ValueOfShowNat(n / 10);
      var s := ShowNat(n);
      assert s[..|s| - 1] == ShowNat(n / 10);
    }
  }

  lemma MagnitudeOfShowNat(m: nat)
    ensures ParseMagnitude(ShowNat(m)) == Some(m)
  {
    var d := ShowNat(m);
    RunOfDecimal(d);
    ValueOfShowNat(m);
    if |d| >= 2 {
      assert IsDigit(d[1]);
    }
  }

  lemma ParseUnsigned(d: string, m: nat)
    requires |d| > 0 && !IsSpace(d[0]) && d[0] != '-' && d[0] != '+'
    requires ParseMagnitude(d) == Some(m)
    ensures ParseInt(d) == Some(m)
  {
    assert TrimStart(d) == d;
  }

  lemma ParseNegative(d: string, m: nat)
    requires ParseMagnitude(d) == Some(m)
    ensures ParseInt("-" + d) == Some(0 - m)
  {
    var t := "-" + d;
    MinusNotSpace();
    assert t[0] == '-';
    assert TrimStart(t) == t;
    assert t[1..] == d;
  }

  lemma MinusNotSpace()
    ensures !IsSpace('-')
  {
  }

  /** `parseInt` reads back the decimal rendering of every integer. */
  lemma ParseShowInt(n: int)
    ensures ParseInt(ShowInt(n)) == Some(n)
  {
    if n < 0 {
      MagnitudeOfShowNat(-n);
      ParseNegative(ShowNat(-n), -n);
    } else {
      MagnitudeOfShowNat(n);
      var d := ShowNat(n);
      assert IsDigit(d[0]);
      ParseUnsigned(d, n);
    }
  }

  /** Distinct integers render differently. */
  lemma ShowIntInjective(a: int, b: int)
    requires ShowInt(a) == ShowInt(b)
    ensures a == b
  {
    ParseShowInt(a);
    ParseShowInt(b);
  }
}
