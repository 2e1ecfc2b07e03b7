/** String primitives of the JavaScript runtime that the site's formatting
    and filtering rules are built from: `trim`, ASCII case mapping,
    `includes`, `split`/`join` on one separator, global replacement, and the
    decimal rendering of an integer inside a template literal. */
module Text {

  /** The code points ECMAScript's `String.prototype.trim` removes: the
      WhiteSpace and LineTerminator productions of the language. */
  predicate IsSpace(c: char) {
    var n := c as int;
    || n == 0x09 || n == 0x0A || n == 0x0B || n == 0x0C || n == 0x0D
    || n == 0x20 || n == 0xA0 || n == 0x1680 || (0x2000 <= n <= 0x200A)
    || n == 0x2028 || n == 0x2029 || n == 0x202F || n == 0x205F
    || n == 0x3000 || n == 0xFEFF
  }

  /** A string made only of white space (the empty string included). */
  predicate Blank(s: string) {
    forall i :: 0 <= i < |s| ==> IsSpace(s[i])
  }

  /** `trimStart`: drops the leading white space, and nothing else. */
  function TrimStart(s: string): (r: string)
    ensures |r| <= |s| && r == s[|s| - |r|..]
    ensures |r| > 0 ==> !IsSpace(r[0])
    ensures forall i :: 0 <= i < |s| - |r| ==> IsSpace(s[i])
  {
    if |s| > 0 && IsSpace(s[0]) then TrimStart(s[1..]) else s
  }

  /** `trimEnd`: drops the trailing white space, and nothing else. */
  function TrimEnd(s: string): (r: string)
    ensures |r| <= |s| && r == s[..|r|]
    ensures |r| > 0 ==> !IsSpace(r[|r| - 1])
    ensures forall i :: |r| <= i < |s| ==> IsSpace(s[i])
  {
    if |s| > 0 && IsSpace(s[|s| - 1]) then TrimEnd(s[..|s| - 1]) else s
  }

  /** `trim`: the result is a contiguous slice of the input that neither
      starts nor ends with white space, and everything cut off around it is
      white space. */
  function Trim(s: string): (r: string)
    ensures |r| <= |s|
    ensures |r| > 0 ==> !IsSpace(r[0]) && !IsSpace(r[|r| - 1])
    ensures exists i :: 0 <= i <= |s| - |r| && r == s[i..i + |r|]
                        && Blank(s[..i]) && Blank(s[i + |r|..])
  {
    var t := TrimStart(s);
    var r := TrimEnd(t);
    var i := |s| - |t|;
    TrimKeepsFirst(s, t, r, i);
    TrimParts(s, t, r, i);
    r
  }

  /** The slice `Trim` keeps after `TrimStart` gave `t` and `TrimEnd` gave
      `r`, and the white space cut off on either side. */
  lemma TrimParts(s: string, t: string, r: string, i: nat)
    requires i == |s| - |t| && t == s[i..] && |r| <= |t| && r == t[..|r|]
    requires forall k :: 0 <= k < i ==> IsSpace(s[k])
    requires forall k :: |r| <= k < |t| ==> IsSpace(t[k])
    ensures exists j :: 0 <= j <= |s| - |r| && r == s[j..j + |r|]
                        && Blank(s[..j]) && Blank(s[j + |r|..])
  {
    TrimLeading(s, t, i);
    TrimTrailing(s, t, r, i);
    assert r == s[i..i + |r|];
  }

  lemma TrimKeepsFirst(s: string, t: string, r: string, i: nat)
    requires i == |s| - |t| && t == s[i..] && |r| <= |t| && r == t[..|r|]
    requires |t| > 0 ==> !IsSpace(t[0])
    ensures |r| > 0 ==> !IsSpace(r[0])
  {
    if |r| > 0 {
      assert r[0] == t[0];
    }
  }

  lemma TrimLeading(s: string, t: string, i: nat)
    requires i == |s| - |t| && t == s[i..]
    requires forall k :: 0 <= k < i ==> IsSpace(s[k])
    ensures Blank(s[..i])
  {
  }

  lemma TrimTrailing(s: string, t: string, r: string, i: nat)
    requires i == |s| - |t| && t == s[i..] && |r| <= |t|
    requires forall k :: |r| <= k < |t| ==> IsSpace(t[k])
    ensures i + |r| <= |s| && Blank(s[i + |r|..])
  {
    var tail := s[i + |r|..];
    forall k | 0 <= k < |tail| ensures IsSpace(tail[k]) {
      assert tail[k] == t[|r| + k];
    }
  }

  /** A string trims to the empty string exactly when it is blank: this is
      what the `!x.trim()` guards in the pages test. */
  lemma TrimEmptyIffBlank(s: string)
    ensures Trim(s) == "" <==> Blank(s)
  {
    var t := TrimStart(s);
    var i := |s| - |t|;
    assert Trim(s) == TrimEnd(t);
    if |t| > 0 {
      assert t[0] == s[i] && !IsSpace(t[0]);
      assert TrimEnd(t)[0] == t[0];
    }
  }

  /** Trimming a trimmed string changes nothing. */
  lemma TrimIdempotent(s: string)
    ensures Trim(Trim(s)) == Trim(s)
  {
    var r := Trim(s);
    assert TrimStart(r) == r;
    assert TrimEnd(r) == r;
  }

  /** ASCII part of `toLowerCase` for one character. */
  function LowerChar(c: char): char {
    if 'A' <= c <= 'Z' then (c as int + 32) as char else c
  }

  /** ASCII part of `toUpperCase` for one character. */
  function UpperChar(c: char): char {
    if 'a' <= c <= 'z' then (c as int - 32) as char else c
  }

  /** `toLowerCase`, character by character. */
  function Lower(s: string): (r: string)
    ensures |r| == |s|
    ensures forall i :: 0 <= i < |s| ==> r[i] == LowerChar(s[i])
  {
    seq(|s|, i requires 0 <= i < |s| => LowerChar(s[i]))
  }

  /** Lower-casing is idempotent and keeps every non-letter where it is. */
  lemma LowerIdempotent(s: string)
    ensures Lower(Lower(s)) == Lower(s)
  {
  }

  lemma LowerAppend(a: string, b: string)
    ensures Lower(a + b) == Lower(a) + Lower(b)
  {
  }

  /** `haystack.includes(needle)`: some window of the haystack equals the
      needle (the empty needle is found everywhere). */
  predicate Contains(haystack: string, needle: string) {
    exists i | 0 <= i <= |haystack| - |needle| :: OccursAt(haystack, needle, i)
  }

  /** The needle sits in the haystack starting at position `i`. */
  predicate OccursAt(haystack: string, needle: string, i: int) {
    0 <= i <= |haystack| - |needle| && haystack[i..i + |needle|] == needle
  }

  /** The characters matched by `\d` in a regular expression. */
  predicate IsDigit(c: char) {
    '0' <= c <= '9'
  }

  /** `s.replace(/\D/g, "")`: the decimal digits of `s`, in order. */
  function Digits(s: string): (r: string)
    ensures |r| <= |s|
    ensures forall i :: 0 <= i < |r| ==> IsDigit(r[i])
  {
    if |s| == 0 then ""
    else if IsDigit(s[0]) then [s[0]] + Digits(s[1..])
    else Digits(s[1..])
  }

  lemma DigitsAppend(a: string, b: string)
    ensures Digits(a + b) == Digits(a) + Digits(b)
  {
    if |a| == 0 {
      assert a + b == b;
    } else {
      assert (a + b)[1..] == a[1..] + b;
      DigitsAppend(a[1..], b);
    }
  }

  lemma DigitsOfDigits(s: string)
    requires forall i :: 0 <= i < |s| ==> IsDigit(s[i])
    ensures Digits(s) == s
  {
  }

  /** The character of a decimal digit value. */
  function DigitChar(d: nat): (c: char)
    requires d < 10
    ensures IsDigit(c)
  {
    ('0' as int + d) as char
  }

  /** The decimal rendering of a natural number, most significant digit
      first, with no leading zero. */
  function ShowNat(n: nat): (r: string)
    ensures |r| > 0
    ensures forall i :: 0 <= i < |r| ==> IsDigit(r[i])
    ensures r[0] == '0' ==> n == 0
    decreases n
  {
    if n < 10 then [DigitChar(n)] else ShowNat(n / 10) + [DigitChar(n % 10)]
  }

  /** `${n}` for an integer `n`: a minus sign before the magnitude of a
      negative number. */
  function ShowInt(n: int): (r: string)
    ensures |r| > 0
    ensures r[0] == '-' <==> n < 0
  {
    if n < 0 then "-" + ShowNat(-n) else ShowNat(n)
  }

  /** `s.replace(/a/g, b)` for a one-character pattern. */
  function ReplaceChar(s: string, a: char, b: char): (r: string)
    ensures |r| == |s|
    ensures forall i :: 0 <= i < |s| ==> r[i] == (if s[i] == a then b else s[i])
  {
    seq(|s|, i requires 0 <= i < |s| => if s[i] == a then b else s[i])
  }

  /** `s.replace(/pat/g, "")` for a literal pattern: occurrences are found
      left to right and never overlap. */
  function RemoveAll(s: string, pat: string): (r: string)
    requires |pat| > 0
    ensures |r| <= |s|
    decreases |s|
  {
    if |s| == 0 then ""
    else if |pat| <= |s| && s[..|pat|] == pat then RemoveAll(s[|pat|..], pat)
    else [s[0]] + RemoveAll(s[1..], pat)
  }

  /** `s.replace(pat, "")` for a literal string pattern: only the first
      occurrence, if any, is removed. */
  function RemoveFirst(s: string, pat: string): (r: string)
    requires |pat| > 0
    ensures |r| == |s| || |r| == |s| - |pat|
    decreases |s|
  {
    if |s| < |pat| then s
    else if s[..|pat|] == pat then s[|pat|..]
    else [s[0]] + RemoveFirst(s[1..], pat)
  }

  /** The first occurrence is cut out and everything around it is kept. */
  lemma {:induction false} RemoveFirstAt(s: string, pat: string, i: nat)
    requires |pat| > 0 && OccursAt(s, pat, i)
    requires forall k :: 0 <= k < i ==> !OccursAt(s, pat, k)
    ensures RemoveFirst(s, pat) == s[..i] + s[i + |pat|..]
    decreases i
  {
    if i > 0 {
      assert !OccursAt(s, pat, 0);
      var t := s[1..];
      ShiftOccurrences(s, pat, i);
      RemoveFirstAt(t, pat, i - 1);
      assert RemoveFirst(s, pat) == [s[0]] + RemoveFirst(t, pat);
      assert [s[0]] + t[..i - 1] == s[..i];
      assert t[i - 1 + |pat|..] == s[i + |pat|..];
    }
  }

  /** Dropping the first character moves every occurrence one place left. */
  lemma ShiftOccurrences(s: string, pat: string, i: nat)
    requires |pat| > 0 && 0 < i && OccursAt(s, pat, i)
    requires forall k :: 0 <= k < i ==> !OccursAt(s, pat, k)
    ensures OccursAt(s[1..], pat, i - 1)
    ensures forall k :: 0 <= k < i - 1 ==> !OccursAt(s[1..], pat, k)
  {
    var t := s[1..];
    assert t[i - 1..i - 1 + |pat|] == s[i..i + |pat|];
    forall k | 0 <= k < i - 1 ensures !OccursAt(t, pat, k) {
      assert !OccursAt(s, pat, k + 1);
      assert t[k..k + |pat|] == s[k + 1..k + 1 + |pat|];
    }
  }

  /** A string without the pattern comes back unchanged. */
  lemma {:induction false} RemoveFirstAbsent(s: string, pat: string)
    requires |pat| > 0 && !Contains(s, pat)
    ensures RemoveFirst(s, pat) == s
    decreases |s|
  {
    if |s| >= |pat| {
      assert !OccursAt(s, pat, 0);
      var t := s[1..];
      assert !Contains(t, pat) by {
        forall k | 0 <= k <= |t| - |pat| ensures !OccursAt(t, pat, k) {
          assert !OccursAt(s, pat, k + 1);
          assert t[k..k + |pat|] == s[k + 1..k + 1 + |pat|];
        }
      }
      RemoveFirstAbsent(t, pat);
      assert [s[0]] + t == s;
    }
  }

  /** A pattern holding a character the string lacks is never removed. */
  lemma {:induction false} RemoveAllAbsent(s: string, pat: string, c: char)
    requires |pat| > 0 && c in pat && c !in s
    ensures RemoveAll(s, pat) == s
    decreases |s|
  {
    if |s| > 0 {
      if |pat| <= |s| && s[..|pat|] == pat {
        assert false;
      }
      assert c !in s[1..] by {
        forall k | 0 <= k < |s| - 1 ensures s[1..][k] != c { assert s[1..][k] == s[k + 1]; }
      }
      RemoveAllAbsent(s[1..], pat, c);
    }
  }

  /** `s.split(sep)` for a one-character separator: the pieces between
      separators, empty ones included, so there is always at least one. */
  function Split(s: string, sep: char): (r: seq<string>)
    ensures |r| > 0
    ensures forall k :: 0 <= k < |r| ==> sep !in r[k]
  {
    if |s| == 0 then [""]
    else
      var rest := Split(s[1..], sep);
      if s[0] == sep then [""] + rest
      else [[s[0]] + rest[0]] + rest[1..]
  }

  /** `pieces.join([sep])`. */
  function Join(ws: seq<string>, sep: char): string {
    if |ws| == 0 then ""
    else if |ws| == 1 then ws[0]
    else ws[0] + [sep] + Join(ws[1..], sep)
  }

  /** Splitting and joining on the same separator gives the string back. */
  lemma {:induction false} JoinSplit(s: string, sep: char)
    ensures Join(Split(s, sep), sep) == s
  {
    if |s| > 0 {
      var rest := Split(s[1..], sep);
      JoinSplit(s[1..], sep);
      if s[0] == sep {
        assert Split(s, sep) == [""] + rest;
        assert Join(Split(s, sep), sep) == "" + [sep] + Join(rest, sep);
      } else {
        var ws := Split(s, sep);
        assert ws == [[s[0]] + rest[0]] + rest[1..];
        if |rest| == 1 {
          assert Join(ws, sep) == [s[0]] + rest[0];
        } else {
          assert ws[1..] == rest[1..];
          assert Join(ws, sep) == [s[0]] + rest[0] + [sep] + Join(rest[1..], sep);
        }
      }
    }
  }

  lemma {:induction false} SplitPrefix(w: string, t: string, sep: char)
    requires sep !in w
    ensures Split(w + t, sep) == [w + Split(t, sep)[0]] + Split(t, sep)[1..]
    decreases |w|
  {
    if |w| > 0 {
      assert (w + t)[1..] == w[1..] + t;
      assert sep !in w[1..] by {
        forall k | 0 <= k < |w| - 1 ensures w[1..][k] != sep { assert w[1..][k] == w[k + 1]; }
      }
      SplitPrefix(w[1..], t, sep);
      assert (w + t)[0] == w[0];
      assert [w[0]] + (w[1..] + Split(t, sep)[0]) == w + Split(t, sep)[0];
    } else {
      var r := Split(t, sep);
      assert w + t == t;
      assert w + r[0] == r[0];
      assert r == [r[0]] + r[1..];
    }
  }

  /** Joining pieces free of the separator and splitting again recovers the
      pieces: split and join are inverse on separator-free pieces. */
  lemma {:induction false} SplitJoin(ws: seq<string>, sep: char)
    requires |ws| > 0
    requires forall k :: 0 <= k < |ws| ==> sep !in ws[k]
    ensures Split(Join(ws, sep), sep) == ws
  {
    if |ws| == 1 {
      SplitPrefix(ws[0], "", sep);
      assert ws[0] + "" == ws[0];
    } else {
      SplitJoin(ws[1..], sep);
      var tail := Join(ws[1..], sep);
      assert Join(ws, sep) == ws[0] + ([sep] + tail);
      SplitPrefix(ws[0], [sep] + tail, sep);
      assert ([sep] + tail)[1..] == tail;
      assert Split([sep] + tail, sep) == [""] + ws[1..];
      assert ws[0] + "" == ws[0];
    }
  }
}
