/**
 * The string operations the front end and the back end rely on:
 * `Array.prototype.join`, `String.prototype.split`, `parseInt`, the
 * comparison behind `localeCompare` and the ISO timestamp order, and Python's
 * `str.lower`.
 */
module Text {
  import opened Values

  /** `xs.join(sep)`. */
  function Join(sep: string, xs: seq<string>): string
  {
    if |xs| == 0 then ""
    else if |xs| == 1 then xs[0]
    else xs[0] + sep + Join(sep, xs[1..])
  }

  /** `s.split(sep)` for a non-empty separator: the pieces between left-to-right, non-overlapping matches. */
  function Split(s: string, sep: string): seq<string>
    requires sep != []
  {
    SplitFrom(s, sep, "")
  }

  /** Scans `s`; `acc` holds the piece read so far. */
  function SplitFrom(s: string, sep: string, acc: string): (r: seq<string>)
    requires sep != []
    ensures |r| >= 1
    decreases |s|
  {
    if |s| < |sep| then [acc + s]
    else if s[..|sep|] == sep then [acc] + SplitFrom(s[|sep|..], sep, "")
    else SplitFrom(s[1..], sep, acc + [s[0]])
  }

  /** Reading past a piece that holds no comma, up to a comma or the end, only extends the current piece. */
  lemma {:induction false} SplitFromCommaFree(x: string, t: string, acc: string)
    requires ',' !in x
    requires t == [] || t[0] == ','
    ensures SplitFrom(x + t, ", ", acc) == SplitFrom(t, ", ", acc + x)
  {
    if x != [] {
      var s := x + t;
      assert s[0] == x[0];
      if |s| < 2 {
        assert x == [x[0]] && t == [];
        assert acc + s == (acc + [x[0]]) + [];
      } else {
        assert s[..2] != ", ";
        assert s[1..] == x[1..] + t;
        SplitFromCommaFree(x[1..], t, acc + [x[0]]);
        assert acc + [x[0]] + x[1..] == acc + x;
      }
    } else {
      assert x + t == t && acc + x == acc;
    }
  }

  /** Splitting on ", " undoes joining with ", " for every non-empty list of comma-free pieces. */
  lemma {:induction false} SplitJoinRoundTrip(xs: seq<string>)
    requires |xs| >= 1
    requires forall i :: 0 <= i < |xs| ==> ',' !in xs[i]
    ensures Split(Join(", ", xs), ", ") == xs
  {
    assert |", "| == 2;
    if |xs| == 1 {
      SplitFromCommaFree(xs[0], "", "");
      assert xs[0] + "" == xs[0] && "" + xs[0] == xs[0];
      assert SplitFrom("", ", ", xs[0]) == [xs[0] + ""];
    } else {
      var rest := Join(", ", xs[1..]);
      assert Join(", ", xs) == xs[0] + (", " + rest);
      SplitFromCommaFree(xs[0], ", " + rest, "");
      var tail := ", " + rest;
      assert |tail| >= 2 && tail[..2] == ", " && tail[2..] == rest;
      assert "" + xs[0] == xs[0];
      assert SplitFrom(tail, ", ", xs[0]) == [xs[0]] + SplitFrom(rest, ", ", "");
      SplitJoinRoundTrip(xs[1..]);
      assert xs == [xs[0]] + xs[1..];
    }
  }

  /** The empty list does not survive the round trip: it comes back as one empty piece. */
  lemma SplitJoinEmpty()
    ensures Split(Join(", ", []), ", ") == [""]
  {
    assert |", "| == 2;
    assert Join(", ", []) == "";
    assert SplitFrom("", ", ", "") == ["" + ""];
    assert "" + "" == "";
    assert Split("", ", ") == SplitFrom("", ", ", "");
  }

  /** The white space `parseInt` skips (the ECMAScript WhiteSpace and LineTerminator characters). */
  predicate IsJsWhitespace(c: char)
  {
    c == '\t' || c == '\n' || c == '\U{0B}' || c == '\U{0C}' || c == '\r' || c == ' '
    || c == '\U{A0}' || c == '\U{1680}' || ('\U{2000}' <= c <= '\U{200A}') || c == '\U{2028}'
    || c == '\U{2029}' || c == '\U{202F}' || c == '\U{205F}' || c == '\U{3000}' || c == '\U{FEFF}'
  }

  function TrimStart(s: string): (r: string)
    ensures r == [] || !IsJsWhitespace(r[0])
    ensures exists k :: 0 <= k <= |s| && r == s[k..]
  {
    if s != [] && IsJsWhitespace(s[0]) then
      var r := TrimStart(s[1..]);
      var k :| 0 <= k <= |s[1..]| && r == s[1..][k..];
      assert r == s[k + 1..];
      r
    else
      assert s == s[0..];
      s
  }

  function TrimEnd(s: string): string
  {
    if s != [] && IsJsWhitespace(s[|s| - 1]) then TrimEnd(s[..|s| - 1]) else s
  }

  /** `s` is a non-empty run of digits of `radix`. */
  predicate AllDigits(s: string, radix: nat)
  {
    s != [] && forall i :: 0 <= i < |s| ==> DigitValue(s[i]) < radix
  }

  /** The value of a digit in any radix up to 36; 36 for a character that is no digit. */
  function DigitValue(c: char): (d: nat)
    ensures d <= 36
  {
    if '0' <= c <= '9' then (c as int) - ('0' as int)
    else if 'a' <= c <= 'z' then (c as int) - ('a' as int) + 10
    else if 'A' <= c <= 'Z' then (c as int) - ('A' as int) + 10
    else 36
  }

  /** The length of the longest prefix of `s` made of digits of `radix`. */
  function DigitPrefixLength(s: string, radix: nat): (n: nat)
    ensures n <= |s|
  {
    if s == [] || DigitValue(s[0]) >= radix then 0 else 1 + DigitPrefixLength(s[1..], radix)
  }

  /** The prefix is all digits and stops at the first character that is none. */
  lemma {:induction false} DigitPrefixIsLongest(s: string, radix: nat)
    ensures forall i :: 0 <= i < DigitPrefixLength(s, radix) ==> DigitValue(s[i]) < radix
    ensures DigitPrefixLength(s, radix) < |s| ==> DigitValue(s[DigitPrefixLength(s, radix)]) >= radix
  {
    if s != [] && DigitValue(s[0]) < radix {
      DigitPrefixIsLongest(s[1..], radix);
    }
  }

  /** The number the digits `s` denote in `radix`, most significant first. */
  function DigitsValue(s: string, radix: nat): nat
  {
    if s == [] then 0
    else DigitsValue(s[..|s| - 1], radix) * radix + (if DigitValue(s[|s| - 1]) < radix then DigitValue(s[|s| - 1]) else 0)
  }

  /**
   * `parseInt(s)` with no radix: skips leading white space, reads an optional
   * sign, then an unsigned number. `None` stands for NaN.
   */
  function ParseInt(s: string): Option<int>
  {
    var t := TrimStart(s);
    var negative := |t| > 0 && t[0] == '-';
    var u := if |t| > 0 && (t[0] == '-' || t[0] == '+') then t[1..] else t;
    match ParseUnsigned(u)
    case None => None
    case Some(v) => var w: int := v; Some(if negative then -w else w)
  }

  /** Hexadecimal after a `0x`/`0X` prefix, decimal otherwise, up to the first character that is no digit. */
  function ParseUnsigned(u: string): Option<nat>
  {
    if |u| >= 2 && u[0] == '0' && (u[1] == 'x' || u[1] == 'X') then
      var n := DigitPrefixLength(u[2..], 16);
      if n == 0 then None else Some(DigitsValue(u[2..][..n], 16))
    else
      var n := DigitPrefixLength(u, 10);
      if n == 0 then None else Some(DigitsValue(u[..n], 10))
  }

  function DecimalDigit(d: nat): (c: char)
    requires d < 10
    ensures DigitValue(c) == d
  {
    ['0', '1', '2', '3', '4', '5', '6', '7', '8', '9'][d]
  }

  /** `String(n)` for a natural number. */
  function NatToString(n: nat): (s: string)
    ensures |s| >= 1
    ensures forall i :: 0 <= i < |s| ==> DigitValue(s[i]) < 10
  {
    if n < 10 then [DecimalDigit(n)] else NatToString(n / 10) + [DecimalDigit(n % 10)]
  }

  /** `String(i)` for an integer. */
  function IntToString(i: int): string
  {
    if i < 0 then "-" + NatToString(-i) else NatToString(i)
  }

  lemma {:induction false} NatToStringValue(n: nat)
    ensures DigitsValue(NatToString(n), 10) == n
  {
    var s := NatToString(n);
    if n >= 10 {
      NatToStringValue(n / 10);
      assert s[..|s| - 1] == NatToString(n / 10);
    } else {
      assert s[..0] == [];
    }
  }

  /** Only zero is written with a leading '0'. */
  lemma {:induction false} NatToStringLeadingDigit(n: nat)
    requires n >= 1
    ensures NatToString(n)[0] != '0'
  {
    if n >= 10 {
      NatToStringLeadingDigit(n / 10);
    }
  }

  /** A decimal numeral without a leading zero reads back as the number it writes. */
  lemma ParseUnsignedDecimal(m: nat)
    ensures ParseUnsigned(NatToString(m)) == Some(m)
  {
    var u := NatToString(m);
    if m >= 1 {
      NatToStringLeadingDigit(m);
    }
    assert !(|u| >= 2 && u[0] == '0');
    DigitsAllDecimal(u);
    assert u[..|u|] == u;
    NatToStringValue(m);
  }

  /** `parseInt(String(i)) == i`: parsing undoes printing for every integer. */
  lemma ParseIntRoundTrip(i: int)
    ensures ParseInt(IntToString(i)) == Some(i)
  {
    var m: nat := if i < 0 then -i else i;
    var s := IntToString(i);
    assert DigitValue(NatToString(m)[0]) < 10;
    assert !IsJsWhitespace(s[0]);
    assert TrimStart(s) == s;
    if i < 0 {
      assert s[1..] == NatToString(m);
    }
    ParseUnsignedDecimal(m);
  }

  lemma {:induction false} DigitsAllDecimal(s: string)
    requires forall i :: 0 <= i < |s| ==> DigitValue(s[i]) < 10
    ensures DigitPrefixLength(s, 10) == |s|
  {
    if s != [] {
      DigitsAllDecimal(s[1..]);
    }
  }

  /** Lexicographic order on character codes, the order of ISO timestamps and of plain names. */
  predicate StrLe(a: string, b: string)
  {
    a == [] || (b != [] && (a[0] < b[0] || (a[0] == b[0] && StrLe(a[1..], b[1..]))))
  }

  lemma {:induction false} StrLeTotal(a: string, b: string)
    ensures StrLe(a, b) || StrLe(b, a)
  {
    if a != [] && b != [] && a[0] == b[0] {
      StrLeTotal(a[1..], b[1..]);
    }
  }

  lemma {:induction false} StrLeTransitive(a: string, b: string, c: string)
    requires StrLe(a, b) && StrLe(b, c)
    ensures StrLe(a, c)
  {
    if a != [] && b != [] && c != [] && a[0] == b[0] && b[0] == c[0] {
      StrLeTransitive(a[1..], b[1..], c[1..]);
    }
  }

  lemma {:induction false} StrLeAntisymmetric(a: string, b: string)
    requires StrLe(a, b) && StrLe(b, a)
    ensures a == b
  {
    if a != [] && b != [] {
      StrLeAntisymmetric(a[1..], b[1..]);
      assert a == [a[0]] + a[1..] && b == [b[0]] + b[1..];
    }
  }

  function AsciiLowerChar(c: char): (d: char)
  {
    if 'A' <= c <= 'Z' then (c as int + 32) as char else c
  }

  /** `s.lower()` on ASCII letters. */
  function AsciiLower(s: string): (r: string)
    ensures |r| == |s|
    ensures forall i :: 0 <= i < |s| ==> r[i] == AsciiLowerChar(s[i])
  {
    if s == [] then [] else [AsciiLowerChar(s[0])] + AsciiLower(s[1..])
  }
}
