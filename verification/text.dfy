/**
 * String primitives the application relies on: zero-padded decimal rendering
 * (the date formatter's `addLeadingZeros`), decimal parsing of numeric input
 * fields, lexicographic string order, ASCII lower-casing and substring search
 * (`String.prototype.includes`).
 */
module Text {
  import opened Wrappers

  predicate IsDigit(c: char) {
    '0' <= c <= '9'
  }

  predicate AllDigits(s: string) {
    forall i :: 0 <= i < |s| ==> IsDigit(s[i])
  }

  /** The value of a decimal digit character; other characters count as 0. */
  function DigitValue(c: char): (d: nat)
    ensures d < 10
  {
    if IsDigit(c) then (c as int - '0' as int) as nat else 0
  }

  function DigitChar(d: nat): (c: char)
    requires d < 10
    ensures IsDigit(c) && DigitValue(c) == d
  {
    ('0' as int + d) as char
  }

  function Pow10(w: nat): (r: nat)
    ensures r >= 1
  {
    if w == 0 then 1 else 10 * Pow10(w - 1)
  }

  /** Decimal rendering of `n`, left-padded with '0' to at least `width` characters. */
  function Digits(n: nat, width: nat): string
    decreases n + width
  {
    if n == 0 && width == 0 then []
    else Digits(n / 10, if width == 0 then 0 else width - 1) + [DigitChar(n % 10)]
  }

  /** A rendering is made of digits, at least `width` of them, exactly `width` when `n` fits. */
  lemma {:induction false} DigitsShape(n: nat, width: nat)
    ensures AllDigits(Digits(n, width))
    ensures |Digits(n, width)| >= width
    ensures n > 0 || width > 0 ==> |Digits(n, width)| >= 1
    ensures n < Pow10(width) ==> |Digits(n, width)| == width
    decreases n + width
  {
    if n != 0 || width != 0 {
      var w' := if width == 0 then 0 else width - 1;
      DigitsShape(n / 10, w');
      if width > 0 && n < Pow10(width) {
        DivModBounds(n, w');
      }
    }
  }

  /** The number a string of decimal digits denotes (leading zeros allowed). */
  function DigitsValue(s: string): nat
  {
    if s == [] then 0 else 10 * DigitsValue(s[..|s| - 1]) + DigitValue(s[|s| - 1])
  }

  /** Reading back a rendering gives the number rendered. */
  lemma {:induction false} DigitsRoundTrip(n: nat, width: nat)
    ensures DigitsValue(Digits(n, width)) == n
    decreases n + width
  {
    if n != 0 || width != 0 {
      var w' := if width == 0 then 0 else width - 1;
      DigitsRoundTrip(n / 10, w');
      var s := Digits(n, width);
      assert s[..|s| - 1] == Digits(n / 10, w');
    }
  }

  /** Different numbers never share a rendering of the same minimum width. */
  lemma DigitsInjective(a: nat, b: nat, width: nat)
    requires Digits(a, width) == Digits(b, width)
    ensures a == b
  {
    DigitsRoundTrip(a, width);
    DigitsRoundTrip(b, width);
  }

  /** Strict lexicographic order on strings, character by character, as JavaScript's `<` on strings. */
  predicate LexLess(a: string, b: string) {
    if a == [] then b != []
    else if b == [] then false
    else a[0] < b[0] || (a[0] == b[0] && LexLess(a[1..], b[1..]))
  }

  /** Comparing two concatenations whose heads have equal length compares the heads first. */
  lemma {:induction false} LexLessAppend(x: string, u: string, y: string, v: string)
    requires |x| == |y|
    ensures LexLess(x + u, y + v) <==> LexLess(x, y) || (x == y && LexLess(u, v))
    decreases |x|
  {
    if x == [] {
      assert x + u == u && y + v == v;
    } else {
      assert (x + u)[0] == x[0] && (x + u)[1..] == x[1..] + u;
      assert (y + v)[0] == y[0] && (y + v)[1..] == y[1..] + v;
      LexLessAppend(x[1..], u, y[1..], v);
      assert x == y <==> x[0] == y[0] && x[1..] == y[1..] by {
        if x[0] == y[0] && x[1..] == y[1..] {
          assert x == [x[0]] + x[1..] && y == [y[0]] + y[1..];
        }
      }
    }
  }

  /** Splitting a number below 10^(w+1) into its leading part and last digit. */
  lemma DivModBounds(a: nat, width: nat)
    requires a < Pow10(width + 1)
    ensures a / 10 < Pow10(width)
  {
    assert 10 * (a / 10) <= a < 10 * Pow10(width);
  }

  /** For fixed-width renderings, string order is numeric order. */
  lemma {:induction false} DigitsOrder(a: nat, b: nat, width: nat)
    requires a < Pow10(width) && b < Pow10(width)
    ensures LexLess(Digits(a, width), Digits(b, width)) <==> a < b
    decreases width
  {
    if width == 0 {
      assert a == 0 && b == 0;
    } else {
      DivModBounds(a, width - 1);
      DivModBounds(b, width - 1);
      DigitsOrder(a / 10, b / 10, width - 1);
      DigitsShape(a / 10, width - 1);
      DigitsShape(b / 10, width - 1);
      var x, y := Digits(a / 10, width - 1), Digits(b / 10, width - 1);
      var u, v := [DigitChar(a % 10)], [DigitChar(b % 10)];
      assert Digits(a, width) == x + u && Digits(b, width) == y + v;
      LexLessAppend(x, u, y, v);
      assert x == y <==> a / 10 == b / 10 by {
        if x == y { DigitsInjective(a / 10, b / 10, width - 1); }
      }
      assert LexLess(u, v) <==> a % 10 < b % 10 by {
        assert u[1..] == [] && v[1..] == [];
      }
    }
  }

  /** A decimal integer with an optional leading minus sign; `None` is the source's NaN. */
  function ParseDecimal(s: string): (r: Option<int>)
    ensures r.Some? ==> |s| >= 1
  {
    if |s| > 1 && s[0] == '-' && AllDigits(s[1..]) then Some(0 - DigitsValue(s[1..]))
    else if |s| > 0 && AllDigits(s) then Some(DigitsValue(s))
    else None
  }

  /** The canonical decimal rendering of an integer (`Number.prototype.toString`). */
  function IntToString(n: int): (s: string)
    ensures |s| >= 1
  {
    DigitsShape(if n < 0 then -n else n, 1);
    if n < 0 then "-" + Digits(-n, 1) else Digits(n, 1)
  }

  /** Rendering then parsing an integer gives it back. */
  lemma ParseIntToString(n: int)
    ensures ParseDecimal(IntToString(n)) == Some(n)
  {
    if n < 0 {
      var d := Digits(-n, 1);
      DigitsShape(-n, 1);
      assert ("-" + d)[1..] == d;
      DigitsRoundTrip(-n, 1);
    } else {
      DigitsShape(n, 1);
      DigitsRoundTrip(n, 1);
      assert IntToString(n)[0] != '-';
    }
  }

  function LowerChar(c: char): char {
    if 'A' <= c <= 'Z' then (c as int + 32) as char else c
  }

  /** `String.prototype.toLowerCase`, restricted to the ASCII letters. */
  function ToLower(s: string): (r: string)
    ensures |r| == |s|
    ensures forall i :: 0 <= i < |r| ==> !('A' <= r[i] <= 'Z')
  {
    seq(|s|, i requires 0 <= i < |s| => LowerChar(s[i]))
  }

  predicate StartsWith(s: string, t: string) {
    |t| <= |s| && s[..|t|] == t
  }

  /** `t` occurs in `s` starting at index `i`. */
  predicate OccursAt(s: string, t: string, i: int) {
    0 <= i && i + |t| <= |s| && s[i..i + |t|] == t
  }

  /** `String.prototype.includes`: scans `s` left to right for an occurrence of `t`. */
  predicate Includes(s: string, t: string)
    decreases |s|
  {
    StartsWith(s, t) || (s != [] && Includes(s[1..], t))
  }

  /** The scan finds `t` exactly when `t` occurs somewhere in `s`. */
  lemma {:induction false} IncludesSpec(s: string, t: string)
    ensures Includes(s, t) <==> exists i :: OccursAt(s, t, i)
    decreases |s|
  {
    if StartsWith(s, t) {
      assert OccursAt(s, t, 0);
    } else if s == [] {
      assert |t| > 0;
    } else {
      IncludesSpec(s[1..], t);
      if exists i :: OccursAt(s[1..], t, i) {
        var i :| OccursAt(s[1..], t, i);
        assert s[1..][i..i + |t|] == s[i + 1..i + 1 + |t|];
        assert OccursAt(s, t, i + 1);
      }
      if exists i :: OccursAt(s, t, i) {
        var i :| OccursAt(s, t, i);
        if i != 0 {
          assert s[1..][i - 1..i - 1 + |t|] == s[i..i + |t|];
          assert OccursAt(s[1..], t, i - 1);
        }
      }
    }
  }

  /** Every string includes the empty string, so an empty search term matches everything. */
  lemma IncludesEmpty(s: string)
    ensures Includes(s, "")
  {
    assert StartsWith(s, "");
  }
}
