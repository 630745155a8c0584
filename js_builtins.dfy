/** The few JavaScript built-ins the modelled code relies on, stated over
    Dafny's unbounded integers, exact reals and `seq<char>` strings:
    `String.prototype.toLowerCase` (ASCII letters only), `includes`,
    `split` and `join` on a one-character separator, `padStart`,
    `Number.prototype.toString` on integers, and the `%` operator, which in
    JavaScript truncates toward zero (Dafny's `%` is Euclidean). */
module JsBuiltins {
  import opened Options

  // ---------------------------------------------------------------------
  // toLowerCase (ASCII)
  // ---------------------------------------------------------------------

  predicate IsUpper(c: char) {
    'A' <= c <= 'Z'
  }

  function LowerChar(c: char): (r: char)
    ensures !IsUpper(r)
    ensures IsUpper(c) ==> r as int == c as int + 32
    ensures !IsUpper(c) ==> r == c
  {
    if IsUpper(c) then (c as int + 32) as char else c
  }

  /** `s.toLowerCase()` for text whose only letters that change are ASCII. */
  function Lower(s: string): (r: string)
    ensures |r| == |s|
    ensures forall i :: 0 <= i < |s| ==> r[i] == LowerChar(s[i])
  {
    if s == [] then [] else [LowerChar(s[0])] + Lower(s[1..])
  }

  // ---------------------------------------------------------------------
  // includes
  // ---------------------------------------------------------------------

  predicate StartsWith(s: string, prefix: string) {
    |prefix| <= |s| && s[..|prefix|] == prefix
  }

  /** `s.includes(t)`: `t` occurs in `s` as a contiguous block; the empty
      string occurs everywhere. */
  predicate Includes(s: string, t: string)
    decreases |s|
  {
    StartsWith(s, t) || (|s| > 0 && Includes(s[1..], t))
  }

  /** `t` occurs in `s` starting at position `i`. */
  predicate OccursAt(s: string, t: string, i: int) {
    0 <= i && i + |t| <= |s| && s[i..i + |t|] == t
  }

  /** The recursive search agrees with the positional definition of an
      occurrence. */
  lemma {:induction false} IncludesIffOccurs(s: string, t: string)
    ensures Includes(s, t) <==> exists i :: OccursAt(s, t, i)
    decreases |s|
  {
    if StartsWith(s, t) {
      assert OccursAt(s, t, 0);
    } else if |s| == 0 {
    } else {
      IncludesIffOccurs(s[1..], t);
      if Includes(s, t) {
        var j :| OccursAt(s[1..], t, j);
        assert s[j + 1..j + 1 + |t|] == s[1..][j..j + |t|];
        assert OccursAt(s, t, j + 1);
      }
      if exists i :: OccursAt(s, t, i) {
        var i :| OccursAt(s, t, i);
        if i != 0 {
          assert s[1..][i - 1..i - 1 + |t|] == s[i..i + |t|];
          assert OccursAt(s[1..], t, i - 1);
        }
      }
    }
  }

  // ---------------------------------------------------------------------
  // split / join on a one-character separator
  // ---------------------------------------------------------------------

  /** `s.split(sep)`: the pieces between separators, including empty ones;
      the empty string splits into one empty piece. */
  function Split(s: string, sep: char): (r: seq<string>)
    ensures |r| >= 1
    ensures forall w :: w in r ==> sep !in w
    decreases |s|
  {
    if |s| == 0 then [""]
    else if s[0] == sep then [""] + Split(s[1..], sep)
    else
      var rest := Split(s[1..], sep);
      [[s[0]] + rest[0]] + rest[1..]
  }

  /** `ws.join(sep)`. */
  function Join(ws: seq<string>, sep: char): string
    decreases |ws|
  {
    if |ws| == 0 then ""
    else if |ws| == 1 then ws[0]
    else ws[0] + [sep] + Join(ws[1..], sep)
  }

  /** Splitting loses nothing: joining the pieces gives the text back. */
  lemma {:induction false} JoinSplit(s: string, sep: char)
    ensures Join(Split(s, sep), sep) == s
    decreases |s|
  {
    if |s| == 0 {
    } else if s[0] == sep {
      JoinSplit(s[1..], sep);
      assert [sep] + s[1..] == s;
    } else {
      var rest := Split(s[1..], sep);
      JoinSplit(s[1..], sep);
      if |rest| == 1 {
        assert [s[0]] + s[1..] == s;
      } else {
        assert rest == [rest[0]] + rest[1..];
        assert Join(rest, sep) == rest[0] + [sep] + Join(rest[1..], sep);
        var r := [[s[0]] + rest[0]] + rest[1..];
        assert r[1..] == rest[1..];
        assert Join(r, sep) == [s[0]] + rest[0] + [sep] + Join(rest[1..], sep);
        assert [s[0]] + s[1..] == s;
      }
    }
  }

  /** A word without the separator, followed by more text, stays one piece
      glued to the first piece of what follows. */
  lemma {:induction false} SplitAfterWord(w: string, tail: string, sep: char)
    requires sep !in w
    ensures Split(w + tail, sep) == [w + Split(tail, sep)[0]] + Split(tail, sep)[1..]
    decreases |w|
  {
    if |w| == 0 {
      assert w + tail == tail;
      var t := Split(tail, sep);
      assert w + t[0] == t[0];
      assert t == [t[0]] + t[1..];
    } else {
      assert w[0] != sep && w[0] == (w + tail)[0];
      assert (w + tail)[1..] == w[1..] + tail;
      SplitAfterWord(w[1..], tail, sep);
      assert [w[0]] + (w[1..] + Split(tail, sep)[0]) == w + Split(tail, sep)[0];
    }
  }

  /** Joining pieces that do not contain the separator and splitting again
      gives the pieces back. */
  lemma {:induction false} SplitJoin(ws: seq<string>, sep: char)
    requires |ws| >= 1
    requires forall w :: w in ws ==> sep !in w
    ensures Split(Join(ws, sep), sep) == ws
    decreases |ws|
  {
    if |ws| == 1 {
      SplitAfterWord(ws[0], "", sep);
      assert ws[0] + "" == ws[0];
    } else {
      var tail := Join(ws[1..], sep);
      SplitJoin(ws[1..], sep);
      assert Split([sep] + tail, sep) == [""] + ws[1..];
      assert Join(ws, sep) == ws[0] + ([sep] + tail);
      SplitAfterWord(ws[0], [sep] + tail, sep);
      assert ws[0] + "" == ws[0];
      assert ws == [ws[0]] + ws[1..];
    }
  }

  // ---------------------------------------------------------------------
  // padStart
  // ---------------------------------------------------------------------

  /** `s.padStart(width, fill)` with a one-character fill string. */
  function PadStart(s: string, width: nat, fill: char): string {
    if |s| >= width then s else seq(width - |s|, _ => fill) + s
  }

  /** Padding keeps the text at the end, fills only the front, and stops
      at the requested width. */
  lemma PadStartShape(s: string, width: nat, fill: char)
    ensures var r := PadStart(s, width, fill);
      && |r| == (if |s| >= width then |s| else width)
      && r[|r| - |s|..] == s
      && forall i :: 0 <= i < |r| - |s| ==> r[i] == fill
  {
  }

  // ---------------------------------------------------------------------
  // Number.prototype.toString on integers, and its inverse on digit strings
  // ---------------------------------------------------------------------

  predicate IsDigit(c: char) {
    '0' <= c <= '9'
  }

  predicate AllDigits(s: string) {
    forall i :: 0 <= i < |s| ==> IsDigit(s[i])
  }

  function DigitChar(d: nat): (c: char)
    requires d < 10
    ensures IsDigit(c) && c as int - '0' as int == d
  {
    ('0' as int + d) as char
  }

  /** The value of a string of decimal digits (leading zeros allowed). */
  function DigitsValue(s: string): nat
    requires AllDigits(s)
    decreases |s|
  {
    if s == [] then 0 else DigitsValue(s[..|s| - 1]) * 10 + (s[|s| - 1] as int - '0' as int)
  }

  /** Decimal digits of `n` with no leading zero. */
  function NatToString(n: nat): string
    decreases n
  {
    if n < 10 then [DigitChar(n)] else NatToString(n / 10) + [DigitChar(n % 10)]
  }

  /** `NatToString` writes the digits of `n`, one for a number below ten and
      two for a number below a hundred. */
  lemma {:induction false} NatToStringDigits(n: nat)
    ensures var r := NatToString(n);
      && |r| >= 1 && AllDigits(r)
      && DigitsValue(r) == n
      && (n < 10 <==> |r| == 1)
      && (10 <= n < 100 ==> |r| == 2)
    decreases n
  {
    if n >= 10 {
      NatToStringDigits(n / 10);
      var r := NatToString(n);
      assert r[..|r| - 1] == NatToString(n / 10);
    }
  }

  /** `n.toString()` for an integer `n` (below the range where JavaScript
      switches to exponent notation). */
  function IntToString(n: int): string {
    if n < 0 then "-" + NatToString(-n) else NatToString(n)
  }

  /** A leading zero does not change the value of a digit string. */
  lemma {:induction false} DigitsValueLeadingZero(s: string)
    requires AllDigits(s)
    ensures AllDigits("0" + s) && DigitsValue("0" + s) == DigitsValue(s)
    decreases |s|
  {
    if s != [] {
      var z := "0" + s;
      assert z[..|z| - 1] == "0" + s[..|s| - 1];
      DigitsValueLeadingZero(s[..|s| - 1]);
    }
  }

  // ---------------------------------------------------------------------
  // Number.parseInt with no radix, on decimal text
  // ---------------------------------------------------------------------

  /** ECMAScript white space and line terminators: tab, line feed, vertical
      tab, form feed, carriage return, space, no-break space, the Unicode
      space separators, the line and paragraph separators and the byte order
      mark. */
  predicate IsSpace(c: char) {
    var k := c as int;
    || (0x09 <= k <= 0x0D) || k == 0x20 || k == 0xA0 || k == 0x1680
    || (0x2000 <= k <= 0x200A) || k == 0x2028 || k == 0x2029 || k == 0x202F
    || k == 0x205F || k == 0x3000 || k == 0xFEFF
  }

  /** The text after its leading white space. */
  function TrimStart(s: string): (r: string)
    ensures |r| <= |s| && r == s[|s| - |r|..]
    ensures r != [] ==> !IsSpace(r[0])
    ensures forall i :: 0 <= i < |s| - |r| ==> IsSpace(s[i])
    decreases |s|
  {
    if s != [] && IsSpace(s[0]) then TrimStart(s[1..]) else s
  }

  /** The longest run of decimal digits at the front of `s`. */
  function DigitPrefix(s: string): (r: string)
    ensures AllDigits(r) && StartsWith(s, r)
    ensures |r| < |s| ==> !IsDigit(s[|r|])
    decreases |s|
  {
    if s != [] && IsDigit(s[0]) then
      var rest := DigitPrefix(s[1..]);
      assert ([s[0]] + rest)[1..] == rest;
      [s[0]] + rest
    else []
  }

  /** `Number.parseInt(s)`: leading white space, an optional sign, then the
      value of the longest run of digits; `NaN` (here `None`) when there is
      no digit. */
  function ParseInt(s: string): (r: Option<int>)
    ensures r.None? <==> DigitPrefix(SignFree(TrimStart(s))) == []
  {
    ParseSigned(TrimStart(s))
  }

  /** When there are digits, `parseInt` is their value, negated after a
      minus sign. */
  lemma ParseIntValue(s: string)
    ensures var t := TrimStart(s); var d := DigitPrefix(SignFree(t));
      d != [] ==> ParseInt(s) == Some(if Negative(t) then -(DigitsValue(d) as int) else DigitsValue(d) as int)
  {
  }

  /** `parseInt` once the leading white space is gone. */
  function ParseSigned(t: string): Option<int> {
    var digits := DigitPrefix(SignFree(t));
    if digits == [] then None
    else if Negative(t) then Some(-(DigitsValue(digits) as int))
    else Some(DigitsValue(digits))
  }

  /** The text starts with a minus sign. */
  predicate Negative(t: string) {
    t != [] && t[0] == '-'
  }

  /** The text after one leading sign character, if any. */
  function SignFree(t: string): string {
    if t != [] && (t[0] == '-' || t[0] == '+') then t[1..] else t
  }

  /** A string made only of digits is its own digit prefix. */
  lemma {:induction false} DigitPrefixOfDigits(s: string)
    requires AllDigits(s)
    ensures DigitPrefix(s) == s
    decreases |s|
  {
    if s != [] {
      DigitPrefixOfDigits(s[1..]);
      assert [s[0]] + s[1..] == s;
    }
  }

  /** `parseInt` reads a run of digits, with or without a minus sign in
      front, as its value. */
  lemma ParseIntOfDigits(negative: bool, d: string)
    requires d != [] && AllDigits(d)
    ensures ParseInt(if negative then "-" + d else d)
      == Some(if negative then -(DigitsValue(d) as int) else DigitsValue(d))
  {
    var s := if negative then "-" + d else d;
    TrimStartNoSpace(s);
    ParseSignedDigits(negative, d);
  }

  lemma TrimStartNoSpace(s: string)
    requires s != [] && !IsSpace(s[0])
    ensures TrimStart(s) == s
  {
  }

  lemma ParseSignedDigits(negative: bool, d: string)
    requires d != [] && AllDigits(d)
    ensures ParseSigned(if negative then "-" + d else d)
      == Some(if negative then -(DigitsValue(d) as int) else DigitsValue(d))
  {
    if negative {
      ParseNegativeDigits(d);
    } else {
      ParseUnsignedDigits(d);
    }
  }

  lemma ParseNegativeDigits(d: string)
    requires d != [] && AllDigits(d)
    ensures ParseSigned("-" + d) == Some(-(DigitsValue(d) as int))
  {
    var t := "-" + d;
    assert SignFree(t) == d by {
      assert t[1..] == d;
    }
    assert DigitPrefix(SignFree(t)) == d by {
      DigitPrefixOfDigits(d);
    }
    assert Negative(t);
  }

  lemma ParseUnsignedDigits(d: string)
    requires d != [] && AllDigits(d)
    ensures ParseSigned(d) == Some(DigitsValue(d) as int)
  {
    DigitPrefixOfDigits(d);
    assert SignFree(d) == d;
  }

  /** `parseInt` reads back what `toString` writes. */
  lemma ParseIntToString(n: int)
    ensures ParseInt(IntToString(n)) == Some(n)
  {
    var m := if n < 0 then -n else n;
    NatToStringDigits(m);
    ParseIntOfDigits(n < 0, NatToString(m));
  }

  /** Leading white space in front of text that does not start with white
      space is dropped, and nothing more. */
  lemma {:induction false} TrimSpaces(ws: string, t: string)
    requires forall i :: 0 <= i < |ws| ==> IsSpace(ws[i])
    requires t == [] || !IsSpace(t[0])
    ensures TrimStart(ws + t) == t
    decreases |ws|
  {
    if ws == [] {
      assert ws + t == t;
    } else {
      assert (ws + t)[0] == ws[0];
      assert (ws + t)[1..] == ws[1..] + t;
      TrimSpaces(ws[1..], t);
    }
  }

  /** The digit run stops at the first character that is not a digit. */
  lemma {:induction false} DigitPrefixStops(d: string, tail: string)
    requires AllDigits(d)
    requires tail == [] || !IsDigit(tail[0])
    ensures DigitPrefix(d + tail) == d
    decreases |d|
  {
    if d == [] {
      assert d + tail == tail;
    } else {
      assert (d + tail)[0] == d[0];
      assert (d + tail)[1..] == d[1..] + tail;
      DigitPrefixStops(d[1..], tail);
    }
  }

  /** White space in front of a sign or a digit is all that `parseInt`
      trims. */
  lemma TrimBeforeNumber(ws: string, t: string, d: string)
    requires forall i :: 0 <= i < |ws| ==> IsSpace(ws[i])
    requires d != [] && AllDigits(d)
    requires t != [] && (t[0] == '+' || t[0] == '-' || t[0] == d[0])
    ensures TrimStart(ws + t) == t
  {
    TrimSpaces(ws, t);
  }

  /** After an optional sign, the digit run is read up to the first
      character that is not a digit. */
  lemma SignedDigitRun(sign: string, d: string, tail: string)
    requires sign == "" || sign == "+" || sign == "-"
    requires d != [] && AllDigits(d)
    requires tail == [] || !IsDigit(tail[0])
    ensures var t := sign + d + tail;
      && t != []
      && (t[0] == '+' || t[0] == '-' || t[0] == d[0])
      && (Negative(t) <==> sign == "-")
      && DigitPrefix(SignFree(t)) == d
  {
    var t := sign + d + tail;
    if sign == "" {
      assert t == d + tail;
    } else {
      assert t[1..] == d + tail;
    }
    DigitPrefixStops(d, tail);
  }

  /** `parseInt` of white space, an optional sign, a run of digits and any
      text that does not continue the run (`" +12abc"` gives 12): the signed
      value of the digits. */
  lemma ParseIntReadsLeadingDigits(ws: string, sign: string, d: string, tail: string)
    requires forall i :: 0 <= i < |ws| ==> IsSpace(ws[i])
    requires sign == "" || sign == "+" || sign == "-"
    requires d != [] && AllDigits(d)
    requires tail == [] || !IsDigit(tail[0])
    ensures ParseInt(ws + (sign + d + tail))
      == Some(if sign == "-" then -(DigitsValue(d) as int) else DigitsValue(d) as int)
  {
    var t := sign + d + tail;
    SignedDigitRun(sign, d, tail);
    assert ParseInt(ws + t) == ParseSigned(t) by {
      TrimBeforeNumber(ws, t, d);
    }
    SignedValue(t, d);
  }

  /** Once the white space is gone, the sign decides the value's sign. */
  lemma SignedValue(t: string, d: string)
    requires t != [] && d != [] && DigitPrefix(SignFree(t)) == d
    ensures ParseSigned(t) == Some(if Negative(t) then -(DigitsValue(d) as int) else DigitsValue(d) as int)
  {
  }

  // ---------------------------------------------------------------------
  // The % operator and Math.trunc
  // ---------------------------------------------------------------------

  /** `a % n` on integers, as JavaScript computes it for a positive `n`:
      the remainder is smaller than `n` in magnitude, differs from `a` by a
      multiple of `n`, and is zero or has the sign of `a`. */
  function JsRem(a: int, n: int): (r: int)
    requires n > 0
    ensures -n < r < n
    ensures (a - r) % n == 0
    ensures r == 0 || (r < 0 <==> a < 0)
  {
    if a >= 0 then
      var q := a / n;
      assert a - a % n == n * q;
      MultipleRem(n, q);
      a % n
    else
      var q := (-a) / n;
      assert a + (-a) % n == n * -q;
      MultipleRem(n, -q);
      -((-a) % n)
  }

  /** A multiple of `n` leaves no remainder. */
  lemma MultipleRem(n: int, k: int)
    requires n > 0
    ensures (n * k) % n == 0
  {
    var d := k - (n * k) / n;
    assert (n * k) % n == n * d;
    if d >= 1 {
      assert n * d == n + n * (d - 1);
    } else if d <= -1 {
      assert n * d == -n + n * (d + 1);
    }
  }

  /** The three facts of `JsRem`'s contract leave one candidate: any `r`
      meeting them is `JsRem(a, n)`. */
  lemma JsRemUnique(a: int, n: int, r: int)
    requires n > 0
    requires -n < r < n && (a - r) % n == 0 && (r == 0 || (r < 0 <==> a < 0))
    ensures r == JsRem(a, n)
  {
    var j := JsRem(a, n);
    var p, q := (a - r) / n, (a - j) / n;
    Divisible(a - r, n);
    Divisible(a - j, n);
    assert j - r == n * (p - q);
    // Both lie on the same side of zero, within `n` of it.
    if a < 0 {
      assert -n < j <= 0 && -n < r <= 0;
    } else {
      assert 0 <= j < n && 0 <= r < n;
    }
    SmallMultiple(n, p - q);
  }

  /** A number that leaves no remainder is `n` times its quotient. */
  lemma Divisible(m: int, n: int)
    requires n > 0 && m % n == 0
    ensures m == n * (m / n)
  {
  }

  /** The only multiple of `n` strictly between `-n` and `n` is zero. */
  lemma SmallMultiple(n: int, d: int)
    requires n > 0 && -n < n * d < n
    ensures d == 0
  {
  }

  /** `Math.trunc(x)`: the integer next to `x` on the side of zero. */
  function Trunc(x: real): (r: int)
    ensures x >= 0.0 ==> r as real <= x < r as real + 1.0
    ensures x < 0.0 ==> r as real - 1.0 < x <= r as real
  {
    if x >= 0.0 then x.Floor else -((-x).Floor)
  }

  /** `x % y` on numbers: `x - y * Math.trunc(x / y)`. Like `JsRem`, the
      remainder is smaller than `y` in magnitude, differs from `x` by the
      whole multiple `Trunc(x / y)` of `y`, and is zero or has the sign of
      `x`. */
  function JsFmod(x: real, y: real): (r: real)
    requires y > 0.0
    ensures -y < r < y
    ensures x - r == y * Trunc(x / y) as real
    ensures r == 0.0 || (r < 0.0 <==> x < 0.0)
  {
    var t := Trunc(x / y) as real;
    if x >= 0.0 then
      assert x / y >= 0.0;
      RemainderAbove(x, y, t);
      x - y * t
    else
      assert x / y < 0.0;
      RemainderBelow(x, y, t);
      x - y * t
  }

  /** Taking `y * t` off `x` for `t` just below `x / y` leaves `[0, y)`. */
  lemma RemainderAbove(x: real, y: real, t: real)
    requires y > 0.0 && t <= x / y < t + 1.0
    ensures 0.0 <= x - y * t < y
  {
    var f := x / y - t;
    assert 0.0 <= f < 1.0;
    assert x - y * t == y * f;
  }

  /** Taking `y * t` off `x` for `t` just above `x / y` leaves `(-y, 0]`. */
  lemma RemainderBelow(x: real, y: real, t: real)
    requires y > 0.0 && t - 1.0 < x / y <= t
    ensures -y < x - y * t <= 0.0
  {
    var f := t - x / y;
    assert 0.0 <= f < 1.0;
    assert x - y * t == -(y * f);
  }

  /** On integers the number `%` and the integer `%` agree. */
  lemma JsRemIsJsFmod(a: int, n: int)
    requires n > 0
    ensures JsRem(a, n) as real == JsFmod(a as real, n as real)
  {
    var t := Trunc(a as real / n as real);
    var r := a - n * t;
    assert JsFmod(a as real, n as real) == r as real;
    MultipleRem(n, t);
    assert a - r == n * t;
    JsRemUnique(a, n, r);
  }
}
