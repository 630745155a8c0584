/** The player's `formatTime(seconds)`: whole hours, minutes and seconds as
    two-digit fields joined by ':', the hours field present only from one
    hour on, sub-second remainders dropped. `ParseClock` reads such a clock
    back; the two are proved inverse on non-negative inputs. */
module TimeFormat {
  import opened Options
  import opened JsBuiltins

  /** `n.toString().padStart(2, "0")`. */
  function Field(n: int): string {
    PadStart(IntToString(n), 2, '0')
  }

  /** `formatTime(seconds)`; an hours field that is not positive is dropped by
      the `.filter(Boolean)`, and no other field is empty. */
  function FormatTime(seconds: real): string {
    var h := (seconds / 3600.0).Floor;
    var m := (JsFmod(seconds, 3600.0) / 60.0).Floor;
    var s := JsFmod(seconds, 60.0).Floor;
    Join((if h > 0 then [Field(h)] else []) + [Field(m), Field(s)], ':')
  }

  /** The value of a clock `MM:SS` or `HH:MM:SS` (fields of digits), in whole
      seconds. */
  function ParseClock(t: string): Option<int> {
    var fs := Split(t, ':');
    if (|fs| == 2 || |fs| == 3) && forall i :: 0 <= i < |fs| ==> fs[i] != "" && AllDigits(fs[i]) then
      if |fs| == 2 then Some(DigitsValue(fs[0]) * 60 + DigitsValue(fs[1]))
      else Some(DigitsValue(fs[0]) * 3600 + DigitsValue(fs[1]) * 60 + DigitsValue(fs[2]))
    else None
  }

  /** A non-empty run of digits with no separator in it. */
  predicate DigitField(f: string) {
    f != "" && AllDigits(f) && ':' !in f
  }

  /** A field of a non-negative number is a digit string of that value, at
      least two characters long and exactly two below 100. */
  lemma FieldOfNat(k: nat)
    ensures DigitField(Field(k))
    ensures DigitsValue(Field(k)) == k
    ensures k < 100 ==> |Field(k)| == 2
    ensures |Field(k)| >= 2
  {
    var d := NatToString(k);
    NatToStringDigits(k);
    PadStartShape(d, 2, '0');
    if |d| < 2 {
      assert seq(2 - |d|, _ => '0') == "0";
      DigitsValueLeadingZero(d);
    }
  }

  /** The three fields `formatTime` computes from its floating-point
      arithmetic are those of the whole number of seconds `n`: `n / 3600`,
      `(n % 3600) / 60` and `n % 60`. */
  lemma ClockFields(x: real)
    requires x >= 0.0
    ensures var n := x.Floor;
      && (x / 3600.0).Floor == n / 3600
      && (JsFmod(x, 3600.0) / 60.0).Floor == (n % 3600) / 60
      && JsFmod(x, 60.0).Floor == n % 60
  {
    var n := x.Floor;
    var q, r := n / 3600, n % 3600;
    assert (q as real) <= x / 3600.0 < (q as real) + 1.0;
    assert (x / 3600.0).Floor == q;
    var y := JsFmod(x, 3600.0);
    assert y == x - 3600.0 * (q as real);
    assert (r / 60) as real <= y / 60.0 < (r / 60) as real + 1.0;
    var p := n / 60;
    assert (p as real) <= x / 60.0 < (p as real) + 1.0;
    assert (x / 60.0).Floor == p;
    assert JsFmod(x, 60.0) == x - 60.0 * (p as real);
  }

  /** The clock `formatTime` renders for `x >= 0`, in terms of the whole
      number of seconds `n`. */
  function Clock(n: nat): seq<string> {
    Fields(n / 3600, (n % 3600) / 60, n % 60)
  }

  /** The fields joined by `formatTime`: hours only when positive. */
  function Fields(h: nat, m: nat, sec: nat): seq<string> {
    if h > 0 then [Field(h), Field(m), Field(sec)] else [Field(m), Field(sec)]
  }

  lemma FormatTimeIsClock(x: real)
    requires x >= 0.0
    ensures FormatTime(x) == Join(Clock(x.Floor), ':')
  {
    var n := x.Floor;
    ClockFields(x);
    var h, m, sec := n / 3600, (n % 3600) / 60, n % 60;
    FilteredFields(h, m, sec);
    ClockOfFields(n, h, m, sec);
  }

  /** Dropping a non-positive hours field leaves the clock's fields. */
  lemma FilteredFields(h: nat, m: nat, sec: nat)
    ensures (if h > 0 then [Field(h)] else []) + [Field(m), Field(sec)] == Fields(h, m, sec)
  {
  }

  /** `formatTime` drops the fraction of a second: it depends only on the
      whole number of seconds. */
  lemma FormatTimeTruncates(x: real)
    requires x >= 0.0
    ensures FormatTime(x) == FormatTime(x.Floor as real)
  {
    var n := x.Floor;
    assert (n as real).Floor == n;
    calc {
      FormatTime(x);
      { FormatTimeIsClock(x); }
      Join(Clock(n), ':');
      { FormatTimeIsClock(n as real); }
      FormatTime(n as real);
    }
  }

  /** Fields without a separator are recovered by splitting their join. */
  lemma SplitFields(fs: seq<string>)
    requires |fs| == 2 || |fs| == 3
    requires forall i :: 0 <= i < |fs| ==> DigitField(fs[i])
    ensures Split(Join(fs, ':'), ':') == fs
  {
    assert forall w :: w in fs ==> exists i :: 0 <= i < |fs| && fs[i] == w;
    SplitJoin(fs, ':');
  }

  /** Parsing a joined clock reads each field's digits. */
  lemma ParseFields(t: string, fs: seq<string>)
    requires Split(t, ':') == fs
    requires |fs| == 2 || |fs| == 3
    requires forall i :: 0 <= i < |fs| ==> fs[i] != "" && AllDigits(fs[i])
    ensures ParseClock(t) == Some(
      if |fs| == 2 then DigitsValue(fs[0]) * 60 + DigitsValue(fs[1])
      else DigitsValue(fs[0]) * 3600 + DigitsValue(fs[1]) * 60 + DigitsValue(fs[2]))
  {
  }

  /** Whole seconds split into hours, minutes and seconds and back. */
  lemma ClockArithmetic(n: nat)
    ensures (n % 3600) / 60 < 60 && n % 60 < 60
    ensures (n / 3600) * 3600 + ((n % 3600) / 60) * 60 + n % 60 == n
    ensures n / 3600 > 0 <==> n >= 3600
    ensures n < 360000 ==> n / 3600 < 100
  {
    assert n % 3600 == (n % 3600) / 60 * 60 + n % 60;
  }

  /** A clock of two digit fields reads back as minutes and seconds. */
  lemma ParseTwo(b: string, c: string)
    requires DigitField(b) && DigitField(c)
    ensures ParseClock(Join([b, c], ':')) == Some(DigitsValue(b) * 60 + DigitsValue(c))
  {
    var fs := [b, c];
    assert forall i :: 0 <= i < |fs| ==> DigitField(fs[i]) && fs[i] != "" && AllDigits(fs[i]);
    assert Split(Join(fs, ':'), ':') == fs by {
      SplitFields(fs);
    }
    ParseFields(Join(fs, ':'), fs);
  }

  /** A clock of three digit fields reads back as hours, minutes and
      seconds. */
  lemma ParseThree(a: string, b: string, c: string)
    requires DigitField(a) && DigitField(b) && DigitField(c)
    ensures ParseClock(Join([a, b, c], ':'))
      == Some(DigitsValue(a) * 3600 + DigitsValue(b) * 60 + DigitsValue(c))
  {
    var fs := [a, b, c];
    SplitThree(a, b, c);
    assert forall i :: 0 <= i < |fs| ==> fs[i] != "" && AllDigits(fs[i]);
    ParseFields(Join(fs, ':'), fs);
  }

  /** Three digit fields are recovered by splitting their join. */
  lemma SplitThree(a: string, b: string, c: string)
    requires DigitField(a) && DigitField(b) && DigitField(c)
    ensures Split(Join([a, b, c], ':'), ':') == [a, b, c]
  {
    var fs := [a, b, c];
    assert forall i :: 0 <= i < |fs| ==> DigitField(fs[i]);
    SplitFields(fs);
  }

  lemma ParseTwoValues(b: string, c: string, m: nat, sec: nat)
    requires DigitField(b) && DigitsValue(b) == m
    requires DigitField(c) && DigitsValue(c) == sec
    ensures ParseClock(Join([b, c], ':')) == Some(m * 60 + sec)
  {
    ParseTwo(b, c);
  }

  lemma ParseThreeValues(a: string, b: string, c: string, h: nat, m: nat, sec: nat)
    requires DigitField(a) && DigitsValue(a) == h
    requires DigitField(b) && DigitsValue(b) == m
    requires DigitField(c) && DigitsValue(c) == sec
    ensures ParseClock(Join([a, b, c], ':')) == Some(h * 3600 + m * 60 + sec)
  {
    ParseThree(a, b, c);
  }

  lemma JoinTwoLength(b: string, c: string)
    ensures |Join([b, c], ':')| == |b| + 1 + |c|
  {
    assert [b, c][1..] == [c];
  }

  lemma JoinThreeLength(a: string, b: string, c: string)
    ensures |Join([a, b, c], ':')| == |a| + 1 + |b| + 1 + |c|
  {
    assert [a, b, c][1..] == [b, c];
    JoinTwoLength(b, c);
  }

  /** Fields of whole numbers read back as their hours, minutes and
      seconds value. */
  lemma ThreeFields(h: nat, m: nat, sec: nat)
    ensures ParseClock(Join([Field(h), Field(m), Field(sec)], ':')) == Some(h * 3600 + m * 60 + sec)
  {
    FieldOfNat(h);
    FieldOfNat(m);
    FieldOfNat(sec);
    ParseThreeValues(Field(h), Field(m), Field(sec), h, m, sec);
  }

  lemma TwoFields(m: nat, sec: nat)
    ensures ParseClock(Join([Field(m), Field(sec)], ':')) == Some(m * 60 + sec)
  {
    FieldOfNat(m);
    FieldOfNat(sec);
    ParseTwoValues(Field(m), Field(sec), m, sec);
  }

  /** The clock of `n` whole seconds reads back as `n`. */
  lemma ClockRoundTrip(n: nat)
    ensures ParseClock(Join(Clock(n), ':')) == Some(n)
  {
    var h, m, sec := n / 3600, (n % 3600) / 60, n % 60;
    ClockArithmetic(n);
    ClockOfFields(n, h, m, sec);
    FieldsRoundTrip(h, m, sec);
  }

  /** The clock, once the division of `n` is done. */
  lemma ClockOfFields(n: nat, h: nat, m: nat, sec: nat)
    requires h == n / 3600 && m == (n % 3600) / 60 && sec == n % 60
    ensures Clock(n) == Fields(h, m, sec)
  {
  }

  lemma FieldsRoundTrip(h: nat, m: nat, sec: nat)
    ensures ParseClock(Join(Fields(h, m, sec), ':')) == Some(h * 3600 + m * 60 + sec)
  {
    if h > 0 {
      ThreeFields(h, m, sec);
    } else {
      TwoFields(m, sec);
    }
  }

  /** The fields of the clock of `n`: three from one hour on, otherwise two;
      every field is digits without a separator; minutes and seconds are two
      characters below 60; below 100 hours the clock is 8 or 5 characters. */
  lemma ClockShape(n: nat)
    ensures var fs := Clock(n);
      && |fs| == (if n >= 3600 then 3 else 2)
      && (forall i :: 0 <= i < |fs| ==> DigitField(fs[i]))
      && |fs[|fs| - 2]| == 2 && DigitsValue(fs[|fs| - 2]) < 60
      && |fs[|fs| - 1]| == 2 && DigitsValue(fs[|fs| - 1]) < 60
    ensures n < 360000 ==> |Join(Clock(n), ':')| == (if n >= 3600 then 8 else 5)
  {
    ClockArithmetic(n);
    FieldsShape(n / 3600, (n % 3600) / 60, n % 60);
  }

  lemma FieldsShape(h: nat, m: nat, sec: nat)
    requires m < 60 && sec < 60
    ensures var fs := Fields(h, m, sec);
      && |fs| == (if h > 0 then 3 else 2)
      && (forall i :: 0 <= i < |fs| ==> DigitField(fs[i]))
      && |fs[|fs| - 2]| == 2 && DigitsValue(fs[|fs| - 2]) < 60
      && |fs[|fs| - 1]| == 2 && DigitsValue(fs[|fs| - 1]) < 60
    ensures h < 100 ==> |Join(Fields(h, m, sec), ':')| == (if h > 0 then 8 else 5)
  {
    FieldsAreDigits(h, m, sec);
    MinutesAndSecondsFields(h, m, sec);
    if h < 100 {
      FieldsJoinLength(h, m, sec);
    }
  }

  lemma FieldsAreDigits(h: nat, m: nat, sec: nat)
    ensures var fs := Fields(h, m, sec);
      |fs| == (if h > 0 then 3 else 2) && forall i :: 0 <= i < |fs| ==> DigitField(fs[i])
  {
    FieldOfNat(m);
    FieldOfNat(sec);
    if h > 0 {
      FieldOfNat(h);
      assert Fields(h, m, sec) == [Field(h), Field(m), Field(sec)];
    } else {
      assert Fields(h, m, sec) == [Field(m), Field(sec)];
    }
  }

  lemma MinutesAndSecondsFields(h: nat, m: nat, sec: nat)
    requires m < 60 && sec < 60
    ensures var fs := Fields(h, m, sec);
      && |fs| >= 2
      && fs[|fs| - 2] == Field(m) && |Field(m)| == 2 && DigitField(Field(m)) && DigitsValue(Field(m)) == m
      && fs[|fs| - 1] == Field(sec) && |Field(sec)| == 2 && DigitField(Field(sec)) && DigitsValue(Field(sec)) == sec
  {
    FieldOfNat(m);
    FieldOfNat(sec);
  }

  lemma FieldsJoinLength(h: nat, m: nat, sec: nat)
    requires h < 100 && m < 60 && sec < 60
    ensures |Join(Fields(h, m, sec), ':')| == (if h > 0 then 8 else 5)
  {
    FieldOfNat(h);
    FieldOfNat(m);
    FieldOfNat(sec);
    if h > 0 {
      JoinThreeLength(Field(h), Field(m), Field(sec));
    } else {
      JoinTwoLength(Field(m), Field(sec));
    }
  }

  /** Shape of the output of `formatTime` on a non-negative number: the
      same as the clock of its whole seconds. */
  lemma FormatTimeShape(x: real)
    requires x >= 0.0
    ensures var fs := Split(FormatTime(x), ':');
      && |fs| == (if x >= 3600.0 then 3 else 2)
      && (forall i :: 0 <= i < |fs| ==> fs[i] != "" && AllDigits(fs[i]))
      && |fs[|fs| - 2]| == 2 && DigitsValue(fs[|fs| - 2]) < 60
      && |fs[|fs| - 1]| == 2 && DigitsValue(fs[|fs| - 1]) < 60
    ensures x < 360000.0 ==> |FormatTime(x)| == (if x >= 3600.0 then 8 else 5)
  {
    var n := x.Floor;
    FormatTimeIsClock(x);
    ClockShape(n);
    SplitFields(Clock(n));
    assert n >= 3600 <==> x >= 3600.0;
  }

  /** Reading the clock back gives the whole number of seconds: nothing but
      the fraction of a second is lost. */
  lemma FormatTimeRoundTrip(x: real)
    requires x >= 0.0
    ensures ParseClock(FormatTime(x)) == Some(x.Floor)
  {
    FormatTimeIsClock(x);
    ClockRoundTrip(x.Floor);
  }
}
