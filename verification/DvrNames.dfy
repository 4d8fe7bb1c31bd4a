/**
 * DVR segment file names (module/dvr/handler.go, module/dvr/session.go): the decimal number is
 * zero-padded to six digits, and only that spelling is read back.
 */
module DvrNames {
  const MAX_INT := 0x7fff_ffff_ffff_ffff

  function Digit(d: nat): char
    requires d < 10
  {
    '0' + (d as char)
  }

  predicate IsDigit(c: char) { '0' <= c <= '9' }

  function DigitValue(c: char): nat
    requires IsDigit(c)
    ensures DigitValue(c) < 10 && Digit(DigitValue(c)) == c
  {
    (c - '0') as nat
  }

  /** Decimal digits, at least `width` of them. */
  function Decimal(n: nat, width: nat): string
    requires width >= 1
    decreases n + width
  {
    if n < 10 && width == 1 then [Digit(n)]
    else Decimal(n / 10, if width > 1 then width - 1 else 1) + [Digit(n % 10)]
  }

  predicate AllDigits(s: string) { forall i :: 0 <= i < |s| ==> IsDigit(s[i]) }

  function Value(s: string): nat
    requires AllDigits(s)
  {
    if s == "" then 0 else 10 * Value(s[..|s| - 1]) + DigitValue(s[|s| - 1])
  }

  /** Long enough, and padded only up to the width. */
  predicate Canonical(s: string, width: nat) {
    AllDigits(s) && |s| >= width && (|s| > width && |s| > 0 ==> s[0] != '0')
  }

  lemma {:induction false} DecimalIsCanonical(n: nat, width: nat)
    requires width >= 1
    ensures Canonical(Decimal(n, width), width)
    decreases n + width
  {
    if !(n < 10 && width == 1) {
      var w := if width > 1 then width - 1 else 1;
      DecimalIsCanonical(n / 10, w);
      var t := Decimal(n / 10, w);
      if w == 1 && n / 10 >= 10 {
        DecimalIsCanonical(n / 10 / 10, 1);
      }
    }
  }

  lemma {:induction false} ValueOfDecimal(n: nat, width: nat)
    requires width >= 1
    ensures AllDigits(Decimal(n, width)) && Value(Decimal(n, width)) == n
    decreases n + width
  {
    DecimalIsCanonical(n, width);
    var s := Decimal(n, width);
    if n < 10 && width == 1 {
      assert s[..0] == "";
    } else {
      var w := if width > 1 then width - 1 else 1;
      ValueOfDecimal(n / 10, w);
      assert s[..|s| - 1] == Decimal(n / 10, w);
    }
  }

  lemma {:induction false} LeadingDigit(s: string)
    requires AllDigits(s) && |s| > 1 && s[0] != '0'
    ensures Value(s) >= 10
  {
    var t := s[..|s| - 1];
    if |s| > 2 {
      LeadingDigit(t);
    } else {
      assert t[..0] == "";
      assert Value(t) == DigitValue(s[0]);
    }
  }

  /** Every canonical spelling is the spelling of its value. */
  lemma {:induction false} DecimalOfValue(s: string, width: nat)
    requires width >= 1 && Canonical(s, width)
    ensures Decimal(Value(s), width) == s
    decreases |s|
  {
    var t, d := s[..|s| - 1], s[|s| - 1];
    if |s| == 1 {
      assert t == "";
      assert s == [d];
    } else {
      var w := if width > 1 then width - 1 else 1;
      if width == 1 { LeadingDigit(s); }
      DecimalOfValue(t, w);
      assert Value(s) / 10 == Value(t) && Value(s) % 10 == DigitValue(d);
      assert s == t + [d];
    }
  }

  // ---------------------------------------------------------------- file names

  const PREFIX := "seg_"
  const SUFFIX := ".ts"

  /** Six digits at least; a minus sign counts as one of them. */
  function Name(n: int): string {
    PREFIX + (if n >= 0 then Decimal(n, 6) else "-" + Decimal(-n, 5)) + SUFFIX
  }

  predicate Wrapped(name: string) { PREFIX <= name && |name| >= 3 && name[|name| - 3..] == SUFFIX }

  /** Prefix and suffix cannot overlap. */
  lemma WrappedIsLong(name: string)
    requires Wrapped(name)
    ensures |name| >= 7
  {
    assert name[|name| - 3] == '.' by { assert name[|name| - 3..][0] == '.'; }
    assert name[|name| - 2] == 't' by { assert name[|name| - 3..][1] == 't'; }
    assert name[0] == 's' && name[1] == 'e' && name[2] == 'g' && name[3] == '_';
  }

  /** The number in a segment file name, or -1. */
  function Parse(name: string): int {
    if !Wrapped(name) then -1
    else
      WrappedIsLong(name);
      var digits := name[4..|name| - 3];
      if |digits| < 6 || (|digits| > 6 && digits[0] == '0') || !AllDigits(digits) then -1
      else if Value(digits) > MAX_INT then -1
      else Value(digits)
  }

  /** Parsing undoes naming, up to the largest number there is; negative numbers are not read back. */
  lemma ParseOfName(n: int)
    ensures Parse(Name(n)) == if 0 <= n <= MAX_INT then n else -1
  {
    var name := Name(n);
    var d := if n >= 0 then Decimal(n, 6) else "-" + Decimal(-n, 5);
    assert name[|name| - 3..] == SUFFIX;
    assert name[..4] == PREFIX;
    assert name[4..|name| - 3] == d;
    if n >= 0 {
      DecimalIsCanonical(n, 6);
      ValueOfDecimal(n, 6);
    } else {
      assert !IsDigit(d[0]);
    }
  }

  /** Whatever parses is the name of its number. */
  lemma NameOfParse(name: string)
    requires Parse(name) >= 0
    ensures Name(Parse(name)) == name && Parse(name) <= MAX_INT
  {
    WrappedIsLong(name);
    var digits := name[4..|name| - 3];
    DecimalOfValue(digits, 6);
    assert name == name[..4] + digits + name[|name| - 3..];
    assert name[..4] == PREFIX;
  }

  lemma NamesAreDistinct(m: int, n: int)
    requires m != n
    ensures Name(m) != Name(n)
  {
    var x := if m >= 0 then Decimal(m, 6) else "-" + Decimal(-m, 5);
    var y := if n >= 0 then Decimal(n, 6) else "-" + Decimal(-n, 5);
    assert Name(m)[4..|Name(m)| - 3] == x && Name(n)[4..|Name(n)| - 3] == y;
    SpellingsAreDistinct(m, n);
  }

  lemma SpellingsAreDistinct(m: int, n: int)
    requires m != n
    ensures (if m >= 0 then Decimal(m, 6) else "-" + Decimal(-m, 5)) != (if n >= 0 then Decimal(n, 6) else "-" + Decimal(-n, 5))
  {
    if m >= 0 {
      ValueOfDecimal(m, 6);
      DecimalIsCanonical(m, 6);
    } else {
      ValueOfDecimal(-m, 5);
      assert ("-" + Decimal(-m, 5))[1..] == Decimal(-m, 5);
    }
    if n >= 0 {
      ValueOfDecimal(n, 6);
      DecimalIsCanonical(n, 6);
    } else {
      ValueOfDecimal(-n, 5);
      assert ("-" + Decimal(-n, 5))[1..] == Decimal(-n, 5);
    }
  }
}
