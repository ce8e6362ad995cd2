/** Shot file names: Python's `f"shot_{n:03d}.jpg"` and `os.path.join`, with a
    parser that undoes the file name. */
module Naming {

  datatype Option<T> = None | Some(value: T)

  predicate IsDigit(c: char) {
    '0' <= c <= '9'
  }

  predicate AllDigits(s: string) {
    forall k :: 0 <= k < |s| ==> IsDigit(s[k])
  }

  function DigitChar(d: nat): (c: char)
    requires d < 10
    ensures IsDigit(c)
  {
    (48 + d) as char
  }

  /** The value of one decimal digit; characters that are not digits count as 0. */
  function DigitValue(c: char): (d: nat)
    ensures d < 10
  {
    if IsDigit(c) then c as int - 48 else 0
  }

  function Pow10(k: nat): nat {
    if k == 0 then 1 else 10 * Pow10(k - 1)
  }

  /** The number a string of decimal digits denotes, most significant digit first. */
  function Value(s: string): nat {
    if s == [] then 0 else 10 * Value(s[..|s| - 1]) + DigitValue(s[|s| - 1])
  }

  /** Python's `str(n)` for a non-negative integer. */
  function Decimal(n: nat): string
    decreases n
  {
    if n < 10 then [DigitChar(n)] else Decimal(n / 10) + [DigitChar(n % 10)]
  }

  /** Prepends `'0'` until the string is at least `width` characters long. */
  function PadLeft(s: string, width: nat): string
    decreases width - |s|
  {
    if |s| >= width then s else PadLeft(['0'] + s, width)
  }

  /** The format spec `03d`: decimal, left-padded with zeros to at least three
      characters, never truncated. */
  function Pad3(n: nat): string {
    PadLeft(Decimal(n), 3)
  }

  const ShotPrefix: string := "shot_"
  const ShotSuffix: string := ".jpg"

  /** `f"shot_{n:03d}.jpg"` (app.py line 40, main.py line 37). */
  function ShotFileName(n: nat): string {
    ShotPrefix + Pad3(n) + ShotSuffix
  }

  /** A left inverse of ShotFileName: the number named by a shot file, if the
      name has that shape. It also accepts names ShotFileName never produces,
      such as `shot_0001.jpg`; only `ParseShotFileName(ShotFileName(n)) ==
      Some(n)` is promised. */
  function ParseShotFileName(name: string): Option<nat> {
    if |name| >= 12 && name[..5] == ShotPrefix && name[|name| - 4..] == ShotSuffix
       && AllDigits(name[5..|name| - 4])
    then Some(Value(name[5..|name| - 4]))
    else None
  }

  /** `os.path.join(dir, name)` with the POSIX separator, for a relative `name`. */
  function JoinPath(dir: string, name: string): string {
    dir + "/" + name
  }

  /** A joined path splits back into the directory and the file name. */
  lemma {:induction false} JoinPathSplits(dir: string, name: string)
    ensures var p := JoinPath(dir, name);
      && |p| == |dir| + 1 + |name|
      && p[..|dir|] == dir && p[|dir|] == '/' && p[|dir| + 1..] == name
  {
  }

  lemma {:induction false} ValueBelowPow10(s: string)
    ensures Value(s) < Pow10(|s|)
    decreases |s|
  {
    if s != [] {
      ValueBelowPow10(s[..|s| - 1]);
    }
  }

  /** Decimal(n) is a non-empty digit string that denotes n, with no leading
      zero unless n is 0 itself. */
  lemma {:induction false} DecimalDenotes(n: nat)
    ensures |Decimal(n)| >= 1 && AllDigits(Decimal(n))
    ensures Value(Decimal(n)) == n
    ensures n >= 1 ==> Decimal(n)[0] != '0'
    decreases n
  {
    if n >= 10 {
      DecimalDenotes(n / 10);
      var s := Decimal(n);
      assert s[..|s| - 1] == Decimal(n / 10);
      assert s[0] == Decimal(n / 10)[0];
    }
  }

  /** From 100 on the number already has three digits, so `03d` adds no zero and
      the padded form is the plain decimal form. */
  lemma {:induction false} Pad3Wide(n: nat)
    requires n >= 100
    ensures Pad3(n) == Decimal(n)
  {
    assert Decimal(n) == Decimal(n / 10) + [DigitChar(n % 10)];
    assert Decimal(n / 10) == Decimal(n / 100) + [DigitChar(n / 10 % 10)];
  }

  /** A leading zero does not change the value of a digit string. */
  lemma {:induction false} ValueLeadingZero(s: string)
    ensures Value(['0'] + s) == Value(s)
    decreases |s|
  {
    if s != [] {
      var t := ['0'] + s;
      assert t[..|t| - 1] == ['0'] + s[..|s| - 1];
      ValueLeadingZero(s[..|s| - 1]);
    }
  }

  /** Padding keeps a digit string's value and digits, and makes it exactly as
      long as the longer of the string and the width. */
  lemma {:induction false} PadLeftKeeps(s: string, width: nat)
    ensures Value(PadLeft(s, width)) == Value(s)
    ensures AllDigits(s) ==> AllDigits(PadLeft(s, width))
    ensures |PadLeft(s, width)| == if |s| >= width then |s| else width
    decreases width - |s|
  {
    if |s| < width {
      ValueLeadingZero(s);
      PadLeftKeeps(['0'] + s, width);
    }
  }

  /** The padded form is a digit string of at least three characters that still
      denotes n: padding loses nothing. */
  lemma {:induction false} Pad3Denotes(n: nat)
    ensures |Pad3(n)| >= 3 && AllDigits(Pad3(n))
    ensures Value(Pad3(n)) == n
  {
    DecimalDenotes(n);
    PadLeftKeeps(Decimal(n), 3);
  }

  /** Distinct numbers give distinct padded strings. */
  lemma {:induction false} Pad3Injective(m: nat, n: nat)
    ensures Pad3(m) == Pad3(n) <==> m == n
  {
    Pad3Denotes(m);
    Pad3Denotes(n);
  }

  /** For 0..999 the padded form is exactly the three decimal digits. */
  lemma {:induction false} Pad3ThreeDigits(n: nat)
    requires n <= 999
    ensures Pad3(n) == [DigitChar(n / 100), DigitChar(n / 10 % 10), DigitChar(n % 10)]
  {
    if n < 10 {
      var d := DigitChar(n);
      assert Decimal(n) == [d];
      assert ['0'] + [d] == ['0', d];
      assert ['0'] + ['0', d] == ['0', '0', d];
      assert PadLeft([d], 3) == PadLeft(['0', d], 3) == PadLeft(['0', '0', d], 3);
      assert n / 100 == 0 && n / 10 % 10 == 0 && n % 10 == n;
    } else if n < 100 {
      var d := [DigitChar(n / 10), DigitChar(n % 10)];
      assert Decimal(n) == d;
      assert ['0'] + d == ['0', DigitChar(n / 10), DigitChar(n % 10)];
      assert PadLeft(d, 3) == PadLeft(['0'] + d, 3);
      assert n / 100 == 0 && n / 10 % 10 == n / 10;
    } else {
      assert Decimal(n / 10) == [DigitChar(n / 100), DigitChar(n / 10 % 10)];
      assert Decimal(n) == [DigitChar(n / 100), DigitChar(n / 10 % 10), DigitChar(n % 10)];
    }
  }

  /** The padded form has exactly three characters if and only if n <= 999; from
      1000 on the number is written out in full. */
  lemma {:induction false} Pad3LengthIff(n: nat)
    ensures |Pad3(n)| == 3 <==> n <= 999
  {
    if n <= 999 {
      Pad3ThreeDigits(n);
    } else {
      Pad3Denotes(n);
      ValueBelowPow10(Pad3(n));
      assert Pow10(3) == 1000;
    }
  }

  /** Parsing a shot file name gives back the number it was made from. */
  lemma {:induction false} ShotFileNameRoundTrip(n: nat)
    ensures ParseShotFileName(ShotFileName(n)) == Some(n)
  {
    var name := ShotFileName(n);
    Pad3Denotes(n);
    assert name[..5] == ShotPrefix;
    assert name[|name| - 4..] == ShotSuffix;
    assert name[5..|name| - 4] == Pad3(n);
  }

  /** Shot 1000 is written out in full: `shot_1000.jpg`, not a truncated or
      further padded name. */
  lemma {:induction false} ShotFileNameOf1000()
    ensures ShotFileName(1000) == "shot_1000.jpg"
  {
    Pad3Wide(1000);
    assert Decimal(1) == "1";
    assert Decimal(10) == "10";
    assert Decimal(100) == "100";
    assert Decimal(1000) == "1000";
  }

  /** Distinct numbers give distinct shot file names. */
  lemma {:induction false} ShotFileNameInjective(m: nat, n: nat)
    ensures ShotFileName(m) == ShotFileName(n) <==> m == n
  {
    ShotFileNameRoundTrip(m);
    ShotFileNameRoundTrip(n);
  }
}
