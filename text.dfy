/** Language-neutral text helpers: ASCII decimal digits, the decimal value of
    a digit string and its inverse, splitting on a separator, and stripping
    characters of a given class from both ends. */
module Text {

  predicate IsDigit(c: char) { '0' <= c <= '9' }

  predicate IsDigits(s: string) { forall i :: 0 <= i < |s| ==> IsDigit(s[i]) }

  function DigitValue(c: char): (d: nat)
    requires IsDigit(c)
    ensures d < 10
  {
    c as int - '0' as int
  }

  function DigitChar(d: nat): (c: char)
    requires d < 10
    ensures IsDigit(c) && DigitValue(c) == d
  {
    (d + '0' as int) as char
  }

  function Pow10(k: nat): (p: nat)
    ensures p >= 1
  {
    if k == 0 then 1 else 10 * Pow10(k - 1)
  }

  /** The number a digit string denotes, most significant digit first. */
  function Value(s: string): nat
    requires IsDigits(s)
    decreases |s|
  {
    if |s| == 0 then 0 else Value(s[..|s| - 1]) * 10 + DigitValue(s[|s| - 1])
  }

  /** `n` copies of the character '0'. */
  function Zeros(n: nat): (z: string)
    ensures |z| == n && IsDigits(z)
    ensures forall i :: 0 <= i < n ==> z[i] == '0'
  {
    seq(n, _ => '0')
  }

  lemma ZerosSnoc(n: nat)
    requires n > 0
    ensures Zeros(n) == Zeros(n - 1) + ['0']
  {
  }

  lemma ValueSnoc(s: string, c: char)
    requires IsDigits(s) && IsDigit(c)
    ensures IsDigits(s + [c]) && Value(s + [c]) == Value(s) * 10 + DigitValue(c)
  {
    assert (s + [c])[..|s|] == s;
  }

  /** The values of short digit strings, spelled out for use on literals. */
  lemma ValueOfOne(a: char)
    requires IsDigit(a)
    ensures Value([a]) == DigitValue(a)
  {
    assert [a][..0] == [];
  }

  lemma ValueOfTwo(a: char, b: char)
    requires IsDigit(a) && IsDigit(b)
    ensures Value([a, b]) == DigitValue(a) * 10 + DigitValue(b)
  {
    assert [a, b][..1] == [a];
    ValueOfOne(a);
  }

  lemma ValueOfThree(a: char, b: char, c: char)
    requires IsDigit(a) && IsDigit(b) && IsDigit(c)
    ensures Value([a, b, c]) == DigitValue(a) * 100 + DigitValue(b) * 10 + DigitValue(c)
  {
    assert [a, b, c][..2] == [a, b];
    ValueOfTwo(a, b);
  }

  /** Leading zeros do not change the value of a digit string. */
  lemma {:induction false} ValueLeadingZeros(n: nat, s: string)
    requires IsDigits(s)
    ensures IsDigits(Zeros(n) + s) && Value(Zeros(n) + s) == Value(s)
    decreases |s|
  {
    if |s| > 0 {
      var init, last := s[..|s| - 1], s[|s| - 1];
      assert s == init + [last];
      ValueLeadingZeros(n, init);
      assert Zeros(n) + s == (Zeros(n) + init) + [last];
      ValueSnoc(Zeros(n) + init, last);
      ValueSnoc(init, last);
    } else {
      assert Zeros(n) + s == Zeros(n);
      ValueOfZeros(n);
    }
  }

  lemma {:induction false} ValueOfZeros(n: nat)
    ensures Value(Zeros(n)) == 0
  {
    if n > 0 {
      assert Zeros(n)[..n - 1] == Zeros(n - 1);
      ValueOfZeros(n - 1);
    }
  }

  /** Trailing zeros scale the value by a power of ten. */
  lemma {:induction false} ValueTrailingZeros(s: string, n: nat)
    requires IsDigits(s)
    ensures IsDigits(s + Zeros(n)) && Value(s + Zeros(n)) == Value(s) * Pow10(n)
  {
    if n > 0 {
      var shorter := s + Zeros(n - 1);
      ZerosSnoc(n);
      assert s + Zeros(n) == s + (Zeros(n - 1) + ['0']);
      assert s + (Zeros(n - 1) + ['0']) == shorter + ['0'];
      ValueTrailingZeros(s, n - 1);
      ValueSnoc(shorter, '0');
      var v, p := Value(s), Pow10(n - 1);
      assert Value(shorter) == v * p;
      assert Value(s + Zeros(n)) == Value(shorter) * 10;
      ScaleByTen(v, p);
    } else {
      assert s + Zeros(n) == s;
    }
  }

  lemma ScaleByTen(v: nat, p: nat)
    ensures (v * p) * 10 == v * (10 * p)
  {
  }

  /** A digit string of length k denotes a number below 10^k. */
  lemma {:induction false} ValueBound(s: string)
    requires IsDigits(s)
    ensures Value(s) < Pow10(|s|)
    decreases |s|
  {
    if |s| > 0 {
      ValueBound(s[..|s| - 1]);
    }
  }

  /** The shortest decimal rendering of a natural number (Python `str`,
      JavaScript template interpolation): no leading zero except for 0. */
  function NatToStr(n: nat): (s: string)
    ensures |s| > 0 && IsDigits(s) && Value(s) == n
    ensures (s[0] == '0') == (n == 0)
    decreases n
  {
    if n < 10 then [DigitChar(n)]
    else
      var front := NatToStr(n / 10);
      ValueSnoc(front, DigitChar(n % 10));
      front + [DigitChar(n % 10)]
  }

  /** A number below 10^k takes at most k digits. */
  lemma {:induction false} NatToStrLength(n: nat, k: nat)
    requires 1 <= k && n < Pow10(k)
    ensures |NatToStr(n)| <= k
    decreases k
  {
    if n >= 10 {
      NatToStrLength(n / 10, k - 1);
    }
  }

  /** The number of occurrences of `c` in `s`. */
  function Count(s: string, c: char): nat
  {
    if |s| == 0 then 0 else (if s[0] == c then 1 else 0) + Count(s[1..], c)
  }

  lemma {:induction false} CountAbsent(s: string, c: char)
    requires c !in s
    ensures Count(s, c) == 0
  {
    if |s| > 0 {
      assert c !in s[1..];
      CountAbsent(s[1..], c);
    }
  }

  /** The inverse of `Split`: the parts glued together with `sep`. */
  function Join(parts: seq<string>, sep: char): string
    requires |parts| > 0
  {
    if |parts| == 1 then parts[0] else parts[0] + [sep] + Join(parts[1..], sep)
  }

  /** The pieces of `s` between occurrences of `sep`, empty pieces included,
      as Python's `str.split(sep)` returns them for a one-character `sep`. */
  function Split(s: string, sep: char): (parts: seq<string>)
    ensures |parts| == Count(s, sep) + 1
    decreases |s|
  {
    if |s| == 0 then [[]]
    else
      var rest := Split(s[1..], sep);
      if s[0] == sep then [[]] + rest
      else [[s[0]] + rest[0]] + rest[1..]
  }

  /** No piece holds the separator, and joining the pieces with it gives the
      text back. */
  lemma {:induction false} SplitJoin(s: string, sep: char)
    ensures forall i :: 0 <= i < |Split(s, sep)| ==> sep !in Split(s, sep)[i]
    ensures Join(Split(s, sep), sep) == s
    decreases |s|
  {
    if |s| > 0 {
      var rest := Split(s[1..], sep);
      SplitJoin(s[1..], sep);
      if s[0] == sep {
        assert ([[]] + rest)[1..] == rest;
      } else {
        var parts := [[s[0]] + rest[0]] + rest[1..];
        assert parts[1..] == rest[1..];
        assert s == [s[0]] + s[1..];
      }
    }
  }

  /** Without the separator there is one piece, the whole string. */
  lemma SplitAbsent(s: string, sep: char)
    requires sep !in s
    ensures Split(s, sep) == [s]
  {
    CountAbsent(s, sep);
    SplitJoin(s, sep);
  }

  /** With exactly one separator there are two pieces, either side of it. */
  lemma {:induction false} SplitOnce(a: string, sep: char, b: string)
    requires sep !in a && sep !in b
    ensures Split(a + [sep] + b, sep) == [a, b]
    decreases |a|
  {
    var s := a + [sep] + b;
    if |a| == 0 {
      assert s[1..] == b;
      SplitAbsent(b, sep);
    } else {
      assert s[1..] == a[1..] + [sep] + b;
      assert sep !in a[1..];
      SplitOnce(a[1..], sep, b);
      assert [a[0]] + a[1..] == a;
    }
  }

  /** `s` with every leading character of the class removed. */
  function StripLeft(s: string, isSpace: char -> bool): string
    decreases |s|
  {
    if |s| > 0 && isSpace(s[0]) then StripLeft(s[1..], isSpace) else s
  }

  /** What `StripLeft` removes is a run of class characters, and what it
      keeps is a suffix that does not start with one. */
  lemma {:induction false} StripLeftShape(s: string, isSpace: char -> bool)
    ensures var r := StripLeft(s, isSpace);
      |r| <= |s| && r == s[|s| - |r|..] && (|r| > 0 ==> !isSpace(r[0])) &&
      forall i :: 0 <= i < |s| - |r| ==> isSpace(s[i])
    decreases |s|
  {
    if |s| > 0 && isSpace(s[0]) {
      StripLeftShape(s[1..], isSpace);
    }
  }

  /** `s` with every trailing character of the class removed. */
  function StripRight(s: string, isSpace: char -> bool): string
    decreases |s|
  {
    if |s| > 0 && isSpace(s[|s| - 1]) then StripRight(s[..|s| - 1], isSpace) else s
  }

  /** What `StripRight` removes is a run of class characters, and what it
      keeps is a prefix that does not end with one. */
  lemma {:induction false} StripRightShape(s: string, isSpace: char -> bool)
    ensures var r := StripRight(s, isSpace);
      |r| <= |s| && r == s[..|r|] && (|r| > 0 ==> !isSpace(r[|r| - 1])) &&
      forall i :: |r| <= i < |s| ==> isSpace(s[i])
    decreases |s|
  {
    if |s| > 0 && isSpace(s[|s| - 1]) {
      StripRightShape(s[..|s| - 1], isSpace);
    }
  }

  /** Both ends stripped. */
  function Strip(s: string, isSpace: char -> bool): string
  {
    StripRight(StripLeft(s, isSpace), isSpace)
  }

  /** Stripping leaves a string alone exactly when neither end is in the class. */
  lemma StripUnchanged(s: string, isSpace: char -> bool)
    ensures Strip(s, isSpace) == s <==> (|s| == 0 || (!isSpace(s[0]) && !isSpace(s[|s| - 1])))
  {
    var l := StripLeft(s, isSpace);
    StripLeftShape(s, isSpace);
    StripRightShape(l, isSpace);
    if |s| > 0 && !isSpace(s[0]) && !isSpace(s[|s| - 1]) {
      assert l == s;
    }
    if Strip(s, isSpace) == s && |s| > 0 {
      assert |l| == |s|;
    }
  }

  /** Stripping yields nothing exactly when every character is in the class. */
  lemma StripEmpty(s: string, isSpace: char -> bool)
    ensures Strip(s, isSpace) == [] <==> forall i :: 0 <= i < |s| ==> isSpace(s[i])
  {
    var l := StripLeft(s, isSpace);
    StripLeftShape(s, isSpace);
    StripRightShape(l, isSpace);
    assert |l| > 0 ==> !isSpace(s[|s| - |l|]);
  }
}
