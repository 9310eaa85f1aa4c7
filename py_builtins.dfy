/** The Python built-ins the backend's time handling relies on: `int(str)`
    in base 10, `str(int)`, `str.zfill`, `str.ljust` and the slice `[:n]`. */
module PyBuiltins {
  import opened Results
  import opened Text

  /** The white space `int()` ignores around its digits: below U+007F only
      the C `isspace` set (tab, line feed, vertical tab, form feed, carriage
      return and space), so the separators U+001C..U+001F are not white space
      here although `str.isspace()` says they are; from U+007F on, the
      characters Python treats as Unicode white space. */
  predicate IsSpace(c: char)
  {
    var k := c as int;
    k == 0x20 || 0x09 <= k <= 0x0D || k == 0x85 || k == 0xA0
    || k == 0x1680 || 0x2000 <= k <= 0x200A || k == 0x2028 || k == 0x2029
    || k == 0x202F || k == 0x205F || k == 0x3000
  }

  /** The digit part `int()` accepts after its optional sign: digits, with a
      single underscore allowed between two digits. */
  predicate IsDigitPart(s: string)
  {
    |s| > 0 && IsDigit(s[0]) && IsDigit(s[|s| - 1]) &&
    (forall i :: 0 <= i < |s| ==> IsDigit(s[i]) || s[i] == '_') &&
    (forall i :: 0 <= i < |s| - 1 && s[i] == '_' ==> s[i + 1] != '_')
  }

  /** `s` without its underscores. */
  function DropUnderscores(s: string): string
  {
    if |s| == 0 then []
    else if s[0] == '_' then DropUnderscores(s[1..])
    else [s[0]] + DropUnderscores(s[1..])
  }

  /** Without its underscores a text of digits and underscores is all
      digits, and a text of digits is left as it is. */
  lemma {:induction false} DropUnderscoresShape(s: string)
    ensures (forall i :: 0 <= i < |s| ==> IsDigit(s[i]) || s[i] == '_') ==> IsDigits(DropUnderscores(s))
    ensures IsDigits(s) ==> DropUnderscores(s) == s
  {
    if |s| > 0 {
      DropUnderscoresShape(s[1..]);
      assert IsDigits(s) ==> IsDigits(s[1..]);
    }
  }

  /** The number a digit part denotes. */
  function DigitPartValue(s: string): nat
    requires IsDigitPart(s)
  {
    DropUnderscoresShape(s);
    Value(DropUnderscores(s))
  }

  /** `int(s)`: surrounding whitespace is ignored, a leading `+` or `-` is
      allowed, and the rest must be a digit part; `None` stands for the
      `ValueError` Python raises otherwise. */
  function Int(s: string): (r: Option<int>)
    ensures r.Some? ==> exists i :: 0 <= i < |s| && IsDigit(s[i])
  {
    var l := StripLeft(s, IsSpace);
    StripLeftShape(s, IsSpace);
    StripRightShape(l, IsSpace);
    var t := Strip(s, IsSpace);
    assert forall i :: 0 <= i < |t| ==> t[i] == s[|s| - |l| + i];
    if |t| > 0 && (t[0] == '+' || t[0] == '-') then
      if IsDigitPart(t[1..]) then
        var magnitude: int := DigitPartValue(t[1..]);
        Some(if t[0] == '-' then -magnitude else magnitude)
      else None
    else if IsDigitPart(t) then Some(DigitPartValue(t))
    else None
  }

  /** On a plain non-empty digit string `int()` is its decimal value. */
  lemma IntOfDigits(s: string)
    requires |s| > 0 && IsDigits(s)
    ensures Int(s) == Some(Value(s))
  {
    assert IsDigit(s[0]) && IsDigit(s[|s| - 1]);
    assert !IsSpace(s[0]) && !IsSpace(s[|s| - 1]);
    StripUnchanged(s, IsSpace);
    assert Strip(s, IsSpace) == s;
    assert s[0] != '+' && s[0] != '-';
    assert IsDigitPart(s);
    DropUnderscoresShape(s);
  }

  /** A text that starts with a character that is neither white space, a
      sign nor a digit is rejected: nothing strips it. */
  lemma IntRejectsLeadingJunk(s: string)
    requires |s| > 0 && !IsSpace(s[0]) && !IsDigit(s[0]) && s[0] != '+' && s[0] != '-'
    ensures Int(s).None?
  {
    var l := StripLeft(s, IsSpace);
    assert l == s;
    var t := StripRight(l, IsSpace);
    StripRightShape(l, IsSpace);
    if |t| > 0 {
      assert t[0] == s[0];
    }
  }

  /** `str(n)` for an integer: a leading `-` for a negative number, then
      the decimal digits of its magnitude. */
  function Str(n: int): (s: string)
    ensures |s| > 0
  {
    if n < 0 then "-" + NatToStr(-n) else NatToStr(n)
  }

  /** `str(n)` is the decimal digits of the magnitude, after a '-' for a
      negative number. */
  lemma StrDigits(n: int)
    ensures n >= 0 ==> IsDigits(Str(n)) && Value(Str(n)) == n
    ensures n < 0 ==> Str(n)[0] == '-' && IsDigits(Str(n)[1..]) && Value(Str(n)[1..]) == -n
  {
    if n < 0 {
      assert Str(n)[1..] == NatToStr(-n);
    }
  }

  /** `int()` of '-' and a non-empty digit string is minus its value. */
  lemma IntOfNegative(d: string)
    requires |d| > 0 && IsDigits(d)
    ensures Int("-" + d).Some? && Int("-" + d).value == -(Value(d) as int)
  {
    var s := "-" + d;
    assert s[|s| - 1] == d[|d| - 1] && IsDigit(d[|d| - 1]);
    StripUnchanged(s, IsSpace);
    assert Strip(s, IsSpace)[1..] == d;
    assert IsDigitPart(d);
    DropUnderscoresShape(d);
  }

  /** `int()` reads back what `str()` writes. */
  lemma IntOfStr(n: int)
    ensures Int(Str(n)).Some? && Int(Str(n)).value == n
  {
    if n < 0 {
      IntOfNegative(NatToStr(-n));
    } else {
      IntOfDigits(NatToStr(n));
    }
  }

  /** `s.zfill(width)`: '0's are inserted after a leading sign, or at the
      front, until the string is `width` long; a longer string is kept. */
  function ZFill(s: string, width: nat): (r: string)
    ensures |r| == if |s| >= width then |s| else width
  {
    if |s| >= width then s
    else if |s| > 0 && (s[0] == '+' || s[0] == '-') then [s[0]] + Zeros(width - |s|) + s[1..]
    else Zeros(width - |s|) + s
  }

  /** What `zfill` does to a shorter string: a leading sign stays in front,
      the inserted characters are all '0', and the rest of the string ends
      the result unchanged. */
  lemma ZFillShape(s: string, width: nat)
    requires |s| < width
    ensures var r, k := ZFill(s, width), if |s| > 0 && (s[0] == '+' || s[0] == '-') then 1 else 0;
      r[..k] == s[..k] &&
      (forall i :: k <= i < k + width - |s| ==> r[i] == '0') &&
      r[k + width - |s|..] == s[k..]
  {
  }

  /** `s.ljust(width, fill)`: `fill` appended until the string is `width` long. */
  function LJust(s: string, width: nat, fill: char): (r: string)
    ensures |r| == if |s| >= width then |s| else width
    ensures r[..|s|] == s
    ensures forall i :: |s| <= i < |r| ==> r[i] == fill
  {
    if |s| >= width then s else s + seq(width - |s|, _ => fill)
  }

  /** The slice `s[:n]`. */
  function Prefix(s: string, n: nat): (r: string)
    ensures |r| == if |s| <= n then |s| else n
    ensures r == s[..|r|]
  {
    if |s| <= n then s else s[..n]
  }

  /** `str(n).zfill(width)` of a number below 10^width is exactly `width`
      digits that read back as `n`. */
  lemma ZFillNat(n: nat, width: nat)
    requires 1 <= width && n < Pow10(width)
    ensures |ZFill(Str(n), width)| == width
    ensures IsDigits(ZFill(Str(n), width)) && Value(ZFill(Str(n), width)) == n
  {
    NatToStrLength(n, width);
    var s := NatToStr(n);
    assert s[0] != '+' && s[0] != '-';
    if |s| < width {
      ValueLeadingZeros(width - |s|, s);
    }
  }
}
