/** String helpers with Python's semantics: `str.isspace`, `strip`, `split`, `startswith`, `str(int)`, `int(str)`. */
module Text {
  import opened Wrappers

  /** Python's `str.isspace` for one character (the Unicode whitespace set CPython uses). */
  predicate IsSpace(c: char) {
    var n := c as int;
    (9 <= n <= 13) || (28 <= n <= 32) || n == 0x85 || n == 0xA0 || n == 0x1680
    || (0x2000 <= n <= 0x200A) || n == 0x2028 || n == 0x2029 || n == 0x202F
    || n == 0x205F || n == 0x3000
  }

  predicate IsAsciiDigit(c: char) { '0' <= c <= '9' }
  predicate IsAsciiLower(c: char) { 'a' <= c <= 'z' }
  predicate IsAsciiUpper(c: char) { 'A' <= c <= 'Z' }

  predicate StartsWith(s: string, prefix: string) {
    |prefix| <= |s| && s[..|prefix|] == prefix
  }

  predicate EndsWith(s: string, suffix: string) {
    |suffix| <= |s| && s[|s| - |suffix|..] == suffix
  }

  /** `sub in s` for strings. */
  predicate Contains(s: string, sub: string) {
    StartsWith(s, sub) || (s != [] && Contains(s[1..], sub))
  }

  /** Python's `s.lstrip()`: drops leading whitespace. */
  function LStrip(s: string): (r: string)
    ensures |r| <= |s| && r == s[|s| - |r|..]
    ensures forall i :: 0 <= i < |s| - |r| ==> IsSpace(s[i])
    ensures r != [] ==> !IsSpace(r[0])
  {
    if s != [] && IsSpace(s[0]) then LStrip(s[1..]) else s
  }

  /** Python's `s.rstrip()`: drops trailing whitespace. */
  function RStrip(s: string): (r: string)
    ensures |r| <= |s| && r == s[..|r|]
    ensures forall i :: |r| <= i < |s| ==> IsSpace(s[i])
    ensures r != [] ==> !IsSpace(r[|r| - 1])
  {
    if s != [] && IsSpace(s[|s| - 1]) then RStrip(s[..|s| - 1]) else s
  }

  /** Python's `s.strip()`: drops leading and trailing whitespace. */
  function Strip(s: string): (r: string)
    ensures |r| <= |s|
    ensures r != [] ==> !IsSpace(r[0]) && !IsSpace(r[|r| - 1])
  {
    if s != [] && IsSpace(s[0]) then Strip(s[1..])
    else if s != [] && IsSpace(s[|s| - 1]) then Strip(s[..|s| - 1])
    else s
  }

  /** `strip` leaves nothing exactly when every character is whitespace. */
  lemma {:induction false} StripEmpty(s: string)
    ensures Strip(s) == [] <==> forall i :: 0 <= i < |s| ==> IsSpace(s[i])
    decreases |s|
  {
    if s != [] && IsSpace(s[0]) {
      StripEmpty(s[1..]);
      assert forall i :: 1 <= i < |s| ==> s[i] == s[1..][i - 1];
    } else if s != [] && IsSpace(s[|s| - 1]) {
      StripEmpty(s[..|s| - 1]);
      assert forall i :: 0 <= i < |s| - 1 ==> s[i] == s[..|s| - 1][i];
    }
  }

  /** Python's `s.lstrip(chars)`. */
  function LStripChars(s: string, chars: set<char>): (r: string)
    ensures |r| <= |s| && r == s[|s| - |r|..]
    ensures forall i :: 0 <= i < |s| - |r| ==> s[i] in chars
    ensures r != [] ==> r[0] !in chars
  {
    if s != [] && s[0] in chars then LStripChars(s[1..], chars) else s
  }

  /** Python's `s.rstrip(chars)`. */
  function RStripChars(s: string, chars: set<char>): (r: string)
    ensures |r| <= |s| && r == s[..|r|]
    ensures forall i :: |r| <= i < |s| ==> s[i] in chars
    ensures r != [] ==> r[|r| - 1] !in chars
  {
    if s != [] && s[|s| - 1] in chars then RStripChars(s[..|s| - 1], chars) else s
  }

  /** ASCII case folding; `str.lower` on other characters is not modelled. */
  function LowerChar(c: char): (r: char)
    ensures IsAsciiUpper(c) ==> IsAsciiLower(r)
    ensures !IsAsciiUpper(c) ==> r == c
  {
    if IsAsciiUpper(c) then (c as int - 'A' as int + 'a' as int) as char else c
  }

  function Lower(s: string): (r: string)
    ensures |r| == |s|
    ensures forall i :: 0 <= i < |s| ==> r[i] == LowerChar(s[i])
  {
    seq(|s|, i requires 0 <= i < |s| => LowerChar(s[i]))
  }

  lemma LowerConcat(a: string, b: string)
    ensures Lower(a + b) == Lower(a) + Lower(b)
  {
    assert forall i :: 0 <= i < |a + b| ==> Lower(a + b)[i] == (Lower(a) + Lower(b))[i];
  }

  /** Python's `s.split(sep)` for a one-character separator. */
  function Split(s: string, sep: char): (r: seq<string>)
    ensures |r| >= 1
    ensures forall i :: 0 <= i < |r| ==> sep !in r[i]
    ensures Join(r, [sep]) == s
  {
    if s == [] then [""]
    else
      var rest := Split(s[1..], sep);
      if s[0] == sep then [""] + rest
      else [[s[0]] + rest[0]] + rest[1..]
  }

  /** Python's `sep.join(parts)`. */
  function Join(parts: seq<string>, sep: string): string {
    if |parts| == 0 then ""
    else if |parts| == 1 then parts[0]
    else parts[0] + sep + Join(parts[1..], sep)
  }

  /** A string without the separator splits into itself. */
  lemma {:induction false} SplitWithout(s: string, c: char)
    requires c !in s
    ensures Split(s, c) == [s]
  {
    if s != [] {
      assert c !in s[1..];
      SplitWithout(s[1..], c);
      assert [s[0]] + s[1..] == s;
    }
  }

  /** Splitting at a separator that the first piece does not contain. */
  lemma {:induction false} SplitAfterPiece(x: string, c: char, y: string)
    requires c !in x
    ensures Split(x + [c] + y, c) == [x] + Split(y, c)
  {
    if x == [] {
      assert x + [c] + y == [c] + y;
      assert ([c] + y)[1..] == y;
    } else {
      assert (x + [c] + y)[1..] == x[1..] + [c] + y;
      SplitAfterPiece(x[1..], c, y);
      assert [x[0]] + x[1..] == x;
    }
  }

  lemma {:induction false} SplitNoSeparator(x: string, c: char)
    requires c !in x
    ensures Split(x, c) == [x]
  {
    if x != [] {
      SplitNoSeparator(x[1..], c);
      assert [x[0]] + x[1..] == x;
    }
  }

  /** Splitting the join of separator-free parts gives the parts back. */
  lemma {:induction false} SplitJoin(parts: seq<string>, c: char)
    requires parts != []
    requires forall i :: 0 <= i < |parts| ==> c !in parts[i]
    ensures Split(Join(parts, [c]), c) == parts
  {
    if |parts| == 1 {
      SplitNoSeparator(parts[0], c);
    } else {
      SplitJoin(parts[1..], c);
      SplitAfterPiece(parts[0], c, Join(parts[1..], [c]));
      assert parts == [parts[0]] + parts[1..];
    }
  }

  /** Python's `s.find(c)`: the first index of `c`, or -1. */
  function Find(s: string, c: char): (r: int)
    ensures -1 <= r < |s|
    ensures r == -1 <==> c !in s
    ensures r >= 0 ==> s[r] == c && c !in s[..r]
  {
    if s == [] then -1
    else if s[0] == c then 0
    else var k := Find(s[1..], c); if k == -1 then -1 else k + 1
  }

  /** Decimal digits of a natural number, as `str(n)` prints them. */
  function NatToString(n: nat): (r: string)
    ensures |r| >= 1 && forall i :: 0 <= i < |r| ==> IsAsciiDigit(r[i])
    ensures r[0] == '0' ==> n == 0
  {
    if n < 10 then [('0' as int + n) as char]
    else NatToString(n / 10) + [('0' as int + n % 10) as char]
  }

  /** Python's `str(i)` for an int. */
  function IntToString(i: int): string {
    if i < 0 then "-" + NatToString(-i) else NatToString(i)
  }

  /** The value of a string of ASCII digits. */
  function DigitsValue(s: string): nat
    requires forall i :: 0 <= i < |s| ==> IsAsciiDigit(s[i])
  {
    if s == [] then 0
    else
      assert IsAsciiDigit(s[|s| - 1]);
      DigitsValue(s[..|s| - 1]) * 10 + (s[|s| - 1] as int - '0' as int)
  }

  lemma {:induction false} DigitsOfNat(n: nat)
    ensures DigitsValue(NatToString(n)) == n
  {
    if n >= 10 {
      DigitsOfNat(n / 10);
      var s := NatToString(n);
      assert s[..|s| - 1] == NatToString(n / 10);
    }
  }

  /** Python's `int(s)` on an optional sign and ASCII digits, after trimming whitespace.
      Underscore separators and non-ASCII digits, which `int` also accepts, are not modelled. */
  function ParseInt(s: string): Option<int> {
    SignedInt(Strip(s))
  }

  function SignedInt(t: string): Option<int> {
    if t == [] then None
    else
      var neg := t[0] == '-';
      var body := if t[0] == '-' || t[0] == '+' then t[1..] else t;
      if body != [] && AllDigits(body) then
        var v: int := DigitsValue(body);
        Some(if neg then -v else v)
      else None
  }

  lemma {:induction false} ParseIntOfIntToString(i: int)
    ensures ParseInt(IntToString(i)) == Some(i)
  {
    var s := IntToString(i);
    var n: nat := if i < 0 then -i else i;
    var d := NatToString(n);
    DigitsOfNat(n);
    assert IsAsciiDigit(d[|d| - 1]);
    assert s[|s| - 1] == d[|d| - 1];
    StripNoSpaceEnds(s);
    if i < 0 {
      assert s[1..] == d;
    } else {
      assert d[0] != '-' && d[0] != '+';
    }
  }

  lemma StripNoSpaceEnds(s: string)
    requires s != [] && !IsSpace(s[0]) && !IsSpace(s[|s| - 1])
    ensures Strip(s) == s
  {
  }

  predicate AllDigits(s: string) {
    forall i :: 0 <= i < |s| ==> IsAsciiDigit(s[i])
  }

  function Pow10(n: nat): (r: real)
    ensures r >= 1.0
  {
    if n == 0 then 1.0 else 10.0 * Pow10(n - 1)
  }

  /** `m * 10 ** k` for any integer exponent. */
  function Scale10(m: real, k: int): real {
    if k >= 0 then m * Pow10(k) else m / Pow10(-k)
  }

  /** The index of the first exponent mark `e` or `E`, or `|s|` when there is none. */
  function ExponentMark(s: string): (r: nat)
    ensures r <= |s|
    ensures r == |s| <==> 'e' !in s && 'E' !in s
    ensures r < |s| ==> s[r] == 'e' || s[r] == 'E'
  {
    if s == [] then 0
    else if s[0] == 'e' || s[0] == 'E' then 0
    else 1 + ExponentMark(s[1..])
  }

  /** The exponent after the mark: an optional sign and at least one ASCII digit. */
  function ParseExponent(s: string): (r: Option<int>)
    ensures r.Some? ==> s != []
  {
    var neg := s != [] && s[0] == '-';
    var body := if s != [] && (s[0] == '-' || s[0] == '+') then s[1..] else s;
    if body != [] && AllDigits(body) then
      var v: int := DigitsValue(body);
      Some(if neg then -v else v)
    else None
  }

  /** Python's `float(s)` on decimal text: surrounding whitespace, an optional sign, digits with at
      most one `.` (at least one digit in all), and an optional exponent. `inf`, `nan` and
      underscore separators, which `float` also accepts, are not modelled; the value is exact. */
  function ParseFloat(s: string): Option<real> {
    SignedDecimal(Strip(s))
  }

  function SignedDecimal(t: string): Option<real> {
    var neg := t != [] && t[0] == '-';
    var body := if t != [] && (t[0] == '-' || t[0] == '+') then t[1..] else t;
    var d := Decimal(body);
    if d.Some? then Some(if neg then -d.value else d.value) else None
  }

  /** An unsigned decimal: the mantissa before the exponent mark, then the exponent. */
  function Decimal(body: string): Option<real> {
    var e := ExponentMark(body);
    var exponent := if e < |body| then ParseExponent(body[e + 1..]) else Some(0);
    var m := Mantissa(body[..e]);
    if m.Some? && exponent.Some? then Some(Scale10(m.value, exponent.value)) else None
  }

  /** Digits with at most one `.`, at least one digit in all. */
  function Mantissa(s: string): Option<real> {
    var dot := Find(s, '.');
    var whole := if dot < 0 then s else s[..dot];
    var frac := if dot < 0 then "" else s[dot + 1..];
    if AllDigits(whole) && AllDigits(frac) && |whole| + |frac| > 0 then
      Some((DigitsValue(whole + frac) as real) / Pow10(|frac|))
    else None
  }

  lemma DecimalOfDigits(body: string)
    requires body != [] && AllDigits(body)
    ensures Decimal(body) == Some(DigitsValue(body) as real)
  {
    assert 'e' !in body && 'E' !in body by {
      assert forall i :: 0 <= i < |body| ==> IsAsciiDigit(body[i]);
    }
    assert ExponentMark(body) == |body|;
    assert body[..|body|] == body;
    MantissaOfDigits(body);
    assert Scale10(DigitsValue(body) as real, 0) == DigitsValue(body) as real;
  }

  lemma MantissaOfDigits(s: string)
    requires s != [] && AllDigits(s)
    ensures Mantissa(s) == Some(DigitsValue(s) as real)
  {
    assert '.' !in s by {
      assert forall i :: 0 <= i < |s| ==> IsAsciiDigit(s[i]);
    }
    assert Find(s, '.') == -1;
    assert s + "" == s;
  }

  /** Whatever `int` accepts, `float` accepts with the same value. */
  lemma ParseFloatExtendsParseInt(s: string)
    ensures ParseInt(s).Some? ==> ParseFloat(s) == Some(ParseInt(s).value as real)
  {
    SignedDecimalExtendsSignedInt(Strip(s));
  }

  lemma SignedDecimalExtendsSignedInt(t: string)
    ensures SignedInt(t).Some? ==> SignedDecimal(t) == Some(SignedInt(t).value as real)
  {
    if SignedInt(t).Some? {
      var body := if t[0] == '-' || t[0] == '+' then t[1..] else t;
      SignedDecimalOfDigits(t, body);
    }
  }

  lemma SignedDecimalOfDigits(t: string, body: string)
    requires t != [] && body == (if t[0] == '-' || t[0] == '+' then t[1..] else t)
    requires body != [] && AllDigits(body)
    ensures SignedDecimal(t) == Some(if t[0] == '-' then -(DigitsValue(body) as real) else DigitsValue(body) as real)
  {
    DecimalOfDigits(body);
  }

  /** `float(w + "." + f)` for digit strings `w` and `f`, not both empty: the digits of both
      parts read as one integer, scaled down by one power of ten per fraction digit. */
  lemma {:induction false} ParseFloatDecimal(w: string, f: string)
    requires AllDigits(w) && AllDigits(f) && |w| + |f| > 0
    ensures ParseFloat(w + "." + f) == Some((DigitsValue(w + f) as real) / Pow10(|f|))
  {
    var s := w + "." + f;
    assert forall i :: 0 <= i < |s| ==> IsAsciiDigit(s[i]) || s[i] == '.';
    StripNoSpaceEnds(s);
    SignedDecimalUnsigned(s);
    DecimalNoExponent(s);
    MantissaOfParts(w, f);
  }

  lemma SignedDecimalUnsigned(t: string)
    requires t != [] && t[0] != '-' && t[0] != '+'
    ensures SignedDecimal(t) == Decimal(t)
  {
  }

  lemma DecimalNoExponent(body: string)
    requires forall i :: 0 <= i < |body| ==> body[i] != 'e' && body[i] != 'E'
    ensures Decimal(body) == Mantissa(body)
  {
    assert ExponentMark(body) == |body|;
    assert body[..|body|] == body;
  }

  lemma {:induction false} MantissaOfParts(w: string, f: string)
    requires AllDigits(w) && AllDigits(f) && |w| + |f| > 0
    ensures Mantissa(w + "." + f) == Some((DigitsValue(w + f) as real) / Pow10(|f|))
  {
    var s := w + "." + f;
    assert '.' !in w;
    assert s[|w|] == '.' && s[..|w|] == w && s[|w| + 1..] == f;
    assert s[..|w| + 1][|w|] == '.';
  }

  /** The line boundaries of Python's `str.splitlines`. */
  predicate IsLineBreak(c: char) {
    var n := c as int;
    (10 <= n <= 13) || (28 <= n <= 30) || n == 0x85 || n == 0x2028 || n == 0x2029
  }

  /** The index of the first line boundary, or `|s|`. */
  function LineEnd(s: string): (r: nat)
    ensures r <= |s|
    ensures forall i :: 0 <= i < r ==> !IsLineBreak(s[i])
    ensures r < |s| ==> IsLineBreak(s[r])
  {
    if s == [] || IsLineBreak(s[0]) then 0 else LineEnd(s[1..]) + 1
  }

  /** Python's `s.splitlines()`: `\r\n` counts as one boundary, and a final boundary opens no
      extra empty line. */
  function SplitLines(s: string): (r: seq<string>)
    ensures r == [] <==> s == []
    ensures forall i, j :: 0 <= i < |r| && 0 <= j < |r[i]| ==> !IsLineBreak(r[i][j])
    decreases |s|
  {
    if s == [] then []
    else
      var e := LineEnd(s);
      if e == |s| then [s]
      else
        var width := if s[e] == '\r' && e + 1 < |s| && s[e + 1] == '\n' then 2 else 1;
        [s[..e]] + SplitLines(s[e + width..])
  }
}
