/** The YAML scalar helpers of `quality/evaluator/cli.py`, used when the rule set is read
    without a YAML library: double-quoted escapes (section 5.7 of YAML 1.2), comment and
    quote handling of plain and quoted scalars (section 7.3 of YAML 1.2), and the chomping
    of block scalars (section 8.1.1.2 of YAML 1.2). */
module EvaluatorText {
  import opened Wrappers
  import opened Text

  // ---------------------------------------------------------------------------
  // _unescape_yaml_double_quoted

  /** The escapes that stand for one fixed character. */
  function NamedEscape(code: char): Option<char> {
    if code == '0' then Some('\U{0}')
    else if code == 'a' then Some('\U{7}')
    else if code == 'b' then Some('\U{8}')
    else if code == 't' then Some('\t')
    else if code == 'n' then Some('\n')
    else if code == 'v' then Some('\U{B}')
    else if code == 'f' then Some('\U{C}')
    else if code == 'r' then Some('\r')
    else if code == 'e' then Some('\U{1B}')
    else if code == '"' then Some('"')
    else if code == '\\' then Some('\\')
    else if code == '/' then Some('/')
    else if code == 'N' then Some('\U{85}')
    else if code == '_' then Some('\U{A0}')
    else if code == 'L' then Some('\U{2028}')
    else if code == 'P' then Some('\U{2029}')
    else None
  }

  /** How many hex digits the code escapes take: `\x`, `\u` and `\U`; zero for every other
      code. */
  function HexWidth(code: char): nat {
    if code == 'x' then 2 else if code == 'u' then 4 else if code == 'U' then 8 else 0
  }

  predicate IsHexDigit(c: char) {
    '0' <= c <= '9' || 'a' <= c <= 'f' || 'A' <= c <= 'F'
  }

  predicate AllHex(s: string) {
    forall i :: 0 <= i < |s| ==> IsHexDigit(s[i])
  }

  function HexDigitValue(c: char): (r: nat)
    requires IsHexDigit(c)
    ensures r < 16
  {
    if '0' <= c <= '9' then c as int - '0' as int
    else if 'a' <= c <= 'f' then c as int - 'a' as int + 10
    else c as int - 'A' as int + 10
  }

  /** `int(digits, 16)`. */
  function HexValue(digits: string): (r: nat)
    requires AllHex(digits)
  {
    if digits == [] then 0
    else HexValue(digits[..|digits| - 1]) * 16 + HexDigitValue(digits[|digits| - 1])
  }

  /** `chr(n)`: Python raises `ValueError` above U+10FFFF. Python also accepts the surrogate
      code points, which no character of this model can hold; they fail here too. */
  function CodePoint(n: nat): (r: Result<char, string>)
    ensures r.Ok? <==> n < 0xD800 || 0xDFFF < n <= 0x10FFFF
    ensures r.Ok? ==> r.value as int == n
  {
    if n > 0x10FFFF then Err("chr() arg not in range(0x110000)")
    else if 0xD800 <= n <= 0xDFFF then Err("surrogate code point")
    else Ok(n as char)
  }

  /** `prefix` in front of a decoded text; a failure stays a failure. */
  function Prefixed(prefix: string, r: Result<string, string>): (q: Result<string, string>)
    ensures q.Ok? <==> r.Ok?
    ensures q.Ok? ==> q.value == prefix + r.value
    ensures q.Err? ==> q == r
  {
    match r
    case Ok(text) => Ok(prefix + text)
    case Err(e) => Err(e)
  }

  /** What `_unescape_yaml_double_quoted` returns for `s`, or the error `chr` raises. */
  function Unescape(s: string): Result<string, string>
    decreases |s|
  {
    if s == [] then Ok("")
    else if s[0] != '\\' then Prefixed([s[0]], Unescape(s[1..]))
    else if |s| == 1 then Ok("\\")
    else
      var code := s[1];
      var rest := s[2..];
      var width := HexWidth(code);
      if width > 0 then
        if width <= |rest| && AllHex(rest[..width]) then
          match CodePoint(HexValue(rest[..width]))
          case Ok(c) => Prefixed([c], Unescape(rest[width..]))
          case Err(e) => Err(e)
        else Prefixed(['\\', code], Unescape(rest))
      else if NamedEscape(code).Some? then Prefixed([NamedEscape(code).value], Unescape(rest))
      else Prefixed([code], Unescape(rest))
  }

  lemma PrefixedNil(r: Result<string, string>)
    ensures Prefixed("", r) == r
  {
    if r.Ok? {
      assert "" + r.value == r.value;
    }
  }

  lemma PrefixedTwice(a: string, b: string, r: Result<string, string>)
    ensures Prefixed(a, Prefixed(b, r)) == Prefixed(a + b, r)
  {
    if r.Ok? {
      assert a + (b + r.value) == (a + b) + r.value;
    }
  }

  /** `_unescape_yaml_double_quoted`. */
  method UnescapeYamlDoubleQuoted(value: string) returns (r: Result<string, string>)
    ensures r == Unescape(value)
  {
    var result := "";
    var i := 0;
    var length := |value|;
    PrefixedNil(Unescape(value));
    while i < length
      invariant 0 <= i <= length
      invariant Unescape(value) == Prefixed(result, Unescape(value[i..]))
    {
      ghost var rest := value[i..];
      var c := value[i];
      if c != '\\' {
        assert rest[1..] == value[i + 1..];
        PrefixedTwice(result, [c], Unescape(value[i + 1..]));
        result := result + [c];
        i := i + 1;
        continue;
      }
      i := i + 1;
      if i >= length {
        assert rest == "\\";
        return Ok(result + "\\");
      }
      var code := value[i];
      i := i + 1;
      assert rest[1] == code && rest[2..] == value[i..];
      if code in {'x', 'u', 'U'} {
        var width := HexWidth(code);
        var end := if i + width <= length then i + width else length;
        var hexDigits := value[i..end];
        if |hexDigits| == width && AllHex(hexDigits) {
          assert hexDigits == value[i..][..width];
          var decoded := CodePoint(HexValue(hexDigits));
          if decoded.Err? {
            return Err(decoded.error);
          }
          assert value[i..][width..] == value[i + width..];
          PrefixedTwice(result, [decoded.value], Unescape(value[i + width..]));
          result := result + [decoded.value];
          i := i + width;
          continue;
        }
        assert !(width <= |value[i..]| && AllHex(value[i..][..width])) by {
          if width <= |value[i..]| {
            assert end == i + width;
            assert hexDigits == value[i..][..width];
          }
        }
        PrefixedTwice(result, ['\\', code], Unescape(value[i..]));
        result := result + ['\\', code];
        continue;
      }
      var replacement := NamedEscape(code);
      if replacement.Some? {
        PrefixedTwice(result, [replacement.value], Unescape(value[i..]));
        result := result + [replacement.value];
        continue;
      }
      PrefixedTwice(result, [code], Unescape(value[i..]));
      result := result + [code];
    }
    assert value[i..] == [];
    assert result + "" == result;
    return Ok(result);
  }

  /** A text without backslashes is returned unchanged. */
  lemma {:induction false} NoBackslashUnchanged(s: string)
    requires '\\' !in s
    ensures Unescape(s) == Ok(s)
    decreases |s|
  {
    if s != [] {
      assert '\\' !in s[1..];
      NoBackslashUnchanged(s[1..]);
      assert [s[0]] + s[1..] == s;
    }
  }

  /** A lone backslash at the very end is kept literally. */
  lemma {:induction false} TrailingBackslashKept(s: string)
    requires '\\' !in s
    ensures Unescape(s + "\\") == Ok(s + "\\")
    decreases |s|
  {
    if s != [] {
      assert (s + "\\")[1..] == s[1..] + "\\";
      assert '\\' !in s[1..];
      TrailingBackslashKept(s[1..]);
      assert [s[0]] + (s[1..] + "\\") == s + "\\";
    } else {
      assert s + "\\" == "\\";
    }
  }

  /** `\x`, `\u` and `\U` followed by exactly their number of hex digits decode to that code
      point, and the text after the digits is decoded on its own. */
  lemma HexEscapeDecodes(code: char, digits: string, rest: string)
    requires HexWidth(code) > 0 && |digits| == HexWidth(code) && AllHex(digits)
    ensures var s := ['\\', code] + digits + rest;
            var point := CodePoint(HexValue(digits));
            Unescape(s) == if point.Ok? then Prefixed([point.value], Unescape(rest)) else Err(point.error)
  {
    var s := ['\\', code] + digits + rest;
    assert s[2..] == digits + rest;
    assert s[2..][..|digits|] == digits;
    assert s[2..][|digits|..] == rest;
  }

  /** Without enough hex digits the backslash and the code letter are kept, and what follows
      is decoded from the character after the letter. */
  lemma HexEscapeShort(code: char, rest: string)
    requires HexWidth(code) > 0
    requires !(HexWidth(code) <= |rest| && AllHex(rest[..HexWidth(code)]))
    ensures Unescape(['\\', code] + rest) == Prefixed(['\\', code], Unescape(rest))
  {
    assert (['\\', code] + rest)[2..] == rest;
  }

  /** A named escape gives its character; any other code gives the code itself. */
  lemma OtherEscape(code: char, rest: string)
    requires HexWidth(code) == 0
    ensures Unescape(['\\', code] + rest)
            == Prefixed(if NamedEscape(code).Some? then [NamedEscape(code).value] else [code], Unescape(rest))
  {
    assert (['\\', code] + rest)[2..] == rest;
  }

  /** The escape a double-quoted scalar needs for `c`, if any: the inverse of the named escapes
      except `\/`, which is never needed. */
  function EscapeCode(c: char): Option<char> {
    if c == '\U{0}' then Some('0')
    else if c == '\U{7}' then Some('a')
    else if c == '\U{8}' then Some('b')
    else if c == '\t' then Some('t')
    else if c == '\n' then Some('n')
    else if c == '\U{B}' then Some('v')
    else if c == '\U{C}' then Some('f')
    else if c == '\r' then Some('r')
    else if c == '\U{1B}' then Some('e')
    else if c == '"' then Some('"')
    else if c == '\\' then Some('\\')
    else if c == '\U{85}' then Some('N')
    else if c == '\U{A0}' then Some('_')
    else if c == '\U{2028}' then Some('L')
    else if c == '\U{2029}' then Some('P')
    else None
  }

  /** No character of `s` needs an escape. */
  predicate EscapeFree(s: string) {
    forall i :: 0 <= i < |s| ==> EscapeCode(s[i]).None?
  }

  /** Writing `s` as the body of a double-quoted scalar. */
  function Escape(s: string): (r: string)
    ensures |s| <= |r| <= 2 * |s|
    ensures EscapeFree(s) ==> r == s
  {
    if s == [] then ""
    else
      (match EscapeCode(s[0]) case Some(code) => ['\\', code] case None => [s[0]]) + Escape(s[1..])
  }

  lemma EscapeCodeInverse(c: char)
    ensures EscapeCode(c).Some? ==> HexWidth(EscapeCode(c).value) == 0 && NamedEscape(EscapeCode(c).value) == Some(c)
    ensures EscapeCode(c).None? ==> c != '\\' && c != '"'
  {
  }

  /** Decoding undoes escaping: every text survives a round trip through a double-quoted
      scalar body. */
  lemma {:induction false} UnescapeEscape(s: string)
    ensures Unescape(Escape(s)) == Ok(s)
    decreases |s|
  {
    if s != [] {
      var rest := Escape(s[1..]);
      UnescapeEscape(s[1..]);
      EscapeCodeInverse(s[0]);
      match EscapeCode(s[0])
      case Some(code) =>
        assert Escape(s) == ['\\', code] + rest;
        OtherEscape(code, rest);
        assert [s[0]] + s[1..] == s;
      case None =>
        assert Escape(s) == [s[0]] + rest;
        assert (Escape(s))[1..] == rest;
        assert [s[0]] + s[1..] == s;
    }
  }

  // ---------------------------------------------------------------------------
  // _normalize_yaml_scalar

  /** The scan state of `_normalize_yaml_scalar`: inside single quotes, inside double quotes,
      and just after a backslash. */
  datatype Flags = Flags(inSingle: bool, inDouble: bool, escape: bool)

  const Outside := Flags(false, false, false)
  const InSingle := Flags(true, false, false)
  const InDouble := Flags(false, true, false)

  /** One character of the scan: the state after it, or `None` at the `#` that opens a
      comment, where the scan stops. A backslash escapes the next character everywhere except
      inside single quotes. */
  function Scan(f: Flags, c: char): (g: Option<Flags>)
    ensures g.None? <==> !f.escape && c == '#' && !f.inSingle && !f.inDouble
  {
    if f.escape then Some(f.(escape := false))
    else if c == '\\' && !f.inSingle then Some(f.(escape := true))
    else if c == '\'' && !f.inDouble then Some(f.(inSingle := !f.inSingle))
    else if c == '"' && !f.inSingle then Some(f.(inDouble := !f.inDouble))
    else if c == '#' && !f.inSingle && !f.inDouble then None
    else Some(f)
  }

  /** How many characters of `s` the scan keeps when it starts in state `f`: all of them, or
      those before the comment's `#`. */
  function KeptLength(s: string, f: Flags): (n: nat)
    ensures n <= |s|
    ensures n < |s| ==> s[n] == '#'
    decreases |s|
  {
    if s == [] then 0
    else
      var g := Scan(f, s[0]);
      if g.None? then 0 else 1 + KeptLength(s[1..], g.value)
  }

  /** Python's `s.replace("''", "'")`, scanning left to right. */
  function FoldQuotes(s: string): (r: string)
    ensures |r| <= |s|
    decreases |s|
  {
    if |s| >= 2 && s[0] == '\'' && s[1] == '\'' then "'" + FoldQuotes(s[2..])
    else if s == [] then []
    else [s[0]] + FoldQuotes(s[1..])
  }

  /** Writing `t` as the body of a single-quoted scalar: every quote is doubled. */
  function DoubleQuotes(t: string): (r: string)
    ensures |r| >= |t|
  {
    if t == [] then []
    else (if t[0] == '\'' then "''" else [t[0]]) + DoubleQuotes(t[1..])
  }

  /** Folding undoes doubling. */
  lemma {:induction false} FoldDoubleQuotes(t: string)
    ensures FoldQuotes(DoubleQuotes(t)) == t
    decreases |t|
  {
    if t != [] {
      var rest := DoubleQuotes(t[1..]);
      FoldDoubleQuotes(t[1..]);
      if t[0] == '\'' {
        assert DoubleQuotes(t) == "''" + rest;
        assert (DoubleQuotes(t))[2..] == rest;
      } else {
        assert DoubleQuotes(t) == [t[0]] + rest;
        assert (DoubleQuotes(t))[1..] == rest;
      }
      assert [t[0]] + t[1..] == t;
    }
  }

  /** A scalar wrapped in one pair of matching quotes. */
  predicate QuoteWrapped(s: string) {
    |s| >= 2 && s[0] == s[|s| - 1] && (s[0] == '"' || s[0] == '\'')
  }

  /** What `_normalize_yaml_scalar` returns: the trimmed text up to an unquoted `#`, with
      trailing whitespace removed; a single-quoted result has its doubled quotes folded and
      a double-quoted one its escapes decoded. */
  function NormalizeScalar(value: string): Result<string, string> {
    var text := Strip(value);
    if text == [] then Ok("")
    else
      var result := RStrip(text[..KeptLength(text, Outside)]);
      if QuoteWrapped(result) then
        var core := result[1..|result| - 1];
        if result[0] == '\'' then Ok(FoldQuotes(core)) else Unescape(core)
      else Ok(result)
  }

  /** `_normalize_yaml_scalar`. */
  method NormalizeYamlScalar(value: string) returns (r: Result<string, string>)
    ensures r == NormalizeScalar(value)
  {
    var text := Strip(value);
    if text == [] {
      return Ok("");
    }
    var normalized := KeepUntilComment(text);
    var result := RStrip(normalized);
    if |result| >= 2 && result[0] == result[|result| - 1] && (result[0] == '"' || result[0] == '\'') {
      var core := result[1..|result| - 1];
      if result[0] == '\'' {
        return Ok(FoldQuotes(core));
      }
      r := UnescapeYamlDoubleQuoted(core);
      return;
    }
    return Ok(result);
  }

  /** The scan loop of `_normalize_yaml_scalar`: copies characters until an unquoted,
      unescaped `#`. */
  method KeepUntilComment(text: string) returns (normalized: string)
    ensures normalized == text[..KeptLength(text, Outside)]
  {
    normalized := "";
    var inSingle, inDouble, escape := false, false, false;
    var i := 0;
    while i < |text|
      invariant 0 <= i <= |text|
      invariant normalized == text[..i]
      invariant KeptLength(text, Outside) == i + KeptLength(text[i..], Flags(inSingle, inDouble, escape))
    {
      var c := text[i];
      KeptAt(text, i, Flags(inSingle, inDouble, escape));
      if escape {
        normalized := normalized + [c];
        escape := false;
        i := i + 1;
        continue;
      }
      if c == '\\' && !inSingle {
        escape := true;
        normalized := normalized + [c];
        i := i + 1;
        continue;
      }
      if c == '\'' && !inDouble {
        inSingle := !inSingle;
        normalized := normalized + [c];
        i := i + 1;
        continue;
      }
      if c == '"' && !inSingle {
        inDouble := !inDouble;
        normalized := normalized + [c];
        i := i + 1;
        continue;
      }
      if c == '#' && !inSingle && !inDouble {
        break;
      }
      normalized := normalized + [c];
      i := i + 1;
    }
  }

  /** One step of the scan at position `i`. */
  lemma KeptAt(text: string, i: int, f: Flags)
    requires 0 <= i < |text|
    ensures text[..i + 1] == text[..i] + [text[i]]
    ensures Scan(f, text[i]).None? ==> KeptLength(text[i..], f) == 0
    ensures Scan(f, text[i]).Some? ==> KeptLength(text[i..], f) == 1 + KeptLength(text[i + 1..], Scan(f, text[i]).value)
  {
    assert text[i..][1..] == text[i + 1..];
  }

  /** A whitespace-only scalar is empty. */
  lemma BlankScalar(value: string)
    requires forall i :: 0 <= i < |value| ==> IsSpace(value[i])
    ensures NormalizeScalar(value) == Ok("")
  {
    StripEmpty(value);
  }

  /** Characters that change nothing in the scan outside quotes. */
  predicate PlainText(p: string) {
    forall i :: 0 <= i < |p| ==> p[i] != '\'' && p[i] != '"' && p[i] != '\\' && p[i] != '#'
  }

  lemma {:induction false} PlainKept(p: string, rest: string)
    requires PlainText(p)
    ensures KeptLength(p + rest, Outside) == |p| + KeptLength(rest, Outside)
    decreases |p|
  {
    if p == [] {
      assert p + rest == rest;
    } else {
      assert (p + rest)[1..] == p[1..] + rest;
      PlainKept(p[1..], rest);
    }
  }

  /** An unquoted `#` starts a comment: the scalar is the trimmed text before it. */
  lemma CommentDropped(value: string, p: string, q: string)
    requires Strip(value) == p + "#" + q
    requires PlainText(p)
    ensures NormalizeScalar(value) == Ok(RStrip(p))
  {
    CommentCut(p, q);
    PlainUnwrapped(p);
    NormalizedUnwrapped(value, |p|);
  }

  lemma CommentCut(p: string, q: string)
    requires PlainText(p)
    ensures KeptLength(p + "#" + q, Outside) == |p|
    ensures (p + "#" + q)[..|p|] == p
  {
    PlainKept(p, "#" + q);
    assert p + "#" + q == p + ("#" + q);
  }

  lemma PlainUnwrapped(p: string)
    requires PlainText(p)
    ensures !QuoteWrapped(RStrip(p))
  {
    var r := RStrip(p);
    if r != [] {
      assert r[0] == p[0];
    }
  }

  /** When the kept text, trimmed, is not wrapped in quotes, it is the scalar. */
  lemma NormalizedUnwrapped(value: string, n: nat)
    requires Strip(value) != [] && KeptLength(Strip(value), Outside) == n
    requires !QuoteWrapped(RStrip(Strip(value)[..n]))
    ensures NormalizeScalar(value) == Ok(RStrip(Strip(value)[..n]))
  {
  }

  /** A plain scalar without quotes, backslashes or comments is just trimmed. */
  lemma PlainScalar(value: string)
    requires PlainText(value)
    ensures NormalizeScalar(value) == Ok(Strip(value))
  {
    var text := Strip(value);
    if text != [] {
      assert PlainText(text) by {
        StripInside(value);
      }
      PlainKept(text, "");
      assert text + "" == text && text[..|text|] == text;
      assert RStrip(text) == text;
    }
  }

  /** Every character of `Strip(s)` is a character of `s`. */
  lemma {:induction false} StripInside(s: string)
    ensures forall i :: 0 <= i < |Strip(s)| ==> Strip(s)[i] in s
    decreases |s|
  {
    if s != [] && IsSpace(s[0]) {
      StripInside(s[1..]);
    } else if s != [] && IsSpace(s[|s| - 1]) {
      StripInside(s[..|s| - 1]);
    }
  }

  /** Inside single quotes, a doubled-quote body is kept whole: each `''` leaves and
      re-enters the quotes, and nothing else changes the state. */
  lemma {:induction false} SingleBodyKept(t: string, rest: string)
    ensures KeptLength(DoubleQuotes(t) + rest, InSingle) == |DoubleQuotes(t)| + KeptLength(rest, InSingle)
    decreases |t|
  {
    if t == [] {
      assert DoubleQuotes(t) + rest == rest;
    } else {
      var d := DoubleQuotes(t[1..]);
      SingleBodyKept(t[1..], rest);
      if t[0] == '\'' {
        PairThen('\'', '\'', d, rest);
        KeptStep('\'', ['\''] + (d + rest), InSingle);
        KeptStep('\'', d + rest, Outside);
      } else {
        OneThen(t[0], d, rest);
        KeptStep(t[0], d + rest, InSingle);
      }
    }
  }

  /** Inside double quotes, an escaped body is kept whole: every quote and backslash in it is
      escaped. */
  lemma {:induction false} DoubleBodyKept(t: string, rest: string)
    ensures KeptLength(Escape(t) + rest, InDouble) == |Escape(t)| + KeptLength(rest, InDouble)
    decreases |t|
  {
    if t == [] {
      assert Escape(t) + rest == rest;
    } else {
      var e := Escape(t[1..]);
      DoubleBodyKept(t[1..], rest);
      match EscapeCode(t[0])
      case Some(code) =>
        PairThen('\\', code, e, rest);
        KeptStep('\\', [code] + (e + rest), InDouble);
        KeptStep(code, e + rest, InDouble.(escape := true));
      case None =>
        EscapeCodeInverse(t[0]);
        OneThen(t[0], e, rest);
        KeptStep(t[0], e + rest, InDouble);
    }
  }

  /** One character the scan does not stop at. */
  lemma KeptStep(c: char, s: string, f: Flags)
    requires Scan(f, c).Some?
    ensures KeptLength([c] + s, f) == 1 + KeptLength(s, Scan(f, c).value)
  {
    assert ([c] + s)[1..] == s;
  }

  lemma OneThen(c: char, x: string, y: string)
    ensures [c] + x + y == [c] + (x + y)
  {
  }

  lemma PairThen(a: char, b: char, x: string, y: string)
    ensures [a, b] + x + y == [a] + ([b] + (x + y))
  {
  }

  /** The whole of a quoted scalar is kept by the scan, whatever `#` it holds. */
  lemma QuotedKept(quote: char, body: string, inside: Flags)
    requires (quote == '\'' && inside == InSingle) || (quote == '"' && inside == InDouble)
    requires KeptLength(body + [quote], inside) == |body| + KeptLength([quote], inside)
    ensures var text := [quote] + body + [quote];
            KeptLength(text, Outside) == |text| && RStrip(text) == text && Strip(text) == text
  {
    var text := [quote] + body + [quote];
    assert text[1..] == body + [quote];
    assert [quote][1..] == [];
    StripNoSpaceEnds(text);
  }

  /** A single-quoted scalar written with doubled quotes reads back as the original text. */
  lemma SingleQuotedRoundTrip(t: string)
    ensures NormalizeScalar("'" + DoubleQuotes(t) + "'") == Ok(t)
  {
    var body := DoubleQuotes(t);
    var text := "'" + body + "'";
    SingleBodyKept(t, "'");
    QuotedKept('\'', body, InSingle);
    assert text[..|text|] == text;
    assert text[1..|text| - 1] == body;
    FoldDoubleQuotes(t);
  }

  /** A double-quoted scalar written with escapes reads back as the original text. */
  lemma DoubleQuotedRoundTrip(t: string)
    ensures NormalizeScalar("\"" + Escape(t) + "\"") == Ok(t)
  {
    var body := Escape(t);
    var text := "\"" + body + "\"";
    DoubleBodyKept(t, "\"");
    QuotedKept('"', body, InDouble);
    assert text[..|text|] == text;
    assert text[1..|text| - 1] == body;
    UnescapeEscape(t);
  }

  // ---------------------------------------------------------------------------
  // _consume_block_scalar: the header and the chomping

  /** How the final line breaks of a block scalar are treated. */
  datatype Chomp = Clip | Keep | StripBreaks

  predicate IsIndicatorStop(c: char) {
    c == ' ' || c == '\t' || c == '#'
  }

  /** Where the indicator token ends: at the first blank, tab or `#`. */
  function TokenEnd(s: string): (n: nat)
    ensures n <= |s|
    ensures forall i :: 0 <= i < n ==> !IsIndicatorStop(s[i])
    ensures n < |s| ==> IsIndicatorStop(s[n])
    decreases |s|
  {
    if s == [] || IsIndicatorStop(s[0]) then 0 else 1 + TokenEnd(s[1..])
  }

  /** The indicator token: the characters before the first stop, or the first character when
      that is already a stop. */
  function IndicatorToken(indicator: string): (token: string)
    requires indicator != []
    ensures token != [] && token[0] == indicator[0]
  {
    var n := TokenEnd(indicator);
    if n == 0 then [indicator[0]] else indicator[..n]
  }

  /** The chomping the header's remaining characters select: the last `+` or `-` decides. */
  function ChompOf(chars: string): Chomp {
    if chars == [] then Clip
    else
      var c := chars[|chars| - 1];
      if c == '+' then Keep else if c == '-' then StripBreaks else ChompOf(chars[..|chars| - 1])
  }

  /** The header parse of `_consume_block_scalar`: the style is the first character of the
      indicator, and the chomping comes from the rest of its token. */
  method ParseIndicator(indicator: string) returns (style: char, chomp: Chomp)
    requires indicator != ""
    ensures style == indicator[0]
    ensures chomp == ChompOf(IndicatorToken(indicator)[1..])
  {
    var token := "";
    var i := 0;
    while i < |indicator|
      invariant 0 <= i <= |indicator|
      invariant token == indicator[..i]
      invariant TokenEnd(indicator) == i + TokenEnd(indicator[i..])
    {
      var c := indicator[i];
      if c == ' ' || c == '\t' || c == '#' {
        break;
      }
      assert indicator[i..][1..] == indicator[i + 1..];
      token := token + [c];
      i := i + 1;
    }
    if token == [] {
      token := [indicator[0]];
    }
    assert token == IndicatorToken(indicator);
    assert token[1..|token|] == token[1..];
    style := token[0];
    chomp := Clip;
    for j := 1 to |token|
      invariant chomp == ChompOf(token[1..j])
    {
      ghost var seen := token[1..j + 1];
      assert seen[..j - 1] == token[1..j] && seen[j - 1] == token[j];
      if token[j] == '+' {
        chomp := Keep;
      } else if token[j] == '-' {
        chomp := StripBreaks;
      }
    }
  }

  /** Some `sign` in `chars` has no `other` after it. */
  predicate LastSign(chars: string, sign: char, other: char) {
    exists i :: 0 <= i < |chars| && chars[i] == sign && forall j :: i < j < |chars| ==> chars[j] != other
  }

  /** The last sign wins: clip without signs, otherwise the chomping of the last `+` or `-`. */
  lemma {:induction false} ChompOfLastSign(chars: string)
    ensures ChompOf(chars) == Clip <==> '+' !in chars && '-' !in chars
    ensures ChompOf(chars) == Keep <==> LastSign(chars, '+', '-')
    ensures ChompOf(chars) == StripBreaks <==> LastSign(chars, '-', '+')
    decreases |chars|
  {
    if chars != [] {
      var n := |chars| - 1;
      var front := chars[..n];
      assert chars == front + [chars[n]];
      ChompOfLastSign(front);
      LastSignStep(chars, '+', '-');
      LastSignStep(chars, '-', '+');
      if chars[n] == '+' || chars[n] == '-' {
        assert chars[n] in chars;
      }
    }
  }

  /** How one more character changes whether a `sign` is last. */
  lemma LastSignStep(chars: string, sign: char, other: char)
    requires chars != [] && sign != other
    ensures var n := |chars| - 1;
            && (chars[n] == sign ==> LastSign(chars, sign, other))
            && (chars[n] == other ==> !LastSign(chars, sign, other))
            && (chars[n] != sign && chars[n] != other ==>
                  (LastSign(chars, sign, other) <==> LastSign(chars[..n], sign, other)))
  {
    var n := |chars| - 1;
    var front := chars[..n];
    if chars[n] == sign {
      assert chars[n] == sign;
    } else if chars[n] != other {
      if LastSign(chars, sign, other) {
        var i :| 0 <= i < |chars| && chars[i] == sign && forall j :: i < j < |chars| ==> chars[j] != other;
        assert i < n && front[i] == sign;
        assert forall j :: i < j < |front| ==> front[j] == chars[j];
      }
      if LastSign(front, sign, other) {
        var i :| 0 <= i < |front| && front[i] == sign && forall j :: i < j < |front| ==> front[j] != other;
        assert chars[i] == sign;
        assert forall j :: i < j < n ==> chars[j] == front[j];
      }
    }
  }

  /** The chomping step of `_consume_block_scalar` on the assembled value. */
  function Chomped(value: string, chomp: Chomp, hasAnyLines: bool): (r: string)
    ensures chomp == StripBreaks ==> r == [] || r[|r| - 1] != '\n'
    ensures chomp == Clip && hasAnyLines ==>
              |r| >= 1 && r[|r| - 1] == '\n' && (|r| == 1 || r[|r| - 2] != '\n')
    ensures chomp == Keep && hasAnyLines ==> |r| >= 1 && r[|r| - 1] == '\n'
    ensures chomp == Keep ==> |value| <= |r| <= |value| + 1 && value == r[..|value|]
    ensures chomp != StripBreaks && !hasAnyLines ==> r == value
    ensures chomp != Keep ==> (r == value || r == RStripChars(value, {'\n'}) || r == RStripChars(value, {'\n'}) + "\n")
  {
    match chomp
    case StripBreaks => RStripChars(value, {'\n'})
    case Clip => if hasAnyLines then RStripChars(value, {'\n'}) + "\n" else value
    case Keep => if hasAnyLines && !EndsWith(value, "\n") then value + "\n" else value
  }

  /** Chomping twice is chomping once. */
  lemma ChompedIdempotent(value: string, chomp: Chomp, hasAnyLines: bool)
    ensures Chomped(Chomped(value, chomp, hasAnyLines), chomp, hasAnyLines) == Chomped(value, chomp, hasAnyLines)
  {
    var once := Chomped(value, chomp, hasAnyLines);
    match chomp
    case StripBreaks =>
      assert RStripChars(once, {'\n'}) == once;
    case Clip =>
      if hasAnyLines {
        var core := RStripChars(value, {'\n'});
        assert once[..|once| - 1] == core;
        assert RStripChars(once, {'\n'}) == RStripChars(core, {'\n'}) == core;
      }
    case Keep =>
  }

  /** Chomping only touches the trailing line breaks: the text without them is the same
      under every chomping. */
  lemma ChompedSameText(value: string, chomp: Chomp, hasAnyLines: bool)
    ensures RStripChars(Chomped(value, chomp, hasAnyLines), {'\n'}) == RStripChars(value, {'\n'})
  {
    var core := RStripChars(value, {'\n'});
    assert RStripChars(core, {'\n'}) == core;
    match chomp
    case StripBreaks =>
    case Clip =>
      if hasAnyLines {
        var once := core + "\n";
        assert once[..|once| - 1] == core;
      }
    case Keep =>
      if hasAnyLines && !EndsWith(value, "\n") {
        var once := value + "\n";
        assert once[..|once| - 1] == value;
      }
  }
}
