/** Splitting one line of the Prometheus text exposition format into its metric, value and
    optional timestamp. Tokens are cut from the right; whitespace inside a quoted label value does
    not end a token, and a quote counts only when an even run of backslashes precedes it. */
module PromSample {
  import opened Wrappers
  import opened Text

  /** The number of consecutive backslashes immediately before `index`. */
  function BackslashRun(text: string, index: nat): (r: nat)
    requires index <= |text|
    ensures r <= index
    ensures forall j :: index - r <= j < index ==> text[j] == '\\'
    ensures r < index ==> text[index - r - 1] != '\\'
  {
    if index == 0 || text[index - 1] != '\\' then 0 else BackslashRun(text, index - 1) + 1
  }

  /** `n` is even, counted down two at a time. */
  predicate Even(n: nat)
    decreases n
  {
    if n < 2 then n == 0 else Even(n - 2)
  }

  lemma {:induction false} EvenMod(n: nat)
    ensures Even(n) <==> n % 2 == 0
    decreases n
  {
    if n >= 2 {
      EvenMod(n - 2);
    }
  }

  /** A quote that is not escaped: the backslashes right before it pair off. */
  predicate UnescapedQuote(text: string, index: nat)
    requires index < |text|
  {
    text[index] == '"' && Even(BackslashRun(text, index))
  }

  /** `_is_unescaped_quote`: walks left over the backslashes before `index`, counting them. */
  method IsUnescapedQuote(text: string, index: nat) returns (r: bool)
    requires index < |text|
    ensures r <==> UnescapedQuote(text, index)
  {
    if text[index] != '"' {
      return false;
    }
    var count := 0;
    var cursor := index as int - 1;
    while cursor >= 0 && text[cursor] == '\\'
      invariant -1 <= cursor < index && count == index - 1 - cursor
      invariant BackslashRun(text, index) == count + BackslashRun(text, cursor + 1)
      decreases cursor + 1
    {
      count := count + 1;
      cursor := cursor - 1;
    }
    EvenMod(count);
    return count % 2 == 0;
  }

  /** Where a backward token scan stopped, and whether it was inside quotes then. */
  datatype Stop = Stop(cursor: int, inQuotes: bool)

  /** The scan loop of `extract_token`: from `c` leftwards, an unescaped quote toggles the
      quote state, and whitespace outside quotes stops the scan. */
  function ScanBack(text: string, c: int, inQuotes: bool): (r: Stop)
    requires -1 <= c < |text|
    ensures -1 <= r.cursor <= c
    ensures r.cursor >= 0 ==> !r.inQuotes && IsSpace(text[r.cursor])
    decreases c + 1
  {
    if c < 0 then Stop(c, inQuotes)
    else if text[c] == '"' && UnescapedQuote(text, c) then ScanBack(text, c - 1, !inQuotes)
    else if !inQuotes && IsSpace(text[c]) then Stop(c, inQuotes)
    else ScanBack(text, c - 1, inQuotes)
  }

  /** The first loop of `extract_token`: the last non-whitespace position at or before `c`. */
  function SkipSpaceBack(text: string, c: int): (r: int)
    requires -1 <= c < |text|
    ensures -1 <= r <= c
    ensures forall j :: r < j <= c ==> IsSpace(text[j])
    ensures r >= 0 ==> !IsSpace(text[r])
    decreases c + 1
  {
    if c >= 0 && IsSpace(text[c]) then SkipSpaceBack(text, c - 1) else c
  }

  /** A token and the cursor left just before it. */
  datatype Token = Token(text: string, cursor: int)

  /** `extract_token(text, index)`: `None` when only whitespace remains at or before `index`. */
  function ExtractToken(text: string, index: int): (r: Option<Token>)
    requires -1 <= index < |text|
    ensures r.Some? ==> -1 <= r.value.cursor < index && r.value.text != []
  {
    var end := SkipSpaceBack(text, index);
    if end < 0 then None
    else
      var stop := ScanBack(text, end, false);
      assert !IsSpace(text[end]);
      Some(Token(text[stop.cursor + 1..end + 1], stop.cursor))
  }

  /** `extract_token`, with its two backward loops. */
  method ExtractTokenAt(text: string, index: int) returns (r: Option<Token>)
    requires -1 <= index < |text|
    ensures r == ExtractToken(text, index)
  {
    var end := SkipSpaceBackAt(text, index);
    if end < 0 {
      ExtractTokenNone(text, index, end);
      return None;
    }
    var cursor := ScanBackAt(text, end);
    ExtractTokenSome(text, index, end, cursor);
    return Some(Token(text[cursor + 1..end + 1], cursor));
  }

  /** Only whitespace at or before `index`: no token. */
  lemma {:induction false} ExtractTokenNone(text: string, index: int, end: int)
    requires -1 <= index < |text|
    requires end == SkipSpaceBack(text, index) && end < 0
    ensures ExtractToken(text, index) == None
  {
  }

  /** A token ends at the last non-whitespace position and starts after where the scan stopped. */
  lemma {:induction false} ExtractTokenSome(text: string, index: int, end: int, cursor: int)
    requires -1 <= index < |text|
    requires end == SkipSpaceBack(text, index) && end >= 0
    requires cursor == ScanBack(text, end, false).cursor
    ensures -1 <= cursor <= end
    ensures ExtractToken(text, index) == Some(Token(text[cursor + 1..end + 1], cursor))
  {
  }

  /** The first loop of `extract_token`: back over trailing whitespace. */
  method SkipSpaceBackAt(text: string, index: int) returns (cursor: int)
    requires -1 <= index < |text|
    ensures cursor == SkipSpaceBack(text, index)
  {
    cursor := index;
    while cursor >= 0 && IsSpace(text[cursor])
      invariant -1 <= cursor <= index
      invariant SkipSpaceBack(text, cursor) == SkipSpaceBack(text, index)
      decreases cursor + 1
    {
      cursor := cursor - 1;
    }
  }

  /** The second loop of `extract_token`: back to the whitespace outside quotes before the
      token, toggling the quote state at each unescaped quote. */
  method ScanBackAt(text: string, end: int) returns (cursor: int)
    requires 0 <= end < |text|
    ensures cursor == ScanBack(text, end, false).cursor
  {
    cursor := end;
    var inQuotes := false;
    while cursor >= 0
      invariant -1 <= cursor <= end
      invariant ScanBack(text, cursor, inQuotes) == ScanBack(text, end, false)
      decreases cursor + 1
    {
      var ch := text[cursor];
      if ch == '"' {
        var unescaped := IsUnescapedQuote(text, cursor);
        if unescaped {
          inQuotes := !inQuotes;
          cursor := cursor - 1;
          continue;
        }
      }
      if !inQuotes && IsSpace(ch) {
        break;
      }
      cursor := cursor - 1;
    }
  }

  /** A parsed sample line: metric (with its labels), value text and optional timestamp text. */
  datatype Sample = Sample(metric: string, value: string, timestamp: Option<string>)

  /** `_split_prometheus_sample`. */
  function SplitSample(line: string): (r: Option<Sample>)
    ensures Strip(line) == [] || Strip(line)[0] == '#' ==> r.None?
    ensures r.Some? ==> r.value.metric != [] && r.value.value != []
  {
    var stripped := Strip(line);
    if stripped == [] || stripped[0] == '#' then None else CutSample(stripped)
  }

  /** A stripped, uncommented line: its last token is cut off and the rest assembled. */
  function CutSample(stripped: string): (r: Option<Sample>)
    requires stripped != []
    ensures r.Some? ==> r.value.metric != [] && r.value.value != []
  {
    var first := ExtractToken(stripped, |stripped| - 1);
    if first.None? then None
    else Assemble(stripped[..first.value.cursor + 1], first.value.text)
  }

  /** The rest of `_split_prometheus_sample` once the last token `last` is cut off, leaving
      `metricAndValue`: a second token makes `last` the timestamp, unless nothing precedes it. */
  function Assemble(metricAndValue: string, last: string): (r: Option<Sample>)
    requires last != []
    ensures r.Some? ==> r.value.metric != [] && r.value.value != []
  {
    var second := ExtractToken(metricAndValue, |metricAndValue| - 1);
    var head := if second.None? then [] else Strip(metricAndValue[..second.value.cursor + 1]);
    if head == [] then
      var metric := Strip(metricAndValue);
      if metric == [] then None else Some(Sample(metric, last, None))
    else Some(Sample(head, second.value.text, Some(last)))
  }

  /** `_split_prometheus_sample`, cutting its two tokens with the backward scanner. */
  method SplitPrometheusSample(line: string) returns (r: Option<Sample>)
    ensures r == SplitSample(line)
  {
    var stripped := Strip(line);
    if stripped == [] || stripped[0] == '#' {
      return None;
    }
    var first := ExtractTokenAt(stripped, |stripped| - 1);
    if first.None? {
      return None;
    }
    var last := first.value.text;
    var metricAndValue := stripped[..first.value.cursor + 1];
    var second := ExtractTokenAt(metricAndValue, |metricAndValue| - 1);
    var metric: string;
    var value: string;
    var timestamp: Option<string>;
    if second.None? {
      metric := Strip(metricAndValue);
      if metric == [] {
        return None;
      }
      value, timestamp := last, None;
    } else {
      var head := Strip(metricAndValue[..second.value.cursor + 1]);
      if head == [] {
        metric := Strip(metricAndValue);
        if metric == [] {
          return None;
        }
        value, timestamp := last, None;
      } else {
        metric, value, timestamp := head, second.value.text, Some(last);
      }
    }
    return Some(Sample(metric, value, timestamp));
  }

  // ---------------------------------------------------------------------------------------
  // How the scan composes over concatenated text.

  /** Text before position `|p|` does not change a backslash run that starts after it. */
  lemma {:induction false} BackslashRunShift(p: string, b: string, j: nat)
    requires p == [] || p[|p| - 1] != '\\'
    requires j <= |b|
    ensures BackslashRun(p + b, |p| + j) == BackslashRun(b, j)
    decreases j
  {
    if j > 0 && b[j - 1] == '\\' {
      assert (p + b)[|p| + j - 1] == b[j - 1];
      BackslashRunShift(p, b, j - 1);
    } else if j > 0 {
      assert (p + b)[|p| + j - 1] == b[j - 1];
    }
  }

  /** Text after position `j` does not change the backslash run before it. */
  lemma {:induction false} BackslashRunExtend(a: string, b: string, j: nat)
    requires j <= |a|
    ensures BackslashRun(a + b, j) == BackslashRun(a, j)
    decreases j
  {
    if j > 0 {
      assert (a + b)[j - 1] == a[j - 1];
      BackslashRunExtend(a, b, j - 1);
    }
  }

  /** Position `c` of `b` reads the same inside `p + b`. */
  lemma QuoteShift(p: string, b: string, c: nat)
    requires p == [] || p[|p| - 1] != '\\'
    requires c < |b|
    ensures (p + b)[|p| + c] == b[c]
    ensures UnescapedQuote(p + b, |p| + c) <==> UnescapedQuote(b, c)
  {
    BackslashRunShift(p, b, c);
  }

  /** Where the scan of `t` ends when a scan of its suffix from `n` on stopped at `s`: a stop
      inside the suffix is final; otherwise the scan goes on before `n`. */
  function Resume(t: string, n: int, s: Stop): Stop
    requires 0 <= n <= |t| && s.cursor < |t| - n
  {
    if s.cursor >= 0 then Stop(n + s.cursor, false) else ScanBack(t, n - 1, s.inQuotes)
  }

  /** The scan of `p + b` runs as the scan of `b` alone until it leaves `b`. */
  lemma ScanShift(p: string, b: string, c: int, q: bool)
    requires p == [] || p[|p| - 1] != '\\'
    requires -1 <= c < |b|
    ensures ScanBack(b, c, q).cursor >= 0 ==>
      ScanBack(p + b, |p| + c, q) == Stop(|p| + ScanBack(b, c, q).cursor, false)
    ensures ScanBack(b, c, q).cursor < 0 ==>
      ScanBack(p + b, |p| + c, q) == ScanBack(p + b, |p| - 1, ScanBack(b, c, q).inQuotes)
  {
    ScanResumes(p, b, c, q);
  }

  lemma {:induction false} ScanResumes(p: string, b: string, c: int, q: bool)
    requires p == [] || p[|p| - 1] != '\\'
    requires -1 <= c < |b|
    ensures ScanBack(p + b, |p| + c, q) == Resume(p + b, |p|, ScanBack(b, c, q))
    decreases c + 1
  {
    if c >= 0 {
      QuoteShift(p, b, c);
      if b[c] == '"' && UnescapedQuote(b, c) {
        ScanResumes(p, b, c - 1, !q);
      } else if !q && IsSpace(b[c]) {
      } else {
        ScanResumes(p, b, c - 1, q);
      }
    }
  }

  /** The scan up to `c` sees nothing after `c`. */
  lemma {:induction false} ScanExtend(a: string, b: string, c: int, q: bool)
    requires -1 <= c < |a|
    ensures ScanBack(a + b, c, q) == ScanBack(a, c, q)
    decreases c + 1
  {
    if c >= 0 {
      assert (a + b)[c] == a[c];
      BackslashRunExtend(a, b, c);
      ScanExtend(a, b, c - 1, !q);
      ScanExtend(a, b, c - 1, q);
    }
  }

  /** A stretch with no quote, where whitespace does not matter inside quotes, is crossed
      without a stop. */
  lemma {:induction false} ScanRun(text: string, lo: int, c: int, q: bool)
    requires -1 <= lo <= c < |text|
    requires forall j :: lo < j <= c ==> text[j] != '"' && (q || !IsSpace(text[j]))
    ensures ScanBack(text, c, q) == ScanBack(text, lo, q)
    decreases c - lo
  {
    if lo < c {
      ScanRun(text, lo, c - 1, q);
    }
  }

  /** One whole token: the scan from its last character reaches its start outside quotes. */
  predicate IsToken(t: string) {
    t != [] && !IsSpace(t[0]) && !IsSpace(t[|t| - 1]) && ScanBack(t, |t| - 1, false) == Stop(-1, false)
  }

  /** Text without quotes, backslashes or whitespace is one token. */
  lemma PlainToken(t: string)
    requires t != []
    requires forall j :: 0 <= j < |t| ==> t[j] != '"' && t[j] != '\\' && !IsSpace(t[j])
    ensures IsToken(t)
  {
    ScanRun(t, -1, |t| - 1, false);
  }

  /** `text` as `a + " " + b` with `b` one token: the token is `b`, and the scan stops on the
      separating space. */
  lemma TokenAfterSpace(a: string, b: string)
    requires IsToken(b)
    ensures ExtractToken(a + " " + b, |a| + |b|) == Some(Token(b, |a|))
  {
    var text := a + " " + b;
    var last := |a| + |b|;
    assert text[last] == b[|b| - 1];
    assert SkipSpaceBack(text, last) == last;
    ScanAfterSpace(a, b);
    assert text[|a| + 1..last + 1] == b;
  }

  /** The scan from the end of a token `b` that follows a blank stops on that blank. */
  lemma ScanAfterSpace(a: string, b: string)
    requires IsToken(b)
    ensures ScanBack(a + " " + b, |a| + |b|, false) == Stop(|a|, false)
  {
    var p := a + " ";
    var text := p + b;
    ScanShift(p, b, |b| - 1, false);
    assert ScanBack(text, |a| + |b|, false) == ScanBack(text, |a|, false);
    assert text[|a|] == ' ';
    SpaceStops(text, |a|);
  }

  /** Whitespace outside quotes stops the scan where it stands. */
  lemma SpaceStops(text: string, c: nat)
    requires c < |text| && text[c] == ' '
    ensures ScanBack(text, c, false) == Stop(c, false)
  {
    assert IsSpace(text[c]);
  }

  /** The last token of `a + " "` when `a` is one token: all of `a`, with nothing before it. */
  lemma WholeTokenBeforeSpace(a: string)
    requires IsToken(a)
    ensures ExtractToken(a + " ", |a|) == Some(Token(a, -1))
  {
    var text := a + " ";
    assert text[|a|] == ' ' && text[|a| - 1] == a[|a| - 1];
    assert SkipSpaceBack(text, |a|) == |a| - 1;
    ScanExtend(a, " ", |a| - 1, false);
    assert text[..|a|] == a;
  }

  /** `strip` drops the one blank after a token. */
  lemma StripTokenBlank(t: string)
    requires IsToken(t)
    ensures Strip(t + " ") == t
  {
    assert (t + " ")[..|t|] == t;
    StripNoSpaceEnds(t);
  }

  /** `TokenAfterSpace` with one trailing blank, which the token scan skips first. */
  lemma TokenAfterSpaceThenBlank(a: string, b: string)
    requires IsToken(b)
    ensures ExtractToken(a + " " + b + " ", |a| + |b| + 1) == Some(Token(b, |a|))
  {
    var front := a + " " + b;
    assert front[|front| - 1] == b[|b| - 1];
    BlankSkipped(front);
    TokenAfterSpace(a, b);
  }

  /** The token scan skips one trailing blank. */
  lemma BlankSkipped(front: string)
    requires front != [] && !IsSpace(front[|front| - 1])
    ensures ExtractToken(front + " ", |front|) == ExtractToken(front, |front| - 1)
  {
    var last := |front| - 1;
    SkipOneBlank(front);
    ScanExtend(front, " ", last, false);
    SliceBefore(front, " ", ScanBack(front, last, false).cursor + 1, last + 1);
  }

  lemma SkipOneBlank(front: string)
    requires front != [] && !IsSpace(front[|front| - 1])
    ensures SkipSpaceBack(front + " ", |front|) == |front| - 1
  {
    var text := front + " ";
    assert text[|front|] == ' ' && text[|front| - 1] == front[|front| - 1];
  }

  lemma SliceBefore(a: string, b: string, i: int, j: int)
    requires 0 <= i <= j <= |a|
    ensures (a + b)[i..j] == a[i..j]
  {
  }

  /** With only the metric token left, the last token is the value. */
  lemma AssembleMetricOnly(metric: string, last: string)
    requires IsToken(metric) && last != []
    ensures Assemble(metric + " ", last) == Some(Sample(metric, last, None))
  {
    WholeTokenBeforeSpace(metric);
    assert (metric + " ")[..0] == [];
    StripTokenBlank(metric);
  }

  /** With a metric and a value token left, the last token is the timestamp. */
  lemma AssembleMetricValue(metric: string, value: string, last: string)
    requires IsToken(metric) && IsToken(value) && last != []
    ensures Assemble(metric + " " + value + " ", last) == Some(Sample(metric, value, Some(last)))
  {
    TokenAfterSpaceThenBlank(metric, value);
    LeadOfLine(metric, value);
    StripTokenBlank(metric);
    AssembleAtSecond(metric + " " + value + " ", metric, value, last);
  }

  lemma LeadOfLine(a: string, b: string)
    ensures (a + " " + b + " ")[..|a| + 1] == a + " "
  {
  }

  /** When a second token is cut and text precedes it, the line has a timestamp. */
  lemma AssembleAtSecond(metricAndValue: string, metric: string, value: string, last: string)
    requires last != [] && metric != [] && |metric| < |metricAndValue|
    requires ExtractToken(metricAndValue, |metricAndValue| - 1) == Some(Token(value, |metric|))
    requires metricAndValue[..|metric| + 1] == metric + " " && Strip(metric + " ") == metric
    ensures Assemble(metricAndValue, last) == Some(Sample(metric, value, Some(last)))
  {
  }

  /** A metric token and a value token: no timestamp. */
  lemma {:induction false} TwoTokens(metric: string, value: string)
    requires IsToken(metric) && IsToken(value) && metric[0] != '#'
    ensures SplitSample(metric + " " + value) == Some(Sample(metric, value, None))
  {
    var line := metric + " " + value;
    EndsOfJoin(metric, value);
    StripNoSpaceEnds(line);
    TokenAfterSpace(metric, value);
    SplitAtLastToken(line, Token(value, |metric|));
    SliceBefore(metric + " ", value, 0, |metric| + 1);
    AssembleMetricOnly(metric, value);
  }

  lemma EndsOfJoin(a: string, b: string)
    requires a != [] && b != []
    ensures var line := a + " " + b; line[0] == a[0] && line[|line| - 1] == b[|b| - 1]
  {
  }

  /** Once the last token of a stripped, uncommented line is cut, the rest is assembled. */
  lemma SplitAtLastToken(line: string, last: Token)
    requires line != [] && line[0] != '#' && Strip(line) == line
    requires ExtractToken(line, |line| - 1) == Some(last)
    ensures SplitSample(line) == Assemble(line[..last.cursor + 1], last.text)
  {
    assert SplitSample(line) == CutSample(line);
  }

  /** Metric, value and timestamp tokens: the last is the timestamp, the middle the value. */
  lemma {:induction false} ThreeTokens(metric: string, value: string, timestamp: string)
    requires IsToken(metric) && IsToken(value) && IsToken(timestamp) && metric[0] != '#'
    ensures SplitSample(metric + " " + value + " " + timestamp)
      == Some(Sample(metric, value, Some(timestamp)))
  {
    var front := metric + " " + value;
    var line := front + " " + timestamp;
    EndsOfJoin(front, timestamp);
    assert front[0] == metric[0];
    StripNoSpaceEnds(line);
    TokenAfterSpace(front, timestamp);
    SplitAtLastToken(line, Token(timestamp, |front|));
    SliceBefore(front + " ", timestamp, 0, |front| + 1);
    AssembleMetricValue(metric, value, timestamp);
  }

  /** Text free of quotes, backslashes and whitespace. */
  predicate Bare(t: string) {
    forall j :: 0 <= j < |t| ==> t[j] != '"' && t[j] != '\\' && !IsSpace(t[j])
  }

  /** The backward scan crosses all of `t` and leaves it outside quotes. */
  predicate Crossed(t: string) {
    ScanBack(t, |t| - 1, false) == Stop(-1, false)
  }

  /** Two stretches the scan crosses, the first not ending in a backslash, are crossed together. */
  lemma {:induction false} CrossedConcat(a: string, b: string)
    requires Crossed(a) && Crossed(b)
    requires a == [] || a[|a| - 1] != '\\'
    ensures Crossed(a + b)
  {
    ScanShift(a, b, |b| - 1, false);
    ScanExtend(a, b, |a| - 1, false);
  }

  lemma BareCrossed(t: string)
    requires Bare(t)
    ensures Crossed(t)
  {
    ScanRun(t, -1, |t| - 1, false);
  }

  /** A label value as it stands between its quotes: every quote in it is escaped by an odd run
      of backslashes, and it does not end in an odd run, which would escape the closing quote. */
  predicate QuotedBody(v: string) {
    (forall j :: 0 <= j < |v| && v[j] == '"' ==> !Even(BackslashRun(v, j)))
    && Even(BackslashRun(v, |v|))
  }

  /** Inside quotes, a stretch whose quotes are all escaped is crossed without a stop, whatever
      whitespace it holds. */
  lemma {:induction false} EscapedRun(text: string, lo: nat, c: nat)
    requires lo <= c < |text|
    requires forall j :: lo < j <= c && text[j] == '"' ==> !UnescapedQuote(text, j)
    ensures ScanBack(text, c, true) == ScanBack(text, lo, true)
    decreases c - lo
  {
    if lo < c {
      EscapedRun(text, lo, c - 1);
    }
  }

  /** `"v"` is crossed: the closing quote opens the quoted stretch, the escaped quotes inside do
      not end it, and the opening quote closes it. */
  lemma {:induction false} QuotedCrossed(v: string)
    requires QuotedBody(v)
    ensures Crossed("\"" + v + "\"")
  {
    var t := "\"" + v + "\"";
    var close := |v| + 1;
    assert t == "\"" + (v + "\"");
    forall j | 0 <= j <= |v|
      ensures BackslashRun(t, 1 + j) == BackslashRun(v, j)
    {
      BackslashRunShift("\"", v + "\"", j);
      BackslashRunExtend(v, "\"", j);
    }
    assert t[close] == '"' && BackslashRun(t, close) == BackslashRun(v, |v|);
    assert ScanBack(t, close, false) == ScanBack(t, close - 1, true);
    forall j | 0 < j < close && t[j] == '"'
      ensures !UnescapedQuote(t, j)
    {
      assert t[j] == v[j - 1];
      assert BackslashRun(t, 1 + (j - 1)) == BackslashRun(v, j - 1);
    }
    EscapedRun(t, 0, close - 1);
    assert t[0] == '"' && BackslashRun(t, 0) == 0;
  }

  /** An escape pair in front of an escaped value leaves it escaped. */
  lemma {:induction false} PairQuoted(pair: string, w: string)
    requires |pair| == 2 && pair[0] == '\\' && QuotedBody(w)
    ensures QuotedBody(pair + w)
  {
    var v := pair + w;
    forall j | 0 <= j < |v| && v[j] == '"'
      ensures !Even(BackslashRun(v, j))
    {
      if j == 1 {
        assert BackslashRun(v, 1) == 1;
      } else {
        assert v[j] == w[j - 2];
        PairParity(pair, w, j - 2);
      }
    }
    PairParity(pair, w, |w|);
  }

  /** A character other than a quote or a backslash in front of an escaped value leaves it
      escaped. */
  lemma {:induction false} PlainQuoted(c: string, w: string)
    requires |c| == 1 && c[0] != '\\' && c[0] != '"' && QuotedBody(w)
    ensures QuotedBody(c + w)
  {
    var v := c + w;
    forall j | 0 <= j <= |w|
      ensures BackslashRun(v, 1 + j) == BackslashRun(w, j)
    {
      BackslashRunShift(c, w, j);
    }
    forall j | 0 <= j < |v| && v[j] == '"'
      ensures !Even(BackslashRun(v, j))
    {
      assert v[j] == w[j - 1];
      assert BackslashRun(v, 1 + (j - 1)) == BackslashRun(w, j - 1);
    }
    assert BackslashRun(v, 1 + |w|) == BackslashRun(w, |w|);
  }

  /** One more backslash flips the parity. */
  lemma EvenStep(n: nat)
    ensures Even(n + 1) <==> !Even(n)
  {
    EvenMod(n + 1);
    EvenMod(n);
  }

  /** An escape pair before `w` keeps the parity of every backslash run inside `w`. */
  lemma {:induction false} PairParity(pair: string, w: string, j: nat)
    requires |pair| == 2 && pair[0] == '\\'
    requires j <= |w|
    ensures Even(BackslashRun(pair + w, 2 + j)) <==> Even(BackslashRun(w, j))
    decreases j
  {
    var t := pair + w;
    if j > 0 && w[j - 1] == '\\' {
      assert t[2 + j - 1] == w[j - 1];
      PairParity(pair, w, j - 1);
      EvenStep(BackslashRun(t, 2 + (j - 1)));
      EvenStep(BackslashRun(w, j - 1));
    } else if j > 0 {
      assert t[2 + j - 1] == w[j - 1];
    } else {
      assert t[1] == pair[1] && t[0] == '\\';
      assert BackslashRun(t, 1) == 1;
    }
  }
}
