/** `tools/ci/check_governance_gate.py` of the workflow cookbook: the forbidden-path policy
    reader, changed-path normalisation, pattern variants and forbidden-path matching. */
module GovernanceGate {
  import opened Wrappers
  import opened Text
  import opened Json
  import Paths

  // ---------------------------------------------------------------------------
  // _strip_inline_comment

  /** What `_strip_inline_comment` does on one character in the given quote state: stop at
      a `#` outside quotes, or move on by one character (two after a backslash inside double
      quotes, which takes the next character with it) in the new quote state. */
  datatype ScanMove = Stop | Advance(width: nat, inSingle: bool, inDouble: bool)

  function ScanStep(c: char, inSingle: bool, inDouble: bool): (r: ScanMove)
    ensures r.Stop? <==> c == '#' && !inSingle && !inDouble
    ensures r.Advance? ==> 1 <= r.width <= 2
  {
    if c == '#' && !inSingle && !inDouble then Stop
    else if c == '\'' && !inDouble then Advance(1, !inSingle, inDouble)
    else if c == '"' && !inSingle then Advance(1, inSingle, !inDouble)
    else if c == '\\' && inDouble then Advance(2, inSingle, inDouble)
    else Advance(1, inSingle, inDouble)
  }

  /** Where `_strip_inline_comment` stops when it scans from `i` in the given quote state:
      the first `#` outside quotes, or the end of the text. */
  function CommentFrom(text: string, i: nat, inSingle: bool, inDouble: bool): (r: nat)
    requires i <= |text|
    ensures i <= r <= |text|
    ensures r < |text| ==> text[r] == '#'
    decreases |text| - i
  {
    if i == |text| then |text|
    else
      match ScanStep(text[i], inSingle, inDouble)
      case Stop => i
      case Advance(width, nextSingle, nextDouble) =>
        if i + width > |text| then |text| else CommentFrom(text, i + width, nextSingle, nextDouble)
  }

  /** Where the inline comment of `text` begins (`|text|` when it has none). */
  function CommentStart(text: string): (r: nat)
    ensures r <= |text|
    ensures r < |text| ==> text[r] == '#'
  {
    CommentFrom(text, 0, false, false)
  }

  /** `_strip_inline_comment`: the text before its inline comment, right-trimmed. */
  method StripInlineComment(text: string) returns (r: string)
    ensures r == RStrip(text[..CommentStart(text)])
  {
    var inSingle, inDouble := false, false;
    var result: string := [];
    var index := 0;
    var length := |text|;
    while index < length
      invariant 0 <= index <= length + 1
      invariant result == text[..if index <= length then index else length]
      invariant CommentFrom(text, if index <= length then index else length, inSingle, inDouble) == CommentStart(text)
      decreases length + 1 - index
    {
      var c := text[index];
      if c == '#' && !inSingle && !inDouble {
        break;
      }
      assert text[..index + 1] == result + [c];
      result := result + [c];
      if c == '\'' && !inDouble {
        inSingle := !inSingle;
      } else if c == '"' && !inSingle {
        inDouble := !inDouble;
      } else if c == '\\' && inDouble {
        index := index + 1;
        if index < length {
          assert text[..index + 1] == result + [text[index]];
          result := result + [text[index]];
        }
      }
      index := index + 1;
    }
    r := RStrip(result);
  }

  /** Without quotes before it, the first `#` starts the comment. */
  lemma {:induction false} PlainHash(text: string, i: nat, k: nat)
    requires i <= k < |text| && text[k] == '#'
    requires forall j :: i <= j < k ==> text[j] != '#' && text[j] != '\'' && text[j] != '"'
    ensures CommentFrom(text, i, false, false) == k
    decreases k - i
  {
    if i < k {
      PlainHash(text, i + 1, k);
    }
  }

  /** Inside single quotes nothing but the closing quote counts. */
  lemma {:induction false} InsideSingle(text: string, i: nat, j: nat)
    requires i <= j < |text| && text[j] == '\''
    requires forall m :: i <= m < j ==> text[m] != '\''
    ensures CommentFrom(text, i, true, false) == CommentFrom(text, j + 1, false, false)
    decreases j - i
  {
    if i < j {
      InsideSingle(text, i + 1, j);
    }
  }

  /** Scanning a suffix of a text gives the same stop, shifted. */
  lemma {:induction false} ScanShift(t: string, k: nat, i: nat, inSingle: bool, inDouble: bool)
    requires k + i <= |t|
    ensures CommentFrom(t, k + i, inSingle, inDouble) == k + CommentFrom(t[k..], i, inSingle, inDouble)
    decreases |t| - k - i
  {
    if k + i < |t| {
      var u := t[k..];
      assert u[i] == t[k + i];
      var m := ScanStep(t[k + i], inSingle, inDouble);
      if m.Advance? {
        if k + i + m.width <= |t| {
          ScanShift(t, k, i + m.width, m.inSingle, m.inDouble);
          assert CommentFrom(u, i, inSingle, inDouble) == CommentFrom(u, i + m.width, m.inSingle, m.inDouble);
        } else {
          assert CommentFrom(u, i, inSingle, inDouble) == |u|;
        }
      }
    }
  }

  /** A `#` inside a single-quoted value does not start a comment: the scan resumes after the
      closing quote. */
  lemma SingleQuotedHashKept(a: string, b: string)
    requires '\'' !in a
    ensures CommentStart("'" + a + "'" + b) == |a| + 2 + CommentStart(b)
  {
    var t := "'" + a + "'" + b;
    var p := "'" + a + "'";
    assert t == p + b;
    assert t[0] == '\'';
    forall m | 1 <= m < |a| + 1 ensures t[m] != '\'' {
      assert t[m] == a[m - 1];
    }
    InsideSingle(t, 1, |a| + 1);
    assert t[|p|..] == b;
    ScanShift(t, |p|, 0, false, false);
  }

  // ---------------------------------------------------------------------------
  // _generate_pattern_variants

  // The pattern, then the pattern with one, two, ... leading `**/` removed, while one
  // remains and the rest is not empty.
  function Variants(pattern: string): (r: seq<string>)
    ensures r != [] && r[0] == pattern
    ensures forall i :: 0 <= i < |r| ==> |r[i]| == |pattern| - 3 * i && r[i] == pattern[|pattern| - |r[i]|..]
    ensures forall i :: 1 <= i < |r| ==> r[i] != ""
    ensures forall i :: 0 <= i < |r| - 1 ==> StartsWith(r[i], "**/")
    decreases |pattern|
  {
    if StartsWith(pattern, "**/") && pattern[3..] != "" then [pattern] + Variants(pattern[3..]) else [pattern]
  }

  /** Variants are pairwise distinct (each is shorter than the one before it). */
  lemma VariantsDistinct(pattern: string)
    ensures var r := Variants(pattern);
            forall i, j :: 0 <= i < j < |r| ==> r[i] != r[j]
  {
    var r := Variants(pattern);
    forall i, j | 0 <= i < j < |r| ensures r[i] != r[j] {
      assert |r[i]| == |pattern| - 3 * i && |r[j]| == |pattern| - 3 * j;
    }
  }

  // The last variant has no leading `**/` left to remove, unless removing it leaves nothing.
  lemma VariantsComplete(pattern: string)
    ensures var r := Variants(pattern);
            !StartsWith(r[|r| - 1], "**/") || r[|r| - 1] == "**/"
    decreases |pattern|
  {
    if StartsWith(pattern, "**/") && pattern[3..] != "" {
      VariantsComplete(pattern[3..]);
    }
  }

  /** `_generate_pattern_variants`. */
  method GeneratePatternVariants(pattern: string) returns (variants: seq<string>)
    ensures variants == Variants(pattern)
  {
    variants := [pattern];
    var stripped := pattern;
    ghost var done: seq<string> := [];
    while StartsWith(stripped, "**/")
      invariant variants == done + [stripped]
      invariant done + Variants(stripped) == Variants(pattern)
      invariant forall i :: 0 <= i < |variants| ==> |variants[i]| >= |stripped|
      decreases |stripped|
    {
      var next := stripped[3..];
      if next == [] {
        break;
      }
      if next !in variants {
        VariantsStep(done, stripped);
        done := done + [stripped];
        variants := variants + [next];
        stripped := next;
      } else {
        assert false;
      }
    }
  }

  lemma VariantsStep(done: seq<string>, stripped: string)
    requires StartsWith(stripped, "**/") && stripped[3..] != ""
    ensures done + Variants(stripped) == (done + [stripped]) + Variants(stripped[3..])
  {
    assert Variants(stripped) == [stripped] + Variants(stripped[3..]);
  }

  // ---------------------------------------------------------------------------
  // _normalize_changed_path

  /** `s.replace("\\", "/")`. */
  function Slashes(s: string): (r: string)
    ensures |r| == |s| && '\\' !in r
    ensures forall i :: 0 <= i < |s| ==> r[i] == (if s[i] == '\\' then '/' else s[i])
  {
    seq(|s|, i requires 0 <= i < |s| => if s[i] == '\\' then '/' else s[i])
  }

  /** The stripped path with `/` separators and without leading `.` and `/` characters. */
  function Cleaned(path: string): (r: string)
    ensures r == [] || (r[0] != '.' && r[0] != '/')
  {
    LStripChars(Slashes(Strip(path)), {'.', '/'})
  }

  /** The parts left after popping the leading removable prefixes. */
  function DropPrefixes(parts: seq<string>, prefixes: set<string>): (r: seq<string>)
    ensures |r| <= |parts| && r == parts[|parts| - |r|..]
    ensures r != [] ==> r[0] !in prefixes
    ensures forall i :: 0 <= i < |parts| - |r| ==> parts[i] in prefixes
  {
    if parts != [] && parts[0] in prefixes then DropPrefixes(parts[1..], prefixes) else parts
  }

  /** What `_normalize_changed_path` returns; `prefixes` are the directory names it removes
      (the cookbook's own name and the detected repository name). */
  function NormalizedPath(path: string, prefixes: set<string>): string {
    if Strip(path) == "" then ""
    else
      var posix := Paths.FromString(Cleaned(path));
      var kept := DropPrefixes(posix.parts, prefixes);
      if kept == [] then Paths.ToString(posix) else Join(kept, "/")
  }

  /** `_normalize_changed_path`. */
  method NormalizeChangedPath(path: string, prefixes: set<string>) returns (r: string)
    ensures r == NormalizedPath(path, prefixes)
  {
    var stripped := Strip(path);
    if stripped == "" {
      return stripped;
    }
    var cleaned := LStripChars(Slashes(stripped), {'.', '/'});
    var posix := Paths.FromString(cleaned);
    var parts := posix.parts;
    while parts != [] && parts[0] in prefixes
      invariant DropPrefixes(parts, prefixes) == DropPrefixes(posix.parts, prefixes)
      decreases |parts|
    {
      parts := parts[1..];
    }
    if parts == [] {
      return Paths.ToString(posix);
    }
    return Join(parts, "/");
  }

  /** A joined list whose first piece is not empty is not empty. */
  lemma JoinNonEmpty(parts: seq<string>, sep: string)
    requires parts != [] && parts[0] != ""
    ensures Join(parts, sep) != ""
  {
    if |parts| > 1 {
      assert Join(parts, sep) == parts[0] + sep + Join(parts[1..], sep);
    }
  }

  /** Only a blank path normalises to the empty string. */
  lemma NormalizedEmpty(path: string, prefixes: set<string>)
    ensures NormalizedPath(path, prefixes) == "" <==> Strip(path) == ""
  {
    if Strip(path) != "" {
      var posix := Paths.FromString(Cleaned(path));
      var kept := DropPrefixes(posix.parts, prefixes);
      if kept == [] {
        if posix.parts != [] {
          JoinNonEmpty(posix.parts, "/");
        }
      } else {
        JoinNonEmpty(kept, "/");
      }
    }
  }

  /** Reading the normalised path as a path again gives exactly the parts left after the
      prefixes are dropped, as a relative path. */
  lemma NormalizedReparses(path: string, prefixes: set<string>)
    requires Strip(path) != ""
    requires DropPrefixes(Paths.FromString(Cleaned(path)).parts, prefixes) != []
    ensures Paths.FromString(NormalizedPath(path, prefixes))
            == Paths.PurePath("", DropPrefixes(Paths.FromString(Cleaned(path)).parts, prefixes))
  {
    var posix := Paths.FromString(Cleaned(path));
    var kept := DropPrefixes(posix.parts, prefixes);
    assert NormalizedPath(path, prefixes) == Join(kept, "/");
    KeptWellFormed(posix, prefixes);
    var q := Paths.PurePath("", kept);
    assert Paths.ToString(q) == Join(kept, "/");
    Paths.ParsePrintRoundTrip(q);
  }

  lemma KeptWellFormed(posix: Paths.PurePath, prefixes: set<string>)
    requires Paths.WellFormed(posix)
    ensures Paths.WellFormed(Paths.PurePath("", DropPrefixes(posix.parts, prefixes)))
  {
    var kept := DropPrefixes(posix.parts, prefixes);
    forall i | 0 <= i < |kept| ensures Paths.IsPart(kept[i]) {
      assert kept[i] == posix.parts[|posix.parts| - |kept| + i];
    }
  }

  /** A path made only of removable prefixes is returned as the cleaned path itself. */
  lemma OnlyPrefixesKept(path: string, prefixes: set<string>)
    requires Strip(path) != ""
    requires forall i :: 0 <= i < |Paths.FromString(Cleaned(path)).parts| ==> Paths.FromString(Cleaned(path)).parts[i] in prefixes
    ensures NormalizedPath(path, prefixes) == Paths.ToString(Paths.FromString(Cleaned(path)))
  {
  }

  // ---------------------------------------------------------------------------
  // load_forbidden_patterns

  /** One line of the policy file as `load_forbidden_patterns` sees it: blank or comment
      lines, `key:` headers, `key: value` entries and everything else, each with the number
      of leading spaces and the content without its inline comment. */
  datatype PolicyLine =
    | Ignored
    | Header(indent: nat, key: string)
    | Entry(indent: nat, key: string, value: string)
    | Plain(indent: nat, content: string)

  /** The reader's state between lines. */
  datatype PolicyState = PolicyState(patterns: seq<string>, inSelf: bool, inForbidden: bool,
                                     forbiddenIndent: Option<nat>)

  const PolicyStart := PolicyState([], false, false, None)

  /** The number of leading spaces (`len(raw) - len(raw.lstrip(" "))`). */
  function Indent(raw: string): (r: nat)
    ensures r <= |raw|
    ensures forall i :: 0 <= i < r ==> raw[i] == ' '
    ensures r < |raw| ==> raw[r] != ' '
  {
    |raw| - |LStripChars(raw, {' '})|
  }

  function ClassifyLine(raw: string): (r: PolicyLine)
    ensures r.Header? || r.Entry? || r.Plain? ==> r.indent == Indent(raw)
    ensures r.Plain? ==> ':' !in r.content && r.content != ""
  {
    var stripped := Strip(raw);
    if stripped == "" || StartsWith(stripped, "#") then Ignored
    else ClassifyContent(Indent(raw), RStrip(stripped[..CommentStart(stripped)]))
  }

  /** A line's content, comment removed, split into key and value at the first colon. */
  function ClassifyContent(indent: nat, content: string): (r: PolicyLine)
    ensures r.Header? || r.Entry? || r.Plain? ==> r.indent == indent
    ensures r.Plain? ==> ':' !in r.content && r.content != ""
  {
    if content == "" then Ignored
    else if EndsWith(content, ":") then Header(indent, Strip(content[..|content| - 1]))
    else if ':' in content then
      var colon := Find(content, ':');
      Entry(indent, Strip(content[..colon]), Strip(content[colon + 1..]))
    else Plain(indent, content)
  }

  /** `forbidden_indent or indent`: an unset or zero section indent falls back to the line's. */
  function Bound(forbiddenIndent: Option<nat>, indent: nat): nat {
    if forbiddenIndent.Some? && forbiddenIndent.value != 0 then forbiddenIndent.value else indent
  }

  predicate Bracketed(value: string) {
    StartsWith(value, "[") && EndsWith(value, "]")
  }

  predicate Unslashed(patterns: seq<string>) {
    forall k :: 0 <= k < |patterns| ==> patterns[k] == [] || patterns[k][0] != '/'
  }

  /** The pattern one element of a literal list contributes: a non-empty string, its
      leading slashes stripped. */
  function ItemPattern(item: Json): seq<string> {
    if item.JStr? && item.s != "" then [LStripChars(item.s, {'/'})] else []
  }

  /** The patterns `_extend_inline_sequence` takes from a literal list or tuple. */
  function InlineItems(items: seq<Json>): seq<string> {
    if items == [] then []
    else InlineItems(items[..|items| - 1]) + ItemPattern(items[|items| - 1])
  }

  /** What `_extend_inline_sequence` appends; `literal` stands for `ast.literal_eval`
      (`None` when it raises), with tuples read as lists. */
  function InlineSequence(value: string, literal: string -> Option<Json>): seq<string> {
    match literal(value)
    case Some(JList(items)) => InlineItems(items)
    case _ => []
  }

  /** One pair of matching surrounding quotes removed. */
  function Unquote(value: string): (r: string)
    ensures |r| <= |value|
  {
    if |value| >= 2 && value[0] in {'"', '\''} && value[|value| - 1] == value[0]
    then value[1..|value| - 1] else value
  }

  /** The patterns a `- value` item adds: the inline list's when it is one and yields any,
      otherwise the value without one pair of quotes and leading slashes, unless empty. */
  function ItemPatterns(content: string, literal: string -> Option<Json>): seq<string>
    requires StartsWith(content, "- ")
  {
    var value := Strip(content[2..]);
    var inline := if Bracketed(value) then InlineSequence(value, literal) else [];
    if inline != [] then inline
    else if Unquote(value) != "" then [LStripChars(Unquote(value), {'/'})]
    else []
  }

  /** A top-level key opens (or, for any other key, leaves) the `self_modification` block. */
  function TopLevel(st: PolicyState, key: string): PolicyState {
    st.(inSelf := key == "self_modification", inForbidden := false, forbiddenIndent := None)
  }

  /** The section is open only inside `self_modification`, and then its indent is known. */
  predicate Consistent(st: PolicyState) {
    st.inForbidden ==> st.inSelf && st.forbiddenIndent.Some?
  }

  /** The effect of one line on the reader's state. */
  function PolicyStep(st: PolicyState, line: PolicyLine, literal: string -> Option<Json>): PolicyState {
    match line
    case Ignored => st
    case Header(indent, key) => HeaderStep(st, indent, key)
    case Entry(indent, key, value) => EntryStep(st, indent, key, value, literal)
    case Plain(indent, content) => PlainStep(st, indent, content, literal)
  }

  /** A `key:` line: a top-level key, the opening of `forbidden_paths` inside
      `self_modification`, or any other key, which closes the section unless indented deeper. */
  function HeaderStep(st: PolicyState, indent: nat, key: string): PolicyState {
    if indent == 0 then TopLevel(st, key)
    else if st.inSelf && key == "forbidden_paths" then st.(inForbidden := true, forbiddenIndent := Some(indent))
    else if indent <= Bound(st.forbiddenIndent, indent) then st.(inForbidden := false)
    else st
  }

  /** A `key: value` line; `forbidden_paths: [...]` inside `self_modification` takes its
      patterns from the inline list. */
  function EntryStep(st: PolicyState, indent: nat, key: string, value: string, literal: string -> Option<Json>): PolicyState {
    if indent == 0 then TopLevel(st, key)
    else if st.inSelf && key == "forbidden_paths" then
      var added := if Bracketed(value) then InlineSequence(value, literal) else [];
      st.(patterns := st.patterns + added, inForbidden := false, forbiddenIndent := None)
    else if indent <= Bound(st.forbiddenIndent, indent) then st.(inForbidden := false)
    else st
  }

  /** Any other line: an item of the open section, or a line that may close it. */
  function PlainStep(st: PolicyState, indent: nat, content: string, literal: string -> Option<Json>): PolicyState {
    if st.inForbidden && StartsWith(content, "- ") then st.(patterns := st.patterns + ItemPatterns(content, literal))
    else if st.inForbidden && indent <= Bound(st.forbiddenIndent, indent) then st.(inForbidden := false)
    else st
  }

  /** The reader run over the remaining lines. */
  function PolicyScan(st: PolicyState, lines: seq<string>, literal: string -> Option<Json>): PolicyState
    decreases |lines|
  {
    if lines == [] then st
    else PolicyScan(PolicyStep(st, ClassifyLine(lines[0]), literal), lines[1..], literal)
  }

  /** What `load_forbidden_patterns` returns for a policy file with this text. */
  function ForbiddenPatterns(text: string, literal: string -> Option<Json>): seq<string> {
    PolicyScan(PolicyStart, SplitLines(text), literal).patterns
  }

  /** The loop of `_extend_inline_sequence` over the parsed list. */
  method AppendItems(items: seq<Json>, patterns: seq<string>) returns (extended: seq<string>, appended: bool)
    ensures extended == patterns + InlineItems(items)
    ensures appended <==> InlineItems(items) != []
  {
    extended, appended := patterns, false;
    for k := 0 to |items|
      invariant extended == patterns + InlineItems(items[..k])
      invariant appended <==> InlineItems(items[..k]) != []
    {
      ghost var done := InlineItems(items[..k]);
      assert InlineItems(items[..k + 1]) == done + ItemPattern(items[k]) by {
        assert items[..k + 1][..k] == items[..k];
      }
      var item := items[k];
      if item.JStr? && item.s != "" {
        var pattern := LStripChars(item.s, {'/'});
        extended := extended + [pattern];
        appended := true;
      }
    }
    assert items[..|items|] == items;
  }

  /** `_extend_inline_sequence`: appends the literal's patterns and says whether it did. */
  method ExtendInlineSequence(value: string, patterns: seq<string>, literal: string -> Option<Json>)
    returns (extended: seq<string>, appended: bool)
    ensures extended == patterns + InlineSequence(value, literal)
    ensures appended <==> InlineSequence(value, literal) != []
  {
    var parsed := literal(value);
    if parsed.Some? && parsed.value.JList? {
      extended, appended := AppendItems(parsed.value.items, patterns);
    } else {
      extended, appended := patterns, false;
    }
  }

  /** The body of the loop of `load_forbidden_patterns` for one raw line. */
  method ReadPolicyLine(raw: string, patterns0: seq<string>, inSelf0: bool, inForbidden0: bool,
                        forbiddenIndent0: Option<nat>, literal: string -> Option<Json>)
    returns (patterns: seq<string>, inSelf: bool, inForbidden: bool, forbiddenIndent: Option<nat>)
    ensures PolicyState(patterns, inSelf, inForbidden, forbiddenIndent)
            == PolicyStep(PolicyState(patterns0, inSelf0, inForbidden0, forbiddenIndent0), ClassifyLine(raw), literal)
  {
    patterns, inSelf, inForbidden, forbiddenIndent := patterns0, inSelf0, inForbidden0, forbiddenIndent0;
    var stripped := Strip(raw);
    if stripped == "" || StartsWith(stripped, "#") {
      return;
    }
    var indent := |raw| - |LStripChars(raw, {' '})|;
    var content := StripInlineComment(stripped);
    assert ClassifyLine(raw) == ClassifyContent(indent, content);
    patterns, inSelf, inForbidden, forbiddenIndent :=
      ReadContent(indent, content, patterns, inSelf, inForbidden, forbiddenIndent, literal);
  }

  /** The rest of the loop body once the indent and the uncommented content are known. */
  method ReadContent(indent: nat, content: string, patterns0: seq<string>, inSelf0: bool, inForbidden0: bool,
                     forbiddenIndent0: Option<nat>, literal: string -> Option<Json>)
    returns (patterns: seq<string>, inSelf: bool, inForbidden: bool, forbiddenIndent: Option<nat>)
    ensures PolicyState(patterns, inSelf, inForbidden, forbiddenIndent)
            == PolicyStep(PolicyState(patterns0, inSelf0, inForbidden0, forbiddenIndent0), ClassifyContent(indent, content), literal)
  {
    patterns, inSelf, inForbidden, forbiddenIndent := patterns0, inSelf0, inForbidden0, forbiddenIndent0;
    if content == "" {
      return;
    }
    if EndsWith(content, ":") {
      var key := Strip(content[..|content| - 1]);
      inSelf, inForbidden, forbiddenIndent := ReadHeader(indent, key, patterns, inSelf, inForbidden, forbiddenIndent);
      return;
    }
    if ':' in content {
      var colon := Find(content, ':');
      var key := Strip(content[..colon]);
      var value := Strip(content[colon + 1..]);
      patterns, inSelf, inForbidden, forbiddenIndent :=
        ReadEntry(indent, key, value, patterns, inSelf, inForbidden, forbiddenIndent, literal);
      return;
    }
    assert ClassifyContent(indent, content) == Plain(indent, content);
    patterns, inForbidden := ReadPlain(indent, content, patterns, inSelf, inForbidden, forbiddenIndent, literal);
  }

  /** Any other line: an item inside `forbidden_paths`, or a line that may close it. */
  method ReadPlain(indent: nat, content: string, patterns0: seq<string>, inSelf: bool, inForbidden0: bool,
                   forbiddenIndent: Option<nat>, literal: string -> Option<Json>)
    returns (patterns: seq<string>, inForbidden: bool)
    ensures PolicyState(patterns, inSelf, inForbidden, forbiddenIndent)
            == PlainStep(PolicyState(patterns0, inSelf, inForbidden0, forbiddenIndent), indent, content, literal)
  {
    patterns, inForbidden := patterns0, inForbidden0;
    if inForbidden && StartsWith(content, "- ") {
      patterns := ReadItem(content, patterns, literal);
    } else if inForbidden && indent <= Bound(forbiddenIndent, indent) {
      inForbidden := false;
    }
  }

  /** A `key:` line. */
  method ReadHeader(indent: nat, key: string, patterns: seq<string>, inSelf0: bool, inForbidden0: bool,
                    forbiddenIndent0: Option<nat>)
    returns (inSelf: bool, inForbidden: bool, forbiddenIndent: Option<nat>)
    ensures PolicyState(patterns, inSelf, inForbidden, forbiddenIndent)
            == HeaderStep(PolicyState(patterns, inSelf0, inForbidden0, forbiddenIndent0), indent, key)
  {
    inSelf, inForbidden, forbiddenIndent := inSelf0, inForbidden0, forbiddenIndent0;
    if indent == 0 {
      inSelf := key == "self_modification";
      inForbidden := false;
      forbiddenIndent := None;
    } else if inSelf && key == "forbidden_paths" {
      inForbidden := true;
      forbiddenIndent := Some(indent);
    } else if indent <= Bound(forbiddenIndent, indent) {
      inForbidden := false;
    }
  }

  /** A `key: value` line. */
  method ReadEntry(indent: nat, key: string, value: string, patterns0: seq<string>, inSelf0: bool, inForbidden0: bool,
                   forbiddenIndent0: Option<nat>, literal: string -> Option<Json>)
    returns (patterns: seq<string>, inSelf: bool, inForbidden: bool, forbiddenIndent: Option<nat>)
    ensures PolicyState(patterns, inSelf, inForbidden, forbiddenIndent)
            == EntryStep(PolicyState(patterns0, inSelf0, inForbidden0, forbiddenIndent0), indent, key, value, literal)
  {
    patterns, inSelf, inForbidden, forbiddenIndent := patterns0, inSelf0, inForbidden0, forbiddenIndent0;
    if indent == 0 {
      inSelf := key == "self_modification";
      inForbidden := false;
      forbiddenIndent := None;
    } else if inSelf && key == "forbidden_paths" {
      if Bracketed(value) {
        var appended;
        patterns, appended := ExtendInlineSequence(value, patterns, literal);
      }
      inForbidden := false;
      forbiddenIndent := None;
    } else if indent <= Bound(forbiddenIndent, indent) {
      inForbidden := false;
    }
  }

  /** A `- value` item inside `forbidden_paths`. */
  method ReadItem(content: string, patterns0: seq<string>, literal: string -> Option<Json>) returns (patterns: seq<string>)
    requires StartsWith(content, "- ")
    ensures patterns == patterns0 + ItemPatterns(content, literal)
  {
    patterns := patterns0;
    var value := Strip(content[2..]);
    if Bracketed(value) {
      var appended;
      patterns, appended := ExtendInlineSequence(value, patterns, literal);
      if appended {
        return;
      }
    }
    patterns := AppendPlain(value, patterns);
  }

  /** The plain-value half of an item: one pair of matching quotes is dropped, then leading
      slashes, and an empty value adds nothing. */
  method AppendPlain(value: string, patterns0: seq<string>) returns (patterns: seq<string>)
    ensures patterns == patterns0 + if Unquote(value) != "" then [LStripChars(Unquote(value), {'/'})] else []
  {
    var unquoted := value;
    if |value| >= 2 && value[0] in {'"', '\''} && value[|value| - 1] == value[0] {
      unquoted := value[1..|value| - 1];
    }
    patterns := patterns0;
    if unquoted != "" {
      patterns := patterns + [LStripChars(unquoted, {'/'})];
    }
  }

  /** `load_forbidden_patterns` over the text of the policy file. */
  method LoadForbiddenPatterns(text: string, literal: string -> Option<Json>) returns (patterns: seq<string>)
    ensures patterns == ForbiddenPatterns(text, literal)
  {
    var lines := SplitLines(text);
    patterns := [];
    var inSelf, inForbidden := false, false;
    var forbiddenIndent: Option<nat> := None;
    for i := 0 to |lines|
      invariant PolicyScan(PolicyState(patterns, inSelf, inForbidden, forbiddenIndent), lines[i..], literal).patterns
                == ForbiddenPatterns(text, literal)
    {
      assert lines[i..][1..] == lines[i + 1..];
      patterns, inSelf, inForbidden, forbiddenIndent :=
        ReadPolicyLine(lines[i], patterns, inSelf, inForbidden, forbiddenIndent, literal);
    }
  }

  lemma {:induction false} InlineItemsUnslashed(items: seq<Json>)
    ensures Unslashed(InlineItems(items))
    decreases |items|
  {
    if items != [] {
      InlineItemsUnslashed(items[..|items| - 1]);
    }
  }

  lemma InlineUnslashed(value: string, literal: string -> Option<Json>)
    ensures Unslashed(InlineSequence(value, literal))
  {
    match literal(value)
    case Some(JList(items)) => InlineItemsUnslashed(items);
    case _ =>
  }

  lemma ItemPatternsUnslashed(content: string, literal: string -> Option<Json>)
    requires StartsWith(content, "- ")
    ensures Unslashed(ItemPatterns(content, literal))
  {
    InlineUnslashed(Strip(content[2..]), literal);
  }

  lemma UnslashedConcat(a: seq<string>, b: seq<string>)
    requires Unslashed(a) && Unslashed(b)
    ensures Unslashed(a + b)
  {
    forall k | 0 <= k < |a + b| ensures (a + b)[k] == [] || (a + b)[k][0] != '/' {
      if k >= |a| {
        assert (a + b)[k] == b[k - |a|];
      }
    }
  }

  /** One line never drops a pattern, never yields one starting with `/`, and never opens
      the section outside `self_modification`. */
  lemma StepKeeps(st: PolicyState, line: PolicyLine, literal: string -> Option<Json>)
    ensures st.patterns <= PolicyStep(st, line, literal).patterns
    ensures Unslashed(st.patterns) ==> Unslashed(PolicyStep(st, line, literal).patterns)
    ensures Consistent(st) ==> Consistent(PolicyStep(st, line, literal))
  {
    var added: seq<string> := [];
    match line
    case Ignored =>
    case Header(_, _) =>
    case Entry(indent, key, value) =>
      if Bracketed(value) {
        InlineUnslashed(value, literal);
        added := InlineSequence(value, literal);
      }
    case Plain(_, content) =>
      if StartsWith(content, "- ") {
        ItemPatternsUnslashed(content, literal);
        added := ItemPatterns(content, literal);
      }
    assert Unslashed(added);
    assert PolicyStep(st, line, literal).patterns == st.patterns
        || PolicyStep(st, line, literal).patterns == st.patterns + added;
    if Unslashed(st.patterns) {
      UnslashedConcat(st.patterns, added);
    }
  }

  lemma {:induction false} ScanKeeps(st: PolicyState, lines: seq<string>, literal: string -> Option<Json>)
    ensures st.patterns <= PolicyScan(st, lines, literal).patterns
    ensures Unslashed(st.patterns) ==> Unslashed(PolicyScan(st, lines, literal).patterns)
    ensures Consistent(st) ==> Consistent(PolicyScan(st, lines, literal))
    decreases |lines|
  {
    if lines != [] {
      StepKeeps(st, ClassifyLine(lines[0]), literal);
      ScanKeeps(PolicyStep(st, ClassifyLine(lines[0]), literal), lines[1..], literal);
    }
  }

  /** Leading slashes are stripped from every pattern read. */
  lemma PatternsUnslashed(text: string, literal: string -> Option<Json>)
    ensures Unslashed(ForbiddenPatterns(text, literal))
  {
    ScanKeeps(PolicyStart, SplitLines(text), literal);
  }

  /** A line that makes `self_modification` the current top-level key. */
  predicate OpensSelfModification(raw: string) {
    var line := ClassifyLine(raw);
    (line.Header? || line.Entry?) && line.indent == 0 && line.key == "self_modification"
  }

  lemma OutsideSelfModificationStep(st: PolicyState, line: PolicyLine, literal: string -> Option<Json>)
    requires !st.inSelf && !st.inForbidden
    requires !((line.Header? || line.Entry?) && line.indent == 0 && line.key == "self_modification")
    ensures var next := PolicyStep(st, line, literal);
            !next.inSelf && !next.inForbidden && next.patterns == st.patterns
  {
  }

  lemma {:induction false} OutsideSelfModificationScan(st: PolicyState, lines: seq<string>, literal: string -> Option<Json>)
    requires !st.inSelf && !st.inForbidden
    requires forall k :: 0 <= k < |lines| ==> !OpensSelfModification(lines[k])
    ensures PolicyScan(st, lines, literal).patterns == st.patterns
    decreases |lines|
  {
    if lines != [] {
      assert !OpensSelfModification(lines[0]);
      var next := PolicyStep(st, ClassifyLine(lines[0]), literal);
      OutsideSelfModificationStep(st, ClassifyLine(lines[0]), literal);
      assert forall k :: 0 <= k < |lines[1..]| ==> !OpensSelfModification(lines[1..][k]) by {
        forall k | 0 <= k < |lines[1..]| ensures !OpensSelfModification(lines[1..][k]) {
          assert lines[1..][k] == lines[k + 1];
        }
      }
      OutsideSelfModificationScan(next, lines[1..], literal);
    }
  }

  /** Only `forbidden_paths` under a top-level `self_modification:` contributes patterns. */
  lemma NoSelfModificationNoPatterns(text: string, literal: string -> Option<Json>)
    requires forall k :: 0 <= k < |SplitLines(text)| ==> !OpensSelfModification(SplitLines(text)[k])
    ensures ForbiddenPatterns(text, literal) == []
  {
    OutsideSelfModificationScan(PolicyStart, SplitLines(text), literal);
  }

  /** Inside the section, a key at the section's own indent or less, other than a new
      `forbidden_paths`, closes it without adding patterns; so does a non-item line. */
  lemma DedentCloses(st: PolicyState, line: PolicyLine, literal: string -> Option<Json>)
    requires st.inForbidden && st.forbiddenIndent.Some? && st.forbiddenIndent.value > 0
    requires line.Header? || line.Entry? || line.Plain?
    requires 0 < line.indent <= st.forbiddenIndent.value
    requires (line.Header? || line.Entry?) ==> line.key != "forbidden_paths"
    requires line.Plain? ==> !StartsWith(line.content, "- ")
    ensures !PolicyStep(st, line, literal).inForbidden
    ensures PolicyStep(st, line, literal).patterns == st.patterns
  {
  }

  /** An item line inside the open section adds exactly its own patterns. */
  lemma ItemAdds(st: PolicyState, indent: nat, content: string, literal: string -> Option<Json>)
    requires st.inForbidden && StartsWith(content, "- ")
    ensures PolicyStep(st, Plain(indent, content), literal)
            == st.(patterns := st.patterns + ItemPatterns(content, literal))
  {
  }

  // ---------------------------------------------------------------------------
  // find_forbidden_matches

  // The directory a `.../**` candidate stands for: without the `/**` and trailing slashes.
  function DirBase(candidate: string): string
    requires |candidate| >= 3
  {
    RStripChars(candidate[..|candidate| - 3], {'/'})
  }

  // One candidate against a normalised path: `glob` is `PurePosixPath.match`; a candidate
  // ending in `/**` also covers its base directory and everything under it, and every path
  // when the base is empty.
  predicate CandidateHits(path: string, candidate: string, glob: (Paths.PurePath, string) -> bool) {
    var posix := Paths.FromString(path);
    glob(posix, candidate)
    || (EndsWith(candidate, "/**") && Contains(candidate, "**")
        && (DirBase(candidate) == "" || Paths.IsRelativeTo(posix, Paths.FromString(DirBase(candidate)))))
  }

  predicate VariantsHit(path: string, variants: seq<string>, glob: (Paths.PurePath, string) -> bool) {
    exists k :: 0 <= k < |variants| && CandidateHits(path, variants[k], glob)
  }

  /** Some pattern (through one of its variants) covers the path. */
  predicate PathHit(path: string, table: seq<seq<string>>, glob: (Paths.PurePath, string) -> bool) {
    exists j :: 0 <= j < |table| && VariantsHit(path, table[j], glob)
  }

  /** The variants of every pattern that does not normalise to the empty string, in order. */
  function PatternTable(patterns: seq<string>, prefixes: set<string>): seq<seq<string>> {
    if patterns == [] then []
    else
      var front := PatternTable(patterns[..|patterns| - 1], prefixes);
      var n := NormalizedPath(patterns[|patterns| - 1], prefixes);
      if n == "" then front else front + [Variants(n)]
  }

  /** What `find_forbidden_matches` returns: the normalised non-empty paths some pattern
      covers, one entry per input path, in input order. */
  function Forbidden(paths: seq<string>, table: seq<seq<string>>, prefixes: set<string>,
                     glob: (Paths.PurePath, string) -> bool): seq<string> {
    if paths == [] then []
    else Forbidden(paths[..|paths| - 1], table, prefixes, glob) + Report(paths[|paths| - 1], table, prefixes, glob)
  }

  /** What one path contributes: its normalised form when that is not empty and some
      pattern covers it. */
  function Report(path: string, table: seq<seq<string>>, prefixes: set<string>,
                  glob: (Paths.PurePath, string) -> bool): seq<string> {
    var n := NormalizedPath(path, prefixes);
    if n != "" && PathHit(n, table, glob) then [n] else []
  }

  /** The loops of `find_forbidden_matches` for one normalised path: the first pattern that
      covers it ends the search. */
  method MatchesAnyPattern(path: string, table: seq<seq<string>>, glob: (Paths.PurePath, string) -> bool)
    returns (hit: bool)
    ensures hit == PathHit(path, table, glob)
  {
    hit := false;
    var j := 0;
    while j < |table| && !hit
      invariant 0 <= j <= |table|
      invariant hit ==> PathHit(path, table, glob)
      invariant !hit ==> forall jj :: 0 <= jj < j ==> !VariantsHit(path, table[jj], glob)
    {
      hit := MatchesAnyVariant(path, table[j], glob);
      j := j + 1;
    }
  }

  /** The innermost loop of `find_forbidden_matches`: the variants of one pattern, tried in
      order until one covers the path. */
  method MatchesAnyVariant(path: string, variants: seq<string>, glob: (Paths.PurePath, string) -> bool)
    returns (hit: bool)
    ensures hit == VariantsHit(path, variants, glob)
  {
    var posix := Paths.FromString(path);
    var k := 0;
    while k < |variants|
      invariant 0 <= k <= |variants|
      invariant forall kk :: 0 <= kk < k ==> !CandidateHits(path, variants[kk], glob)
    {
      var candidate := variants[k];
      if glob(posix, candidate) {
        assert CandidateHits(path, variants[k], glob);
        return true;
      }
      if EndsWith(candidate, "/**") && Contains(candidate, "**") {
        var base := RStripChars(candidate[..|candidate| - 3], {'/'});
        if base == "" || Paths.IsRelativeTo(posix, Paths.FromString(base)) {
          assert base == DirBase(candidate);
          assert CandidateHits(path, variants[k], glob);
          return true;
        }
      }
      k := k + 1;
    }
    return false;
  }

  /** The first loop of `find_forbidden_matches`: the variants of each usable pattern. */
  method CollectPatternVariants(patterns: seq<string>, prefixes: set<string>) returns (table: seq<seq<string>>)
    ensures table == PatternTable(patterns, prefixes)
  {
    table := [];
    var i := 0;
    while i < |patterns|
      invariant 0 <= i <= |patterns|
      invariant table == PatternTable(patterns[..i], prefixes)
    {
      assert patterns[..i + 1][..i] == patterns[..i];
      var normalized := NormalizeChangedPath(patterns[i], prefixes);
      if normalized != "" {
        var variants := GeneratePatternVariants(normalized);
        table := table + [variants];
      }
      i := i + 1;
    }
    assert patterns[..i] == patterns;
  }

  /** `find_forbidden_matches`; `glob` stands for `PurePosixPath.match`. */
  method FindForbiddenMatches(paths: seq<string>, patterns: seq<string>, prefixes: set<string>,
                              glob: (Paths.PurePath, string) -> bool) returns (matches: seq<string>)
    ensures matches == Forbidden(paths, PatternTable(patterns, prefixes), prefixes, glob)
  {
    var table := CollectPatternVariants(patterns, prefixes);
    matches := [];
    var i := 0;
    while i < |paths|
      invariant 0 <= i <= |paths|
      invariant matches == Forbidden(paths[..i], table, prefixes, glob)
    {
      ForbiddenStep(paths, i, table, prefixes, glob);
      var found := ReportPath(paths[i], table, prefixes, glob);
      matches := matches + found;
      i := i + 1;
    }
    assert paths[..i] == paths;
  }

  /** One more changed path adds its own report. */
  lemma {:induction false} ForbiddenStep(paths: seq<string>, i: nat, table: seq<seq<string>>, prefixes: set<string>,
                                         glob: (Paths.PurePath, string) -> bool)
    requires i < |paths|
    ensures Forbidden(paths[..i + 1], table, prefixes, glob)
            == Forbidden(paths[..i], table, prefixes, glob) + Report(paths[i], table, prefixes, glob)
  {
    assert paths[..i + 1][..i] == paths[..i];
    assert paths[..i + 1][i] == paths[i];
  }

  /** The body of the outer loop of `find_forbidden_matches` for one changed path. */
  method ReportPath(path: string, table: seq<seq<string>>, prefixes: set<string>,
                    glob: (Paths.PurePath, string) -> bool) returns (found: seq<string>)
    ensures found == Report(path, table, prefixes, glob)
  {
    found := [];
    var normalized := NormalizeChangedPath(path, prefixes);
    if normalized != "" {
      var hit := MatchesAnyPattern(normalized, table, glob);
      if hit {
        found := [normalized];
      }
    }
  }

  // A string ending in `/**` contains `**`.
  lemma {:induction false} EndsWithContains(c: string)
    requires EndsWith(c, "/**")
    ensures Contains(c, "**")
    decreases |c|
  {
    if |c| > 3 {
      assert EndsWith(c[1..], "/**") by {
        assert c[1..][|c| - 1 - 3..] == c[|c| - 3..];
      }
      EndsWithContains(c[1..]);
    } else {
      assert c[1..][..2] == "**";
    }
  }

  /** Every pattern that normalises to something contributes its variants. */
  lemma {:induction false} TableHas(patterns: seq<string>, prefixes: set<string>, p: nat)
    requires p < |patterns| && NormalizedPath(patterns[p], prefixes) != ""
    ensures Variants(NormalizedPath(patterns[p], prefixes)) in PatternTable(patterns, prefixes)
    decreases |patterns|
  {
    if p < |patterns| - 1 {
      var front := patterns[..|patterns| - 1];
      assert front[p] == patterns[p];
      TableHas(front, prefixes, p);
    }
  }

  /** Every covered input path is reported. */
  lemma {:induction false} ForbiddenHas(paths: seq<string>, table: seq<seq<string>>, prefixes: set<string>,
                                        glob: (Paths.PurePath, string) -> bool, i: nat)
    requires i < |paths|
    requires NormalizedPath(paths[i], prefixes) != "" && PathHit(NormalizedPath(paths[i], prefixes), table, glob)
    ensures NormalizedPath(paths[i], prefixes) in Forbidden(paths, table, prefixes, glob)
    decreases |paths|
  {
    if i < |paths| - 1 {
      var front := paths[..|paths| - 1];
      assert front[i] == paths[i];
      ForbiddenHas(front, table, prefixes, glob, i);
    }
  }

  // A pattern ending in `/**` forbids its base directory itself and everything under it.
  lemma DirectoryPatternCovers(paths: seq<string>, patterns: seq<string>, prefixes: set<string>,
                               glob: (Paths.PurePath, string) -> bool, p: nat, i: nat)
    requires p < |patterns| && i < |paths|
    requires EndsWith(NormalizedPath(patterns[p], prefixes), "/**")
    requires var base := DirBase(NormalizedPath(patterns[p], prefixes));
             var n := NormalizedPath(paths[i], prefixes);
             n != "" && (base == "" || Paths.IsRelativeTo(Paths.FromString(n), Paths.FromString(base)))
    ensures NormalizedPath(paths[i], prefixes) in Forbidden(paths, PatternTable(patterns, prefixes), prefixes, glob)
  {
    var c := NormalizedPath(patterns[p], prefixes);
    var n := NormalizedPath(paths[i], prefixes);
    var table := PatternTable(patterns, prefixes);
    EndsWithContains(c);
    TableHas(patterns, prefixes, p);
    var j :| 0 <= j < |table| && table[j] == Variants(c);
    assert CandidateHits(n, table[j][0], glob);
    ForbiddenHas(paths, table, prefixes, glob, i);
  }

  /** Every reported path is non-empty and covered by some pattern. */
  lemma {:induction false} ForbiddenSound(paths: seq<string>, table: seq<seq<string>>, prefixes: set<string>,
                                          glob: (Paths.PurePath, string) -> bool)
    ensures forall m :: 0 <= m < |Forbidden(paths, table, prefixes, glob)| ==>
              Forbidden(paths, table, prefixes, glob)[m] != ""
              && PathHit(Forbidden(paths, table, prefixes, glob)[m], table, glob)
    decreases |paths|
  {
    if paths != [] {
      ForbiddenSound(paths[..|paths| - 1], table, prefixes, glob);
    }
  }

  /** Paths are reported in input order, each path on its own: the result for a
      concatenation is the concatenation of the results. */
  lemma {:induction false} ForbiddenConcat(a: seq<string>, b: seq<string>, table: seq<seq<string>>,
                                           prefixes: set<string>, glob: (Paths.PurePath, string) -> bool)
    ensures Forbidden(a + b, table, prefixes, glob)
            == Forbidden(a, table, prefixes, glob) + Forbidden(b, table, prefixes, glob)
    decreases |b|
  {
    if b == [] {
      assert a + b == a;
    } else {
      var front := b[..|b| - 1];
      assert (a + b)[..|a + b| - 1] == a + front;
      assert (a + b)[|a + b| - 1] == b[|b| - 1];
      ForbiddenConcat(a, front, table, prefixes, glob);
    }
  }

  /** One path yields at most one entry: its normalised form, exactly when that is not
      empty and some pattern covers it. */
  lemma ForbiddenOne(path: string, table: seq<seq<string>>, prefixes: set<string>, glob: (Paths.PurePath, string) -> bool)
    ensures var n := NormalizedPath(path, prefixes);
            Forbidden([path], table, prefixes, glob) == if n != "" && PathHit(n, table, glob) then [n] else []
  {
    assert [path][..0] == [];
    assert Forbidden([path], table, prefixes, glob) == Report(path, table, prefixes, glob);
  }

  /** Without usable patterns nothing is forbidden. */
  lemma {:induction false} NoPatternsNoMatches(paths: seq<string>, prefixes: set<string>, glob: (Paths.PurePath, string) -> bool)
    ensures Forbidden(paths, [], prefixes, glob) == []
    decreases |paths|
  {
    if paths != [] {
      NoPatternsNoMatches(paths[..|paths| - 1], prefixes, glob);
    }
  }

  // ---------------------------------------------------------------------------
  // validate_pr_body

  /** `validate_pr_body`: a missing intent line, evaluation anchor or justified priority
      score only produces a warning, so every body, even a missing one, passes. */
  function ValidatePrBody(body: Option<string>): (ok: bool)
    ensures ok
  {
    true
  }
}
