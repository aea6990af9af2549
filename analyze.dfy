/** The cookbook's reflection analyzer: the settings it takes from the reflection manifest (with
    a line reader for when no YAML parser is installed), where it writes its report, and the
    flaky rate it prints. */
module Analyze {
  import opened Wrappers
  import opened Text
  import opened Json
  import opened Paths

  /** `_coerce_bool`: booleans as they are, the words `true`/`false` in any case and with
      surrounding whitespace, nothing for anything else. */
  function CoerceBool(value: Json): (r: Option<bool>)
    ensures value.JBool? ==> r == Some(value.b)
    ensures value.JStr? ==> (r == Some(true) <==> Lower(Strip(value.s)) == "true")
    ensures value.JStr? ==> (r == Some(false) <==> Lower(Strip(value.s)) == "false")
    ensures !value.JBool? && !value.JStr? ==> r.None?
  {
    match value
    case JBool(b) => Some(b)
    case JStr(s) =>
      var lowered := Lower(Strip(s));
      if lowered == "true" || lowered == "false" then Some(lowered == "true") else None
    case _ => None
  }

  /** `len(raw_line) - len(raw_line.lstrip(" "))`: the leading blanks of a line. */
  function Indent(raw: string): (r: nat)
    ensures r <= |raw|
    ensures forall i :: 0 <= i < r ==> raw[i] == ' '
    ensures r < |raw| ==> raw[r] != ' '
  {
    |raw| - |LStripChars(raw, {' '})|
  }

  /** `stripped.split(":", 1)[1]`: the text after the first colon. */
  function AfterColon(stripped: string): (r: string)
    ensures ':' in stripped ==> |r| < |stripped|
    ensures ':' in stripped ==> stripped == stripped[..|stripped| - |r| - 1] + ":" + r
    ensures ':' in stripped ==> ':' !in stripped[..|stripped| - |r| - 1]
  {
    var colon := Find(stripped, ':');
    if colon < 0 then ""
    else
      assert stripped == stripped[..colon] + ":" + stripped[colon + 1..];
      stripped[colon + 1..]
  }

  /** Whatever `strip` keeps was in the text. */
  lemma {:induction false} StripKeeps(s: string, c: char)
    requires c in Strip(s)
    ensures c in s
    decreases |s|
  {
    if s != [] && IsSpace(s[0]) {
      StripKeeps(s[1..], c);
    } else if s != [] && IsSpace(s[|s| - 1]) {
      StripKeeps(s[..|s| - 1], c);
    }
  }

  /** One pair of matching outer quotes removed, as the reader does. */
  function Unquoted(value: string): (r: string)
    ensures |r| <= |value|
    ensures forall c :: c in r ==> c in value
  {
    if |value| >= 2 && (value[0] == '\'' || value[0] == '"') && value[|value| - 1] == value[0]
    then value[1..|value| - 1]
    else value
  }

  /** The value cleanup: drop a `#` comment, trim, unquote; empty means none. */
  function CleanValue(rest: string): (r: Option<string>)
    ensures r.Some? ==> r.value != [] && '#' !in r.value
  {
    var hash := Find(rest, '#');
    var uncommented := if hash < 0 then rest else rest[..hash];
    var value := Unquoted(Strip(uncommented));
    assert '#' !in value by {
      if '#' in value {
        StripKeeps(uncommented, '#');
      }
    }
    if value == [] then None else Some(value)
  }

  /** A plain value, with or without a trailing comment, is read back as written. */
  lemma CleanPlain(value: string, note: string)
    requires value != [] && '#' !in value
    requires !IsSpace(value[0]) && !IsSpace(value[|value| - 1])
    requires !(value[0] == '\'' || value[0] == '"')
    ensures CleanValue(" " + value) == Some(value)
    ensures CleanValue(" " + value + " #" + note) == Some(value)
  {
    StripNoSpaceEnds(value);
    assert '#' !in " " + value;
    assert (" " + value)[1..] == value;
    assert Strip(" " + value) == Strip(value);
    var commented := " " + value + " #" + note;
    var padded := " " + value + " ";
    assert commented[..|value| + 2] == padded;
    assert Find(commented, '#') == |value| + 2 by {
      assert commented[|value| + 2] == '#';
      assert '#' !in padded;
    }
    assert padded[1..] == value + " ";
    assert (value + " ")[..|value|] == value;
    assert Strip(padded) == Strip(value + " ");
    assert Strip(value + " ") == Strip(value);
  }

  /** A quoted value is read back without its quotes, inner blanks included. */
  lemma CleanQuoted(quote: char, value: string)
    requires quote == '\'' || quote == '"'
    requires value != [] && '#' !in value
    ensures CleanValue(" " + [quote] + value + [quote]) == Some(value)
  {
    var written := [quote] + value + [quote];
    assert " " + [quote] + value + [quote] == " " + written;
    assert '#' !in " " + written;
    StripNoSpaceEnds(written);
    assert (" " + written)[1..] == written;
    assert Strip(" " + written) == Strip(written);
    assert written[1..|written| - 1] == value;
  }

  /** `_fallback_read_section_value` over the remaining lines, `in_section` being the state. The
      block's indent is always 0: only a header at indent 0 opens it. */
  function Scan(lines: seq<string>, section: string, key: string, inSection: bool): (r: Option<string>)
    ensures r.Some? ==> r.value != [] && '#' !in r.value
  {
    if lines == [] then None
    else
      var raw := lines[0];
      var stripped := Strip(raw);
      if stripped == [] || StartsWith(stripped, "#") then Scan(lines[1..], section, key, inSection)
      else if StartsWith(stripped, section + ":") && Indent(raw) == 0 then Scan(lines[1..], section, key, true)
      else
        var still := inSection && !(Indent(raw) <= 0);
        if still && StartsWith(stripped, key + ":") then CleanValue(AfterColon(stripped))
        else Scan(lines[1..], section, key, still)
  }

  /** The value of `key` in the top-level block `section` of a manifest text. */
  function SectionValue(text: string, section: string, key: string): Option<string> {
    Scan(SplitLines(text), section, key, false)
  }

  /** The line loop of `_fallback_read_section_value`. */
  method FallbackReadSectionValue(text: string, section: string, key: string) returns (r: Option<string>)
    ensures r == SectionValue(text, section, key)
  {
    var lines := SplitLines(text);
    var inSection := false;
    var sectionIndent := 0;
    for i := 0 to |lines|
      invariant sectionIndent == 0
      invariant Scan(lines[i..], section, key, inSection) == SectionValue(text, section, key)
    {
      assert lines[i..][1..] == lines[i + 1..];
      var raw := lines[i];
      var stripped := Strip(raw);
      if stripped == [] || StartsWith(stripped, "#") {
        continue;
      }
      var indent := |raw| - |LStripChars(raw, {' '})|;
      if StartsWith(stripped, section + ":") && indent == 0 {
        inSection := true;
        sectionIndent := indent;
        continue;
      }
      if indent <= sectionIndent {
        inSection := false;
      }
      if inSection && StartsWith(stripped, key + ":") {
        return CleanValue(AfterColon(stripped));
      }
    }
    return None;
  }

  /** Without a header line for the section, nothing is read. */
  lemma {:induction false} NoHeaderNoValue(lines: seq<string>, section: string, key: string)
    requires forall i :: 0 <= i < |lines| ==> !(StartsWith(Strip(lines[i]), section + ":") && Indent(lines[i]) == 0)
    ensures Scan(lines, section, key, false) == None
  {
    if lines != [] {
      assert forall i :: 0 <= i < |lines| - 1 ==> lines[1..][i] == lines[i + 1];
      NoHeaderNoValue(lines[1..], section, key);
    }
  }

  /** A line at indent 0 that is not the header closes the block: the lines after it are read
      as if the block had never opened. */
  lemma SectionClosed(closer: string, rest: seq<string>, section: string, key: string, inSection: bool)
    requires Strip(closer) != [] && !StartsWith(Strip(closer), "#")
    requires Indent(closer) == 0 && !StartsWith(Strip(closer), section + ":")
    ensures Scan([closer] + rest, section, key, inSection) == Scan(rest, section, key, false)
  {
    assert ([closer] + rest)[1..] == rest;
  }

  /** A header followed by an indented `key: value` line yields the value. */
  lemma ReadsWrittenEntry(section: string, key: string, value: string)
    requires section != [] && !IsSpace(section[0]) && section[0] != '#'
    requires key != [] && !IsSpace(key[0]) && key[0] != '#' && ':' !in key
    requires value != [] && '#' !in value && !IsSpace(value[0]) && !IsSpace(value[|value| - 1])
    requires !(value[0] == '\'' || value[0] == '"')
    ensures Scan([section + ":", "  " + (key + ": " + value)], section, key, false) == Some(value)
  {
    var entry := "  " + (key + ": " + value);
    HeaderOpens(section, key, [entry]);
    EntryYields(section, key, value);
  }

  /** The header line at indent 0 opens the block. */
  lemma {:induction false} HeaderOpens(section: string, key: string, rest: seq<string>)
    requires section != [] && !IsSpace(section[0]) && section[0] != '#'
    ensures Scan([section + ":"] + rest, section, key, false) == Scan(rest, section, key, true)
  {
    var header := section + ":";
    HeaderLine(section, header);
    assert ([header] + rest)[1..] == rest;
    assert ([header] + rest)[0] == header;
  }

  /** The header line strips to itself, starts with `section:` and is not indented. */
  lemma {:induction false} HeaderLine(section: string, header: string)
    requires section != [] && !IsSpace(section[0]) && section[0] != '#'
    requires header == section + ":"
    ensures Strip(header) == header && header != []
    ensures !StartsWith(header, "#") && StartsWith(header, section + ":")
    ensures Indent(header) == 0
  {
    assert header[0] == section[0];
    StripNoSpaceEnds(header);
    assert header[..|section| + 1] == header;
    assert LStripChars(header, {' '}) == header;
  }

  /** Inside the block, the indented `key: value` line yields the value. */
  lemma EntryYields(section: string, key: string, value: string)
    requires key != [] && !IsSpace(key[0]) && key[0] != '#' && ':' !in key
    requires value != [] && '#' !in value && !IsSpace(value[0]) && !IsSpace(value[|value| - 1])
    requires !(value[0] == '\'' || value[0] == '"')
    ensures Scan(["  " + (key + ": " + value)], section, key, true) == Some(value)
  {
    var stripped := key + ": " + value;
    EntryLine(stripped);
    assert StartsWith(stripped, key + ":") by {
      assert stripped[..|key| + 1] == key + ":";
    }
    assert !StartsWith(stripped, "#") by {
      assert stripped[0] == key[0];
    }
    KeyLineAnswers("  " + stripped, section, key);
    ColonAfterKey(key, value);
    CleanPlain(value, "");
  }

  /** Inside the block, an indented `key:` line gives the answer, whatever follows. */
  lemma KeyLineAnswers(line: string, section: string, key: string)
    requires Strip(line) != [] && !StartsWith(Strip(line), "#")
    requires Indent(line) > 0 && StartsWith(Strip(line), key + ":")
    ensures Scan([line], section, key, true) == CleanValue(AfterColon(Strip(line)))
  {
  }

  /** The indented line strips to its text and is indented by two. */
  lemma {:induction false} EntryLine(stripped: string)
    requires stripped != [] && !IsSpace(stripped[0]) && !IsSpace(stripped[|stripped| - 1])
    ensures Strip("  " + stripped) == stripped
    ensures Indent("  " + stripped) == 2
  {
    var once := " " + stripped;
    var twice := "  " + stripped;
    assert twice[1..] == once;
    assert once[1..] == stripped;
    StripDropsBlank(twice);
    StripDropsBlank(once);
    StripNoSpaceEnds(stripped);
    LStripDropsBlank(twice);
    LStripDropsBlank(once);
    assert LStripChars(stripped, {' '}) == stripped by {
      assert stripped[0] != ' ';
    }
  }

  /** A leading blank is dropped by `strip`. */
  lemma {:induction false} StripDropsBlank(s: string)
    requires s != [] && s[0] == ' '
    ensures Strip(s) == Strip(s[1..])
  {
  }

  /** A leading blank is dropped by `lstrip(" ")`. */
  lemma {:induction false} LStripDropsBlank(s: string)
    requires s != [] && s[0] == ' '
    ensures LStripChars(s, {' '}) == LStripChars(s[1..], {' '})
  {
  }

  /** The first colon of `key: rest` is the one after the key. */
  lemma ColonAfterKey(key: string, rest: string)
    requires ':' !in key
    ensures AfterColon(key + ": " + rest) == " " + rest
  {
    var s := key + ": " + rest;
    assert Find(s, ':') == |key| by {
      assert s[|key|] == ':';
      assert s[..|key|] == key;
    }
    assert s[|key| + 1..] == " " + rest;
  }

  /** `_fallback_read_section_bool`: the boolean word found, or the default. */
  function ReadSectionBool(text: string, section: string, key: string, default: bool): (r: bool)
    ensures SectionValue(text, section, key).None? ==> r == default
    ensures SectionValue(text, section, key).Some? ==>
      match CoerceBool(JStr(SectionValue(text, section, key).value))
      case Some(b) => r == b
      case None => r == default
  {
    var value := SectionValue(text, section, key);
    if value.None? then default
    else
      var coerced := CoerceBool(JStr(value.value));
      if coerced.Some? then coerced.value else default
  }

  /** `_fallback_manifest_from_text`: the two booleans always, the report output only when one
      is written. */
  function FallbackManifest(text: string, defaultSuggestIssues: bool, defaultIncludeWhy: bool): (r: Json)
    ensures r.JObj? && Get(r.entries, "actions").Some? && Get(r.entries, "report").Some?
    ensures var report := Get(r.entries, "report").value;
      report.JObj? && Get(report.entries, "include_why_why").Some? &&
      Get(report.entries, "include_why_why").value.JBool? &&
      (Get(report.entries, "output").Some? <==> SectionValue(text, "report", "output").Some?)
    ensures var actions := Get(r.entries, "actions").value;
      actions.JObj? && Get(actions.entries, "suggest_issues").Some? && Get(actions.entries, "suggest_issues").value.JBool?
  {
    var includeWhy := ReadSectionBool(text, "report", "include_why_why", defaultIncludeWhy);
    var output := SectionValue(text, "report", "output");
    var report := [("include_why_why", JBool(includeWhy))] + (if output.Some? then [("output", JStr(output.value))] else []);
    var suggest := ReadSectionBool(text, "actions", "suggest_issues", defaultSuggestIssues);
    JObj([("actions", JObj([("suggest_issues", JBool(suggest))])), ("report", JObj(report))])
  }

  /** `load_actions_suggest_issues` and `load_report_include_why` given a manifest: the boolean
      at `manifest[section][key]` when it coerces, otherwise the default. */
  function ManifestBool(manifest: seq<(string, Json)>, section: string, key: string, default: bool): (r: bool)
    ensures manifest == [] ==> r == default
    ensures r != default ==> Get(manifest, section).Some? && Get(manifest, section).value.JObj?
    ensures manifest != [] && Get(manifest, section).Some? && Get(manifest, section).value.JObj? ==>
      var found := Get(Get(manifest, section).value.entries, key);
      (found.Some? && CoerceBool(found.value).Some? ==> r == CoerceBool(found.value).value) &&
      (found.None? || CoerceBool(found.value).None? ==> r == default)
  {
    if manifest == [] then default
    else
      var block := Get(manifest, section);
      if block.Some? && block.value.JObj? then
        var found := Get(block.value.entries, key);
        if found.Some? && CoerceBool(found.value).Some? then CoerceBool(found.value).value else default
      else default
  }

  function LoadActionsSuggestIssues(manifest: seq<(string, Json)>, default: bool): bool {
    ManifestBool(manifest, "actions", "suggest_issues", default)
  }

  function LoadReportIncludeWhy(manifest: seq<(string, Json)>, default: bool): bool {
    ManifestBool(manifest, "report", "include_why_why", default)
  }

  /** Loading the line reader's manifest gives back what the line reader found. */
  lemma FallbackLoadsBack(text: string, suggest: bool, includeWhy: bool)
    ensures LoadActionsSuggestIssues(FallbackManifest(text, suggest, includeWhy).entries, suggest) ==
      ReadSectionBool(text, "actions", "suggest_issues", suggest)
    ensures LoadReportIncludeWhy(FallbackManifest(text, suggest, includeWhy).entries, includeWhy) ==
      ReadSectionBool(text, "report", "include_why_why", includeWhy)
  {
  }

  /** `PurePosixPath.is_absolute`. */
  predicate IsAbsolute(p: PurePath) { p.root != "" }

  /** `base / other`. */
  function JoinPath(base: PurePath, other: PurePath): (r: PurePath)
    ensures IsAbsolute(other) ==> r == other
    ensures !IsAbsolute(other) ==> r.root == base.root && r.parts == base.parts + other.parts
  {
    if IsAbsolute(other) then other else PurePath(base.root, base.parts + other.parts)
  }

  /** `DEFAULT_REPORT`: `reports/today.md` under the workflow root. */
  function DefaultReport(base: PurePath): PurePath {
    JoinPath(base, PurePath("", ["reports", "today.md"]))
  }

  /** The report output the manifest names, joined onto the base when relative. */
  function Candidate(manifest: seq<(string, Json)>, base: PurePath): (r: Option<PurePath>)
    ensures IsAbsolute(base) && r.Some? ==> IsAbsolute(r.value)
  {
    var section := if manifest != [] then Get(manifest, "report") else None;
    var candidate := if section.Some? && section.value.JObj? then Get(section.value.entries, "output") else None;
    if candidate.Some? && candidate.value.JStr? && Strip(candidate.value.s) != [] then
      Some(JoinPath(base, FromString(Strip(candidate.value.s))))
    else None
  }

  /** `load_report_output_path` given a manifest; `base` is `BASE_DIR`. */
  function LoadReportOutputPath(manifest: seq<(string, Json)>, default: Option<PurePath>, base: PurePath): (r: PurePath)
    ensures IsAbsolute(base) ==> IsAbsolute(r)
    ensures var fallback := default.GetOr(DefaultReport(base));
      Candidate(manifest, base).None? ==> r == JoinPath(base, fallback)
    ensures var fallback := default.GetOr(DefaultReport(base));
      Candidate(manifest, base) == Some(DefaultReport(base)) && fallback != DefaultReport(base) ==>
        r == JoinPath(base, fallback)
    ensures var fallback := default.GetOr(DefaultReport(base));
      Candidate(manifest, base).Some? && IsAbsolute(base) &&
      (Candidate(manifest, base).value != DefaultReport(base) || fallback == DefaultReport(base)) ==>
        r == Candidate(manifest, base).value
  {
    var fallback := default.GetOr(DefaultReport(base));
    var candidate := Candidate(manifest, base);
    var redirected := if candidate == Some(DefaultReport(base)) && fallback != DefaultReport(base) then Some(fallback) else candidate;
    var chosen := redirected.GetOr(fallback);
    JoinPath(base, chosen)
  }

  /** A relative `report.output` lands under the base directory. */
  lemma RelativeOutput(output: string, base: PurePath)
    requires IsAbsolute(base)
    requires Strip(output) != [] && !StartsWith(Strip(output), "/")
    requires JoinPath(base, FromString(Strip(output))) != DefaultReport(base)
    ensures LoadReportOutputPath([("report", JObj([("output", JStr(output))]))], None, base) ==
      PurePath(base.root, base.parts + FromString(Strip(output)).parts)
  {
  }

  /** The tests whose recorded statuses include both `pass` and `fail`. */
  function FlakyTests(statuses: map<string, set<string>>): (r: set<string>)
    ensures r <= statuses.Keys
    ensures forall name :: name in r <==> name in statuses && "pass" in statuses[name] && "fail" in statuses[name]
  {
    set name | name in statuses && "pass" in statuses[name] && "fail" in statuses[name]
  }

  /** A subset is no larger, and as large only when it is the whole set. */
  lemma {:induction false} SubsetSize(a: set<string>, b: set<string>)
    requires a <= b
    ensures |a| <= |b|
    ensures |a| == |b| ==> a == b
    decreases |b|
  {
    if b != {} {
      var x :| x in b;
      SubsetSize(a - {x}, b - {x});
      if x in a {
        assert |a - {x}| == |a| - 1;
        assert a == (a - {x}) + {x};
        assert b == (b - {x}) + {x};
      } else {
        assert a - {x} == a;
      }
    }
  }

  /** The flaky rate: flaky tests over distinct tests, 0 when there are none. */
  function FlakyRate(statuses: map<string, set<string>>): (r: real)
    ensures 0.0 <= r <= 1.0
    ensures r == 0.0 <==> FlakyTests(statuses) == {}
    ensures r == 1.0 <==> statuses != map[] && FlakyTests(statuses) == statuses.Keys
  {
    var flaky := FlakyTests(statuses);
    SubsetSize(flaky, statuses.Keys);
    if |statuses| == 0 then 0.0 else (|flaky| as real) / (|statuses| as real)
  }
}
