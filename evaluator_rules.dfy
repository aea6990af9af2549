/** The guardrail side of `quality/evaluator/cli.py`: matching a loaded rule against the
    evaluation items, counting the violations by severity, and the pass/review decisions
    that combine them with the metric thresholds. */
module EvaluatorRules {
  import opened Wrappers
  import opened Text
  import opened Json
  import opened EvaluatorPairs

  // ---------------------------------------------------------------------------
  // _value_matches and _matches_mapping

  /** The numeric value of a number; `bool` counts as 0 or 1. */
  function NumberValue(j: Json): real
    requires IsNumber(j)
  {
    match j
    case JBool(b) => if b then 1.0 else 0.0
    case JInt(i) => i as real
    case JFloat(r, _) => r
  }

  /** Python's `actual == expected` where `expected` is a scalar: numbers compare by value,
      strings by content, and nothing else is equal to a scalar. */
  predicate ScalarEquals(actual: Json, expected: Json) {
    (IsNumber(actual) && IsNumber(expected) && NumberValue(actual) == NumberValue(expected))
    || (actual.JStr? && expected.JStr? && actual.s == expected.s)
  }

  /** `{str(key): value for key, value in actual.items()}`: a later binding of a key wins. */
  function ToMap(entries: seq<(string, Json)>): (m: map<string, Json>)
    ensures forall i :: 0 <= i < |entries| ==> entries[i].0 in m
    ensures forall k :: k in m ==> exists i :: 0 <= i < |entries| && entries[i].0 == k
  {
    if entries == [] then map[]
    else
      var n := |entries| - 1;
      assert forall i :: 0 <= i < n ==> entries[..n][i] == entries[i];
      ToMap(entries[..n])[entries[n].0 := entries[n].1]
  }

  /** `_value_matches`: a mapping matches a mapping that holds its keys with matching values,
      a list matches when any option does, `null` matches only `null`, and a scalar matches
      an equal value or one with the same `str()`. */
  predicate ValueMatches(expected: Json, actual: Json)
    decreases expected, 1
  {
    match expected
    case JObj(_) => actual.JObj? && MatchesMapping(expected, ToMap(actual.entries))
    case JList(options) => exists i :: 0 <= i < |options| && ValueMatches(options[i], actual)
    case JNull => actual == JNull
    case _ => actual != JNull && (ScalarEquals(actual, expected) || PyStr(actual) == PyStr(expected))
  }

  /** `_matches_mapping`: every key of `expected` is bound in `actual` to a matching value. */
  predicate MatchesMapping(expected: Json, actual: map<string, Json>)
    requires expected.JObj?
    decreases expected, 0
  {
    forall i :: 0 <= i < |expected.entries| ==>
      expected.entries[i].0 in actual && ValueMatches(expected.entries[i].1, actual[expected.entries[i].0])
  }

  /** An empty condition mapping matches any metadata. */
  lemma EmptyMappingMatches(actual: map<string, Json>)
    ensures MatchesMapping(JObj([]), actual)
  {
  }

  /** Extra keys in the metadata never spoil a match: matching only looks at the keys the
      condition names. */
  lemma MatchesMappingExtraKeys(expected: Json, actual: map<string, Json>, more: map<string, Json>)
    requires expected.JObj?
    requires forall k :: k in actual ==> k in more && more[k] == actual[k]
    requires MatchesMapping(expected, actual)
    ensures MatchesMapping(expected, more)
  {
    forall i | 0 <= i < |expected.entries|
      ensures expected.entries[i].0 in more && ValueMatches(expected.entries[i].1, more[expected.entries[i].0])
    {
      assert expected.entries[i].0 in actual;
    }
  }

  /** A condition binding a key to a scalar is met by metadata that binds the key to the same
      value, and by metadata whose value prints the same, such as the number 1 and the
      string "1". */
  lemma ScalarConditionMet(key: string, value: Json, actual: Json)
    requires !value.JObj? && !value.JList? && value != JNull && actual != JNull
    requires actual == value || PyStr(actual) == PyStr(value)
    ensures MatchesMapping(JObj([(key, value)]), map[key := actual])
  {
    assert JObj([(key, value)]).entries[0] == (key, value);
  }

  /** An integer condition and a string value match, in either direction, exactly when the
      string is the integer's decimal text: `_value_matches` falls back to comparing `str()`. */
  lemma NumberMatchesItsText(n: int, text: string)
    ensures ValueMatches(JInt(n), JStr(text)) <==> text == IntToString(n)
    ensures ValueMatches(JStr(text), JInt(n)) <==> text == IntToString(n)
  {
  }

  /** A list of options matches a value matched by any one option. */
  lemma OptionListMatches(options: seq<Json>, k: nat, actual: Json)
    requires k < |options| && ValueMatches(options[k], actual)
    ensures ValueMatches(JList(options), actual)
  {
  }

  // ---------------------------------------------------------------------------
  // _evaluate_when

  /** `_evaluate_when` for `rule.get("when")`: no conditions or a non-mapping always holds;
      a `metadata` condition must be a mapping that the item's metadata matches. */
  predicate EvaluateWhen(conditions: Json, metadata: map<string, Json>) {
    if !Truthy(conditions) || !conditions.JObj? then true
    else
      var required := GetOr(conditions.entries, "metadata", JNull);
      required == JNull || (required.JObj? && MatchesMapping(required, metadata))
  }

  // ---------------------------------------------------------------------------
  // _matches_rule

  /** The `any` and `all` node lists a rule's `match` section selects, with the fallback to the
      rule's own `any` and `all` lists; `JNull` stands for Python's `None`. */
  function SelectNodes(rule: Record): (r: (Json, Json)) {
    var section := GetOr(rule, "match", JObj([]));
    var (anyNodes, allNodes) :=
      if section.JObj? then (GetOr(section.entries, "any", JNull), GetOr(section.entries, "all", JNull))
      else
        var mode := Lower(Strip(PyStr(section)));
        if mode == "any" then (GetOr(rule, "any", JNull), JNull)
        else if mode == "all" then (JNull, GetOr(rule, "all", JNull))
        else (JNull, JNull);
    var fallbackAny := GetOr(rule, "any", JNull);
    var fallbackAll := GetOr(rule, "all", JNull);
    (if anyNodes == JNull && fallbackAny.JList? then fallbackAny else anyNodes,
     if allNodes == JNull && fallbackAll.JList? then fallbackAll else allNodes)
  }

  /** `_extract_contains`: the string `contains` values of the mapping nodes of a list. A
      string or a mapping iterates over characters or keys, never mappings, so it yields
      nothing. */
  function ExtractContains(nodes: Json): (values: seq<string>)
    ensures nodes.JList? ==> |values| <= |nodes.items|
    ensures !nodes.JList? ==> values == []
  {
    if !nodes.JList? then []
    else ContainsOf(nodes.items)
  }

  function ContainsOf(nodes: seq<Json>): (values: seq<string>)
    ensures |values| <= |nodes|
    ensures forall v :: v in values <==>
              exists i :: 0 <= i < |nodes| && nodes[i].JObj? && Get(nodes[i].entries, "contains") == Some(JStr(v))
  {
    if nodes == [] then []
    else
      var n := |nodes| - 1;
      var before := ContainsOf(nodes[..n]);
      assert forall i :: 0 <= i < n ==> nodes[..n][i] == nodes[i];
      var node := nodes[n];
      if node.JObj? && Get(node.entries, "contains").Some? && Get(node.entries, "contains").value.JStr? then
        before + [Get(node.entries, "contains").value.s]
      else before
  }

  /** `_contains_value`: an empty candidate never matches; otherwise the candidate occurs in
      the output, or it ends in line breaks and what is left without them occurs. */
  predicate ContainsValue(candidate: string, text: string) {
    candidate != ""
    && (Contains(text, candidate)
        || (EndsWith(candidate, "\n")
            && var trimmed := RStripChars(candidate, {'\n'});
               trimmed != "" && Contains(text, trimmed)))
  }

  /** `_matches_rule`: the `when` conditions hold and some `any` value occurs, or there are
      `all` values and every one occurs. */
  predicate MatchesRule(rule: Record, item: Item) {
    var (anyNodes, allNodes) := SelectNodes(rule);
    var anyValues := ExtractContains(anyNodes);
    var allValues := ExtractContains(allNodes);
    EvaluateWhen(GetOr(rule, "when", JNull), item.metadata)
    && ((exists i :: 0 <= i < |anyValues| && ContainsValue(anyValues[i], item.output))
        || (allValues != [] && forall i :: 0 <= i < |allValues| ==> ContainsValue(allValues[i], item.output)))
  }

  /** An empty `contains` never matches. */
  lemma EmptyContainsNeverMatches(text: string)
    ensures !ContainsValue("", text)
  {
  }

  /** A candidate that occurs in the output matches; one that does not occur matches only
      through its trailing line breaks. */
  lemma ContainsValueOccurs(candidate: string, text: string)
    requires candidate != ""
    ensures Contains(text, candidate) ==> ContainsValue(candidate, text)
    ensures ContainsValue(candidate, text) && !Contains(text, candidate) ==>
              EndsWith(candidate, "\n") && Contains(text, RStripChars(candidate, {'\n'}))
  {
  }

  /** A rule whose `when` conditions fail never matches. */
  lemma WhenGuardsRule(rule: Record, item: Item)
    requires !EvaluateWhen(GetOr(rule, "when", JNull), item.metadata)
    ensures !MatchesRule(rule, item)
  {
  }

  /** `all` needs a non-empty list: a rule whose node lists hold no `contains` values never
      matches, whatever the output. */
  lemma NoValuesNoMatch(rule: Record, item: Item)
    requires ExtractContains(SelectNodes(rule).0) == [] && ExtractContains(SelectNodes(rule).1) == []
    ensures !MatchesRule(rule, item)
  {
  }

  /** A match section that is a mapping without `any` falls back to the rule's own `any`
      list. */
  lemma MatchSectionFallsBack(rule: Record, section: seq<(string, Json)>, nodes: seq<Json>)
    requires Get(rule, "match") == Some(JObj(section))
    requires Get(section, "any").None?
    requires Get(rule, "any") == Some(JList(nodes))
    ensures SelectNodes(rule).0 == JList(nodes)
  {
  }

  // ---------------------------------------------------------------------------
  // _evaluate_guardrails

  /** `_SEVERITY_PRIORITY`. */
  function Priority(severity: string): (p: nat)
    ensures p <= 3
    ensures p > 0 <==> severity == "critical" || severity == "major" || severity == "minor"
  {
    if severity == "critical" then 3 else if severity == "major" then 2 else if severity == "minor" then 1 else 0
  }

  predicate IsSeverity(severity: string) {
    severity == "critical" || severity == "major" || severity == "minor"
  }

  datatype Counts = Counts(critical: nat, major: nat, minor: nat) {
    function Of(severity: string): nat {
      if severity == "critical" then critical
      else if severity == "major" then major
      else if severity == "minor" then minor
      else 0
    }

    function Bump(severity: string): (c: Counts)
      ensures forall s :: c.Of(s) == if s == severity && IsSeverity(s) then Of(s) + 1 else Of(s)
    {
      if severity == "critical" then this.(critical := critical + 1)
      else if severity == "major" then this.(major := major + 1)
      else if severity == "minor" then this.(minor := minor + 1)
      else this
    }
  }

  datatype Violation = Violation(id: Json, severity: string, message: Json)

  datatype Report = Report(counts: Counts, violations: seq<Violation>, maxSeverity: string)

  /** The severity of a rule: `str(rule.get("severity", "")).strip().lower()`. */
  function RuleSeverity(rule: Record): string {
    Lower(Strip(PyStr(GetOr(rule, "severity", JStr("")))))
  }

  /** Some item matches the rule. */
  predicate AnyItemMatches(rule: Record, items: seq<Item>) {
    AnyOf(items, Matcher(rule))
  }

  /** `_matches_rule(rule, ·)` as a test on items. */
  function Matcher(rule: Record): Item -> bool {
    item => MatchesRule(rule, item)
  }

  /** Some item passes `p`, tested from the first item on. */
  predicate AnyOf(items: seq<Item>, p: Item -> bool) {
    items != [] && (AnyOf(items[..|items| - 1], p) || p(items[|items| - 1]))
  }

  /** Some item matches exactly when one of them does. */
  lemma AnyItemMatchesMeans(rule: Record, items: seq<Item>)
    ensures AnyItemMatches(rule, items) <==> exists i :: 0 <= i < |items| && MatchesRule(rule, items[i])
  {
    AnyOfMeans(items, Matcher(rule));
    assert forall i :: 0 <= i < |items| ==> (Matcher(rule)(items[i]) <==> MatchesRule(rule, items[i]));
  }

  lemma {:induction false} AnyOfMeans(items: seq<Item>, p: Item -> bool)
    ensures AnyOf(items, p) <==> exists i :: 0 <= i < |items| && p(items[i])
    decreases |items|
  {
    if items != [] {
      var n := |items| - 1;
      var front := items[..n];
      AnyOfMeans(front, p);
      if AnyOf(front, p) {
        var i :| 0 <= i < n && p(front[i]);
        assert front[i] == items[i];
      }
      if exists i :: 0 <= i < |items| && p(items[i]) {
        var i :| 0 <= i < |items| && p(items[i]);
        if i < n {
          assert front[i] == items[i];
        }
      }
    }
  }

  /** The counts and the violations gathered so far. */
  datatype Tallied = Tallied(counts: Counts, violations: seq<Violation>)

  /** The counts and violations after the loop over `rules`: a rule with a known severity that
      some item matches is counted and reported; every other rule is skipped. */
  function Tally(rules: seq<Record>, items: seq<Item>): Tallied {
    if rules == [] then Tallied(Counts(0, 0, 0), [])
    else
      var n := |rules| - 1;
      var before := Tally(rules[..n], items);
      var rule := rules[n];
      var severity := RuleSeverity(rule);
      if !IsSeverity(severity) || !AnyItemMatches(rule, items) then before
      else Tallied(before.counts.Bump(severity),
                   before.violations + [Violation(GetOr(rule, "id", JStr("")), severity, GetOr(rule, "description", JStr("")))])
  }

  /** How many violations have `severity`. */
  function CountOf(violations: seq<Violation>, severity: string): nat {
    if violations == [] then 0
    else CountOf(violations[..|violations| - 1], severity) + (if violations[|violations| - 1].severity == severity then 1 else 0)
  }

  /** The counts agree with the violations, and every violation has a known severity. */
  lemma {:induction false} TallyCounts(rules: seq<Record>, items: seq<Item>)
    ensures forall s :: Tally(rules, items).counts.Of(s) == CountOf(Tally(rules, items).violations, s)
    ensures forall v :: v in Tally(rules, items).violations ==> IsSeverity(v.severity)
    decreases |rules|
  {
    if rules != [] {
      var n := |rules| - 1;
      TallyCounts(rules[..n], items);
      var before := Tally(rules[..n], items);
      var rule := rules[n];
      var severity := RuleSeverity(rule);
      if IsSeverity(severity) && AnyItemMatches(rule, items) {
        var v := before.violations + [Violation(GetOr(rule, "id", JStr("")), severity, GetOr(rule, "description", JStr("")))];
        assert v[..|v| - 1] == before.violations;
        forall s
          ensures before.counts.Bump(severity).Of(s) == CountOf(v, s)
        {
          assert CountOf(v, s) == CountOf(before.violations, s) + (if severity == s then 1 else 0);
        }
      }
    }
  }

  /** With no items no rule matches, so nothing is counted. */
  lemma {:induction false} TallyNoItems(rules: seq<Record>)
    ensures Tally(rules, []) == Tallied(Counts(0, 0, 0), [])
    decreases |rules|
  {
    if rules != [] {
      TallyNoItems(rules[..|rules| - 1]);
    }
  }

  /** A rule whose severity is unknown changes nothing. */
  lemma UnknownSeveritySkipped(rules: seq<Record>, rule: Record, items: seq<Item>)
    requires !IsSeverity(RuleSeverity(rule))
    ensures Tally(rules + [rule], items) == Tally(rules, items)
  {
    assert (rules + [rule])[..|rules|] == rules;
  }

  /** The highest severity with a non-zero count, else "none". */
  function MaxSeverity(counts: Counts): (s: string)
    ensures s == "none" <==> counts == Counts(0, 0, 0)
    ensures s != "none" ==> IsSeverity(s) && counts.Of(s) > 0
    ensures forall t :: IsSeverity(t) && Priority(t) > Priority(s) ==> counts.Of(t) == 0
  {
    if counts.critical > 0 then "critical"
    else if counts.major > 0 then "major"
    else if counts.minor > 0 then "minor"
    else "none"
  }

  /** What `_evaluate_guardrails` returns for a loaded rule list. */
  function Guardrails(rules: seq<Record>, items: seq<Item>): Report {
    if items == [] then Report(Counts(0, 0, 0), [], "none")
    else
      var tally := Tally(rules, items);
      Report(tally.counts, tally.violations, MaxSeverity(tally.counts))
  }

  /** The report is consistent: counts agree with violations, and the maximum severity is the
      highest one counted. With no items everything is zero. */
  lemma GuardrailsConsistent(rules: seq<Record>, items: seq<Item>)
    ensures var r := Guardrails(rules, items);
            (forall s :: r.counts.Of(s) == CountOf(r.violations, s))
            && r.maxSeverity == MaxSeverity(r.counts)
            && (items == [] ==> r.counts == Counts(0, 0, 0) && r.violations == [])
  {
    TallyCounts(rules, items);
    if items == [] {
      assert Guardrails(rules, items) == Report(Counts(0, 0, 0), [], "none");
      assert MaxSeverity(Counts(0, 0, 0)) == "none";
    }
  }

  /** `any(_matches_rule(rule, item) for item in items)`. */
  method AnyMatches(rule: Record, items: seq<Item>) returns (found: bool)
    ensures found == AnyItemMatches(rule, items)
  {
    for i := 0 to |items|
      invariant !AnyItemMatches(rule, items[..i])
    {
      assert items[..i + 1][..i] == items[..i];
      assert Matcher(rule)(items[i]) == MatchesRule(rule, items[i]);
      if MatchesRule(rule, items[i]) {
        AnyPrefixMatches(rule, items, i + 1);
        return true;
      }
    }
    assert items[..|items|] == items;
    return false;
  }

  /** A match among the first `k` items is a match among all of them. */
  lemma AnyPrefixMatches(rule: Record, items: seq<Item>, k: nat)
    requires k <= |items| && AnyItemMatches(rule, items[..k])
    ensures AnyItemMatches(rule, items)
  {
    AnyOfPrefix(items, k, Matcher(rule));
  }

  lemma {:induction false} AnyOfPrefix(items: seq<Item>, k: nat, p: Item -> bool)
    requires k <= |items| && AnyOf(items[..k], p)
    ensures AnyOf(items, p)
    decreases |items| - k
  {
    if k < |items| {
      var next := items[..k + 1];
      assert next[..k] == items[..k];
      AnyOfPrefix(items, k + 1, p);
    } else {
      assert items[..k] == items;
    }
  }

  /** The loop of `_evaluate_guardrails` over the severities by decreasing priority. */
  method HighestCounted(counts: Counts) returns (maxSeverity: string)
    ensures maxSeverity == MaxSeverity(counts)
  {
    maxSeverity := "none";
    var bySeverity := ["critical", "major", "minor"];
    for i := 0 to |bySeverity|
      invariant maxSeverity == "none"
      invariant forall j :: 0 <= j < i ==> counts.Of(bySeverity[j]) == 0
    {
      if counts.Of(bySeverity[i]) > 0 {
        maxSeverity := bySeverity[i];
        break;
      }
    }
    assert bySeverity[0] == "critical" && bySeverity[1] == "major" && bySeverity[2] == "minor";
    assert counts.Of("critical") == counts.critical && counts.Of("major") == counts.major && counts.Of("minor") == counts.minor;
  }

  /** `_evaluate_guardrails` over a loaded rule list. */
  method EvaluateGuardrails(rules: seq<Record>, items: seq<Item>) returns (report: Report)
    ensures report == Guardrails(rules, items)
  {
    var counts := Counts(0, 0, 0);
    if items == [] {
      return Report(counts, [], "none");
    }
    var violations: seq<Violation> := [];
    for i := 0 to |rules|
      invariant Tallied(counts, violations) == Tally(rules[..i], items)
    {
      assert rules[..i + 1][..i] == rules[..i];
      var rule := rules[i];
      var severity := Lower(Strip(PyStr(GetOr(rule, "severity", JStr("")))));
      if !IsSeverity(severity) {
        continue;
      }
      var matched := AnyMatches(rule, items);
      if matched {
        counts := counts.Bump(severity);
        violations := violations + [Violation(GetOr(rule, "id", JStr("")), severity, GetOr(rule, "description", JStr("")))];
      }
    }
    assert rules[..|rules|] == rules;
    var maxSeverity := HighestCounted(counts);
    report := Report(counts, violations, maxSeverity);
  }

  // ---------------------------------------------------------------------------
  // _apply_thresholds, _apply_violation_threshold, _summarize_results

  const BertF1Threshold: real := 0.85
  const RougeLThreshold: real := 0.70

  /** A metric dictionary with its `threshold_met` flag. */
  datatype Scored = Scored(scores: map<string, real>, thresholdMet: bool)

  /** `_apply_thresholds`: BERTScore passes at an F1 of at least 0.85, the surface metrics at
      a ROUGE-L of at least 0.70; a missing score counts as 0.0 and fails. */
  function ApplyThresholds(bert: map<string, real>, surface: map<string, real>): (r: (Scored, Scored))
    ensures r.0.scores == bert && r.1.scores == surface
    ensures r.0.thresholdMet <==> "f1" in bert && bert["f1"] >= 0.85
    ensures r.1.thresholdMet <==> "rougeL" in surface && surface["rougeL"] >= 0.70
  {
    var f1 := if "f1" in bert then bert["f1"] else 0.0;
    var rougeL := if "rougeL" in surface then surface["rougeL"] else 0.0;
    (Scored(bert, f1 >= BertF1Threshold), Scored(surface, rougeL >= RougeLThreshold))
  }

  /** The guardrail report with its lower-cased severity and `threshold_met` flag. */
  datatype Checked = Checked(report: Report, thresholdMet: bool)

  /** `_apply_violation_threshold`. */
  function ApplyViolationThreshold(report: Report): (r: Checked)
    ensures r.report.maxSeverity == Lower(report.maxSeverity)
    ensures r.report.counts == report.counts && r.report.violations == report.violations
    ensures r.thresholdMet <==> Lower(report.maxSeverity) != "critical"
  {
    var severity := Lower(report.maxSeverity);
    Checked(report.(maxSeverity := severity), severity != "critical")
  }

  /** The guardrail threshold is met exactly when no critical rule matched. */
  lemma ViolationThresholdMeansNoCritical(rules: seq<Record>, items: seq<Item>)
    ensures ApplyViolationThreshold(Guardrails(rules, items)).thresholdMet
            <==> Guardrails(rules, items).counts.critical == 0
  {
    var s := Guardrails(rules, items).maxSeverity;
    SeverityNamesLower();
    assert s == "critical" || s == "major" || s == "minor" || s == "none";
  }

  /** The severity names are already lower case. */
  lemma SeverityNamesLower()
    ensures Lower("critical") == "critical" && Lower("major") == "major"
    ensures Lower("minor") == "minor" && Lower("none") == "none"
  {
    LowerKeeps("critical");
    LowerKeeps("major");
    LowerKeeps("minor");
    LowerKeeps("none");
  }

  lemma LowerKeeps(s: string)
    requires forall i :: 0 <= i < |s| ==> 'a' <= s[i] <= 'z'
    ensures Lower(s) == s
  {
  }

  datatype Summary = Summary(overallPass: bool, needsReview: bool, generatedAt: string)

  /** `_summarize_results`: `now` is the clock reading used when no non-empty time is given. */
  function Summarize(bert: Scored, surface: Scored, violations: Checked, generatedAt: Option<string>, now: string)
    : (r: Summary)
    ensures r.overallPass <==> violations.report.maxSeverity != "critical" && (bert.thresholdMet || surface.thresholdMet)
    ensures r.needsReview <==> !r.overallPass || !(bert.thresholdMet && surface.thresholdMet)
                               || Priority(violations.report.maxSeverity) >= 2
    ensures r.generatedAt == if generatedAt.Some? && generatedAt.value != "" then generatedAt.value else now
  {
    var bertPass := bert.thresholdMet;
    var rougePass := surface.thresholdMet;
    var severity := violations.report.maxSeverity;
    var overallPass := severity != "critical" && (bertPass || rougePass);
    var needsReview := !overallPass || !(bertPass && rougePass) || Priority(severity) >= Priority("major");
    Summary(overallPass, needsReview, if generatedAt.Some? && generatedAt.value != "" then generatedAt.value else now)
  }

  /** Everything a run decides from its scores, rules and items. */
  function Decide(bert: map<string, real>, surface: map<string, real>, rules: seq<Record>, items: seq<Item>,
                  generatedAt: Option<string>, now: string): Summary
  {
    var (b, s) := ApplyThresholds(bert, surface);
    Summarize(b, s, ApplyViolationThreshold(Guardrails(rules, items)), generatedAt, now)
  }

  /** A run passes only if no critical rule matched and one metric threshold is met; it is
      clean (no review) only if both thresholds are met and nothing above minor matched. */
  lemma DecisionMeaning(bert: map<string, real>, surface: map<string, real>, rules: seq<Record>, items: seq<Item>,
                        generatedAt: Option<string>, now: string)
    ensures var r := Decide(bert, surface, rules, items, generatedAt, now);
            var counts := Guardrails(rules, items).counts;
            var bertPass := "f1" in bert && bert["f1"] >= 0.85;
            var rougePass := "rougeL" in surface && surface["rougeL"] >= 0.70;
            (r.overallPass <==> counts.critical == 0 && (bertPass || rougePass))
            && (!r.needsReview <==> bertPass && rougePass && counts.critical == 0 && counts.major == 0)
  {
    ViolationThresholdMeansNoCritical(rules, items);
    var s := Guardrails(rules, items).maxSeverity;
    SeverityNamesLower();
  }

  /** A failing run always needs review. */
  lemma FailureNeedsReview(bert: Scored, surface: Scored, violations: Checked, generatedAt: Option<string>, now: string)
    ensures !Summarize(bert, surface, violations, generatedAt, now).overallPass
            ==> Summarize(bert, surface, violations, generatedAt, now).needsReview
  {
  }
}
