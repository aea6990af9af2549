/** Normalising a Prometheus metric name with its labels into the key under which samples are
    aggregated: the base name, an optional `_quantile_<value>` suffix, and the remaining
    labels without environment labels, sorted. */
module PromNames {
  import opened Wrappers
  import opened Text
  import opened PromLabels

  const AdditiveSuffixes: seq<string> := ["_total", "_sum", "_count"]
  const BucketSuffixes: seq<string> := ["_bucket"]
  const TimestampSuffixes: seq<string> := ["_timestamp"]

  /** `s.endswith(suffixes)` for a tuple of suffixes. */
  predicate EndsWithAny(s: string, suffixes: seq<string>) {
    exists i :: 0 <= i < |suffixes| && EndsWith(s, suffixes[i])
  }

  /** `metric[label_start : label_end + 1]`: from the first `{` through the first `}` after it,
      or nothing when either is missing. */
  function LabelSection(metric: string): (r: string)
    ensures r != [] ==> |r| >= 2 && r[0] == '{' && r[|r| - 1] == '}' && '}' !in r[..|r| - 1]
    ensures r == [] ==> '{' !in metric || '}' !in metric[Find(metric, '{')..]
  {
    var start := Find(metric, '{');
    if start < 0 then []
    else
      var close := Find(metric[start..], '}');
      if close < 0 then []
      else
        var r := metric[start..start + close + 1];
        assert r[..|r| - 1] == metric[start..][..close];
        r
  }

  /** The name before the first of `{`, `[`, `(`, tried in that order. */
  function BaseBy(metric: string, delimiters: string): (r: string)
    ensures |r| <= |metric| && r == metric[..|r|]
  {
    if delimiters == [] then metric
    else
      var index := Find(metric, delimiters[0]);
      if index >= 0 then metric[..index] else BaseBy(metric, delimiters[1..])
  }

  const Delimiters: string := "{[("

  function BaseName(metric: string): (r: string)
    ensures |r| <= |metric| && r == metric[..|r|]
    ensures '{' in metric ==> r == metric[..Find(metric, '{')] && '{' !in r
  {
    BaseBy(metric, Delimiters)
  }

  /** The first `quantile` label taken out of a label list, the rest kept in order. */
  datatype QuantileSplit = QuantileSplit(quantile: Option<string>, rest: seq<Label>)

  /** The loop over the parsed labels in `_normalize_prometheus_metric_name`. */
  function SplitQuantile(labels: seq<Label>): (r: QuantileSplit)
    ensures |r.rest| + (if r.quantile.Some? then 1 else 0) == |labels|
  {
    if labels == [] then QuantileSplit(None, [])
    else
      var init := SplitQuantile(labels[..|labels| - 1]);
      var last := labels[|labels| - 1];
      if last.key == "quantile" && init.quantile.None? then QuantileSplit(Some(last.value), init.rest)
      else QuantileSplit(init.quantile, init.rest + [last])
  }

  predicate NoQuantile(labels: seq<Label>) {
    forall i :: 0 <= i < |labels| ==> labels[i].key != "quantile"
  }

  /** Without a `quantile` label nothing is taken out. */
  lemma {:induction false} SplitWithoutQuantile(labels: seq<Label>)
    requires NoQuantile(labels)
    ensures SplitQuantile(labels) == QuantileSplit(None, labels)
    decreases |labels|
  {
    if labels != [] {
      SplitWithoutQuantile(labels[..|labels| - 1]);
      assert labels == labels[..|labels| - 1] + [labels[|labels| - 1]];
    }
  }

  /** The first `quantile` label, at `k`, is the one taken out; later ones stay. */
  lemma {:induction false} SplitFirstQuantile(labels: seq<Label>, k: nat)
    requires k < |labels| && labels[k].key == "quantile" && NoQuantile(labels[..k])
    ensures SplitQuantile(labels) == QuantileSplit(Some(labels[k].value), labels[..k] + labels[k + 1..])
    decreases |labels|
  {
    var init := labels[..|labels| - 1];
    if k == |labels| - 1 {
      assert init == labels[..k];
      SplitWithoutQuantile(init);
      assert labels[k + 1..] == [];
    } else {
      assert init[..k] == labels[..k];
      SplitFirstQuantile(init, k);
      assert labels[k + 1..] == init[k + 1..] + [labels[|labels| - 1]];
    }
  }

  /** `_normalize_prometheus_metric_name`'s quantile loop: the first `quantile` label is taken
      out, every other label is kept in order. */
  method SplitQuantileLabels(labels: seq<Label>) returns (quantile: Option<string>, rest: seq<Label>)
    ensures QuantileSplit(quantile, rest) == SplitQuantile(labels)
  {
    quantile := None;
    rest := [];
    for i := 0 to |labels|
      invariant QuantileSplit(quantile, rest) == SplitQuantile(labels[..i])
    {
      assert labels[..i + 1][..i] == labels[..i];
      if labels[i].key == "quantile" && quantile.None? {
        quantile := Some(labels[i].value);
        continue;
      }
      rest := rest + [labels[i]];
    }
    assert labels[..|labels|] == labels;
  }

  function Braced(body: string): string {
    "{" + body + "}"
  }

  /** `name` followed by the labels, sorted, in braces; just `name` when there are none. */
  function WithLabels(name: string, labels: seq<Label>): (r: string)
    ensures labels == [] ==> r == name
    ensures labels != [] ==> r == name + Braced(RenderLabels(SortLabels(labels)))
  {
    if labels == [] then name else name + Braced(RenderLabels(SortLabels(labels)))
  }

  /** `_normalize_prometheus_metric_name(metric, preserve_label_for_bucket=preserveBucket)`. */
  function Normalize(metric: string, preserveBucket: bool): (r: string)
    ensures LabelSection(metric) == [] ==> r == BaseName(metric)
  {
    var labels := LabelSection(metric);
    var base := BaseName(metric);
    var parsed := if labels != [] then FindLabels(labels, 0) else [];
    if preserveBucket && EndsWith(base, "_bucket") && labels != [] then
      if parsed == [] then base else WithLabels(base, WithoutEnvironment(parsed))
    else if labels == [] || parsed == [] then base
    else
      var split := SplitQuantile(parsed);
      if split.quantile.None? && (EndsWithAny(base, AdditiveSuffixes) || EndsWithAny(base, TimestampSuffixes)) then base
      else
        var name := if split.quantile.Some? then base + "_quantile_" + Sanitize(split.quantile.value) else base;
        WithLabels(name, WithoutEnvironment(split.rest))
  }

  /** `_normalize_prometheus_metric_name`: the base found by trying each delimiter in turn,
      then the bucket case, the quantile loop and the label filter. */
  method NormalizePrometheusMetricName(metric: string, preserveBucket: bool) returns (r: string)
    ensures r == Normalize(metric, preserveBucket)
  {
    var labels := LabelSection(metric);
    var base := metric;
    for i := 0 to |Delimiters|
      invariant base == metric && BaseBy(metric, Delimiters[i..]) == BaseName(metric)
    {
      var index := Find(metric, Delimiters[i]);
      if index != -1 {
        base := metric[..index];
        break;
      }
      assert Delimiters[i..][1..] == Delimiters[i + 1..];
    }
    var parsed := if labels != [] then FindLabels(labels, 0) else [];
    if preserveBucket && EndsWith(base, "_bucket") && labels != [] {
      if parsed != [] {
        var filtered := FilterEnvironmentLabels(parsed);
        if filtered == [] {
          return base;
        }
        return base + Braced(RenderLabels(SortLabels(filtered)));
      }
      return base;
    }
    if labels == [] || parsed == [] {
      return base;
    }
    var quantile, remaining := SplitQuantileLabels(parsed);
    var filtered := FilterEnvironmentLabels(remaining);
    var name := base;
    if quantile.Some? {
      name := base + "_quantile_" + Sanitize(quantile.value);
    } else if EndsWithAny(base, AdditiveSuffixes) || EndsWithAny(base, TimestampSuffixes) {
      return base;
    }
    if filtered == [] {
      return name;
    }
    return name + Braced(RenderLabels(SortLabels(filtered)));
  }

  // ---------------------------------------------------------------------------------------
  // What the normalised name carries.

  /** The labels read from a metric's label section. */
  function ParsedLabels(metric: string): seq<Label> {
    var labels := LabelSection(metric);
    if labels != [] then FindLabels(labels, 0) else []
  }

  /** Outside the bucket case, the first `quantile` label becomes a `_quantile_<value>` suffix
      with the value sanitised, and it is not among the labels kept. */
  lemma QuantileBecomesSuffix(metric: string, preserveBucket: bool, k: nat)
    requires !(preserveBucket && EndsWith(BaseName(metric), "_bucket"))
    requires var parsed := ParsedLabels(metric);
      k < |parsed| && parsed[k].key == "quantile" && NoQuantile(parsed[..k])
    ensures var parsed := ParsedLabels(metric);
      Normalize(metric, preserveBucket)
      == WithLabels(BaseName(metric) + "_quantile_" + Sanitize(parsed[k].value),
                    WithoutEnvironment(parsed[..k] + parsed[k + 1..]))
  {
    SplitFirstQuantile(ParsedLabels(metric), k);
  }

  /** Outside the bucket case, a counter, sum, count or timestamp without a `quantile` label
      loses all its labels. */
  lemma CounterLosesLabels(metric: string, preserveBucket: bool)
    requires !(preserveBucket && EndsWith(BaseName(metric), "_bucket"))
    requires NoQuantile(ParsedLabels(metric))
    requires EndsWithAny(BaseName(metric), AdditiveSuffixes) || EndsWithAny(BaseName(metric), TimestampSuffixes)
    ensures Normalize(metric, preserveBucket) == BaseName(metric)
  {
    SplitWithoutQuantile(ParsedLabels(metric));
  }

  /** Outside the bucket case, any other metric keeps its non-environment labels, sorted. */
  lemma GaugeKeepsLabels(metric: string, preserveBucket: bool)
    requires !(preserveBucket && EndsWith(BaseName(metric), "_bucket"))
    requires NoQuantile(ParsedLabels(metric))
    requires !EndsWithAny(BaseName(metric), AdditiveSuffixes) && !EndsWithAny(BaseName(metric), TimestampSuffixes)
    ensures Normalize(metric, preserveBucket) == WithLabels(BaseName(metric), WithoutEnvironment(ParsedLabels(metric)))
  {
    SplitWithoutQuantile(ParsedLabels(metric));
  }

  /** No character of a written label list is a brace. */
  lemma {:induction false} RenderedBraceFree(labels: seq<Label>)
    requires forall l :: l in labels ==> IsIdentifier(l.key) && '}' !in l.value
    ensures '}' !in RenderLabels(labels)
    decreases |labels|
  {
    if labels != [] {
      assert '}' !in labels[0].key;
      if |labels| > 1 {
        RenderedBraceFree(labels[1..]);
      }
    }
  }

  /** `find` past a prefix that lacks the character. */
  lemma {:induction false} FindPast(x: string, y: string, c: char)
    requires c !in x
    ensures Find(x + y, c) == if c in y then |x| + Find(y, c) else -1
    decreases |x|
  {
    if x != [] {
      assert (x + y)[1..] == x[1..] + y;
      FindPast(x[1..], y, c);
    } else {
      assert x + y == y;
    }
  }

  /** Where the braces of `name{body}` are found. */
  lemma BracesFound(name: string, body: string)
    requires '{' !in name && '}' !in body
    ensures Find(name + Braced(body), '{') == |name|
    ensures Find(Braced(body), '}') == |body| + 1
  {
    FindPast(name, Braced(body), '{');
    assert Braced(body)[0] == '{';
    FindPast("{" + body, "}", '}');
  }

  /** The label section runs from the first `{` to the first `}` after it. */
  lemma SectionAt(metric: string, start: int, close: int)
    requires start == Find(metric, '{') >= 0
    requires close == Find(metric[start..], '}') >= 0
    ensures LabelSection(metric) == metric[start..start + close + 1]
  {
  }

  /** Slicing `a + b` past `a` gives back `b`. */
  lemma SliceAfter(a: string, b: string)
    ensures (a + b)[|a|..] == b
    ensures (a + b)[|a|..|a| + |b|] == b
  {
  }

  /** The label section of `name{body}` when `name` has no `{` and `body` no `}`. */
  lemma SectionOfBraced(name: string, body: string)
    requires '{' !in name && '}' !in body
    ensures LabelSection(name + Braced(body)) == Braced(body)
  {
    var r := name + Braced(body);
    BracesFound(name, body);
    SliceAfter(name, Braced(body));
    SectionAt(r, |name|, |body| + 1);
  }

  /** The base of `name{body}` is `name`. */
  lemma BaseOfBraced(name: string, body: string)
    requires '{' !in name && '}' !in body
    ensures BaseName(name + Braced(body)) == name
  {
    BracesFound(name, body);
    var r := name + Braced(body);
    assert '{' in r by {
      assert r[|name|] == '{';
    }
    assert r[..|name|] == name;
  }

  /** A name written with labels reads back as that name and those labels, sorted: the label
      section is exactly the written braces, and the label pattern recovers the list. */
  lemma WithLabelsReadBack(name: string, labels: seq<Label>)
    requires '{' !in name && labels != []
    requires forall l :: l in labels ==> IsIdentifier(l.key) && ValueText(l.value) && '}' !in l.value
    ensures var r := WithLabels(name, labels);
      BaseName(r) == name && ParsedLabels(r) == SortLabels(labels)
  {
    var sorted := SortLabels(labels);
    assert forall l :: l in sorted ==> l in labels by {
      forall l | l in sorted ensures l in labels {
        assert l in multiset(sorted);
      }
    }
    RenderedBraceFree(sorted);
    SectionOfBraced(name, RenderLabels(sorted));
    BaseOfBraced(name, RenderLabels(sorted));
    RenderedLabelsRead(sorted);
  }

  /** In the bucket case, normalising a normalised name with labels changes nothing: bucket
      series keep one stable key. */
  lemma BucketNameStable(metric: string)
    requires EndsWith(BaseName(metric), "_bucket") && LabelSection(metric) != []
    requires WithoutEnvironment(ParsedLabels(metric)) != []
    ensures Normalize(Normalize(metric, true), true) == Normalize(metric, true)
  {
    var labels := LabelSection(metric);
    var base := BaseName(metric);
    var filtered := WithoutEnvironment(ParsedLabels(metric));
    assert '{' in metric;
    FoundValuesBraceFree(labels, 0);
    WithoutEnvironmentMembers(ParsedLabels(metric));
    WithLabelsReadBack(base, filtered);
    var r := WithLabels(base, filtered);
    var sorted := SortLabels(filtered);
    assert Normalize(metric, true) == r;
    assert LabelSection(r) != [] by {
      assert ParsedLabels(r) == sorted && sorted != [];
    }
    assert forall i :: 0 <= i < |sorted| ==> sorted[i].key !in EnvironmentKeys by {
      forall i | 0 <= i < |sorted| ensures sorted[i].key !in EnvironmentKeys {
        assert sorted[i] in multiset(sorted);
      }
    }
    WithoutEnvironmentKeeps(sorted);
    LabelsSortedUnique(SortLabels(sorted), sorted);
  }
}
