/** The collector's bookkeeping: which Prometheus sample lines are kept and how repeated samples
    of one series are combined, the entries read from one Chainlit log record, the first-wins
    merge of the per-source results and the list of required metrics still missing. */
module PromCollect {
  import opened Wrappers
  import opened Text
  import opened Json
  import opened PromSample
  import opened PromNames

  /** A kept sample: its normalised series name and its value. */
  datatype Reading = Reading(name: string, value: real)

  /** `name.split("{", 1)[0]`: the series name before its first `{`. */
  function SeriesBase(name: string): (r: string)
    ensures |r| <= |name| && r == name[..|r|] && '{' !in r
    ensures '{' in name ==> |r| < |name| && name[|r|] == '{'
    ensures '{' !in name ==> r == name
  {
    var i := Find(name, '{');
    if i < 0 then name else name[..i]
  }

  /** How a repeated sample is combined with the stored one. */
  datatype Kind = Largest | Total | Latest

  /** The branch of the aggregation a series name falls into, decided on its base: quantiles and
      timestamps keep the largest value, counters, sums, counts and buckets add up, anything else
      keeps the latest sample. */
  function KindOf(name: string): Kind {
    var base := SeriesBase(name);
    if Contains(base, "_quantile_") then Largest
    else if EndsWithAny(base, TimestampSuffixes) then Largest
    else if EndsWithAny(base, AdditiveSuffixes) || EndsWithAny(base, BucketSuffixes) then Total
    else Latest
  }

  /** `max(previous, value)`, `previous + value` or `value`. */
  function Combine(kind: Kind, previous: real, value: real): real {
    match kind
    case Largest => if value > previous then value else previous
    case Total => previous + value
    case Latest => value
  }

  /** One line of the exposition: a sample whose normalised name carries the prefix and whose
      value parses as a number, or nothing. */
  function Accept(line: string, prefix: string): (r: Option<Reading>)
    ensures Strip(line) == [] || Strip(line)[0] == '#' ==> r.None?
    ensures r.Some? ==> StartsWith(r.value.name, prefix)
  {
    var sample := SplitSample(line);
    if sample.None? then None
    else
      var name := Normalize(sample.value.metric, true);
      if !StartsWith(name, prefix) then None
      else
        var value := ParseFloat(sample.value.value);
        if value.None? then None else Some(Reading(name, value.value))
  }

  /** Stores one reading: a first occurrence as is, a repeat combined by the series' kind. */
  function Store(results: map<string, real>, reading: Reading): map<string, real> {
    if reading.name in results
    then results[reading.name := Combine(KindOf(reading.name), results[reading.name], reading.value)]
    else results[reading.name := reading.value]
  }

  /** The samples kept from the payload, in order. */
  function Readings(lines: seq<string>, prefix: string): (r: seq<Reading>)
    ensures |r| <= |lines|
    ensures forall i :: 0 <= i < |r| ==> StartsWith(r[i].name, prefix)
  {
    if lines == [] then []
    else
      var readings := Readings(lines[..|lines| - 1], prefix);
      var reading := Accept(lines[|lines| - 1], prefix);
      if reading.None? then readings else readings + [reading.value]
  }

  /** The aggregation of kept samples, in order. */
  function Aggregate(readings: seq<Reading>): map<string, real> {
    if readings == [] then map[]
    else Store(Aggregate(readings[..|readings| - 1]), readings[|readings| - 1])
  }

  /** The result of `collect_prometheus_metrics` on the lines of a fetched payload. */
  function Collected(lines: seq<string>, prefix: string): map<string, real> {
    Aggregate(Readings(lines, prefix))
  }

  /** One more line adds its reading, if it is kept. */
  lemma ReadingsStep(lines: seq<string>, i: nat, prefix: string)
    requires i < |lines|
    ensures Accept(lines[i], prefix).None? ==> Readings(lines[..i + 1], prefix) == Readings(lines[..i], prefix)
    ensures Accept(lines[i], prefix).Some? ==>
      Readings(lines[..i + 1], prefix) == Readings(lines[..i], prefix) + [Accept(lines[i], prefix).value]
  {
    assert lines[..i + 1][..i] == lines[..i];
  }

  /** One more kept reading is stored on top of the aggregation so far. */
  lemma AggregateStep(readings: seq<Reading>, reading: Reading)
    ensures Aggregate(readings + [reading]) == Store(Aggregate(readings), reading)
  {
    assert (readings + [reading])[..|readings|] == readings;
  }

  /** The aggregation loop over the payload's lines. */
  method CollectPrometheusSamples(lines: seq<string>, prefix: string) returns (results: map<string, real>)
    ensures results == Collected(lines, prefix)
  {
    results := map[];
    for i := 0 to |lines|
      invariant results == Aggregate(Readings(lines[..i], prefix))
    {
      ReadingsStep(lines, i, prefix);
      var reading := Accept(lines[i], prefix);
      if reading.Some? {
        AggregateStep(Readings(lines[..i], prefix), reading.value);
      }
      results := CollectLine(results, lines[i], prefix);
    }
    assert lines[..|lines|] == lines;
  }

  /** The body of the aggregation loop: one line of the payload. */
  method CollectLine(results: map<string, real>, line: string, prefix: string) returns (updated: map<string, real>)
    ensures Accept(line, prefix).None? ==> updated == results
    ensures Accept(line, prefix).Some? ==> updated == Store(results, Accept(line, prefix).value)
  {
    var reading := ReadLine(line, prefix);
    if reading.None? {
      return results;
    }
    updated := StoreReading(results, reading.value.name, reading.value.value);
  }

  /** The filtering half of the loop body: split the line, normalise the name, check the
      prefix and parse the value. */
  method ReadLine(line: string, prefix: string) returns (r: Option<Reading>)
    ensures r == Accept(line, prefix)
  {
    var parsed := SplitPrometheusSample(line);
    if parsed.None? {
      return None;
    }
    var normalized := NormalizePrometheusMetricName(parsed.value.metric, true);
    if !StartsWith(normalized, prefix) {
      return None;
    }
    var numeric := ParseFloat(parsed.value.value);
    if numeric.None? {
      return None;
    }
    return Some(Reading(normalized, numeric.value));
  }

  /** The storing half of the loop body: a first occurrence is stored, a repeat is combined
      by the branch its base name selects. */
  method StoreReading(results: map<string, real>, normalized: string, value: real) returns (updated: map<string, real>)
    ensures updated == Store(results, Reading(normalized, value))
  {
    var base := SeriesBase(normalized);
    if normalized !in results {
      return results[normalized := value];
    }
    var previous := results[normalized];
    if Contains(base, "_quantile_") {
      updated := results[normalized := if value > previous then value else previous];
    } else if EndsWithAny(base, TimestampSuffixes) {
      updated := results[normalized := if value > previous then value else previous];
    } else if EndsWithAny(base, AdditiveSuffixes) || EndsWithAny(base, BucketSuffixes) {
      updated := results[normalized := previous + value];
    } else {
      updated := results[normalized := value];
    }
  }

  /** The values of the readings of one series, in order. */
  function Values(readings: seq<Reading>, name: string): (r: seq<real>)
    ensures |r| <= |readings|
  {
    if readings == [] then []
    else
      var values := Values(readings[..|readings| - 1], name);
      var last := readings[|readings| - 1];
      if last.name == name then values + [last.value] else values
  }

  /** The largest of some values. */
  function MaxOf(values: seq<real>): (r: real)
    requires values != []
    ensures r in values
    ensures forall i :: 0 <= i < |values| ==> values[i] <= r
  {
    if |values| == 1 then values[0]
    else
      var m := MaxOf(values[..|values| - 1]);
      var last := values[|values| - 1];
      assert forall i :: 0 <= i < |values| - 1 ==> values[i] == values[..|values| - 1][i];
      if last > m then last else m
  }

  /** The sum of some values. */
  function SumOf(values: seq<real>): real {
    if values == [] then 0.0 else SumOf(values[..|values| - 1]) + values[|values| - 1]
  }

  /** What a series' repeated samples come to, by its kind: the largest, the sum or the last. */
  function Reduce(kind: Kind, values: seq<real>): real
    requires values != []
  {
    match kind
    case Largest => MaxOf(values)
    case Total => SumOf(values)
    case Latest => values[|values| - 1]
  }

  /** One more sample of a series folds into the reduction of the earlier ones. */
  lemma ReduceStep(kind: Kind, values: seq<real>, value: real)
    requires values != []
    ensures Reduce(kind, values + [value]) == Combine(kind, Reduce(kind, values), value)
  {
    assert (values + [value])[..|values|] == values;
  }

  /** A single sample reduces to itself, whatever the kind. */
  lemma ReduceSingle(kind: Kind, value: real)
    ensures Reduce(kind, [value]) == value
  {
    match kind
    case Largest =>
    case Total =>
      assert [value][..0] == [];
      assert SumOf([]) == 0.0;
    case Latest =>
  }

  /** A series is in the aggregation exactly when some reading belongs to it, and its value is
      the largest, the sum or the last of that series' values, as its kind says. */
  lemma {:induction false} AggregateMeaning(readings: seq<Reading>, name: string)
    ensures name in Aggregate(readings) <==> Values(readings, name) != []
    ensures name in Aggregate(readings) ==> Aggregate(readings)[name] == Reduce(KindOf(name), Values(readings, name))
  {
    if readings != [] {
      var front := readings[..|readings| - 1];
      var last := readings[|readings| - 1];
      assert readings == front + [last];
      AggregateMeaning(front, name);
      var values := Values(front, name);
      if last.name == name {
        if values != [] {
          ReduceStep(KindOf(name), values, last.value);
        } else {
          ReduceSingle(KindOf(name), last.value);
        }
      }
    }
  }

  /** A series seen once keeps its value as is. */
  lemma SingleSample(lines: seq<string>, prefix: string, name: string, value: real)
    requires Values(Readings(lines, prefix), name) == [value]
    ensures name in Collected(lines, prefix) && Collected(lines, prefix)[name] == value
  {
    AggregateMeaning(Readings(lines, prefix), name);
    ReduceSingle(KindOf(name), value);
  }

  /** A series with values has a reading of that name. */
  lemma {:induction false} ValuesHaveReading(readings: seq<Reading>, name: string)
    requires Values(readings, name) != []
    ensures exists i :: 0 <= i < |readings| && readings[i].name == name
  {
    var front := readings[..|readings| - 1];
    if readings[|readings| - 1].name != name {
      ValuesHaveReading(front, name);
      var i :| 0 <= i < |front| && front[i].name == name;
      assert readings[i] == front[i];
    }
  }

  /** Only series carrying the prefix are collected. */
  lemma CollectedPrefixed(lines: seq<string>, prefix: string, name: string)
    requires name in Collected(lines, prefix)
    ensures StartsWith(name, prefix)
  {
    var readings := Readings(lines, prefix);
    AggregateMeaning(readings, name);
    ValuesHaveReading(readings, name);
  }

  /** One entry of a Chainlit log record: the metric name as found, and its raw value. */
  datatype Entry = Entry(metric: Json, value: Json)

  /** `record.get(key)` is not None and `"value" in record`: the named entry, if any. */
  function Headed(entries: seq<(string, Json)>, key: string): (r: seq<Entry>)
    ensures |r| <= 1
    ensures r != [] <==> Get(entries, key).Some? && Get(entries, key).value != JNull && Get(entries, "value").Some?
    ensures r != [] ==> r[0] == Entry(Get(entries, key).value, Get(entries, "value").value)
  {
    var head := Get(entries, key);
    var value := Get(entries, "value");
    if head.Some? && head.value != JNull && value.Some? then [Entry(head.value, value.value)] else []
  }

  /** The `metrics` object of a record, if it has one. */
  predicate HasMetrics(entries: seq<(string, Json)>) {
    Get(entries, "metrics").Some? && Get(entries, "metrics").value.JObj?
  }

  /** `metrics.items()` when `record["metrics"]` is an object. */
  function Nested(entries: seq<(string, Json)>): (r: seq<Entry>)
    ensures !HasMetrics(entries) ==> r == []
    ensures HasMetrics(entries) ==> var items := Get(entries, "metrics").value.entries;
      |r| == |items| && forall i :: 0 <= i < |items| ==> r[i] == Entry(JStr(items[i].0), items[i].1)
  {
    if HasMetrics(entries)
    then
      var items := Get(entries, "metrics").value.entries;
      seq(|items|, i requires 0 <= i < |items| => Entry(JStr(items[i].0), items[i].1))
    else []
  }

  /** `_iter_metric_entries`: nothing for a record that is not an object; otherwise the
      `metric`/`value` entry, then the `name`/`value` entry, then every entry of `metrics`. */
  function MetricEntries(record: Json): (r: seq<Entry>)
    ensures !IsMapping(record) ==> r == []
    ensures record.JObj? && Get(record.entries, "value").None? ==> r == Nested(record.entries)
    ensures record.JObj? ==> |r| <= 2 + |Nested(record.entries)|
  {
    if !record.JObj? then []
    else Headed(record.entries, "metric") + Headed(record.entries, "name") + Nested(record.entries)
  }

  /** A non-null `metric` with a `value` is the first entry. */
  lemma MetricLeads(entries: seq<(string, Json)>)
    requires Headed(entries, "metric") != []
    ensures MetricEntries(JObj(entries))[0] == Entry(Get(entries, "metric").value, Get(entries, "value").value)
  {
  }

  /** A non-null `name` with a `value` comes right after the `metric` entry, if there is one. */
  lemma NameFollows(entries: seq<(string, Json)>)
    requires Headed(entries, "name") != []
    ensures MetricEntries(JObj(entries))[|Headed(entries, "metric")|] ==
      Entry(Get(entries, "name").value, Get(entries, "value").value)
  {
  }

  /** The last `|items|` entries of `r` are the entries made from `items`, in their order. */
  predicate ClosedBy(r: seq<Entry>, items: seq<(string, Json)>) {
    |items| <= |r| &&
    forall i :: 0 <= i < |items| ==> r[|r| - |items| + i] == Entry(JStr(items[i].0), items[i].1)
  }

  /** The items of the `metrics` object close the list, in their order. */
  lemma {:induction false} NestedCloses(entries: seq<(string, Json)>)
    requires HasMetrics(entries)
    ensures ClosedBy(MetricEntries(JObj(entries)), Get(entries, "metrics").value.entries)
  {
    var r := MetricEntries(JObj(entries));
    var lead := Headed(entries, "metric") + Headed(entries, "name");
    MetricEntriesParts(entries, r, lead);
    NestedTail(r, lead, Nested(entries), Get(entries, "metrics").value.entries);
  }

  /** The entries of an object record are its headed entries followed by its nested ones. */
  lemma {:induction false} MetricEntriesParts(entries: seq<(string, Json)>, r: seq<Entry>, lead: seq<Entry>)
    requires r == MetricEntries(JObj(entries))
    requires lead == Headed(entries, "metric") + Headed(entries, "name")
    ensures r == lead + Nested(entries)
  {
  }

  /** A list that ends with the entries made from `items` has them as its last `|items|`. */
  lemma {:induction false} NestedTail(r: seq<Entry>, lead: seq<Entry>, nested: seq<Entry>, items: seq<(string, Json)>)
    requires r == lead + nested
    requires |nested| == |items|
    requires forall i :: 0 <= i < |items| ==> nested[i] == Entry(JStr(items[i].0), items[i].1)
    ensures ClosedBy(r, items)
  {
    forall i | 0 <= i < |items|
      ensures r[|r| - |items| + i] == Entry(JStr(items[i].0), items[i].1)
    {
      assert r[|r| - |items| + i] == nested[i];
    }
  }

  /** One pass of the merge: keys already merged keep their value; new keys are copied. */
  function Absorb(merged: map<string, real>, source: map<string, real>): (r: map<string, real>)
    ensures r.Keys == merged.Keys + source.Keys
    ensures forall k :: k in merged ==> r[k] == merged[k]
    ensures forall k :: k in source && k !in merged ==> r[k] == source[k]
  {
    map k | k in merged.Keys + source.Keys :: if k in merged then merged[k] else source[k]
  }

  /** `_merge_metrics(*sources)`. */
  function Merged(sources: seq<map<string, real>>): map<string, real> {
    if sources == [] then map[]
    else Absorb(Merged(sources[..|sources| - 1]), sources[|sources| - 1])
  }

  /** The first source that defines `key`, or -1. */
  function FirstHolder(sources: seq<map<string, real>>, key: string): (r: int)
    ensures -1 <= r < |sources|
    ensures r == -1 <==> forall i :: 0 <= i < |sources| ==> key !in sources[i]
    ensures r >= 0 ==> key in sources[r] && forall i :: 0 <= i < r ==> key !in sources[i]
  {
    if sources == [] then -1
    else
      var front := sources[..|sources| - 1];
      var first := FirstHolder(front, key);
      assert forall i :: 0 <= i < |front| ==> front[i] == sources[i];
      if first >= 0 then first
      else if key in sources[|sources| - 1] then |sources| - 1
      else -1
  }

  /** The merge holds the union of the sources' keys, each with the value of the first source
      that defines it. */
  lemma {:induction false} MergedMeaning(sources: seq<map<string, real>>, key: string)
    ensures key in Merged(sources) <==> FirstHolder(sources, key) >= 0
    ensures key in Merged(sources) ==> Merged(sources)[key] == sources[FirstHolder(sources, key)][key]
  {
    if sources != [] {
      MergedMeaning(sources[..|sources| - 1], key);
    }
  }

  /** Two sources: the first wins on shared keys, and disjoint sources are simply combined. */
  lemma MergeTwo(first: map<string, real>, second: map<string, real>)
    ensures Merged([first, second]) == second + first
    ensures first.Keys !! second.Keys ==> Merged([first, second]) == first + second
  {
    assert [first, second][..1] == [first];
    assert [first][..0] == [];
    assert Merged([first]) == Absorb(map[], first);
    assert Absorb(map[], first) == first;
    assert Merged([first, second]) == Absorb(first, second);
  }

  /** A map with the merged keys and the first-wins values is the absorbed map. */
  lemma AbsorbAgrees(before: map<string, real>, source: map<string, real>, merged: map<string, real>)
    requires MergedSoFar(before, source, merged, {})
    ensures merged == Absorb(before, source)
  {
  }

  /** The merge loop: sources in order, each source's keys copied unless already present. */
  method MergeMetrics(sources: seq<map<string, real>>) returns (merged: map<string, real>)
    ensures merged == Merged(sources)
  {
    merged := map[];
    for i := 0 to |sources|
      invariant merged == Merged(sources[..i])
    {
      merged := MergeSource(merged, sources[i]);
      assert sources[..i + 1][..i] == sources[..i];
    }
    assert sources[..|sources|] == sources;
  }

  /** The inner loop of the merge: one source's items, skipping keys already merged. */
  method MergeSource(merged: map<string, real>, source: map<string, real>) returns (updated: map<string, real>)
    ensures updated == Absorb(merged, source)
  {
    updated := merged;
    var pending := source.Keys;
    while pending != {}
      invariant MergedSoFar(merged, source, updated, pending)
      decreases |pending|
    {
      var key :| key in pending;
      MergedSoFarStep(merged, source, updated, pending, key);
      pending := pending - {key};
      if key in updated {
        continue;
      }
      updated := updated[key := source[key]];
    }
    AbsorbAgrees(merged, source, updated);
  }

  /** The inner loop's invariant: the keys done so far are merged first-wins. */
  predicate MergedSoFar(merged: map<string, real>, source: map<string, real>, updated: map<string, real>, pending: set<string>) {
    && pending <= source.Keys
    && updated.Keys == merged.Keys + (source.Keys - pending)
    && forall k :: k in updated ==> updated[k] == if k in merged then merged[k] else source[k]
  }

  /** One key of the source keeps the inner loop's invariant. */
  lemma MergedSoFarStep(merged: map<string, real>, source: map<string, real>, updated: map<string, real>,
                        pending: set<string>, key: string)
    requires MergedSoFar(merged, source, updated, pending) && key in pending
    ensures MergedSoFar(merged, source, if key in updated then updated else updated[key := source[key]], pending - {key})
    ensures |pending - {key}| < |pending|
  {
  }

  /** `REQUIRED_METRIC_SUFFIXES`. */
  const RequiredSuffixes: seq<string> :=
    ["app_boot_timestamp", "jobs_processed_total", "jobs_failed_total", "healthz_request_total"]

  /** `_required_metric_names(prefix)`. */
  function RequiredMetricNames(prefix: string): (r: seq<string>)
    ensures |r| == |RequiredSuffixes|
    ensures forall i :: 0 <= i < |r| ==> StartsWith(r[i], prefix) && r[i][|prefix|..] == RequiredSuffixes[i]
  {
    seq(|RequiredSuffixes|, i requires 0 <= i < |RequiredSuffixes| => prefix + RequiredSuffixes[i])
  }

  /** The names of `names` not in the merged metrics, in order. */
  function Absent(names: seq<string>, merged: map<string, real>): (r: seq<string>)
    ensures forall x :: x in r <==> x in names && x !in merged
  {
    if names == [] then []
    else
      var rest := Absent(names[1..], merged);
      if names[0] in merged then rest else [names[0]] + rest
  }

  /** The required metrics missing from the merge, in order. */
  function Missing(merged: map<string, real>, prefix: string): (r: seq<string>)
    ensures forall x :: x in r <==> x in RequiredMetricNames(prefix) && x !in merged
  {
    Absent(RequiredMetricNames(prefix), merged)
  }

  /** The collector fails exactly when one of the required names is not in the merge. */
  lemma MissingMeaning(merged: map<string, real>, prefix: string)
    ensures Missing(merged, prefix) == [] <==>
      forall i :: 0 <= i < |RequiredSuffixes| ==> prefix + RequiredSuffixes[i] in merged
  {
    var names := RequiredMetricNames(prefix);
    var r := Missing(merged, prefix);
    assert forall i :: 0 <= i < |RequiredSuffixes| ==> names[i] == prefix + RequiredSuffixes[i];
    if r != [] {
      assert r[0] in names;
      var i :| 0 <= i < |names| && names[i] == r[0];
    } else {
      forall i | 0 <= i < |RequiredSuffixes|
        ensures prefix + RequiredSuffixes[i] in merged
      {
        assert names[i] in names;
      }
    }
  }
}
