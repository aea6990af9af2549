/** `_collect_pairs` of `quality/evaluator/cli.py`: pairing the expected records with the
    model's output records by their `id`. Every expected id yields exactly one evaluation item;
    the first input record with that id supplies the output, and an id no input answers gets
    an empty output. Records are decoded JSON objects. */
module EvaluatorPairs {
  import opened Wrappers
  import opened Json

  /** A decoded record: the bindings of a JSON object, in document order. */
  type Record = seq<(string, Json)>

  /** `EvaluationItem`. */
  datatype Item = Item(output: string, reference: string, metadata: map<string, Json>)

  /** The record keys that never become metadata at the top level. */
  const Reserved: set<string> := {"id", "output", "response", "expected", "reference", "metadata"}

  // ---------------------------------------------------------------------------
  // _select_text

  /** The value bound to `key`, unless it is missing or `null`. */
  function Present(record: Record, key: string): Option<Json> {
    match Get(record, key)
    case Some(v) => if v == JNull then None else Some(v)
    case None => None
  }

  /** `_select_text`: the text of the first candidate key with a non-null value, else "". */
  function SelectText(record: Record, candidates: seq<string>): (r: string)
    ensures (forall i :: 0 <= i < |candidates| ==> Present(record, candidates[i]).None?) ==> r == ""
    ensures forall i :: 0 <= i < |candidates| && Present(record, candidates[i]).Some?
                        && (forall j :: 0 <= j < i ==> Present(record, candidates[j]).None?)
                        ==> r == PyStr(Present(record, candidates[i]).value)
    decreases |candidates|
  {
    if candidates == [] then ""
    else
      match Present(record, candidates[0])
      case Some(v) => PyStr(v)
      case None =>
        var r := SelectText(record, candidates[1..]);
        assert forall i :: 1 <= i < |candidates| ==> candidates[i] == candidates[1..][i - 1];
        r
  }

  // ---------------------------------------------------------------------------
  // _extract_metadata

  /** `target[key] = value` for every binding of `entries`, in order, whose key is not in
      `skip` and whose value is not `null`. */
  function Overlay(target: map<string, Json>, entries: Record, skip: set<string>): (r: map<string, Json>)
    ensures forall k :: k in target ==> k in r
    ensures forall i :: 0 <= i < |entries| && entries[i].0 !in skip && entries[i].1 != JNull ==> entries[i].0 in r
    ensures forall k :: k in r ==>
              k in target || exists i :: 0 <= i < |entries| && entries[i].0 == k && k !in skip && entries[i].1 != JNull
    ensures forall k :: k in r && r[k] == JNull ==> k in target && target[k] == JNull
    ensures DistinctKeys(entries) ==>
              forall i :: 0 <= i < |entries| && entries[i].0 !in skip && entries[i].1 != JNull ==> r[entries[i].0] == entries[i].1
    decreases |entries|
  {
    if entries == [] then target
    else
      var n := |entries| - 1;
      var base := Overlay(target, entries[..n], skip);
      assert forall i :: 0 <= i < n ==> entries[..n][i] == entries[i];
      if entries[n].0 in skip || entries[n].1 == JNull then base else base[entries[n].0 := entries[n].1]
  }

  /** The record's own `metadata` object, when it is one. */
  function RawMetadata(record: Record): Record {
    match Get(record, "metadata")
    case Some(JObj(entries)) => entries
    case _ => []
  }

  /** What `_extract_metadata` returns: the non-null bindings of the `metadata` object,
      overridden by the record's own non-null, non-reserved keys. */
  function Metadata(record: Record): map<string, Json> {
    Overlay(Overlay(map[], RawMetadata(record), {}), record, Reserved)
  }

  /** Metadata never holds `null`, holds every non-null, non-reserved top-level key with its
      value, and holds nothing that neither the record nor its `metadata` object binds. */
  lemma MetadataContents(record: Record)
    requires DistinctKeys(record)
    ensures forall k :: k in Metadata(record) ==> Metadata(record)[k] != JNull
    ensures forall i :: 0 <= i < |record| && record[i].0 !in Reserved && record[i].1 != JNull
              ==> Metadata(record)[record[i].0] == record[i].1
    ensures forall k :: k in Metadata(record) ==>
              (exists i :: 0 <= i < |record| && record[i].0 == k && k !in Reserved)
              || (exists i :: 0 <= i < |RawMetadata(record)| && RawMetadata(record)[i].0 == k)
  {
  }

  /** One loop of `_extract_metadata`: copies the bindings `Overlay` keeps into `target`. */
  method CopyBindings(target: map<string, Json>, entries: Record, skip: set<string>) returns (r: map<string, Json>)
    ensures r == Overlay(target, entries, skip)
  {
    r := target;
    for i := 0 to |entries|
      invariant r == Overlay(target, entries[..i], skip)
    {
      OverlayStep(target, entries, skip, i);
      var (key, value) := entries[i];
      if key in skip || value == JNull {
        continue;
      }
      r := r[key := value];
    }
    assert entries[..|entries|] == entries;
  }

  lemma OverlayStep(target: map<string, Json>, entries: Record, skip: set<string>, i: int)
    requires 0 <= i < |entries|
    ensures var base := Overlay(target, entries[..i], skip);
            Overlay(target, entries[..i + 1], skip)
            == if entries[i].0 in skip || entries[i].1 == JNull then base else base[entries[i].0 := entries[i].1]
  {
    var e := entries[..i + 1];
    assert e[..i] == entries[..i] && e[i] == entries[i];
    OverlayLast(target, e, skip);
  }

  lemma OverlayLast(target: map<string, Json>, e: Record, skip: set<string>)
    requires e != []
    ensures var base := Overlay(target, e[..|e| - 1], skip);
            var last := e[|e| - 1];
            Overlay(target, e, skip) == if last.0 in skip || last.1 == JNull then base else base[last.0 := last.1]
  {
  }

  /** `_extract_metadata`: the `metadata` object first, then the record's own keys. */
  method ExtractMetadata(record: Record) returns (aggregated: map<string, Json>)
    ensures aggregated == Metadata(record)
  {
    aggregated := CopyBindings(map[], RawMetadata(record), {});
    aggregated := CopyBindings(aggregated, record, Reserved);
  }

  // ---------------------------------------------------------------------------
  // The expected map

  /** The key a record is filed under: `str(id)`, or nothing when the id is missing, `null`
      or the empty string. */
  function RecordKey(record: Record): Option<string> {
    match Get(record, "id")
    case None => None
    case Some(id) =>
      if id == JNull || id == JStr("") then None else Some(PyStr(id))
  }

  /** What the expected map holds for one id. */
  datatype Expected = Expected(reference: string, metadata: map<string, Json>, matched: bool)

  /** A Python dict from id to entry: its keys in insertion order and its bindings. */
  datatype Table = Table(order: seq<string>, entries: map<string, Expected>)

  predicate Distinct(s: seq<string>) {
    forall i, j :: 0 <= i < j < |s| ==> s[i] != s[j]
  }

  ghost predicate WellFormed(t: Table) {
    Distinct(t.order) && forall k :: k in t.entries <==> k in t.order
  }

  /** `t[key] = e`: a new key goes to the end; an existing key keeps its place. */
  function Store(t: Table, key: string, e: Expected): (r: Table)
    requires WellFormed(t)
    ensures WellFormed(r)
    ensures key in t.entries ==> r.order == t.order
    ensures key !in t.entries ==> r.order == t.order + [key]
    ensures r.entries == t.entries[key := e]
  {
    Table(if key in t.entries then t.order else t.order + [key], t.entries[key := e])
  }

  /** One step of the loop over the expected records. */
  function AddExpected(t: Table, record: Record): Table
    requires WellFormed(t)
  {
    match RecordKey(record)
    case None => t
    case Some(key) => Store(t, key, Expected(SelectText(record, ["expected", "reference"]), Metadata(record), false))
  }

  /** The expected map after the loop over the expected records. */
  function LoadExpected(records: seq<Record>): (t: Table)
    ensures WellFormed(t)
    ensures forall k :: k in t.entries ==> !t.entries[k].matched
  {
    if records == [] then Table([], map[])
    else AddExpected(LoadExpected(records[..|records| - 1]), records[|records| - 1])
  }

  /** The expected map holds exactly the ids of the expected records. */
  lemma {:induction false} ExpectedKeys(records: seq<Record>)
    ensures forall k :: k in LoadExpected(records).entries <==>
              exists i :: 0 <= i < |records| && RecordKey(records[i]) == Some(k)
    decreases |records|
  {
    if records != [] {
      var n := |records| - 1;
      ExpectedKeys(records[..n]);
      assert forall i :: 0 <= i < n ==> records[..n][i] == records[i];
    }
  }

  /** A later expected record with the same id replaces the entry and keeps its place. */
  lemma LaterExpectedReplaces(records: seq<Record>, record: Record, key: string)
    requires RecordKey(record) == Some(key)
    ensures var before := LoadExpected(records);
            var after := LoadExpected(records + [record]);
            (key in before.entries ==> after.order == before.order)
            && after.entries[key] == Expected(SelectText(record, ["expected", "reference"]), Metadata(record), false)
  {
    assert (records + [record])[..|records|] == records;
  }

  // ---------------------------------------------------------------------------
  // Matching the inputs

  /** The state of the loop over the input records: the expected map, the items so far, and
      (for the proofs) the id of each item. */
  datatype Pairing = Pairing(table: Table, items: seq<Item>, keys: seq<string>)

  /** One step of the loop over the input records: an input whose id is expected and not yet
      matched yields an item with its output, the expected reference and the merged metadata;
      every other input is ignored. */
  function MatchInput(p: Pairing, record: Record): Pairing
    requires WellFormed(p.table)
  {
    match RecordKey(record)
    case None => p
    case Some(key) =>
      if key !in p.table.entries || p.table.entries[key].matched then p
      else
        var e := p.table.entries[key];
        var metadata := e.metadata + Metadata(record);
        Pairing(Store(p.table, key, Expected(e.reference, metadata, true)),
                p.items + [Item(SelectText(record, ["output", "response"]), e.reference, metadata)],
                p.keys + [key])
  }

  function MatchInputs(p: Pairing, records: seq<Record>): (q: Pairing)
    requires WellFormed(p.table)
    ensures WellFormed(q.table)
  {
    if records == [] then p
    else
      var before := MatchInputs(p, records[..|records| - 1]);
      MatchInput(before, records[|records| - 1])
  }

  /** The pairing state is consistent with the expected map `t0` it started from: the same
      ids in the same order with the same references, one item per matched id, and every
      matched id answered by one of `inputs`. */
  ghost predicate Consistent(p: Pairing, t0: Table, inputs: seq<Record>) {
    SameIds(p, t0) && Recorded(p) && Answered(p, inputs)
  }

  /** The table keeps the ids, their order and their references. */
  ghost predicate SameIds(p: Pairing, t0: Table) {
    && WellFormed(p.table)
    && p.table.order == t0.order
    && (forall k :: k in p.table.entries <==> k in t0.entries)
    && (forall k :: k in p.table.entries ==> p.table.entries[k].reference == t0.entries[k].reference)
  }

  /** One item per matched id, each carrying its id's reference. */
  ghost predicate Recorded(p: Pairing) {
    && WellFormed(p.table)
    && |p.items| == |p.keys|
    && Distinct(p.keys)
    && (forall i :: 0 <= i < |p.keys| ==>
          p.keys[i] in p.table.entries && p.table.entries[p.keys[i]].matched
          && p.items[i].reference == p.table.entries[p.keys[i]].reference)
    && (forall k :: k in p.table.entries && p.table.entries[k].matched ==> k in p.keys)
  }

  /** Every matched id was carried by one of `inputs`. */
  ghost predicate Answered(p: Pairing, inputs: seq<Record>) {
    forall k :: k in p.table.entries && p.table.entries[k].matched ==>
      exists j :: 0 <= j < |inputs| && RecordKey(inputs[j]) == Some(k)
  }

  lemma MatchInputConsistent(p: Pairing, t0: Table, inputs: seq<Record>, record: Record)
    requires Consistent(p, t0, inputs)
    ensures Consistent(MatchInput(p, record), t0, inputs + [record])
  {
    MatchInputSameIds(p, t0, record);
    MatchInputRecorded(p, record);
    MatchInputAnswered(p, inputs, record);
  }

  lemma MatchInputSameIds(p: Pairing, t0: Table, record: Record)
    requires SameIds(p, t0)
    ensures SameIds(MatchInput(p, record), t0)
  {
  }

  lemma MatchInputRecorded(p: Pairing, record: Record)
    requires Recorded(p)
    ensures Recorded(MatchInput(p, record))
  {
    match RecordKey(record)
    case None =>
    case Some(key) =>
      if key in p.table.entries && !p.table.entries[key].matched {
        var e := p.table.entries[key];
        var metadata := e.metadata + Metadata(record);
        RecordedAppend(p, key, Expected(e.reference, metadata, true),
                       Item(SelectText(record, ["output", "response"]), e.reference, metadata));
      }
  }

  /** Matching one more id keeps one item per matched id. */
  lemma RecordedAppend(p: Pairing, key: string, e: Expected, item: Item)
    requires Recorded(p)
    requires key in p.table.entries && !p.table.entries[key].matched
    requires e.matched && item.reference == e.reference
    ensures Recorded(Pairing(Store(p.table, key, e), p.items + [item], p.keys + [key]))
  {
    var t := Store(p.table, key, e);
    var keys := p.keys + [key];
    var items := p.items + [item];
    assert key !in p.keys;
    forall i, j | 0 <= i < j < |keys|
      ensures keys[i] != keys[j]
    {
      if j == |p.keys| {
        assert keys[i] == p.keys[i];
      } else {
        assert keys[i] == p.keys[i] && keys[j] == p.keys[j];
      }
    }
    forall i | 0 <= i < |keys|
      ensures keys[i] in t.entries && t.entries[keys[i]].matched && items[i].reference == t.entries[keys[i]].reference
    {
      if i < |p.keys| {
        assert keys[i] == p.keys[i] && items[i] == p.items[i];
      }
    }
    forall k | k in t.entries && t.entries[k].matched
      ensures k in keys
    {
      if k != key {
        assert k in p.keys;
      }
    }
  }

  lemma MatchInputAnswered(p: Pairing, inputs: seq<Record>, record: Record)
    requires WellFormed(p.table) && Answered(p, inputs)
    ensures Answered(MatchInput(p, record), inputs + [record])
  {
    var all := inputs + [record];
    assert forall j :: 0 <= j < |inputs| ==> all[j] == inputs[j];
    assert all[|inputs|] == record;
  }

  lemma {:induction false} MatchInputsConsistent(t0: Table, inputs: seq<Record>)
    requires WellFormed(t0) && forall k :: k in t0.entries ==> !t0.entries[k].matched
    ensures Consistent(MatchInputs(Pairing(t0, [], []), inputs), t0, inputs)
    decreases |inputs|
  {
    if inputs != [] {
      var n := |inputs| - 1;
      MatchInputsConsistent(t0, inputs[..n]);
      MatchInputConsistent(MatchInputs(Pairing(t0, [], []), inputs[..n]), t0, inputs[..n], inputs[n]);
      assert inputs[..n] + [inputs[n]] == inputs;
    }
  }

  /** A repeated input for an id that is already matched changes nothing. */
  lemma RepeatIgnored(p: Pairing, first: Record, again: Record)
    requires WellFormed(p.table)
    requires RecordKey(first) == RecordKey(again)
    ensures MatchInput(MatchInput(p, first), again) == MatchInput(p, first)
  {
  }

  // ---------------------------------------------------------------------------
  // The leftovers and the result

  /** The ids of `order` whose entries are still unmatched, in order. */
  function Unmatched(t: Table, order: seq<string>): (r: seq<string>)
    ensures forall k :: k in r <==> k in order && k in t.entries && !t.entries[k].matched
    ensures Distinct(order) ==> Distinct(r)
  {
    if order == [] then []
    else
      var n := |order| - 1;
      var before := Unmatched(t, order[..n]);
      assert forall k :: k in order <==> k in order[..n] || k == order[n];
      if order[n] in t.entries && !t.entries[order[n]].matched then before + [order[n]] else before
  }

  /** The items for the unmatched ids: no output, the expected reference and metadata. */
  function LeftoverItems(t: Table, keys: seq<string>): (r: seq<Item>)
    requires forall k :: k in keys ==> k in t.entries
    ensures |r| == |keys|
    ensures forall i :: 0 <= i < |keys| ==>
              r[i] == Item("", t.entries[keys[i]].reference, t.entries[keys[i]].metadata)
  {
    seq(|keys|, i requires 0 <= i < |keys| => Item("", t.entries[keys[i]].reference, t.entries[keys[i]].metadata))
  }

  /** The state after the loop over the inputs. */
  function Matched(expected: seq<Record>, inputs: seq<Record>): Pairing {
    MatchInputs(Pairing(LoadExpected(expected), [], []), inputs)
  }

  /** What `_collect_pairs` returns: the matched items in input order, then one item for each
      unmatched id in the order the expected records introduced them. */
  function Pairs(expected: seq<Record>, inputs: seq<Record>): seq<Item> {
    var p := Matched(expected, inputs);
    p.items + LeftoverItems(p.table, Unmatched(p.table, p.table.order))
  }

  /** The id of each item of `Pairs`. */
  function PairKeys(expected: seq<Record>, inputs: seq<Record>): seq<string> {
    var p := Matched(expected, inputs);
    p.keys + Unmatched(p.table, p.table.order)
  }

  /** The ids of a consistent pairing followed by its unmatched ids are distinct and are
      exactly the ids of the expected map. */
  lemma PairingKeys(p: Pairing, t0: Table, inputs: seq<Record>)
    requires Consistent(p, t0, inputs)
    ensures var keys := p.keys + Unmatched(p.table, p.table.order);
            Distinct(keys) && forall k :: k in keys <==> k in t0.entries
  {
    KeysThenUnmatched(p, t0);
  }

  lemma KeysThenUnmatched(p: Pairing, t0: Table)
    requires SameIds(p, t0) && Recorded(p)
    ensures var keys := p.keys + Unmatched(p.table, p.table.order);
            Distinct(keys) && forall k :: k in keys <==> k in t0.entries
  {
    var rest := Unmatched(p.table, p.table.order);
    forall k | k in rest
      ensures k !in p.keys
    {
    }
    DistinctAppend(p.keys, rest);
  }

  lemma DistinctAppend(a: seq<string>, b: seq<string>)
    requires Distinct(a) && Distinct(b)
    requires forall k :: k in b ==> k !in a
    ensures Distinct(a + b)
  {
    var s := a + b;
    forall i, j | 0 <= i < j < |s|
      ensures s[i] != s[j]
    {
      if i >= |a| {
        assert s[i] == b[i - |a|] && s[j] == b[j - |a|];
      } else if j >= |a| {
        assert s[i] == a[i] && s[j] == b[j - |a|];
        assert b[j - |a|] in b;
      } else {
        assert s[i] == a[i] && s[j] == a[j];
      }
    }
  }

  /** Each item carries the expected reference of the id beside it. */
  ghost predicate Aligned(keys: seq<string>, items: seq<Item>, t0: Table) {
    |keys| == |items|
    && forall i :: 0 <= i < |keys| ==> keys[i] in t0.entries && items[i].reference == t0.entries[keys[i]].reference
  }

  lemma AlignedConcat(a: seq<string>, x: seq<Item>, b: seq<string>, y: seq<Item>, t0: Table)
    requires Aligned(a, x, t0) && Aligned(b, y, t0)
    ensures Aligned(a + b, x + y, t0)
  {
    forall i | |a| <= i < |a + b|
      ensures (a + b)[i] == b[i - |a|] && (x + y)[i] == y[i - |a|]
    {
    }
  }

  /** The items of a consistent pairing followed by the leftovers carry their id's
      reference. */
  lemma PairingReferences(p: Pairing, t0: Table, inputs: seq<Record>)
    requires SameIds(p, t0) && Recorded(p)
    ensures var rest := Unmatched(p.table, p.table.order);
            Aligned(p.keys + rest, p.items + LeftoverItems(p.table, rest), t0)
  {
    var rest := Unmatched(p.table, p.table.order);
    assert Aligned(p.keys, p.items, t0);
    assert Aligned(rest, LeftoverItems(p.table, rest), t0);
    AlignedConcat(p.keys, p.items, rest, LeftoverItems(p.table, rest), t0);
  }

  /** The ids no input record carries are among the leftovers, which have an empty
      output. */
  lemma PairingOutputs(p: Pairing, t0: Table, inputs: seq<Record>)
    requires Consistent(p, t0, inputs)
    ensures var rest := Unmatched(p.table, p.table.order);
            var keys := p.keys + rest;
            var items := p.items + LeftoverItems(p.table, rest);
            forall i :: 0 <= i < |keys| && (forall j :: 0 <= j < |inputs| ==> RecordKey(inputs[j]) != Some(keys[i]))
              ==> items[i].output == ""
  {
    var rest := Unmatched(p.table, p.table.order);
    UnansweredAreLeftovers(p, inputs, rest, LeftoverItems(p.table, rest));
  }

  lemma UnansweredAreLeftovers(p: Pairing, inputs: seq<Record>, rest: seq<string>, leftovers: seq<Item>)
    requires Recorded(p) && Answered(p, inputs)
    requires |leftovers| == |rest| && forall i :: 0 <= i < |leftovers| ==> leftovers[i].output == ""
    ensures var keys := p.keys + rest;
            var items := p.items + leftovers;
            forall i :: 0 <= i < |keys| && (forall j :: 0 <= j < |inputs| ==> RecordKey(inputs[j]) != Some(keys[i]))
              ==> items[i].output == ""
  {
    var keys := p.keys + rest;
    var items := p.items + leftovers;
    forall i | 0 <= i < |keys| && (forall j :: 0 <= j < |inputs| ==> RecordKey(inputs[j]) != Some(keys[i]))
      ensures items[i].output == ""
    {
      if i < |p.keys| {
        KeyHasInput(p, inputs, rest, i);
        assert false;
      }
      assert items[i] == leftovers[i - |p.keys|];
    }
  }

  /** A matched id was carried by some input record. */
  lemma KeyHasInput(p: Pairing, inputs: seq<Record>, rest: seq<string>, i: int)
    ensures Recorded(p) && Answered(p, inputs) && 0 <= i < |p.keys| ==>
      exists j :: 0 <= j < |inputs| && RecordKey(inputs[j]) == Some((p.keys + rest)[i])
  {
    if Recorded(p) && Answered(p, inputs) && 0 <= i < |p.keys| {
      assert (p.keys + rest)[i] == p.keys[i];
      assert p.keys[i] in p.table.entries && p.table.entries[p.keys[i]].matched;
    }
  }

  /** Exactly one item per distinct expected id: the item ids are distinct and are exactly
      the ids of the expected records; each item carries its id's expected reference; and an
      id that no input record carries gets an empty output. */
  lemma PairsPerExpectedId(expected: seq<Record>, inputs: seq<Record>)
    ensures var keys := PairKeys(expected, inputs);
            var items := Pairs(expected, inputs);
            var t := LoadExpected(expected);
            && |items| == |keys|
            && Distinct(keys)
            && (forall k :: k in keys <==> exists i :: 0 <= i < |expected| && RecordKey(expected[i]) == Some(k))
            && (forall i :: 0 <= i < |keys| ==> keys[i] in t.entries && items[i].reference == t.entries[keys[i]].reference)
            && (forall i :: 0 <= i < |keys| && (forall j :: 0 <= j < |inputs| ==> RecordKey(inputs[j]) != Some(keys[i]))
                  ==> items[i].output == "")
  {
    var t := LoadExpected(expected);
    ExpectedKeys(expected);
    MatchInputsConsistent(t, inputs);
    PairingKeys(Matched(expected, inputs), t, inputs);
    PairingReferences(Matched(expected, inputs), t, inputs);
    PairingOutputs(Matched(expected, inputs), t, inputs);
  }

  // ---------------------------------------------------------------------------
  // _collect_pairs

  /** The loop over the expected records. */
  method BuildExpectedMap(expected: seq<Record>) returns (order: seq<string>, entries: map<string, Expected>)
    ensures Table(order, entries) == LoadExpected(expected)
  {
    order, entries := [], map[];
    for i := 0 to |expected|
      invariant Table(order, entries) == LoadExpected(expected[..i])
    {
      assert expected[..i + 1][..i] == expected[..i];
      var item := expected[i];
      var rawId := Get(item, "id");
      if rawId.None? || rawId.value == JNull || rawId.value == JStr("") {
        continue;
      }
      var key := PyStr(rawId.value);
      var metadata := ExtractMetadata(item);
      if key !in entries {
        order := order + [key];
      }
      entries := entries[key := Expected(SelectText(item, ["expected", "reference"]), metadata, false)];
    }
    assert expected[..|expected|] == expected;
  }

  /** The loop over the input records. */
  method MatchRecords(order: seq<string>, entries0: map<string, Expected>, inputs: seq<Record>)
    returns (entries: map<string, Expected>, items: seq<Item>, ghost keys: seq<string>)
    requires WellFormed(Table(order, entries0))
    ensures Pairing(Table(order, entries), items, keys) == MatchInputs(Pairing(Table(order, entries0), [], []), inputs)
  {
    entries, items, keys := entries0, [], [];
    ghost var start := Pairing(Table(order, entries0), [], []);
    for i := 0 to |inputs|
      invariant Pairing(Table(order, entries), items, keys) == MatchInputs(start, inputs[..i])
    {
      assert inputs[..i + 1][..i] == inputs[..i];
      var record := inputs[i];
      var rawId := Get(record, "id");
      if rawId.None? || rawId.value == JNull || rawId.value == JStr("") {
        continue;
      }
      var key := PyStr(rawId.value);
      if key !in entries || entries[key].matched {
        continue;
      }
      var entry := entries[key];
      var extra := ExtractMetadata(record);
      var metadata := entry.metadata + extra;
      items := items + [Item(SelectText(record, ["output", "response"]), entry.reference, metadata)];
      keys := keys + [key];
      entries := entries[key := Expected(entry.reference, metadata, true)];
    }
    assert inputs[..|inputs|] == inputs;
  }

  /** The loop over the expected map that adds the unmatched ids. */
  method AppendLeftovers(order: seq<string>, entries: map<string, Expected>, items0: seq<Item>)
    returns (items: seq<Item>)
    requires WellFormed(Table(order, entries))
    ensures items == items0 + LeftoverItems(Table(order, entries), Unmatched(Table(order, entries), order))
  {
    items := items0;
    ghost var table := Table(order, entries);
    for i := 0 to |order|
      invariant items == items0 + LeftoverItems(table, Unmatched(table, order[..i]))
    {
      assert order[..i + 1][..i] == order[..i];
      var key := order[i];
      if entries[key].matched {
        continue;
      }
      items := items + [Item("", entries[key].reference, entries[key].metadata)];
    }
    assert order[..|order|] == order;
  }

  /** `_collect_pairs` over the decoded expected and input records. */
  method CollectPairs(expected: seq<Record>, inputs: seq<Record>) returns (items: seq<Item>)
    ensures items == Pairs(expected, inputs)
  {
    var order, entries := BuildExpectedMap(expected);
    var matchedEntries, matchedItems, keys := MatchRecords(order, entries, inputs);
    items := AppendLeftovers(order, matchedEntries, matchedItems);
  }
}
