/** Prometheus label sets: the `key="value"` pairs of a sample, how they are read back with the
    label pattern, filtered of environment labels, sorted and written out again. */
module PromLabels {
  import opened Wrappers
  import opened Text
  import Ordering

  datatype Label = Label(key: string, value: string)

  /** Labels that identify where a sample was scraped rather than what it measures. */
  const EnvironmentKeys: set<string> := {
    "instance", "job", "pod", "pod_name", "pod_ip", "pod_uid", "container", "container_id",
    "container_name", "node", "namespace", "service", "endpoint"
  }

  // ---------------------------------------------------------------------------------------
  // Environment labels.

  /** The labels whose key is not an environment key, in their order. */
  function WithoutEnvironment(labels: seq<Label>): (r: seq<Label>)
    ensures |r| <= |labels|
  {
    if labels == [] then []
    else
      var last := labels[|labels| - 1];
      WithoutEnvironment(labels[..|labels| - 1]) + (if last.key in EnvironmentKeys then [] else [last])
  }

  /** The kept labels are exactly the labels whose key is not an environment key. */
  lemma {:induction false} WithoutEnvironmentMembers(labels: seq<Label>)
    ensures forall l :: l in WithoutEnvironment(labels) <==> l in labels && l.key !in EnvironmentKeys
    decreases |labels|
  {
    if labels != [] {
      var front := labels[..|labels| - 1];
      var last := labels[|labels| - 1];
      WithoutEnvironmentMembers(front);
      assert labels == front + [last];
    }
  }

  /** Filtering distributes over concatenation, so the kept labels keep their order. */
  lemma {:induction false} WithoutEnvironmentConcat(a: seq<Label>, b: seq<Label>)
    ensures WithoutEnvironment(a + b) == WithoutEnvironment(a) + WithoutEnvironment(b)
    decreases |b|
  {
    if b == [] {
      assert a + b == a;
    } else {
      var init := b[..|b| - 1];
      assert (a + b)[..|a + b| - 1] == a + init;
      assert (a + b)[|a + b| - 1] == b[|b| - 1];
      WithoutEnvironmentConcat(a, init);
    }
  }

  /** A label set without environment keys is left as it is. */
  lemma {:induction false} WithoutEnvironmentKeeps(labels: seq<Label>)
    requires forall i :: 0 <= i < |labels| ==> labels[i].key !in EnvironmentKeys
    ensures WithoutEnvironment(labels) == labels
    decreases |labels|
  {
    if labels != [] {
      var n := |labels| - 1;
      var front := labels[..n];
      assert forall i :: 0 <= i < |front| ==> front[i] == labels[i];
      WithoutEnvironmentKeeps(front);
      KeepLast(labels);
    }
  }

  /** A last label that is not an environment label stays last. */
  lemma KeepLast(labels: seq<Label>)
    requires labels != [] && labels[|labels| - 1].key !in EnvironmentKeys
    ensures WithoutEnvironment(labels) == WithoutEnvironment(labels[..|labels| - 1]) + [labels[|labels| - 1]]
  {
  }

  /** `_filter_environment_labels`. */
  method FilterEnvironmentLabels(labels: seq<Label>) returns (filtered: seq<Label>)
    ensures filtered == WithoutEnvironment(labels)
  {
    filtered := [];
    for i := 0 to |labels|
      invariant filtered == WithoutEnvironment(labels[..i])
    {
      assert labels[..i + 1][..i] == labels[..i];
      if labels[i].key in EnvironmentKeys {
        continue;
      }
      filtered := filtered + [labels[i]];
    }
    assert labels[..|labels|] == labels;
  }

  // ---------------------------------------------------------------------------------------
  // Suffix sanitising.

  /** The characters a metric-name suffix may keep: `[0-9A-Za-z_.-]`. */
  predicate SuffixSafe(c: char) {
    IsAsciiDigit(c) || IsAsciiLower(c) || IsAsciiUpper(c) || c == '_' || c == '.' || c == '-'
  }

  /** `_sanitize_label_value_for_suffix`: every other character becomes `_`. */
  function Sanitize(value: string): (r: string)
    ensures |r| == |value|
    ensures forall i :: 0 <= i < |r| ==> SuffixSafe(r[i])
    ensures forall i :: 0 <= i < |r| ==> r[i] == (if SuffixSafe(value[i]) then value[i] else '_')
  {
    if value == [] then []
    else [if SuffixSafe(value[0]) then value[0] else '_'] + Sanitize(value[1..])
  }

  /** Sanitising twice changes nothing more. */
  lemma SanitizeIdempotent(value: string)
    ensures Sanitize(Sanitize(value)) == Sanitize(value)
  {
  }

  // ---------------------------------------------------------------------------------------
  // Reading labels with `([a-zA-Z_][a-zA-Z0-9_]*)="((?:\\.|[^"\\])*)"`.

  predicate IdentStart(c: char) { IsAsciiLower(c) || IsAsciiUpper(c) || c == '_' }
  predicate IdentChar(c: char) { IdentStart(c) || IsAsciiDigit(c) }

  /** A label name the pattern accepts. */
  predicate IsIdentifier(k: string) {
    k != [] && IdentStart(k[0]) && forall j :: 0 < j < |k| ==> IdentChar(k[j])
  }

  /** A label value the pattern accepts: escape pairs (a backslash and any character but a
      newline) and characters other than a quote or a backslash. */
  predicate ValueText(v: string)
    decreases |v|
  {
    if v == [] then true
    else if v[0] == '\\' then |v| >= 2 && v[1] != '\n' && ValueText(v[2..])
    else v[0] != '"' && ValueText(v[1..])
  }

  /** A label the pattern reads back as written. */
  predicate Readable(l: Label) {
    IsIdentifier(l.key) && ValueText(l.value)
  }

  /** The end of the identifier run starting at `i`. */
  function IdentEnd(s: string, i: nat): (r: nat)
    requires i <= |s|
    ensures i <= r <= |s|
    ensures forall j :: i <= j < r ==> IdentChar(s[j])
    ensures r < |s| ==> !IdentChar(s[r])
    decreases |s| - i
  {
    if i < |s| && IdentChar(s[i]) then IdentEnd(s, i + 1) else i
  }

  /** Where the quoted value starting at `i` closes, if it does. */
  function QuotedEnd(s: string, i: nat): (r: Option<nat>)
    requires i <= |s|
    ensures r.Some? ==> i <= r.value < |s| && s[r.value] == '"' && ValueText(s[i..r.value])
    decreases |s| - i
  {
    if i == |s| then None
    else if s[i] == '"' then Some(i)
    else if s[i] == '\\' then
      if i + 1 < |s| && s[i + 1] != '\n' then
        var r := QuotedEnd(s, i + 2);
        if r.Some? then
          assert s[i..r.value][2..] == s[i + 2..r.value];
          r
        else None
      else None
    else
      var r := QuotedEnd(s, i + 1);
      if r.Some? then
        assert s[i..r.value][1..] == s[i + 1..r.value];
        r
      else None
  }

  /** A label read at a position, and where reading goes on. */
  datatype Found = Found(read: Label, next: nat)

  /** One match of the label pattern anchored at `i`. */
  function LabelAt(s: string, i: nat): (r: Option<Found>)
    requires i <= |s|
    ensures r.Some? ==> i < r.value.next <= |s|
    ensures r.Some? ==> IsIdentifier(r.value.read.key) && ValueText(r.value.read.value)
  {
    if i < |s| && IdentStart(s[i]) then LabelAfterKey(s, i, IdentEnd(s, i + 1)) else None
  }

  /** The rest of a match once the label name `s[i..e]` is read: `="`, the value, `"`. */
  function LabelAfterKey(s: string, i: nat, e: nat): (r: Option<Found>)
    requires i < e <= |s| && IdentStart(s[i]) && forall j :: i < j < e ==> IdentChar(s[j])
    ensures r.Some? ==> e < r.value.next <= |s|
    ensures r.Some? ==> r.value.read.key == s[i..e] && ValueText(r.value.read.value)
    ensures r.Some? ==> IsIdentifier(r.value.read.key)
  {
    if e + 1 < |s| && s[e] == '=' && s[e + 1] == '"' then
      var q := QuotedEnd(s, e + 2);
      if q.Some? then Some(Found(Label(s[i..e], s[e + 2..q.value]), q.value + 1)) else None
    else None
  }

  /** `findall` of the label pattern from position `i`: a match is taken where one starts,
      and the search goes on after it; elsewhere the search moves on by one character. */
  function FindLabels(s: string, i: nat): (r: seq<Label>)
    requires i <= |s|
    ensures forall l :: l in r ==> IsIdentifier(l.key) && ValueText(l.value)
    decreases |s| - i
  {
    if i == |s| then []
    else
      var m := LabelAt(s, i);
      if m.Some? then [m.value.read] + FindLabels(s, m.value.next) else FindLabels(s, i + 1)
  }

  /** A value read from `s` is a slice of `s` that stops before its last character, so a `}`
      that occurs only last in `s` is in no value. */
  lemma {:induction false} FoundValuesBraceFree(s: string, i: nat)
    requires i <= |s| && s != [] && '}' !in s[..|s| - 1]
    ensures forall l :: l in FindLabels(s, i) ==> '}' !in l.value
    decreases |s| - i
  {
    if i < |s| {
      var m := LabelAt(s, i);
      if m.Some? {
        var e := IdentEnd(s, i + 1);
        assert m == LabelAfterKey(s, i, e);
        var q := QuotedEnd(s, e + 2);
        assert m.value.read.value == s[e + 2..q.value] && q.value < |s|;
        FoundValuesBraceFree(s, m.value.next);
      } else {
        FoundValuesBraceFree(s, i + 1);
      }
    }
  }

  // ---------------------------------------------------------------------------------------
  // Writing labels out.

  function RenderLabel(l: Label): string {
    l.key + "=\"" + l.value + "\""
  }

  /** `",".join(f'{key}="{value}"' for key, value in labels)`. */
  function RenderLabels(labels: seq<Label>): string {
    if labels == [] then ""
    else if |labels| == 1 then RenderLabel(labels[0])
    else RenderLabel(labels[0]) + "," + RenderLabels(labels[1..])
  }

  /** An identifier run ends where the identifier does. */
  lemma {:induction false} IdentEndOf(s: string, i: nat, k: string)
    requires IsIdentifier(k) && i + |k| < |s| && s[i..i + |k|] == k && !IdentChar(s[i + |k|])
    ensures IdentEnd(s, i + 1) == i + |k|
  {
    IdentRunFrom(s, i, k, 1);
  }

  lemma {:induction false} IdentRunFrom(s: string, i: nat, k: string, j: nat)
    requires IsIdentifier(k) && i + |k| < |s| && s[i..i + |k|] == k && !IdentChar(s[i + |k|])
    requires 1 <= j <= |k|
    ensures IdentEnd(s, i + j) == i + |k|
    decreases |k| - j
  {
    if j < |k| {
      assert s[i + j] == k[j];
      IdentRunFrom(s, i, k, j + 1);
    }
  }

  /** A well-formed value followed by a quote closes at that quote. */
  lemma {:induction false} QuotedEndOf(s: string, i: nat, v: string)
    requires ValueText(v) && i + |v| < |s| && s[i..i + |v|] == v && s[i + |v|] == '"'
    ensures QuotedEnd(s, i) == Some(i + |v|)
    decreases |v|
  {
    if v != [] {
      assert s[i] == v[0];
      if v[0] == '\\' {
        assert s[i + 1] == v[1];
        assert s[i + 2..i + |v|] == v[2..];
        QuotedEndOf(s, i + 2, v[2..]);
      } else {
        assert s[i + 1..i + |v|] == v[1..];
        QuotedEndOf(s, i + 1, v[1..]);
      }
    }
  }

  /** Where the parts of a written label sit. */
  lemma RenderedParts(s: string, i: nat, l: Label)
    requires i + |RenderLabel(l)| <= |s| && s[i..i + |RenderLabel(l)|] == RenderLabel(l)
    ensures var k, v := |l.key|, |l.value|;
      s[i..i + k] == l.key && s[i + k] == '=' && s[i + k + 1] == '"'
      && s[i + k + 2..i + k + 2 + v] == l.value && s[i + k + 2 + v] == '"'
  {
    var k := |l.key|;
    var v := |l.value|;
    var w := RenderLabel(l);
    assert w[..k] == l.key && w[k] == '=' && w[k + 1] == '"';
    assert w[k + 2..k + 2 + v] == l.value && w[k + 2 + v] == '"';
    SubSlice(s, i, w, 0, k);
    SubSlice(s, i, w, k + 2, k + 2 + v);
    assert s[i + k] == w[k] && s[i + k + 1] == w[k + 1] && s[i + k + 2 + v] == w[k + 2 + v];
  }

  /** Within a slice equal to `w`, each part of the slice equals the same part of `w`. */
  lemma SubSlice(s: string, i: nat, w: string, a: nat, b: nat)
    requires i + |w| <= |s| && s[i..i + |w|] == w && a <= b <= |w|
    ensures s[i + a..i + b] == w[a..b]
  {
    var t, u := s[i + a..i + b], w[a..b];
    assert forall j :: 0 <= j < |t| ==> t[j] == u[j];
  }

  /** A written label is read back as itself. */
  lemma LabelAtRendered(s: string, i: nat, l: Label)
    requires IsIdentifier(l.key) && ValueText(l.value)
    requires var k, v := |l.key|, |l.value|;
      i + k + v + 3 <= |s|
      && s[i..i + k] == l.key && s[i + k] == '=' && s[i + k + 1] == '"'
      && s[i + k + 2..i + k + 2 + v] == l.value && s[i + k + 2 + v] == '"'
    ensures LabelAt(s, i) == Some(Found(l, i + |l.key| + |l.value| + 3))
  {
    var k := |l.key|;
    assert s[i] == l.key[0];
    IdentEndOf(s, i, l.key);
    assert LabelAt(s, i) == LabelAfterKey(s, i, i + k);
    var v := |l.value|;
    QuotedEndOf(s, i + k + 2, l.value);
    assert LabelAfterKey(s, i, i + k) == Some(Found(Label(s[i..i + k], s[i + k + 2..i + k + 2 + v]), i + k + 3 + v));
  }

  /** Characters that cannot start a match are stepped over. */
  lemma SkipNonStart(s: string, i: nat)
    requires i < |s| && !IdentStart(s[i])
    ensures FindLabels(s, i) == FindLabels(s, i + 1)
  {
  }

  /** A written label starts the labels read from its position. */
  lemma FindStep(s: string, i: nat, l: Label)
    requires IsIdentifier(l.key) && ValueText(l.value)
    requires i + |RenderLabel(l)| <= |s| && s[i..i + |RenderLabel(l)|] == RenderLabel(l)
    ensures FindLabels(s, i) == [l] + FindLabels(s, i + |RenderLabel(l)|)
  {
    RenderedParts(s, i, l);
    LabelAtRendered(s, i, l);
    assert |RenderLabel(l)| == |l.key| + |l.value| + 3;
  }

  /** A suffix equal to `x + y` starts with `x`, and `y` follows it. */
  lemma SuffixSplit(s: string, i: nat, x: string, y: string)
    requires i <= |s| && s[i..] == x + y
    ensures i + |x| <= |s| && s[i..i + |x|] == x && s[i + |x|..] == y
  {
    assert s[i..i + |x|] == s[i..][..|x|];
    assert s[i + |x|..] == s[i..][|x|..];
  }

  /** The closing `}` ends the labels read. */
  lemma FindAtClose(s: string, i: nat)
    requires i <= |s| && s[i..] == "}"
    ensures FindLabels(s, i) == []
  {
    assert s[i] == s[i..][0];
    SkipNonStart(s, i);
  }

  /** Reading back a written label list, followed by `}`, gives the list. */
  lemma {:induction false} FindRendered(s: string, i: nat, labels: seq<Label>)
    requires forall l :: l in labels ==> Readable(l)
    requires i <= |s| && s[i..] == RenderLabels(labels) + "}"
    ensures FindLabels(s, i) == labels
    decreases |labels|, 1
  {
    if labels == [] {
      FindAtClose(s, i);
    } else if |labels| == 1 {
      assert Readable(labels[0]);
      FindRenderedOne(s, i, labels[0]);
    } else {
      assert Readable(labels[0]);
      assert forall l :: l in labels[1..] ==> l in labels;
      RestRendered(s, i, labels);
      FindRenderedTail(s, i, labels);
    }
  }

  /** A single written label, then `}`. */
  lemma FindRenderedOne(s: string, i: nat, l: Label)
    requires Readable(l) && i <= |s| && s[i..] == RenderLabel(l) + "}"
    ensures FindLabels(s, i) == [l]
  {
    SuffixSplit(s, i, RenderLabel(l), "}");
    FindStep(s, i, l);
    FindAtClose(s, i + |RenderLabel(l)|);
  }

  /** Several written labels: the first, then the others read after its comma. */
  lemma {:induction false} FindRenderedTail(s: string, i: nat, labels: seq<Label>)
    requires |labels| >= 2 && Readable(labels[0]) && forall l :: l in labels[1..] ==> Readable(l)
    requires var n := i + |RenderLabel(labels[0])|;
             n < |s| && s[i..n] == RenderLabel(labels[0]) && s[n] == ',' && s[n + 1..] == RenderLabels(labels[1..]) + "}"
    ensures FindLabels(s, i) == labels
    decreases |labels|, 0
  {
    var n := i + |RenderLabel(labels[0])|;
    FindRendered(s, n + 1, labels[1..]);
    FindHeadStep(s, i, n, labels[0], labels[1..]);
    assert labels == [labels[0]] + labels[1..];
  }

  /** After the first written label and its comma come the other labels and the `}`. */
  lemma RestRendered(s: string, i: nat, labels: seq<Label>)
    requires |labels| >= 2 && i <= |s| && s[i..] == RenderLabels(labels) + "}"
    ensures var n := i + |RenderLabel(labels[0])|;
            n < |s| && s[i..n] == RenderLabel(labels[0]) && s[n] == ',' && s[n + 1..] == RenderLabels(labels[1..]) + "}"
  {
    var first := RenderLabel(labels[0]);
    var rest := RenderLabels(labels[1..]);
    assert s[i..] == first + ([','] + (rest + "}"));
    SuffixSplit(s, i, first, [','] + (rest + "}"));
    var n := i + |first|;
    SuffixSplit(s, n, [','], rest + "}");
  }

  /** A written label ending at `n` and a comma, then what is read after the comma. */
  lemma FindHeadStep(s: string, i: nat, n: nat, l: Label, rest: seq<Label>)
    requires Readable(l) && n == i + |RenderLabel(l)| && n < |s|
    requires s[i..n] == RenderLabel(l) && s[n] == ','
    requires FindLabels(s, n + 1) == rest
    ensures FindLabels(s, i) == [l] + rest
  {
    FindStep(s, i, l);
    SkipNonStart(s, n);
  }

  /** A label section written as `{...}` reads back as the labels written. */
  lemma RenderedLabelsRead(labels: seq<Label>)
    requires forall l :: l in labels ==> IsIdentifier(l.key) && ValueText(l.value)
    ensures FindLabels("{" + RenderLabels(labels) + "}", 0) == labels
  {
    var s := "{" + RenderLabels(labels) + "}";
    assert s[1..] == RenderLabels(labels) + "}";
    SkipNonStart(s, 0);
    FindRendered(s, 1, labels);
  }

  // ---------------------------------------------------------------------------------------
  // Sorting labels as Python orders `(key, value)` tuples.

  predicate LabelLess(a: Label, b: Label) {
    Ordering.Less(a.key, b.key) || (a.key == b.key && Ordering.Less(a.value, b.value))
  }

  predicate LabelLessEq(a: Label, b: Label) {
    a == b || LabelLess(a, b)
  }

  lemma LabelTransitive(a: Label, b: Label, c: Label)
    requires LabelLessEq(a, b) && LabelLessEq(b, c)
    ensures LabelLessEq(a, c)
  {
    if a != b && b != c {
      if Ordering.Less(a.key, b.key) && Ordering.Less(b.key, c.key) {
        Ordering.Transitive(a.key, b.key, c.key);
      } else if a.key == b.key && b.key == c.key {
        Ordering.Transitive(a.value, b.value, c.value);
      }
    }
  }

  lemma LabelTotal(a: Label, b: Label)
    ensures LabelLessEq(a, b) || LabelLessEq(b, a)
  {
    Ordering.Total(a.key, b.key);
    Ordering.Total(a.value, b.value);
  }

  lemma LabelAntisymmetric(a: Label, b: Label)
    requires LabelLessEq(a, b) && LabelLessEq(b, a)
    ensures a == b
  {
    Ordering.Asymmetric(a.key, b.key);
    Ordering.Asymmetric(a.value, b.value);
    Ordering.Irreflexive(a.key);
  }

  predicate LabelsSorted(s: seq<Label>) {
    forall i, j :: 0 <= i < j < |s| ==> LabelLessEq(s[i], s[j])
  }

  /** A label no greater than the head of a sorted list can go in front of it. */
  lemma SortedCons(x: Label, s: seq<Label>)
    requires LabelsSorted(s) && s != [] && LabelLessEq(x, s[0])
    ensures LabelsSorted([x] + s)
  {
    forall j | 0 < j < |s| ensures LabelLessEq(x, s[j]) {
      LabelTransitive(x, s[0], s[j]);
    }
  }

  /** The head of a sorted list stays in front of the tail with one more label inserted. */
  lemma SortedBehindHead(x: Label, s: seq<Label>, rest: seq<Label>)
    requires LabelsSorted(s) && s != [] && LabelLessEq(s[0], x)
    requires LabelsSorted(rest) && multiset(rest) == multiset(s[1..]) + multiset{x}
    ensures LabelsSorted([s[0]] + rest)
  {
    forall j | 0 <= j < |rest| ensures LabelLessEq(s[0], rest[j]) {
      assert rest[j] in multiset(rest);
      if rest[j] != x {
        assert rest[j] in multiset(s[1..]);
      }
    }
  }

  /** `x` placed before the first label greater than it. */
  function InsertLabel(x: Label, s: seq<Label>): (r: seq<Label>)
    requires LabelsSorted(s)
    ensures LabelsSorted(r) && multiset(r) == multiset(s) + multiset{x}
  {
    if s == [] then [x]
    else if LabelLessEq(x, s[0]) then
      SortedCons(x, s);
      [x] + s
    else
      var rest := InsertLabel(x, s[1..]);
      LabelTotal(x, s[0]);
      SortedBehindHead(x, s, rest);
      assert s == [s[0]] + s[1..];
      [s[0]] + rest
  }

  /** `sorted(labels)`: the same labels, ordered by key and then by value. */
  function SortLabels(s: seq<Label>): (r: seq<Label>)
    ensures LabelsSorted(r) && multiset(r) == multiset(s)
  {
    if s == [] then []
    else
      assert s == s[..|s| - 1] + [s[|s| - 1]];
      InsertLabel(s[|s| - 1], SortLabels(s[..|s| - 1]))
  }

  /** Two sorted lists with the same contents start alike. */
  lemma SortedHeads(a: seq<Label>, b: seq<Label>)
    requires LabelsSorted(a) && LabelsSorted(b) && multiset(a) == multiset(b) && a != []
    ensures b != [] && a[0] == b[0]
  {
    assert a[0] in multiset(b) && b[0] in multiset(a);
    var i :| 0 <= i < |b| && b[i] == a[0];
    var j :| 0 <= j < |a| && a[j] == b[0];
    LabelAntisymmetric(a[0], b[0]);
  }

  /** Dropping the head of a list drops one copy of it from its contents. */
  lemma TailContents(a: seq<Label>)
    requires a != []
    ensures multiset(a[1..]) == multiset(a) - multiset{a[0]}
  {
    assert a == [a[0]] + a[1..];
    assert multiset(a) == multiset{a[0]} + multiset(a[1..]);
  }

  /** A sorted label list is determined by its contents. */
  lemma {:induction false} LabelsSortedUnique(a: seq<Label>, b: seq<Label>)
    requires LabelsSorted(a) && LabelsSorted(b) && multiset(a) == multiset(b)
    ensures a == b
    decreases |a|
  {
    if a != [] {
      SortedHeads(a, b);
      TailContents(a);
      TailContents(b);
      LabelsSortedUnique(a[1..], b[1..]);
      assert a == [a[0]] + a[1..] && b == [b[0]] + b[1..];
    }
  }
}
