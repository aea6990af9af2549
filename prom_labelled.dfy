/** Sample lines whose metric carries a label list as the collector's label pattern reads it:
    the backward token scan keeps such a metric whole, whatever whitespace or escaped quotes its
    label values hold. */
module PromLabelled {
  import opened Wrappers
  import opened PromSample
  import opened PromLabels

  /** `key="v"` is crossed when the key is bare and the value escaped. */
  lemma {:induction false} LabelCrossed(l: Label)
    requires Bare(l.key) && QuotedBody(l.value)
    ensures Crossed(RenderLabel(l))
    ensures RenderLabel(l)[|RenderLabel(l)| - 1] == '"'
  {
    var k := l.key + "=";
    assert Bare(k) by {
      assert forall j :: 0 <= j < |l.key| ==> k[j] == l.key[j];
    }
    BareCrossed(k);
    QuotedCrossed(l.value);
    CrossedConcat(k, "\"" + l.value + "\"");
    assert RenderLabel(l) == k + ("\"" + l.value + "\"");
  }

  /** A comma-joined label list is crossed when every key is bare and every value escaped. */
  lemma {:induction false} LabelsCrossed(labels: seq<Label>)
    requires forall l :: l in labels ==> Bare(l.key) && QuotedBody(l.value)
    ensures Crossed(RenderLabels(labels))
    ensures RenderLabels(labels) == []
      || RenderLabels(labels)[|RenderLabels(labels)| - 1] == '"'
    decreases |labels|
  {
    if |labels| == 1 {
      LabelCrossed(labels[0]);
    } else if |labels| > 1 {
      var first := RenderLabel(labels[0]);
      var rest := RenderLabels(labels[1..]);
      LabelCrossed(labels[0]);
      LabelsCrossed(labels[1..]);
      assert Bare(",");
      BareCrossed(",");
      CrossedConcat(first, ",");
      CrossedConcat(first + ",", rest);
      assert RenderLabels(labels) == first + "," + rest;
      assert rest != [];
      assert (first + "," + rest)[|first + "," + rest| - 1] == rest[|rest| - 1];
    }
  }

  /** `name{k1="v1",k2="v2",...}` is one token when the name and keys are bare and every value
      is escaped, whatever whitespace and escaped quotes the values hold. */
  lemma {:induction false} LabelledToken(name: string, labels: seq<Label>)
    requires name != [] && Bare(name)
    requires forall l :: l in labels ==> Bare(l.key) && QuotedBody(l.value)
    ensures IsToken(name + "{" + RenderLabels(labels) + "}")
  {
    var list := RenderLabels(labels);
    var open := name + "{";
    assert Bare(open) by {
      assert forall j :: 0 <= j < |name| ==> open[j] == name[j];
    }
    assert Bare("}");
    LabelsCrossed(labels);
    BareCrossed("}");
    CrossedConcat(list, "}");
    BareCrossed(open);
    CrossedConcat(open, list + "}");
    var t := name + "{" + list + "}";
    assert t == open + (list + "}");
    assert t[0] == name[0] && t[|t| - 1] == '}';
  }

  /** A value the label pattern reads (escape pairs and characters other than a quote or a
      backslash) is escaped the way the scan needs. */
  lemma {:induction false} ReadableQuoted(v: string)
    requires ValueText(v)
    ensures QuotedBody(v)
    decreases |v|
  {
    if v == [] {
    } else if v[0] == '\\' {
      ReadableQuoted(v[2..]);
      PairQuoted(v[..2], v[2..]);
      assert v == v[..2] + v[2..];
    } else {
      ReadableQuoted(v[1..]);
      PlainQuoted(v[..1], v[1..]);
      assert v == v[..1] + v[1..];
    }
  }

  /** A sample whose labelled metric holds whitespace or escaped quotes inside its label values
      splits at the spaces outside the quotes only: the metric is kept whole and the value
      follows it. */
  lemma {:induction false} QuotedSpaceKept(name: string, labels: seq<Label>, value: string)
    requires name != [] && name[0] != '#' && Bare(name)
    requires forall l :: l in labels ==> Bare(l.key) && QuotedBody(l.value)
    requires IsToken(value)
    ensures SplitSample(name + "{" + RenderLabels(labels) + "}" + " " + value)
      == Some(Sample(name + "{" + RenderLabels(labels) + "}", value, None))
  {
    var metric := name + "{" + RenderLabels(labels) + "}";
    LabelledToken(name, labels);
    assert metric[0] == name[0];
    TwoTokens(metric, value);
  }

  /** The same with a timestamp after the value. */
  lemma {:induction false} QuotedSpaceKeptStamped(name: string, labels: seq<Label>,
                                                  value: string, timestamp: string)
    requires name != [] && name[0] != '#' && Bare(name)
    requires forall l :: l in labels ==> Bare(l.key) && QuotedBody(l.value)
    requires IsToken(value) && IsToken(timestamp)
    ensures SplitSample(name + "{" + RenderLabels(labels) + "}" + " " + value + " " + timestamp)
      == Some(Sample(name + "{" + RenderLabels(labels) + "}", value, Some(timestamp)))
  {
    var metric := name + "{" + RenderLabels(labels) + "}";
    LabelledToken(name, labels);
    assert metric[0] == name[0];
    ThreeTokens(metric, value, timestamp);
  }
}
