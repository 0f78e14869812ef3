/** The exposition buffer: one type line per family before its samples, and sample lines that read
    back. */
module Metrics {
  import opened Wrappers
  import opened StatParser
  import opened Exposition
  import opened Texts

  const PREFIX: string := "gpuhealth"

  datatype Value = Flag(on: bool) | Number(text: string)

  function ValueText(v: Value): string {
    match v
    case Flag(on) => if on then "1" else "0"
    case Number(text) => text
  }

  /** `{"node": node}` updated with the labels of the sample, in dictionary order. */
  function AllLabels(node: string, labels: seq<Pair>): seq<Pair> {
    [Pair("node", NodeValue(node, labels))] + Others(labels)
  }

  function NodeValue(node: string, labels: seq<Pair>): string {
    if labels == [] then node
    else if labels[|labels| - 1].key == "node" then labels[|labels| - 1].value
    else NodeValue(node, labels[..|labels| - 1])
  }

  function Others(labels: seq<Pair>): seq<Pair> {
    if labels == [] then []
    else Others(labels[..|labels| - 1]) + if labels[|labels| - 1].key == "node" then [] else [labels[|labels| - 1]]
  }

  datatype Item = Help(family: string, text: string) | Type(family: string, mtype: string) | SampleOf(family: string, text: string)

  function LineOf(item: Item): string {
    match item
    case Help(family, text) => "# HELP " + family + " " + text
    case Type(family, mtype) => "# TYPE " + family + " " + mtype
    case SampleOf(_, text) => text
  }

  /** Each family is typed once, and before any of its samples. */
  ghost predicate TypedOnceFirst(items: seq<Item>) {
    && (forall i, j :: 0 <= i < j < |items| && items[i].Type? && items[j].Type? ==> items[i].family != items[j].family)
    && (forall j :: 0 <= j < |items| && items[j].SampleOf? ==> TypedBefore(items, items[j].family, j))
  }

  ghost predicate TypedBefore(items: seq<Item>, family: string, upto: int)
    requires upto <= |items|
  {
    exists i :: 0 <= i < upto && items[i].Type? && items[i].family == family
  }

  function Lines(items: seq<Item>): (lines: seq<string>)
    ensures |lines| == |items| && forall i :: 0 <= i < |items| ==> lines[i] == LineOf(items[i])
  {
    seq(|items|, i requires 0 <= i < |items| => LineOf(items[i]))
  }

  /** What one call adds. */
  function Added(
    declared: set<string>, node: string, name: string, value: Value, labels: seq<Pair>, mtype: string, help: string)
    : seq<Item>
  {
    var full := PREFIX + "_" + name;
    (if full in declared then []
     else (if help != "" then [Help(full, help)] else []) + [Type(full, mtype)]) +
    [SampleOf(full, SampleLine(full, Render(AllLabels(node, labels)), ValueText(value)))]
  }

  class Buffer {
    const node: string
    var lines: seq<string>
    var declared: set<string>
    ghost var items: seq<Item>

    ghost predicate Valid()
      reads this
    {
      && lines == Lines(items)
      && TypedOnceFirst(items)
      && (forall f :: f in declared <==> TypedBefore(items, f, |items|))
    }

    constructor (node: string)
      ensures Valid() && lines == [] && items == [] && declared == {} && this.node == node
    {
      this.node, lines, declared, items := node, [], {}, [];
    }

    method Metric(name: string, value: Value, labels: seq<Pair>, mtype: string, help: string)
      requires Valid()
      modifies this
      ensures Valid()
      ensures items == old(items) + Added(old(declared), node, name, value, labels, mtype, help)
      ensures lines == old(lines) + Lines(Added(old(declared), node, name, value, labels, mtype, help))
      ensures declared == old(declared) + {PREFIX + "_" + name}
    {
      var full := PREFIX + "_" + name;
      ghost var before, names := items, declared;
      ghost var added := Added(declared, node, name, value, labels, mtype, help);
      AddedKeepsOrder(before, names, node, name, value, labels, mtype, help);
      LinesOfAdded(before, names, node, name, value, labels, mtype, help);
      if full !in declared {
        if help != "" {
          lines := lines + ["# HELP " + full + " " + help];
        }
        lines := lines + ["# TYPE " + full + " " + mtype];
        declared := declared + {full};
      }
      var all := AllLabels(node, labels);
      var text := match value case Flag(on) => (if on then "1" else "0") case Number(t) => t;
      lines := lines + [SampleLine(full, Render(all), text)];
      items := items + added;
    }
  }

  lemma LinesConcat(a: seq<Item>, b: seq<Item>)
    ensures Lines(a + b) == Lines(a) + Lines(b)
  {
  }

  lemma LinesOfAdded(
    items: seq<Item>, declared: set<string>,
    node: string, name: string, value: Value, labels: seq<Pair>, mtype: string, help: string)
    ensures var full := PREFIX + "_" + name;
            var added := Added(declared, node, name, value, labels, mtype, help);
            var lines := Lines(items);
            var head := if full in declared then lines
                        else if help != "" then lines + ["# HELP " + full + " " + help] + ["# TYPE " + full + " " + mtype]
                        else lines + ["# TYPE " + full + " " + mtype];
            && Lines(items + added) == lines + Lines(added)
            && lines + Lines(added) == head + [SampleLine(full, Render(AllLabels(node, labels)), ValueText(value))]
  {
    LinesConcat(items, Added(declared, node, name, value, labels, mtype, help));
  }

  lemma AddedKeepsOrder(
    items: seq<Item>, declared: set<string>,
    node: string, name: string, value: Value, labels: seq<Pair>, mtype: string, help: string)
    requires TypedOnceFirst(items)
    requires forall f :: f in declared <==> TypedBefore(items, f, |items|)
    ensures var items' := items + Added(declared, node, name, value, labels, mtype, help);
            && TypedOnceFirst(items')
            && forall f :: f in declared || f == PREFIX + "_" + name <==> TypedBefore(items', f, |items'|)
  {
    var full := PREFIX + "_" + name;
    var added := Added(declared, node, name, value, labels, mtype, help);
    var items' := items + added;
    var last := |items'| - 1;
    assert items'[last].SampleOf?;
    if full in declared {
      assert TypedBefore(items, full, |items|);
      var i :| 0 <= i < |items| && items[i].Type? && items[i].family == full;
      assert items'[i] == items[i];
      assert TypedBefore(items', full, last);
    } else {
      assert items'[last - 1] == Type(full, mtype);
      assert TypedBefore(items', full, last);
    }
    forall f
      ensures f in declared || f == full <==> TypedBefore(items', f, |items'|)
    {
      if f in declared {
        var i :| 0 <= i < |items| && items[i].Type? && items[i].family == f;
        assert items'[i] == items[i];
      }
      if TypedBefore(items', f, |items'|) {
        var i :| 0 <= i < |items'| && items'[i].Type? && items'[i].family == f;
        if i < |items| {
          assert items[i] == items'[i];
          assert TypedBefore(items, f, |items|);
        }
      }
    }
    forall j | 0 <= j < |items'| && items'[j].SampleOf?
      ensures TypedBefore(items', items'[j].family, j)
    {
      if j < |items| {
        assert items[j] == items'[j];
        assert TypedBefore(items, items[j].family, j);
        var i :| 0 <= i < j && items[i].Type? && items[i].family == items[j].family;
        assert items'[i] == items[i];
      }
    }
    forall i, j | 0 <= i < j < |items'| && items'[i].Type? && items'[j].Type?
      ensures items'[i].family != items'[j].family
    {
      if i < |items| {
        assert items[i] == items'[i];
        assert TypedBefore(items, items[i].family, |items|);
      }
      if j < |items| {
        assert items[j] == items'[j];
      }
    }
  }

  // ---- The printed sample reads back ---------------------------------------------------------

  lemma {:induction false} OthersKeepKeys(labels: seq<Pair>)
    requires KeysOk(labels) && DistinctKeys(labels)
    ensures KeysOk(Others(labels)) && DistinctKeys(Others(labels))
    ensures forall i :: 0 <= i < |Others(labels)| ==> Others(labels)[i] in labels && Others(labels)[i].key != "node"
  {
    if labels != [] {
      var init, last := labels[..|labels| - 1], labels[|labels| - 1];
      OthersKeepKeys(init);
      assert forall p :: p in init ==> p in labels && p.key != last.key;
    }
  }

  predicate Plain(value: string) {
    Without(value, '\\') && Without(value, '\n')
  }

  /** The parsed labels, key by key of the call. */
  ghost predicate KeyedBack(node: string, labels: seq<Pair>, parsed: map<string, string>) {
    && (forall k :: k in parsed <==> k == "node" || exists i :: 0 <= i < |labels| && labels[i].key == k)
    && (forall i :: 0 <= i < |labels| ==> (parsed[labels[i].key] == labels[i].value <==> Plain(labels[i].value)))
    && ((forall i :: 0 <= i < |labels| ==> labels[i].key != "node") ==> (parsed["node"] == node <==> Plain(node)))
  }

  /** The same, pair by pair of what was printed. */
  ghost predicate PairedBack(all: seq<Pair>, parsed: map<string, string>) {
    && (forall k :: k in parsed <==> exists p :: p in all && p.key == k)
    && (forall p :: p in all ==> (parsed[p.key] == p.value <==> Plain(p.value)))
  }

  lemma AllAre(node: string, labels: seq<Pair>)
    requires DistinctKeys(labels)
    ensures forall p :: p in AllLabels(node, labels) <==>
              p == Pair("node", NodeValue(node, labels)) || (p in labels && p.key != "node")
  {
    OthersAre(node, labels);
  }

  lemma PairedIsKeyed(node: string, labels: seq<Pair>, parsed: map<string, string>)
    requires DistinctKeys(labels) && PairedBack(AllLabels(node, labels), parsed)
    ensures KeyedBack(node, labels, parsed)
  {
    var all, first := AllLabels(node, labels), Pair("node", NodeValue(node, labels));
    AllAre(node, labels);
    OthersAre(node, labels);
    assert first in all;
    forall i | 0 <= i < |labels|
      ensures labels[i].key in parsed && (parsed[labels[i].key] == labels[i].value <==> Plain(labels[i].value))
    {
      assert labels[i] in labels && labels[i] in all;
    }
    forall k | k in parsed && k != "node"
      ensures exists i :: 0 <= i < |labels| && labels[i].key == k
    {
      var p :| p in all && p.key == k;
      var i :| 0 <= i < |labels| && labels[i] == p;
    }
  }

  lemma {:induction false} OthersAre(node: string, labels: seq<Pair>)
    requires DistinctKeys(labels)
    ensures forall p :: p in Others(labels) <==> p in labels && p.key != "node"
    ensures forall i :: 0 <= i < |labels| && labels[i].key == "node" ==> NodeValue(node, labels) == labels[i].value
    ensures (forall i :: 0 <= i < |labels| ==> labels[i].key != "node") ==> NodeValue(node, labels) == node
  {
    if labels != [] {
      var init, last := labels[..|labels| - 1], labels[|labels| - 1];
      OthersAre(node, init);
      assert labels == init + [last];
    }
  }

  lemma AllLabelsOk(node: string, labels: seq<Pair>)
    requires KeysOk(labels) && DistinctKeys(labels)
    ensures KeysOk(AllLabels(node, labels)) && DistinctKeys(AllLabels(node, labels))
  {
    var all := AllLabels(node, labels);
    OthersKeepKeys(labels);
    assert IsKey("node");
    assert all[0].key == "node" && all[1..] == Others(labels);
    assert forall i :: 0 < i < |all| ==> all[i] == Others(labels)[i - 1];
  }

  lemma PairsReadBack(all: seq<Pair>)
    requires KeysOk(all) && DistinctKeys(all)
    ensures PairedBack(all, ParseLabels(Render(all)))
  {
    LabelRoundTrip(all);
    var parsed := ParseLabels(Render(all));
    forall k
      ensures k in parsed <==> exists p :: p in all && p.key == k
    {
      if i :| 0 <= i < |all| && all[i].key == k {
        assert all[i] in all;
      }
    }
  }

  lemma LabelsReadBack(node: string, labels: seq<Pair>)
    requires KeysOk(labels) && DistinctKeys(labels)
    ensures KeyedBack(node, labels, ParseLabels(Render(AllLabels(node, labels))))
  {
    AllLabelsOk(node, labels);
    PairsReadBack(AllLabels(node, labels));
    PairedIsKeyed(node, labels, ParseLabels(Render(AllLabels(node, labels))));
  }

  /** The lines that `metric` appends, one by one. */
  lemma AddedAre(declared: set<string>, node: string, name: string, value: Value, labels: seq<Pair>, mtype: string, help: string)
    ensures var lines := Lines(Added(declared, node, name, value, labels, mtype, help));
            var full := "gpuhealth" + "_" + name;
            var sample := SampleLine(full, Render(AllLabels(node, labels)), ValueText(value));
            lines == if full in declared then [sample]
                     else if help == "" then ["# TYPE " + full + " " + mtype, sample]
                     else ["# HELP " + full + " " + help, "# TYPE " + full + " " + mtype, sample]
  {
  }

  /** The last line of what `metric` appends. */
  lemma LastAdded(declared: set<string>, node: string, name: string, value: Value, labels: seq<Pair>, mtype: string, help: string)
    ensures var added := Lines(Added(declared, node, name, value, labels, mtype, help));
            added != [] &&
            added[|added| - 1] == SampleLine("gpuhealth" + "_" + name, Render(AllLabels(node, labels)), ValueText(value))
  {
  }

  /** What `metric` appends last is one line that the parsers take apart again: the family's name, the
      number, or "1" or "0" for a flag, the buffer's node unless the call names one of its own, and
      each label of the call under its own key, unchanged exactly when it has no backslash and no
      line feed. */
  lemma MetricReadsBack(
    sp: Spaces, declared: set<string>, node: string, name: string, value: Value, labels: seq<Pair>, mtype: string, help: string)
    requires Blank(sp) && IsName("gpuhealth" + "_" + name) && KeysOk(labels) && DistinctKeys(labels)
    requires if value.Number? then IsField(sp, value.text) else !sp('0') && !sp('1')
    ensures var added := Lines(Added(declared, node, name, value, labels, mtype, help));
            added != [] &&
            var sample := ParseSample(sp, added[|added| - 1]);
            && sample.Some? && sample.value.name == "gpuhealth" + "_" + name
            && (value.Flag? ==> sample.value.value == if value.on then "1" else "0")
            && (value.Number? ==> sample.value.value == value.text)
            && KeyedBack(node, labels, ParseLabels(sample.value.labels))
  {
    var all := AllLabels(node, labels);
    assert IsField(sp, ValueText(value));
    LastAdded(declared, node, name, value, labels, mtype, help);
    AllLabelsOk(node, labels);
    SampleRoundTrip(sp, "gpuhealth" + "_" + name, all, ValueText(value));
    LabelsReadBack(node, labels);
  }
}
