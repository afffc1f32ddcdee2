/** rpk's Grafana dashboard generator (src/go/rpk/pkg/cli/cmd/generate/
  * grafana.go): metric families are grouped into rows by name, each family
  * becomes a counter, gauge or percentile graph panel, and the rows are
  * laid out on a 24-column grid. */
module GrafanaDashboard {
  import opened Common

  // ---------------------------------------------------------------------------
  // Ordering strings, as sort.Strings does (code unit by code unit).

  /** `a` sorts no later than `b`. */
  predicate StrLe(a: string, b: string)
    decreases |a|
  {
    a == [] || (b != [] && (a[0] < b[0] || (a[0] == b[0] && StrLe(a[1..], b[1..]))))
  }

  lemma {:induction false} StrLeRefl(a: string)
    ensures StrLe(a, a)
    decreases |a|
  {
    if a != [] {
      StrLeRefl(a[1..]);
    }
  }

  lemma {:induction false} StrLeTotal(a: string, b: string)
    ensures StrLe(a, b) || StrLe(b, a)
    decreases |a|
  {
    if a != [] && b != [] && a[0] == b[0] {
      StrLeTotal(a[1..], b[1..]);
    }
  }

  lemma {:induction false} StrLeTrans(a: string, b: string, c: string)
    requires StrLe(a, b) && StrLe(b, c)
    ensures StrLe(a, c)
    decreases |a|
  {
    if a != [] && a[0] == b[0] && b[0] == c[0] {
      StrLeTrans(a[1..], b[1..], c[1..]);
    }
  }

  lemma {:induction false} StrLeAntisym(a: string, b: string)
    requires StrLe(a, b) && StrLe(b, a)
    ensures a == b
    decreases |a|
  {
    if a != [] {
      StrLeAntisym(a[1..], b[1..]);
      assert a == [a[0]] + a[1..] && b == [b[0]] + b[1..];
    }
  }

  predicate Sorted(s: seq<string>)
  {
    forall i, j :: 0 <= i < j < |s| ==> StrLe(s[i], s[j])
  }

  /** `x` put into the sorted `s` before the first element it sorts no later
    * than. */
  function Insert(x: string, s: seq<string>): (r: seq<string>)
    ensures multiset(r) == multiset(s) + multiset{x}
  {
    if s == [] then [x]
    else if StrLe(x, s[0]) then [x] + s
    else
      assert s == [s[0]] + s[1..];
      [s[0]] + Insert(x, s[1..])
  }

  lemma {:induction false} InsertSorted(x: string, s: seq<string>)
    requires Sorted(s)
    ensures Sorted(Insert(x, s))
  {
    if s != [] {
      if StrLe(x, s[0]) {
        forall j | 1 <= j < |s| + 1 ensures StrLe(x, ([x] + s)[j]) {
          if j > 1 { assert StrLe(s[0], s[j - 1]); } else { StrLeRefl(s[0]); }
          StrLeTrans(x, s[0], s[j - 1]);
        }
      } else {
        StrLeTotal(x, s[0]);
        InsertSorted(x, s[1..]);
        var rest := Insert(x, s[1..]);
        forall k | 0 <= k < |rest| ensures StrLe(s[0], rest[k]) {
          assert rest[k] in multiset(rest);
          if rest[k] != x {
            assert rest[k] in multiset(s[1..]);
            var m :| 0 <= m < |s[1..]| && s[1..][m] == rest[k];
            assert s[m + 1] == rest[k];
          }
        }
      }
    }
  }

  /** `sort.Strings`: the same strings, in order. */
  function SortStrings(s: seq<string>): (r: seq<string>)
    ensures multiset(r) == multiset(s)
    ensures Sorted(r)
  {
    if s == [] then []
    else
      var n := |s| - 1;
      assert s == s[..n] + [s[n]];
      var front := SortStrings(s[..n]);
      InsertSorted(s[n], front);
      Insert(s[n], front)
  }

  /** Sorting has one answer: two sorted lists of the same strings are
    * equal. */
  lemma {:induction false} SortedUnique(a: seq<string>, b: seq<string>)
    requires Sorted(a) && Sorted(b) && multiset(a) == multiset(b)
    ensures a == b
    decreases |a|
  {
    if a != [] {
      assert |b| == |multiset(b)| == |multiset(a)| == |a|;
      assert a[0] in multiset(b) && b[0] in multiset(a);
      var i :| 0 <= i < |b| && b[i] == a[0];
      var j :| 0 <= j < |a| && a[j] == b[0];
      assert StrLe(b[0], a[0]) by { if i > 0 { assert StrLe(b[0], b[i]); } else { StrLeRefl(a[0]); } }
      assert StrLe(a[0], b[0]) by { if j > 0 { assert StrLe(a[0], a[j]); } else { StrLeRefl(a[0]); } }
      StrLeAntisym(a[0], b[0]);
      assert a == [a[0]] + a[1..] && b == [b[0]] + b[1..];
      assert multiset(a) == multiset{a[0]} + multiset(a[1..]);
      assert multiset(b) == multiset{b[0]} + multiset(b[1..]);
      assert a[0] == b[0];
      forall x ensures multiset(a[1..])[x] == multiset(b[1..])[x] {
        assert multiset(a)[x] == multiset{a[0]}[x] + multiset(a[1..])[x];
        assert multiset(b)[x] == multiset{a[0]}[x] + multiset(b[1..])[x];
      }
      assert multiset(a[1..]) == multiset(b[1..]);
      SortedUnique(a[1..], b[1..]);
    }
  }

  // ---------------------------------------------------------------------------
  // Distinct lists.

  predicate Distinct(s: seq<string>)
  {
    forall i, j :: 0 <= i < j < |s| ==> s[i] != s[j]
  }

  lemma {:induction false} DistinctCount(s: seq<string>)
    requires Distinct(s)
    ensures forall x :: multiset(s)[x] <= 1
  {
    if s != [] {
      var n := |s| - 1;
      assert s == s[..n] + [s[n]];
      DistinctCount(s[..n]);
      assert s[n] !in s[..n];
    }
  }

  /** Two equal entries at different places count twice. */
  lemma TwiceCounted(s: seq<string>, i: nat, j: nat)
    requires i < j < |s|
    ensures s[i] == s[j] ==> multiset(s)[s[i]] >= 2
  {
    assert s == s[..j] + [s[j]] + s[j + 1..];
    assert s[i] == s[..j][i];
    assert multiset(s[..j])[s[i]] >= 1;
  }

  lemma CountDistinct(s: seq<string>)
    requires forall x :: multiset(s)[x] <= 1
    ensures Distinct(s)
  {
    forall i, j | 0 <= i < j < |s| ensures s[i] != s[j] {
      TwiceCounted(s, i, j);
    }
  }

  /** Sorting keeps a list free of repetitions. */
  lemma SortKeepsDistinct(s: seq<string>)
    requires Distinct(s)
    ensures Distinct(SortStrings(s))
  {
    DistinctCount(s);
    CountDistinct(SortStrings(s));
  }

  // ---------------------------------------------------------------------------
  // Metrics.

  datatype Label = Label(name: string, value: string)
  datatype Metric = Metric(labels: seq<Label>)
  datatype MetricType = Counter | Gauge | Summary | Untyped | Histogram
  datatype MetricFamily = MetricFamily(name: string, help: string, mtype: MetricType, metrics: seq<Metric>)

  /** The labels of all of a family's metrics, metric after metric. */
  function AllLabels(ms: seq<Metric>): seq<Label>
  {
    if ms == [] then [] else AllLabels(ms[..|ms| - 1]) + ms[|ms| - 1].labels
  }

  lemma {:induction false} AllLabelsAppend(a: seq<Metric>, b: seq<Metric>)
    ensures AllLabels(a + b) == AllLabels(a) + AllLabels(b)
    decreases |b|
  {
    if b != [] {
      var n := |b| - 1;
      assert (a + b)[..|a + b| - 1] == a + b[..n];
      AllLabelsAppend(a, b[..n]);
    } else {
      assert a + b == a;
    }
  }

  /** The prefix `ms[..i+1]` adds the labels of metric `i`. */
  lemma AllLabelsStep(ms: seq<Metric>, i: nat)
    requires i < |ms|
    ensures AllLabels(ms[..i + 1]) == AllLabels(ms[..i]) + ms[i].labels
  {
    assert ms[..i + 1][..i] == ms[..i];
  }

  // ---------------------------------------------------------------------------
  // metricGroup.

  const MetricGroups: seq<string> := [
    "errors", "storage", "reactor", "scheduler", "io_queue",
    "vectorized_internal_rpc_protocol", "kafka_rpc_protocol", "rpc_client",
    "memory", "raft"]

  /** The first of `groups` the name contains, or "others". */
  function FirstGroup(groups: seq<string>, name: string): string
  {
    if groups == [] then "others"
    else if StringContains(name, groups[0]) then groups[0]
    else FirstGroup(groups[1..], name)
  }

  function GroupOf(name: string): string
  {
    FirstGroup(MetricGroups, name)
  }

  /** The group is the first listed group the name contains; a name that
    * contains none falls in "others". */
  lemma {:induction false} FirstGroupMeaning(groups: seq<string>, name: string)
    ensures (forall i :: 0 <= i < |groups| ==> !Contains(name, groups[i])) ==>
      FirstGroup(groups, name) == "others"
    ensures (exists i :: 0 <= i < |groups| && Contains(name, groups[i])) ==>
      exists i :: 0 <= i < |groups| && Contains(name, groups[i]) &&
        FirstGroup(groups, name) == groups[i] &&
        forall j :: 0 <= j < i ==> !Contains(name, groups[j])
  {
    if groups != [] {
      FirstGroupMeaning(groups[1..], name);
      if !Contains(name, groups[0]) {
        if exists i :: 0 <= i < |groups| && Contains(name, groups[i]) {
          var i :| 0 <= i < |groups| && Contains(name, groups[i]);
          assert groups[1..][i - 1] == groups[i];
          var k :| 0 <= k < |groups[1..]| && Contains(name, groups[1..][k]) &&
            FirstGroup(groups[1..], name) == groups[1..][k] &&
            forall j :: 0 <= j < k ==> !Contains(name, groups[1..][j]);
          forall j | 0 <= j < k + 1 ensures !Contains(name, groups[j]) {
            if j > 0 { assert groups[j] == groups[1..][j - 1]; }
          }
        } else {
          forall i | 0 <= i < |groups[1..]| ensures !Contains(name, groups[1..][i]) {
            assert groups[1..][i] == groups[i + 1];
          }
        }
      }
    }
  }

  /** `metricGroup`: the loop over the listed groups. */
  method MetricGroup(name: string) returns (g: string)
    ensures g == GroupOf(name)
  {
    var i := 0;
    while i < |MetricGroups|
      invariant 0 <= i <= |MetricGroups|
      invariant FirstGroup(MetricGroups[i..], name) == GroupOf(name)
    {
      assert MetricGroups[i..][1..] == MetricGroups[i + 1..];
      if StringContains(name, MetricGroups[i]) {
        return MetricGroups[i];
      }
      i := i + 1;
    }
    return "others";
  }

  // ---------------------------------------------------------------------------
  // subtype.

  predicate NoType(ls: seq<Label>)
  {
    forall i :: 0 <= i < |ls| ==> ls[i].name != "type"
  }

  /** The value of the first "type" label, or "none". */
  function TypeOf(ls: seq<Label>): string
  {
    if ls == [] then "none"
    else if ls[0].name == "type" then ls[0].value
    else TypeOf(ls[1..])
  }

  /** Labels without a "type" in front do not change the answer. */
  lemma {:induction false} TypeOfSkip(a: seq<Label>, b: seq<Label>)
    requires NoType(a)
    ensures TypeOf(a + b) == TypeOf(b)
  {
    if a != [] {
      assert (a + b)[1..] == a[1..] + b;
      TypeOfSkip(a[1..], b);
    } else {
      assert a + b == b;
    }
  }

  /** The subtype is the value of the first "type" label, and "none"
    * exactly when there is no such label (or it says "none"). */
  lemma {:induction false} TypeOfMeaning(ls: seq<Label>)
    ensures NoType(ls) ==> TypeOf(ls) == "none"
    ensures !NoType(ls) ==> (exists i :: 0 <= i < |ls| && ls[i].name == "type" &&
                                         NoType(ls[..i]) && TypeOf(ls) == ls[i].value)
  {
    if ls != [] && ls[0].name != "type" {
      TypeOfMeaning(ls[1..]);
      if NoType(ls) {
        assert NoType(ls[1..]);
      } else {
        assert !NoType(ls[1..]);
        var k :| 0 <= k < |ls[1..]| && ls[1..][k].name == "type" &&
          NoType(ls[1..][..k]) && TypeOf(ls[1..]) == ls[1..][k].value;
        assert ls[..k + 1] == [ls[0]] + ls[1..][..k];
        assert ls[k + 1] == ls[1..][k];
      }
    } else if ls != [] {
      assert ls[..0] == [];
    }
  }

  /** `subtype`: the nested loops over metrics and labels. */
  method Subtype(m: MetricFamily) returns (r: string)
    ensures r == TypeOf(AllLabels(m.metrics))
  {
    var ms := m.metrics;
    var i := 0;
    while i < |ms|
      invariant 0 <= i <= |ms|
      invariant NoType(AllLabels(ms[..i]))
    {
      var ls := ms[i].labels;
      var j := 0;
      while j < |ls|
        invariant 0 <= j <= |ls|
        invariant NoType(AllLabels(ms[..i]) + ls[..j])
      {
        if ls[j].name == "type" {
          SubtypeFound(ms, i, j);
          return ls[j].value;
        }
        assert AllLabels(ms[..i]) + ls[..j + 1] == (AllLabels(ms[..i]) + ls[..j]) + [ls[j]];
        j := j + 1;
      }
      AllLabelsStep(ms, i);
      assert ls[..j] == ls;
      i := i + 1;
    }
    assert ms[..i] == ms;
    TypeOfMeaning(AllLabels(ms));
    return "none";
  }

  lemma SubtypeFound(ms: seq<Metric>, i: nat, j: nat)
    requires i < |ms| && j < |ms[i].labels| && ms[i].labels[j].name == "type"
    requires NoType(AllLabels(ms[..i]) + ms[i].labels[..j])
    ensures TypeOf(AllLabels(ms)) == ms[i].labels[j].value
  {
    var ls := ms[i].labels;
    assert ms == ms[..i + 1] + ms[i + 1..];
    AllLabelsAppend(ms[..i + 1], ms[i + 1..]);
    AllLabelsStep(ms, i);
    var front := AllLabels(ms[..i]) + ls[..j];
    var back := ls[j..] + AllLabels(ms[i + 1..]);
    assert ls == ls[..j] + ls[j..];
    assert AllLabels(ms) == front + back;
    TypeOfSkip(front, back);
    assert back[0] == ls[j];
  }

  // ---------------------------------------------------------------------------
  // legendFormat.

  /** The label names a legend lists: each name other than "type", once, in
    * the order first seen. */
  function LegendNames(ls: seq<Label>): seq<string>
  {
    if ls == [] then []
    else
      var names := LegendNames(ls[..|ls| - 1]);
      var n := ls[|ls| - 1].name;
      if n != "type" && n !in names then names + [n] else names
  }

  function LegendOf(names: seq<string>): string
  {
    if names == [] then "node: {{instance}}"
    else
      var n := names[|names| - 1];
      LegendOf(names[..|names| - 1]) + ", " + n + ": {{" + n + "}}"
  }

  /** The listed names are distinct, never "type", each a name of some label,
    * and every label name other than "type" is listed; a longer prefix of
    * the labels only appends names (so they stay in first-seen order). */
  lemma {:induction false} LegendNamesMeaning(ls: seq<Label>)
    ensures Distinct(LegendNames(ls))
    ensures forall k :: 0 <= k < |LegendNames(ls)| ==> LegendNames(ls)[k] != "type"
    ensures forall k :: 0 <= k < |LegendNames(ls)| ==>
      exists i :: 0 <= i < |ls| && ls[i].name == LegendNames(ls)[k]
    ensures forall i :: 0 <= i < |ls| && ls[i].name != "type" ==> ls[i].name in LegendNames(ls)
    ensures forall i :: 0 <= i <= |ls| ==> LegendNames(ls[..i]) <= LegendNames(ls)
  {
    if ls != [] {
      var n := |ls| - 1;
      var front := ls[..n];
      LegendNamesMeaning(front);
      forall k | 0 <= k < |LegendNames(ls)|
        ensures exists i :: 0 <= i < |ls| && ls[i].name == LegendNames(ls)[k]
      {
        if k < |LegendNames(front)| {
          var i :| 0 <= i < |front| && front[i].name == LegendNames(front)[k];
          assert ls[i] == front[i];
        } else {
          assert ls[n].name == LegendNames(ls)[k];
        }
      }
      forall i | 0 <= i < |ls| && ls[i].name != "type" ensures ls[i].name in LegendNames(ls) {
        if i < n { assert ls[i] == front[i]; }
      }
      forall i | 0 <= i <= |ls| ensures LegendNames(ls[..i]) <= LegendNames(ls) {
        if i <= n { assert ls[..i] == front[..i]; } else { assert ls[..i] == ls; }
      }
    }
  }

  /** Every legend starts with the node placeholder. */
  lemma {:induction false} LegendStarts(names: seq<string>)
    ensures HasPrefix(LegendOf(names), "node: {{instance}}")
  {
    if names != [] {
      var n := names[|names| - 1];
      LegendStarts(names[..|names| - 1]);
      var front := LegendOf(names[..|names| - 1]);
      assert LegendOf(names) == front + (", " + n + ": {{" + n + "}}");
      assert LegendOf(names)[..|"node: {{instance}}"|] == front[..|"node: {{instance}}"|];
    }
  }

  /** The `duplicate` closure. */
  method Duplicate(s: string, ls: seq<string>) returns (b: bool)
    ensures b <==> s in ls
  {
    for i := 0 to |ls|
      invariant s !in ls[..i]
    {
      if s == ls[i] {
        return true;
      }
    }
    assert ls[..|ls|] == ls;
    return false;
  }

  /** `legendFormat`: the nested loops that extend the legend. */
  method LegendFormat(m: MetricFamily) returns (legend: string)
    ensures legend == LegendOf(LegendNames(AllLabels(m.metrics)))
  {
    var ms := m.metrics;
    var labels: seq<string> := [];
    legend := "node: {{instance}}";
    var i := 0;
    while i < |ms|
      invariant 0 <= i <= |ms|
      invariant labels == LegendNames(AllLabels(ms[..i]))
      invariant legend == LegendOf(labels)
    {
      var ls := ms[i].labels;
      var seen := AllLabels(ms[..i]);
      assert seen + ls[..0] == seen;
      var j := 0;
      while j < |ls|
        invariant 0 <= j <= |ls|
        invariant labels == LegendNames(seen + ls[..j])
        invariant legend == LegendOf(labels)
      {
        var name := ls[j].name;
        var dup := Duplicate(name, labels);
        assert (seen + ls[..j + 1])[..|seen + ls[..j + 1]| - 1] == seen + ls[..j];
        if name != "type" && !dup {
          assert (labels + [name])[..|labels|] == labels;
          legend := legend + ", " + name + ": {{" + name + "}}";
          labels := labels + [name];
        }
        j := j + 1;
      }
      AllLabelsStep(ms, i);
      assert ls[..j] == ls;
      i := i + 1;
    }
    assert ms[..i] == ms;
  }

  // ---------------------------------------------------------------------------
  // Panels.

  /** A counter's y axis shows bytes per second when its name mentions
    * bytes, operations per second otherwise. */
  function CounterUnit(name: string): (u: string)
    ensures u == "Bps" <==> Contains(name, "bytes")
    ensures u == "ops" <==> !Contains(name, "bytes")
  {
    if StringContains(name, "bytes") then "Bps" else "ops"
  }

  /** A gauge's y axis shows bytes when its subtype mentions bytes, plain
    * numbers otherwise. */
  function GaugeUnit(subtype: string): (u: string)
    ensures u == "bytes" <==> Contains(subtype, "bytes")
    ensures u == "short" <==> !Contains(subtype, "bytes")
  {
    if StringContains(subtype, "bytes") then "bytes" else "short"
  }

  /** A graph panel's query: a rate for counters, a sum for gauges, and for
    * percentile panels the metric and the percentile in hundredths (their
    * float formatting is not modelled). */
  datatype Query = Rate(expr: string) | Sum(expr: string) | Quantile(metric: string, hundredths: nat)

  /** A graph panel: query, title, legend, y-axis unit, whether the line is
    * stepped, and its grid position. */
  datatype Panel = Panel(query: Query, title: string, legend: string, unit: string,
                         steppedLine: bool, x: int, y: int)

  const Selector := "{instance=~\"[[node]]\",shard=~\"[[node_shard]]\"}"

  function CounterPanel(m: MetricFamily): Panel
  {
    Panel(Rate("sum(irate(" + m.name + Selector + "[1m])) by ([[aggr_criteria]])"),
          "Rate - " + m.help, LegendOf(LegendNames(AllLabels(m.metrics))), CounterUnit(m.name),
          false, 0, 0)
  }

  function GaugePanel(m: MetricFamily): Panel
  {
    Panel(Sum("sum(" + m.name + Selector + ") by ([[aggr_criteria]])"),
          m.help, LegendOf(LegendNames(AllLabels(m.metrics))), GaugeUnit(TypeOf(AllLabels(m.metrics))),
          true, 0, 0)
  }

  function PercentilePanel(m: MetricFamily, hundredths: nat): Panel
  {
    Panel(Quantile(m.name, hundredths), m.help + " (p" + NatToString(hundredths) + ")",
          LegendOf(LegendNames(AllLabels(m.metrics))), "µs", true, 0, 0)
  }

  /** The panel `processRows` makes for a family: counters get a rate graph,
    * families whose subtype is "histogram" a 95th-percentile graph, all
    * others a gauge graph; every panel's legend lists the family's labels. */
  function PanelOf(m: MetricFamily): (p: Panel)
    ensures m.mtype == Counter ==> p.query.Rate? && p.unit == CounterUnit(m.name)
    ensures m.mtype != Counter && TypeOf(AllLabels(m.metrics)) == "histogram" ==>
      p.query == Quantile(m.name, 95)
    ensures m.mtype != Counter && TypeOf(AllLabels(m.metrics)) != "histogram" ==>
      p.query.Sum? && p.unit == GaugeUnit(TypeOf(AllLabels(m.metrics)))
    ensures p.legend == LegendOf(LegendNames(AllLabels(m.metrics)))
  {
    if m.mtype == Counter then CounterPanel(m)
    else if TypeOf(AllLabels(m.metrics)) == "histogram" then PercentilePanel(m, 95)
    else GaugePanel(m)
  }

  /** `newCounterPanel`. */
  method NewCounterPanel(m: MetricFamily) returns (p: Panel)
    ensures p == CounterPanel(m)
    ensures p.query == Rate("sum(irate(" + m.name + Selector + "[1m])) by ([[aggr_criteria]])")
    ensures p.title == "Rate - " + m.help && p.legend == LegendOf(LegendNames(AllLabels(m.metrics)))
    ensures (p.unit == "Bps" <==> Contains(m.name, "bytes")) && (p.unit == "ops" <==> !Contains(m.name, "bytes"))
    ensures !p.steppedLine
  {
    var legend := LegendFormat(m);
    var unit := "ops";
    if StringContains(m.name, "bytes") {
      unit := "Bps";
    }
    p := Panel(Rate("sum(irate(" + m.name + Selector + "[1m])) by ([[aggr_criteria]])"),
               "Rate - " + m.help, legend, unit, false, 0, 0);
  }

  /** `newGaugePanel`. */
  method NewGaugePanel(m: MetricFamily) returns (p: Panel)
    ensures p == GaugePanel(m)
    ensures p.query == Sum("sum(" + m.name + Selector + ") by ([[aggr_criteria]])")
    ensures p.title == m.help && p.legend == LegendOf(LegendNames(AllLabels(m.metrics)))
    ensures var subtype := TypeOf(AllLabels(m.metrics));
      (p.unit == "bytes" <==> Contains(subtype, "bytes")) && (p.unit == "short" <==> !Contains(subtype, "bytes"))
    ensures p.steppedLine
  {
    var legend := LegendFormat(m);
    var subtype := Subtype(m);
    var unit := "short";
    if StringContains(subtype, "bytes") {
      unit := "bytes";
    }
    p := Panel(Sum("sum(" + m.name + Selector + ") by ([[aggr_criteria]])"),
               m.help, legend, unit, true, 0, 0);
  }

  /** `newPercentilePanel`. */
  method NewPercentilePanel(m: MetricFamily, hundredths: nat) returns (p: Panel)
    ensures p == PercentilePanel(m, hundredths)
    ensures p.query == Quantile(m.name, hundredths)
    ensures p.title == m.help + " (p" + NatToString(hundredths) + ")"
    ensures p.legend == LegendOf(LegendNames(AllLabels(m.metrics)))
    ensures p.unit == "µs" && p.steppedLine
  {
    var legend := LegendFormat(m);
    p := Panel(Quantile(m.name, hundredths), m.help + " (p" + NatToString(hundredths) + ")",
               legend, "µs", true, 0, 0);
  }

  /** The panel choice in `processRows`. */
  method NewPanel(m: MetricFamily) returns (p: Panel)
    ensures p == PanelOf(m)
  {
    if m.mtype == Counter {
      p := NewCounterPanel(m);
    } else {
      var subtype := Subtype(m);
      if subtype == "histogram" {
        p := NewPercentilePanel(m, 95);
      } else {
        p := NewGaugePanel(m);
      }
    }
  }

  // ---------------------------------------------------------------------------
  // Rows.

  /** A row panel: its title, its y position and its graph panels. */
  datatype Row = Row(title: string, y: int, panels: seq<Panel>)

  const PanelWidth := 8
  const GridWidth := 24

  /** Panels laid out on line `y`: panel `i` goes to column `(i * 8) mod 24`. */
  function PlacedPanels(ps: seq<Panel>, y: int): (r: seq<Panel>)
    ensures |r| == |ps|
  {
    if ps == [] then []
    else
      var n := |ps| - 1;
      PlacedPanels(ps[..n], y) + [ps[n].(x := (n * PanelWidth) % GridWidth, y := y)]
  }

  /** A row placed at `y`, with its panels laid out on that line. */
  function Placed(row: Row, y: int): (r: Row)
    ensures r.title == row.title && r.y == y && |r.panels| == |row.panels|
  {
    Row(row.title, y, PlacedPanels(row.panels, y))
  }

  /** Where each panel of a placed row ends up: only its position changes. */
  lemma {:induction false} PlacedLayout(ps: seq<Panel>, y: int)
    ensures forall i :: 0 <= i < |ps| ==>
      PlacedPanels(ps, y)[i] == ps[i].(x := (i * PanelWidth) % GridWidth, y := y)
  {
    if ps != [] {
      var n := |ps| - 1;
      PlacedLayout(ps[..n], y);
    }
  }

  /** Placed panels fill the grid three to a line: every panel starts in
    * column 0, 8 or 16 and ends within the 24 columns, and consecutive
    * panels sit side by side unless the line is full. */
  lemma PlacedFitsGrid(row: Row, y: int)
    ensures forall i :: 0 <= i < |row.panels| ==>
      var x := Placed(row, y).panels[i].x;
      (x == 0 || x == 8 || x == 16) && x + PanelWidth <= GridWidth
    ensures forall i :: 0 < i < |row.panels| ==>
      var p := Placed(row, y).panels;
      p[i].x == (if p[i - 1].x == 16 then 0 else p[i - 1].x + PanelWidth)
  {
    PlacedLayout(row.panels, y);
  }

  /** The title and panel maps a row set holds are consistent: each title
    * once, each title a key, each key a title, each row titled by its key. */
  predicate ValidRows(titles: seq<string>, groups: map<string, Row>)
  {
    Distinct(titles) &&
    (forall t :: t in groups ==> t in titles) &&
    (forall i :: 0 <= i < |titles| ==> titles[i] in groups && groups[titles[i]].title == titles[i])
  }

  /** A panel added to the row of group `g`, creating the row on first use. */
  function AddPanel(titles: seq<string>, groups: map<string, Row>, g: string, p: Panel): (seq<string>, map<string, Row>)
  {
    if g in groups then (titles, groups[g := groups[g].(panels := groups[g].panels + [p])])
    else (titles + [g], groups[g := Row(g, 0, [p])])
  }

  predicate AllIn(names: seq<string>, families: map<string, MetricFamily>)
  {
    forall i :: 0 <= i < |names| ==> names[i] in families
  }

  /** What visiting `names` adds: for each name in turn, its group and the
    * panel of its family. */
  function Entries(families: map<string, MetricFamily>, names: seq<string>): (e: seq<(string, Panel)>)
    requires AllIn(names, families)
    ensures |e| == |names|
  {
    seq(|names|, i requires 0 <= i < |names| => (GroupOf(names[i]), PanelOf(families[names[i]])))
  }

  /** The rows after adding each entry's panel to its group's row, in order. */
  function Visit(titles: seq<string>, groups: map<string, Row>, entries: seq<(string, Panel)>): (seq<string>, map<string, Row>)
  {
    if entries == [] then (titles, groups)
    else
      var n := |entries| - 1;
      var (t, gs) := Visit(titles, groups, entries[..n]);
      AddPanel(t, gs, entries[n].0, entries[n].1)
  }

  /** The panels of the entries for group `g`, in order. */
  function PanelsIn(entries: seq<(string, Panel)>, g: string): seq<Panel>
  {
    if entries == [] then []
    else
      var n := |entries| - 1;
      var front := PanelsIn(entries[..n], g);
      if entries[n].0 == g then front + [entries[n].1] else front
  }

  /** Visiting keeps the row set consistent and only appends titles. */
  lemma {:induction false} VisitValid(titles: seq<string>, groups: map<string, Row>, entries: seq<(string, Panel)>)
    requires ValidRows(titles, groups)
    ensures ValidRows(Visit(titles, groups, entries).0, Visit(titles, groups, entries).1)
    ensures titles <= Visit(titles, groups, entries).0
  {
    if entries != [] {
      var n := |entries| - 1;
      VisitValid(titles, groups, entries[..n]);
      var (t, gs) := Visit(titles, groups, entries[..n]);
      var g := entries[n].0;
      if g !in gs {
        assert g !in t;
        var t' := t + [g];
        assert forall k :: 0 <= k < |t| ==> t'[k] == t[k];
      }
    }
  }

  /** After the visit there is a row for each group that had one and for
    * each entry's group, and for no other. */
  lemma {:induction false} VisitKeys(titles: seq<string>, groups: map<string, Row>, entries: seq<(string, Panel)>)
    ensures forall g :: g in Visit(titles, groups, entries).1 <==>
      g in groups || exists i :: 0 <= i < |entries| && entries[i].0 == g
  {
    if entries != [] {
      var n := |entries| - 1;
      VisitKeys(titles, groups, entries[..n]);
      assert forall i :: 0 <= i < n ==> entries[..n][i] == entries[i];
      forall g | exists i :: 0 <= i < |entries| && entries[i].0 == g
        ensures g in Visit(titles, groups, entries).1
      {
        var i :| 0 <= i < |entries| && entries[i].0 == g;
        if i < n { assert entries[..n][i].0 == g; }
      }
    }
  }

  /** Each entry's panel goes into exactly one row, the row of its group,
    * after the panels already there and in visiting order. */
  lemma {:induction false} VisitPanels(titles: seq<string>, groups: map<string, Row>,
                                      entries: seq<(string, Panel)>, g: string)
    requires g in Visit(titles, groups, entries).1
    ensures Visit(titles, groups, entries).1[g].panels ==
      (if g in groups then groups[g].panels else []) + PanelsIn(entries, g)
  {
    if entries != [] {
      var n := |entries| - 1;
      var gs := Visit(titles, groups, entries[..n]).1;
      if g in gs {
        VisitPanels(titles, groups, entries[..n], g);
      } else {
        VisitKeys(titles, groups, entries[..n]);
        PanelsInEmpty(entries[..n], g);
      }
    }
  }

  /** No entry for group `g`, no panel for `g`. */
  lemma {:induction false} PanelsInEmpty(entries: seq<(string, Panel)>, g: string)
    requires forall i :: 0 <= i < |entries| ==> entries[i].0 != g
    ensures PanelsIn(entries, g) == []
  {
    if entries != [] {
      var n := |entries| - 1;
      assert forall i :: 0 <= i < n ==> entries[..n][i] == entries[i];
      PanelsInEmpty(entries[..n], g);
    }
  }

  /** Sorting the titles keeps the row set consistent. */
  lemma SortKeepsValid(titles: seq<string>, groups: map<string, Row>)
    requires ValidRows(titles, groups)
    ensures ValidRows(SortStrings(titles), groups)
  {
    var sorted := SortStrings(titles);
    SortKeepsDistinct(titles);
    forall t ensures t in sorted <==> t in titles {
      assert t in sorted <==> t in multiset(sorted);
      assert t in titles <==> t in multiset(titles);
    }
    forall i | 0 <= i < |sorted| ensures sorted[i] in groups && groups[sorted[i]].title == sorted[i] {
      assert sorted[i] in titles;
      var j :| 0 <= j < |titles| && titles[j] == sorted[i];
    }
  }

  /** A list of distinct names exactly covering the map's keys, sorted, still
    * names only keys. */
  lemma SortedNamesIn(families: map<string, MetricFamily>, order: seq<string>)
    requires forall n :: n in families <==> n in order
    ensures AllIn(SortStrings(order), families)
  {
    var names := SortStrings(order);
    forall i | 0 <= i < |names| ensures names[i] in families {
      assert names[i] in multiset(order);
    }
  }

  /** The rows of `titles`, in that order, placed on consecutive lines from
    * `fromY`. */
  function PlacedRows(groups: map<string, Row>, titles: seq<string>, fromY: int): (r: seq<Row>)
    requires forall k :: 0 <= k < |titles| ==> titles[k] in groups
    ensures |r| == |titles|
  {
    if titles == [] then []
    else
      var n := |titles| - 1;
      PlacedRows(groups, titles[..n], fromY) + [Placed(groups[titles[n]], fromY + n)]
  }

  /** Row `k` is the row of title `k`, placed on line `fromY + k`. */
  lemma {:induction false} PlacedRowsMeaning(groups: map<string, Row>, titles: seq<string>, fromY: int)
    requires forall k :: 0 <= k < |titles| ==> titles[k] in groups
    ensures forall k :: 0 <= k < |titles| ==>
      PlacedRows(groups, titles, fromY)[k] == Placed(groups[titles[k]], fromY + k)
  {
    if titles != [] {
      var n := |titles| - 1;
      PlacedRowsMeaning(groups, titles[..n], fromY);
      assert forall k :: 0 <= k < n ==> titles[..n][k] == titles[k];
    }
  }

  /** Re-placing rows under their own titles keeps the row set consistent. */
  lemma PlacedKeepsValid(titles: seq<string>, before: map<string, Row>, after: map<string, Row>)
    requires ValidRows(titles, before)
    requires after.Keys == before.Keys
    requires forall k :: 0 <= k < |titles| ==> after[titles[k]].title == titles[k]
    ensures ValidRows(titles, after)
  {
  }

  /** `RowSet`: row titles in the order first seen, and the row of each
    * title. */
  class RowSet {
    var rowTitles: seq<string>
    var groupPanels: map<string, Row>

    predicate Valid()
      reads this
    {
      ValidRows(rowTitles, groupPanels)
    }

    /** `newRowSet`. */
    constructor()
      ensures rowTitles == [] && groupPanels == map[]
      ensures Valid()
    {
      rowTitles := [];
      groupPanels := map[];
    }

    /** `processRows`: the family names (in the map's iteration order,
      * `order`) are sorted and each family's panel is added to its group's
      * row. */
    method ProcessRows(families: map<string, MetricFamily>, order: seq<string>)
      requires Valid()
      requires Distinct(order) && forall n :: n in families <==> n in order
      modifies this
      ensures AllIn(SortStrings(order), families) &&
        (rowTitles, groupPanels) == Visit(old(rowTitles), old(groupPanels), Entries(families, SortStrings(order)))
      ensures Valid()
    {
      var names := SortStrings(order);
      SortedNamesIn(families, order);
      VisitValid(rowTitles, groupPanels, Entries(families, names));
      rowTitles, groupPanels := AddAll(rowTitles, groupPanels, families, names);
    }

    /** The inner loop of `finalize`: every panel of the row gets the row's
      * y and its column. */
    static method PlaceRow(row: Row, y: int) returns (placed: Row)
      ensures placed == Placed(row, y)
    {
      var panels: seq<Panel> := [];
      for i := 0 to |row.panels|
        invariant panels == PlacedPanels(row.panels[..i], y)
      {
        assert row.panels[..i + 1][..i] == row.panels[..i];
        panels := panels + [row.panels[i].(x := (i * PanelWidth) % GridWidth, y := y)];
      }
      assert row.panels[..|row.panels|] == row.panels;
      placed := Row(row.title, y, panels);
    }

    /** `sort.Strings(rowSet.rowTitles)`. */
    method SortTitles()
      requires Valid()
      modifies this
      ensures rowTitles == SortStrings(old(rowTitles)) && groupPanels == old(groupPanels)
      ensures Valid()
    {
      SortKeepsValid(rowTitles, groupPanels);
      rowTitles := SortStrings(rowTitles);
    }

    /** `finalize`: the titles are sorted and the rows, in title order, are
      * placed on consecutive lines from `fromY`; the rows are shared with
      * the map, so the map holds the placed rows too. */
    method Finalize(fromY: int) returns (rows: seq<Row>)
      requires Valid()
      modifies this
      ensures Valid() && groupPanels.Keys == old(groupPanels).Keys
      ensures rowTitles == SortStrings(old(rowTitles))
      ensures rows == PlacedRows(old(groupPanels), rowTitles, fromY)
      ensures forall k :: 0 <= k < |rows| ==> rows[k].title == rowTitles[k] && groupPanels[rowTitles[k]] == rows[k]
    {
      SortTitles();
      label sorted:
      rows := PlaceRows(fromY);
      PlacedRowsMeaning(old@sorted(groupPanels), rowTitles, fromY);
      PlacedKeepsValid(rowTitles, old@sorted(groupPanels), groupPanels);
    }

    /** The loop of `finalize` over the (sorted) titles. */
    method PlaceRows(fromY: int) returns (rows: seq<Row>)
      requires Valid()
      modifies this
      ensures groupPanels.Keys == old(groupPanels).Keys && rowTitles == old(rowTitles)
      ensures rows == PlacedRows(old(groupPanels), rowTitles, fromY)
      ensures forall k :: 0 <= k < |rows| ==> groupPanels[rowTitles[k]] == rows[k]
    {
      rows, groupPanels := PlaceAll(rowTitles, groupPanels, fromY);
    }
  }

  /** The loop of `processRows` over the sorted names, on the row set's
    * titles and rows. */
  method AddAll(titles: seq<string>, groups: map<string, Row>,
                families: map<string, MetricFamily>, names: seq<string>)
    returns (t: seq<string>, gs: map<string, Row>)
    requires AllIn(names, families)
    ensures (t, gs) == Visit(titles, groups, Entries(families, names))
  {
    ghost var entries := Entries(families, names);
    t, gs := titles, groups;
    for i := 0 to |names|
      invariant (t, gs) == Visit(titles, groups, entries[..i])
    {
      var name := names[i];
      var panel := NewPanel(families[name]);
      var group := MetricGroup(name);
      if group in gs {
        var row := gs[group];
        gs := gs[group := row.(panels := row.panels + [panel])];
      } else {
        t := t + [group];
        gs := gs[group := Row(group, 0, [panel])];
      }
      assert entries[..i + 1][..i] == entries[..i];
      assert entries[i] == (group, panel);
    }
    assert entries[..|names|] == entries;
  }

  /** The loop of `finalize`, on the titles and the rows they name. */
  method PlaceAll(titles: seq<string>, groups: map<string, Row>, fromY: int)
    returns (rows: seq<Row>, placed: map<string, Row>)
    requires Distinct(titles) && forall j :: 0 <= j < |titles| ==> titles[j] in groups
    ensures placed.Keys == groups.Keys
    ensures rows == PlacedRows(groups, titles, fromY)
    ensures forall k :: 0 <= k < |rows| ==> placed[titles[k]] == rows[k]
  {
    placed := groups;
    rows := [];
    var y := fromY;
    for k := 0 to |titles|
      invariant y == fromY + k
      invariant placed.Keys == groups.Keys
      invariant rows == PlacedRows(groups, titles[..k], fromY)
      invariant forall j :: 0 <= j < k ==> placed[titles[j]] == rows[j]
      invariant forall j :: k <= j < |titles| ==> placed[titles[j]] == groups[titles[j]]
    {
      var title := titles[k];
      var row := RowSet.PlaceRow(placed[title], y);
      ghost var prev := rows;
      placed := placed[title := row];
      rows := rows + [row];
      assert titles[..k + 1][..k] == titles[..k];
      assert forall j :: 0 <= j < k ==> rows[j] == prev[j];
      assert forall j :: 0 <= j < |titles| && j != k ==> titles[j] != title;
      y := y + 1;
    }
    assert titles[..|titles|] == titles;
  }

  /** `processRows` does not depend on the map's iteration order: any two
    * orders of the same names give the same rows. */
  lemma ProcessOrderIrrelevant(o1: seq<string>, o2: seq<string>)
    requires Distinct(o1) && Distinct(o2)
    requires forall n :: n in o1 <==> n in o2
    ensures SortStrings(o1) == SortStrings(o2)
  {
    DistinctCount(o1);
    DistinctCount(o2);
    assert multiset(o1) == multiset(o2) by {
      forall x ensures multiset(o1)[x] == multiset(o2)[x] {
        assert x in o1 <==> x in multiset(o1);
        assert x in o2 <==> x in multiset(o2);
      }
    }
    SortedUnique(SortStrings(o1), SortStrings(o2));
  }

  // ---------------------------------------------------------------------------
  // The Prometheus URL.

  /** A URL without an http:// or https:// scheme gets http:// in front. */
  function NormalizeUrl(url: string): (r: string)
    ensures HasPrefix(r, "http://") || HasPrefix(r, "https://")
    ensures HasPrefix(url, "http://") || HasPrefix(url, "https://") ==> r == url
    ensures !(HasPrefix(url, "http://") || HasPrefix(url, "https://")) ==> r == "http://" + url
  {
    if HasPrefix(url, "http://") || HasPrefix(url, "https://") then url
    else
      assert ("http://" + url)[..7] == "http://";
      "http://" + url
  }

  /** Normalizing twice is normalizing once. */
  lemma NormalizeUrlIdempotent(url: string)
    ensures NormalizeUrl(NormalizeUrl(url)) == NormalizeUrl(url)
  {
  }
}
