// The Prometheus text reader of the test client, against a printer of the same format.

module Metrics {
  import opened Common
  import opened Decimal
  import opened Text

  // ---------- Text ----------

  function StripCr(s: string): string { if s != [] && s[|s| - 1] == '\r' then s[..|s| - 1] else s }

  /** `str::lines`. */
  function Lines(s: string): seq<string> {
    if s == [] then []
    else
      var i := Find(s, '\n');
      if i == |s| then [s] else [StripCr(s[..i])] + Lines(s[i + 1..])
  }

  // ---------- Labels ----------

  type Labels = map<string, string>

  predicate Separator(c: char) { c == ',' || IsWhitespace(c) }

  function SkipSeparators(s: string): (t: string)
    ensures |t| <= |s| && (t != [] ==> !Separator(t[0]))
  {
    if s != [] && Separator(s[0]) then SkipSeparators(s[1..]) else s
  }

  /** What an escaped character stands for. */
  function Unescape(c: char): string {
    if c == 'n' then "\n" else if c == 't' then "\t" else if c == '\\' || c == '"' then [c] else ['\\', c]
  }

  /** Value of a quoted string, and what follows its closing quote. */
  function ScanValue(s: string, escaped: bool): (r: (string, string))
    ensures |r.1| <= |s|
    decreases |s|
  {
    if s == [] then ("", s)
    else if escaped then
      var (v, rest) := ScanValue(s[1..], false);
      (Unescape(s[0]) + v, rest)
    else if s[0] == '\\' then ScanValue(s[1..], true)
    else if s[0] == '"' then ("", s[1..])
    else
      var (v, rest) := ScanValue(s[1..], false);
      ([s[0]] + v, rest)
  }

  /** One label after the separators: its entry, if its value is quoted, and the remaining text. */
  function ScanLabel(s: string): (r: (Option<(string, string)>, string))
    requires s != []
    ensures |r.1| < |s|
  {
    var i := Find(s, '=');
    if i + 1 >= |s| then (None, [])
    else if s[i + 1] != '"' then (None, s[i + 2..])
    else
      var (value, rest) := ScanValue(s[i + 2..], false);
      (Some((s[..i], value)), rest)
  }

  function ScanLabels(s: string, labels: Labels): Labels
    decreases |s|
  {
    var t := SkipSeparators(s);
    if t == [] then labels
    else
      match ScanLabel(t)
      case (None, rest) => ScanLabels(rest, labels)
      case (Some((name, value)), rest) => ScanLabels(rest, labels[name := value])
  }

  /** The loop that skips separators from position `i`. */
  method SkipFrom(s: string, i: nat) returns (j: nat)
    requires i <= |s|
    ensures i <= j <= |s| && s[j..] == SkipSeparators(s[i..])
  {
    j := i;
    while j < |s| && Separator(s[j])
      invariant i <= j <= |s| && SkipSeparators(s[j..]) == SkipSeparators(s[i..])
    {
      assert s[j..][1..] == s[j + 1..];
      j := j + 1;
    }
  }

  lemma FindNext(s: string, j: nat, c: char)
    requires j < |s| && s[j] != c
    ensures Find(s[j..], c) == 1 + Find(s[j + 1..], c)
  {
    assert s[j..][1..] == s[j + 1..];
  }

  /** The loop that reads a label name. */
  method NameFrom(s: string, i: nat) returns (name: string, j: nat)
    requires i <= |s|
    ensures j == i + Find(s[i..], '=') <= |s| && name == s[i..j] == s[i..][..j - i]
  {
    hide Find;
    name, j := "", i;
    while j < |s| && s[j] != '='
      invariant i <= j <= |s| && Find(s[i..], '=') == (j - i) + Find(s[j..], '=') && name == s[i..j]
    {
      FindNext(s, j, '=');
      name := name + [s[j]];
      j := j + 1;
    }
  }

  /** The loop that reads a quoted value, its opening quote being consumed. */
  method ValueFrom(s: string, i: nat) returns (value: string, j: nat)
    requires i <= |s|
    ensures i <= j <= |s| && ScanValue(s[i..], false) == (value, s[j..])
  {
    hide Unescape;
    value, j := "", i;
    var escaped := false;
    assert "" + ScanValue(s[i..], false).0 == ScanValue(s[i..], false).0;
    while j < |s| && (escaped || s[j] != '"')
      invariant i <= j <= |s|
      invariant var (v, rest) := ScanValue(s[j..], escaped); ScanValue(s[i..], false) == (value + v, rest)
    {
      assert s[j..][1..] == s[j + 1..];
      var (v, rest) := ScanValue(s[j..], escaped);
      if escaped {
        var decoded := Unescape(s[j]);
        assert value + v == (value + decoded) + ScanValue(s[j + 1..], false).0;
        value, escaped := value + decoded, false;
      } else if s[j] == '\\' {
        escaped := true;
      } else {
        assert value + v == (value + [s[j]]) + ScanValue(s[j + 1..], false).0;
        value := value + [s[j]];
      }
      j := j + 1;
    }
    if j < |s| {
      assert s[j..][1..] == s[j + 1..];
      j := j + 1;
    }
    assert value + "" == value;
  }

  /** One label, from the first character of its name. */
  method LabelFrom(s: string, i: nat) returns (entry: Option<(string, string)>, j: nat)
    requires i < |s|
    ensures i < j <= |s| && ScanLabel(s[i..]) == (entry, s[j..])
  {
    var name;
    name, j := NameFrom(s, i);
    if j + 1 >= |s| {
      assert s[|s|..] == [];
      return None, |s|;
    }
    assert s[i..][j - i + 1] == s[j + 1] && s[i..][j - i + 2..] == s[j + 2..];
    if s[j + 1] != '"' {
      return None, j + 2;
    }
    var value;
    value, j := ValueFrom(s, j + 2);
    entry := Some((name, value));
  }

  /** `parse_labels`: a cursor over the characters; every round consumes some of them. */
  method ParseLabels(s: string) returns (labels: Labels)
    ensures labels == ScanLabels(s, map[])
  {
    hide ScanLabel, SkipSeparators;
    labels := map[];
    var i := 0;
    assert s[0..] == s;
    while i < |s|
      invariant i <= |s| && ScanLabels(s[i..], labels) == ScanLabels(s, map[])
      decreases |s| - i
    {
      i := SkipFrom(s, i);
      if i == |s| {
        return;
      }
      var entry, j := LabelFrom(s, i);
      if entry.Some? {
        labels := labels[entry.value.0 := entry.value.1];
      }
      i := j;
    }
  }

  // ---------- Metric lines and documents ----------

  /** The one metric that is read, up to its opening brace. */
  function Prefix(): (p: string)
    ensures |p| > 1 && p[0] != '#' && !IsWhitespace(p[0])
    ensures p[|p| - 1] == '{' && '{' !in p[..|p| - 1] && '}' !in p && '\n' !in p
  {
    FirstWords() + LastWords() + "{"
  }

  predicate Plain(s: string) { forall i :: 0 <= i < |s| ==> 'a' <= s[i] <= 'z' || s[i] == '_' }

  function FirstWords(): (s: string)
    ensures s != "" && Plain(s)
  {
    "edgion_backend_"
  }

  function LastWords(): (s: string)
    ensures Plain(s)
  {
    "requests_total"
  }

  predicate Skipped(line: string) { "#" <= line || Trim(line) == "" || !(Prefix() <= line) }

  /** The parts of a sample's `test_data` that the analyses use. */
  datatype TestData = TestData(ip: Option<string>, port: Option<nat>, hashKey: Option<string>)

  datatype Metric = Metric(
    gatewayNs: string, gatewayName: string, backendNs: string, backendName: string,
    protocol: string, status: string, testKey: string, testData: Option<TestData>, count: nat)

  function Label(labels: Labels, key: string): string { if key in labels then labels[key] else "" }

  /** `json` reads the embedded test data. */
  function MetricOf(json: string -> Option<TestData>, labels: Labels, count: nat): Metric {
    var data := Label(labels, "test_data");
    Metric(Label(labels, "gateway_namespace"), Label(labels, "gateway_name"),
           Label(labels, "backend_namespace"), Label(labels, "backend_name"),
           Label(labels, "protocol"), Label(labels, "status"), Label(labels, "test_key"),
           if data == "" then None else json(data), count)
  }

  /** The closing brace of such a line comes after its opening brace. */
  lemma BracesInOrder(line: string)
    requires Prefix() <= line
    ensures Find(line, '{') < FindLast(line, '}')
  {
    hide Prefix, Find, FindLast;
    var n := |Prefix()| - 1;
    assert line[n] == '{' && line[..n] == Prefix()[..n];
    assert forall i :: 0 <= i <= n ==> line[i] == Prefix()[i] && line[i] != '}';
  }

  /** `parse_metric_line`, for the lines it is given. */
  function ReadLine(json: string -> Option<TestData>, line: string): Option<Metric>
    requires Prefix() <= line
  {
    var start, end := Find(line, '{'), FindLast(line, '}');
    BracesInOrder(line);
    if end == |line| then None
    else
      match ParseU64(Trim(line[end + 1..]))
      case None => None
      case Some(count) => Some(MetricOf(json, ScanLabels(line[start + 1..end], map[]), count))
  }

  function ReadLines(json: string -> Option<TestData>, lines: seq<string>): seq<Metric> {
    if lines == [] then []
    else
      var line := lines[0];
      var found := if Skipped(line) then None else ReadLine(json, line);
      (if found.Some? then [found.value] else []) + ReadLines(json, lines[1..])
  }

  /** `parse_backend_metrics`. */
  method ParseBackendMetrics(json: string -> Option<TestData>, raw: string) returns (metrics: seq<Metric>)
    ensures metrics == ReadLines(json, Lines(raw))
  {
    hide ReadLines, ReadLine, Lines, Trim, Prefix;
    metrics := [];
    var lines := Lines(raw);
    assert lines[0..] == lines;
    for i := 0 to |lines|
      invariant metrics + ReadLines(json, lines[i..]) == ReadLines(json, lines)
    {
      var line := lines[i];
      NextLine(json, lines, i);
      if "#" <= line || Trim(line) == "" {
        continue;
      }
      if !(Prefix() <= line) {
        continue;
      }
      var found := ParseMetricLine(json, line);
      if found.Some? {
        metrics := metrics + [found.value];
      }
    }
    NoLines(json, lines);
  }

  lemma NextLine(json: string -> Option<TestData>, lines: seq<string>, i: nat)
    requires i < |lines|
    ensures ReadLines(json, lines[i..]) ==
      if !Skipped(lines[i]) && ReadLine(json, lines[i]).Some? then [ReadLine(json, lines[i]).value] + ReadLines(json, lines[i + 1..])
      else ReadLines(json, lines[i + 1..])
  {
    hide ReadLine, Trim, Prefix;
    assert lines[i..][1..] == lines[i + 1..];
  }

  lemma NoLines(json: string -> Option<TestData>, lines: seq<string>)
    ensures ReadLines(json, lines[|lines|..]) == []
  {
  }

  method ParseMetricLine(json: string -> Option<TestData>, line: string) returns (metric: Option<Metric>)
    requires Prefix() <= line
    ensures metric == ReadLine(json, line)
  {
    hide Find, FindLast, Prefix, ScanLabels, MetricOf, Trim, ParseU64;
    var start, end := Find(line, '{'), FindLast(line, '}');
    BracesInOrder(line);
    if end == |line| {
      return None;
    }
    var count := ParseU64(Trim(line[end + 1..]));
    if count.None? {
      return None;
    }
    var labels := ParseLabels(line[start + 1..end]);
    metric := Some(MetricOf(json, labels, count.value));
  }

  // ---------- The text format ----------

  function EscapeChar(c: char): string {
    if c == '\\' then "\\\\" else if c == '"' then "\\\"" else if c == '\n' then "\\n" else [c]
  }

  function Escape(v: string): string { if v == [] then "" else EscapeChar(v[0]) + Escape(v[1..]) }

  function PrintLabel(l: (string, string)): string { l.0 + "=\"" + Escape(l.1) + "\"" }

  function PrintLabels(ls: seq<(string, string)>): string {
    if ls == [] then "" else if |ls| == 1 then PrintLabel(ls[0]) else PrintLabel(ls[0]) + "," + PrintLabels(ls[1..])
  }

  function PrintSample(ls: seq<(string, string)>, count: nat): string {
    Prefix() + PrintLabels(ls) + "} " + Print(count)
  }

  /** A line of an exposition: a sample of this metric, or anything else, such as a comment. */
  datatype Item = Sample(labels: seq<(string, string)>, count: nat) | Other(text: string)

  /** A name stops at '=' and does not look like a separator; values are arbitrary. */
  predicate NameOk(name: string) { '=' !in name && '\n' !in name && (name != "" ==> !Separator(name[0])) }

  predicate ItemOk(item: Item) {
    match item
    case Sample(ls, count) => count <= U64_MAX && forall i :: 0 <= i < |ls| ==> NameOk(ls[i].0)
    case Other(text) => '\n' !in text && !(Prefix() <= text)
  }

  function PrintItem(item: Item): string {
    match item case Sample(ls, count) => PrintSample(ls, count) case Other(text) => text
  }

  function PrintDocument(items: seq<Item>): string {
    if items == [] then "" else PrintItem(items[0]) + "\n" + PrintDocument(items[1..])
  }

  /** Later labels override earlier ones of the same name. */
  function LabelMap(ls: seq<(string, string)>, labels: Labels): Labels {
    if ls == [] then labels else LabelMap(ls[1..], labels[ls[0].0 := ls[0].1])
  }

  function Samples(json: string -> Option<TestData>, items: seq<Item>): seq<Metric> {
    if items == [] then []
    else
      match items[0]
      case Sample(ls, count) => [MetricOf(json, LabelMap(ls, map[]), count)] + Samples(json, items[1..])
      case Other(_) => Samples(json, items[1..])
  }

  // ---------- Reading what was printed ----------

  lemma {:induction false} ValueRoundTrip(v: string, rest: string)
    ensures ScanValue(Escape(v) + "\"" + rest, false) == (v, rest)
  {
    var s := Escape(v) + "\"" + rest;
    if v == [] {
      assert s == "\"" + rest;
      assert s[1..] == rest;
    } else {
      var tail := Escape(v[1..]) + "\"" + rest;
      ValueRoundTrip(v[1..], rest);
      assert s == EscapeChar(v[0]) + tail;
      if |EscapeChar(v[0])| == 1 {
        assert s[1..] == tail;
      } else {
        assert s[1..][1..] == tail;
        assert Unescape(s[1]) == [v[0]];
      }
      assert [v[0]] + v[1..] == v;
    }
  }

  lemma LabelRoundTrip(l: (string, string), rest: string)
    requires NameOk(l.0)
    ensures ScanLabel(PrintLabel(l) + rest) == (Some(l), rest)
  {
    hide ScanValue, Escape, Find;
    var s := PrintLabel(l) + rest;
    var tail := "\"" + Escape(l.1) + "\"" + rest;
    assert s == l.0 + ['='] + tail;
    FindAfter(l.0, '=', tail);
    var n := |l.0|;
    assert s[n + 1] == '"' && s[..n] == l.0;
    assert s[n + 2..] == Escape(l.1) + "\"" + rest;
    ValueRoundTrip(l.1, rest);
  }

  lemma ScanOne(l: (string, string), rest: string, labels: Labels)
    requires NameOk(l.0)
    ensures ScanLabels(PrintLabel(l) + rest, labels) == ScanLabels(rest, labels[l.0 := l.1])
  {
    hide ScanLabel;
    LabelRoundTrip(l, rest);
    var s := PrintLabel(l) + rest;
    assert !Separator(s[0]);
  }

  lemma {:induction false} LabelsRoundTrip(ls: seq<(string, string)>, labels: Labels)
    requires forall i :: 0 <= i < |ls| ==> NameOk(ls[i].0)
    ensures ScanLabels(PrintLabels(ls), labels) == LabelMap(ls, labels)
  {
    hide ScanLabel;
    if ls != [] {
      var labels' := labels[ls[0].0 := ls[0].1];
      if |ls| == 1 {
        assert PrintLabel(ls[0]) + "" == PrintLabel(ls[0]);
        ScanOne(ls[0], "", labels);
      } else {
        var more := "," + PrintLabels(ls[1..]);
        assert PrintLabels(ls) == PrintLabel(ls[0]) + more;
        ScanOne(ls[0], more, labels);
        assert more[1..] == PrintLabels(ls[1..]);
        assert ScanLabels(more, labels') == ScanLabels(more[1..], labels');
        LabelsRoundTrip(ls[1..], labels');
      }
    }
  }

  lemma {:induction false} EscapeOneLine(v: string)
    ensures '\n' !in Escape(v)
  {
    if v != [] {
      EscapeOneLine(v[1..]);
    }
  }

  lemma {:induction false} LabelsOneLine(ls: seq<(string, string)>)
    requires forall i :: 0 <= i < |ls| ==> NameOk(ls[i].0)
    ensures '\n' !in PrintLabels(ls)
  {
    if ls != [] {
      EscapeOneLine(ls[0].1);
      assert '\n' !in PrintLabel(ls[0]);
      LabelsOneLine(ls[1..]);
    }
  }

  lemma {:induction false} FindLastBefore(a: string, c: char, b: string)
    requires c !in b
    ensures FindLast(a + [c] + b, c) == |a|
  {
    var s := a + [c] + b;
    if b != [] {
      assert s[..|s| - 1] == a + [c] + b[..|b| - 1];
      FindLastBefore(a, c, b[..|b| - 1]);
    }
  }

  lemma TrimSome(s: string)
    requires s != "" && !IsWhitespace(s[0])
    ensures Trim(s) != ""
  {
    TrimEndSome(s);
  }

  lemma {:induction false} TrimEndSome(s: string)
    requires s != "" && !IsWhitespace(s[0])
    ensures TrimEnd(s) != ""
  {
    if IsWhitespace(s[|s| - 1]) {
      TrimEndSome(s[..|s| - 1]);
    }
  }

  lemma TrimDigits(n: nat)
    ensures Trim(" " + Print(n)) == Print(n)
  {
    var s := " " + Print(n);
    assert s[1..] == Print(n);
    assert IsWhitespace(' ');
    assert IsDigit(Print(n)[0]) && IsDigit(Print(n)[|Print(n)| - 1]);
    assert TrimStart(s) == TrimStart(s[1..]) == Print(n);
  }

  /** Where the braces of a printed sample are, and what stands between and after them. */
  lemma SampleBraces(ls: seq<(string, string)>, count: nat)
    ensures var line, labels := PrintSample(ls, count), PrintLabels(ls);
      var start, end := |Prefix()| - 1, |Prefix()| + |labels|;
      Prefix() <= line && Find(line, '{') == start && FindLast(line, '}') == end < |line| &&
      line[start + 1..end] == labels && line[end + 1..] == " " + Print(count)
  {
    hide Find, FindLast, PrintLabels, Print, Prefix;
    var line := PrintSample(ls, count);
    var name := Prefix()[..|Prefix()| - 1];
    var labels := PrintLabels(ls);
    assert line == name + ['{'] + (labels + "} " + Print(count));
    FindAfter(name, '{', labels + "} " + Print(count));
    assert line == (Prefix() + labels) + ['}'] + (" " + Print(count));
    assert '}' !in " " + Print(count);
    FindLastBefore(Prefix() + labels, '}', " " + Print(count));
  }

  /** A printed sample is one line that the reader will not skip. */
  lemma SampleLine(ls: seq<(string, string)>, count: nat)
    requires ItemOk(Sample(ls, count))
    ensures var line := PrintSample(ls, count); !Skipped(line) && '\n' !in line && StripCr(line) == line
  {
    hide PrintLabels, Trim, Print, Prefix;
    var line := PrintSample(ls, count);
    LabelsOneLine(ls);
    assert line[|line| - 1] == Print(count)[|Print(count)| - 1];
    assert line[0] == Prefix()[0];
    TrimSome(line);
  }

  /** A printed sample reads back. */
  lemma SampleRoundTrip(json: string -> Option<TestData>, ls: seq<(string, string)>, count: nat)
    requires ItemOk(Sample(ls, count))
    ensures var line := PrintSample(ls, count);
      Prefix() <= line && ReadLine(json, line) == Some(MetricOf(json, LabelMap(ls, map[]), count))
  {
    hide Find, FindLast, PrintLabels, PrintSample, ScanLabels, LabelMap, MetricOf, Trim, Print, ParseU64, Prefix;
    SampleBraces(ls, count);
    TrimDigits(count);
    ParseOfPrint(count);
    LabelsRoundTrip(ls, map[]);
  }

  lemma LinesOfOne(line: string, rest: string)
    requires '\n' !in line
    ensures Lines(line + "\n" + rest) == [StripCr(line)] + Lines(rest)
  {
    var s := line + "\n" + rest;
    assert s == line + ['\n'] + rest;
    FindAfter(line, '\n', rest);
    assert s[..|line|] == line && s[|line| + 1..] == rest;
  }

  lemma ItemRoundTrip(json: string -> Option<TestData>, item: Item, rest: string)
    requires ItemOk(item)
    ensures ReadLines(json, Lines(PrintItem(item) + "\n" + rest)) ==
      (match item case Sample(ls, count) => [MetricOf(json, LabelMap(ls, map[]), count)] case Other(_) => [])
      + ReadLines(json, Lines(rest))
  {
    hide Lines, PrintSample, ReadLine, Trim, Prefix, MetricOf, LabelMap;
    var line := PrintItem(item);
    if item.Sample? {
      SampleRoundTrip(json, item.labels, item.count);
      SampleLine(item.labels, item.count);
    } else {
      assert StripCr(line) <= line;
    }
    LinesOfOne(line, rest);
    assert Lines(line + "\n" + rest)[1..] == Lines(rest);
  }

  /** Whatever the label values, and whatever comments and other metrics stand between, the reader
      returns the printed samples in order. */
  lemma {:induction false} DocumentRoundTrip(json: string -> Option<TestData>, items: seq<Item>)
    requires forall i :: 0 <= i < |items| ==> ItemOk(items[i])
    ensures ReadLines(json, Lines(PrintDocument(items))) == Samples(json, items)
  {
    assert Lines("") == [];
    if items != [] {
      hide Lines, ReadLines, PrintItem, MetricOf, LabelMap;
      ItemRoundTrip(json, items[0], PrintDocument(items[1..]));
      DocumentRoundTrip(json, items[1..]);
    }
  }

  /** The labels of a backend sample, in the order the gateway writes them. */
  function BackendLabels(m: Metric, data: string): seq<(string, string)> {
    [("gateway_namespace", m.gatewayNs), ("gateway_name", m.gatewayName), ("backend_namespace", m.backendNs),
     ("backend_name", m.backendName), ("protocol", m.protocol), ("status", m.status), ("test_key", m.testKey), ("test_data", data)]
  }

  /** A line of a scrape: a backend metric with the text of its test data, or anything else. */
  datatype Entry = Reported(m: Metric, data: string) | Noise(line: string)

  ghost predicate EntryOk(json: string -> Option<TestData>, e: Entry) {
    match e
    case Reported(m, data) => m.count <= U64_MAX && m.testData == if data == "" then None else json(data)
    case Noise(line) => ItemOk(Other(line))
  }

  function ItemOf(e: Entry): Item {
    match e case Reported(m, data) => Sample(BackendLabels(m, data), m.count) case Noise(line) => Other(line)
  }

  function ItemsOf(es: seq<Entry>): (items: seq<Item>)
    ensures |items| == |es| && forall i :: 0 <= i < |es| ==> items[i] == ItemOf(es[i])
  {
    seq(|es|, i requires 0 <= i < |es| => ItemOf(es[i]))
  }

  function MetricsIn(es: seq<Entry>): seq<Metric> {
    if es == [] then [] else (if es[0].Reported? then [es[0].m] else []) + MetricsIn(es[1..])
  }

  /** The metrics of a scrape, whatever their strings and whatever stands between them, are read back in order,
      field by field. */
  lemma MetricRoundTrip(json: string -> Option<TestData>, es: seq<Entry>)
    requires forall i :: 0 <= i < |es| ==> EntryOk(json, es[i])
    ensures ReadLines(json, Lines(PrintDocument(ItemsOf(es)))) == MetricsIn(es)
  {
    hide ReadLines, Lines, PrintDocument, ItemOf, ItemOk, EntryOk;
    forall i | 0 <= i < |es| ensures ItemOk(ItemOf(es[i])) {
      EntryItemOk(json, es[i]);
    }
    DocumentRoundTrip(json, ItemsOf(es));
    SamplesAreMetrics(json, es);
  }

  lemma EntryItemOk(json: string -> Option<TestData>, e: Entry)
    requires EntryOk(json, e)
    ensures ItemOk(ItemOf(e))
  {
    if e.Reported? {
      NamesOk(e.m, e.data);
    }
  }

  lemma {:induction false} SamplesAreMetrics(json: string -> Option<TestData>, es: seq<Entry>)
    requires forall i :: 0 <= i < |es| ==> EntryOk(json, es[i])
    ensures Samples(json, ItemsOf(es)) == MetricsIn(es)
  {
    hide MetricOf, LabelMap, BackendLabels;
    if es != [] {
      assert ItemsOf(es)[1..] == ItemsOf(es[1..]);
      SamplesAreMetrics(json, es[1..]);
      if es[0].Reported? {
        BackendMetric(json, es[0].m, es[0].data);
      }
    }
  }

  lemma NamesOk(m: Metric, data: string)
    ensures var ls := BackendLabels(m, data); forall i :: 0 <= i < |ls| ==> NameOk(ls[i].0)
  {
  }

  /** A label that is not overridden keeps its value. */
  lemma {:induction false} LastLabel(ls: seq<(string, string)>, labels: Labels, i: nat)
    requires i < |ls| && forall j :: i < j < |ls| ==> ls[j].0 != ls[i].0
    ensures Label(LabelMap(ls, labels), ls[i].0) == ls[i].1
  {
    if i > 0 {
      LastLabel(ls[1..], labels[ls[0].0 := ls[0].1], i - 1);
    } else {
      Untouched(ls[1..], labels[ls[0].0 := ls[0].1], ls[0].0);
    }
  }

  lemma {:induction false} Untouched(ls: seq<(string, string)>, labels: Labels, k: string)
    requires forall j :: 0 <= j < |ls| ==> ls[j].0 != k
    ensures Label(LabelMap(ls, labels), k) == Label(labels, k)
  {
    if ls != [] {
      Untouched(ls[1..], labels[ls[0].0 := ls[0].1], k);
    }
  }

  lemma DistinctNames(m: Metric, data: string)
    ensures var ls := BackendLabels(m, data); forall i, j :: 0 <= i < j < |ls| ==> ls[i].0 != ls[j].0
  {
    var ls := BackendLabels(m, data);
    assert |ls[0].0| == 17 && |ls[1].0| == 12 && |ls[2].0| == 17 && |ls[3].0| == 12;
    assert |ls[4].0| == 8 && |ls[5].0| == 6 && |ls[6].0| == 8 && |ls[7].0| == 9;
    assert ls[0].0[0] != ls[2].0[0] && ls[1].0[0] != ls[3].0[0] && ls[4].0[0] != ls[6].0[0];
  }

  lemma BackendMetric(json: string -> Option<TestData>, m: Metric, data: string)
    requires m.testData == if data == "" then None else json(data)
    ensures MetricOf(json, LabelMap(BackendLabels(m, data), map[]), m.count) == m
  {
    hide LabelMap, Label;
    var ls := BackendLabels(m, data);
    DistinctNames(m, data);
    forall i | 0 <= i < 8 ensures Label(LabelMap(ls, map[]), ls[i].0) == ls[i].1 {
      LastLabel(ls, map[], i);
    }
    assert ls[0].0 == "gateway_namespace" && ls[1].0 == "gateway_name" && ls[2].0 == "backend_namespace" && ls[3].0 == "backend_name";
    assert ls[4].0 == "protocol" && ls[5].0 == "status" && ls[6].0 == "test_key" && ls[7].0 == "test_data";
  }
}
