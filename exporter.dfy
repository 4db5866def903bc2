/** The current collector (exporter.go): it turns every nftables counter object of
    every table into a bytes sample and a packets sample labelled with the table's
    family, the table's name and the counter's name. */
module Exporter {
  import opened Nftables
  import opened Prometheus

  // ---------------------------------------------------------------------------
  // Names

  /** `unicode.ToLower` on one rune, as far as `cleanupName` can observe it: ASCII
      upper-case letters become lower-case; U+0130 and U+212A, the two non-ASCII
      runes Go lower-cases into ASCII, become 'i' and 'k'. Every other rune is left
      as it is: where Go changes it, it yields another non-ASCII rune, which the
      following step replaces by '_' just as it would the original. */
  function ToLowerRune(r: char): char {
    if 'A' <= r <= 'Z' then (r as int + 32) as char
    else if r == '\U{0130}' then 'i'
    else if r == '\U{212A}' then 'k'
    else r
  }

  /** `strings.ToLower`, rune by rune. */
  function ToLower(s: string): string {
    if s == [] then [] else [ToLowerRune(s[0])] + ToLower(s[1..])
  }

  /** The mapping function `cleanupName` hands to `strings.Map`. */
  function LabelRune(r: char): char {
    if (r < 'a' || r > 'z') && (r < '0' || r > '9') then '_' else r
  }

  /** `strings.Map(LabelRune, s)`. */
  function MapLabelRunes(s: string): string {
    if s == [] then [] else [LabelRune(s[0])] + MapLabelRunes(s[1..])
  }

  /** `cleanupName`: lower-case, then replace every rune outside [a-z0-9] by '_'. */
  function CleanupName(name: string): string {
    MapLabelRunes(ToLower(name))
  }

  /** The alphabet of sanitised labels. */
  predicate IsLabelChar(r: char) {
    'a' <= r <= 'z' || '0' <= r <= '9' || r == '_'
  }

  /** What `cleanupName` does to one rune. */
  function CleanRune(r: char): char {
    LabelRune(ToLowerRune(r))
  }

  /** `CleanRune` case by case: [a-z0-9] kept, [A-Z] lower-cased, the two runes
      Go lower-cases into ASCII mapped to 'i' and 'k', everything else '_'. */
  lemma CleanRuneCases(r: char)
    ensures 'a' <= r <= 'z' || '0' <= r <= '9' ==> CleanRune(r) == r
    ensures 'A' <= r <= 'Z' ==> CleanRune(r) == (r as int + 32) as char
    ensures r == '\U{0130}' ==> CleanRune(r) == 'i'
    ensures r == '\U{212A}' ==> CleanRune(r) == 'k'
    ensures !('a' <= r <= 'z' || '0' <= r <= '9' || 'A' <= r <= 'Z' || r == '\U{0130}' || r == '\U{212A}')
            ==> CleanRune(r) == '_'
    ensures IsLabelChar(CleanRune(r))
  {
  }

  lemma {:induction false} ToLowerAt(s: string)
    ensures |ToLower(s)| == |s|
    ensures forall i :: 0 <= i < |s| ==> ToLower(s)[i] == ToLowerRune(s[i])
  {
    if s != [] {
      ToLowerAt(s[1..]);
    }
  }

  lemma {:induction false} MapLabelRunesAt(s: string)
    ensures |MapLabelRunes(s)| == |s|
    ensures forall i :: 0 <= i < |s| ==> MapLabelRunes(s)[i] == LabelRune(s[i])
  {
    if s != [] {
      MapLabelRunesAt(s[1..]);
    }
  }

  /** `cleanupName` keeps the number of runes and maps each rune on its own, at its
      own position: one '_' per replaced rune, whatever its encoded width. */
  lemma CleanupNameAt(name: string)
    ensures |CleanupName(name)| == |name|
    ensures forall i :: 0 <= i < |name| ==> CleanupName(name)[i] == CleanRune(name[i])
  {
    ToLowerAt(name);
    MapLabelRunesAt(ToLower(name));
  }

  /** Every rune of a sanitised name is in [a-z0-9_]. */
  lemma CleanupNameAlphabet(name: string)
    ensures forall i :: 0 <= i < |CleanupName(name)| ==> IsLabelChar(CleanupName(name)[i])
  {
    CleanupNameAt(name);
    forall i | 0 <= i < |name| ensures IsLabelChar(CleanRune(name[i])) {
      CleanRuneCases(name[i]);
    }
  }

  /** A name already in [a-z0-9_] is left unchanged. */
  lemma CleanupNameFixes(name: string)
    requires forall i :: 0 <= i < |name| ==> IsLabelChar(name[i])
    ensures CleanupName(name) == name
  {
    CleanupNameAt(name);
    forall i | 0 <= i < |name| ensures CleanRune(name[i]) == name[i] {
      CleanRuneCases(name[i]);
    }
  }

  /** `cleanupName` is idempotent. */
  lemma CleanupNameIdempotent(name: string)
    ensures CleanupName(CleanupName(name)) == CleanupName(name)
  {
    CleanupNameAlphabet(name);
    CleanupNameFixes(CleanupName(name));
  }

  /** Runes are mapped independently, so sanitising distributes over concatenation. */
  lemma CleanupNameConcat(a: string, b: string)
    ensures CleanupName(a + b) == CleanupName(a) + CleanupName(b)
  {
    CleanupNameAt(a);
    CleanupNameAt(b);
    CleanupNameAt(a + b);
  }

  lemma CleanupNameEmpty()
    ensures CleanupName("") == ""
  {
  }

  // The three cases of exporter_test.go. The third input is read with U+00C9
  // (E with acute accent), whose single rune yields the single '_' the test expects;
  // the test file's text holds two code points there (U+221A, U+00E2), which would
  // yield two.
  // Each input is a parameter pinned by `requires` rather than a literal in the
  // `ensures`, and the third case is proved in two halves joined by
  // `CleanupNameConcat`: both only keep the solver's work on string literals small.

  lemma CleanupNameTestCase1(input: string)
    requires input == "ABC-DEF"
    ensures CleanupName(input) == "abc_def"
  {
    CleanupNameAt(input);
  }

  lemma CleanupNameTestCase2(input: string)
    requires input == "Awesome-Counter-1"
    ensures CleanupName(input) == "awesome_counter_1"
  {
    CleanupNameAt(input);
  }

  lemma CleanupNameTestCase3(front: string, back: string)
    requires front == "Nom\U{00C9}trangeAvecDes" && back == "Caract#r{$Bizares"
    ensures CleanupName(front + back) == "nom_trangeavecdescaract_r__bizares"
  {
    CleanupNameTestCase3Front(front);
    CleanupNameTestCase3Back(back);
    CleanupNameConcat(front, back);
  }

  lemma CleanupNameTestCase3Front(front: string)
    requires front == "Nom\U{00C9}trangeAvecDes"
    ensures CleanupName(front) == "nom_trangeavecdes"
  {
    CleanupNameAt(front);
  }

  lemma CleanupNameTestCase3Back(back: string)
    requires back == "Caract#r{$Bizares"
    ensures CleanupName(back) == "caract_r__bizares"
  {
    CleanupNameAt(back);
  }

  // ---------------------------------------------------------------------------
  // Families

  /** The family labels `getTableFamily` can produce. */
  predicate IsFamilyLabel(s: string) {
    s in {"inet", "ip", "ip6", "arp", "netdev", "unknown"}
  }

  /** `getTableFamily`: the label of a table's protocol family. */
  function GetTableFamily(table: Table): (r: string)
    ensures IsFamilyLabel(r)
    ensures r == "inet" <==> table.family == TableFamilyINet
    ensures r == "ip" <==> table.family == TableFamilyIPv4
    ensures r == "ip6" <==> table.family == TableFamilyIPv6
    ensures r == "arp" <==> table.family == TableFamilyARP
    ensures r == "netdev" <==> table.family == TableFamilyNetdev || table.family == TableFamilyBridge
    ensures r == "unknown" <==>
      table.family !in {TableFamilyINet, TableFamilyIPv4, TableFamilyIPv6, TableFamilyARP,
                        TableFamilyNetdev, TableFamilyBridge}
  {
    match table.family
    case 1 => "inet"
    case 2 => "ip"
    case 10 => "ip6"
    case 3 => "arp"
    case 5 => "netdev"
    case 7 => "netdev"
    case _ => "unknown"
  }

  // ---------------------------------------------------------------------------
  // Construction and description

  datatype NftablesCounterCollector = NftablesCounterCollector(bytes: Desc, packets: Desc)

  const LabelNames: seq<string> := ["family", "table", "counter"]

  const BytesDesc := Desc("nftables_counter_bytes",
                          "Total number of bytes referenced by an nftables counter.", LabelNames)
  const PacketsDesc := Desc("nftables_counter_packets",
                            "Total number of packets referenced by an nftables counter.", LabelNames)

  /** `NewNftablesCounterCollector`, given what its `ListTables` call returned. */
  function NewNftablesCounterCollector(tables: Result<seq<Table>>): (r: Result<NftablesCounterCollector>)
    ensures r.Ok? <==> tables.Ok? && |tables.value| > 0
    ensures tables.Err? ==> r == Err(tables.error)
    ensures tables == Ok([]) ==> r == Err("nftables: no table to export!")
    ensures r.Ok? ==> (&& r.value.bytes.fqName == "nftables_counter_bytes"
                       && r.value.packets.fqName == "nftables_counter_packets"
                       && r.value.bytes.variableLabels == ["family", "table", "counter"]
                       && r.value.packets.variableLabels == ["family", "table", "counter"])
  {
    match tables
    case Err(e) => Err(e)
    case Ok(ts) =>
      if |ts| == 0 then Err("nftables: no table to export!")
      else Ok(NftablesCounterCollector(BytesDesc, PacketsDesc))
  }

  /** `Describe`: the descriptors it sends, in order. */
  function Describe(c: NftablesCounterCollector): seq<Desc> {
    [c.bytes, c.packets]
  }

  /** A constructed collector describes exactly the bytes and then the packets
      descriptor, each with labels family, table, counter. */
  lemma DescribeAfterConstruction(tables: Result<seq<Table>>)
    requires NewNftablesCounterCollector(tables).Ok?
    ensures var ds := Describe(NewNftablesCounterCollector(tables).value);
            |ds| == 2
            && ds[0].fqName == "nftables_counter_bytes" && ds[1].fqName == "nftables_counter_packets"
            && ds[0].variableLabels == LabelNames && ds[1].variableLabels == LabelNames
  {
  }

  // ---------------------------------------------------------------------------
  // Collection: the specification

  /** The samples one object yields: none for a non-counter, otherwise the bytes
      sample then the packets sample, both with the same label values. */
  function ObjectMetrics(c: NftablesCounterCollector, family: string, tableName: string, o: Obj): seq<Metric> {
    match o
    case OtherObj => []
    case CounterObj(name, b, p) =>
      var labels := [family, tableName, CleanupName(name)];
      [Metric(c.bytes, CounterValue, b, labels), Metric(c.packets, CounterValue, p, labels)]
  }

  /** The samples sent for one table whose objects were listed as `objs`. */
  function TableMetrics(c: NftablesCounterCollector, table: Table, objs: seq<Obj>): seq<Metric> {
    if objs == [] then []
    else ObjectMetrics(c, GetTableFamily(table), CleanupName(table.name), objs[0])
         + TableMetrics(c, table, objs[1..])
  }

  /** The samples sent for a table given what its `GetObjects` call returned. */
  function TableResultMetrics(c: NftablesCounterCollector, table: Table, objects: Result<seq<Obj>>): seq<Metric> {
    if objects.Err? then [] else TableMetrics(c, table, objects.value)
  }

  /** The samples sent for a table listing, table after table. */
  function AllMetrics(c: NftablesCounterCollector, tables: seq<Table>, getObjects: Table -> Result<seq<Obj>>): seq<Metric> {
    if tables == [] then []
    else TableResultMetrics(c, tables[0], getObjects(tables[0])) + AllMetrics(c, tables[1..], getObjects)
  }

  /** The errors logged for a table listing, one per table whose objects could not be read. */
  function AllLogs(tables: seq<Table>, getObjects: Table -> Result<seq<Obj>>): seq<string> {
    if tables == [] then []
    else (if getObjects(tables[0]).Err? then [getObjects(tables[0]).error] else [])
         + AllLogs(tables[1..], getObjects)
  }

  /** The label values every sample of a table's counter carries. */
  function CounterLabels(table: Table, counter: Obj): seq<string>
    requires counter.CounterObj?
  {
    [GetTableFamily(table), CleanupName(table.name), CleanupName(counter.name)]
  }

  lemma {:induction false} TableMetricsAppend(c: NftablesCounterCollector, table: Table, objs: seq<Obj>, o: Obj)
    ensures TableMetrics(c, table, objs + [o])
         == TableMetrics(c, table, objs) + ObjectMetrics(c, GetTableFamily(table), CleanupName(table.name), o)
  {
    if objs == [] {
      assert [o][1..] == [];
    } else {
      assert (objs + [o])[1..] == objs[1..] + [o];
      TableMetricsAppend(c, table, objs[1..], o);
    }
  }

  /** `ms` holds two samples per counter of `cs`, in order: the samples at 2k and
      2k+1 are the bytes and the packets of the k-th counter, with its labels. */
  predicate CounterSamples(c: NftablesCounterCollector, table: Table, ms: seq<Metric>, cs: seq<Obj>) {
    && |ms| == 2 * |cs|
    && forall k :: 0 <= k < |cs| ==>
         && cs[k].CounterObj?
         && ms[2 * k] == Metric(c.bytes, CounterValue, cs[k].bytes, CounterLabels(table, cs[k]))
         && ms[2 * k + 1] == Metric(c.packets, CounterValue, cs[k].packets, CounterLabels(table, cs[k]))
  }

  /** The samples of one more counter, put in front, keep `CounterSamples`. */
  lemma CounterSamplesCons(c: NftablesCounterCollector, table: Table, ms: seq<Metric>, cs: seq<Obj>, o: Obj)
    requires o.CounterObj? && CounterSamples(c, table, ms, cs)
    ensures CounterSamples(c, table, ObjectMetrics(c, GetTableFamily(table), CleanupName(table.name), o) + ms,
                           [o] + cs)
  {
    var head := ObjectMetrics(c, GetTableFamily(table), CleanupName(table.name), o);
    var all := head + ms;
    var cs' := [o] + cs;
    assert |head| == 2;
    forall k | 1 <= k < |cs'|
      ensures all[2 * k] == ms[2 * (k - 1)] && all[2 * k + 1] == ms[2 * (k - 1) + 1]
      ensures cs'[k] == cs[k - 1]
    {
    }
  }

  /** Two samples per counter, non-counters ignored, in the order of the listing. */
  lemma {:induction false} TableMetricsAt(c: NftablesCounterCollector, table: Table, objs: seq<Obj>)
    ensures |TableMetrics(c, table, objs)| == 2 * |Counters(objs)|
    ensures CounterSamples(c, table, TableMetrics(c, table, objs), Counters(objs))
  {
    if objs != [] {
      TableMetricsAt(c, table, objs[1..]);
      if objs[0].CounterObj? {
        CounterSamplesCons(c, table, TableMetrics(c, table, objs[1..]), Counters(objs[1..]), objs[0]);
      }
    }
  }

  lemma {:induction false} AllMetricsConcat(c: NftablesCounterCollector, a: seq<Table>, b: seq<Table>,
                                            getObjects: Table -> Result<seq<Obj>>)
    ensures AllMetrics(c, a + b, getObjects) == AllMetrics(c, a, getObjects) + AllMetrics(c, b, getObjects)
  {
    if a == [] {
      assert a + b == b;
    } else {
      assert (a + b)[1..] == a[1..] + b;
      assert (a + b)[0] == a[0];
      AllMetricsConcat(c, a[1..], b, getObjects);
      var head := TableResultMetrics(c, a[0], getObjects(a[0]));
      calc {
        AllMetrics(c, a + b, getObjects);
        head + AllMetrics(c, a[1..] + b, getObjects);
        head + (AllMetrics(c, a[1..], getObjects) + AllMetrics(c, b, getObjects));
        (head + AllMetrics(c, a[1..], getObjects)) + AllMetrics(c, b, getObjects);
      }
    }
  }

  lemma {:induction false} AllLogsConcat(a: seq<Table>, b: seq<Table>, getObjects: Table -> Result<seq<Obj>>)
    ensures AllLogs(a + b, getObjects) == AllLogs(a, getObjects) + AllLogs(b, getObjects)
  {
    if a == [] {
      assert a + b == b;
    } else {
      assert (a + b)[1..] == a[1..] + b;
      assert (a + b)[0] == a[0];
      AllLogsConcat(a[1..], b, getObjects);
    }
  }

  /** One more table of the listing adds its own samples at the end. */
  lemma AllMetricsPrefix(c: NftablesCounterCollector, tables: seq<Table>, i: nat,
                         getObjects: Table -> Result<seq<Obj>>)
    requires i < |tables|
    ensures AllMetrics(c, tables[..i + 1], getObjects)
         == AllMetrics(c, tables[..i], getObjects) + TableResultMetrics(c, tables[i], getObjects(tables[i]))
  {
    assert tables[..i + 1] == tables[..i] + [tables[i]];
    AllMetricsConcat(c, tables[..i], [tables[i]], getObjects);
    assert [tables[i]][1..] == [];
  }

  /** One more table of the listing adds its own error, if any, at the end. */
  lemma AllLogsPrefix(tables: seq<Table>, i: nat, getObjects: Table -> Result<seq<Obj>>)
    requires i < |tables|
    ensures AllLogs(tables[..i + 1], getObjects)
         == AllLogs(tables[..i], getObjects)
            + (if getObjects(tables[i]).Err? then [getObjects(tables[i]).error] else [])
  {
    assert tables[..i + 1] == tables[..i] + [tables[i]];
    AllLogsConcat(tables[..i], [tables[i]], getObjects);
    assert [tables[i]][1..] == [];
  }

  /** The tables whose objects could be read, in listing order. */
  function Healthy(tables: seq<Table>, getObjects: Table -> Result<seq<Obj>>): (hs: seq<Table>)
    ensures forall k :: 0 <= k < |hs| ==> getObjects(hs[k]).Ok?
  {
    if tables == [] then []
    else (if getObjects(tables[0]).Ok? then [tables[0]] else []) + Healthy(tables[1..], getObjects)
  }

  /** Failure isolation: a table whose objects cannot be read removes its own
      samples and nothing else; the rest come out as if it had not been listed. */
  lemma {:induction false} FailingTableRemovesOnlyItsOwn(c: NftablesCounterCollector, tables: seq<Table>,
                                                         getObjects: Table -> Result<seq<Obj>>)
    ensures AllMetrics(c, tables, getObjects) == AllMetrics(c, Healthy(tables, getObjects), getObjects)
  {
    if tables != [] {
      FailingTableRemovesOnlyItsOwn(c, tables[1..], getObjects);
      var h := if getObjects(tables[0]).Ok? then [tables[0]] else [];
      AllMetricsConcat(c, h, Healthy(tables[1..], getObjects), getObjects);
      if h != [] {
        assert h[1..] == [];
      }
    }
  }

  /** Counters of the tables whose objects could be read, summed. */
  function HealthyCounterCount(tables: seq<Table>, getObjects: Table -> Result<seq<Obj>>): nat {
    if tables == [] then 0
    else (if getObjects(tables[0]).Ok? then |Counters(getObjects(tables[0]).value)| else 0)
         + HealthyCounterCount(tables[1..], getObjects)
  }

  /** A scrape yields exactly two samples per counter of every readable table. */
  lemma {:induction false} AllMetricsLength(c: NftablesCounterCollector, tables: seq<Table>,
                                            getObjects: Table -> Result<seq<Obj>>)
    ensures |AllMetrics(c, tables, getObjects)| == 2 * HealthyCounterCount(tables, getObjects)
  {
    if tables != [] {
      AllMetricsLength(c, tables[1..], getObjects);
      if getObjects(tables[0]).Ok? {
        TableMetricsAt(c, tables[0], getObjects(tables[0]).value);
      }
    }
  }

  /** What every sample is: of one of the collector's two descriptors (so it is
      declared by `Describe`), a counter, with three label values that are a
      family label and two sanitised names (so `MustNewConstMetric` accepts it). */
  predicate WellFormed(c: NftablesCounterCollector, m: Metric) {
    && m.desc in Describe(c)
    && m.valueType == CounterValue
    && |m.labelValues| == 3
    && IsFamilyLabel(m.labelValues[0])
    && (forall i :: 0 <= i < |m.labelValues[1]| ==> IsLabelChar(m.labelValues[1][i]))
    && (forall i :: 0 <= i < |m.labelValues[2]| ==> IsLabelChar(m.labelValues[2][i]))
  }

  lemma {:induction false} TableMetricsWellFormed(c: NftablesCounterCollector, table: Table, objs: seq<Obj>)
    ensures forall m :: m in TableMetrics(c, table, objs) ==> WellFormed(c, m)
  {
    if objs != [] {
      TableMetricsWellFormed(c, table, objs[1..]);
      CleanupNameAlphabet(table.name);
      if objs[0].CounterObj? {
        CleanupNameAlphabet(objs[0].name);
      }
    }
  }

  lemma {:induction false} AllMetricsWellFormed(c: NftablesCounterCollector, tables: seq<Table>,
                                                getObjects: Table -> Result<seq<Obj>>)
    ensures forall m :: m in AllMetrics(c, tables, getObjects) ==> WellFormed(c, m)
  {
    if tables != [] {
      AllMetricsWellFormed(c, tables[1..], getObjects);
      if getObjects(tables[0]).Ok? {
        TableMetricsWellFormed(c, tables[0], getObjects(tables[0]).value);
      }
    }
  }

  /** Samples of a constructed collector pass `MustNewConstMetric`'s arity check. */
  lemma AllMetricsConsistent(tables: Result<seq<Table>>, listed: seq<Table>,
                             getObjects: Table -> Result<seq<Obj>>)
    requires NewNftablesCounterCollector(tables).Ok?
    ensures forall m :: m in AllMetrics(NewNftablesCounterCollector(tables).value, listed, getObjects)
                        ==> Consistent(m)
  {
    AllMetricsWellFormed(NewNftablesCounterCollector(tables).value, listed, getObjects);
  }

  // ---------------------------------------------------------------------------
  // Collection: the loops

  /** `collectTable`: what it sends for one table and what it logs. */
  method CollectTable(c: NftablesCounterCollector, table: Table, getObjects: Table -> Result<seq<Obj>>)
    returns (emitted: seq<Metric>, logs: seq<string>)
    ensures emitted == TableResultMetrics(c, table, getObjects(table))
    ensures logs == if getObjects(table).Err? then [getObjects(table).error] else []
  {
    var objects := getObjects(table);
    if objects.Err? {
      return [], [objects.error];
    }
    var objs := objects.value;
    var family := GetTableFamily(table);
    var tableName := CleanupName(table.name);
    emitted, logs := [], [];
    for i := 0 to |objs|
      invariant emitted == TableMetrics(c, table, objs[..i])
    {
      TableMetricsAppend(c, table, objs[..i], objs[i]);
      assert objs[..i + 1] == objs[..i] + [objs[i]];
      if !objs[i].CounterObj? {
        // not a counter
        continue;
      }
      var counter := objs[i];
      var counterName := CleanupName(counter.name);
      emitted := emitted + [Metric(c.bytes, CounterValue, counter.bytes, [family, tableName, counterName])];
      emitted := emitted + [Metric(c.packets, CounterValue, counter.packets, [family, tableName, counterName])];
    }
    assert objs[..|objs|] == objs;
  }

  /** `Collect`, given what its `ListTables` call returned: nothing (and the error
      logged) when listing fails, otherwise every table's samples in order. */
  method Collect(c: NftablesCounterCollector, tables: Result<seq<Table>>, getObjects: Table -> Result<seq<Obj>>)
    returns (emitted: seq<Metric>, logs: seq<string>)
    ensures tables.Err? ==> emitted == [] && logs == [tables.error]
    ensures tables.Ok? ==> (emitted == AllMetrics(c, tables.value, getObjects)
                            && logs == AllLogs(tables.value, getObjects))
  {
    if tables.Err? {
      return [], [tables.error];
    }
    var ts := tables.value;
    emitted, logs := [], [];
    for i := 0 to |ts|
      invariant emitted == AllMetrics(c, ts[..i], getObjects)
      invariant logs == AllLogs(ts[..i], getObjects)
    {
      var tableEmitted, tableLogs := CollectTable(c, ts[i], getObjects);
      AllMetricsPrefix(c, ts, i, getObjects);
      AllLogsPrefix(ts, i, getObjects);
      emitted := emitted + tableEmitted;
      logs := logs + tableLogs;
    }
    assert ts[..|ts|] == ts;
  }
}
