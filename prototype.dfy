/** The earlier prototype collector (main.go): it reads the counters of one fixed
    table and exports the bytes of those named "IPv4-In", "IPv4-Out", "IPv6-In" or
    "IPv6-Out", or starting with one of these followed by "-", under a
    per-protocol descriptor, labelled with the traffic direction. */
module Prototype {
  import opened Nftables
  import opened Prometheus
  import Strings

  datatype NftablesCollector = NftablesCollector(ipv4Traffic: Desc, ipv6Traffic: Desc)

  /** `newNftablesCollector`: one bytes descriptor per protocol, labelled by direction. */
  function NewNftablesCollector(): (c: NftablesCollector)
    ensures c.ipv4Traffic.fqName == "ipv4_traffic_bytes_counter" && c.ipv4Traffic.variableLabels == ["direction"]
    ensures c.ipv6Traffic.fqName == "ipv6_traffic_bytes_counter" && c.ipv6Traffic.variableLabels == ["direction"]
  {
    NftablesCollector(Desc(IPv4TrafficName, IPv4TrafficHelp, [DirectionLabelName]),
                      Desc(IPv6TrafficName, IPv6TrafficHelp, [DirectionLabelName]))
  }

  const IPv4TrafficName := "ipv4_traffic_bytes_counter"
  const IPv4TrafficHelp := "Count how many bytes of IPv4 traffic this router has seen."
  const IPv6TrafficName := "ipv6_traffic_bytes_counter"
  const IPv6TrafficHelp := "Count how many bytes of IPv6 traffic this router has seen."
  const DirectionLabelName := "direction"

  /** `Describe`: the descriptors it sends, in order. */
  function Describe(c: NftablesCollector): seq<Desc> {
    [c.ipv4Traffic, c.ipv6Traffic]
  }

  /** The one table `Collect` reads, whatever tables exist. */
  const CounterTable := Table("ip-counter", TableFamilyINet)

  const NoMatchLog := "Collect: no object matched"

  /** The message `main` aborts with when no table exists. */
  const NoTableMessage := "nftables: no table to show!"

  // ---------------------------------------------------------------------------
  // Counter names

  datatype Protocol = IPv4 | IPv6
  datatype Direction = Incoming | Outgoing

  /** The first '-'-separated part of a name that selects a protocol. */
  function ProtocolPart(p: Protocol): string {
    match p
    case IPv4 => "IPv4"
    case IPv6 => "IPv6"
  }

  /** The second '-'-separated part of a name that selects a direction. */
  function DirectionPart(d: Direction): string {
    match d
    case Incoming => "In"
    case Outgoing => "Out"
  }

  /** The value of the direction label. */
  function DirectionLabel(d: Direction): string {
    match d
    case Incoming => "incoming"
    case Outgoing => "outgoing"
  }

  /** What the loop body of `Collect` does with a counter's name: skip it, index
      past the end of the split name (a Go run-time panic), or export it. */
  datatype Classification = Skip | Panic | Match(protocol: Protocol, direction: Direction)

  /** The two if-chains of `Collect`, on `strings.Split(name, "-")`. */
  function ClassifyName(name: string): Classification {
    var parts := Strings.Split(name, '-');
    if parts[0] != "IPv4" && parts[0] != "IPv6" then Skip
    else
      var protocol := if parts[0] == "IPv4" then IPv4 else IPv6;
      if |parts| < 2 then Panic
      else if parts[1] == "In" then Match(protocol, Incoming)
      else if parts[1] == "Out" then Match(protocol, Outgoing)
      else Skip
  }

  /** The exact, case-sensitive prefix a name needs to be exported under a
      protocol and direction. */
  function Tag(p: Protocol, d: Direction): string {
    ProtocolPart(p) + "-" + DirectionPart(d)
  }

  /** A name is exported under (p, d) exactly when its first two parts are the
      words of p and d. */
  lemma ClassifyMatchParts(name: string, p: Protocol, d: Direction)
    ensures ClassifyName(name) == Match(p, d) <==>
      var parts := Strings.Split(name, '-');
      |parts| >= 2 && parts[0] == ProtocolPart(p) && parts[1] == DirectionPart(d)
  {
  }

  /** A name is exported under (p, d) exactly when it is "<p>-<d>" or starts with
      "<p>-<d>-": the first two parts decide, and the parts after them are ignored. */
  lemma ClassifyMatchIff(name: string, p: Protocol, d: Direction)
    ensures ClassifyName(name) == Match(p, d) <==> (name == Tag(p, d) || Tag(p, d) + "-" <= name)
  {
    var pp, dp := ProtocolPart(p), DirectionPart(d);
    assert '-' !in pp && '-' !in dp;
    ClassifyMatchParts(name, p, d);
    Strings.SplitFirstTwo(name, '-', pp, dp);
    assert Tag(p, d) == pp + ['-'] + dp;
  }

  /** `parts[1]` is out of range exactly for the names "IPv4" and "IPv6": a first
      part that selects a protocol, and no '-'. */
  lemma ClassifyPanicIff(name: string)
    ensures ClassifyName(name) == Panic <==> name == "IPv4" || name == "IPv6"
  {
  }

  // ---------------------------------------------------------------------------
  // Collection: the specification

  /** The sample a matched counter yields: its bytes, never its packets. */
  function TrafficMetric(c: NftablesCollector, counter: Obj, p: Protocol, d: Direction): Metric
    requires counter.CounterObj?
  {
    Metric(if p == IPv4 then c.ipv4Traffic else c.ipv6Traffic, CounterValue, counter.bytes, [DirectionLabel(d)])
  }

  /** What the loop of `Collect` sends for a listing, and whether it panicked. */
  datatype ScanResult = ScanResult(metrics: seq<Metric>, panicked: bool)

  function Scan(c: NftablesCollector, objs: seq<Obj>): ScanResult {
    if objs == [] then ScanResult([], false)
    else if !objs[0].CounterObj? then Scan(c, objs[1..])
    else match ClassifyName(objs[0].name)
      case Skip => Scan(c, objs[1..])
      case Panic => ScanResult([], true)
      case Match(p, d) =>
        var rest := Scan(c, objs[1..]);
        ScanResult([TrafficMetric(c, objs[0], p, d)] + rest.metrics, rest.panicked)
  }

  /** A counter whose name the loop panics on. */
  predicate PanicsOn(o: Obj) {
    o.CounterObj? && ClassifyName(o.name) == Panic
  }

  /** A counter the loop exports. */
  predicate IsMatch(o: Obj) {
    o.CounterObj? && ClassifyName(o.name).Match?
  }

  /** The number of counters the loop exports when it does not panic. */
  function MatchCount(objs: seq<Obj>): nat {
    if objs == [] then 0 else (if IsMatch(objs[0]) then 1 else 0) + MatchCount(objs[1..])
  }

  lemma {:induction false} ScanConcat(c: NftablesCollector, a: seq<Obj>, b: seq<Obj>)
    ensures Scan(c, a + b) == if Scan(c, a).panicked then Scan(c, a)
                              else ScanResult(Scan(c, a).metrics + Scan(c, b).metrics, Scan(c, b).panicked)
  {
    if a == [] {
      assert a + b == b;
    } else {
      assert (a + b)[0] == a[0];
      assert (a + b)[1..] == a[1..] + b;
      ScanConcat(c, a[1..], b);
      if a[0].CounterObj? {
        match ClassifyName(a[0].name)
        case Skip =>
        case Panic =>
        case Match(p, d) =>
          assert [TrafficMetric(c, a[0], p, d)] + (Scan(c, a[1..]).metrics + Scan(c, b).metrics)
              == ([TrafficMetric(c, a[0], p, d)] + Scan(c, a[1..]).metrics) + Scan(c, b).metrics;
      }
    }
  }

  /** One more object of the listing: its own outcome follows the prefix's. */
  lemma ScanPrefix(c: NftablesCollector, objs: seq<Obj>, i: nat)
    requires i < |objs|
    ensures Scan(c, objs[..i + 1]) == if Scan(c, objs[..i]).panicked then Scan(c, objs[..i])
                                      else ScanResult(Scan(c, objs[..i]).metrics + Scan(c, [objs[i]]).metrics,
                                                      Scan(c, [objs[i]]).panicked)
  {
    assert objs[..i + 1] == objs[..i] + [objs[i]];
    ScanConcat(c, objs[..i], [objs[i]]);
  }

  /** Once a prefix of the objects panics, the rest is never looked at. */
  lemma ScanStopsAtPanic(c: NftablesCollector, objs: seq<Obj>, n: nat)
    requires n <= |objs| && Scan(c, objs[..n]).panicked
    ensures Scan(c, objs) == Scan(c, objs[..n])
  {
    assert objs == objs[..n] + objs[n..];
    ScanConcat(c, objs[..n], objs[n..]);
  }

  /** The loop panics exactly when some counter's name is "IPv4" or "IPv6". */
  lemma {:induction false} ScanPanicsIff(c: NftablesCollector, objs: seq<Obj>)
    ensures Scan(c, objs).panicked <==> exists i :: 0 <= i < |objs| && PanicsOn(objs[i])
  {
    if objs != [] {
      ScanPanicsIff(c, objs[1..]);
      if exists i :: 0 <= i < |objs[1..]| && PanicsOn(objs[1..][i]) {
        var i :| 0 <= i < |objs[1..]| && PanicsOn(objs[1..][i]);
        assert objs[i + 1] == objs[1..][i];
      }
      if exists i :: 0 <= i < |objs| && PanicsOn(objs[i]) {
        var i :| 0 <= i < |objs| && PanicsOn(objs[i]);
        if i > 0 {
          assert objs[1..][i - 1] == objs[i];
        }
      }
    }
  }

  /** At most one sample per counter; without a panic, one per matching counter. */
  lemma {:induction false} ScanCount(c: NftablesCollector, objs: seq<Obj>)
    ensures |Scan(c, objs).metrics| <= MatchCount(objs) <= |Counters(objs)|
    ensures !Scan(c, objs).panicked ==> |Scan(c, objs).metrics| == MatchCount(objs)
  {
    if objs != [] {
      ScanCount(c, objs[1..]);
    }
  }

  /** Every sample is the bytes sample of a matching counter of the listing, under
      the descriptor of its protocol (one `Describe` declares) with its direction. */
  lemma {:induction false} ScanSound(c: NftablesCollector, objs: seq<Obj>)
    ensures forall m :: m in Scan(c, objs).metrics ==>
      exists j :: 0 <= j < |objs| && IsMatch(objs[j])
        && m == TrafficMetric(c, objs[j], ClassifyName(objs[j].name).protocol, ClassifyName(objs[j].name).direction)
    ensures forall m :: m in Scan(c, objs).metrics ==>
      m.desc in Describe(c) && m.valueType == CounterValue && m.labelValues in {["incoming"], ["outgoing"]}
  {
    if objs != [] {
      ScanSound(c, objs[1..]);
      var rest := Scan(c, objs[1..]).metrics;
      forall m | m in rest
        ensures exists j :: (&& 0 <= j < |objs| && IsMatch(objs[j])
                             && m == TrafficMetric(c, objs[j], ClassifyName(objs[j].name).protocol,
                                                   ClassifyName(objs[j].name).direction))
      {
        var j :| 0 <= j < |objs[1..]| && IsMatch(objs[1..][j])
          && m == TrafficMetric(c, objs[1..][j], ClassifyName(objs[1..][j].name).protocol,
                                ClassifyName(objs[1..][j].name).direction);
        assert objs[j + 1] == objs[1..][j];
      }
    }
  }

  /** For the constructed collector, every sample has one label value per label
      name, so `MustNewConstMetric` accepts it. */
  lemma ScanConsistent(objs: seq<Obj>)
    ensures forall m :: m in Scan(NewNftablesCollector(), objs).metrics ==> Consistent(m)
  {
    ScanSound(NewNftablesCollector(), objs);
  }

  // ---------------------------------------------------------------------------
  // Collection: the loop

  /** `Collect`: nothing but the error logged when the fixed table cannot be read;
      otherwise what the loop sends before it ends or panics, `matches` counting the
      samples, and the "no object matched" line logged exactly when the loop ended
      normally after sending nothing. */
  method Collect(c: NftablesCollector, getObjects: Table -> Result<seq<Obj>>)
    returns (emitted: seq<Metric>, matches: nat, logs: seq<string>, panicked: bool)
    ensures matches == |emitted|
    ensures getObjects(CounterTable).Err? ==>
      emitted == [] && !panicked && logs == [getObjects(CounterTable).error]
    ensures getObjects(CounterTable).Ok? ==>
      (&& ScanResult(emitted, panicked) == Scan(c, getObjects(CounterTable).value)
       && logs == if !panicked && matches == 0 then [NoMatchLog] else [])
  {
    var table := CounterTable;
    var objects := getObjects(table);
    if objects.Err? {
      return [], 0, [objects.error], false;
    }
    var objs := objects.value;
    emitted, matches, logs, panicked := [], 0, [], false;
    for i := 0 to |objs|
      invariant Scan(c, objs[..i]) == ScanResult(emitted, false)
      invariant matches == |emitted|
    {
      ScanPrefix(c, objs, i);
      assert [objs[i]][1..] == [];
      if !objs[i].CounterObj? {
        // not a counter
        continue;
      }
      var counter := objs[i];
      var parts := Strings.Split(counter.name, '-');

      var desc: Desc;
      if parts[0] == "IPv4" {
        desc := c.ipv4Traffic;
      } else if parts[0] == "IPv6" {
        desc := c.ipv6Traffic;
      } else {
        continue;
      }

      if |parts| < 2 {
        // `parts[1]` is out of range: the Go run time panics, Collect sends nothing more
        ScanStopsAtPanic(c, objs, i + 1);
        return emitted, matches, [], true;
      }
      var direction: string;
      if parts[1] == "In" {
        direction := "incoming";
      } else if parts[1] == "Out" {
        direction := "outgoing";
      } else {
        continue;
      }
      matches := matches + 1;

      var bytes := Metric(desc, CounterValue, counter.bytes, [direction]);
      emitted := emitted + [bytes];
    }
    assert objs[..|objs|] == objs;

    if matches == 0 {
      logs := [NoMatchLog];
    }
  }

  // ---------------------------------------------------------------------------
  // Start-up

  /** How `main` proceeds: abort with a message, or build the collector and serve. */
  datatype Startup = Fatal(message: string) | Serve(collector: NftablesCollector)

  /** The start-up check of `main`, given what its `ListTables` call returned. */
  function StartupCheck(tables: Result<seq<Table>>): (r: Startup)
    ensures r.Serve? <==> tables.Ok? && |tables.value| > 0
    ensures tables.Err? ==> r == Fatal(tables.error)
    ensures tables == Ok([]) ==> r == Fatal(NoTableMessage)
    ensures r.Serve? ==> r.collector == NewNftablesCollector()
  {
    match tables
    case Err(e) => Fatal(e)
    case Ok(ts) => if |ts| == 0 then Fatal(NoTableMessage) else Serve(NewNftablesCollector())
  }
}
