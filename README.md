# nftables counters exporter, modelled in Dafny

The exporter publishes nftables counters as Prometheus metrics. Its core turns
the counter objects of the kernel's tables into labelled samples. This project
models the two versions of that core:

- **The current collector** (`exporter.go`, module `Exporter`).
  - `cleanupName` sanitises table and counter names into `[a-z0-9_]`.
  - `getTableFamily` maps a table's family to a label.
  - The constructor refuses to start when there are no tables.
  - `Describe` declares the bytes and packets descriptors.
  - `Collect` and `collectTable` send a bytes sample, then a packets sample, for
    every counter of every readable table. A table whose objects cannot be read is
    logged and skipped.
- **The earlier prototype** (`main.go`, module `Prototype`).
  - Its `Collect` reads the fixed table `ip-counter`.
  - It exports the bytes of counters named `IPv4-In`, `IPv4-Out`, `IPv6-In` or
    `IPv6-Out`, or starting with one of these followed by `-`, labelled with the
    direction. A name such as `IPv4-Inbound` is skipped.
  - It counts how many it sends and logs when none matched.
  - `main` aborts when there are no tables.

Supporting modules:

- `Nftables`: tables, objects and query results, as the netlink library gives them.
- `Prometheus`: descriptors and constant metrics.
- `Strings`: Go's `strings.Split`, with `strings.Join` as its inverse.

How the external parts are modelled:

- The netlink queries are inputs. `ListTables` is a `Result<seq<Table>>`, and
  `GetObjects` is a function from a table to a `Result<seq<Obj>>`.
- The Prometheus channel is the sequence of values one call sends.
- Logging is the sequence of lines one call logs.
- A Go run-time panic is an explicit `panicked` outcome.
- `Collect` and `collectTable` are methods with loops. Each is proved equal to a
  specification function (`AllMetrics`, `TableMetrics`, `Scan`), and the lemmas
  state what those functions promise.

Two facts about the code:
- The collector sends its samples in a fixed order: table by table, counter by
  counter, bytes before packets. The model proves this order.
- Nothing serialises calls into the netlink connection.

## Model

| member | source | states |
|---|---|---|
| `Nftables.Counters` | exporter.go:87-92 | the type assertion keeps only counter objects, at most as many as were listed; an object is kept exactly when it is listed and is a counter |
| `Nftables.CountersAppend` | exporter.go:87-92 | one more listed object keeps the counters found so far, in order, and adds itself at the end exactly when it is a counter; with the empty listing giving none, this fixes the counters and their order |
| `Strings.Split` | main.go:54 | splitting on `-` gives at least one part, so `parts[0]` always exists |
| `Strings.SplitPiecesHaveNoSep` | main.go:54 | no part of a split contains `-` |
| `Strings.SplitHasSecond` | main.go:66 | a second part exists exactly when the name contains `-` |
| `Strings.JoinSplit` | main.go:54 | joining the parts with `-` gives back the name |
| `Strings.SplitJoin` | main.go:54 | splitting a join of parts without `-` gives back the parts |
| `Strings.SplitFirstTwo` | main.go:54-72 | for `a` and `b` without `-`, the first two parts are `a` and `b` exactly when the string is `a-b` or starts with `a-b-` |
| `Exporter.ToLower` | exporter.go:66 | no contract of its own; characterised by `Exporter.CleanupNameAt` and `Exporter.CleanRuneCases` (one code point at a time, per `ToLowerRune`) |
| `Exporter.MapLabelRunes` | exporter.go:67-73 | no contract of its own; characterised by `Exporter.CleanupNameAt` and `Exporter.CleanRuneCases` (one code point at a time, per `LabelRune`) |
| `Exporter.CleanupName` | exporter.go:65-75 | no contract of its own; characterised by the `CleanupName…` lemmas below |
| `Exporter.CleanupNameAt` | exporter.go:65-75 | sanitising keeps the number of code points and maps each one on its own, at its own position |
| `Exporter.CleanRuneCases` | exporter.go:66-73 | per code point: `[a-z0-9]` kept, `[A-Z]` lower-cased, U+0130 to `i`, U+212A to `k`, every other one to `_` |
| `Exporter.CleanupNameAlphabet` | exporter.go:67-73 | every code point of a sanitised name is in `[a-z0-9_]` |
| `Exporter.CleanupNameFixes` | exporter.go:65-75 | a name already in `[a-z0-9_]` is unchanged |
| `Exporter.CleanupNameIdempotent` | exporter.go:65-75 | sanitising twice is the same as sanitising once |
| `Exporter.CleanupNameConcat` | exporter.go:67-73 | sanitising a concatenation is the concatenation of the sanitised parts |
| `Exporter.CleanupNameEmpty` | exporter.go:65-75 | the empty name stays empty |
| `Exporter.CleanupNameTestCase1` | exporter_test.go:8-9 | `ABC-DEF` becomes `abc_def` |
| `Exporter.CleanupNameTestCase2` | exporter_test.go:8-9 | `Awesome-Counter-1` becomes `awesome_counter_1` |
| `Exporter.CleanupNameTestCase3` | exporter_test.go:8-9 | the third test name, read with a single U+00C9, becomes `nom_trangeavecdescaract_r__bizares`: one `_` per code point. The file's text holds two code points there (U+221A, U+00E2), on which the result has two `_`, so the lemma does not claim the test passes as written |
| `Exporter.GetTableFamily` | exporter.go:46-63 | total; the label is one of inet, ip, ip6, arp, netdev, unknown; each label's families, both directions (netdev for netdev and bridge, unknown for every other family) |
| `Exporter.NewNftablesCounterCollector` | exporter.go:19-39 | fails exactly when listing fails (with its error) or finds no table; otherwise the descriptors are `nftables_counter_bytes` and `nftables_counter_packets` with labels family, table, counter |
| `Exporter.Describe` | exporter.go:41-44 | no contract of its own; characterised by `Exporter.DescribeAfterConstruction` |
| `Exporter.DescribeAfterConstruction` | exporter.go:41-44 | a constructed collector describes exactly two descriptors, bytes then packets, both with labels family, table, counter |
| `Exporter.TableMetrics` | exporter.go:84-97 | no contract of its own; the specification `Exporter.CollectTable`'s loop is proved against, characterised by `Exporter.TableMetricsAt` and `Exporter.TableMetricsWellFormed` |
| `Exporter.AllMetrics` | exporter.go:100-110 | no contract of its own; the specification `Exporter.Collect`'s loop is proved against, characterised by `Exporter.AllMetricsConcat`, `Exporter.FailingTableRemovesOnlyItsOwn`, `Exporter.AllMetricsLength` and `Exporter.AllMetricsWellFormed` |
| `Exporter.TableMetricsAt` | exporter.go:84-97 | a table yields exactly 2 samples per counter and none for other objects; samples 2k and 2k+1 are counter k's bytes and packets (`CounterSamples`), and both carry (family label, sanitised table name, sanitised counter name) |
| `Exporter.AllMetricsConcat` | exporter.go:107-109 | a scrape's samples are the samples of the tables in listing order, concatenated |
| `Exporter.FailingTableRemovesOnlyItsOwn` | exporter.go:77-110 | the samples equal those of the readable tables alone, so a failing table removes only its own |
| `Exporter.AllMetricsLength` | exporter.go:77-110 | a scrape yields exactly twice as many samples as the readable tables have counters |
| `Exporter.TableMetricsWellFormed` | exporter.go:84-96 | every sample of a table uses one of the described descriptors, is a counter, and has a family label and two names in `[a-z0-9_]` |
| `Exporter.AllMetricsWellFormed` | exporter.go:100-110 | every sample of a scrape is well formed in the same sense |
| `Exporter.AllMetricsConsistent` | exporter.go:95-96 | for a constructed collector, every sample has exactly one value per label name, so `MustNewConstMetric` accepts it |
| `Exporter.CollectTable` | exporter.go:77-98 | if the objects cannot be read, nothing is sent and the error is logged; otherwise it sends exactly the table's samples in order |
| `Exporter.Collect` | exporter.go:100-110 | if listing fails, nothing is sent and the error is logged; otherwise it sends every table's samples in order and logs one error per unreadable table |
| `Prototype.NewNftablesCollector` | main.go:21-32 | the descriptors `ipv4_traffic_bytes_counter` and `ipv6_traffic_bytes_counter`, each with the single label direction |
| `Prototype.Describe` | main.go:34-37 | no contract of its own; it sends the two descriptors, and `Prototype.ScanSound` states that every sample uses one of them |
| `Prototype.ClassifyName` | main.go:54-72 | no contract of its own; characterised by `Prototype.ClassifyMatchIff` and `Prototype.ClassifyPanicIff` |
| `Prototype.ClassifyMatchIff` | main.go:54-72 | a counter is exported under protocol p and direction d exactly when its name is `<p>-<d>` or starts with `<p>-<d>-` (case-sensitive; later parts ignored) |
| `Prototype.ClassifyPanicIff` | main.go:54-66 | indexing the second part panics exactly for the names `IPv4` and `IPv6` |
| `Prototype.Scan` | main.go:47-77 | no contract of its own; the specification `Prototype.Collect`'s loop is proved against, characterised by `Prototype.ScanConcat`, `Prototype.ScanPanicsIff`, `Prototype.ScanCount` and `Prototype.ScanSound` |
| `Prototype.ScanConcat` | main.go:47-77 | the loop over two listings runs the first one, and runs the second only if the first did not panic |
| `Prototype.ScanPanicsIff` | main.go:47-77 | the loop panics exactly when some counter is named `IPv4` or `IPv6` |
| `Prototype.ScanCount` | main.go:47-76 | at most one sample per counter; without a panic, exactly one per matching counter |
| `Prototype.ScanSound` | main.go:56-76 | every sample is the bytes (never the packets) of a matching counter, under its protocol's descriptor, labelled incoming or outgoing |
| `Prototype.ScanConsistent` | main.go:75 | for the constructed prototype collector, every sample has exactly one value per label name, so `MustNewConstMetric` accepts it |
| `Prototype.Collect` | main.go:39-82 | if the fixed table cannot be read, nothing is sent and the error is logged; otherwise it sends what the loop specification gives; `matches` equals the number sent; "no object matched" is logged exactly when the loop ended without a panic and sent nothing |
| `Prototype.StartupCheck` | main.go:84-95 | `main` aborts with the error when listing fails, or with its message when there is no table; otherwise it builds the collector and serves |

## Left out

- HTTP serving is not modelled: the `promhttp` handler, its in-flight limit, timeout and OpenMetrics options, and the listen addresses (cli/cmd/root.go:45-63, main.go:94-105). This is server plumbing inside the Prometheus library.
- Configuration loading through cobra and viper is not modelled (cli/cmd/root.go:66-100). It is external, and it has no logic beyond its defaults.
- The global netlink connection is not modelled, nor its unsynchronised use by concurrent scrapes. `GetObjects` is a function of the table, so within one scrape two equal tables get the same objects.
- Counter values are kept as exact integers below 2^64. The `float64` conversion, which rounds above 2^53, is not modelled.
- Of `MustNewConstMetric`'s validation, only the label count is modelled. It is proved never to fail, for the current collector (`Exporter.AllMetricsConsistent`) and for the prototype (`Prototype.ScanConsistent`). Registering with the registry is not modelled.
- Lower-casing is exact for ASCII and for U+0130 and U+212A, the two non-ASCII code points Go lower-cases into ASCII. Other non-ASCII code points are left as they are. Go maps them to other non-ASCII code points, which sanitising turns into `_` either way.
- Invalid UTF-8 is not modelled. Go turns it into U+FFFD; the model works on code points.
- Log lines are recorded as messages. Their timestamps and output stream are not modelled.
- What happens after a panic in the prototype (the process crashing) is not modelled. The model stops the loop and keeps the samples already sent.
- The prototype's `Describe` has no contract of its own. `Prototype.ScanSound` states that every sample's descriptor is one it declares.
- Two counters that yield the same sample identity (same descriptor and label values) are not detected. The current collector produces them when two raw names sanitise to the same name; the prototype when two names share their first two parts, as `IPv4-In-a` and `IPv4-In-b` do. Both programs register the collector with a Prometheus registry (cli/cmd/root.go:50-51, main.go:94-96) and serve with `HTTPErrorOnError` (cli/cmd/root.go:55, main.go:100). Assuming the Prometheus library's usual behaviour, the registry then rejects the duplicate samples when it gathers them and the whole scrape fails. That library code is not part of this model.
