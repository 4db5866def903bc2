/** The Prometheus client values the collectors produce. */
module Prometheus {

  /** A metric descriptor, as built by `prometheus.NewDesc` (without constant labels). */
  datatype Desc = Desc(fqName: string, help: string, variableLabels: seq<string>)

  datatype ValueType = CounterValue | GaugeValue | UntypedValue

  /** A constant metric, as built by `prometheus.MustNewConstMetric`; the value is
      kept as the exact counter reading rather than a float64. */
  datatype Metric = Metric(desc: Desc, valueType: ValueType, value: nat, labelValues: seq<string>)

  /** The arity check `MustNewConstMetric` performs: one value per variable label
      (it panics otherwise). */
  predicate Consistent(m: Metric) {
    |m.labelValues| == |m.desc.variableLabels|
  }
}
