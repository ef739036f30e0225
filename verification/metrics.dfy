/** The two labelled metric series one probe cycle writes (main.go lines
    124-146): the `ping_failures_total` counter, one value per `target_host`
    label, and the observations fed to the `ping_rtt_ms` histogram, in the
    order they were made. Bucket assignment belongs to the metrics library
    and is not modelled; keeping the raw observations is enough to derive it. */
module Metrics {

  type Host = string

  /** One round-trip time, in whole milliseconds, observed for a host. */
  datatype Observation = Observation(host: Host, rttMs: nat)

  /** A label appears in `failures` only once it has been incremented, as
      labelled counters are created lazily on first use. */
  datatype Registry = Registry(failures: map<Host, nat>, rtt: seq<Observation>)

  const Fresh: Registry := Registry(map[], [])

  /** The value a scrape would show for `ping_failures_total{target_host=h}`;
      a label never used reads as zero. */
  function FailureCount(reg: Registry, h: Host): nat
  {
    if h in reg.failures then reg.failures[h] else 0
  }

  /** `pingFailures.With(target_host = h).Inc()`. */
  function IncFailure(reg: Registry, h: Host): (r: Registry)
    ensures h in r.failures
    ensures FailureCount(r, h) == FailureCount(reg, h) + 1
    ensures forall o :: o != h ==> FailureCount(r, o) == FailureCount(reg, o)
    ensures r.failures.Keys == reg.failures.Keys + {h}
    ensures r.rtt == reg.rtt
  {
    reg.(failures := reg.failures[h := FailureCount(reg, h) + 1])
  }

  /** `pingRtt.With(target_host = h).Observe(ms)`. */
  function Observe(reg: Registry, h: Host, ms: nat): (r: Registry)
    ensures r.failures == reg.failures
    ensures |r.rtt| == |reg.rtt| + 1
    ensures r.rtt[..|reg.rtt|] == reg.rtt
    ensures r.rtt[|reg.rtt|] == Observation(h, ms)
  {
    reg.(rtt := reg.rtt + [Observation(h, ms)])
  }

  /** `after` can follow `before`: no counter went down and no observation
      was lost or rewritten. */
  ghost predicate Grows(before: Registry, after: Registry)
  {
    && (forall h :: FailureCount(before, h) <= FailureCount(after, h))
    && before.rtt <= after.rtt
  }

  lemma GrowsTransitive(a: Registry, b: Registry, c: Registry)
    requires Grows(a, b) && Grows(b, c)
    ensures Grows(a, c)
  {
  }
}
