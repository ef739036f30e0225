/** One measurement cycle (main.go lines 151-214). The probing library is
    replaced by an oracle: for the pinger built for position `i` of the host
    list, `probes[i]` says whether `NewPinger` reported an error and what
    `Run` followed by `Statistics` produced. Positions rather than host
    strings index the oracle because a host listed twice gets two pingers. */
module Cycle {
  import opened Metrics

  /** The outcome of running one pinger: `Run` returned an error, it
      returned without error but no packet came back, or at least one reply
      arrived with the given average round-trip time. */
  datatype RunOutcome = RunErr | NoReply | Success(rttMs: nat)

  datatype Probe = Probe(constructed: bool, run: RunOutcome)

  /** The registry after the cycle and the hosts whose pinger was run, in
      the order they were run. */
  datatype CycleResult = CycleResult(registry: Registry, ran: seq<Host>)

  /** Lines 152-169: every host gets a pinger. A construction error counts a
      failure, yet the pinger is kept and run like any other. */
  function Construct(reg: Registry, hosts: seq<Host>, probes: seq<Probe>): (r: Registry)
    requires |hosts| == |probes|
    ensures r.rtt == reg.rtt
    decreases |hosts|
  {
    if |hosts| == 0 then reg
    else
      var next := if probes[0].constructed then reg else IncFailure(reg, hosts[0]);
      Construct(next, hosts[1..], probes[1..])
  }

  /** Lines 172-206: a run records exactly one thing for its host, a failure
      for an error or for zero packets received, or one latency sample. */
  function Record(reg: Registry, host: Host, o: RunOutcome): (r: Registry)
    ensures !o.Success? ==> FailureCount(r, host) == FailureCount(reg, host) + 1 && r.rtt == reg.rtt
    ensures o.Success? ==> r.failures == reg.failures && r.rtt == reg.rtt + [Observation(host, o.rttMs)]
    ensures forall h :: h != host ==> FailureCount(r, h) == FailureCount(reg, h)
  {
    match o
    case RunErr => IncFailure(reg, host)
    case NoReply => IncFailure(reg, host)
    case Success(ms) => Observe(reg, host, ms)
  }

  /** How many pingers the run loop gets through. With fallover it stops
      right after the first success; otherwise it runs them all. */
  function RunLength(probes: seq<Probe>, fallover: bool): (n: nat)
    ensures n <= |probes|
    ensures !fallover ==> n == |probes|
    ensures fallover ==> forall k :: 0 <= k < n - 1 ==> !probes[k].run.Success?
    ensures fallover && n < |probes| ==> n > 0 && probes[n - 1].run.Success?
    decreases |probes|
  {
    if |probes| == 0 then 0
    else if fallover && probes[0].run.Success? then 1
    else 1 + RunLength(probes[1..], fallover)
  }

  /** Lines 171-214: the run loop, in list order, with the fallover `break`. */
  function RunPhase(reg: Registry, hosts: seq<Host>, probes: seq<Probe>, fallover: bool): (r: CycleResult)
    requires |hosts| == |probes|
    ensures r.ran == hosts[..RunLength(probes, fallover)]
    decreases |hosts|
  {
    if |hosts| == 0 then CycleResult(reg, [])
    else
      var next := Record(reg, hosts[0], probes[0].run);
      if fallover && probes[0].run.Success? then CycleResult(next, [hosts[0]])
      else
        var rest := RunPhase(next, hosts[1..], probes[1..], fallover);
        assert [hosts[0]] + hosts[1..][..RunLength(probes[1..], fallover)]
            == hosts[..RunLength(probes, fallover)];
        CycleResult(rest.registry, [hosts[0]] + rest.ran)
  }

  /** One whole cycle: construct every pinger, then run them. Only the
      `-f` value decides whether the run loop stops early. */
  function RunCycle(reg: Registry, hosts: seq<Host>, probes: seq<Probe>, fallover: bool): (r: CycleResult)
    requires |hosts| == |probes|
    ensures r.ran == hosts[..RunLength(probes, fallover)]
    ensures reg.rtt <= r.registry.rtt
  {
    RunSamples(Construct(reg, hosts, probes), hosts, probes, fallover);
    RunPhase(Construct(reg, hosts, probes), hosts, probes, fallover)
  }

  lemma ConstructStep(cur: Registry, hosts: seq<Host>, probes: seq<Probe>, i: nat)
    requires |hosts| == |probes| && i < |hosts|
    ensures Construct(cur, hosts[i..], probes[i..])
            == Construct(if probes[i].constructed then cur else IncFailure(cur, hosts[i]), hosts[i + 1..], probes[i + 1..])
  {
  }

  /** The construction loop of lines 152-169 as written. */
  method BuildPingers(reg: Registry, hosts: seq<Host>, probes: seq<Probe>) returns (after: Registry)
    requires |hosts| == |probes|
    ensures after == Construct(reg, hosts, probes)
  {
    after := reg;
    var i := 0;
    while i < |hosts|
      invariant i <= |hosts|
      invariant Construct(after, hosts[i..], probes[i..]) == Construct(reg, hosts, probes)
    {
      ConstructStep(after, hosts, probes, i);
      if !probes[i].constructed {
        after := IncFailure(after, hosts[i]);
      }
      i := i + 1;
    }
    assert hosts[i..] == [] && probes[i..] == [];
  }

  /** The run loop of lines 171-214 as written, with the fallover `break`.
      `todo` and `left` are the pingers not yet run and their outcomes. */
  method RunPingers(reg: Registry, hosts: seq<Host>, probes: seq<Probe>, fallover: bool)
    returns (after: Registry, ran: seq<Host>)
    requires |hosts| == |probes|
    ensures after == RunPhase(reg, hosts, probes, fallover).registry
    ensures ran == RunPhase(reg, hosts, probes, fallover).ran
  {
    ghost var full := RunPhase(reg, hosts, probes, fallover);
    var todo, left := hosts, probes;
    after := reg;
    ran := [];
    while |todo| > 0
      invariant |todo| == |left|
      invariant RunPhase(after, todo, left, fallover).registry == full.registry
      invariant ran + RunPhase(after, todo, left, fallover).ran == full.ran
      decreases |todo|
    {
      var o := left[0].run;
      after := Record(after, todo[0], o);
      ran := ran + [todo[0]];
      if fallover && o.Success? {
        break;
      }
      todo, left := todo[1..], left[1..];
    }
  }

  /** Lines 151-214: both loops in sequence compute the same registry and
      run list as `RunCycle`. */
  method MeasureOnce(reg: Registry, hosts: seq<Host>, probes: seq<Probe>, fallover: bool)
    returns (after: Registry, ran: seq<Host>)
    requires |hosts| == |probes|
    ensures after == RunCycle(reg, hosts, probes, fallover).registry
    ensures ran == RunCycle(reg, hosts, probes, fallover).ran
  {
    var built := BuildPingers(reg, hosts, probes);
    after, ran := RunPingers(built, hosts, probes, fallover);
  }

  // Reference counts, position by position, independent of the loops.

  /** Positions holding `h` whose pinger construction failed. */
  function ConstructFailures(hosts: seq<Host>, probes: seq<Probe>, h: Host): nat
    requires |hosts| == |probes|
    decreases |hosts|
  {
    if |hosts| == 0 then 0
    else (if hosts[0] == h && !probes[0].constructed then 1 else 0)
         + ConstructFailures(hosts[1..], probes[1..], h)
  }

  /** Among the first `n` positions, those holding `h` whose run failed. */
  function RunFailures(hosts: seq<Host>, probes: seq<Probe>, n: nat, h: Host): nat
    requires |hosts| == |probes| && n <= |hosts|
    decreases n
  {
    if n == 0 then 0
    else (if hosts[0] == h && !probes[0].run.Success? then 1 else 0)
         + RunFailures(hosts[1..], probes[1..], n - 1, h)
  }

  /** The samples the first `n` positions yield, in list order. */
  function Samples(hosts: seq<Host>, probes: seq<Probe>, n: nat): seq<Observation>
    requires |hosts| == |probes| && n <= |hosts|
    decreases n
  {
    if n == 0 then []
    else (if probes[0].run.Success? then [Observation(hosts[0], probes[0].run.rttMs)] else [])
         + Samples(hosts[1..], probes[1..], n - 1)
  }

  lemma {:induction false} ConstructCount(reg: Registry, hosts: seq<Host>, probes: seq<Probe>, h: Host)
    requires |hosts| == |probes|
    ensures FailureCount(Construct(reg, hosts, probes), h) == FailureCount(reg, h) + ConstructFailures(hosts, probes, h)
    decreases |hosts|
  {
    if |hosts| > 0 {
      var next := if probes[0].constructed then reg else IncFailure(reg, hosts[0]);
      ConstructCount(next, hosts[1..], probes[1..], h);
    }
  }

  lemma {:induction false} RunCount(reg: Registry, hosts: seq<Host>, probes: seq<Probe>, fallover: bool, h: Host)
    requires |hosts| == |probes|
    ensures FailureCount(RunPhase(reg, hosts, probes, fallover).registry, h)
            == FailureCount(reg, h) + RunFailures(hosts, probes, RunLength(probes, fallover), h)
    decreases |hosts|
  {
    if |hosts| > 0 {
      var next := Record(reg, hosts[0], probes[0].run);
      if !(fallover && probes[0].run.Success?) {
        RunCount(next, hosts[1..], probes[1..], fallover, h);
      }
    }
  }

  lemma {:induction false} RunSamples(reg: Registry, hosts: seq<Host>, probes: seq<Probe>, fallover: bool)
    requires |hosts| == |probes|
    ensures RunPhase(reg, hosts, probes, fallover).registry.rtt
            == reg.rtt + Samples(hosts, probes, RunLength(probes, fallover))
    decreases |hosts|
  {
    if |hosts| > 0 {
      var next := Record(reg, hosts[0], probes[0].run);
      if !(fallover && probes[0].run.Success?) {
        RunSamples(next, hosts[1..], probes[1..], fallover);
      }
    }
  }

  /** Every failure counter moves by exactly the construction failures of its
      host plus the failed runs of its host among the pingers that were run. */
  lemma {:induction false} CycleFailureCount(reg: Registry, hosts: seq<Host>, probes: seq<Probe>, fallover: bool, h: Host)
    requires |hosts| == |probes|
    ensures FailureCount(RunCycle(reg, hosts, probes, fallover).registry, h)
            == FailureCount(reg, h) + ConstructFailures(hosts, probes, h)
               + RunFailures(hosts, probes, RunLength(probes, fallover), h)
  {
    ConstructCount(reg, hosts, probes, h);
    RunCount(Construct(reg, hosts, probes), hosts, probes, fallover, h);
  }

  /** The cycle appends exactly the samples of the successful runs, in list
      order, and never touches earlier observations. */
  lemma {:induction false} CycleSamples(reg: Registry, hosts: seq<Host>, probes: seq<Probe>, fallover: bool)
    requires |hosts| == |probes|
    ensures RunCycle(reg, hosts, probes, fallover).registry.rtt
            == reg.rtt + Samples(hosts, probes, RunLength(probes, fallover))
  {
    RunSamples(Construct(reg, hosts, probes), hosts, probes, fallover);
  }

  /** A cycle only adds: no counter decreases and no observation is lost. */
  lemma CycleGrows(reg: Registry, hosts: seq<Host>, probes: seq<Probe>, fallover: bool)
    requires |hosts| == |probes|
    ensures Grows(reg, RunCycle(reg, hosts, probes, fallover).registry)
  {
    forall h ensures FailureCount(reg, h) <= FailureCount(RunCycle(reg, hosts, probes, fallover).registry, h) {
      CycleFailureCount(reg, hosts, probes, fallover, h);
    }
    CycleSamples(reg, hosts, probes, fallover);
  }

  lemma {:induction false} ConstructFailuresAbsent(hosts: seq<Host>, probes: seq<Probe>, h: Host)
    requires |hosts| == |probes| && h !in hosts
    ensures ConstructFailures(hosts, probes, h) == 0
    decreases |hosts|
  {
    if |hosts| > 0 {
      ConstructFailuresAbsent(hosts[1..], probes[1..], h);
    }
  }

  lemma {:induction false} RunFailuresAbsent(hosts: seq<Host>, probes: seq<Probe>, n: nat, h: Host)
    requires |hosts| == |probes| && n <= |hosts| && h !in hosts[..n]
    ensures RunFailures(hosts, probes, n, h) == 0
    decreases n
  {
    if n > 0 {
      assert hosts[..n][0] == hosts[0];
      assert hosts[1..][..n - 1] == hosts[..n][1..];
      RunFailuresAbsent(hosts[1..], probes[1..], n - 1, h);
    }
  }

  lemma {:induction false} ConstructFailuresNone(hosts: seq<Host>, probes: seq<Probe>, h: Host)
    requires |hosts| == |probes| && forall k :: 0 <= k < |probes| ==> probes[k].constructed
    ensures ConstructFailures(hosts, probes, h) == 0
    decreases |hosts|
  {
    if |hosts| > 0 {
      ConstructFailuresNone(hosts[1..], probes[1..], h);
    }
  }

  /** A host that is not in the list keeps its counter. */
  lemma UnlistedHostUntouched(reg: Registry, hosts: seq<Host>, probes: seq<Probe>, fallover: bool, h: Host)
    requires |hosts| == |probes| && h !in hosts
    ensures FailureCount(RunCycle(reg, hosts, probes, fallover).registry, h) == FailureCount(reg, h)
  {
    CycleFailureCount(reg, hosts, probes, fallover, h);
    ConstructFailuresAbsent(hosts, probes, h);
    var n := RunLength(probes, fallover);
    RunFailuresAbsent(hosts, probes, n, h);
  }

  /** Without fallover every pinger is run, in list order. */
  lemma {:induction false} AllRunsEveryHost(reg: Registry, hosts: seq<Host>, probes: seq<Probe>, h: Host)
    requires |hosts| == |probes|
    ensures RunCycle(reg, hosts, probes, false).ran == hosts
    ensures FailureCount(RunCycle(reg, hosts, probes, false).registry, h)
            == FailureCount(reg, h) + ConstructFailures(hosts, probes, h) + RunFailures(hosts, probes, |hosts|, h)
  {
    CycleFailureCount(reg, hosts, probes, false, h);
  }

  /** With fallover the run loop stops right after the first success: later
      pingers are not run, and a host that occurs only after that point is
      counted for construction failures alone. */
  lemma {:induction false} FalloverStopsAtFirstSuccess(reg: Registry, hosts: seq<Host>, probes: seq<Probe>, i: nat, h: Host)
    requires |hosts| == |probes| && i < |probes|
    requires probes[i].run.Success?
    requires forall k :: 0 <= k < i ==> !probes[k].run.Success?
    ensures RunCycle(reg, hosts, probes, true).ran == hosts[..i + 1]
    ensures h !in hosts[..i + 1] ==>
              FailureCount(RunCycle(reg, hosts, probes, true).registry, h)
              == FailureCount(reg, h) + ConstructFailures(hosts, probes, h)
  {
    var n := RunLength(probes, true);
    assert n == i + 1;
    CycleFailureCount(reg, hosts, probes, true, h);
    if h !in hosts[..i + 1] {
      RunFailuresAbsent(hosts, probes, n, h);
    }
  }

  lemma {:induction false} FalloverSamplesAtMostOne(hosts: seq<Host>, probes: seq<Probe>)
    requires |hosts| == |probes|
    ensures |Samples(hosts, probes, RunLength(probes, true))| <= 1
    decreases |hosts|
  {
    if |hosts| > 0 && !probes[0].run.Success? {
      FalloverSamplesAtMostOne(hosts[1..], probes[1..]);
    }
  }

  /** With fallover a cycle adds at most one latency sample. */
  lemma FalloverAtMostOneSample(reg: Registry, hosts: seq<Host>, probes: seq<Probe>)
    requires |hosts| == |probes|
    ensures |RunCycle(reg, hosts, probes, true).registry.rtt| <= |reg.rtt| + 1
  {
    CycleSamples(reg, hosts, probes, true);
    FalloverSamplesAtMostOne(hosts, probes);
  }

  /** A construction failure never removes a host from the run loop: which
      pingers run depends on the run outcomes alone. */
  lemma ConstructionDoesNotSkipRun(reg: Registry, hosts: seq<Host>, p: seq<Probe>, q: seq<Probe>, fallover: bool)
    requires |hosts| == |p| == |q|
    requires forall k :: 0 <= k < |p| ==> p[k].run == q[k].run
    ensures RunCycle(reg, hosts, p, fallover).ran == RunCycle(reg, hosts, q, fallover).ran
  {
  }

  /** A host whose pinger could not be built and whose run then failed is
      counted twice in the same cycle. */
  lemma ConstructionFailureCountedTwice(reg: Registry, h: Host, fallover: bool)
    ensures FailureCount(RunCycle(reg, [h], [Probe(false, RunErr)], fallover).registry, h)
            == FailureCount(reg, h) + 2
  {
    CycleFailureCount(reg, [h], [Probe(false, RunErr)], fallover, h);
  }

  /** Fallover over [A, B, C] where A fails and B answers: A and B are run,
      A gains one failure, B one sample, C nothing. */
  lemma FalloverExample(reg: Registry, a: Host, b: Host, c: Host, ms: nat)
    requires a != b && b != c && a != c
    ensures var r := RunCycle(reg, [a, b, c], [Probe(true, NoReply), Probe(true, Success(ms)), Probe(true, RunErr)], true);
            && r.ran == [a, b]
            && FailureCount(r.registry, a) == FailureCount(reg, a) + 1
            && FailureCount(r.registry, b) == FailureCount(reg, b)
            && FailureCount(r.registry, c) == FailureCount(reg, c)
            && r.registry.rtt == reg.rtt + [Observation(b, ms)]
  {
    var hosts := [a, b, c];
    var probes := [Probe(true, NoReply), Probe(true, Success(ms)), Probe(true, RunErr)];
    assert hosts[1..] == [b, c] && hosts[2..] == [c] && hosts[3..] == [];
    assert probes[1..] == [probes[1], probes[2]] && probes[2..] == [probes[2]] && probes[3..] == [];
    assert RunLength(probes, true) == 2;
    assert Samples(hosts, probes, 2) == [Observation(b, ms)];
    assert RunFailures(hosts[2..], probes[2..], 0, a) == 0;
    assert RunFailures(hosts[1..], probes[1..], 1, a) == 0;
    assert RunFailures(hosts, probes, 2, a) == 1;
    assert RunFailures(hosts[1..], probes[1..], 1, b) == 0;
    assert RunFailures(hosts, probes, 2, b) == 0;
    assert RunFailures(hosts[1..], probes[1..], 1, c) == 0;
    assert RunFailures(hosts, probes, 2, c) == 0;
    ConstructFailuresNone(hosts, probes, a);
    ConstructFailuresNone(hosts, probes, b);
    ConstructFailuresNone(hosts, probes, c);
    CycleFailureCount(reg, hosts, probes, true, a);
    CycleFailureCount(reg, hosts, probes, true, b);
    CycleFailureCount(reg, hosts, probes, true, c);
    CycleSamples(reg, hosts, probes, true);
  }

  /** All over [A, B, C] where every run fails: three runs, one failure
      each, no sample. */
  lemma AllFailExample(reg: Registry, a: Host, b: Host, c: Host)
    requires a != b && b != c && a != c
    ensures var r := RunCycle(reg, [a, b, c], [Probe(true, RunErr), Probe(true, NoReply), Probe(true, NoReply)], false);
            && r.ran == [a, b, c]
            && FailureCount(r.registry, a) == FailureCount(reg, a) + 1
            && FailureCount(r.registry, b) == FailureCount(reg, b) + 1
            && FailureCount(r.registry, c) == FailureCount(reg, c) + 1
            && r.registry.rtt == reg.rtt
  {
    var hosts := [a, b, c];
    var probes := [Probe(true, RunErr), Probe(true, NoReply), Probe(true, NoReply)];
    assert hosts[1..] == [b, c] && hosts[2..] == [c] && hosts[3..] == [];
    assert probes[1..] == [probes[1], probes[2]] && probes[2..] == [probes[2]] && probes[3..] == [];
    assert RunLength(probes, false) == 3;
    assert Samples(hosts, probes, 3) == [];
    forall x | x in hosts
      ensures RunFailures(hosts, probes, 3, x) == 1
    {
      assert RunFailures(hosts[3..], probes[3..], 0, x) == 0;
      assert RunFailures(hosts[2..], probes[2..], 1, x) == (if x == c then 1 else 0);
      assert RunFailures(hosts[1..], probes[1..], 2, x) == (if x == c || x == b then 1 else 0);
    }
    ConstructFailuresNone(hosts, probes, a);
    ConstructFailuresNone(hosts, probes, b);
    ConstructFailuresNone(hosts, probes, c);
    CycleFailureCount(reg, hosts, probes, false, a);
    CycleFailureCount(reg, hosts, probes, false, b);
    CycleFailureCount(reg, hosts, probes, false, c);
    CycleSamples(reg, hosts, probes, false);
  }

  /** Repeated cycles over the same list, one oracle per cycle (the
      background loop of lines 149-218 without its sleep). Earlier samples
      are kept, and with fallover each cycle adds at most one. */
  function Cycles(reg: Registry, hosts: seq<Host>, rounds: seq<seq<Probe>>, fallover: bool): (r: Registry)
    requires forall k :: 0 <= k < |rounds| ==> |rounds[k]| == |hosts|
    ensures reg.rtt <= r.rtt
    ensures fallover ==> |r.rtt| <= |reg.rtt| + |rounds|
    decreases |rounds|
  {
    if |rounds| == 0 then reg
    else
      var next := RunCycle(reg, hosts, rounds[0], fallover).registry;
      FalloverAtMostOneSample(reg, hosts, rounds[0]);
      Cycles(next, hosts, rounds[1..], fallover)
  }

  /** Across any number of cycles counters never decrease and samples are
      only ever appended. */
  lemma {:induction false} CyclesGrow(reg: Registry, hosts: seq<Host>, rounds: seq<seq<Probe>>, fallover: bool)
    requires forall k :: 0 <= k < |rounds| ==> |rounds[k]| == |hosts|
    ensures Grows(reg, Cycles(reg, hosts, rounds, fallover))
    decreases |rounds|
  {
    if |rounds| > 0 {
      var next := RunCycle(reg, hosts, rounds[0], fallover).registry;
      CycleGrows(reg, hosts, rounds[0], fallover);
      CyclesGrow(next, hosts, rounds[1..], fallover);
      GrowsTransitive(reg, next, Cycles(next, hosts, rounds[1..], fallover));
    }
  }
}
