/** The startup path of main.go: the strategy-conflict check (lines 81-83),
    flag parsing (line 96), the probe gate (lines 117-122), the "nothing to
    measure" check (lines 223-225), and then serving metrics. */
module Startup {
  import opened Flags
  import Targets

  /** The command-line values main reads: the `-t` values in order, `-T`,
      `-m`, `-f`, `-a` and `-p`. */
  datatype Config = Config(
    targets: seq<string>,
    primary: string,
    metricsHost: string,
    fallover: bool,
    all: bool,
    pingMs: int)

  /** How the process goes on after startup. */
  datatype Decision = Fatal(msg: string) | ServeOnly | ProbeAndServe

  /** The flag variables before `flag.Parse`: each holds its declared default. */
  const PreParse: Config := Config([], "", ":2112", true, false, 10000)

  const ConflictMsg: string := "options -f (fallover) and -a (all) cannot both be provided"
  const NothingToMeasureMsg: string := "at least one metric must be selected to record (one of: -p)"

  predicate StrategyConflict(c: Config)
  {
    c.fallover && c.all
  }

  /** Lines 81-83, 96, 117-122 and 223-225 in program order. The conflict
      check runs before `flag.Parse`, so it reads `PreParse` and not the
      parsed values; only the parsed `-p` value decides the outcome. */
  function Decide(parsed: Config): (d: Decision)
    ensures d.Fatal? <==> parsed.pingMs < 0
    ensures d.ServeOnly? <==> parsed.pingMs == 0
    ensures d.ProbeAndServe? <==> parsed.pingMs > 0
    ensures d.Fatal? ==> d.msg == NothingToMeasureMsg
  {
    if StrategyConflict(PreParse) then Fatal(ConflictMsg)
    else if parsed.pingMs > 0 then ProbeAndServe
    else if parsed.pingMs < 0 then Fatal(NothingToMeasureMsg)
    else ServeOnly
  }

  /** Giving both `-f` and `-a` does not stop the process: the outcome is the
      one `-p` alone selects. */
  lemma BothStrategiesAccepted(parsed: Config)
    requires StrategyConflict(parsed)
    ensures Decide(parsed) != Fatal(ConflictMsg)
    ensures parsed.pingMs > 0 ==> Decide(parsed) == ProbeAndServe
  {
  }

  /** Two command lines that agree on `-p` start the same way. */
  lemma DecisionDependsOnPingMsOnly(c1: Config, c2: Config)
    requires c1.pingMs == c2.pingMs
    ensures Decide(c1) == Decide(c2)
  {
  }

  /** What the background loop is given when probing starts. */
  datatype Plan = Plan(decision: Decision, hosts: seq<string>, fallover: bool, intervalMs: int)

  /** Startup from parsed flags to the running configuration: the hosts
      every cycle walks, and the strategy the run loop follows, which is the
      parsed `-f` value alone; `-a` is never read after line 81. */
  function Launch(parsed: Config): (p: Plan)
    ensures p.decision == Decide(parsed)
    ensures |p.hosts| > 0
    ensures p.hosts == (if |parsed.primary| > 0 then [parsed.primary] else [])
                       + (if |parsed.targets| == 0 then Targets.DefaultHosts else parsed.targets)
    ensures p.fallover == parsed.fallover
    ensures p.intervalMs == parsed.pingMs
  {
    var flag := SetEach(NewStrArrFlag([]), parsed.targets);
    Targets.ResolveFromCommandLine(parsed.targets, parsed.primary);
    Plan(Decide(parsed), Get(Targets.Resolve(flag, parsed.primary)), parsed.fallover, parsed.pingMs)
  }

  /** Passing `-a` changes nothing: with `-f` left at its default the cycle
      still stops at the first success. */
  lemma AllFlagIgnored(parsed: Config, all: bool)
    ensures Launch(parsed.(all := all)) == Launch(parsed)
  {
  }
}
