# net-test: a Dafny model of the measurement core

net-test pings a list of hosts over ICMP, one host at a time, on a fixed
interval. It exposes the results as two Prometheus series labelled
`target_host`: the `ping_rtt_ms` latency histogram and the
`ping_failures_total` counter. This project models the decision logic of its
single program file, `main.go`, as pure Dafny functions and proves properties
about them. The logic has four parts:

- `Flags`: the repeatable `-t` flag value `StrArrFlag`. It is an append-only
  list of hosts. Its printable form joins the hosts with spaces.
- `Targets`: builds the host list from the command line. It falls back to
  `1.1.1.1`, `8.8.8.8`, `google.com` and `wikipedia.org` when no `-t` is given.
  A non-empty `-T` primary host is put at the front. Duplicates are kept.
- `Metrics` and `Cycle`: one probe cycle. Every host first gets a pinger,
  and a construction error counts one failure. Then the pingers are run in
  list order. Each run adds either one failure or one latency sample. With
  `-f` (fallover) the run stops after the first success. The probing library
  is replaced by an oracle: a `Probe` per list position says whether pinger
  construction failed and what the run produced (`RunErr`, `NoReply` or
  `Success(ms)`). `BuildPingers` and `RunPingers` mirror the two source loops
  as written, the second with its `break`. `MeasureOnce` runs them in
  sequence and is proved equal to the functional `RunCycle`.
- `Startup`: what the process does after reading its flags: exit fatally,
  serve metrics only, or probe and serve.

All `.dfy` files are verified together. Go's `error` result is the small
`Flags.Error` type.

## Where the code departs from its evident intent

The model follows the code in each of these cases.

- Pinger construction failure (main.go:153-168). The code logs "failed to
  create pinger" as a warning and counts a failure (lines 155-162). This
  reads as handling a pinger that cannot be used. But the branch has no
  `continue`. The code still configures, appends and later runs that pinger,
  so its run outcome is recorded as well. Such a host can be counted twice
  in one cycle. See `Cycle.ConstructionFailureCountedTwice` and
  `Cycle.ConstructionDoesNotSkipRun`.
- Construction happens before any run. Every listed host's construction
  failure is counted, including hosts after the first success that fallover
  never runs. A host after the first success therefore keeps its counter
  unchanged only when its pinger was built. See
  `Cycle.FalloverStopsAtFirstSuccess`.
- Strategy conflict (main.go:81-83). The help strings call `-f` "incompatible
  with -a" and `-a` "incompatible with -f" (lines 72 and 79). Line 82 stops
  the process when both are set. The check runs before `flag.Parse()` (line
  96), so it only sees the defaults `true` and `false` and never fires. `-a`
  is never read again, and the run loop follows the parsed `-f` alone. See
  `Startup.BothStrategiesAccepted` and `Startup.AllFlagIgnored`.
- `-p 0` (main.go:117, 122, 223-225). Probing starts only when `-p` is
  positive, and only a negative value is fatal. The fatal message "at least
  one metric must be selected to record (one of: -p)" suggests that
  disabled probing should not start. Yet with `-p 0` the process serves
  `/metrics` with no ping series registered. See `Startup.Decide`, whose
  contract gives `ServeOnly` exactly when `-p` is zero.
- Failure labels. The source takes the label from `pinger.Addr()`. The model
  uses the host string the pinger was built for. This assumes the probing
  library's `Addr()` returns the address it was given, including after a
  resolution error.

## Model

| member | source | states |
|---|---|---|
| Flags.NewStrArrFlag | main.go:26-30 | wrapping a list gives a flag whose `Get` returns exactly that list |
| Flags.Set | main.go:36-40 | `Set` appends the value at the end, keeps every earlier entry in order, and always returns a nil error |
| Flags.SetEach | main.go:49-52 | after one `Set` per `-t` occurrence, the flag holds the previous entries followed by all values in command-line order |
| Flags.String | main.go:32-34 | the printable form has the hosts' total length plus one separator between each neighbouring pair |
| Flags.StringRoundTrip | main.go:32-34 | splitting the printable form on spaces recovers the host list when it is non-empty and no host contains a space |
| Targets.ApplyDefaults | main.go:98-105 | an empty `-t` list becomes exactly the four default hosts in order; a non-empty one is kept unchanged; the result is never empty |
| Targets.PrependPrimary | main.go:107-111 | a non-empty primary host gives a list one longer, with the primary first and the previous list after it; an empty primary leaves the list unchanged |
| Targets.Resolve | main.go:98-111 | the measured list is the optional primary host followed by the `-t` hosts or the defaults; it is never empty |
| Targets.ResolveMembers | main.go:98-111 | a host is measured if and only if it is the non-empty primary host or belongs to the base list |
| Targets.ResolveKeepsDuplicates | main.go:107-111 | no deduplication: the resolved multiset is the base multiset plus one copy of the primary host |
| Targets.ResolveFromCommandLine | main.go:96-111 | from the raw `-t` values and `-T`, the measured list is `[primary?]` followed by those values, or by the defaults when there are none |
| Metrics.IncFailure | main.go:180-182 | incrementing a label raises its counter by one and creates the label; other labels and the samples are unchanged |
| Metrics.Observe | main.go:204-206 | observing appends exactly one sample for the host at the end; counters and earlier samples are unchanged |
| Cycle.Construct | main.go:152-169 | the construction loop never records a latency sample |
| Cycle.ConstructCount | main.go:152-169 | after the construction loop each host's counter has risen by exactly the number of its list positions whose pinger could not be built |
| Cycle.Record | main.go:171-206 | a run adds exactly one thing for its host: +1 failure for a run error or zero packets received, or one sample of the measured time on success; other hosts' counters are unchanged |
| Cycle.RunLength | main.go:171-214 | without fallover every pinger runs; with fallover the loop runs up to and including the first success, and stops early only because of a success |
| Cycle.RunPhase | main.go:171-214 | the hosts run are exactly the prefix of the list of length `RunLength`, in list order |
| Cycle.BuildPingers | main.go:152-169 | the construction loop as written computes the functional construction phase |
| Cycle.RunPingers | main.go:171-214 | the run loop as written, with its fallover `break`, computes the same registry and run list as the functional run phase |
| Cycle.RunCycle | main.go:151-214 | a whole cycle runs exactly the `RunLength` prefix of the host list, in order, and keeps every earlier latency sample |
| Cycle.MeasureOnce | main.go:151-214 | the source's two loops with the fallover `break` produce the same registry and run list as the functional cycle |
| Cycle.CycleFailureCount | main.go:151-214 | each host's counter rises by its construction failures over the whole list, plus its failed runs among the pingers actually run |
| Cycle.CycleSamples | main.go:171-206 | a cycle appends exactly the samples of the successful runs, in list order, after the existing ones |
| Cycle.CycleGrows | main.go:160-206 | a cycle never decreases a counter and never removes or changes an earlier sample |
| Cycle.UnlistedHostUntouched | main.go:152-206 | a host that is not in the list keeps its counter |
| Cycle.AllRunsEveryHost | main.go:171-214 | without fallover every listed host is run in order and counted for each of its failures |
| Cycle.FalloverStopsAtFirstSuccess | main.go:209-213 | with fallover the hosts run are those up to the first success; a host occurring only after it gains construction failures alone |
| Cycle.FalloverAtMostOneSample | main.go:204-213 | with fallover a cycle adds at most one latency sample |
| Cycle.ConstructionDoesNotSkipRun | main.go:153-168 | which hosts run does not depend on construction failures |
| Cycle.ConstructionFailureCountedTwice | main.go:153-184 | a host whose construction fails and whose run errors gains two failures in one cycle |
| Cycle.FalloverExample | main.go:171-214 | fallover over [A, B, C] with A silent and B answering: A and B run, A +1 failure, B one sample, C untouched |
| Cycle.AllFailExample | main.go:171-214 | all-hosts mode over [A, B, C] with every run failing: three runs, one failure each, no sample |
| Cycle.Cycles | main.go:149-218 | repeated cycles keep every earlier sample, and with fallover add at most one sample per cycle |
| Cycle.CyclesGrow | main.go:149-218 | over any number of cycles, counters never decrease and samples are only appended |
| Startup.Decide | main.go:81-225 | a negative `-p` is fatal with the nothing-to-measure message, zero serves without probing, and a positive value probes and serves |
| Startup.BothStrategiesAccepted | main.go:81-83 | passing both `-f` and `-a` never triggers the conflict error, because the check reads the pre-parse defaults |
| Startup.DecisionDependsOnPingMsOnly | main.go:117-225 | two command lines with the same `-p` reach the same startup outcome |
| Startup.Launch | main.go:81-122 | startup resolves a non-empty host list, whatever `-p` is; the parsed `-f` is the only strategy switch, and `-p` is the interval |
| Startup.AllFlagIgnored | main.go:75-83 | changing `-a` changes nothing in the running configuration |

## Left out

- ICMP probing through the pro-bing library (`NewPinger`, `Run`,
  `Statistics`, `SetPrivileged`, the 1-packet count and the 30 000 ms
  timeout). This is raw-socket I/O in foreign code. It is replaced by the
  per-position `Probe` oracle.
- The conversion of the average round-trip time to `float64`
  (main.go:202). The time is kept as whole milliseconds (`nat`).
- Prometheus registration, histogram bucket boundaries and assignment, and
  the text exposition format. These belong to the metrics library. The model
  keeps counters as a map from label to `nat` and observations as a sequence.
- Concurrent access from HTTP scrapes. This relies on the metrics library's
  internal synchronisation.
- The goroutine, the endless loop and `time.Sleep` (main.go:149-150, 217).
  These are concurrency and timing. `Cycle.Cycles` applies a finite number
  of cycles in sequence instead.
- The HTTP server, its timeouts, `ListenAndServe` and its error check
  (main.go:227-242). This is network I/O. `ServeOnly` and `ProbeAndServe`
  stand for entering it.
- Flag-parsing mechanics and log output. Parsed flag values are inputs. The
  only flag behaviour modelled is `Set` being called once per `-t`.
- Unmatched oracles. The cycle functions require exactly one `Probe` per
  list position. This is the shape of the oracle, not a condition the source
  imposes.
