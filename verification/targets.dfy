/** Target-list resolution (main.go lines 98-111): the `-t` hosts, or a fixed
    default list when none were given, with the `-T` primary host prepended
    when it is non-empty. Order is kept and duplicates are never removed. */
module Targets {
  import opened Flags

  /** The hosts measured when no `-t` flag was given, in this order. */
  const DefaultHosts: seq<string> := ["1.1.1.1", "8.8.8.8", "google.com", "wikipedia.org"]

  /** Lines 98-105. */
  function ApplyDefaults(f: StrArrFlag): (r: StrArrFlag)
    ensures |Get(f)| == 0 ==> Get(r) == DefaultHosts
    ensures |Get(f)| > 0 ==> Get(r) == Get(f)
    ensures |Get(r)| > 0
  {
    if |Get(f)| == 0 then NewStrArrFlag(DefaultHosts) else f
  }

  /** Lines 107-111. */
  function PrependPrimary(f: StrArrFlag, primary: string): (r: StrArrFlag)
    ensures |primary| > 0 ==> |Get(r)| == |Get(f)| + 1 && Get(r)[0] == primary && Get(r)[1..] == Get(f)
    ensures |primary| == 0 ==> Get(r) == Get(f)
  {
    if |primary| > 0 then NewStrArrFlag([primary] + Get(f)) else f
  }

  /** The list every probe cycle walks, built once at startup. */
  function Resolve(f: StrArrFlag, primary: string): (r: StrArrFlag)
    ensures |Get(r)| > 0
    ensures Get(r) == (if |primary| > 0 then [primary] else [])
                      + (if |Get(f)| == 0 then DefaultHosts else Get(f))
  {
    PrependPrimary(ApplyDefaults(f), primary)
  }

  /** The hosts resolution starts from before the primary host is added. */
  function Base(f: StrArrFlag): seq<string>
  {
    if |Get(f)| == 0 then DefaultHosts else Get(f)
  }

  /** A host is measured exactly when it is the non-empty primary host or
      belongs to the base list. */
  lemma ResolveMembers(f: StrArrFlag, primary: string, h: string)
    ensures h in Get(Resolve(f, primary)) <==> (|primary| > 0 && h == primary) || h in Base(f)
  {
  }

  /** No deduplication: the resolved list holds every base host as often as
      the base list does, plus one more copy of the primary host. */
  lemma ResolveKeepsDuplicates(f: StrArrFlag, primary: string)
    ensures multiset(Get(Resolve(f, primary)))
            == multiset(Base(f)) + (if |primary| > 0 then multiset{primary} else multiset{})
  {
  }

  /** The whole startup path from `-t` values to the measured list: the flag
      parser's `Set` calls followed by resolution. */
  lemma {:induction false} ResolveFromCommandLine(values: seq<string>, primary: string)
    ensures Get(Resolve(SetEach(NewStrArrFlag([]), values), primary))
            == (if |primary| > 0 then [primary] else [])
               + (if |values| == 0 then DefaultHosts else values)
  {
  }
}
