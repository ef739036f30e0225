/** The repeatable `-t` command-line flag (main.go, `StrArrFlag`): an
    append-only list of host strings kept in the order they were given,
    duplicates included. */
module Flags {
  datatype StrArrFlag = StrArrFlag(data: seq<string>)

  /** Go's `error` value: `Nil`, or an error carrying its message. */
  datatype Error = Nil | Err(msg: string)

  /** What `Set` hands back to the flag parser: the updated flag and the
      `error` result. */
  datatype SetResult = SetResult(flag: StrArrFlag, err: Error)

  function Get(f: StrArrFlag): seq<string>
  {
    f.data
  }

  /** Wraps a list as a flag value, neither copying nor filtering it. */
  function NewStrArrFlag(data: seq<string>): (f: StrArrFlag)
    ensures Get(f) == data
  {
    StrArrFlag(data)
  }

  /** Called by the flag parser once per `-t value` occurrence. */
  function Set(f: StrArrFlag, value: string): (r: SetResult)
    ensures r.err == Nil
    ensures |Get(r.flag)| == |Get(f)| + 1
    ensures Get(r.flag)[..|Get(f)|] == Get(f)
    ensures Get(r.flag)[|Get(f)|] == value
  {
    SetResult(StrArrFlag(f.data + [value]), Nil)
  }

  /** The parser's effect of calling `Set` for each value in command-line
      order. */
  function SetEach(f: StrArrFlag, values: seq<string>): (r: StrArrFlag)
    ensures Get(r) == Get(f) + values
    decreases |values|
  {
    if |values| == 0 then f
    else SetEach(Set(f, values[0]).flag, values[1..])
  }

  /** `strings.Join(parts, " ")`. */
  function Join(parts: seq<string>): string
    decreases |parts|
  {
    if |parts| == 0 then ""
    else if |parts| == 1 then parts[0]
    else parts[0] + " " + Join(parts[1..])
  }

  /** Total number of characters in a list of strings. */
  function TotalLength(parts: seq<string>): nat
    decreases |parts|
  {
    if |parts| == 0 then 0 else |parts[0]| + TotalLength(parts[1..])
  }

  /** `strings.Split(s, " ")`: the pieces between single spaces; the empty
      string splits into one empty piece. It is the partner of `Join`. */
  function Split(s: string): (r: seq<string>)
    ensures |r| > 0
    decreases |s|
  {
    if |s| == 0 then [""]
    else
      var rest := Split(s[1..]);
      if s[0] == ' ' then [""] + rest
      else [[s[0]] + rest[0]] + rest[1..]
  }

  /** The flag's printable form: its hosts separated by single spaces. */
  function String(f: StrArrFlag): (s: string)
    ensures |s| == TotalLength(Get(f)) + (if |Get(f)| == 0 then 0 else |Get(f)| - 1)
  {
    JoinLength(f.data);
    Join(f.data)
  }

  lemma {:induction false} JoinLength(parts: seq<string>)
    ensures |Join(parts)| == TotalLength(parts) + (if |parts| == 0 then 0 else |parts| - 1)
    decreases |parts|
  {
    if |parts| > 1 {
      JoinLength(parts[1..]);
    }
  }

  lemma {:induction false} SplitWord(a: string)
    requires ' ' !in a
    ensures Split(a) == [a]
    decreases |a|
  {
    if |a| > 0 {
      assert ' ' !in a[1..] by {
        forall c | c in a[1..] ensures c != ' ' {
          assert c in a;
        }
      }
      SplitWord(a[1..]);
      assert [a[0]] + a[1..] == a;
    }
  }

  lemma {:induction false} SplitWordThenRest(a: string, b: string)
    requires ' ' !in a
    ensures Split(a + " " + b) == [a] + Split(b)
    decreases |a|
  {
    var s := a + " " + b;
    if |a| == 0 {
      assert s[1..] == b;
    } else {
      assert ' ' !in a[1..] by {
        forall c | c in a[1..] ensures c != ' ' {
          assert c in a;
        }
      }
      assert s[1..] == a[1..] + " " + b;
      SplitWordThenRest(a[1..], b);
      assert [a[0]] + a[1..] == a;
    }
  }

  /** Splitting the printable form on spaces gives the host list back,
      provided the list is non-empty and no host contains a space. */
  lemma {:induction false} StringRoundTrip(f: StrArrFlag)
    requires |Get(f)| > 0
    requires forall i :: 0 <= i < |Get(f)| ==> ' ' !in Get(f)[i]
    ensures Split(String(f)) == Get(f)
    decreases |Get(f)|
  {
    var parts := Get(f);
    if |parts| == 1 {
      SplitWord(parts[0]);
    } else {
      var tail := StrArrFlag(parts[1..]);
      assert forall i :: 0 <= i < |Get(tail)| ==> ' ' !in Get(tail)[i] by {
        forall i | 0 <= i < |Get(tail)| ensures ' ' !in Get(tail)[i] {
          assert Get(tail)[i] == parts[i + 1];
        }
      }
      StringRoundTrip(tail);
      assert ' ' !in parts[0];
      SplitWordThenRest(parts[0], Join(parts[1..]));
      assert [parts[0]] + parts[1..] == parts;
    }
  }
}
