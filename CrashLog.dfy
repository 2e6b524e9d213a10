/**
 * The crash-log record a stub writes before each native call when crash logs are
 * enabled: one file per thread, truncated on every call, holding the lines below.
 */
module CrashLog {
  import opened Wrappers
  import opened ClrString

  const CrashFileNamePrefix := "unityNativeCrash_"

  /** Name of the crash-log file of a thread: `unityNativeCrash_tid{threadId}.log`. */
  function CrashLogFileName(threadId: int): string {
    CrashFileNamePrefix + "tid" + IntToString(threadId) + ".log"
  }

  /** Every crash-log file carries the prefix that clearing the logs looks for. */
  lemma CrashLogFileNameHasPrefix(threadId: int)
    ensures StartsWith(CrashLogFileName(threadId), CrashFileNamePrefix)
  {
    assert CrashLogFileName(threadId)[..|CrashFileNamePrefix|] == CrashFileNamePrefix;
  }

  /** Distinct threads write distinct files. */
  lemma CrashLogFileNameInjective(t1: int, t2: int)
    requires CrashLogFileName(t1) == CrashLogFileName(t2)
    ensures t1 == t2
  {
    var n1 := CrashLogFileName(t1);
    var n2 := CrashLogFileName(t2);
    var k := |CrashFileNamePrefix + "tid"|;
    assert |IntToString(t1)| == |IntToString(t2)|;
    assert n1[k..k + |IntToString(t1)|] == IntToString(t1);
    assert n2[k..k + |IntToString(t2)|] == IntToString(t2);
    IntToStringInjective(t1, t2);
  }

  /**
   * An argument as the stub boxes it. Floating-point and decimal values are
   * rendered with the invariant culture; that text is taken as given.
   */
  datatype Argument =
    | NullArgument
    | StringArgument(text: string)
    | FloatingArgument(invariantText: string)
    | OtherArgument(toStringText: string)

  /** How one argument value is written. */
  function RenderArgument(a: Argument): string {
    match a
    case NullArgument => "null"
    case StringArgument(s) => "\"" + s + "\""
    case FloatingArgument(t) => t
    case OtherArgument(t) => t
  }

  /** `$"  {i}:".PadRight(5)` */
  function ArgumentLabel(i: nat): string {
    PadRight("  " + IntToString(i) + ":", 5)
  }

  /** The label is "  {i}:" followed by spaces up to five characters. */
  lemma ArgumentLabelShape(i: nat)
    ensures |ArgumentLabel(i)| >= 5
    ensures ArgumentLabel(i)[..|IntToString(i)| + 3] == "  " + IntToString(i) + ":"
    ensures i < 10 ==> ArgumentLabel(i) == "  " + IntToString(i) + ": "
  {
    if i < 10 {
      assert |IntToString(i)| == 1;
    }
  }

  /** One line per argument, in order. */
  function ArgumentLines(args: seq<Argument>): (r: seq<string>)
    ensures |r| == |args|
  {
    seq(|args|, i requires 0 <= i < |args| => ArgumentLabel(i) + RenderArgument(args[i]))
  }

  /** Where the call happens: the thread ids and the name of the current thread. */
  datatype ThreadContext = ThreadContext(threadId: int, threadName: string, unityMainThreadId: int)

  function ThreadDescription(t: ThreadContext): string {
    if t.threadId == t.unityMainThreadId then "unity main thread"
    else t.threadName + "(" + IntToString(t.threadId) + ")"
  }

  /** The arguments section of a record: its title line, then one line per argument. */
  function ArgumentsPart(args: seq<Argument>): (r: seq<string>)
    ensures |r| == 1 + |args|
  {
    if args == [] then ["arguments: no arguments"] else ["arguments: "] + ArgumentLines(args)
  }

  /** The title says whether there are arguments; then come the arguments' lines, in order. */
  lemma ArgumentsPartLines(args: seq<Argument>)
    ensures var part := ArgumentsPart(args);
      && part[0] == (if args == [] then "arguments: no arguments" else "arguments: ")
      && forall i :: 0 <= i < |args| ==> part[1 + i] == ArgumentLabel(i) + RenderArgument(args[i])
  {
    var part := ArgumentsPart(args);
    forall i | 0 <= i < |args|
      ensures part[1 + i] == ArgumentLabel(i) + RenderArgument(args[i])
    {
      var lines := ArgumentLines(args);
      assert part == ["arguments: "] + lines;
      assert part[1 + i] == lines[i];
    }
  }

  /**
   * The lines of one record, each followed by a line break except the stack-trace
   * text, which is written as it is.
   */
  function RecordLines(symbol: string, dllName: string, dllPath: string, args: seq<Argument>,
                       thread: ThreadContext, callIndex: int, stackTrace: Option<string>): seq<string>
  {
    ["function: " + symbol, "from DLL: " + dllName, "  at path: " + dllPath]
    + ArgumentsPart(args)
    + ["thread: " + ThreadDescription(thread), "call index: " + IntToString(callIndex)]
    + (if stackTrace.Some? then ["stack trace:", stackTrace.value] else [])
  }

  /**
   * The layout of a record: the function and its DLL, the arguments section, the
   * thread, the call index, then the stack trace when there is one.
   */
  lemma RecordLayout(symbol: string, dllName: string, dllPath: string, args: seq<Argument>,
                     thread: ThreadContext, callIndex: int, stackTrace: Option<string>)
    ensures var lines := RecordLines(symbol, dllName, dllPath, args, thread, callIndex, stackTrace);
      var n := |args|;
      && |lines| == 6 + n + (if stackTrace.Some? then 2 else 0)
      && lines[0] == "function: " + symbol
      && lines[1] == "from DLL: " + dllName
      && lines[2] == "  at path: " + dllPath
      && lines[3..4 + n] == ArgumentsPart(args)
      && lines[4 + n] == "thread: " + ThreadDescription(thread)
      && lines[5 + n] == "call index: " + IntToString(callIndex)
      && (stackTrace.Some? ==> lines[6 + n..] == ["stack trace:", stackTrace.value])
  {
  }

  /** The main thread is named as such; a null argument reads "null"; strings are quoted. */
  lemma RecordRendering(t: ThreadContext, s: string)
    ensures t.threadId == t.unityMainThreadId ==> ThreadDescription(t) == "unity main thread"
    ensures RenderArgument(NullArgument) == "null"
    ensures RenderArgument(StringArgument(s)) == "\"" + s + "\""
  {
  }

  // ------------------------------------------------------------ call counter

  predicate IsInt32(x: int) {
    -0x8000_0000 <= x < 0x8000_0000
  }

  /** Unchecked 32-bit `int` increment: the largest value wraps to the smallest. */
  function Increment32(x: int): (r: int)
    requires IsInt32(x)
    ensures IsInt32(r)
  {
    if x == 0x7FFF_FFFF then -0x8000_0000 else x + 1
  }

  /** Unchecked 32-bit `int` decrement: the smallest value wraps to the largest. */
  function Decrement32(x: int): (r: int)
    requires IsInt32(x)
    ensures IsInt32(r)
  {
    if x == -0x8000_0000 then 0x7FFF_FFFF else x - 1
  }

  /**
   * `Interlocked.Increment(ref _lastNativeCallIndex) - 1`: the new counter and
   * the index written to the record.
   */
  function NextCallIndex(last: int): (int, int)
    requires IsInt32(last)
  {
    var incremented := Increment32(last);
    (incremented, Decrement32(incremented))
  }

  /** The index written is the counter before the increment, wrap-around included. */
  lemma NextCallIndexIsPrevious(last: int)
    requires IsInt32(last)
    ensures NextCallIndex(last).1 == last
    ensures last < 0x7FFF_FFFF ==> NextCallIndex(last).0 == last + 1
    ensures last == 0x7FFF_FFFF ==> NextCallIndex(last).0 == -0x8000_0000
  {
  }

  /** The counter after `n` records, starting from zero. */
  function CounterAfter(n: nat): (r: int)
    ensures IsInt32(r)
  {
    if n == 0 then 0 else NextCallIndex(CounterAfter(n - 1)).0
  }

  /** The record written `n`-th (counting from 0) carries call index `n`, below 2^31 records. */
  lemma {:induction false} CallIndexCountsRecords(n: nat)
    requires n < 0x8000_0000
    ensures CounterAfter(n) == n
    ensures NextCallIndex(CounterAfter(n)).1 == n
  {
    if n > 0 {
      CallIndexCountsRecords(n - 1);
    }
    NextCallIndexIsPrevious(n);
  }
}
