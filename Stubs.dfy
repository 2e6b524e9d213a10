/**
 * What a generated call stub does each time the mocked method is called
 * (GenerateNativeFunctionMockBody): take the read lock when the options ask for
 * thread safety, fetch the function from the table, load it when loading is
 * lazy, write the crash-log record when crash logs are on, call the delegate, and
 * release the lock however the call ends.
 */
module Stubs {
  import opened Wrappers
  import opened ClrString
  import opened NativeFunctions
  import opened Lifecycle
  import opened Registry
  import opened CrashLog

  /** A generated call stub: its table index and the options it was generated under. */
  datatype Stub = Stub(nativeFunctionIndex: nat, threadSafe: bool, lazyLoad: bool, crashLogs: bool)

  /** `InvalidOperationException("Thread safety with Lazy mode is not supported")` */
  datatype GenerationError = ThreadSafeLazyUnsupported

  /**
   * What a call through a stub does, in order. WritePartialCrashLog truncates the
   * thread's crash-log file and writes `text` (no line break) before the write
   * fails with an exception.
   */
  datatype StubStep =
    | EnterReadLock
    | LoadTarget
    | WriteCrashLog(filePath: string, lines: seq<string>)
    | WritePartialCrashLog(filePath: string, text: string)
    | CallNative(delegate: Delegate)
    | ExitReadLock

  /** The exceptions a stub lets through to the caller of the mocked method. */
  datatype StubError = NullReference | IndexOutOfRange(index: int) | NativeDllException(error: NativeDllError)

  /**
   * What a call sees besides the registry: its arguments, its thread, the crash-log
   * directory after macro expansion, and the stack trace when the options ask for one.
   */
  datatype CallContext = CallContext(args: seq<Argument>, thread: ThreadContext, logDirectory: string,
                                     stackTrace: Option<string>)

  /** `Path.Combine(directory, fileName)` for a file name that is not rooted, with '/' as the separator. */
  function PathCombine(directory: string, fileName: string): string {
    if directory == [] then fileName
    else if directory[|directory| - 1] == '/' then directory + fileName
    else directory + "/" + fileName
  }

  function CrashLogPath(logDirectory: string, threadId: int): string {
    PathCombine(logDirectory, CrashLogFileName(threadId))
  }

  /** What PathCombine puts before the file name. */
  function PathLead(directory: string): string {
    if directory == [] then [] else if directory[|directory| - 1] == '/' then directory else directory + "/"
  }

  /** The file name ends the combined path, after a lead that depends on the directory only. */
  lemma PathCombineSplits(directory: string, fileName: string)
    ensures PathCombine(directory, fileName) == PathLead(directory) + fileName
  {
  }

  /** After the same lead, distinct names stay distinct. */
  lemma SameLeadCancels(lead: string, n1: string, n2: string)
    requires lead + n1 == lead + n2
    ensures n1 == n2
  {
    assert (lead + n1)[|lead|..] == n1;
    assert (lead + n2)[|lead|..] == n2;
  }

  /** One file is kept per thread: in one directory distinct threads write distinct paths. */
  lemma CrashLogPathPerThread(directory: string, t1: int, t2: int)
    ensures EndsWith(CrashLogPath(directory, t1), CrashLogFileName(t1))
    ensures CrashLogPath(directory, t1) == CrashLogPath(directory, t2) ==> t1 == t2
  {
    var lead := PathLead(directory);
    var n1 := CrashLogFileName(t1);
    var n2 := CrashLogFileName(t2);
    PathCombineSplits(directory, n1);
    PathCombineSplits(directory, n2);
    assert (lead + n1)[|lead|..] == n1;
    if CrashLogPath(directory, t1) == CrashLogPath(directory, t2) {
      SameLeadCancels(lead, n1, n2);
      CrashLogFileNameInjective(t1, t2);
    }
  }

  /** The record WriteNativeCrashLog writes for the function at `r`. */
  function CrashLogRecord(vs: seq<NativeDll>, r: FunctionRef, args: seq<Argument>, thread: ThreadContext,
                          callIndex: int, stackTrace: Option<string>): seq<string>
    requires RefValid(vs, r)
  {
    RecordLines(FunctionAt(vs, r).identity.symbol, vs[r.dll].name, vs[r.dll].path, args, thread, callIndex, stackTrace)
  }

  /** The outcome of one call: the DLLs and the call counter after it, its result and its steps. */
  datatype StubRun = StubRun(dlls: seq<NativeDll>, lastCallIndex: int, result: Result<Delegate, StubError>,
                             steps: seq<StubStep>)

  /** Some step calls native code. */
  predicate CallsNative(steps: seq<StubStep>) {
    exists i :: 0 <= i < |steps| && steps[i].CallNative?
  }

  /** No step takes or releases the lock. */
  predicate LockFree(steps: seq<StubStep>) {
    forall i :: 0 <= i < |steps| ==> !steps[i].EnterReadLock? && !steps[i].ExitReadLock?
  }

  /**
   * The load a call starts with: LoadTargetFunction on the located function for a
   * lazy stub, nothing for a preload one.
   */
  function LoadPhase(vs: seq<NativeDll>, ref: FunctionRef, lazyLoad: bool, loader: Loader)
    : (r: (seq<NativeDll>, Outcome<NativeDllError>))
    requires AllWellFormed(vs) && RefValid(vs, ref)
    ensures |r.0| == |vs| && AllWellFormed(r.0) && RefValid(r.0, ref)
    ensures forall i :: 0 <= i < |vs| ==> SameShape(r.0[i], vs[i])
  {
    if lazyLoad then
      var step := LoadFunctionSpec(vs[ref.dll], ref.position, loader);
      (vs[ref.dll := step.0], step.1)
    else (vs, Pass)
  }

  /**
   * The rest of a call once the function is located and loaded: the crash-log
   * record when crash logs are on, then the call of the delegate, which is a
   * NullReferenceException when the delegate is null.
   */
  function CallPhase(ws: seq<NativeDll>, ref: FunctionRef, last: int, stub: Stub, call: CallContext): (r: StubRun)
    requires RefValid(ws, ref) && IsInt32(last)
    ensures r.dlls == ws && LockFree(r.steps) && IsInt32(r.lastCallIndex)
    ensures CallsNative(r.steps) <==> r.result.Success?
    ensures r.result.Success? ==>
      FunctionAt(ws, ref).delegate == Some(r.result.value) && r.steps[|r.steps| - 1] == CallNative(r.result.value)
  {
    var next := if stub.crashLogs then NextCallIndex(last) else (last, last);
    var logSteps :=
      if stub.crashLogs then
        [WriteCrashLog(CrashLogPath(call.logDirectory, call.thread.threadId),
                       CrashLogRecord(ws, ref, call.args, call.thread, next.1, call.stackTrace))]
      else [];
    match FunctionAt(ws, ref).delegate
    case None => StubRun(ws, next.0, Failure(NullReference), logSteps)
    case Some(d) =>
      assert (logSteps + [CallNative(d)])[|logSteps|].CallNative?;
      StubRun(ws, next.0, Success(d), logSteps + [CallNative(d)])
  }

  /**
   * What a stub does with a null table entry before the NullReferenceException: a
   * lazy stub hands the null to LoadTargetFunction, which throws at once; a preload
   * stub with crash logs hands it to WriteNativeCrashLog, which has truncated the
   * thread's file and written "function: " when it throws.
   */
  function NullEntrySteps(stub: Stub, call: CallContext): seq<StubStep> {
    if stub.lazyLoad then [LoadTarget]
    else if stub.crashLogs then [WritePartialCrashLog(CrashLogPath(call.logDirectory, call.thread.threadId), "function: ")]
    else []
  }

  /**
   * The part of a call inside the lock. A null table or a null entry gives a
   * NullReferenceException, an index past the array an IndexOutOfRangeException;
   * a lazy stub loads the function first and lets a NativeDllException through.
   * Only load state and the call counter change.
   */
  function StubBody(vs: seq<NativeDll>, table: Option<seq<Option<FunctionRef>>>, last: int, stub: Stub,
                    call: CallContext, loader: Loader): (r: StubRun)
    requires AllWellFormed(vs) && EntriesValid(vs, table) && IsInt32(last)
    ensures LockFree(r.steps)
    ensures |r.dlls| == |vs| && AllWellFormed(r.dlls) && IsInt32(r.lastCallIndex)
    ensures forall i :: 0 <= i < |vs| ==> SameShape(r.dlls[i], vs[i])
  {
    var i := stub.nativeFunctionIndex;
    if table.None? then StubRun(vs, last, Failure(NullReference), [])
    else if i >= |table.value| then StubRun(vs, last, Failure(IndexOutOfRange(i)), [])
    else if table.value[i].None? then StubRun(vs, last, Failure(NullReference), NullEntrySteps(stub, call))
    else
      var ref := table.value[i].value;
      assert Entries(table)[i] == table.value[i];
      var (loaded, outcome) := LoadPhase(vs, ref, stub.lazyLoad, loader);
      var loadSteps := if stub.lazyLoad then [LoadTarget] else [];
      if outcome.Fail? then StubRun(loaded, last, Failure(NativeDllException(outcome.error)), loadSteps)
      else
        var rest := CallPhase(loaded, ref, last, stub, call);
        rest.(steps := loadSteps + rest.steps)
  }

  /** A whole call: the body, between taking and releasing the read lock when the stub is thread safe. */
  function StubSpec(vs: seq<NativeDll>, table: Option<seq<Option<FunctionRef>>>, last: int, stub: Stub,
                    call: CallContext, loader: Loader): StubRun
    requires AllWellFormed(vs) && EntriesValid(vs, table) && IsInt32(last)
  {
    var body := StubBody(vs, table, last, stub, call, loader);
    if stub.threadSafe then body.(steps := [EnterReadLock] + body.steps + [ExitReadLock]) else body
  }

  /**
   * A thread-safe stub takes the lock first and releases it last, on every path,
   * and touches it nowhere else; a stub that is not thread safe never touches it.
   */
  lemma StubReleasesLock(vs: seq<NativeDll>, table: Option<seq<Option<FunctionRef>>>, last: int, stub: Stub,
                         call: CallContext, loader: Loader)
    requires AllWellFormed(vs) && EntriesValid(vs, table) && IsInt32(last)
    ensures var s := StubSpec(vs, table, last, stub, call, loader).steps;
      && (stub.threadSafe ==>
            |s| >= 2 && s[0] == EnterReadLock && s[|s| - 1] == ExitReadLock && LockFree(s[1..|s| - 1]))
      && (!stub.threadSafe ==> LockFree(s))
  {
    var body := StubBody(vs, table, last, stub, call, loader);
    if stub.threadSafe {
      var s := [EnterReadLock] + body.steps + [ExitReadLock];
      assert s[1..|s| - 1] == body.steps;
    }
  }

  /** Steps that call nothing, put before others, change neither whether nor how the steps end in a call. */
  lemma NoCallBefore(pre: seq<StubStep>, steps: seq<StubStep>)
    requires forall i :: 0 <= i < |pre| ==> !pre[i].CallNative?
    ensures CallsNative(pre + steps) <==> CallsNative(steps)
    ensures |steps| > 0 ==> (pre + steps)[|pre + steps| - 1] == steps[|steps| - 1]
  {
    if CallsNative(pre + steps) {
      var j :| 0 <= j < |pre + steps| && (pre + steps)[j].CallNative?;
      assert steps[j - |pre|].CallNative?;
    }
    if CallsNative(steps) {
      var j :| 0 <= j < |steps| && steps[j].CallNative?;
      assert (pre + steps)[|pre| + j] == steps[j];
    }
  }

  /**
   * A call reaches the native function exactly when it returns a delegate: the
   * last step inside the lock is the call of that delegate, which is the delegate
   * of the function the stub's index locates, after loading.
   */
  lemma StubCallsOnlyOnSuccess(vs: seq<NativeDll>, table: Option<seq<Option<FunctionRef>>>, last: int, stub: Stub,
                               call: CallContext, loader: Loader)
    requires AllWellFormed(vs) && EntriesValid(vs, table) && IsInt32(last)
    ensures var r := StubBody(vs, table, last, stub, call, loader);
      && (CallsNative(r.steps) <==> r.result.Success?)
      && (r.result.Success? ==>
            && table.Some? && stub.nativeFunctionIndex < |table.value|
            && table.value[stub.nativeFunctionIndex].Some?
            && var ref := table.value[stub.nativeFunctionIndex].value;
            && RefValid(r.dlls, ref) && FunctionAt(r.dlls, ref).delegate == Some(r.result.value)
            && r.steps[|r.steps| - 1] == CallNative(r.result.value))
  {
    var i := stub.nativeFunctionIndex;
    var r := StubBody(vs, table, last, stub, call, loader);
    if table.Some? && i < |table.value| && table.value[i].Some? {
      var ref := table.value[i].value;
      assert Entries(table)[i] == table.value[i];
      var (loaded, outcome) := LoadPhase(vs, ref, stub.lazyLoad, loader);
      var loadSteps := if stub.lazyLoad then [LoadTarget] else [];
      if outcome == Pass {
        var rest := CallPhase(loaded, ref, last, stub, call);
        assert r == rest.(steps := loadSteps + rest.steps);
        NoCallBefore(loadSteps, rest.steps);
      } else {
        assert !CallsNative(r.steps) by {
          assert r.steps == loadSteps;
        }
      }
    }
  }

  /**
   * A preload stub does not load: the DLLs are left as they are and there is no
   * load step.
   */
  lemma PreloadStubLeavesDllsAlone(vs: seq<NativeDll>, table: Option<seq<Option<FunctionRef>>>, last: int, stub: Stub,
                                   call: CallContext, loader: Loader)
    requires AllWellFormed(vs) && EntriesValid(vs, table) && IsInt32(last)
    requires !stub.lazyLoad
    ensures var r := StubSpec(vs, table, last, stub, call, loader);
      r.dlls == vs && forall i :: 0 <= i < |r.steps| ==> r.steps[i] != LoadTarget
  {
  }

  /**
   * A lazy stub whose entry locates a function performs LoadTargetFunction on it;
   * the call goes through exactly when the load succeeds, and a failed load is the
   * exception the caller sees.
   */
  lemma LazyStubLoads(vs: seq<NativeDll>, table: Option<seq<Option<FunctionRef>>>, last: int, stub: Stub,
                      call: CallContext, loader: Loader)
    requires AllWellFormed(vs) && EntriesValid(vs, table) && IsInt32(last)
    requires stub.lazyLoad && table.Some? && stub.nativeFunctionIndex < |table.value|
    requires table.value[stub.nativeFunctionIndex].Some?
    ensures var ref := table.value[stub.nativeFunctionIndex].value;
      && RefValid(vs, ref)
      && var step := LoadFunctionSpec(vs[ref.dll], ref.position, loader);
      && var r := StubSpec(vs, table, last, stub, call, loader);
      && r.dlls == vs[ref.dll := step.0]
      && (r.result.Success? <==> step.1 == Pass)
      && (step.1.Fail? ==> r.result == Failure(NativeDllException(step.1.error)) && r.lastCallIndex == last)
  {
    var ref := table.value[stub.nativeFunctionIndex].value;
    assert Entries(table)[stub.nativeFunctionIndex] == table.value[stub.nativeFunctionIndex];
    LoadFunctionCases(vs[ref.dll], ref.position, loader);
  }

  /**
   * A null table entry ends the call with a NullReferenceException and changes
   * neither the DLLs nor the counter. A lazy stub has only attempted the load; a
   * preload stub with crash logs has truncated the thread's file and written
   * "function: " into it; a preload stub without crash logs has done nothing.
   */
  lemma NullEntryFails(vs: seq<NativeDll>, table: Option<seq<Option<FunctionRef>>>, last: int, stub: Stub,
                       call: CallContext, loader: Loader)
    requires AllWellFormed(vs) && EntriesValid(vs, table) && IsInt32(last)
    requires table.Some? && stub.nativeFunctionIndex < |table.value| && table.value[stub.nativeFunctionIndex].None?
    ensures var r := StubBody(vs, table, last, stub, call, loader);
      && r.result == Failure(NullReference) && r.dlls == vs && r.lastCallIndex == last
      && (stub.lazyLoad ==> r.steps == [LoadTarget])
      && (!stub.lazyLoad && stub.crashLogs ==>
            r.steps == [WritePartialCrashLog(CrashLogPath(call.logDirectory, call.thread.threadId), "function: ")])
      && (!stub.lazyLoad && !stub.crashLogs ==> r.steps == [])
  {
  }

  /**
   * A call that reaches the native function with crash logs on has written the
   * record just before it, into the calling thread's file, numbered with the
   * counter's value before the call; the counter moves on by one. Without crash
   * logs nothing is written and the counter stays.
   */
  lemma CrashLogPrecedesCall(vs: seq<NativeDll>, table: Option<seq<Option<FunctionRef>>>, last: int, stub: Stub,
                             call: CallContext, loader: Loader)
    requires AllWellFormed(vs) && EntriesValid(vs, table) && IsInt32(last)
    ensures var r := StubBody(vs, table, last, stub, call, loader);
      && (stub.crashLogs && r.result.Success? ==>
            && |r.steps| >= 2
            && var ref := table.value[stub.nativeFunctionIndex].value;
            && RefValid(r.dlls, ref)
            && r.steps[|r.steps| - 2] ==
                 WriteCrashLog(CrashLogPath(call.logDirectory, call.thread.threadId),
                               CrashLogRecord(r.dlls, ref, call.args, call.thread, last, call.stackTrace))
            && r.lastCallIndex == NextCallIndex(last).0)
      && (!stub.crashLogs ==>
            r.lastCallIndex == last && forall i :: 0 <= i < |r.steps| ==> !r.steps[i].WriteCrashLog? && !r.steps[i].WritePartialCrashLog?)
  {
    NextCallIndexIsPrevious(last);
  }

  /**
   * After a LoadAll that completed, a preload stub for a function of a DLL that
   * LoadAll opened (its handle was zero) goes through to the native function.
   */
  lemma PreloadAfterLoadAll(vs: seq<NativeDll>, table: Option<seq<Option<FunctionRef>>>, last: int, stub: Stub,
                            call: CallContext, loader: Loader)
    requires AllWellFormed(vs) && EntriesValid(vs, table) && IsInt32(last)
    requires LoadAllSpec(vs, loader).1 == Pass && !stub.lazyLoad
    requires table.Some? && stub.nativeFunctionIndex < |table.value| && table.value[stub.nativeFunctionIndex].Some?
    requires RefValid(vs, table.value[stub.nativeFunctionIndex].value)
    requires vs[table.value[stub.nativeFunctionIndex].value.dll].handle == 0
    ensures var ws := LoadAllSpec(vs, loader).0;
      EntriesValid(ws, table) && StubBody(ws, table, last, stub, call, loader).result.Success?
  {
    var ws := LoadAllSpec(vs, loader).0;
    forall i | 0 <= i < |vs|
      ensures |ws[i].functions| == |vs[i].functions|
    {
      assert SameShape(ws[i], vs[i]);
    }
    LoadAllResolvesUnloaded(vs, loader);
  }

  /** After UnloadAll no preload stub reaches native code: every delegate is gone. */
  lemma PreloadAfterUnloadAll(vs: seq<NativeDll>, table: Option<seq<Option<FunctionRef>>>, last: int, stub: Stub,
                              call: CallContext, loader: Loader)
    requires AllWellFormed(vs) && EntriesValid(vs, table) && IsInt32(last)
    requires !stub.lazyLoad
    ensures var ws := UnloadAllSpec(vs, loader).0;
      && AllWellFormed(ws) && EntriesValid(ws, table)
      && var r := StubBody(ws, table, last, stub, call, loader);
      && r.result.Failure? && forall i :: 0 <= i < |r.steps| ==> !r.steps[i].CallNative?
  {
    var ws := UnloadAllSpec(vs, loader).0;
    UnloadAllResets(vs, loader);
    forall i | 0 <= i < |vs|
      ensures |ws[i].functions| == |vs[i].functions|
    {
      assert SameShape(ws[i], vs[i]);
    }
  }
}
