# UnityNativeTool's DLL manipulator, modelled in Dafny

UnityNativeTool lets a Unity project load native plugins (DLLs / shared objects)
itself instead of through the engine. That way a plugin can be unloaded and
reloaded without restarting the editor. Each `[DllImport]` method is
detoured to a generated stub. The stub looks its function up in a table, loads
the DLL and resolves the symbol on demand (Lazy mode) or relies on an earlier
`LoadAll` (Preload mode), optionally writes a crash-log record, and calls the
native function through a delegate.

This project models the bookkeeping core of that machinery:

- **Registry state.** `DllManipulator` is modelled as one class, with:
  - the DLL map (`_dlls`);
  - the growable table of registered functions that the stubs index into
    (`_nativeFunctions`, `_nativeFunctionsCount`);
  - the cache of delegate types per signature;
  - the crash-log call counter.
- **Lifecycle.** Registration (the bookkeeping half of
  `GetNativeFunctionMockMethod`), `AddNativeFunction`, `LoadTargetFunction`,
  `LoadAll`, `UnloadAll`, `ForgetAllDlls` and `GetUsedDllsInfos`.
- **Stubs.** The control flow of a generated stub: the lock, the table lookup,
  the lazy load, the crash log and the call.
- **Crash logs.** The lines of a crash-log record, and its file name.
- **Helpers.** The identity of a native function with its equality and 32-bit
  hash; the structural signatures used as the delegate-type cache key, with their
  (as written, irreflexive) equality; `TrimStart` / `TrimEnd`.

The central invariant is `Registry.RegistryValid`, which every public
state-changing method keeps:

- a delegate exists only while its DLL's handle is non-zero;
- DLL names are distinct keys;
- the table holds `count` entries followed by nulls;
- entry `i` locates the function whose `index` is `i`, and every function sits
  in the table at its own index.

The class methods are proved equal to pure specification functions (for example
`Lifecycle.LoadAllSpec`, `Lifecycle.UnloadAllSpec`, `Stubs.StubSpec`). The
promised properties are proved as lemmas about those functions.

Modules:

- `Wrappers`: Option, Result and Outcome.
- `ClrString`: the .NET string operations the code calls. `Replace` is
  ordinal; `StartsWith` and `EndsWith` are modelled ordinally as well.
- `NativeFunctions`: identity, hash and the two records.
- `Signatures`: signature construction and equality.
- `StringExtensions`.
- `CrashLog`: record lines, file name and the call counter.
- `Lifecycle`: load, unload, register and snapshot, on values.
- `Registry`: the function table and its invariant.
- `Stubs`: a stub's control flow, on values.
- `Manipulator`: the `DllManipulator` class, path macros and the delegate-type
  cache.

Three behaviours of the code one might not expect are kept as written:

- `LoadAll` stops at the first exception. It neither aggregates failures nor
  goes on to the remaining DLLs.
- Registering the same identity twice appends a second function with its own
  table index. The mock cache `_nativeFunctionMocks` is read at
  `src/DllManipulator.cs:184` but never written, so there is no de-duplication.
- In thread-safe mode the read lock is held around the table lookup, the crash
  log and the call, not only around the call; a lazy stub is never thread safe.

## Model

| member | source | states |
|---|---|---|
| Manipulator.DllManipulator.constructor | src/DllManipulator.cs:28-34 | The initial state: no DLL, a null table with count 0, no delegate type, call counter 0. The registry invariant holds. |
| Manipulator.DllManipulator.SetUnityContext | src/DllManipulator.cs:37-41 | Stores the main thread id and the assets path. |
| Manipulator.ApplyDirectoryPathMacros | src/DllManipulator.cs:164-169 | `{assets}` is replaced by the assets path, then `{proj}` by the assets path followed by `/../`. Its properties are in the next two rows. |
| Manipulator.MacroFreePatternUsedVerbatim | src/DllManipulator.cs:164-169 | A pattern that contains no macro is returned unchanged by the macro expansion and by the DLL path computation. |
| Manipulator.NamePatternGivesName | src/DllManipulator.cs:197-199 | With the pattern `{name}`, a new DLL's path is its own name. |
| Manipulator.DllPathFor | src/DllManipulator.cs:197 | The directory macros are applied to the pattern, then `{name}` is replaced by the DLL name. Its properties are in the two rows before. |
| Manipulator.CacheLookup | src/DllManipulator.cs:212 | Lookup of a signature: a result is an entry whose masked 31-bit hash (`GetHashCode() & 0x7FFFFFFF`) matches the probe's and whose stored key Equals the probe. It finds nothing exactly when no entry answers. |
| Manipulator.MaskedHash | src/DllManipulator.cs:212 | The hash the Dictionary compares lies in `[0, 2^31)`. |
| Manipulator.MaskedHashIgnoresSignBit | src/DllManipulator.cs:212 | Two hashes that differ only in the sign bit compare equal in the cache, and a non-negative hash is kept as it is. |
| Manipulator.CacheMissesOwnKey | src/DllManipulator.cs:212-216 | A signature just added is not found by itself, because signature Equals is irreflexive. |
| Manipulator.ChooseDelegateType | src/DllManipulator.cs:212-216 | TryGetValue, then on a miss a new type is created and added under the masked hash of the probe. Its cases are in the next row. |
| Manipulator.ChooseDelegateTypeCases | src/DllManipulator.cs:212-216 | The cache only grows. On a hit the cache and the counter are unchanged and the cached type answers the signature. On a miss the new type `HelperNativeDelegate{n}` is created and stored under the signature and its masked hash. |
| Manipulator.SameSignatureTwiceCreatesTwo | src/DllManipulator.cs:182-216 | Registering two methods with the same signature, each signature object probing with its own hash, never lets the second find the first one's new type. When the older entries answer neither probe, two distinct delegate types are created and the cache grows by two. |
| Manipulator.SameSignatureTwiceMayReuseOlder | src/DllManipulator.cs:210-216 | A second, equal signature object with its own hash may hit an older entry the first missed: it then reuses that type, creates nothing and leaves the cache as the first left it. |
| Manipulator.DllManipulator.CreateDelegateTypeForNativeFunctionSignature | src/DllManipulator.cs:386-429 | The new type is numbered by the counter, and the counter grows by one. |
| Manipulator.DllManipulator.DelegateTypeFor | src/DllManipulator.cs:212-216 | The delegate type, the cache and the counter after the lookup are those ChooseDelegateType describes. |
| Manipulator.DllManipulator.AddNativeFunction | src/DllManipulator.cs:371-384 | The entry is appended at the old count and the count grows by one. Earlier entries are kept. A null table becomes a fresh array of 4; a full one is replaced by a fresh array of twice the length; otherwise the same array is used. Entries stay count-then-nulls. |
| Manipulator.DllManipulator.RegisterNativeFunction | src/DllManipulator.cs:191-206 | The function joins its identity's DLL (get-or-create), with index equal to the old count. The table gains its location at that index and keeps the earlier entries. The invariant is kept. |
| Manipulator.DllManipulator.GetNativeFunctionMockMethod | src/DllManipulator.cs:182-257 | Registration as above, with the path from the pattern for a new DLL. The delegate type is chosen through the cache. It always appends, with no de-duplication. The stub is generated for the old count, and generation fails after registration when Lazy mode and thread safety are both on. |
| Manipulator.DllManipulator.LoadFunctionOf | src/DllManipulator.cs:474-498 | LoadTargetFunction on one DLL record equals LoadFunctionSpec. |
| Manipulator.DllManipulator.LoadTargetFunction | src/DllManipulator.cs:474-498 | Only the function's DLL changes, as LoadFunctionSpec says. The outcome is the exception thrown. The invariant is kept. |
| Manipulator.DllManipulator.LoadFunctionsOf | src/DllManipulator.cs:55-58 | LoadAll's inner loop over one DLL's functions equals LoadFunctionsFrom. It stops at the first failure. |
| Manipulator.DllManipulator.LoadDllFunctions | src/DllManipulator.cs:53-59 | The k-th DLL is replaced by the result of its inner loop. The invariant is kept. |
| Manipulator.DllManipulator.LoadAll | src/DllManipulator.cs:46-66 | The new DLLs and the outcome are LoadAllSpec of the old ones. The invariant is kept. |
| Manipulator.DllManipulator.UnloadAll | src/DllManipulator.cs:71-101 | The new DLLs and the warnings logged are UnloadAllSpec of the old ones. The invariant is kept. |
| Manipulator.DllManipulator.ForgetAllDlls | src/DllManipulator.cs:103-108 | The map is empty and the table null with count 0. The signature cache is not touched. The invariant holds. |
| Manipulator.DllManipulator.GetUsedDllsInfos | src/DllManipulator.cs:128-140 | A fresh array with one entry per DLL, in order, equal to Snapshot. |
| Manipulator.DllManipulator.CallContextFor | src/DllManipulator.cs:506-507 | The context carries the calling thread and the main thread id. It has a stack trace exactly when the options ask for one. |
| Manipulator.DllManipulator.ArgumentsSection | src/DllManipulator.cs:521-561 | The arguments section built line by line equals ArgumentsPart. |
| Manipulator.DllManipulator.WriteNativeCrashLog | src/DllManipulator.cs:504-581 | The file is the thread's crash-log path. The lines are the record, with the counter's old value as the call index. The counter is incremented with 32-bit wrap-around. |
| Manipulator.DllManipulator.CallTarget | src/DllManipulator.cs:259-286 | The crash log is written first when enabled, then the delegate is called; a null delegate fails. |
| Manipulator.DllManipulator.RunStubBody | src/DllManipulator.cs:246-286 | The stub between lock and release equals StubBody: table lookup, lazy load, crash log and call, including the null-entry path. The invariant is kept. |
| Manipulator.DllManipulator.InvokeStub | src/DllManipulator.cs:236-301 | The whole stub equals StubSpec. The read-lock count is back to its old value on every path. |
| Lifecycle.LoadFunctionSpec | src/DllManipulator.cs:474-498 | LoadTargetFunction on values. It keeps the DLL's shape (name, path, functions' identities, delegate types and indices) and the well-formedness invariant. |
| Lifecycle.LoadFunctionCases | src/DllManipulator.cs:476-497 | The DLL is opened only if its handle is zero. A failed open sets loadingError, leaves the handle zero and fails. A loaded function with a delegate needs no work. A failed lookup sets symbolError and leaves the handle set and the delegate null. Success holds iff both handle and delegate end up set, and the delegate is built from the looked-up pointer. Other functions do not change. |
| Lifecycle.LoadFunctionKeeps | src/DllManipulator.cs:476-497 | An open DLL keeps its handle, and resolved delegates are never dropped. |
| Lifecycle.LoadFunctionsFrom | src/DllManipulator.cs:55-58 | The inner loop on values keeps shape and invariant. |
| Lifecycle.LoadFunctionsFromResolves | src/DllManipulator.cs:55-58 | Earlier functions are untouched. On success every later function has a delegate and the DLL is open. |
| Lifecycle.LoadDllSpec | src/DllManipulator.cs:53-59 | One outer iteration keeps shape and invariant. |
| Lifecycle.LoadAllFrom | src/DllManipulator.cs:51-60 | The outer loop on values keeps length, shapes and invariant. |
| Lifecycle.FirstFailing | src/DllManipulator.cs:51-60 | The first DLL from k on whose load fails, or the length when none does. |
| Lifecycle.FirstFailingIsFirst | src/DllManipulator.cs:51-60 | Every load before FirstFailing passes, and the one at it fails. |
| Lifecycle.FirstFailingOfSuffix | src/DllManipulator.cs:51-60 | FirstFailing from k depends only on the DLLs from k on. |
| Lifecycle.LoadAllFromKeepsPrefix | src/DllManipulator.cs:51-60 | LoadAll from k leaves the DLLs before k alone. |
| Lifecycle.LoadAllFromPassStep | src/DllManipulator.cs:51-60 | After a passing step, the rest is LoadAll from k+1 on the updated map. |
| Lifecycle.LoadAllFromUpTo | src/DllManipulator.cs:51-60 | Every DLL from k up to and including the first failing one holds its own load result. |
| Lifecycle.LoadAllFromLeavesRest | src/DllManipulator.cs:51-60 | DLLs after the first failing one are untouched. |
| Lifecycle.LoadAllFromOutcome | src/DllManipulator.cs:51-60 | The outcome is the first failing DLL's failure, or Pass. |
| Lifecycle.LoadAllFromSteps | src/DllManipulator.cs:51-60 | The prefix is untouched; on Pass every DLL holds its load result; on failure there is a first failing DLL, with everything before it loaded and everything after it untouched. |
| Lifecycle.LoadAllStopsAtFirstFailure | src/DllManipulator.cs:51-60 | A failing LoadAll stopped at the first failing DLL, and the DLLs after it were not attempted. |
| Lifecycle.LoadAllSkipsLoaded | src/DllManipulator.cs:53 | Every DLL whose handle is non-zero is left exactly as it was. |
| Lifecycle.LoadAllResolvesUnloaded | src/DllManipulator.cs:53-58 | On normal completion, every function of each previously unloaded DLL has a delegate, and such a DLL is open unless it has no functions. |
| Lifecycle.LoadAllFromSettled | src/DllManipulator.cs:51-60 | LoadAll over DLLs that are open or empty changes nothing and passes. |
| Lifecycle.LoadAllIdempotent | src/DllManipulator.cs:46-66 | After a LoadAll that completed, a second LoadAll, with any loader, changes nothing. |
| Lifecycle.FailedCloses | src/DllManipulator.cs:80-94 | The warnings of the failed closes, in order, at most one per DLL. |
| Lifecycle.UnloadAllFromSteps | src/DllManipulator.cs:76-95 | The DLLs before k are untouched, those from k on are unloaded, and the warnings are the failed closes. |
| Lifecycle.UnloadDllSpec | src/DllManipulator.cs:76-95 | One iteration of UnloadAll on a DLL: a closed DLL is kept; an open one is closed, reset and warned about when the close fails. Its properties are in the UnloadAll rows. |
| Lifecycle.UnloadAllResets | src/DllManipulator.cs:76-95 | Every handle becomes zero and every shape is kept. A loaded DLL has its errors reset and all delegates dropped, even when its close failed. An unloaded DLL is untouched, error flags included. The invariant is kept, and no delegate is left anywhere. |
| Lifecycle.UnloadAllWarnings | src/DllManipulator.cs:80-93 | A failed close only warns. The warnings are exactly the failed closes, and there are none when every close succeeds. |
| Lifecycle.FailedClosesNone | src/DllManipulator.cs:80-93 | With a loader whose closes all succeed, nothing is warned. |
| Lifecycle.FailedClosesOfUnloaded | src/DllManipulator.cs:78 | DLLs that are all unloaded give no warning. |
| Lifecycle.UnloadAllIdempotent | src/DllManipulator.cs:71-101 | A second UnloadAll, with any loader, changes nothing and warns nothing. |
| Lifecycle.IndexOfDll | src/DllManipulator.cs:191 | `_dlls.TryGetValue(name)`: the position of the first DLL with that name, or none when no DLL has it. |
| Lifecycle.RegisterReusesOrCreates | src/DllManipulator.cs:191-203 | A known DLL is reused unchanged, path and load state included, and gains the function at the end; no other DLL changes. An unknown DLL is appended with the given path, unloaded and without errors. Names stay distinct. |
| Lifecycle.RegisterSpec | src/DllManipulator.cs:191-205 | The function joins the DLL of its name, or a new DLL with the given path. Its properties are in the rows around this one. |
| Lifecycle.RegisterPreservesWellFormed | src/DllManipulator.cs:202-203 | Registering a fresh function keeps every DLL well formed. |
| Lifecycle.RegisterTwiceKeepsBoth | src/DllManipulator.cs:184-203 | Registering the same function twice leaves two copies at the end of its DLL's list: there is no de-duplication. |
| Lifecycle.SnapshotAfterUnloadAll | src/DllManipulator.cs:128-140 | After UnloadAll the snapshot reports no DLL as loaded. It keeps names, paths and symbols, and shows the errors of formerly loaded DLLs as reset. |
| Lifecycle.SnapshotAfterLoadAll | src/DllManipulator.cs:128-140 | After a completed LoadAll every DLL that has functions is reported loaded. |
| Lifecycle.InfoOf | src/DllManipulator.cs:132-135 | A DLL's info: name, path, open, the two error flags and the symbols of its functions. Its properties are in the two rows before. |
| Registry.RegistryValidEntries | src/DllManipulator.cs:246-248 | In a valid registry every non-null table entry locates a function. |
| Registry.SameShapesKeepRegistry | src/DllManipulator.cs:76-90 | Changing only load state (handles, error flags, delegates) while keeping every DLL well formed keeps the registry invariant. |
| Registry.RegisterAddsOneLocation | src/DllManipulator.cs:191-203 | Registration adds exactly one location, the new function's. Every older location still names the same function. |
| Registry.RegisterKeepsRegistry | src/DllManipulator.cs:202-206 | Registration with index equal to the old count, plus a table that gains that one entry, keeps the invariant. The new entry locates the new function. |
| Stubs.PathCombineSplits | src/DllManipulator.cs:507 | A combined path is the directory part followed by the file name. |
| Stubs.SameLeadCancels | src/DllManipulator.cs:507 | Equal file paths in the same directory mean equal file names. |
| Stubs.CrashLogPathPerThread | src/DllManipulator.cs:507 | A crash-log path ends in the thread's file name, and distinct threads get distinct files. |
| Stubs.LoadPhase | src/DllManipulator.cs:250-257 | The lazy load keeps shapes, well-formedness and the location. |
| Stubs.CallPhase | src/DllManipulator.cs:259-286 | The call phase leaves the DLLs alone and touches no lock. It calls native code exactly when it succeeds, and then with the located function's delegate, as the last step. |
| Stubs.StubBody | src/DllManipulator.cs:246-286 | A stub body touches no lock and keeps shapes and well-formedness. |
| Stubs.StubSpec | src/DllManipulator.cs:236-301 | The stub with its try/finally around the read lock. Its properties are in the Stubs rows below. |
| Stubs.CrashLogRecord | src/DllManipulator.cs:503-578 | The record written for a registered function, from its symbol, its DLL's name and path and the call. Its properties are in the CrashLog rows. |
| Stubs.NullEntryFails | src/DllManipulator.cs:246-272 | A null table entry throws NullReferenceException and leaves the DLLs and the counter alone. A lazy stub has only tried the load. A preload stub with crash logs has truncated the thread's file and written `function: ` first. A preload stub without crash logs has done nothing. |
| Stubs.StubReleasesLock | src/DllManipulator.cs:236-301 | A thread-safe stub enters the read lock first and exits it last on every path, and touches it nowhere else. Without thread safety the lock is never touched. |
| Stubs.NoCallBefore | src/DllManipulator.cs:250-257 | Steps that call nothing, put in front, change neither whether the steps call native code nor their last step. |
| Stubs.StubCallsOnlyOnSuccess | src/DllManipulator.cs:246-286 | Native code is reached exactly when the stub succeeds. The call, as the last step, goes to the delegate of the function the stub's index locates, after any load. |
| Stubs.PreloadStubLeavesDllsAlone | src/DllManipulator.cs:250 | In Preload mode no load is attempted and the DLLs are unchanged. |
| Stubs.LazyStubLoads | src/DllManipulator.cs:250-257 | A lazy stub performs LoadTargetFunction on the located function. The call goes on exactly when the load succeeds, and a failed load is the exception seen, with the counter unchanged. |
| Stubs.CrashLogPrecedesCall | src/DllManipulator.cs:259-286 | With crash logs on, a call that reaches native code has just written the record to the thread's file, numbered with the old counter, and the counter moves on. With crash logs off nothing is written, not even a partial record, and the counter stays. |
| Stubs.PreloadAfterLoadAll | src/DllManipulator.cs:46-66 | After a completed LoadAll, a preload stub for a function of a DLL that LoadAll opened reaches the native function. |
| Stubs.PreloadAfterUnloadAll | src/DllManipulator.cs:71-101 | After UnloadAll no preload stub reaches native code. |
| CrashLog.CrashLogFileNameHasPrefix | src/DllManipulator.cs:507 | Every crash-log file name starts with `unityNativeCrash_`, the prefix ClearCrashLogs deletes by. |
| CrashLog.CrashLogFileName | src/DllManipulator.cs:507 | `unityNativeCrash_tid{threadId}.log`. Its properties are in the rows beside it. |
| CrashLog.CrashLogFileNameInjective | src/DllManipulator.cs:507 | `unityNativeCrash_tid{threadId}.log` differs for distinct threads. |
| CrashLog.ArgumentLabelShape | src/DllManipulator.cs:531 | The label is `  {i}:` padded with spaces to five characters, so `  {i}: ` for a single digit. |
| CrashLog.ArgumentLines | src/DllManipulator.cs:529-560 | One line per argument. |
| CrashLog.ArgumentsPart | src/DllManipulator.cs:521-561 | The arguments section has one title line plus one line per argument. |
| CrashLog.ArgumentsPartLines | src/DllManipulator.cs:521-561 | The title is `arguments: no arguments` for no arguments and `arguments: ` otherwise. Line 1+i is the label of i followed by the rendering of argument i. |
| CrashLog.RecordLayout | src/DllManipulator.cs:512-578 | A record is the function, the DLL and its path, the arguments section, the thread, the call index, then `stack trace:` and the trace when enabled. Its length is 6 + n, plus 2 with a stack trace. |
| CrashLog.RecordLines | src/DllManipulator.cs:503-578 | The lines WriteNativeCrashLog writes, in order. Its properties are in the rows beside it. |
| CrashLog.RecordRendering | src/DllManipulator.cs:533-567 | The main thread reads `unity main thread`, a null argument `null`, and a string argument is quoted. |
| CrashLog.Increment32 | src/DllManipulator.cs:569 | Unchecked 32-bit increment stays a 32-bit value. |
| CrashLog.Decrement32 | src/DllManipulator.cs:569 | Unchecked 32-bit decrement stays a 32-bit value. |
| CrashLog.NextCallIndexIsPrevious | src/DllManipulator.cs:569 | The index written is the counter's value before the increment. The counter moves on by one, and wraps from the largest to the smallest value. |
| CrashLog.CounterAfter | src/DllManipulator.cs:569 | The counter after n records is a 32-bit value. |
| CrashLog.CallIndexCountsRecords | src/DllManipulator.cs:569 | Below 2^31 records, the record written n-th carries call index n: the number of records before it. |
| NativeFunctions.IdentityEquals | src/NativeFunction.cs:16-24 | Equals holds iff the object is an identity with the same symbol and DLL name; it is false for any other object. |
| NativeFunctions.IdentityEqualsReflexive | src/NativeFunction.cs:20 | Identity equality is reflexive. |
| NativeFunctions.IdentityEqualsSymmetric | src/NativeFunction.cs:20 | Identity equality is symmetric. |
| NativeFunctions.IdentityEqualsTransitive | src/NativeFunction.cs:20 | Identity equality is transitive. |
| NativeFunctions.IdentityHashCode | src/NativeFunction.cs:26-32 | The two string hashes mixed by MixHashes. Its properties are in the rows after. |
| NativeFunctions.RotateLeftFiveIsRotation | src/NativeFunction.cs:30 | The shift-and-or expression is a 32-bit left rotation by 5. |
| NativeFunctions.MixHashesInjectiveInSecond | src/NativeFunction.cs:31 | For a fixed symbol hash, distinct DLL-name hashes give distinct hashes. |
| NativeFunctions.MixHashesExamples | src/NativeFunction.cs:28-31 | Concrete values of `(rotl32(h1,5) + h1) xor h2`, wrap-around included. |
| NativeFunctions.EqualIdentitiesHashAlike | src/NativeFunction.cs:26-32 | Equal identities have equal hash codes. |
| NativeFunctions.NewNativeFunction | src/NativeFunction.cs:43-47 | A function with no delegate, no delegate type and index -1. Its use is in the registration rows. |
| Signatures.SupportedOnly | src/NativeFunctionSignature.cs:66-68 | The filter keeps exactly the attributes of a supported type (MarshalAs, In, Out). |
| Signatures.SupportedOnlyConcat | src/NativeFunctionSignature.cs:66-68 | The filter distributes over concatenation, so the original order is kept. |
| Signatures.SupportedOnlyKeepsSupported | src/NativeFunctionSignature.cs:66-68 | A list of supported attributes is kept whole. |
| Signatures.SupportedOnlyDropsUnsupported | src/NativeFunctionSignature.cs:66-68 | A list without a supported attribute becomes empty. |
| Signatures.ParameterSignatureOf | src/NativeFunctionSignature.cs:62-69 | Type, flags and the supported custom attributes of a parameter. Its properties are in the rows before and after. |
| Signatures.SignatureOf | src/NativeFunctionSignature.cs:19-28 | The signature constructor. Its properties are in the next row. |
| Signatures.ParameterSignaturesOf | src/NativeFunctionSignature.cs:22 | One parameter signature per parameter, in order. |
| Signatures.SignatureOfShape | src/NativeFunctionSignature.cs:19-28 | The constructor builds the return parameter's signature and one per parameter, in order, and copies the five marshaling fields verbatim. The return parameter's signature keeps the return type, its flags and its parameter attributes. |
| Signatures.Except | src/NativeFunctionSignature.cs:84 | LINQ `Except` on attribute lists. Its properties are in the next row. |
| Signatures.ParameterEquals | src/NativeFunctionSignature.cs:78-85 | Parameter Equals as written. Its properties are in the rows after. |
| Signatures.ExceptMembers | src/NativeFunctionSignature.cs:84 | An attribute is in `Except(first, second)` exactly when it is in `first` and not in `second`. |
| Signatures.ParameterEqualsMeaning | src/NativeFunctionSignature.cs:78-85 | Parameter Equals holds iff the object is a parameter signature with the same type and flags, and some attribute of this one is missing from the other's. |
| Signatures.ParameterEqualsIrreflexive | src/NativeFunctionSignature.cs:84 | No parameter signature is Equal to itself. |
| Signatures.ParameterWithoutAttributesNeverEqual | src/NativeFunctionSignature.cs:84 | A parameter without custom attributes is Equal to nothing. |
| Signatures.ParameterEqualsAsymmetricExample | src/NativeFunctionSignature.cs:84 | Parameter equality is not symmetric. |
| Signatures.ParameterEqualsIntendedMeaning | src/NativeFunctionSignature.cs:84 | The corrected parameter equality holds iff type, flags and the sets of attributes agree. |
| Signatures.ParameterEqualsIntendedIsEquivalence | src/NativeFunctionSignature.cs:84 | The corrected parameter equality is reflexive, symmetric and transitive. |
| Signatures.SequenceEqual | src/NativeFunctionSignature.cs:34 | LINQ `SequenceEqual` with parameter Equals. Its properties are in the next row. |
| Signatures.SignatureEquals | src/NativeFunctionSignature.cs:30-40 | Signature Equals. Its properties are in the rows after. |
| Signatures.SequenceEqualMeaning | src/NativeFunctionSignature.cs:34 | SequenceEqual holds iff the lengths agree and the parameters are pairwise Equal, in order. |
| Signatures.SignatureEqualsMeaning | src/NativeFunctionSignature.cs:30-40 | Signature Equals holds iff the return parameters are Equal, the parameter lists are pairwise Equal with equal length, and the five marshaling fields match. |
| Signatures.SignatureEqualsIrreflexive | src/NativeFunctionSignature.cs:30-40 | No signature is Equal to itself. |
| Signatures.PlainReturnNeverEqual | src/NativeFunctionSignature.cs:30-40 | A signature whose return parameter has no supported attribute is Equal to nothing. |
| StringExtensions.TrimStart | src/StringExtensions.cs:7-17 | The loop over the patterns computes TrimStartAll: each pattern, in order, is stripped once if the current string starts with it. |
| StringExtensions.TrimStartStep | src/StringExtensions.cs:11-13 | One pattern of TrimStart. Its properties are in the rows after. |
| StringExtensions.TrimStartIsSuffix | src/StringExtensions.cs:7-17 | The result is a suffix of the input, no longer than it. |
| StringExtensions.TrimStartNoMatch | src/StringExtensions.cs:7-17 | With no pattern matching, and with no patterns at all, the input is returned. |
| StringExtensions.TrimStartStepStrips | src/StringExtensions.cs:11-13 | A matching pattern followed by the result gives back the string. An empty pattern changes nothing. |
| StringExtensions.TrimEnd | src/StringExtensions.cs:20-31 | The loop over the patterns computes TrimEndAll, as written, including its failure. |
| StringExtensions.TrimEndStep | src/StringExtensions.cs:24-27 | One pattern of TrimEnd, as written. Its properties are in the rows after. |
| StringExtensions.TrimEndFailureSticks | src/StringExtensions.cs:20-31 | Once a step throws, the whole call throws. |
| StringExtensions.TrimEndStepRemovesOneMore | src/StringExtensions.cs:24-27 | On a match, the first `len - |s| - 1` characters are kept, one fewer than the suffix leaves. A string exactly as long as the pattern throws. |
| StringExtensions.TrimEndIsPrefix | src/StringExtensions.cs:20-31 | A result that does not throw is a prefix of the input. |
| StringExtensions.TrimEndNoMatch | src/StringExtensions.cs:20-31 | With no pattern matching, the input is returned unchanged. |
| StringExtensions.TrimEndFailsOnWholeString | src/StringExtensions.cs:26 | The string equal to the pattern, and the empty string with the empty pattern, throw. |
| StringExtensions.TrimEndEmptyPattern | src/StringExtensions.cs:24-26 | The empty pattern removes one character. |
| StringExtensions.TrimEndLosesLastCharacter | src/StringExtensions.cs:24-27 | `(x + s).TrimEnd(s)` is `x` without its last character, and throws when `x` is empty. |
| StringExtensions.TrimEndExample | src/StringExtensions.cs:24-27 | `"libfoo.so".TrimEnd(".so")` is `"libfo"`. |
| StringExtensions.TrimEndIntendedStep | src/StringExtensions.cs:24-27 | The corrected step removes exactly a matching suffix and never throws. |
| StringExtensions.TrimEndIntendedStripsSuffix | src/StringExtensions.cs:20-31 | The corrected `(x + s).TrimEnd(s)` is `x`. |
| StringExtensions.TrimEndIntendedIsPrefix | src/StringExtensions.cs:20-31 | The corrected result is a prefix of the input. |
| ClrString.Remove | src/StringExtensions.cs:26 | `String.Remove(i)` succeeds iff `0 <= i < length`, and then keeps exactly the first `i` characters. |
| ClrString.StartsWith | src/StringExtensions.cs:11 | Ordinal prefix test. Its use is in the TrimStart rows. |
| ClrString.EndsWith | src/StringExtensions.cs:24 | Ordinal suffix test. Its use is in the TrimEnd rows. |
| ClrString.Replace | src/DllManipulator.cs:166-168 | Ordinal `String.Replace`, left to right and without overlap. Its properties are in the next two rows. |
| ClrString.ReplaceAbsent | src/DllManipulator.cs:166-168 | Replacing a value that does not occur changes nothing. |
| ClrString.ReplaceBySelf | src/DllManipulator.cs:166-168 | Replacing a value by itself changes nothing. |
| ClrString.PadRight | src/DllManipulator.cs:531 | The text is kept and padded with spaces to the width. |
| ClrString.NatToString | src/DllManipulator.cs:571 | The decimal rendering is non-empty and made of digits. |
| ClrString.IntToString | src/DllManipulator.cs:571 | Decimal rendering of an integer, with `-` for negatives. Its properties are in the rows after. |
| ClrString.ParseNatToString | src/DllManipulator.cs:571 | The decimal rendering reads back to the number. |
| ClrString.IntToStringSign | src/DllManipulator.cs:571 | A rendering starts with `-` exactly for negative numbers. |
| ClrString.IntToStringInjective | src/DllManipulator.cs:507 | Distinct integers render differently. |

## Left out

- The operating-system loader is not modelled. `SysLoadDll`, `SysGetDllProcAddress` and `SysUnloadDll` (src/DllManipulator.cs:583-614) become a `Loader` value of three oracle functions passed to each call: open may fail (0), lookup may fail (0), and close returns a bool. src/PInvokes.cs is not part of this model.
- Runtime code generation and detouring are not modelled. This covers the IL emission itself, `EmitNativeFunctionCall`, `PrepareDynamicMethod`, `MockNativeFunction`, `Memory.*` and the reflection caches; only a stub's control flow is modelled.
  - A stub is a `Stub` value: its table index and three option flags.
  - Its run is a sequence of steps: lock, load, crash-log write, native call.
- Delegate types are not built with reflection. `CreateDelegateTypeForNativeFunctionSignature` is modelled only as allocating `HelperNativeDelegate{n}` from the counter; the marshaling attributes it emits are left out.
- `NativeFunctionSignature.GetHashCode` mixes runtime reference hashes of the arrays each signature object allocates, so it is not a function of the signature's value. Each registration therefore takes its probe's hash as a parameter (`signatureHash` of `GetNativeFunctionMockMethod`), and each cache entry keeps the masked hash stored when it was added, as the Dictionary does. The string hash used by `NativeFunctionIdentity.GetHashCode` is a parameter too.
- Locks and atomics are sequential. `ReaderWriterLockSlim` becomes a count of read locks held. The write lock taken by `LoadAll` and `UnloadAll` has no effect in a sequential model. `Interlocked.Increment` is a plain unchecked 32-bit increment.
- File I/O is left out. `WriteNativeCrashLog` returns its file path and lines instead of writing them, and `ClearCrashLogs` (src/DllManipulator.cs:110-123) is not modelled. A file-system failure part-way through a record is not modelled.
- Text rendered by the runtime is taken as given. Invariant-culture formatting of float, double and decimal arguments, `ToString` of other arguments, the stack-trace text and the thread name are all input text.
- `Path.Combine` is modelled only for the `/` separator, and only for a relative file name.
- `FindNativeFunctionsToMock` (attribute reflection over assemblies) is not modelled. `DllManipulatorScript`, the editor code, `LowLevelPluginManager`, `DllCallbacks`, the attribute declarations and `DefaultIgnoredDllPaths` are not part of this model. src/DllPathResolver.cs, the only caller of `TrimEnd`, is not part of this model either.
- The `NativeDll` class declaration is not part of the modelled files. Its fields (name, path, handle, loadingError, symbolError, functions) and its constructor are inferred from their uses.
- StringExtensions.TrimStart: prefix matching is modelled as ordinal `StartsWith`. The source calls the current-culture overload, whose ignorable characters (such as U+00AD) are not modelled.
- StringExtensions.TrimEnd: suffix matching is modelled as ordinal `EndsWith`. The current-culture overload the source calls is not modelled.
- CrashLog.CrashLogFileNameHasPrefix: the prefix is checked ordinally. `ClearCrashLogs` itself is not modelled.
- Shared objects are replaced by values plus locations.
  - In the source, `_dlls`, a DLL's `functions` list and `_nativeFunctions` share the same `NativeFunction` objects by reference. Here a NativeFunction is a value inside its DLL, and the table holds its location (`FunctionRef`).
  - The back-pointer `containingDll` is represented by that location.
  - Aliasing is therefore captured only through locations; update in place of a shared object is not modelled.
  - `Manipulator.DllManipulator.RegisterNativeFunction` sets `index` and `delegateType` before the function joins its DLL, not after. Nothing reads them in between.
- `_dlls` is a `Dictionary`; its enumeration order is modelled as insertion order, which is what it gives when nothing is removed.
- `Manipulator.DllManipulator.AddNativeFunction` does not model the 32-bit overflow of `_nativeFunctions.Length * 2` or of the count, which would need over 2^30 registered functions.
- `Manipulator.DllManipulator.GetNativeFunctionMockMethod`: the lookup in `_nativeFunctionMocks` (src/DllManipulator.cs:184) always misses, since nothing writes that cache. The method is therefore modelled as always registering. Only the bookkeeping of the `DynamicMethod` it builds is kept: the stub's index and flags.
- `Manipulator.DllManipulator.ForgetAllDlls` does not unload the DLLs it forgets, exactly as the source.
- `NativeFunctions.NewNativeFunction` and `NativeFunctions.NewNativeDll` are the constructors' defaults (no delegate, no delegate type, index -1; handle zero, no errors, no functions). They carry no contract of their own. The readonly `identity` is kept by every operation, which `Lifecycle.SameShape` states.

## Findings

| source | as written | input that shows it | evidently intended | confidence | as-written member | corrected member |
|---|---|---|---|---|---|---|
| src/StringExtensions.cs:24-27 | On a match, `str.Remove(str.Length - s.Length - 1)` removes the suffix and one more character. It throws when the string is exactly as long as the pattern. | `"libfoo.so".TrimEnd(".so")` gives `"libfo"`; `"".TrimEnd("")` and `".so".TrimEnd(".so")` throw | `str.Remove(str.Length - s.Length)`: remove exactly the matching suffix | not executed | StringExtensions.TrimEndLosesLastCharacter | StringExtensions.TrimEndIntendedStripsSuffix |
| src/NativeFunctionSignature.cs:84 | `customAttributes.Except(other.customAttributes).Any()` is true only when this parameter has an attribute the other lacks. Equals is therefore irreflexive and asymmetric, and the delegate-type cache never finds a stored signature by itself. | any parameter signature compared with itself, e.g. `int` with no custom attributes | "the arrays have the same elements": neither `Except` has any element | not executed | Signatures.ParameterEqualsIrreflexive | Signatures.ParameterEqualsIntendedIsEquivalence |

The rest of the model deliberately keeps the code as written. The delegate-type
cache uses the as-written equality, since that is the behaviour of the program,
and `StringExtensions.TrimEnd` models the off-by-one. The corrected definitions
stand beside them with their intended properties proved.
