/**
 * The load/unload state machine of the DLL registry, stated on values: what the
 * registry knows about one DLL and its functions, and what LoadTargetFunction,
 * LoadAll, UnloadAll and GetUsedDllsInfos do to it. The registry class proves its
 * methods against these functions; the properties are proved here.
 */
module Lifecycle {
  import opened Wrappers
  import opened NativeFunctions

  /**
   * The operating system's loader (LoadLibrary/GetProcAddress/FreeLibrary or
   * dlopen/dlsym/dlclose): `open(path)` yields a handle or 0, `lookup(handle,
   * symbol)` a function pointer or 0, and `close(handle)` whether unloading
   * succeeded.
   */
  datatype Loader = Loader(open: string -> nat, lookup: (nat, string) -> nat, close: nat -> bool)

  /** The two `NativeDllException`s LoadTargetFunction throws. */
  datatype NativeDllError =
    | DllLoadFailed(dllName: string, dllPath: string)
    | SymbolNotFound(symbol: string, dllName: string, dllPath: string)

  /** The warning UnloadAll logs when closing a DLL fails. */
  datatype UnloadWarning = UnloadWarning(dllName: string, dllPath: string)

  /**
   * What the registry keeps true of each registered function: a delegate exists
   * only while its DLL is loaded, the delegate type has been chosen, and the
   * identity names the DLL that holds it.
   */
  predicate FunctionWellFormed(d: NativeDll, f: NativeFunction) {
    && (f.delegate.Some? ==> d.handle != 0)
    && f.delegateType.Some?
    && f.identity.containingDllName == d.name
  }

  predicate WellFormedDll(d: NativeDll) {
    forall p :: 0 <= p < |d.functions| ==> FunctionWellFormed(d, d.functions[p])
  }

  predicate AllWellFormed(vs: seq<NativeDll>) {
    forall i :: 0 <= i < |vs| ==> WellFormedDll(vs[i])
  }

  /** Same DLL and same functions, whatever the load state. */
  predicate SameShape(a: NativeDll, b: NativeDll) {
    && a.name == b.name && a.path == b.path && |a.functions| == |b.functions|
    && forall p :: 0 <= p < |a.functions| ==>
         && a.functions[p].identity == b.functions[p].identity
         && a.functions[p].delegateType == b.functions[p].delegateType
         && a.functions[p].index == b.functions[p].index
  }

  // ------------------------------------------------------------------ loading

  /**
   * LoadTargetFunction for the `j`-th function of `d`: opens the DLL when its
   * handle is zero, then resolves the symbol when the delegate is null.
   */
  function LoadFunctionSpec(d: NativeDll, j: nat, loader: Loader): (r: (NativeDll, Outcome<NativeDllError>))
    requires j < |d.functions| && WellFormedDll(d)
    ensures WellFormedDll(r.0) && SameShape(r.0, d)
  {
    if d.handle == 0 && loader.open(d.path) == 0 then
      (d.(loadingError := true), Fail(DllLoadFailed(d.name, d.path)))
    else
      var withHandle := if d.handle == 0 then d.(handle := loader.open(d.path)) else d;
      var f := withHandle.functions[j];
      if f.delegate.Some? then (withHandle, Pass)
      else
        var pointer := loader.lookup(withHandle.handle, f.identity.symbol);
        if pointer == 0 then
          (withHandle.(symbolError := true), Fail(SymbolNotFound(f.identity.symbol, d.name, d.path)))
        else
          var loaded := f.(delegate := Some(Delegate(pointer, f.delegateType.value)));
          (withHandle.(functions := withHandle.functions[j := loaded]), Pass)
  }

  /** The inner loop of LoadAll: the functions of one DLL from position `j`, stopping at the first failure. */
  function LoadFunctionsFrom(d: NativeDll, j: nat, loader: Loader): (r: (NativeDll, Outcome<NativeDllError>))
    requires j <= |d.functions| && WellFormedDll(d)
    ensures WellFormedDll(r.0) && SameShape(r.0, d)
    decreases |d.functions| - j
  {
    if j == |d.functions| then (d, Pass)
    else
      var step := LoadFunctionSpec(d, j, loader);
      if step.1.Fail? then step else LoadFunctionsFrom(step.0, j + 1, loader)
  }

  /** One iteration of LoadAll's outer loop: a DLL with a non-zero handle is skipped. */
  function LoadDllSpec(d: NativeDll, loader: Loader): (r: (NativeDll, Outcome<NativeDllError>))
    requires WellFormedDll(d)
    ensures WellFormedDll(r.0) && SameShape(r.0, d)
  {
    if d.handle != 0 then (d, Pass) else LoadFunctionsFrom(d, 0, loader)
  }

  /** LoadAll from the `k`-th DLL on; the first failure ends the iteration. */
  function LoadAllFrom(vs: seq<NativeDll>, k: nat, loader: Loader): (r: (seq<NativeDll>, Outcome<NativeDllError>))
    requires k <= |vs| && AllWellFormed(vs)
    ensures |r.0| == |vs| && AllWellFormed(r.0)
    ensures forall i :: 0 <= i < |vs| ==> SameShape(r.0[i], vs[i])
    decreases |vs| - k
  {
    if k == |vs| then (vs, Pass)
    else
      var step := LoadDllSpec(vs[k], loader);
      if step.1.Fail? then (vs[k := step.0], step.1) else LoadAllFrom(vs[k := step.0], k + 1, loader)
  }

  function LoadAllSpec(vs: seq<NativeDll>, loader: Loader): (seq<NativeDll>, Outcome<NativeDllError>)
    requires AllWellFormed(vs)
  {
    LoadAllFrom(vs, 0, loader)
  }

  /**
   * The cases of LoadTargetFunction: the DLL is opened only when its handle is
   * zero and the symbol resolved only when the delegate is null; a failed open
   * sets `loadingError` and leaves the handle zero; a failed lookup sets
   * `symbolError` and leaves the delegate null; it succeeds exactly when both the
   * handle and the delegate end up set. No other function changes.
   */
  lemma LoadFunctionCases(d: NativeDll, j: nat, loader: Loader)
    requires j < |d.functions| && WellFormedDll(d)
    ensures var r := LoadFunctionSpec(d, j, loader);
      && (d.handle != 0 ==> r.0.handle == d.handle && !(r.1.Fail? && r.1.error.DllLoadFailed?))
      && (d.handle == 0 && loader.open(d.path) == 0 ==>
            r == (d.(loadingError := true), Fail(DllLoadFailed(d.name, d.path))))
      && (d.handle != 0 && d.functions[j].delegate.Some? ==> r == (d, Pass))
      && (r.1.Fail? && r.1.error.SymbolNotFound? ==>
            r.0.symbolError && r.0.handle != 0 && r.0.functions[j].delegate.None?)
      && (r.1 == Pass <==> r.0.handle != 0 && r.0.functions[j].delegate.Some?)
      && (r.1 == Pass && d.functions[j].delegate.None? ==>
            r.0.functions[j].delegate == Some(Delegate(loader.lookup(r.0.handle, d.functions[j].identity.symbol),
                                                       d.functions[j].delegateType.value)))
      && (forall p :: 0 <= p < |d.functions| && p != j ==> r.0.functions[p] == d.functions[p])
  {
  }

  /** Loading never drops a delegate that is already resolved, and never closes a DLL. */
  lemma LoadFunctionKeeps(d: NativeDll, j: nat, loader: Loader)
    requires j < |d.functions| && WellFormedDll(d)
    ensures var r := LoadFunctionSpec(d, j, loader);
      && (d.handle != 0 ==> r.0.handle == d.handle)
      && (forall p :: 0 <= p < |d.functions| && d.functions[p].delegate.Some? ==>
            r.0.functions[p].delegate == d.functions[p].delegate)
  {
  }

  /**
   * What the inner loop achieves: functions before `j` are untouched, and on
   * success every function from `j` on has a delegate and the DLL is open.
   */
  lemma {:induction false} LoadFunctionsFromResolves(d: NativeDll, j: nat, loader: Loader)
    requires j <= |d.functions| && WellFormedDll(d)
    ensures var r := LoadFunctionsFrom(d, j, loader);
      && (forall p :: 0 <= p < j ==> r.0.functions[p] == d.functions[p])
      && (r.1 == Pass ==> forall p :: j <= p < |d.functions| ==> r.0.functions[p].delegate.Some?)
      && (r.1 == Pass && j < |d.functions| ==> r.0.handle != 0)
      && (d.handle != 0 ==> r.0.handle == d.handle)
    decreases |d.functions| - j
  {
    if j < |d.functions| {
      var step := LoadFunctionSpec(d, j, loader);
      LoadFunctionCases(d, j, loader);
      if step.1 == Pass {
        LoadFunctionsFromResolves(step.0, j + 1, loader);
        LoadFunctionKeeps(d, j, loader);
        var r := LoadFunctionsFrom(step.0, j + 1, loader);
        assert r == LoadFunctionsFrom(d, j, loader);
        assert r.0.functions[j] == step.0.functions[j];
        assert step.0.handle != 0;
      }
    }
  }

  /**
   * LoadAll is the per-DLL load applied in order. On normal completion every DLL
   * was loaded successfully. After a failure there is a first failing DLL `m`:
   * the DLLs before it were loaded, the exception is its, and no later DLL was
   * touched. DLLs before `k` are not touched at all.
   */
  lemma LoadAllFromSteps(vs: seq<NativeDll>, k: nat, loader: Loader)
    requires k <= |vs| && AllWellFormed(vs)
    ensures var r := LoadAllFrom(vs, k, loader);
      && (forall i :: 0 <= i < k ==> r.0[i] == vs[i])
      && (r.1 == Pass ==> forall i :: k <= i < |vs| ==>
            r.0[i] == LoadDllSpec(vs[i], loader).0 && LoadDllSpec(vs[i], loader).1 == Pass)
      && (r.1.Fail? ==> exists m :: k <= m < |vs| && FirstFailure(vs, r, m, k, loader))
  {
    var r := LoadAllFrom(vs, k, loader);
    var m := FirstFailing(vs, k, loader);
    LoadAllFromKeepsPrefix(vs, k, loader);
    LoadAllFromUpTo(vs, k, loader);
    LoadAllFromLeavesRest(vs, k, loader);
    LoadAllFromOutcome(vs, k, loader);
    FirstFailingIsFirst(vs, k, loader);
    if r.1.Fail? {
      assert FirstFailure(vs, r, m, k, loader);
    }
  }

  /** `m` is the DLL whose failure stopped LoadAll started at `k`. */
  predicate FirstFailure(vs: seq<NativeDll>, r: (seq<NativeDll>, Outcome<NativeDllError>), m: nat, k: nat, loader: Loader)
    requires k <= m < |vs| && |r.0| == |vs| && AllWellFormed(vs)
  {
    && r.1 == LoadDllSpec(vs[m], loader).1 && r.1.Fail?
    && r.0[m] == LoadDllSpec(vs[m], loader).0
    && (forall i :: k <= i < m ==> r.0[i] == LoadDllSpec(vs[i], loader).0 && LoadDllSpec(vs[i], loader).1 == Pass)
    && (forall i :: m < i < |vs| ==> r.0[i] == vs[i])
  }

  /** The first DLL from `k` on whose load fails, or `|vs|` when none does. */
  function FirstFailing(vs: seq<NativeDll>, k: nat, loader: Loader): (m: nat)
    requires k <= |vs| && AllWellFormed(vs)
    ensures k <= m <= |vs|
    decreases |vs| - k
  {
    if k == |vs| || LoadDllSpec(vs[k], loader).1.Fail? then k else FirstFailing(vs, k + 1, loader)
  }

  /** Every load before FirstFailing passes, and the load at it fails. */
  lemma {:induction false} FirstFailingIsFirst(vs: seq<NativeDll>, k: nat, loader: Loader)
    requires k <= |vs| && AllWellFormed(vs)
    ensures var m := FirstFailing(vs, k, loader);
      && (forall i :: k <= i < m ==> LoadDllSpec(vs[i], loader).1 == Pass)
      && (m < |vs| ==> LoadDllSpec(vs[m], loader).1.Fail?)
    decreases |vs| - k
  {
    if k < |vs| && LoadDllSpec(vs[k], loader).1 == Pass {
      FirstFailingIsFirst(vs, k + 1, loader);
    }
  }

  /** FirstFailing from `k` only looks at the DLLs from `k` on. */
  lemma {:induction false} FirstFailingOfSuffix(vs: seq<NativeDll>, ws: seq<NativeDll>, k: nat, loader: Loader)
    requires k <= |vs| == |ws| && AllWellFormed(vs) && AllWellFormed(ws)
    requires forall i :: k <= i < |vs| ==> vs[i] == ws[i]
    ensures FirstFailing(vs, k, loader) == FirstFailing(ws, k, loader)
    decreases |vs| - k
  {
    if k < |vs| {
      assert vs[k] == ws[k];
      FirstFailingOfSuffix(vs, ws, k + 1, loader);
    }
  }

  /** LoadAll from `k` does not touch the DLLs before `k`. */
  lemma {:induction false} LoadAllFromKeepsPrefix(vs: seq<NativeDll>, k: nat, loader: Loader)
    requires k <= |vs| && AllWellFormed(vs)
    ensures forall i :: 0 <= i < k ==> LoadAllFrom(vs, k, loader).0[i] == vs[i]
    decreases |vs| - k
  {
    if k < |vs| {
      var step := LoadDllSpec(vs[k], loader);
      if step.1 == Pass {
        LoadAllFromKeepsPrefix(vs[k := step.0], k + 1, loader);
      }
    }
  }

  /** One successful step of LoadAll from `k`: the rest is LoadAll from `k + 1` on the updated map. */
  lemma LoadAllFromPassStep(vs: seq<NativeDll>, k: nat, loader: Loader)
    requires k < |vs| && AllWellFormed(vs) && LoadDllSpec(vs[k], loader).1 == Pass
    ensures var next := vs[k := LoadDllSpec(vs[k], loader).0];
      && LoadAllFrom(vs, k, loader) == LoadAllFrom(next, k + 1, loader)
      && FirstFailing(vs, k, loader) == FirstFailing(next, k + 1, loader)
      && LoadAllFrom(vs, k, loader).0[k] == LoadDllSpec(vs[k], loader).0
      && forall i :: k < i < |vs| ==> next[i] == vs[i]
  {
    var next := vs[k := LoadDllSpec(vs[k], loader).0];
    FirstFailingOfSuffix(vs, next, k + 1, loader);
    LoadAllFromKeepsPrefix(next, k + 1, loader);
  }

  /** LoadAll from `k` loads every DLL from `k` up to and including the first failing one. */
  lemma {:induction false} LoadAllFromUpTo(vs: seq<NativeDll>, k: nat, loader: Loader)
    requires k <= |vs| && AllWellFormed(vs)
    ensures var r := LoadAllFrom(vs, k, loader);
      forall i :: k <= i <= FirstFailing(vs, k, loader) && i < |vs| ==> r.0[i] == LoadDllSpec(vs[i], loader).0
    decreases |vs| - k
  {
    if k < |vs| && LoadDllSpec(vs[k], loader).1 == Pass {
      LoadAllFromPassStep(vs, k, loader);
      LoadAllFromUpTo(vs[k := LoadDllSpec(vs[k], loader).0], k + 1, loader);
    }
  }

  /** LoadAll from `k` leaves every DLL after the first failing one untouched. */
  lemma {:induction false} LoadAllFromLeavesRest(vs: seq<NativeDll>, k: nat, loader: Loader)
    requires k <= |vs| && AllWellFormed(vs)
    ensures var r := LoadAllFrom(vs, k, loader);
      forall i :: FirstFailing(vs, k, loader) < i < |vs| ==> r.0[i] == vs[i]
    decreases |vs| - k
  {
    if k < |vs| && LoadDllSpec(vs[k], loader).1 == Pass {
      LoadAllFromPassStep(vs, k, loader);
      LoadAllFromLeavesRest(vs[k := LoadDllSpec(vs[k], loader).0], k + 1, loader);
    }
  }

  /** The outcome of LoadAll from `k` is the first failing DLL's failure, or Pass when there is none. */
  lemma {:induction false} LoadAllFromOutcome(vs: seq<NativeDll>, k: nat, loader: Loader)
    requires k <= |vs| && AllWellFormed(vs)
    ensures var m := FirstFailing(vs, k, loader);
      LoadAllFrom(vs, k, loader).1 == if m < |vs| then LoadDllSpec(vs[m], loader).1 else Pass
    decreases |vs| - k
  {
    if k < |vs| && LoadDllSpec(vs[k], loader).1 == Pass {
      LoadAllFromPassStep(vs, k, loader);
      LoadAllFromOutcome(vs[k := LoadDllSpec(vs[k], loader).0], k + 1, loader);
    }
  }

  /** The first failure propagates and stops the remaining iteration. */
  lemma LoadAllStopsAtFirstFailure(vs: seq<NativeDll>, loader: Loader)
    requires AllWellFormed(vs)
    ensures var r := LoadAllSpec(vs, loader);
      r.1.Fail? ==> exists m :: 0 <= m < |vs| && FirstFailure(vs, r, m, 0, loader)
  {
    LoadAllFromSteps(vs, 0, loader);
  }

  /** LoadAll leaves every DLL whose handle is non-zero as it was. */
  lemma LoadAllSkipsLoaded(vs: seq<NativeDll>, loader: Loader)
    requires AllWellFormed(vs)
    ensures forall i :: 0 <= i < |vs| && vs[i].handle != 0 ==> LoadAllSpec(vs, loader).0[i] == vs[i]
  {
    LoadAllFromSteps(vs, 0, loader);
    var r := LoadAllSpec(vs, loader);
    if r.1.Fail? {
      var m :| 0 <= m < |vs| && FirstFailure(vs, r, m, 0, loader);
    }
  }

  /**
   * On normal completion, every function of each DLL that was not loaded has a
   * delegate, and each such DLL is open unless it has no functions.
   */
  lemma LoadAllResolvesUnloaded(vs: seq<NativeDll>, loader: Loader)
    requires AllWellFormed(vs)
    ensures var r := LoadAllSpec(vs, loader);
      r.1 == Pass ==> forall i :: 0 <= i < |vs| && vs[i].handle == 0 ==>
        && (r.0[i].handle != 0 || r.0[i].functions == [])
        && (forall p :: 0 <= p < |r.0[i].functions| ==> r.0[i].functions[p].delegate.Some?)
  {
    LoadAllFromSteps(vs, 0, loader);
    var r := LoadAllSpec(vs, loader);
    if r.1 == Pass {
      forall i | 0 <= i < |vs| && vs[i].handle == 0
        ensures r.0[i].handle != 0 || r.0[i].functions == []
        ensures forall p :: 0 <= p < |r.0[i].functions| ==> r.0[i].functions[p].delegate.Some?
      {
        LoadFunctionsFromResolves(vs[i], 0, loader);
      }
    }
  }

  /** A DLL that is open, or that has no functions, is left alone by LoadAll. */
  predicate Settled(d: NativeDll) {
    d.handle != 0 || d.functions == []
  }

  lemma {:induction false} LoadAllFromSettled(vs: seq<NativeDll>, k: nat, loader: Loader)
    requires k <= |vs| && AllWellFormed(vs)
    requires forall i :: k <= i < |vs| ==> Settled(vs[i])
    ensures LoadAllFrom(vs, k, loader) == (vs, Pass)
    decreases |vs| - k
  {
    if k < |vs| {
      assert LoadDllSpec(vs[k], loader) == (vs[k], Pass);
      assert vs[k := vs[k]] == vs;
      LoadAllFromSettled(vs, k + 1, loader);
    }
  }

  /** After a LoadAll that completed, a second LoadAll (with any loader) changes nothing. */
  lemma LoadAllIdempotent(vs: seq<NativeDll>, loader: Loader, later: Loader)
    requires AllWellFormed(vs)
    ensures var r := LoadAllSpec(vs, loader);
      r.1 == Pass ==> LoadAllSpec(r.0, later) == (r.0, Pass)
  {
    var r := LoadAllSpec(vs, loader);
    if r.1 == Pass {
      LoadAllSkipsLoaded(vs, loader);
      LoadAllResolvesUnloaded(vs, loader);
      LoadAllFromSettled(r.0, 0, later);
    }
  }

  // ---------------------------------------------------------------- unloading

  /** One iteration of UnloadAll: a loaded DLL is closed, reset and its delegates dropped. */
  function UnloadDllSpec(d: NativeDll, loader: Loader): (NativeDll, Option<UnloadWarning>) {
    if d.handle == 0 then (d, None)
    else
      var cleared := seq(|d.functions|, p requires 0 <= p < |d.functions| => d.functions[p].(delegate := None));
      (d.(handle := 0, loadingError := false, symbolError := false, functions := cleared),
       if loader.close(d.handle) then None else Some(UnloadWarning(d.name, d.path)))
  }

  /** UnloadAll from the `k`-th DLL on, `warnings` holding what was logged so far. */
  function UnloadAllFrom(vs: seq<NativeDll>, k: nat, loader: Loader, warnings: seq<UnloadWarning>)
    : (seq<NativeDll>, seq<UnloadWarning>)
    requires k <= |vs|
    decreases |vs| - k
  {
    if k == |vs| then (vs, warnings)
    else
      var step := UnloadDllSpec(vs[k], loader);
      UnloadAllFrom(vs[k := step.0], k + 1, loader, warnings + (if step.1.Some? then [step.1.value] else []))
  }

  function UnloadAllSpec(vs: seq<NativeDll>, loader: Loader): (seq<NativeDll>, seq<UnloadWarning>) {
    UnloadAllFrom(vs, 0, loader, [])
  }

  /** The DLLs whose close fails, in order: the warnings UnloadAll should log. */
  function FailedCloses(vs: seq<NativeDll>, loader: Loader): (r: seq<UnloadWarning>)
    ensures |r| <= |vs|
  {
    if vs == [] then []
    else
      (if vs[0].handle != 0 && !loader.close(vs[0].handle) then [UnloadWarning(vs[0].name, vs[0].path)] else [])
      + FailedCloses(vs[1..], loader)
  }

  lemma {:induction false} UnloadAllFromSteps(vs: seq<NativeDll>, k: nat, loader: Loader, warnings: seq<UnloadWarning>)
    requires k <= |vs|
    ensures var r := UnloadAllFrom(vs, k, loader, warnings);
      && |r.0| == |vs|
      && (forall i :: 0 <= i < k ==> r.0[i] == vs[i])
      && (forall i :: k <= i < |vs| ==> r.0[i] == UnloadDllSpec(vs[i], loader).0)
      && r.1 == warnings + FailedCloses(vs[k..], loader)
    decreases |vs| - k
  {
    if k < |vs| {
      var step := UnloadDllSpec(vs[k], loader);
      var w := if step.1.Some? then [step.1.value] else [];
      UnloadAllFromSteps(vs[k := step.0], k + 1, loader, warnings + w);
      assert vs[k := step.0][k + 1..] == vs[k + 1..];
      assert vs[k..][1..] == vs[k + 1..];
      assert FailedCloses(vs[k..], loader) == w + FailedCloses(vs[k + 1..], loader);
    } else {
      assert vs[k..] == [];
    }
  }

  /**
   * After UnloadAll every handle is zero. A DLL that was loaded has its error
   * flags reset and every delegate dropped, and nothing else of it changes; a
   * DLL that was not loaded is left untouched, error flags included. The
   * invariant is kept, so no delegate survives anywhere.
   */
  lemma UnloadAllResets(vs: seq<NativeDll>, loader: Loader)
    ensures var r := UnloadAllSpec(vs, loader).0;
      && |r| == |vs|
      && (forall i :: 0 <= i < |vs| ==> r[i].handle == 0 && SameShape(r[i], vs[i]))
      && (forall i :: 0 <= i < |vs| && vs[i].handle != 0 ==>
            && !r[i].loadingError && !r[i].symbolError
            && forall p :: 0 <= p < |vs[i].functions| ==> r[i].functions[p] == vs[i].functions[p].(delegate := None))
      && (forall i :: 0 <= i < |vs| && vs[i].handle == 0 ==> r[i] == vs[i])
      && (AllWellFormed(vs) ==> AllWellFormed(r))
      && (AllWellFormed(vs) ==> forall i, p :: 0 <= i < |vs| && 0 <= p < |r[i].functions| ==> r[i].functions[p].delegate.None?)
  {
    UnloadAllFromSteps(vs, 0, loader, []);
  }

  /** A failed close only warns: the warnings are exactly the failed closes, in order. */
  lemma UnloadAllWarnings(vs: seq<NativeDll>, loader: Loader)
    ensures UnloadAllSpec(vs, loader).1 == FailedCloses(vs, loader)
    ensures (forall h :: loader.close(h)) ==> UnloadAllSpec(vs, loader).1 == []
  {
    UnloadAllFromSteps(vs, 0, loader, []);
    assert vs[0..] == vs;
    if forall h :: loader.close(h) {
      FailedClosesNone(vs, loader);
    }
  }

  lemma {:induction false} FailedClosesNone(vs: seq<NativeDll>, loader: Loader)
    requires forall h :: loader.close(h)
    ensures FailedCloses(vs, loader) == []
    decreases |vs|
  {
    if vs != [] {
      FailedClosesNone(vs[1..], loader);
    }
  }

  /** A second UnloadAll finds nothing to do. */
  lemma UnloadAllIdempotent(vs: seq<NativeDll>, loader: Loader, later: Loader)
    ensures var r := UnloadAllSpec(vs, loader).0;
      UnloadAllSpec(r, later) == (r, [])
  {
    var r := UnloadAllSpec(vs, loader).0;
    UnloadAllResets(vs, loader);
    UnloadAllFromSteps(r, 0, later, []);
    FailedClosesOfUnloaded(r[0..], later);
    assert r[0..] == r;
    assert UnloadAllSpec(r, later).0 == r;
  }

  lemma {:induction false} FailedClosesOfUnloaded(vs: seq<NativeDll>, loader: Loader)
    requires forall i :: 0 <= i < |vs| ==> vs[i].handle == 0
    ensures FailedCloses(vs, loader) == []
    decreases |vs|
  {
    if vs != [] {
      FailedClosesOfUnloaded(vs[1..], loader);
    }
  }

  // ------------------------------------------------------------- registration

  /** The position of the first DLL called `name`. */
  function IndexOfDll(vs: seq<NativeDll>, name: string): (r: Option<nat>)
    ensures r.Some? ==> (r.value < |vs| && vs[r.value].name == name
                         && forall i :: 0 <= i < r.value ==> vs[i].name != name)
    ensures r.None? ==> forall i :: 0 <= i < |vs| ==> vs[i].name != name
    decreases |vs|
  {
    if vs == [] then None
    else if vs[0].name == name then Some(0)
    else match IndexOfDll(vs[1..], name)
      case None => None
      case Some(k) => Some(k + 1)
  }

  /**
   * Registration's effect on the DLLs: the new function joins the DLL called
   * `name`, which is created, unloaded and with the given path, if it is not known.
   */
  function RegisterSpec(vs: seq<NativeDll>, name: string, path: string, f: NativeFunction): seq<NativeDll> {
    match IndexOfDll(vs, name)
    case Some(k) => vs[k := vs[k].(functions := vs[k].functions + [f])]
    case None => vs + [NativeDll(name, path, 0, false, false, [f])]
  }

  predicate DistinctNames(vs: seq<NativeDll>) {
    forall a, b :: 0 <= a < b < |vs| ==> vs[a].name != vs[b].name
  }

  /**
   * A known DLL is reused unchanged, path and load state included, and gains the
   * function at the end of its list; no other DLL changes. An unknown one is
   * appended with the given path, handle zero and no errors. An equal function
   * already registered does not prevent the append.
   */
  lemma RegisterReusesOrCreates(vs: seq<NativeDll>, name: string, path: string, f: NativeFunction)
    requires DistinctNames(vs)
    ensures var r := RegisterSpec(vs, name, path, f);
      && DistinctNames(r)
      && (forall k :: 0 <= k < |vs| && vs[k].name == name ==>
            && |r| == |vs|
            && r[k] == vs[k].(functions := vs[k].functions + [f])
            && forall i :: 0 <= i < |vs| && i != k ==> r[i] == vs[i])
      && ((forall k :: 0 <= k < |vs| ==> vs[k].name != name) ==>
            r == vs + [NativeDll(name, path, 0, false, false, [f])])
  {
  }

  /** Registering a function that is well formed for its DLL keeps the invariant. */
  lemma RegisterPreservesWellFormed(vs: seq<NativeDll>, name: string, path: string, f: NativeFunction)
    requires AllWellFormed(vs)
    requires f.delegate.None? && f.delegateType.Some? && f.identity.containingDllName == name
    ensures AllWellFormed(RegisterSpec(vs, name, path, f))
  {
    var r := RegisterSpec(vs, name, path, f);
    match IndexOfDll(vs, name)
    case Some(k) =>
      assert forall p :: 0 <= p < |r[k].functions| ==>
        r[k].functions[p] == if p < |vs[k].functions| then vs[k].functions[p] else f;
    case None =>
  }

  /** Registering the same function twice gives two entries: there is no de-duplication. */
  lemma RegisterTwiceKeepsBoth(vs: seq<NativeDll>, name: string, path: string, f: NativeFunction)
    requires DistinctNames(vs)
    ensures var r := RegisterSpec(RegisterSpec(vs, name, path, f), name, path, f);
      && IndexOfDll(r, name).Some?
      && var fs := r[IndexOfDll(r, name).value].functions;
         |fs| >= 2 && fs[|fs| - 2..] == [f, f]
  {
    var once := RegisterSpec(vs, name, path, f);
    RegisterReusesOrCreates(vs, name, path, f);
    var k: nat := match IndexOfDll(vs, name) case Some(k) => k case None => |vs|;
    assert once[k].name == name && once[k].functions[|once[k].functions| - 1] == f;
    assert IndexOfDll(once, name) == Some(k);
    var r := RegisterSpec(once, name, path, f);
    assert r[k].functions == once[k].functions + [f];
    assert IndexOfDll(r, name) == Some(k);
  }

  // ----------------------------------------------------------------- snapshot

  /** One entry of GetUsedDllsInfos. */
  datatype NativeDllInfo = NativeDllInfo(name: string, path: string, isLoaded: bool, loadingError: bool,
                                         symbolError: bool, loadedFunctions: seq<string>)

  function InfoOf(d: NativeDll): NativeDllInfo {
    NativeDllInfo(d.name, d.path, d.handle != 0, d.loadingError, d.symbolError,
                  seq(|d.functions|, p requires 0 <= p < |d.functions| => d.functions[p].identity.symbol))
  }

  function Snapshot(vs: seq<NativeDll>): seq<NativeDllInfo> {
    seq(|vs|, i requires 0 <= i < |vs| => InfoOf(vs[i]))
  }

  /** After UnloadAll the snapshot reports no DLL as loaded and no error, keeping every symbol. */
  lemma SnapshotAfterUnloadAll(vs: seq<NativeDll>, loader: Loader)
    ensures var s := Snapshot(UnloadAllSpec(vs, loader).0);
      && |s| == |vs|
      && forall i :: 0 <= i < |vs| ==>
           && !s[i].isLoaded && s[i].name == vs[i].name && s[i].path == vs[i].path
           && s[i].loadedFunctions == InfoOf(vs[i]).loadedFunctions
           && (vs[i].handle != 0 ==> !s[i].loadingError && !s[i].symbolError)
  {
    UnloadAllResets(vs, loader);
  }

  /** After a completed LoadAll, every DLL that has functions is reported as loaded. */
  lemma SnapshotAfterLoadAll(vs: seq<NativeDll>, loader: Loader)
    requires AllWellFormed(vs)
    ensures var r := LoadAllSpec(vs, loader);
      r.1 == Pass ==> forall i :: 0 <= i < |vs| && vs[i].functions != [] ==> Snapshot(r.0)[i].isLoaded
  {
    LoadAllSkipsLoaded(vs, loader);
    LoadAllResolvesUnloaded(vs, loader);
  }
}
