/**
 * The static state of DllManipulator as one object: the DLL map, the table of
 * registered functions that the call stubs index into, the cache of delegate
 * types per signature and the crash-log call counter; with registration,
 * loading, unloading, forgetting, the snapshot, the crash log and a call through
 * a stub.
 */
module Manipulator {
  import opened Wrappers
  import opened ClrString
  import opened NativeFunctions
  import opened Signatures
  import opened Lifecycle
  import opened Registry
  import opened Stubs
  import opened CrashLog

  const DllNameMacro := "{name}"
  const AssetsMacro := "{assets}"
  const ProjectMacro := "{proj}"

  datatype DllLoadingMode = Lazy | Preload

  /** The options the modelled code reads. */
  datatype Options = Options(dllPathPattern: string, loadingMode: DllLoadingMode, threadSafe: bool,
                             enableCrashLogs: bool, crashLogsDir: string, crashLogsStackTrace: bool)

  // ------------------------------------------------------------------- paths

  function ApplyDirectoryPathMacros(path: string, assetsPath: string): string {
    Replace(Replace(path, AssetsMacro, assetsPath), ProjectMacro, assetsPath + "/../")
  }

  /** The path a DLL gets when it is first registered. */
  function DllPathFor(pattern: string, assetsPath: string, dllName: string): string {
    Replace(ApplyDirectoryPathMacros(pattern, assetsPath), DllNameMacro, dllName)
  }

  /** A pattern that mentions no macro is used verbatim, for every DLL. */
  lemma MacroFreePatternUsedVerbatim(pattern: string, assetsPath: string, dllName: string)
    requires forall i :: !OccursAt(pattern, AssetsMacro, i)
    requires forall i :: !OccursAt(pattern, ProjectMacro, i)
    requires forall i :: !OccursAt(pattern, DllNameMacro, i)
    ensures ApplyDirectoryPathMacros(pattern, assetsPath) == pattern
    ensures DllPathFor(pattern, assetsPath, dllName) == pattern
  {
    ReplaceAbsent(pattern, AssetsMacro, assetsPath);
    ReplaceAbsent(pattern, ProjectMacro, assetsPath + "/../");
    ReplaceAbsent(pattern, DllNameMacro, dllName);
  }

  /** The pattern `{name}` makes each DLL's path its own name. */
  lemma NamePatternGivesName(assetsPath: string, dllName: string)
    ensures DllPathFor(DllNameMacro, assetsPath, dllName) == dllName
  {
    assert Replace(DllNameMacro, AssetsMacro, assetsPath) == DllNameMacro;
    assert DllNameMacro[1] != ProjectMacro[1];
    assert Replace(DllNameMacro[1..], ProjectMacro, assetsPath + "/../") == DllNameMacro[1..];
    assert [DllNameMacro[0]] + DllNameMacro[1..] == DllNameMacro;
    assert DllNameMacro[|DllNameMacro|..] == [];
  }

  // ---------------------------------------------------------- delegate cache

  /**
   * An entry of `_delegateTypesForNativeFunctionSignatures`: the key, the masked
   * hash the Dictionary stored for it when it was added, and the delegate type.
   */
  datatype CacheEntry = CacheEntry(key: NativeFunctionSignature, hashCode: int, delegateType: DelegateType)

  /** `_delegateTypesForNativeFunctionSignatures`, in insertion order. Entries are never removed. */
  type SignatureCache = seq<CacheEntry>

  /**
   * `GetHashCode() & 0x7FFFFFFF`, the hash a Dictionary stores and compares: the
   * low 31 bits of the two's-complement `int`, which Euclidean `%` yields for a
   * negative hash as well.
   */
  function MaskedHash(h: int): (r: int)
    ensures 0 <= r < 0x8000_0000
  {
    h % 0x8000_0000
  }

  /**
   * An entry answers a lookup when its stored hash equals the probe's masked hash
   * and the stored key Equals the probe. `probeHash` is the probe object's own
   * `GetHashCode()`: it mixes reference hashes of arrays each signature allocates,
   * so two equal signature values may probe with different hashes.
   */
  predicate CacheHit(entry: CacheEntry, probe: NativeFunctionSignature, probeHash: int)
  {
    entry.hashCode == MaskedHash(probeHash) && SignatureEquals(entry.key, ASignature(probe))
  }

  /** Hashes that differ only in the sign bit are the same to the cache. */
  lemma MaskedHashIgnoresSignBit(h: int)
    requires 0 <= h < 0x8000_0000
    ensures MaskedHash(h - 0x8000_0000) == MaskedHash(h) == h
  {
  }

  /**
   * `TryGetValue(probe)`: the most recently added entry that answers the probe
   * (a bucket's chain starts at its newest entry).
   */
  function CacheLookup(cache: SignatureCache, probe: NativeFunctionSignature, probeHash: int): (r: Option<DelegateType>)
    ensures r.Some? ==> exists k :: 0 <= k < |cache| && CacheHit(cache[k], probe, probeHash)
                                    && cache[k].delegateType == r.value
    ensures r.None? <==> forall k :: 0 <= k < |cache| ==> !CacheHit(cache[k], probe, probeHash)
    decreases |cache|
  {
    if cache == [] then None
    else if CacheHit(cache[|cache| - 1], probe, probeHash) then Some(cache[|cache| - 1].delegateType)
    else CacheLookup(cache[..|cache| - 1], probe, probeHash)
  }

  /**
   * A signature just added is not found again by itself, whatever hash either
   * object has: Equals is irreflexive on signatures.
   */
  lemma CacheMissesOwnKey(cache: SignatureCache, s: NativeFunctionSignature, storedHash: int, t: DelegateType,
                          probeHash: int)
    ensures CacheLookup(cache + [CacheEntry(s, storedHash, t)], s, probeHash) == CacheLookup(cache, s, probeHash)
  {
    SignatureEqualsIrreflexive(s);
    assert (cache + [CacheEntry(s, storedHash, t)])[..|cache|] == cache;
  }

  // ----------------------------------------------------------------- stubs

  /** The `DllImport` metadata of a mocked method. */
  datatype NativeMethod = NativeMethod(info: MethodInfo, dllName: string, entryPoint: string,
                                       callingConvention: CallingConvention, bestFitMapping: bool,
                                       charSet: CharSet, setLastError: bool, throwOnUnmappableChar: bool)

  function SignatureOfMethod(m: NativeMethod): NativeFunctionSignature {
    SignatureOf(m.info, m.callingConvention, m.bestFitMapping, m.charSet, m.setLastError, m.throwOnUnmappableChar)
  }

  /** The delegate type registration picks for `sig`, and the cache and counter after it. */
  function ChooseDelegateType(cache: SignatureCache, created: nat, sig: NativeFunctionSignature, sigHash: int)
    : (DelegateType, SignatureCache, nat)
  {
    match CacheLookup(cache, sig, sigHash)
    case Some(t) => (t, cache, created)
    case None =>
      (HelperNativeDelegate(created), cache + [CacheEntry(sig, MaskedHash(sigHash), HelperNativeDelegate(created))],
       created + 1)
  }

  /**
   * The cache only grows; on a hit it is unchanged and the cached type is used; on
   * a miss a new delegate type, numbered by the counter, is created and stored
   * under the signature.
   */
  lemma ChooseDelegateTypeCases(cache: SignatureCache, created: nat, sig: NativeFunctionSignature, sigHash: int)
    ensures var (t, after, count) := ChooseDelegateType(cache, created, sig, sigHash);
      && |after| >= |cache| && after[..|cache|] == cache
      && (CacheLookup(cache, sig, sigHash).Some? ==>
            after == cache && count == created
            && exists k :: 0 <= k < |cache| && CacheHit(cache[k], sig, sigHash) && cache[k].delegateType == t)
      && (CacheLookup(cache, sig, sigHash).None? ==>
            after == cache + [CacheEntry(sig, MaskedHash(sigHash), t)] && t == HelperNativeDelegate(created)
            && count == created + 1)
  {
  }

  /**
   * Registering two methods with the same signature in a row, each with its own
   * signature object and hash: the second never finds the delegate type created
   * for the first, since Equals on signatures is irreflexive. When the older
   * entries answer neither probe, two delegate types are created.
   */
  lemma SameSignatureTwiceCreatesTwo(cache: SignatureCache, created: nat, sig: NativeFunctionSignature,
                                     hash1: int, hash2: int)
    requires CacheLookup(cache, sig, hash1).None? && CacheLookup(cache, sig, hash2).None?
    ensures var (t1, after1, count1) := ChooseDelegateType(cache, created, sig, hash1);
      var (t2, after2, count2) := ChooseDelegateType(after1, count1, sig, hash2);
      t1 != t2 && count2 == created + 2 && |after2| == |cache| + 2
  {
    var (t1, after1, count1) := ChooseDelegateType(cache, created, sig, hash1);
    CacheMissesOwnKey(cache, sig, MaskedHash(hash1), t1, hash2);
  }

  /**
   * The second registration of the same signature, probing with a hash of its own,
   * may find an older entry the first one missed: it then reuses that entry's type
   * and creates nothing, while the first created one.
   */
  lemma SameSignatureTwiceMayReuseOlder(cache: SignatureCache, created: nat, sig: NativeFunctionSignature,
                                        hash1: int, hash2: int)
    requires CacheLookup(cache, sig, hash1).None? && CacheLookup(cache, sig, hash2).Some?
    ensures var (t1, after1, count1) := ChooseDelegateType(cache, created, sig, hash1);
      var (t2, after2, count2) := ChooseDelegateType(after1, count1, sig, hash2);
      && t1 == HelperNativeDelegate(created) && t2 == CacheLookup(cache, sig, hash2).value
      && count2 == created + 1 && after2 == after1 && |after2| == |cache| + 1
  {
    var (t1, after1, count1) := ChooseDelegateType(cache, created, sig, hash1);
    CacheMissesOwnKey(cache, sig, MaskedHash(hash1), t1, hash2);
  }


  // ------------------------------------------------------------- the class

  /**
   * The static state of DllManipulator. Each NativeDll and NativeFunction is held
   * by value in `dlls`, and the table holds their locations: what the source shares
   * by reference between `_dlls`, a DLL's function list and `_nativeFunctions` is
   * one value here that all three reach through its location.
   */
  class DllManipulator {
    var options: Options
    var unityMainThreadId: int
    var assetsPath: string
    /** `_dlls`, as its entries in enumeration order; each DLL's name is its key. */
    var dlls: seq<NativeDll>
    var delegateTypesForSignatures: SignatureCache
    /** `_nativeFunctions`: each entry locates a registered function; None stands for null. */
    var nativeFunctions: array?<Option<FunctionRef>>
    var nativeFunctionsCount: nat
    var createdDelegateTypes: nat
    var lastNativeCallIndex: int
    /** Read locks held on `_nativeFunctionLoadLock`. */
    var readLocks: nat

    ghost function Table(): Option<seq<Option<FunctionRef>>>
      reads this`nativeFunctions, nativeFunctions
    {
      if nativeFunctions == null then None else Some(nativeFunctions[..])
    }

    ghost predicate Valid()
      reads this`dlls, this`nativeFunctions, this`nativeFunctionsCount, this`lastNativeCallIndex, nativeFunctions
    {
      RegistryValid(dlls, Table(), nativeFunctionsCount) && IsInt32(lastNativeCallIndex)
    }

    /** The static initialisers: no DLL, no table, no delegate type, no call yet. */
    constructor (options: Options)
      ensures Valid()
      ensures this.options == options
      ensures dlls == [] && delegateTypesForSignatures == [] && nativeFunctions == null
      ensures nativeFunctionsCount == 0 && createdDelegateTypes == 0 && lastNativeCallIndex == 0 && readLocks == 0
    {
      this.options := options;
      unityMainThreadId := 0;
      assetsPath := [];
      dlls := [];
      delegateTypesForSignatures := [];
      nativeFunctions := null;
      nativeFunctionsCount := 0;
      createdDelegateTypes := 0;
      lastNativeCallIndex := 0;
      readLocks := 0;
    }

    method SetUnityContext(unityMainThreadId: int, assetsPath: string)
      modifies this`unityMainThreadId, this`assetsPath
      ensures this.unityMainThreadId == unityMainThreadId && this.assetsPath == assetsPath
    {
      this.unityMainThreadId := unityMainThreadId;
      this.assetsPath := assetsPath;
    }

    /**
     * The work of LoadTargetFunction on the record of the function's DLL: opens
     * the DLL when its handle is zero, then resolves the symbol when the delegate
     * is null; a failure is the exception thrown.
     */
    static method LoadFunctionOf(dll: NativeDll, position: nat, loader: Loader)
      returns (d: NativeDll, r: Outcome<NativeDllError>)
      requires position < |dll.functions| && WellFormedDll(dll)
      ensures (d, r) == LoadFunctionSpec(dll, position, loader)
    {
      d := dll;
      var nativeFunction := d.functions[position];
      r := Pass;
      if d.handle == 0 {
        d := d.(handle := loader.open(d.path));
        if d.handle == 0 {
          d := d.(loadingError := true);
          r := Fail(DllLoadFailed(d.name, d.path));
        }
      }
      if r == Pass && nativeFunction.delegate.None? {
        var funcPtr := loader.lookup(d.handle, nativeFunction.identity.symbol);
        if funcPtr == 0 {
          d := d.(symbolError := true);
          r := Fail(SymbolNotFound(nativeFunction.identity.symbol, d.name, d.path));
        } else {
          var loaded := nativeFunction.(delegate := Some(Delegate(funcPtr, nativeFunction.delegateType.value)));
          d := d.(functions := d.functions[position := loaded]);
        }
      }
    }

    /**
     * LoadTargetFunction on the function at `ref`: the DLL record and the function
     * are updated as LoadFunctionSpec says, and a failure is the exception thrown.
     */
    method LoadTargetFunction(ref: FunctionRef, loader: Loader) returns (r: Outcome<NativeDllError>)
      requires Valid() && RefValid(dlls, ref)
      modifies this`dlls
      ensures Valid()
      ensures var step := LoadFunctionSpec(old(dlls[ref.dll]), ref.position, loader);
        dlls == old(dlls)[ref.dll := step.0] && r == step.1
    {
      ghost var before := dlls;
      var dll;
      dll, r := LoadFunctionOf(dlls[ref.dll], ref.position, loader);
      dlls := dlls[ref.dll := dll];
      SameShapesKeepRegistry(before, dlls, Table(), nativeFunctionsCount);
    }

    /**
     * The inner loop of LoadAll on the record of the `k`-th DLL:
     * LoadTargetFunction on its functions, in order, up to the first failure.
     */
    static method LoadFunctionsOf(dll: NativeDll, loader: Loader) returns (d: NativeDll, r: Outcome<NativeDllError>)
      requires WellFormedDll(dll)
      ensures (d, r) == LoadFunctionsFrom(dll, 0, loader)
    {
      d := dll;
      var j := 0;
      r := Pass;
      while j < |d.functions|
        invariant 0 <= j <= |d.functions| && WellFormedDll(d)
        invariant LoadFunctionsFrom(d, j, loader) == LoadFunctionsFrom(dll, 0, loader)
      {
        var loaded;
        d, loaded := LoadFunctionOf(d, j, loader);
        if loaded.Fail? {
          r := loaded;
          return;
        }
        j := j + 1;
      }
    }

    /** LoadAll's inner loop for the `k`-th DLL, written back into the map. */
    method LoadDllFunctions(k: nat, loader: Loader) returns (r: Outcome<NativeDllError>)
      requires Valid() && k < |dlls|
      modifies this`dlls
      ensures Valid()
      ensures var step := LoadFunctionsFrom(old(dlls[k]), 0, loader);
        dlls == old(dlls)[k := step.0] && r == step.1
    {
      ghost var before := dlls;
      var dll;
      dll, r := LoadFunctionsOf(dlls[k], loader);
      dlls := dlls[k := dll];
      SameShapesKeepRegistry(before, dlls, Table(), nativeFunctionsCount);
    }

    /**
     * LoadAll: every function of every DLL whose handle is zero is loaded, in
     * order; the first failure ends the loop and is the exception thrown.
     */
    method LoadAll(loader: Loader) returns (r: Outcome<NativeDllError>)
      requires Valid()
      modifies this`dlls
      ensures Valid()
      ensures (dlls, r) == LoadAllSpec(old(dlls), loader)
    {
      ghost var before := dlls;
      var k := 0;
      while k < |dlls|
        invariant 0 <= k <= |dlls| == |before| && Valid()
        invariant LoadAllFrom(dlls, k, loader) == LoadAllSpec(before, loader)
      {
        if dlls[k].handle == 0 {
          r := LoadDllFunctions(k, loader);
          if r.Fail? {
            return;
          }
        } else {
          assert dlls[k := dlls[k]] == dlls;
        }
        k := k + 1;
      }
      r := Pass;
    }

    /**
     * UnloadAll: every DLL with a non-zero handle is closed, its handle and error
     * flags reset and its delegates dropped; a failed close is logged as a warning.
     */
    method UnloadAll(loader: Loader) returns (warnings: seq<UnloadWarning>)
      requires Valid()
      modifies this`dlls
      ensures Valid()
      ensures (dlls, warnings) == UnloadAllSpec(old(dlls), loader)
    {
      ghost var before := dlls;
      warnings := [];
      var k := 0;
      while k < |dlls|
        invariant 0 <= k <= |dlls| && Valid()
        invariant |dlls| == |before|
        invariant UnloadAllFrom(dlls, k, loader, warnings) == UnloadAllSpec(before, loader)
      {
        var dll := dlls[k];
        if dll.handle != 0 {
          ghost var start := dlls;
          var success := loader.close(dll.handle);
          dll := dll.(handle := 0, loadingError := false, symbolError := false);
          var p := 0;
          while p < |dll.functions|
            invariant 0 <= p <= |dll.functions| == |start[k].functions|
            invariant dll == start[k].(handle := 0, loadingError := false, symbolError := false, functions := dll.functions)
            invariant forall q :: 0 <= q < |dll.functions| ==>
              dll.functions[q] == if q < p then start[k].functions[q].(delegate := None) else start[k].functions[q]
          {
            dll := dll.(functions := dll.functions[p := dll.functions[p].(delegate := None)]);
            p := p + 1;
          }
          assert dll.functions == UnloadDllSpec(start[k], loader).0.functions;
          dlls := dlls[k := dll];
          assert SameShape(dll, start[k]) && WellFormedDll(dll);
          SameShapesKeepRegistry(start, dlls, Table(), nativeFunctionsCount);
          ghost var logged := warnings;
          if !success {
            warnings := warnings + [UnloadWarning(dll.name, dll.path)];
          }
          ghost var step := UnloadDllSpec(start[k], loader);
          assert dlls == start[k := step.0];
          assert warnings == logged + (if step.1.Some? then [step.1.value] else []);
          assert UnloadAllFrom(start, k, loader, logged) == UnloadAllFrom(dlls, k + 1, loader, warnings);
        } else {
          assert dlls[k := dlls[k]] == dlls && warnings + [] == warnings;
          assert UnloadAllFrom(dlls, k, loader, warnings) == UnloadAllFrom(dlls, k + 1, loader, warnings);
        }
        k := k + 1;
      }
    }

    /** ForgetAllDlls: the map and the table are emptied; loaded DLLs are not closed. */
    method ForgetAllDlls()
      modifies this`dlls, this`nativeFunctions, this`nativeFunctionsCount
      requires IsInt32(lastNativeCallIndex)
      ensures Valid()
      ensures dlls == [] && nativeFunctions == null && nativeFunctionsCount == 0
    {
      dlls := [];
      nativeFunctions := null;
      nativeFunctionsCount := 0;
    }

    /** GetUsedDllsInfos: one entry per DLL, in enumeration order. */
    method GetUsedDllsInfos() returns (infos: array<NativeDllInfo>)
      ensures fresh(infos) && infos[..] == Snapshot(dlls)
    {
      infos := new NativeDllInfo[|dlls|](_ => NativeDllInfo([], [], false, false, false, []));
      var i := 0;
      while i < |dlls|
        invariant 0 <= i <= |dlls| == infos.Length
        invariant forall j :: 0 <= j < i ==> infos[j] == InfoOf(dlls[j])
      {
        var dll := dlls[i];
        var loadedFunctions := seq(|dll.functions|, p requires 0 <= p < |dll.functions| => dll.functions[p].identity.symbol);
        infos[i] := NativeDllInfo(dll.name, dll.path, dll.handle != 0, dll.loadingError, dll.symbolError, loadedFunctions);
        i := i + 1;
      }
    }

    /**
     * AddNativeFunction: appends an entry, allocating four entries on first use and
     * doubling the array when it is full.
     */
    method AddNativeFunction(ref: FunctionRef)
      requires TableShape(Entries(Table()), nativeFunctionsCount)
      requires nativeFunctions != null ==> 4 <= nativeFunctions.Length
      modifies this`nativeFunctions, this`nativeFunctionsCount, nativeFunctions
      ensures nativeFunctions != null && 4 <= nativeFunctions.Length
      ensures nativeFunctionsCount == old(nativeFunctionsCount) + 1
      ensures TableShape(nativeFunctions[..], nativeFunctionsCount)
      ensures nativeFunctions[..old(nativeFunctionsCount)] == old(Entries(Table())[..nativeFunctionsCount])
      ensures nativeFunctions[old(nativeFunctionsCount)] == Some(ref)
      ensures old(nativeFunctions) == null ==> fresh(nativeFunctions) && nativeFunctions.Length == 4
      ensures old(nativeFunctions) != null && old(nativeFunctionsCount) < old(nativeFunctions.Length) ==>
        nativeFunctions == old(nativeFunctions)
      ensures old(nativeFunctions) != null && old(nativeFunctionsCount) == old(nativeFunctions.Length) ==>
        fresh(nativeFunctions) && nativeFunctions.Length == 2 * old(nativeFunctions.Length)
    {
      if nativeFunctions == null {
        nativeFunctions := new Option<FunctionRef>[4](_ => None);
      }
      if nativeFunctionsCount == nativeFunctions.Length {
        var newArray := new Option<FunctionRef>[nativeFunctions.Length * 2](_ => None);
        forall i | 0 <= i < nativeFunctions.Length {
          newArray[i] := nativeFunctions[i];
        }
        nativeFunctions := newArray;
      }
      nativeFunctions[nativeFunctionsCount] := Some(ref);
      nativeFunctionsCount := nativeFunctionsCount + 1;
    }

    /** CreateDelegateTypeForNativeFunctionSignature: a new type numbered by the counter. */
    method CreateDelegateTypeForNativeFunctionSignature(functionSignature: NativeFunctionSignature)
      returns (t: DelegateType)
      modifies this`createdDelegateTypes
      ensures t == HelperNativeDelegate(old(createdDelegateTypes))
      ensures createdDelegateTypes == old(createdDelegateTypes) + 1
    {
      t := HelperNativeDelegate(createdDelegateTypes);
      createdDelegateTypes := createdDelegateTypes + 1;
    }

    /**
     * The delegate type for a signature: the cached one when the cache answers,
     * otherwise a new one, which is added to the cache under the signature's
     * masked hash. `signatureHash` is the `GetHashCode()` of this signature object.
     */
    method DelegateTypeFor(nativeMethodSignature: NativeFunctionSignature, signatureHash: int)
      returns (delegateType: DelegateType)
      modifies this`delegateTypesForSignatures, this`createdDelegateTypes
      ensures (delegateType, delegateTypesForSignatures, createdDelegateTypes)
           == ChooseDelegateType(old(delegateTypesForSignatures), old(createdDelegateTypes), nativeMethodSignature,
                                 signatureHash)
    {
      var cached := CacheLookup(delegateTypesForSignatures, nativeMethodSignature, signatureHash);
      if cached.Some? {
        delegateType := cached.value;
      } else {
        delegateType := CreateDelegateTypeForNativeFunctionSignature(nativeMethodSignature);
        delegateTypesForSignatures := delegateTypesForSignatures
                                      + [CacheEntry(nativeMethodSignature, MaskedHash(signatureHash), delegateType)];
      }
    }

    /**
     * The registration half of GetNativeFunctionMockMethod: the function joins the
     * DLL of its identity (created with `dllPath` when the name is new) and its
     * location is appended to the table. The function is a value here, so its
     * index and delegate type are set before it joins; nothing reads it in between.
     */
    method RegisterNativeFunction(identity: NativeFunctionIdentity, dllPath: string, delegateType: DelegateType)
      returns (nativeFunctionIndex: nat)
      requires Valid()
      modifies this`dlls, this`nativeFunctions, this`nativeFunctionsCount, nativeFunctions
      ensures Valid()
      ensures nativeFunctionIndex == old(nativeFunctionsCount) && nativeFunctionsCount == nativeFunctionIndex + 1
      ensures dlls == RegisterSpec(old(dlls), identity.containingDllName, dllPath,
                                   NativeFunction(identity, None, Some(delegateType), nativeFunctionIndex))
      ensures Entries(Table())[..nativeFunctionIndex] == old(Entries(Table())[..nativeFunctionsCount])
      ensures Entries(Table())[nativeFunctionIndex] == Some(RegisteredAt(old(dlls), identity.containingDllName))
    {
      ghost var before := dlls;
      ghost var beforeTable := Table();
      var dllName := identity.containingDllName;
      var k: nat;
      var dll: NativeDll;
      var found := IndexOfDll(dlls, dllName);
      if found.Some? {
        k := found.value;
        dll := dlls[k];
      } else {
        k := |dlls|;
        dll := NewNativeDll(dllName, dllPath);
      }
      var position := |dll.functions|;
      assert FunctionRef(k, position) == RegisteredAt(before, dllName);
      nativeFunctionIndex := nativeFunctionsCount;
      AddNativeFunction(FunctionRef(k, position));
      var nativeFunction := NewNativeFunction(identity).(index := nativeFunctionIndex, delegateType := Some(delegateType));
      dll := dll.(functions := dll.functions + [nativeFunction]);
      ghost var registered := RegisterSpec(before, dllName, dllPath, nativeFunction);
      if found.Some? {
        dlls := dlls[k := dll];
        assert dlls == registered;
      } else {
        assert dll == NativeDll(dllName, dllPath, 0, false, false, [nativeFunction]);
        dlls := dlls + [dll];
        assert dlls == registered;
      }
      RegisterKeepsRegistry(before, beforeTable, nativeFunctionIndex, dllName, dllPath, nativeFunction,
                            dlls, Table(), nativeFunctionsCount);
    }

    /**
     * GetNativeFunctionMockMethod: registers the function under its DLL (creating
     * the DLL from the path pattern when the name is new), appends its location to
     * the table, picks its delegate type, and generates the stub for its index.
     * Generation fails for lazy loading with thread safety, after registration.
     * `signatureHash` is the `GetHashCode()` of the signature object built here.
     */
    method GetNativeFunctionMockMethod(nativeMethod: NativeMethod, signatureHash: int)
      returns (r: Result<Stub, GenerationError>)
      requires Valid()
      modifies this`dlls, this`nativeFunctions, this`nativeFunctionsCount, nativeFunctions,
               this`delegateTypesForSignatures, this`createdDelegateTypes
      ensures Valid()
      ensures var choice := ChooseDelegateType(old(delegateTypesForSignatures), old(createdDelegateTypes),
                                               SignatureOfMethod(nativeMethod), signatureHash);
        && dlls == old(RegisterSpec(dlls, nativeMethod.dllName,
                                    DllPathFor(options.dllPathPattern, assetsPath, nativeMethod.dllName),
                                    NativeFunction(NativeFunctionIdentity(nativeMethod.entryPoint, nativeMethod.dllName),
                                                   None, Some(choice.0), nativeFunctionsCount)))
        && delegateTypesForSignatures == choice.1 && createdDelegateTypes == choice.2
      ensures nativeFunctionsCount == old(nativeFunctionsCount) + 1
      ensures Entries(Table())[..old(nativeFunctionsCount)] == old(Entries(Table())[..nativeFunctionsCount])
      ensures Entries(Table())[old(nativeFunctionsCount)] == Some(RegisteredAt(old(dlls), nativeMethod.dllName))
      ensures r == if options.loadingMode == Lazy && options.threadSafe then Failure(ThreadSafeLazyUnsupported)
                   else Success(Stub(old(nativeFunctionsCount), options.threadSafe, options.loadingMode == Lazy,
                                     options.enableCrashLogs))
    {
      ghost var choice := ChooseDelegateType(delegateTypesForSignatures, createdDelegateTypes,
                                             SignatureOfMethod(nativeMethod), signatureHash);
      ghost var f := NativeFunction(NativeFunctionIdentity(nativeMethod.entryPoint, nativeMethod.dllName),
                                    None, Some(choice.0), nativeFunctionsCount);
      ghost var registered := RegisterSpec(dlls, nativeMethod.dllName,
                                           DllPathFor(options.dllPathPattern, assetsPath, nativeMethod.dllName), f);
      var dllName := nativeMethod.dllName;
      var dllPath := DllPathFor(options.dllPathPattern, assetsPath, dllName);
      var identity := NativeFunctionIdentity(nativeMethod.entryPoint, dllName);
      var delegateType := DelegateTypeFor(SignatureOfMethod(nativeMethod), signatureHash);
      assert f == NativeFunction(identity, None, Some(delegateType), nativeFunctionsCount);
      var nativeFunctionIndex := RegisterNativeFunction(identity, dllPath, delegateType);
      assert dlls == registered;
      if options.loadingMode == Lazy && options.threadSafe {
        r := Failure(ThreadSafeLazyUnsupported);
      } else {
        r := Success(Stub(nativeFunctionIndex, options.threadSafe, options.loadingMode == Lazy, options.enableCrashLogs));
      }
    }

    /**
     * What a call made now sees: its arguments, the calling thread, the crash-log
     * directory with macros applied, and the stack trace when the options ask for it.
     */
    function CallContextFor(arguments: seq<Argument>, threadId: int, threadName: string, stackTraceText: string)
      : (call: CallContext)
      reads this
      ensures call.thread.threadId == threadId && call.thread.unityMainThreadId == unityMainThreadId
      ensures call.stackTrace.Some? <==> options.crashLogsStackTrace
    {
      CallContext(arguments, ThreadContext(threadId, threadName, unityMainThreadId),
                  ApplyDirectoryPathMacros(options.crashLogsDir, assetsPath),
                  if options.crashLogsStackTrace then Some(stackTraceText) else None)
    }

    /** The "arguments: " part of a crash-log record, one line per argument. */
    static method ArgumentsSection(arguments: seq<Argument>) returns (lines: seq<string>)
      ensures lines == ArgumentsPart(arguments)
    {
      if |arguments| == 0 {
        return ["arguments: no arguments"];
      }
      lines := ["arguments: "];
      var i := 0;
      while i < |arguments|
        invariant 0 <= i <= |arguments|
        invariant lines == ["arguments: "] + ArgumentLines(arguments)[..i]
      {
        assert ArgumentLines(arguments)[..i + 1] == ArgumentLines(arguments)[..i] + [ArgumentLines(arguments)[i]];
        lines := lines + [ArgumentLabel(i) + RenderArgument(arguments[i])];
        i := i + 1;
      }
      assert ArgumentLines(arguments)[..i] == ArgumentLines(arguments);
    }

    /**
     * WriteNativeCrashLog: the lines written to the calling thread's file, which
     * is truncated first; the call counter is incremented and its value before the
     * increment is the call index written.
     */
    method WriteNativeCrashLog(ref: FunctionRef, arguments: seq<Argument>, threadId: int, threadName: string,
                               stackTraceText: string) returns (filePath: string, lines: seq<string>)
      requires RefValid(dlls, ref) && IsInt32(lastNativeCallIndex)
      modifies this`lastNativeCallIndex
      ensures var call := CallContextFor(arguments, threadId, threadName, stackTraceText);
        var next := NextCallIndex(old(lastNativeCallIndex));
        && filePath == CrashLogPath(call.logDirectory, threadId)
        && lines == CrashLogRecord(dlls, ref, arguments, call.thread, next.1, call.stackTrace)
        && lastNativeCallIndex == next.0
    {
      filePath := PathCombine(ApplyDirectoryPathMacros(options.crashLogsDir, assetsPath), CrashLogFileName(threadId));
      var nativeFunction := FunctionAt(dlls, ref);
      var dll := dlls[ref.dll];
      lines := ["function: " + nativeFunction.identity.symbol, "from DLL: " + dll.name, "  at path: " + dll.path];
      var argumentLines := ArgumentsSection(arguments);
      var thread := ThreadContext(threadId, threadName, unityMainThreadId);
      ghost var last := lastNativeCallIndex;
      var incremented := Increment32(lastNativeCallIndex);
      lastNativeCallIndex := incremented;
      var nativeCallIndex := Decrement32(incremented);
      assert NextCallIndex(last) == (incremented, nativeCallIndex);
      var trailer := ["thread: " + ThreadDescription(thread), "call index: " + IntToString(nativeCallIndex)];
      if options.crashLogsStackTrace {
        trailer := trailer + ["stack trace:", stackTraceText];
      }
      lines := lines + argumentLines + trailer;
      assert lines == CrashLogRecord(dlls, ref, arguments, thread, nativeCallIndex,
                                     if options.crashLogsStackTrace then Some(stackTraceText) else None);
    }

    /**
     * The part of a generated stub inside the lock: fetch the table entry, load it
     * when lazy, write the crash log when enabled, and call the delegate.
     */
    method RunStubBody(stub: Stub, arguments: seq<Argument>, threadId: int, threadName: string,
                       stackTraceText: string, loader: Loader)
      returns (r: Result<Delegate, StubError>, steps: seq<StubStep>)
      requires Valid()
      modifies this`dlls, this`lastNativeCallIndex
      ensures Valid()
      ensures var run := StubBody(old(dlls), old(Table()), old(lastNativeCallIndex), stub,
                                  CallContextFor(arguments, threadId, threadName, stackTraceText), loader);
        dlls == run.dlls && lastNativeCallIndex == run.lastCallIndex && r == run.result && steps == run.steps
    {
      var index := stub.nativeFunctionIndex;
      if nativeFunctions == null {
        return Failure(NullReference), [];
      }
      if index >= nativeFunctions.Length {
        return Failure(IndexOutOfRange(index)), [];
      }
      var entry := nativeFunctions[index];
      if entry.None? {
        if stub.lazyLoad {
          return Failure(NullReference), [LoadTarget];
        }
        if stub.crashLogs {
          var filePath := PathCombine(ApplyDirectoryPathMacros(options.crashLogsDir, assetsPath), CrashLogFileName(threadId));
          return Failure(NullReference), [WritePartialCrashLog(filePath, "function: ")];
        }
        return Failure(NullReference), [];
      }
      var ref := entry.value;
      assert Entries(Table())[index] == entry;
      steps := [];
      if stub.lazyLoad {
        steps := [LoadTarget];
        var loaded := LoadTargetFunction(ref, loader);
        if loaded.Fail? {
          return Failure(NativeDllException(loaded.error)), steps;
        }
      }
      var rest;
      r, rest := CallTarget(ref, stub, arguments, threadId, threadName, stackTraceText);
      steps := steps + rest;
    }

    /**
     * The stub once the function is located and loaded: the crash-log record when
     * crash logs are enabled, then the delegate, which is null if it was never loaded.
     */
    method CallTarget(ref: FunctionRef, stub: Stub, arguments: seq<Argument>, threadId: int, threadName: string,
                      stackTraceText: string) returns (r: Result<Delegate, StubError>, steps: seq<StubStep>)
      requires RefValid(dlls, ref) && IsInt32(lastNativeCallIndex)
      modifies this`lastNativeCallIndex
      ensures var run := CallPhase(dlls, ref, old(lastNativeCallIndex), stub,
                                   CallContextFor(arguments, threadId, threadName, stackTraceText));
        lastNativeCallIndex == run.lastCallIndex && r == run.result && steps == run.steps
    {
      steps := [];
      if stub.crashLogs {
        var filePath, lines := WriteNativeCrashLog(ref, arguments, threadId, threadName, stackTraceText);
        steps := [WriteCrashLog(filePath, lines)];
      }
      var nativeFunction := FunctionAt(dlls, ref);
      if nativeFunction.delegate.None? {
        r := Failure(NullReference);
      } else {
        steps := steps + [CallNative(nativeFunction.delegate.value)];
        r := Success(nativeFunction.delegate.value);
      }
    }

    /**
     * A call through a generated stub: the body, between taking and releasing the
     * read lock when the stub is thread safe; the lock is released on every path.
     */
    method InvokeStub(stub: Stub, arguments: seq<Argument>, threadId: int, threadName: string,
                      stackTraceText: string, loader: Loader)
      returns (r: Result<Delegate, StubError>, steps: seq<StubStep>)
      requires Valid()
      modifies this`dlls, this`lastNativeCallIndex, this`readLocks
      ensures Valid() && readLocks == old(readLocks)
      ensures var run := StubSpec(old(dlls), old(Table()), old(lastNativeCallIndex), stub,
                                  CallContextFor(arguments, threadId, threadName, stackTraceText), loader);
        dlls == run.dlls && lastNativeCallIndex == run.lastCallIndex && r == run.result && steps == run.steps
    {
      steps := [];
      if stub.threadSafe {
        readLocks := readLocks + 1;
        steps := [EnterReadLock];
      }
      var inner;
      r, inner := RunStubBody(stub, arguments, threadId, threadName, stackTraceText, loader);
      steps := steps + inner;
      if stub.threadSafe {
        readLocks := readLocks - 1;
        steps := steps + [ExitReadLock];
      }
    }
  }
}
