/**
 * The table of registered functions that the call stubs index into
 * (`_nativeFunctions` with `_nativeFunctionsCount`), and the invariant that ties
 * it to the DLL map.
 */
module Registry {
  import opened Wrappers
  import opened NativeFunctions
  import opened Lifecycle

  /**
   * Where a registered NativeFunction lives: the position of its DLL in
   * enumeration order and its position among that DLL's functions. DLLs and
   * functions are only ever appended until ForgetAllDlls clears both the map and
   * the table, so a location names one function for as long as it is in the table.
   */
  datatype FunctionRef = FunctionRef(dll: nat, position: nat)

  predicate RefValid(vs: seq<NativeDll>, r: FunctionRef) {
    r.dll < |vs| && r.position < |vs[r.dll].functions|
  }

  function FunctionAt(vs: seq<NativeDll>, r: FunctionRef): NativeFunction
    requires RefValid(vs, r)
  {
    vs[r.dll].functions[r.position]
  }

  /** The entries of the table; a null array has none. */
  function Entries(table: Option<seq<Option<FunctionRef>>>): seq<Option<FunctionRef>> {
    if table.Some? then table.value else []
  }

  /** `count` occupied entries followed by nulls. */
  predicate TableShape(t: seq<Option<FunctionRef>>, count: nat) {
    && count <= |t|
    && forall i :: 0 <= i < |t| ==> (i < count <==> t[i].Some?)
  }

  /**
   * Entry `i` locates a function whose `index` is `i`, and every function of every
   * DLL sits in the table at its `index`.
   */
  predicate TableCoherent(vs: seq<NativeDll>, t: seq<Option<FunctionRef>>, count: nat) {
    && TableShape(t, count)
    && (forall i :: 0 <= i < count ==> RefValid(vs, t[i].value) && FunctionAt(vs, t[i].value).index == i)
    && (forall k, p :: 0 <= k < |vs| && 0 <= p < |vs[k].functions| ==>
          0 <= vs[k].functions[p].index < count && t[vs[k].functions[p].index] == Some(FunctionRef(k, p)))
  }

  /**
   * The registry invariant: DLL names are distinct keys, every function is well
   * formed for its DLL, a table once allocated has room for at least four
   * entries, and the table and the DLLs agree.
   */
  predicate RegistryValid(vs: seq<NativeDll>, table: Option<seq<Option<FunctionRef>>>, count: nat) {
    && DistinctNames(vs)
    && AllWellFormed(vs)
    && (table.Some? ==> 4 <= |table.value|)
    && TableCoherent(vs, Entries(table), count)
  }

  /** Every non-null entry locates a function. */
  predicate EntriesValid(vs: seq<NativeDll>, table: Option<seq<Option<FunctionRef>>>) {
    forall i :: 0 <= i < |Entries(table)| && Entries(table)[i].Some? ==> RefValid(vs, Entries(table)[i].value)
  }

  /** The table's non-null entries locate functions. */
  lemma RegistryValidEntries(vs: seq<NativeDll>, table: Option<seq<Option<FunctionRef>>>, count: nat)
    requires RegistryValid(vs, table, count)
    ensures EntriesValid(vs, table)
  {
  }

  /**
   * Changing load state only (handles, error flags, delegates) keeps the
   * invariant, as long as every DLL stays well formed.
   */
  lemma SameShapesKeepRegistry(vs: seq<NativeDll>, ws: seq<NativeDll>,
                               table: Option<seq<Option<FunctionRef>>>, count: nat)
    requires RegistryValid(vs, table, count)
    requires |ws| == |vs| && AllWellFormed(ws)
    requires forall i :: 0 <= i < |vs| ==> SameShape(ws[i], vs[i])
    ensures RegistryValid(ws, table, count)
  {
    var t := Entries(table);
    forall i | 0 <= i < count
      ensures RefValid(ws, t[i].value) && FunctionAt(ws, t[i].value).index == i
    {
      var r := t[i].value;
      assert RefValid(vs, r) && FunctionAt(vs, r).index == i;
      assert SameShape(ws[r.dll], vs[r.dll]);
    }
    forall k, p | 0 <= k < |ws| && 0 <= p < |ws[k].functions|
      ensures 0 <= ws[k].functions[p].index < count && t[ws[k].functions[p].index] == Some(FunctionRef(k, p))
    {
      assert SameShape(ws[k], vs[k]);
      assert ws[k].functions[p].index == vs[k].functions[p].index;
    }
    forall a, b | 0 <= a < b < |ws|
      ensures ws[a].name != ws[b].name
    {
      assert SameShape(ws[a], vs[a]) && SameShape(ws[b], vs[b]);
    }
  }

  /** The location a function registered under `name` gets: the end of that DLL's list, or a new DLL. */
  function RegisteredAt(vs: seq<NativeDll>, name: string): FunctionRef {
    match IndexOfDll(vs, name)
    case Some(k) => FunctionRef(k, |vs[k].functions|)
    case None => FunctionRef(|vs|, 0)
  }

  /**
   * Registration adds exactly one location: the new function's. Every other
   * location of the result was already there and names the same function.
   */
  lemma RegisterAddsOneLocation(vs: seq<NativeDll>, name: string, path: string, f: NativeFunction)
    ensures var rs := RegisterSpec(vs, name, path, f);
      && RefValid(rs, RegisteredAt(vs, name)) && FunctionAt(rs, RegisteredAt(vs, name)) == f
      && (forall r :: RefValid(vs, r) ==> RefValid(rs, r) && FunctionAt(rs, r) == FunctionAt(vs, r) && r != RegisteredAt(vs, name))
      && (forall r :: RefValid(rs, r) && r != RegisteredAt(vs, name) ==> RefValid(vs, r))
  {
    var rs := RegisterSpec(vs, name, path, f);
    match IndexOfDll(vs, name)
    case Some(k) =>
      assert rs[k].functions == vs[k].functions + [f];
    case None =>
      assert rs == vs + [NativeDll(name, path, 0, false, false, [f])];
  }

  /**
   * Registering a fresh function whose index is the old count, while the table
   * gains one entry locating it and keeps its other entries, keeps the invariant;
   * the new entry locates exactly the new function.
   */
  lemma RegisterKeepsRegistry(vs: seq<NativeDll>, table: Option<seq<Option<FunctionRef>>>, count: nat,
                              name: string, path: string, f: NativeFunction,
                              ws: seq<NativeDll>, after: Option<seq<Option<FunctionRef>>>, newCount: nat)
    requires RegistryValid(vs, table, count)
    requires f.delegate.None? && f.delegateType.Some? && f.identity.containingDllName == name
    requires f.index == count && newCount == count + 1
    requires ws == RegisterSpec(vs, name, path, f)
    requires after.Some? && 4 <= |after.value| && TableShape(after.value, newCount)
    requires after.value[..count] == Entries(table)[..count]
    requires after.value[count] == Some(RegisteredAt(vs, name))
    ensures RefValid(ws, RegisteredAt(vs, name)) && FunctionAt(ws, RegisteredAt(vs, name)) == f
    ensures RegistryValid(ws, after, newCount)
  {
    var at := RegisteredAt(vs, name);
    var t := Entries(table);
    var u := after.value;
    RegisterReusesOrCreates(vs, name, path, f);
    RegisterPreservesWellFormed(vs, name, path, f);
    RegisterAddsOneLocation(vs, name, path, f);
    forall i | 0 <= i < count
      ensures RefValid(ws, u[i].value) && FunctionAt(ws, u[i].value).index == i
    {
      assert u[i] == u[..count][i] == t[..count][i] == t[i];
      assert RefValid(vs, t[i].value);
    }
    forall k, p | 0 <= k < |ws| && 0 <= p < |ws[k].functions|
      ensures 0 <= ws[k].functions[p].index < newCount
           && u[ws[k].functions[p].index] == Some(FunctionRef(k, p))
    {
      var r := FunctionRef(k, p);
      assert ws[k].functions[p] == FunctionAt(ws, r);
      if r != at {
        assert RefValid(vs, r);
        var i := FunctionAt(vs, r).index;
        assert vs[k].functions[p] == FunctionAt(vs, r);
        assert u[i] == u[..count][i] == t[..count][i];
      }
    }
    assert Entries(after) == u;
  }
}
