/**
 * Function identity and the two mutable records of the registry: one per
 * imported native function and one per dynamically loaded library (DLL).
 */
module NativeFunctions {
  import opened Wrappers

  // -------------------------------------------------------------- identity

  /** A native function is identified by its exported symbol and the name of its DLL. */
  datatype NativeFunctionIdentity = NativeFunctionIdentity(symbol: string, containingDllName: string)

  /** The argument of `Equals(object)`: a boxed identity, or any other object (null included). */
  datatype BoxedObject = BoxedIdentity(identity: NativeFunctionIdentity) | OtherObject

  /** `NativeFunctionIdentity.Equals(object)`: field-wise comparison of a boxed identity. */
  function IdentityEquals(self: NativeFunctionIdentity, obj: BoxedObject): (r: bool)
    ensures r <==> obj == BoxedIdentity(self)
  {
    match obj
    case BoxedIdentity(other) => self.symbol == other.symbol && self.containingDllName == other.containingDllName
    case OtherObject => false
  }

  lemma IdentityEqualsReflexive(a: NativeFunctionIdentity)
    ensures IdentityEquals(a, BoxedIdentity(a))
  {
  }

  lemma IdentityEqualsSymmetric(a: NativeFunctionIdentity, b: NativeFunctionIdentity)
    ensures IdentityEquals(a, BoxedIdentity(b)) == IdentityEquals(b, BoxedIdentity(a))
  {
  }

  lemma IdentityEqualsTransitive(a: NativeFunctionIdentity, b: NativeFunctionIdentity, c: NativeFunctionIdentity)
    requires IdentityEquals(a, BoxedIdentity(b)) && IdentityEquals(b, BoxedIdentity(c))
    ensures IdentityEquals(a, BoxedIdentity(c))
  {
  }

  // ------------------------------------------------------------ 32-bit hash

  /**
   * Hash codes are C# `int`s; they are modelled by their 32-bit two's-complement
   * pattern, on which the unchecked `int` addition of the source is `bv32` addition.
   */
  type HashCode = bv32

  /** `(uint)((h1 << 5) | (int)((uint)h1 >> 27))`, as written. */
  function RotateLeftFive(h1: HashCode): HashCode {
    (h1 << 5) | (h1 >> 27)
  }

  /** The shift-and-or expression is a 5-bit left rotation. */
  lemma RotateLeftFiveIsRotation(h1: HashCode)
    ensures RotateLeftFive(h1) == h1.RotateLeft(5)
  {
  }

  /** `((int)num + h1) ^ h2`; the addition wraps around at 32 bits. */
  function MixHashes(h1: HashCode, h2: HashCode): HashCode {
    (RotateLeftFive(h1) + h1) ^ h2
  }

  /** For a fixed symbol hash, the mix tells distinct DLL-name hashes apart. */
  lemma MixHashesInjectiveInSecond(h1: HashCode, h2: HashCode, h2': HashCode)
    requires MixHashes(h1, h2) == MixHashes(h1, h2')
    ensures h2 == h2'
  {
    var a := RotateLeftFive(h1) + h1;
    assert h2 == (a ^ h2) ^ a;
    assert h2' == (a ^ h2') ^ a;
  }

  /** Wrap-around: `-1` (all ones) rotates to itself and `-1 + -1` wraps to `-2`. */
  lemma MixHashesExamples()
    ensures MixHashes(1, 0) == 33
    ensures MixHashes(0xFFFF_FFFF, 0) == 0xFFFF_FFFE
    ensures MixHashes(0x8000_0000, 0) == 0x8000_0010
    ensures MixHashes(0, 0xFFFF_FFFF) == 0xFFFF_FFFF
  {
  }

  /**
   * `NativeFunctionIdentity.GetHashCode()`. The string hash of the runtime is a
   * parameter: it is not specified and differs between runs.
   */
  function IdentityHashCode(self: NativeFunctionIdentity, stringHash: string -> HashCode): HashCode {
    MixHashes(stringHash(self.symbol), stringHash(self.containingDllName))
  }

  /** Identities that are Equal have equal hash codes. */
  lemma EqualIdentitiesHashAlike(a: NativeFunctionIdentity, b: NativeFunctionIdentity, stringHash: string -> HashCode)
    requires IdentityEquals(a, BoxedIdentity(b))
    ensures IdentityHashCode(a, stringHash) == IdentityHashCode(b, stringHash)
  {
  }

  // ------------------------------------------------------------ the records

  /** A delegate type created for a signature, numbered in creation order (`HelperNativeDelegate{n}`). */
  datatype DelegateType = HelperNativeDelegate(ordinal: nat)

  /** `Marshal.GetDelegateForFunctionPointer(functionPointer, delegateType)`. */
  datatype Delegate = Delegate(functionPointer: nat, delegateType: DelegateType)

  /**
   * One imported native function. In the source a NativeFunction also points back
   * to its containing NativeDll; here it is held in that DLL's `functions`, which
   * stands for the back-pointer. `index` is its slot in the table of registered
   * functions, -1 until it is given one; the delegate type is null until chosen.
   */
  datatype NativeFunction = NativeFunction(identity: NativeFunctionIdentity, delegate: Option<Delegate>,
                                           delegateType: Option<DelegateType>, index: int)

  /** `new NativeFunction(identity, dll)`: no delegate, no delegate type yet, index -1. */
  function NewNativeFunction(identity: NativeFunctionIdentity): NativeFunction {
    NativeFunction(identity, None, None, -1)
  }

  /**
   * One DLL known to the registry, with its functions in registration order.
   * `handle == 0` stands for `IntPtr.Zero` (not loaded).
   */
  datatype NativeDll = NativeDll(name: string, path: string, handle: nat, loadingError: bool,
                                 symbolError: bool, functions: seq<NativeFunction>)

  /** `new NativeDll(name, path)`: not loaded, no errors, no functions. */
  function NewNativeDll(name: string, path: string): NativeDll {
    NativeDll(name, path, 0, false, false, [])
  }
}
