/**
 * Structural signatures of native functions, used as the key of the cache of
 * generated delegate types. Runtime types, parameter flags and attributes are
 * opaque values with equality.
 */
module Signatures {

  // ------------------------------------------------------- reflection inputs

  /** A runtime type, compared by identity (here: by its full name). */
  datatype ClrType = ClrType(fullName: string)

  const MarshalAsAttributeType := ClrType("System.Runtime.InteropServices.MarshalAsAttribute")
  const InAttributeType := ClrType("System.Runtime.InteropServices.InAttribute")
  const OutAttributeType := ClrType("System.Runtime.InteropServices.OutAttribute")

  /** `DllManipulator.SUPPORTED_PARAMATER_ATTRIBUTES` */
  const SupportedParameterAttributes: seq<ClrType> := [MarshalAsAttributeType, InAttributeType, OutAttributeType]

  /** A custom attribute instance; `Attribute.Equals` compares its type and its field values. */
  datatype Attribute = Attribute(attributeType: ClrType, fieldValues: seq<string>)

  /** The `ParameterAttributes` flags of a parameter. */
  datatype ParameterAttributes = ParameterAttributes(flags: nat)

  /** What `ParameterInfo` provides: type, flags and custom attributes. */
  datatype ParameterInfo = ParameterInfo(parameterType: ClrType, attributes: ParameterAttributes, customAttributes: seq<Attribute>)

  /** What `MethodInfo` provides: the return parameter and the parameters in order. */
  datatype MethodInfo = MethodInfo(declaringType: ClrType, name: string, returnParameter: ParameterInfo, parameters: seq<ParameterInfo>)

  datatype CallingConvention = Winapi | Cdecl | StdCall | ThisCall | FastCall

  datatype CharSet = CharSetNone | Ansi | Unicode | Auto

  // --------------------------------------------------------------- signatures

  datatype ParameterSignature = ParameterSignature(parameterType: ClrType, parameterAttributes: ParameterAttributes, customAttributes: seq<Attribute>)

  datatype NativeFunctionSignature = NativeFunctionSignature(
    returnParameter: ParameterSignature,
    parameters: seq<ParameterSignature>,
    callingConvention: CallingConvention,
    bestFitMapping: bool,
    charSet: CharSet,
    setLastError: bool,
    throwOnUnmappableChar: bool)

  predicate IsSupported(a: Attribute) {
    a.attributeType in SupportedParameterAttributes
  }

  /** `.Where(a => SUPPORTED_PARAMATER_ATTRIBUTES.Contains(a.GetType()))` */
  function SupportedOnly(attrs: seq<Attribute>): (r: seq<Attribute>)
    ensures |r| <= |attrs|
    ensures forall a :: a in r <==> a in attrs && IsSupported(a)
    decreases |attrs|
  {
    if attrs == [] then []
    else (if IsSupported(attrs[0]) then [attrs[0]] else []) + SupportedOnly(attrs[1..])
  }

  /** The filter keeps the original order: it distributes over concatenation. */
  lemma {:induction false} SupportedOnlyConcat(a: seq<Attribute>, b: seq<Attribute>)
    ensures SupportedOnly(a + b) == SupportedOnly(a) + SupportedOnly(b)
    decreases |a|
  {
    if a != [] {
      assert (a + b)[0] == a[0];
      assert (a + b)[1..] == a[1..] + b;
      SupportedOnlyConcat(a[1..], b);
      var head := if IsSupported(a[0]) then [a[0]] else [];
      assert SupportedOnly(a + b) == head + SupportedOnly(a[1..] + b);
      assert head + (SupportedOnly(a[1..]) + SupportedOnly(b)) == (head + SupportedOnly(a[1..])) + SupportedOnly(b);
    } else {
      assert a + b == b;
    }
  }

  /** A list of supported attributes only is kept whole. */
  lemma {:induction false} SupportedOnlyKeepsSupported(attrs: seq<Attribute>)
    requires forall k :: 0 <= k < |attrs| ==> IsSupported(attrs[k])
    ensures SupportedOnly(attrs) == attrs
    decreases |attrs|
  {
    if attrs != [] {
      SupportedOnlyKeepsSupported(attrs[1..]);
    }
  }

  /** A list without supported attributes is filtered to nothing. */
  lemma {:induction false} SupportedOnlyDropsUnsupported(attrs: seq<Attribute>)
    requires forall k :: 0 <= k < |attrs| ==> !IsSupported(attrs[k])
    ensures SupportedOnly(attrs) == []
    decreases |attrs|
  {
    if attrs != [] {
      SupportedOnlyDropsUnsupported(attrs[1..]);
    }
  }

  /** `new NativeFunctionParameterSignature(ParameterInfo)` */
  function ParameterSignatureOf(p: ParameterInfo): ParameterSignature {
    ParameterSignature(p.parameterType, p.attributes, SupportedOnly(p.customAttributes))
  }

  /** `GetParameters().Select(p => new NativeFunctionParameterSignature(p))` */
  function ParameterSignaturesOf(ps: seq<ParameterInfo>): (r: seq<ParameterSignature>)
    ensures |r| == |ps|
    ensures forall i :: 0 <= i < |ps| ==> r[i] == ParameterSignatureOf(ps[i])
    decreases |ps|
  {
    if ps == [] then [] else [ParameterSignatureOf(ps[0])] + ParameterSignaturesOf(ps[1..])
  }

  /** `new NativeFunctionSignature(methodInfo, callingConvention, ...)` */
  function SignatureOf(m: MethodInfo, callingConvention: CallingConvention, bestFitMapping: bool,
                       charSet: CharSet, setLastError: bool, throwOnUnmappableChar: bool): NativeFunctionSignature
  {
    NativeFunctionSignature(ParameterSignatureOf(m.returnParameter), ParameterSignaturesOf(m.parameters),
                            callingConvention, bestFitMapping, charSet, setLastError, throwOnUnmappableChar)
  }

  /** One parameter signature per parameter, in order, plus the return parameter; flags copied verbatim. */
  lemma SignatureOfShape(m: MethodInfo, cc: CallingConvention, bfm: bool, cs: CharSet, sle: bool, tou: bool)
    ensures var s := SignatureOf(m, cc, bfm, cs, sle, tou);
      && |s.parameters| == |m.parameters|
      && (forall i :: 0 <= i < |m.parameters| ==>
            s.parameters[i].parameterType == m.parameters[i].parameterType
            && s.parameters[i].parameterAttributes == m.parameters[i].attributes
            && s.parameters[i].customAttributes == SupportedOnly(m.parameters[i].customAttributes))
      && s.returnParameter.parameterType == m.returnParameter.parameterType
      && s.returnParameter.parameterAttributes == m.returnParameter.attributes
      && s.returnParameter.customAttributes == SupportedOnly(m.returnParameter.customAttributes)
      && s.callingConvention == cc && s.bestFitMapping == bfm && s.charSet == cs
      && s.setLastError == sle && s.throwOnUnmappableChar == tou
  {
  }

  // ----------------------------------------------------------------- equality

  /**
   * `first.Except(second)`: the distinct elements of `first` that are not in
   * `second`, in order of first occurrence (the library adds each yielded element
   * to the set it filters against).
   */
  function Except(first: seq<Attribute>, second: seq<Attribute>): seq<Attribute>
    decreases |first|
  {
    if first == [] then []
    else if first[0] in second then Except(first[1..], second)
    else [first[0]] + Except(first[1..], second + [first[0]])
  }

  /** Except yields exactly the elements of `first` missing from `second`. */
  lemma {:induction false} ExceptMembers(first: seq<Attribute>, second: seq<Attribute>)
    ensures forall a :: a in Except(first, second) <==> a in first && a !in second
    decreases |first|
  {
    if first != [] {
      if first[0] in second {
        ExceptMembers(first[1..], second);
      } else {
        ExceptMembers(first[1..], second + [first[0]]);
      }
    }
  }

  /** The argument of `NativeFunctionParameterSignature.Equals(object)` after `obj as ...`. */
  datatype ParameterObject = AParameterSignature(signature: ParameterSignature) | NotAParameterSignature

  /**
   * `NativeFunctionParameterSignature.Equals`, as written: the attribute test is
   * `customAttributes.Except(other.customAttributes).Any()`.
   */
  function ParameterEquals(self: ParameterSignature, obj: ParameterObject): bool {
    obj.AParameterSignature?
    && self.parameterType == obj.signature.parameterType
    && self.parameterAttributes == obj.signature.parameterAttributes
    && |Except(self.customAttributes, obj.signature.customAttributes)| > 0
  }

  /** Parameter equality holds exactly when some attribute of `self` is missing from `other`. */
  lemma ParameterEqualsMeaning(self: ParameterSignature, other: ParameterSignature)
    ensures ParameterEquals(self, AParameterSignature(other)) <==>
      && self.parameterType == other.parameterType
      && self.parameterAttributes == other.parameterAttributes
      && exists a :: a in self.customAttributes && a !in other.customAttributes
  {
    ExceptMembers(self.customAttributes, other.customAttributes);
    var e := Except(self.customAttributes, other.customAttributes);
    if |e| > 0 {
      assert e[0] in e;
    }
  }

  /** No parameter signature is Equal to itself. */
  lemma ParameterEqualsIrreflexive(p: ParameterSignature)
    ensures !ParameterEquals(p, AParameterSignature(p))
  {
    ParameterEqualsMeaning(p, p);
  }

  /** A parameter with no custom attributes is Equal to nothing. */
  lemma ParameterWithoutAttributesNeverEqual(p: ParameterSignature, obj: ParameterObject)
    requires p.customAttributes == []
    ensures !ParameterEquals(p, obj)
  {
  }

  /** Parameter equality is not symmetric either. */
  lemma ParameterEqualsAsymmetricExample()
    ensures var t := ClrType("System.Int32");
            var a := Attribute(InAttributeType, []);
            var p := ParameterSignature(t, ParameterAttributes(0), [a]);
            var q := ParameterSignature(t, ParameterAttributes(0), []);
            ParameterEquals(p, AParameterSignature(q)) && !ParameterEquals(q, AParameterSignature(p))
  {
  }

  /**
   * The parameter equality the comment at the attribute test describes: same
   * type, same flags and the same custom attributes, in either direction of
   * `Except`.
   */
  function ParameterEqualsIntended(self: ParameterSignature, obj: ParameterObject): bool {
    obj.AParameterSignature?
    && self.parameterType == obj.signature.parameterType
    && self.parameterAttributes == obj.signature.parameterAttributes
    && |Except(self.customAttributes, obj.signature.customAttributes)| == 0
    && |Except(obj.signature.customAttributes, self.customAttributes)| == 0
  }

  /** The corrected equality holds exactly when type, flags and the sets of attributes agree. */
  lemma ParameterEqualsIntendedMeaning(self: ParameterSignature, other: ParameterSignature)
    ensures ParameterEqualsIntended(self, AParameterSignature(other)) <==>
      && self.parameterType == other.parameterType
      && self.parameterAttributes == other.parameterAttributes
      && forall a :: a in self.customAttributes <==> a in other.customAttributes
  {
    ExceptMembers(self.customAttributes, other.customAttributes);
    ExceptMembers(other.customAttributes, self.customAttributes);
    var e := Except(self.customAttributes, other.customAttributes);
    var e' := Except(other.customAttributes, self.customAttributes);
    if |e| > 0 {
      assert e[0] in e;
    }
    if |e'| > 0 {
      assert e'[0] in e';
    }
  }

  /**
   * The corrected equality is reflexive, symmetric and transitive, so a signature
   * cache can find what it stored.
   */
  lemma ParameterEqualsIntendedIsEquivalence(p: ParameterSignature, q: ParameterSignature, o: ParameterSignature)
    ensures ParameterEqualsIntended(p, AParameterSignature(p))
    ensures ParameterEqualsIntended(p, AParameterSignature(q)) == ParameterEqualsIntended(q, AParameterSignature(p))
    ensures ParameterEqualsIntended(p, AParameterSignature(q)) && ParameterEqualsIntended(q, AParameterSignature(o)) ==>
      ParameterEqualsIntended(p, AParameterSignature(o))
  {
    ParameterEqualsIntendedMeaning(p, p);
    ParameterEqualsIntendedMeaning(p, q);
    ParameterEqualsIntendedMeaning(q, p);
    ParameterEqualsIntendedMeaning(q, o);
    ParameterEqualsIntendedMeaning(p, o);
  }

  /** `parameters.SequenceEqual(other.parameters)`, comparing with `first[i].Equals(second[i])`. */
  function SequenceEqual(first: seq<ParameterSignature>, second: seq<ParameterSignature>): bool
    decreases |first|
  {
    if first == [] || second == [] then first == [] && second == []
    else ParameterEquals(first[0], AParameterSignature(second[0])) && SequenceEqual(first[1..], second[1..])
  }

  /** SequenceEqual holds iff the lengths agree and the elements are pairwise Equal, in order. */
  lemma {:induction false} SequenceEqualMeaning(first: seq<ParameterSignature>, second: seq<ParameterSignature>)
    ensures SequenceEqual(first, second) <==>
      |first| == |second| && forall i :: 0 <= i < |first| ==> ParameterEquals(first[i], AParameterSignature(second[i]))
    decreases |first|
  {
    if first != [] && second != [] {
      SequenceEqualMeaning(first[1..], second[1..]);
      if |first| == |second| && forall i :: 0 <= i < |first| ==> ParameterEquals(first[i], AParameterSignature(second[i])) {
        assert forall i :: 0 <= i < |first| - 1 ==> first[1..][i] == first[i + 1] && second[1..][i] == second[i + 1];
      }
      if SequenceEqual(first, second) {
        forall i | 0 <= i < |first| ensures ParameterEquals(first[i], AParameterSignature(second[i])) {
          if i > 0 {
            assert first[1..][i - 1] == first[i] && second[1..][i - 1] == second[i];
          }
        }
      }
    }
  }

  /** The argument of `NativeFunctionSignature.Equals(object)` after `obj is NativeFunctionSignature`. */
  datatype SignatureObject = ASignature(signature: NativeFunctionSignature) | NotASignature

  /** `NativeFunctionSignature.Equals` */
  function SignatureEquals(self: NativeFunctionSignature, obj: SignatureObject): bool {
    match obj
    case NotASignature => false
    case ASignature(other) =>
      && ParameterEquals(self.returnParameter, AParameterSignature(other.returnParameter))
      && SequenceEqual(self.parameters, other.parameters)
      && self.callingConvention == other.callingConvention
      && self.bestFitMapping == other.bestFitMapping
      && self.charSet == other.charSet
      && self.setLastError == other.setLastError
      && self.throwOnUnmappableChar == other.throwOnUnmappableChar
  }

  /** Signature equality, spelled out in both directions. */
  lemma SignatureEqualsMeaning(self: NativeFunctionSignature, other: NativeFunctionSignature)
    ensures SignatureEquals(self, ASignature(other)) <==>
      && ParameterEquals(self.returnParameter, AParameterSignature(other.returnParameter))
      && |self.parameters| == |other.parameters|
      && (forall i :: 0 <= i < |self.parameters| ==> ParameterEquals(self.parameters[i], AParameterSignature(other.parameters[i])))
      && self.callingConvention == other.callingConvention
      && self.bestFitMapping == other.bestFitMapping
      && self.charSet == other.charSet
      && self.setLastError == other.setLastError
      && self.throwOnUnmappableChar == other.throwOnUnmappableChar
  {
    SequenceEqualMeaning(self.parameters, other.parameters);
  }

  /** No signature is Equal to itself, because its return parameter is not. */
  lemma SignatureEqualsIrreflexive(s: NativeFunctionSignature)
    ensures !SignatureEquals(s, ASignature(s))
  {
    ParameterEqualsIrreflexive(s.returnParameter);
  }

  /** A signature whose return parameter carries no supported attribute is Equal to nothing. */
  lemma PlainReturnNeverEqual(m: MethodInfo, cc: CallingConvention, bfm: bool, cs: CharSet, sle: bool, tou: bool,
                              obj: SignatureObject)
    requires forall k :: 0 <= k < |m.returnParameter.customAttributes| ==> !IsSupported(m.returnParameter.customAttributes[k])
    ensures !SignatureEquals(SignatureOf(m, cc, bfm, cs, sle, tou), obj)
  {
    SupportedOnlyDropsUnsupported(m.returnParameter.customAttributes);
    ParameterWithoutAttributesNeverEqual(SignatureOf(m, cc, bfm, cs, sle, tou).returnParameter,
                                         if obj.ASignature? then AParameterSignature(obj.signature.returnParameter) else NotAParameterSignature);
  }
}
