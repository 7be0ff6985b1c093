/**
 * Type converter, as value-level functions: one FIR type goes in, one
 * debug-type attribute tree comes out. These functions are the
 * specification the DebugTypeGenerator methods are proved against; the
 * lemmas state what the conversion promises.
 */
module TypeConversion {
  import opened Wrappers
  import opened DescriptorLayout
  import opened DebugInfo

  /** One extent of an array shape: unknown at compile time, or a constant. */
  datatype Extent = UnknownExtent | ConstantExtent(value: nat)

  /** A CHARACTER length: not known at compile time, or a constant. */
  datatype CharLen = UnknownLen | ConstantLen(len: nat)

  /**
   * !fir.array: one extent per dimension and an element type. An empty
   * shape is FIR's unknown shape: the rank itself is not known (assumed rank).
   */
  datatype SequenceType = SequenceType(shape: seq<Extent>, eleTy: FirType)

  /** !fir.char: a kind and a length. */
  datatype CharacterType = CharacterType(fKind: nat, len: CharLen)

  /** The FIR and builtin types the converter distinguishes; every other type is OtherType. */
  datatype FirType =
    | IntegerType(width: nat)
    | FloatType(width: nat)
    | RealType(fKind: nat)
    | LogicalType(fKind: nat)
    | MlirComplexType(floatWidth: nat)
    | FirComplexType(fKind: nat)
    | Sequence(seqTy: SequenceType)
    | Character(charTy: CharacterType)
    | BoxType(boxed: FirType)
    | HeapType(pointee: FirType)
    | PointerType(pointee: FirType)
    | OtherType(mnemonic: string)

  /** The kind mapping of the module: bit sizes of REAL, LOGICAL and CHARACTER kinds. */
  datatype KindMapping = KindMapping(
    realBitsize: nat -> nat,
    logicalBitsize: nat -> nat,
    characterBitsize: nat -> nat)

  /** What every conversion consults: the cached descriptor offsets, the descriptor model and the kind mapping. */
  datatype Converter = Converter(offsets: DescriptorOffsets, model: DescriptorModel, kinds: KindMapping)

  /** hasUnknownShape: FIR's test for an array whose rank is not known. */
  predicate HasUnknownShape(s: SequenceType)
  {
    |s.shape| == 0
  }

  /** Subrange of one dimension of an array with static shape. */
  function StaticSubrange(e: Extent): Subrange
  {
    match e
    case UnknownExtent => Subrange(Null, Null, Null, Null)
    case ConstantExtent(n) => Subrange(Const(n), Const(1), Null, Null)
  }

  /** Byte offset, inside the descriptor, of entry `pos` of the bounds triple of dimension `dim`. */
  function DimFieldOffset(c: Converter, dim: nat, pos: nat): nat
  {
    c.offsets.dimsOffset + dim * c.offsets.dimsSize + (c.offsets.dimsSize / 3) * pos
  }

  /** Subrange of dimension `dim` of an array inside a descriptor. */
  function DynamicSubrange(c: Converter, dim: nat): Subrange
  {
    Subrange(
      Exp(FieldAt(DimFieldOffset(c, dim, c.model.dimExtentPos))),
      Exp(FieldAt(DimFieldOffset(c, dim, c.model.dimLowerBoundPos))),
      Null, Null)
  }

  /**
   * convertType. An array always becomes an array type; a pointer type only
   * comes from a box of a heap or pointer target, and a string type only
   * from a CHARACTER or a box.
   */
  function TypeDI(c: Converter, ty: FirType): (r: DIType)
    ensures ty.Sequence? ==> r.DICompositeType?
    ensures r.DIDerivedType? ==> ty.BoxType? && (ty.boxed.HeapType? || ty.boxed.PointerType?)
    ensures r.DIStringType? ==> ty.Character? || ty.BoxType?
    decreases ty, 0
  {
    match ty
    case IntegerType(width) => BasicType("integer", width, Signed)
    case FloatType(width) => BasicType("real", width, FloatEnc)
    case RealType(k) => BasicType("real", c.kinds.realBitsize(k), FloatEnc)
    case LogicalType(k) => BasicType("logical", c.kinds.logicalBitsize(k), Boolean)
    case MlirComplexType(width) => BasicType("complex", width * 2, ComplexFloat)
    case FirComplexType(k) => BasicType("complex", c.kinds.realBitsize(k) * 2, ComplexFloat)
    case Sequence(s) => SequenceDI(c, s)
    case Character(ch) => CharacterDI(c, ch, false)
    case BoxType(el) =>
      (match el
       case Sequence(s) => BoxedSequenceDI(c, s, false, false)
       case HeapType(p) => PointerLikeDI(c, p, true, false)
       case PointerType(p) => PointerLikeDI(c, p, false, true)
       case _ => Placeholder())
    case _ => Placeholder()
  }

  /**
   * convertSequenceType: an array whose shape is part of its type. It has
   * one subrange per dimension and no expression to evaluate at run time.
   */
  function SequenceDI(c: Converter, s: SequenceType): (r: DIType)
    ensures r.DICompositeType? && |r.elements| == |s.shape|
    ensures r.dataLocation.None? && r.allocatedExp.None? && r.associatedExp.None?
    decreases s, 0
  {
    DICompositeType(TypeDI(c, s.eleTy), seq(|s.shape|, i requires 0 <= i < |s.shape| => StaticSubrange(s.shape[i])),
                    None, None, None)
  }

  /**
   * convertBoxedSequenceType: an array inside a runtime descriptor. Only an
   * unknown shape falls back to the placeholder; otherwise it has one
   * subrange per dimension, and allocated / associated exactly when asked for.
   */
  function BoxedSequenceDI(c: Converter, s: SequenceType, genAllocated: bool, genAssociated: bool): (r: DIType)
    ensures r == Placeholder() <==> HasUnknownShape(s)
    ensures !HasUnknownShape(s) ==> && r.DICompositeType? && |r.elements| == |s.shape|
                                    && (r.allocatedExp.Some? <==> genAllocated)
                                    && (r.associatedExp.Some? <==> genAssociated)
    decreases s, 0
  {
    if HasUnknownShape(s) then Placeholder()
    else
      DICompositeType(TypeDI(c, s.eleTy), seq(|s.shape|, i requires 0 <= i => DynamicSubrange(c, i)), Some(DerefBase()),
                      if genAllocated then Some(Validity()) else None,
                      if genAssociated then Some(Validity()) else None)
  }

  /** The string encoding of a CHARACTER kind: DW_ATE_ASCII for kind 1, DW_ATE_UCS otherwise. */
  function CharacterEncoding(fKind: nat): Encoding
  {
    if fKind != 1 then Ucs else Ascii
  }

  /**
   * convertCharacterType. Only a CHARACTER of unknown length outside a
   * descriptor falls back to the placeholder; a string type is ASCII exactly
   * for kind 1.
   */
  function CharacterDI(c: Converter, ch: CharacterType, hasDescriptor: bool): (r: DIType)
    ensures r == Placeholder() <==> !hasDescriptor && ch.len.UnknownLen?
    ensures r.DIStringType? ==> (r.encoding == Ascii <==> ch.fKind == 1)
  {
    if hasDescriptor then
      DIStringType(0, Some(AddressAt(c.offsets.lenOffset)), Some(DerefBase()), CharacterEncoding(ch.fKind))
    else if ch.len.ConstantLen? then
      DIStringType(ch.len.len * c.kinds.characterBitsize(ch.fKind), None, None, CharacterEncoding(ch.fKind))
    else
      Placeholder()
  }

  /**
   * convertPointerLikeType: the target of a pointer or allocatable inside a
   * descriptor. Any target but an array or a CHARACTER becomes a pointer
   * type, whose size is the cached ptrSize: a size in bytes passed where the
   * attribute takes bits (see CorrectedTypeDI).
   */
  function PointerLikeDI(c: Converter, elTy: FirType, genAllocated: bool, genAssociated: bool): (r: DIType)
    ensures r.DIDerivedType? <==> !elTy.Sequence? && !elTy.Character?
    ensures r.DIDerivedType? ==> r.sizeInBits == c.offsets.ptrSize
    decreases elTy, 1
  {
    match elTy
    case Sequence(s) => BoxedSequenceDI(c, s, genAllocated, genAssociated)
    case Character(ch) => CharacterDI(c, ch, true)
    case _ => DIDerivedType(TypeDI(c, elTy), c.offsets.ptrSize)
  }

  // -------------------------------------------------------------------
  // Properties of the conversion

  /** Scalars become basic types of their own bit width; a complex is twice as wide as its component. */
  lemma ScalarConversion(c: Converter, ty: FirType)
    ensures ty.IntegerType? ==> TypeDI(c, ty) == DIBasicType("integer", ty.width, Signed)
    ensures ty.FloatType? ==> TypeDI(c, ty) == DIBasicType("real", ty.width, FloatEnc)
    ensures ty.RealType? ==> TypeDI(c, ty) == DIBasicType("real", c.kinds.realBitsize(ty.fKind), FloatEnc)
    ensures ty.LogicalType? ==> TypeDI(c, ty) == DIBasicType("logical", c.kinds.logicalBitsize(ty.fKind), Boolean)
    ensures ty.MlirComplexType? ==> TypeDI(c, ty) == DIBasicType("complex", 2 * ty.floatWidth, ComplexFloat)
    ensures ty.FirComplexType? ==> TypeDI(c, ty) == DIBasicType("complex", 2 * c.kinds.realBitsize(ty.fKind), ComplexFloat)
    ensures ty.FirComplexType? ==> TypeDI(c, ty).sizeInBits == 2 * TypeDI(c, RealType(ty.fKind)).sizeInBits
    ensures ty.MlirComplexType? ==> TypeDI(c, ty).sizeInBits == 2 * TypeDI(c, FloatType(ty.floatWidth)).sizeInBits
  {
  }

  /**
   * An array whose shape is in its type: one subrange per dimension, in
   * order; a known extent gives count = extent and lower bound 1, an unknown
   * extent gives a subrange with nothing set; no data location, allocated
   * or associated expression.
   */
  lemma StaticArrayConversion(c: Converter, s: SequenceType)
    ensures var r := TypeDI(c, Sequence(s));
            var es := s.shape;
            && r.DICompositeType?
            && r.baseType == TypeDI(c, s.eleTy)
            && |r.elements| == |es|
            && (forall i :: 0 <= i < |es| && es[i].UnknownExtent? ==>
                  r.elements[i] == Subrange(Null, Null, Null, Null))
            && (forall i :: 0 <= i < |es| && es[i].ConstantExtent? ==>
                  r.elements[i] == Subrange(Const(es[i].value), Const(1), Null, Null))
            && r.dataLocation.None? && r.allocatedExp.None? && r.associatedExp.None?
  {
  }

  /** A 3 x 4 array of 32-bit reals becomes an array type with static subranges 3 and 4 over a 32-bit real. */
  lemma StaticArrayExample(c: Converter)
    ensures TypeDI(c, Sequence(SequenceType([ConstantExtent(3), ConstantExtent(4)], FloatType(32))))
         == DICompositeType(DIBasicType("real", 32, FloatEnc),
                            [Subrange(Const(3), Const(1), Null, Null), Subrange(Const(4), Const(1), Null, Null)],
                            None, None, None)
  {
    var r := TypeDI(c, Sequence(SequenceType([ConstantExtent(3), ConstantExtent(4)], FloatType(32))));
    assert r.elements == [Subrange(Const(3), Const(1), Null, Null), Subrange(Const(4), Const(1), Null, Null)];
  }

  /**
   * An array inside a descriptor: of unknown shape, the placeholder.
   * Otherwise the data location dereferences the base address, the validity
   * test compares it with 0 and is attached as allocated / associated
   * exactly when asked for; dimension i reads its count and lower bound from
   * dims[i] of the descriptor; upper bound and stride are absent.
   */
  lemma BoxedArrayConversion(c: Converter, s: SequenceType, genAllocated: bool, genAssociated: bool)
    ensures HasUnknownShape(s) ==> BoxedSequenceDI(c, s, genAllocated, genAssociated) == Placeholder()
    ensures !HasUnknownShape(s) ==>
            var r := BoxedSequenceDI(c, s, genAllocated, genAssociated);
            var o := c.offsets;
            var indexSize := o.dimsSize / 3;
            && r.DICompositeType?
            && r.baseType == TypeDI(c, s.eleTy)
            && r.dataLocation == Some([Op(PushObjectAddress), Op(Deref)])
            && (r.allocatedExp.Some? <==> genAllocated)
            && (r.associatedExp.Some? <==> genAssociated)
            && (genAllocated ==> r.allocatedExp.value == [Op(PushObjectAddress), Op(Deref), Op(Lit0), Op(Ne)])
            && (genAssociated ==> r.associatedExp.value == [Op(PushObjectAddress), Op(Deref), Op(Lit0), Op(Ne)])
            && |r.elements| == |s.shape|
            && forall i :: 0 <= i < |r.elements| ==>
                 r.elements[i] == Subrange(
                   Exp([Op(PushObjectAddress),
                        ExprElem(PlusUconst, [o.dimsOffset + i * o.dimsSize + indexSize * c.model.dimExtentPos]),
                        Op(Deref)]),
                   Exp([Op(PushObjectAddress),
                        ExprElem(PlusUconst, [o.dimsOffset + i * o.dimsSize + indexSize * c.model.dimLowerBoundPos]),
                        Op(Deref)]),
                   Null, Null)
  {
    if !HasUnknownShape(s) {
      var r := BoxedSequenceDI(c, s, genAllocated, genAssociated);
      forall i | 0 <= i < |r.elements|
        ensures r.elements[i] == DynamicSubrange(c, i)
      {
      }
    }
  }

  /** Entry `pos` (< 3) of the bounds triple of dimension `dim` lies inside that dimension's block. */
  lemma {:induction false} BoundInsideDimension(c: Converter, dim: nat, pos: nat)
    requires pos < 3 && c.offsets.dimsSize > 0
    ensures var o := c.offsets;
            o.dimsOffset + dim * o.dimsSize <= DimFieldOffset(c, dim, pos) < o.dimsOffset + (dim + 1) * o.dimsSize
  {
    var d := c.offsets.dimsSize;
    var q := d / 3;
    assert d == 3 * q + d % 3;
    assert q * pos <= q * 2 by {
      if pos < 2 {
        assert q * 2 == q * pos + q * (2 - pos);
      }
    }
    assert (dim + 1) * d == dim * d + d;
  }

  lemma MulMonotone(a: nat, b: nat, d: nat)
    requires a <= b
    ensures a * d <= b * d
  {
    assert b * d == a * d + (b - a) * d;
  }

  /** Different (dimension, entry) pairs read different descriptor words when an index is at least one byte wide. */
  lemma {:induction false} BoundsDistinct(c: Converter, d1: nat, p1: nat, d2: nat, p2: nat)
    requires p1 < 3 && p2 < 3 && c.offsets.dimsSize >= 3
    requires d1 != d2 || p1 != p2
    ensures DimFieldOffset(c, d1, p1) != DimFieldOffset(c, d2, p2)
  {
    var size := c.offsets.dimsSize;
    if d1 == d2 {
      var q := size / 3;
      assert q >= 1;
      assert q * p1 == (if p1 == 0 then 0 else if p1 == 1 then q else q + q);
      assert q * p2 == (if p2 == 0 then 0 else if p2 == 1 then q else q + q);
    } else if d1 < d2 {
      BoundInsideDimension(c, d1, p1);
      BoundInsideDimension(c, d2, p2);
      MulMonotone(d1 + 1, d2, size);
    } else {
      BoundInsideDimension(c, d1, p1);
      BoundInsideDimension(c, d2, p2);
      MulMonotone(d2 + 1, d1, size);
    }
  }

  /**
   * What a debugger reads for an array inside a descriptor at `address`:
   * the data location is the stored base address, the validity test is 1
   * iff that address is not null, and dimension i's count and lower bound
   * are the words at the corresponding offsets of the dims block.
   */
  lemma BoxedArrayEvaluation(c: Converter, s: SequenceType, genAllocated: bool, genAssociated: bool,
                             i: nat, address: nat, memory: nat -> nat)
    requires i < |s.shape|
    ensures var r := BoxedSequenceDI(c, s, genAllocated, genAssociated);
            && Evaluate(r.dataLocation.value, address, memory) == Some(memory(address))
            && (genAllocated ==>
                  Evaluate(r.allocatedExp.value, address, memory) == Some(if memory(address) != 0 then 1 else 0))
            && (genAssociated ==>
                  Evaluate(r.associatedExp.value, address, memory) == Some(if memory(address) != 0 then 1 else 0))
            && Evaluate(r.elements[i].count.expr, address, memory)
               == Some(memory(address + DimFieldOffset(c, i, c.model.dimExtentPos)))
            && Evaluate(r.elements[i].lowerBound.expr, address, memory)
               == Some(memory(address + DimFieldOffset(c, i, c.model.dimLowerBoundPos)))
  {
    EvaluateDerefBase(address, memory);
    EvaluateValidity(address, memory);
    EvaluateFieldAt(DimFieldOffset(c, i, c.model.dimExtentPos), address, memory);
    EvaluateFieldAt(DimFieldOffset(c, i, c.model.dimLowerBoundPos), address, memory);
  }

  /**
   * CHARACTER: ASCII encoding iff kind 1, UCS otherwise. Inside a
   * descriptor: size 0, the length expression is the address of the length
   * field (no dereference) and the location dereferences the base address.
   * Without a descriptor and with a constant length: size = length times
   * the kind's bit size and no expressions. Otherwise the placeholder.
   */
  lemma CharacterConversion(c: Converter, ch: CharacterType, hasDescriptor: bool)
    ensures var r := CharacterDI(c, ch, hasDescriptor);
            && ((hasDescriptor || ch.len.ConstantLen?) ==>
                  && r.DIStringType?
                  && (r.encoding == Ascii <==> ch.fKind == 1)
                  && (r.encoding == Ucs <==> ch.fKind != 1))
            && (hasDescriptor ==>
                  && r.sizeInBits == 0
                  && r.stringLengthExp == Some([Op(PushObjectAddress), ExprElem(PlusUconst, [c.offsets.lenOffset])])
                  && r.stringLocationExp == Some([Op(PushObjectAddress), Op(Deref)]))
            && (!hasDescriptor && ch.len.ConstantLen? ==>
                  && r.sizeInBits == ch.len.len * c.kinds.characterBitsize(ch.fKind)
                  && r.stringLengthExp.None? && r.stringLocationExp.None?)
            && (!hasDescriptor && ch.len.UnknownLen? ==> r == Placeholder())
  {
  }

  /**
   * A box dispatches on what it holds. An array of known shape gives a
   * descriptor array with neither allocated nor associated; an array of
   * unknown (empty) shape gives the placeholder. A heap (allocatable) or
   * pointer target is the pointer-like conversion with allocated, resp.
   * associated, requested, so an array target of known shape carries
   * allocated only, resp. associated only. Anything else gives the
   * placeholder.
   */
  lemma BoxConversion(c: Converter, el: FirType)
    ensures var r := TypeDI(c, BoxType(el));
            && (el.Sequence? && !HasUnknownShape(el.seqTy) ==>
                  r.DICompositeType? && r.allocatedExp.None? && r.associatedExp.None?)
            && (el.Sequence? && HasUnknownShape(el.seqTy) ==> r == Placeholder())
            && (el.HeapType? && el.pointee.Sequence? && !HasUnknownShape(el.pointee.seqTy) ==>
                  r.DICompositeType? && r.allocatedExp.Some? && r.associatedExp.None?)
            && (el.PointerType? && el.pointee.Sequence? && !HasUnknownShape(el.pointee.seqTy) ==>
                  r.DICompositeType? && r.allocatedExp.None? && r.associatedExp.Some?)
            && (el.HeapType? ==> r == PointerLikeDI(c, el.pointee, true, false))
            && (el.PointerType? ==> r == PointerLikeDI(c, el.pointee, false, true))
            && (!el.Sequence? && !el.HeapType? && !el.PointerType? ==> r == Placeholder())
  {
    if (el.HeapType? || el.PointerType?) && el.pointee.Sequence? && !HasUnknownShape(el.pointee.seqTy) {
      var s := el.pointee.seqTy;
      assert TypeDI(c, BoxType(el)) == BoxedSequenceDI(c, s, el.HeapType?, el.PointerType?);
    }
  }

  /**
   * A pointer-like target: an array takes the descriptor-array form with the
   * requested tests, a CHARACTER the descriptor string form, and anything
   * else becomes a pointer type over the converted target whose size is the
   * cached ptrSize, the byte count the code passes.
   */
  lemma PointerLikeConversion(c: Converter, elTy: FirType, genAllocated: bool, genAssociated: bool)
    ensures var r := PointerLikeDI(c, elTy, genAllocated, genAssociated);
            && (elTy.Sequence? ==> r == BoxedSequenceDI(c, elTy.seqTy, genAllocated, genAssociated))
            && (elTy.Character? ==> r.DIStringType? && r.sizeInBits == 0
                                    && r.stringLengthExp == Some(AddressAt(c.offsets.lenOffset)))
            && (!elTy.Sequence? && !elTy.Character? ==>
                  r == DIDerivedType(TypeDI(c, elTy), c.offsets.ptrSize))
  {
  }

  /** The types the converter does not support, named independently of the conversion. */
  predicate Unsupported(ty: FirType)
  {
    match ty
    case Character(ch) => ch.len.UnknownLen?
    case BoxType(el) =>
      (match el
       case Sequence(s) => |s.shape| == 0
       case HeapType(p) => p.Sequence? && |p.seqTy.shape| == 0
       case PointerType(p) => p.Sequence? && |p.seqTy.shape| == 0
       case _ => true)
    case HeapType(_) => true
    case PointerType(_) => true
    case OtherType(_) => true
    case _ => false
  }

  /**
   * The conversion yields the placeholder (a 32-bit signed "integer") exactly
   * for the unsupported types and for a 32-bit integer, which it describes
   * the same way.
   */
  lemma PlaceholderExactly(c: Converter, ty: FirType)
    ensures TypeDI(c, ty) == Placeholder() <==> Unsupported(ty) || ty == IntegerType(32)
  {
    assert "real" != "integer" by { assert "real"[0] != "integer"[0]; }
    assert "logical" != "integer" by { assert "logical"[0] != "integer"[0]; }
    assert "complex" != "integer" by { assert "complex"[0] != "integer"[0]; }
    match ty
    case BoxType(el) =>
      match el {
        case HeapType(p) => PointerLikeNotPlaceholder(c, p, true, false);
        case PointerType(p) => PointerLikeNotPlaceholder(c, p, false, true);
        case _ =>
      }
    case _ =>
  }

  /** Behind a pointer or allocatable only an assumed-rank array falls back to the placeholder. */
  lemma PointerLikeNotPlaceholder(c: Converter, p: FirType, genAllocated: bool, genAssociated: bool)
    ensures PointerLikeDI(c, p, genAllocated, genAssociated) == Placeholder()
            <==> p.Sequence? && HasUnknownShape(p.seqTy)
  {
  }

  predicate BoundWellFormed(b: Bound)
  {
    b.Exp? ==> WellFormed(b.expr)
  }

  predicate SubrangeWellFormed(s: Subrange)
  {
    BoundWellFormed(s.count) && BoundWellFormed(s.lowerBound) && BoundWellFormed(s.upperBound)
    && BoundWellFormed(s.stride)
  }

  predicate OptionWellFormed(e: Option<Expr>)
  {
    e.Some? ==> WellFormed(e.value)
  }

  /** Every expression anywhere in the tree is well formed. */
  predicate ExpressionsWellFormed(d: DIType)
  {
    match d
    case DIBasicType(_, _, _) => true
    case DICompositeType(base, elements, dataLocation, allocatedExp, associatedExp) =>
      && ExpressionsWellFormed(base)
      && (forall i :: 0 <= i < |elements| ==> SubrangeWellFormed(elements[i]))
      && OptionWellFormed(dataLocation) && OptionWellFormed(allocatedExp) && OptionWellFormed(associatedExp)
    case DIStringType(_, lengthExp, locationExp, _) => OptionWellFormed(lengthExp) && OptionWellFormed(locationExp)
    case DIDerivedType(base, _) => ExpressionsWellFormed(base)
  }

  /**
   * Every expression the conversion emits, at any depth of the tree, can be
   * evaluated by a debugger to exactly one value, whatever the object's
   * address and the process memory (see DebugInfo.WellFormedEvaluates).
   */
  lemma {:induction false} ConvertedExpressionsWellFormed(c: Converter, ty: FirType)
    ensures ExpressionsWellFormed(TypeDI(c, ty))
    decreases ty, 0
  {
    match ty
    case Sequence(s) =>
      ConvertedExpressionsWellFormed(c, s.eleTy);
    case Character(ch) =>
    case BoxType(el) =>
      match el {
        case Sequence(s) => BoxedExpressionsWellFormed(c, s, false, false);
        case HeapType(p) => PointerLikeExpressionsWellFormed(c, p, true, false);
        case PointerType(p) => PointerLikeExpressionsWellFormed(c, p, false, true);
        case _ =>
      }
    case _ =>
  }

  lemma {:induction false} BoxedExpressionsWellFormed(c: Converter, s: SequenceType, genAllocated: bool, genAssociated: bool)
    ensures ExpressionsWellFormed(BoxedSequenceDI(c, s, genAllocated, genAssociated))
    decreases s, 0
  {
    if !HasUnknownShape(s) {
      ConvertedExpressionsWellFormed(c, s.eleTy);
      PatternsWellFormed(0);
      var r := BoxedSequenceDI(c, s, genAllocated, genAssociated);
      forall i | 0 <= i < |r.elements|
        ensures SubrangeWellFormed(r.elements[i])
      {
        PatternsWellFormed(DimFieldOffset(c, i, c.model.dimExtentPos));
        PatternsWellFormed(DimFieldOffset(c, i, c.model.dimLowerBoundPos));
      }
    }
  }

  lemma {:induction false} PointerLikeExpressionsWellFormed(c: Converter, elTy: FirType, genAllocated: bool, genAssociated: bool)
    ensures ExpressionsWellFormed(PointerLikeDI(c, elTy, genAllocated, genAssociated))
    decreases elTy, 1
  {
    match elTy
    case Sequence(s) => BoxedExpressionsWellFormed(c, s, genAllocated, genAssociated);
    case Character(ch) => PatternsWellFormed(c.offsets.lenOffset);
    case _ => ConvertedExpressionsWellFormed(c, elTy);
  }

  /** Evaluated at a descriptor, the string length is the address of the cached length field and the location the stored base address. */
  lemma DescriptorStringEvaluation(c: Converter, ch: CharacterType, address: nat, memory: nat -> nat)
    ensures var r := CharacterDI(c, ch, true);
            && Evaluate(r.stringLengthExp.value, address, memory) == Some(address + c.offsets.lenOffset)
            && Evaluate(r.stringLocationExp.value, address, memory) == Some(memory(address))
  {
    EvaluateAddressAt(c.offsets.lenOffset, address, memory);
    EvaluateDerefBase(address, memory);
  }

  /**
   * A CHARACTER inside a descriptor built for layout `dl`: the length
   * expression yields the address of the descriptor's element-length field
   * and the location yields the base address stored in field 0.
   */
  lemma DescriptorStringReadsDescriptor(dl: DataLayout, model: DescriptorModel, kinds: KindMapping,
                                        ch: CharacterType, address: nat, memory: nat -> nat)
    requires ValidModel(model) && model.addrPos == 0
    ensures var r := CharacterDI(Converter(ResolveOffsets(dl, model), model, kinds), ch, true);
            && Evaluate(r.stringLengthExp.value, address, memory)
               == Some(address + ComponentOffset(dl, model, model.elemLenPos, model.fieldType(model.elemLenPos)))
            && Evaluate(r.stringLocationExp.value, address, memory)
               == Some(memory(address + ComponentOffset(dl, model, model.addrPos, model.fieldType(model.addrPos))))
  {
    var c := Converter(ResolveOffsets(dl, model), model, kinds);
    DescriptorStringEvaluation(c, ch, address, memory);
    assert ComponentOffset(dl, model, model.addrPos, model.fieldType(model.addrPos)) == 0;
  }

  /**
   * Dimension i of a descriptor array built for layout `dl` reads its bounds
   * from the i-th block of the descriptor's dims field.
   */
  lemma DescriptorArrayReadsDims(dl: DataLayout, model: DescriptorModel, kinds: KindMapping, i: nat, pos: nat)
    requires ValidModel(model) && pos < 3 && dl.typeSize(model.fieldType(model.dimsPos)) > 0
    ensures var c := Converter(ResolveOffsets(dl, model), model, kinds);
            var start := ComponentOffset(dl, model, model.dimsPos, model.fieldType(model.dimsPos));
            var size := dl.typeSize(model.fieldType(model.dimsPos));
            start + i * size <= DimFieldOffset(c, i, pos) < start + (i + 1) * size
  {
    BoundInsideDimension(Converter(ResolveOffsets(dl, model), model, kinds), i, pos);
  }

  // -------------------------------------------------------------------
  // Pointer size: the generator passes the pointer's byte size where the
  // attribute expects bits. CorrectedTypeDI is the conversion with the size
  // in bits; it differs from TypeDI in the pointer sizes alone.

  /** The converter with the cached pointer size turned from bytes into bits. */
  function BitSized(c: Converter): (r: Converter)
    ensures r.offsets.ptrSize == 8 * c.offsets.ptrSize
    ensures r.model == c.model && r.kinds == c.kinds
    ensures r.offsets.dimsOffset == c.offsets.dimsOffset && r.offsets.dimsSize == c.offsets.dimsSize
    ensures r.offsets.lenOffset == c.offsets.lenOffset
  {
    c.(offsets := c.offsets.(ptrSize := 8 * c.offsets.ptrSize))
  }

  /** convertType as evidently intended: every pointer type sized in bits. */
  function CorrectedTypeDI(c: Converter, ty: FirType): (r: DIType)
    ensures r.DIDerivedType? ==> r.sizeInBits == 8 * c.offsets.ptrSize
  {
    TypeDI(BitSized(c), ty)
  }

  /** `d` with the size of every pointer type in it multiplied by 8. */
  function ScalePointers(d: DIType): (r: DIType)
    ensures r.DIDerivedType? <==> d.DIDerivedType?
    ensures !d.DIDerivedType? && !d.DICompositeType? ==> r == d
  {
    match d
    case DIDerivedType(base, size) => DIDerivedType(ScalePointers(base), 8 * size)
    case DICompositeType(base, elements, location, allocatedExp, associatedExp) =>
      DICompositeType(ScalePointers(base), elements, location, allocatedExp, associatedExp)
    case _ => d
  }

  /** The corrected conversion differs from the conversion as written only in the sizes of pointer types. */
  lemma {:induction false} CorrectedScalesPointers(c: Converter, ty: FirType)
    ensures CorrectedTypeDI(c, ty) == ScalePointers(TypeDI(c, ty))
    decreases ty, 0
  {
    match ty
    case Sequence(s) => StaticScalesPointers(c, s);
    case BoxType(el) => BoxScalesPointers(c, el);
    case Character(ch) =>
    case HeapType(_) =>
    case PointerType(_) =>
    case OtherType(_) =>
    case _ => assert TypeDI(c, ty).DIBasicType?;
  }

  lemma {:induction false} BoxScalesPointers(c: Converter, el: FirType)
    ensures CorrectedTypeDI(c, BoxType(el)) == ScalePointers(TypeDI(c, BoxType(el)))
    decreases el, 2
  {
    match el
    case Sequence(s) => BoxedScalesPointers(c, s, false, false);
    case HeapType(p) => PointerLikeScalesPointers(c, p, true, false);
    case PointerType(p) => PointerLikeScalesPointers(c, p, false, true);
    case _ =>
  }

  lemma {:induction false} StaticScalesPointers(c: Converter, s: SequenceType)
    ensures SequenceDI(BitSized(c), s) == ScalePointers(SequenceDI(c, s))
    decreases s, 0
  {
    CorrectedScalesPointers(c, s.eleTy);
    var r, r' := SequenceDI(c, s), SequenceDI(BitSized(c), s);
    assert r'.elements == r.elements;
  }

  lemma {:induction false} BoxedScalesPointers(c: Converter, s: SequenceType, genAllocated: bool, genAssociated: bool)
    ensures BoxedSequenceDI(BitSized(c), s, genAllocated, genAssociated)
         == ScalePointers(BoxedSequenceDI(c, s, genAllocated, genAssociated))
    decreases s, 0
  {
    if !HasUnknownShape(s) {
      CorrectedScalesPointers(c, s.eleTy);
      var r, r' := BoxedSequenceDI(c, s, genAllocated, genAssociated), BoxedSequenceDI(BitSized(c), s, genAllocated, genAssociated);
      forall i | 0 <= i < |r.elements|
        ensures r'.elements[i] == r.elements[i]
      {
        assert DynamicSubrange(BitSized(c), i) == DynamicSubrange(c, i);
      }
      assert r'.elements == r.elements;
    }
  }

  lemma {:induction false} PointerLikeScalesPointers(c: Converter, elTy: FirType, genAllocated: bool, genAssociated: bool)
    ensures PointerLikeDI(BitSized(c), elTy, genAllocated, genAssociated)
         == ScalePointers(PointerLikeDI(c, elTy, genAllocated, genAssociated))
    decreases elTy, 1
  {
    match elTy
    case Sequence(s) => BoxedScalesPointers(c, s, genAllocated, genAssociated);
    case Character(ch) =>
    case _ => CorrectedScalesPointers(c, elTy);
  }

  /**
   * As written, an allocatable 64-bit integer on a target with 8-byte
   * pointers is described as a pointer 8 bits wide, not 64.
   */
  lemma PointerSizeAsWrittenIsBytes(dl: DataLayout, model: DescriptorModel, kinds: KindMapping)
    requires ValidModel(model) && dl.typeSize(model.fieldType(model.addrPos)) == 8
    ensures TypeDI(Converter(ResolveOffsets(dl, model), model, kinds), BoxType(HeapType(IntegerType(64))))
         == DIDerivedType(DIBasicType("integer", 64, Signed), 8)
  {
  }

  /**
   * Corrected: the pointer type of an allocatable or pointer scalar is as
   * many bits wide as the descriptor's base-address field.
   */
  lemma PointerSizeIsAddressFieldBits(dl: DataLayout, model: DescriptorModel, kinds: KindMapping, elTy: FirType)
    requires ValidModel(model) && !elTy.Sequence? && !elTy.Character?
    ensures var c := Converter(ResolveOffsets(dl, model), model, kinds);
            var bits := 8 * dl.typeSize(model.fieldType(model.addrPos));
            && CorrectedTypeDI(c, BoxType(HeapType(elTy))) == DIDerivedType(CorrectedTypeDI(c, elTy), bits)
            && CorrectedTypeDI(c, BoxType(PointerType(elTy))) == DIDerivedType(CorrectedTypeDI(c, elTy), bits)
  {
    var c := BitSized(Converter(ResolveOffsets(dl, model), model, kinds));
    assert TypeDI(c, BoxType(HeapType(elTy))) == PointerLikeDI(c, elTy, true, false);
    assert TypeDI(c, BoxType(PointerType(elTy))) == PointerLikeDI(c, elTy, false, true);
  }
}
