/**
 * The debug-type generator object: its constructor resolves and caches the
 * descriptor offsets once per module; its conversion methods build the
 * attribute tree with the expression and element buffers the way the
 * generator does, and each is proved to return what the TypeConversion
 * specification prescribes for the cached offsets.
 */
module Generator {
  import opened Wrappers
  import opened DescriptorLayout
  import opened DebugInfo
  import opened TypeConversion

  class DebugTypeGenerator {
    /** The descriptor type model (field types and positions) of the target. */
    const model: DescriptorModel
    /** The kind mapping of the module. */
    const kinds: KindMapping

    var dimsOffset: nat
    var dimsSize: nat
    var ptrSize: nat
    var lenOffset: nat

    /** The cached values and tables every conversion consults. */
    function Conv(): Converter
      reads this
    {
      Converter(DescriptorOffsets(dimsOffset, dimsSize, ptrSize, lenOffset), model, kinds)
    }

    /**
     * Without a data layout the constructor stops early and leaves the
     * offsets unset; with one, it caches the offset and size of the dims
     * block, the pointer size and the offset of the element length.
     */
    constructor (layout: Option<DataLayout>, model: DescriptorModel, kinds: KindMapping)
      requires ValidModel(model)
      ensures this.model == model && this.kinds == kinds
      ensures layout.Some? ==> Conv().offsets == ResolveOffsets(layout.value, model)
    {
      this.model := model;
      this.kinds := kinds;
      new;
      if layout.Some? {
        var dl := layout.value;
        var llvmDimsType := model.fieldType(model.dimsPos);
        var llvmPtrType := model.fieldType(model.addrPos);
        var llvmLenType := model.fieldType(model.elemLenPos);
        dimsOffset := ComponentOffset(dl, model, model.dimsPos, llvmDimsType);
        dimsSize := dl.typeSize(llvmDimsType);
        ptrSize := dl.typeSize(llvmPtrType);
        lenOffset := ComponentOffset(dl, model, model.elemLenPos, llvmLenType);
      }
    }

    /** convertBoxedSequenceType. */
    method ConvertBoxedSequenceType(s: SequenceType, genAllocated: bool, genAssociated: bool) returns (r: DIType)
      ensures r == BoxedSequenceDI(Conv(), s, genAllocated, genAssociated)
      decreases s, 0
    {
      if |s.shape| == 0 {
        return Placeholder();
      }

      var ops: Expr := [];
      ops := ops + [ExprElem(PushObjectAddress, [])];
      ops := ops + [ExprElem(Deref, [])];
      var dataLocation := ops;
      ops := ops + [ExprElem(Lit0, [])];
      ops := ops + [ExprElem(Ne, [])];
      var valid := ops;
      var allocatedExp := if genAllocated then Some(valid) else None;
      var associatedExp := if genAssociated then Some(valid) else None;
      assert dataLocation == DerefBase() && valid == Validity();
      ops := [];

      var elements: seq<Subrange> := [];
      var elemTy := ConvertType(s.eleTy);
      var offset := dimsOffset;
      var indexSize := dimsSize / 3;
      for d := 0 to |s.shape|
        invariant offset == dimsOffset + d * dimsSize
        invariant ops == []
        invariant |elements| == d
        invariant forall k :: 0 <= k < d ==> elements[k] == DynamicSubrange(Conv(), k)
      {
        ops := ops + [ExprElem(PushObjectAddress, [])];
        ops := ops + [ExprElem(PlusUconst, [offset + indexSize * model.dimExtentPos])];
        ops := ops + [ExprElem(Deref, [])];
        var countAttr := ops;
        ops := [];

        ops := ops + [ExprElem(PushObjectAddress, [])];
        ops := ops + [ExprElem(PlusUconst, [offset + indexSize * model.dimLowerBoundPos])];
        ops := ops + [ExprElem(Deref, [])];
        var lowerAttr := ops;
        ops := [];

        assert countAttr == FieldAt(DimFieldOffset(Conv(), d, model.dimExtentPos));
        assert lowerAttr == FieldAt(DimFieldOffset(Conv(), d, model.dimLowerBoundPos));
        offset := offset + dimsSize;
        elements := elements + [Subrange(Exp(countAttr), Exp(lowerAttr), Null, Null)];
      }
      r := DICompositeType(elemTy, elements, Some(dataLocation), allocatedExp, associatedExp);
    }

    /** convertSequenceType. */
    method ConvertSequenceType(s: SequenceType) returns (r: DIType)
      ensures r == SequenceDI(Conv(), s)
      decreases s, 0
    {
      var elements: seq<Subrange> := [];
      var elemTy := ConvertType(s.eleTy);
      var shape := s.shape;
      for d := 0 to |shape|
        invariant |elements| == d
        invariant forall k :: 0 <= k < d ==> elements[k] == StaticSubrange(shape[k])
      {
        var dim := shape[d];
        if dim.UnknownExtent? {
          elements := elements + [Subrange(Null, Null, Null, Null)];
        } else {
          elements := elements + [Subrange(Const(dim.value), Const(1), Null, Null)];
        }
      }
      r := DICompositeType(elemTy, elements, None, None, None);
    }

    /** convertCharacterType. */
    method ConvertCharacterType(ch: CharacterType, hasDescriptor: bool) returns (r: DIType)
      ensures r == CharacterDI(Conv(), ch, hasDescriptor)
    {
      var encoding := Ascii;
      if ch.fKind != 1 {
        encoding := Ucs;
      }

      var sizeInBits := 0;
      var lenExpr: Option<Expr> := None;
      var locExpr: Option<Expr> := None;

      if hasDescriptor {
        var ops: Expr := [];
        ops := ops + [ExprElem(PushObjectAddress, [])];
        ops := ops + [ExprElem(PlusUconst, [lenOffset])];
        assert ops == AddressAt(lenOffset);
        lenExpr := Some(ops);
        ops := [];

        ops := ops + [ExprElem(PushObjectAddress, [])];
        ops := ops + [ExprElem(Deref, [])];
        assert ops == DerefBase();
        locExpr := Some(ops);
      } else if ch.len.ConstantLen? {
        sizeInBits := ch.len.len * kinds.characterBitsize(ch.fKind);
      } else {
        return Placeholder();
      }
      r := DIStringType(sizeInBits, lenExpr, locExpr, encoding);
    }

    /** convertPointerLikeType. */
    method ConvertPointerLikeType(elTy: FirType, genAllocated: bool, genAssociated: bool) returns (r: DIType)
      ensures r == PointerLikeDI(Conv(), elTy, genAllocated, genAssociated)
      decreases elTy, 1
    {
      if elTy.Sequence? {
        r := ConvertBoxedSequenceType(elTy.seqTy, genAllocated, genAssociated);
        return;
      }
      if elTy.Character? {
        r := ConvertCharacterType(elTy.charTy, true);
        return;
      }
      var elTyAttr := ConvertType(elTy);
      r := DIDerivedType(elTyAttr, ptrSize);
    }

    /** convertType. */
    method ConvertType(ty: FirType) returns (r: DIType)
      ensures r == TypeDI(Conv(), ty)
      decreases ty, 0
    {
      match ty
      case IntegerType(width) =>
        r := BasicType("integer", width, Signed);
      case FloatType(width) =>
        r := BasicType("real", width, FloatEnc);
      case RealType(k) =>
        r := BasicType("real", kinds.realBitsize(k), FloatEnc);
      case LogicalType(k) =>
        r := BasicType("logical", kinds.logicalBitsize(k), Boolean);
      case MlirComplexType(width) =>
        r := BasicType("complex", width * 2, ComplexFloat);
      case FirComplexType(k) =>
        r := BasicType("complex", kinds.realBitsize(k) * 2, ComplexFloat);
      case Sequence(s) =>
        r := ConvertSequenceType(s);
      case Character(ch) =>
        r := ConvertCharacterType(ch, false);
      case BoxType(el) =>
        match el {
          case Sequence(s) =>
            r := ConvertBoxedSequenceType(s, false, false);
          case HeapType(p) =>
            r := ConvertPointerLikeType(p, true, false);
          case PointerType(p) =>
            r := ConvertPointerLikeType(p, false, true);
          case _ =>
            r := Placeholder();
        }
      case _ =>
        r := Placeholder();
    }
  }
}
