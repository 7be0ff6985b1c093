/**
 * Layout resolver: byte offsets of the fields of the Fortran runtime
 * descriptor, computed with the usual struct layout rule of the target's
 * data layout.
 */
module DescriptorLayout {

  /** The LLVM type of one descriptor field, as the descriptor type model gives it. */
  datatype LlvmType = LlvmPtr | LlvmInt(width: nat) | LlvmArray(elem: LlvmType, count: nat)

  /** An ABI alignment in bytes; never zero. */
  type Alignment = a: nat | a > 0 witness 1

  /** What the generator asks of the target data layout: type sizes and ABI alignments, in bytes. */
  datatype DataLayout = DataLayout(typeSize: LlvmType -> nat, abiAlignment: LlvmType -> Alignment)

  /**
   * The descriptor's type model: the LLVM type of the field at each position,
   * the positions of the dims block, the base address and the element length
   * in the descriptor, and the positions of extent and lower bound inside the
   * (lower bound, extent, stride) triple of one dimension.
   */
  datatype DescriptorModel = DescriptorModel(
    fieldType: nat -> LlvmType,
    dimsPos: nat,
    addrPos: nat,
    elemLenPos: nat,
    dimExtentPos: nat,
    dimLowerBoundPos: nat)

  /** The offsets and sizes the generator caches once per module, in bytes. */
  datatype DescriptorOffsets = DescriptorOffsets(dimsOffset: nat, dimsSize: nat, ptrSize: nat, lenOffset: nat)

  /** Field positions accepted by the offset computation (its static assertion). */
  const MaxDescriptorField: nat := 10

  lemma {:induction false} MulAtLeast(a: nat, d: nat)
    requires d >= 1
    ensures a * d >= a
  {
    if d > 1 {
      MulAtLeast(a, d - 1);
      assert a * d == a * (d - 1) + a;
    }
  }

  /** Division and remainder are the unique quotient and remainder of `x` by `a`. */
  lemma DivModUnique(x: int, a: Alignment, q: int, r: int)
    requires x == a * q + r && 0 <= r < a
    ensures x / a == q && x % a == r
  {
    var q0, r0 := x / a, x % a;
    assert x == a * q0 + r0;
    if q > q0 {
      assert a * q == a * q0 + a * (q - q0);
      MulAtLeast(a, q - q0);
    } else if q < q0 {
      assert a * q0 == a * q + a * (q0 - q);
      MulAtLeast(a, q0 - q);
    }
  }

  lemma RoundUp(value: nat, align: Alignment)
    ensures var r := (value + align - 1) / align * align;
            && r % align == 0
            && value <= r < value + align
            && (r == value <==> value % align == 0)
  {
    var q := (value + align - 1) / align;
    DivModUnique(value + align - 1, align, q, (value + align - 1) % align);
    DivModUnique(q * align, align, q, 0);
    if value % align == 0 {
      DivModUnique(value, align, value / align, 0);
      DivModUnique(value + align - 1, align, value / align, align - 1);
    }
  }

  /** `value` rounded up to the next multiple of `align` (llvm::alignTo). */
  function AlignTo(value: nat, align: Alignment): (r: nat)
    ensures r % align == 0
    ensures value <= r < value + align
    ensures r == value <==> value % align == 0
  {
    RoundUp(value, align);
    (value + align - 1) / align * align
  }

  /** End of the field at position `field`: its offset plus its size. */
  function FieldEnd(dl: DataLayout, model: DescriptorModel, field: nat): nat
    requires field < MaxDescriptorField
  {
    ComponentOffset(dl, model, field, model.fieldType(field)) + dl.typeSize(model.fieldType(field))
  }

  /**
   * Byte offset of descriptor field `field` whose LLVM type is `fieldTy`:
   * field 0 starts at 0, every later field at the end of the previous one
   * rounded up to its own ABI alignment.
   */
  function ComponentOffset(dl: DataLayout, model: DescriptorModel, field: nat, fieldTy: LlvmType): (r: nat)
    requires field < MaxDescriptorField
    ensures field == 0 ==> r == 0
    ensures r % dl.abiAlignment(fieldTy) == 0
    decreases field
  {
    if field == 0 then
      DivModUnique(0, dl.abiAlignment(fieldTy), 0, 0);
      0
    else
      var previousFieldType := model.fieldType(field - 1);
      var previousOffset := ComponentOffset(dl, model, field - 1, previousFieldType);
      AlignTo(previousOffset + dl.typeSize(previousFieldType), dl.abiAlignment(fieldTy))
  }

  /**
   * A field starts at or after the end of the previous one, at the first
   * multiple of its alignment there; it starts exactly there iff no padding
   * is needed.
   */
  lemma OffsetFollowsPreviousField(dl: DataLayout, model: DescriptorModel, field: nat)
    requires 0 < field < MaxDescriptorField
    ensures var r := ComponentOffset(dl, model, field, model.fieldType(field));
            var a := dl.abiAlignment(model.fieldType(field));
            && FieldEnd(dl, model, field - 1) <= r < FieldEnd(dl, model, field - 1) + a
            && (r == FieldEnd(dl, model, field - 1) <==> FieldEnd(dl, model, field - 1) % a == 0)
  {
    var fieldTy := model.fieldType(field);
    var previousEnd := FieldEnd(dl, model, field - 1);
    assert ComponentOffset(dl, model, field, fieldTy) == AlignTo(previousEnd, dl.abiAlignment(fieldTy));
  }

  /** No two descriptor fields overlap: every earlier field ends before a later one starts. */
  lemma {:induction false} FieldsDoNotOverlap(dl: DataLayout, model: DescriptorModel, i: nat, j: nat)
    requires i < j < MaxDescriptorField
    ensures FieldEnd(dl, model, i) <= ComponentOffset(dl, model, j, model.fieldType(j))
    decreases j
  {
    OffsetFollowsPreviousField(dl, model, j);
    if i < j - 1 {
      FieldsDoNotOverlap(dl, model, i, j - 1);
    }
  }

  /** Positions the generator looks up lie in the range the offset computation accepts. */
  predicate ValidModel(model: DescriptorModel)
  {
    model.dimsPos < MaxDescriptorField && model.addrPos < MaxDescriptorField && model.elemLenPos < MaxDescriptorField
  }

  /**
   * The four values the generator caches at construction: the offset and the
   * size of the dims block, the size of the base-address field and the offset
   * of the element-length field.
   */
  function ResolveOffsets(dl: DataLayout, model: DescriptorModel): (r: DescriptorOffsets)
    requires ValidModel(model)
    ensures r.dimsOffset % dl.abiAlignment(model.fieldType(model.dimsPos)) == 0
    ensures r.lenOffset % dl.abiAlignment(model.fieldType(model.elemLenPos)) == 0
  {
    var dimsType := model.fieldType(model.dimsPos);
    var ptrType := model.fieldType(model.addrPos);
    var lenType := model.fieldType(model.elemLenPos);
    DescriptorOffsets(
      ComponentOffset(dl, model, model.dimsPos, dimsType),
      dl.typeSize(dimsType),
      dl.typeSize(ptrType),
      ComponentOffset(dl, model, model.elemLenPos, lenType))
  }

  /** With the element length placed before the dims block, the cached length offset and the dims block do not overlap. */
  lemma LengthFieldBeforeDims(dl: DataLayout, model: DescriptorModel)
    requires ValidModel(model) && model.elemLenPos < model.dimsPos
    ensures var r := ResolveOffsets(dl, model);
            r.lenOffset + dl.typeSize(model.fieldType(model.elemLenPos)) <= r.dimsOffset
  {
    FieldsDoNotOverlap(dl, model, model.elemLenPos, model.dimsPos);
  }
}
