# Flang debug type generation and FORMAT cursor helpers, modelled in Dafny

This project models two parts of the Flang Fortran compiler and runtime.

**DebugTypeGenerator** (`src/lib/Optimizer/Transforms/DebugTypeGenerator.cpp`)
translates FIR types into LLVM debug-info type attributes.
- At construction, with a data layout, it caches the offset of the dims block, the size of one dims entry (one CFI_dim_t), the size of the base-address field and the offset of the element-length field in the descriptor ("box"). Without a data layout it caches nothing.
- Each field offset is the end of the previous field rounded up to the field's ABI alignment.
- Conversion maps:
  - integers, reals, logicals and complexes to basic types;
  - arrays whose shape is in their type to array types with one subrange per dimension: a constant extent gives a constant count and lower bound 1, an unknown extent a subrange with nothing set;
  - arrays of known rank inside a descriptor to array types whose data location, allocated/associated tests and per-dimension count and lower bound are DWARF expressions that read the descriptor;
  - CHARACTER of constant length, or inside a descriptor, to string types;
  - boxes of heap or pointer targets: an array target of known shape to a descriptor array type, a CHARACTER target to a descriptor string type, and any other target to a pointer type. The pointer type's size is the cached pointer size in bytes, as the code passes it (see "## Findings").
- An array of unknown (empty) shape inside a descriptor, a CHARACTER of unknown length outside one, and everything else become a placeholder type.

The model is split into four modules:
- `DescriptorLayout` (layout.dfy): the layout computation.
- `DebugInfo` (debug_info.dfy): the attributes, plus a small stack evaluator for the DWARF 5 operations used (section 2.5 of the DWARF 5 standard). The evaluator gives the emitted expressions a meaning.
- `TypeConversion` (type_conversion.dfy): the conversion as functions over types.
- `Generator` (generator.dfy): the generator class.
  - Its constructor fills the offset fields.
  - Its methods build expressions in an operation buffer and subranges in a loop, as the C++ does.
  - Each method is proved equal to the conversion function.

**FormatControl helpers** (`src/runtime/format.h`) are the inline parts of the runtime's FORMAT interpreter. They are modelled in module `Format` (format.dfy):
- a cursor over the format that skips blanks, peeks, and takes the next character, signalling an error at the end;
- the bad-format report that echoes the format trimmed of spaces;
- `Capitalize`;
- the list-directed and NAMELIST tests on a data edit;
- `GetNeededSize`.

`FormatControl` and the error handler are classes whose methods update their fields.

## Model

| member | source | states |
|---|---|---|
| DescriptorLayout.AlignTo | src/lib/Optimizer/Transforms/DebugTypeGenerator.cpp:36-38 | the result is the least multiple of the alignment that is at least the value: a multiple, below value + alignment, and equal to the value iff the value is already aligned |
| DescriptorLayout.ComponentOffset | src/lib/Optimizer/Transforms/DebugTypeGenerator.cpp:26-45 | field 0 sits at offset 0; every field offset is a multiple of that field's ABI alignment |
| DescriptorLayout.OffsetFollowsPreviousField | src/lib/Optimizer/Transforms/DebugTypeGenerator.cpp:32-38 | a field starts at or after the end of the previous field, less than one alignment unit after it, and exactly at it iff that end is already aligned |
| DescriptorLayout.FieldsDoNotOverlap | src/lib/Optimizer/Transforms/DebugTypeGenerator.cpp:26-45 | every earlier field ends before any later field starts, so descriptor fields never overlap |
| DescriptorLayout.ResolveOffsets | src/lib/Optimizer/Transforms/DebugTypeGenerator.cpp:58-68 | the resolved dims and element-length offsets are aligned for their field types |
| DescriptorLayout.LengthFieldBeforeDims | src/lib/Optimizer/Transforms/DebugTypeGenerator.cpp:60-68 | when the element length precedes the dims in the descriptor, the element-length field ends before the dims begin |
| Generator.DebugTypeGenerator.constructor | src/lib/Optimizer/Transforms/DebugTypeGenerator.cpp:47-69 | the kind mapping is stored; with a data layout the four offsets are those the layout resolves; without one, construction stops early with the offsets unset |
| DebugInfo.BasicType | src/lib/Optimizer/Transforms/DebugTypeGenerator.cpp:71-77 | a basic type carries exactly the given name, size in bits and encoding |
| DebugInfo.Placeholder | src/lib/Optimizer/Transforms/DebugTypeGenerator.cpp:79-82 | the placeholder is a 32-bit signed basic type named "integer" |
| DebugInfo.DepthSound | src/lib/Optimizer/Transforms/DebugTypeGenerator.cpp:94-112 | an expression that never pops an empty stack runs without error, leaving the statically predicted number of values |
| DebugInfo.WellFormedEvaluates | src/lib/Optimizer/Transforms/DebugTypeGenerator.cpp:94-112 | a well-formed expression evaluates to one value for every object address and memory |
| DebugInfo.PatternsWellFormed | src/lib/Optimizer/Transforms/DebugTypeGenerator.cpp:125-138 | the four expression shapes the generator emits (dereference base, validity test, field address, field value) are well formed |
| DebugInfo.EvaluateDerefBase | src/lib/Optimizer/Transforms/DebugTypeGenerator.cpp:99-104 | the data-location expression yields the word stored at the descriptor's address, the base address |
| DebugInfo.EvaluateValidity | src/lib/Optimizer/Transforms/DebugTypeGenerator.cpp:105-110 | the allocated/associated expression yields 1 iff the stored base address is not null, else 0 |
| DebugInfo.EvaluateFieldAt | src/lib/Optimizer/Transforms/DebugTypeGenerator.cpp:125-132 | the count and lower-bound expressions yield the word at the descriptor address plus the offset |
| DebugInfo.EvaluateAddressAt | src/lib/Optimizer/Transforms/DebugTypeGenerator.cpp:226-228 | the CHARACTER length expression yields the address of the length field, not its contents |
| TypeConversion.TypeDI | src/lib/Optimizer/Transforms/DebugTypeGenerator.cpp:276-332 | an array always becomes an array type; a pointer type only comes from a box of a heap or pointer target; a string type only from a CHARACTER or a box |
| TypeConversion.SequenceDI | src/lib/Optimizer/Transforms/DebugTypeGenerator.cpp:157-202 | a static array has one subrange per dimension and no data location, allocated or associated expression |
| TypeConversion.BoxedSequenceDI | src/lib/Optimizer/Transforms/DebugTypeGenerator.cpp:84-155 | the placeholder iff the shape is unknown (empty); otherwise one subrange per dimension, with allocated present iff requested and associated present iff requested |
| TypeConversion.CharacterDI | src/lib/Optimizer/Transforms/DebugTypeGenerator.cpp:204-249 | the placeholder iff there is no descriptor and the length is unknown; a string type is ASCII iff the kind is 1 |
| TypeConversion.PointerLikeDI | src/lib/Optimizer/Transforms/DebugTypeGenerator.cpp:251-274 | a pointer type iff the target is neither an array nor a CHARACTER, and then its size is the cached ptrSize, as the code passes it |
| TypeConversion.ScalarConversion | src/lib/Optimizer/Transforms/DebugTypeGenerator.cpp:281-307 | integers and floats keep their bit width; REAL and LOGICAL take the kind mapping's bit size; a complex is a complex-float basic type twice as wide as its component |
| TypeConversion.StaticArrayConversion | src/lib/Optimizer/Transforms/DebugTypeGenerator.cpp:157-202 | one subrange per dimension in order: a known extent gives count = extent and lower bound 1, an unknown extent a subrange with nothing set; no data location, allocated or associated |
| TypeConversion.StaticArrayExample | src/lib/Optimizer/Transforms/DebugTypeGenerator.cpp:166-201 | a 3 x 4 array of 32-bit reals gives subranges (3, 1) and (4, 1) over a 32-bit real |
| TypeConversion.BoxedArrayConversion | src/lib/Optimizer/Transforms/DebugTypeGenerator.cpp:84-155 | an array of unknown (empty) shape gives the placeholder; otherwise one subrange per dimension whose count and lower bound read dims[i]; the data location dereferences the base; the validity test is attached as allocated/associated exactly when requested |
| TypeConversion.BoundInsideDimension | src/lib/Optimizer/Transforms/DebugTypeGenerator.cpp:118-144 | the offset read for entry pos of dimension i lies inside the i-th dims block |
| TypeConversion.BoundsDistinct | src/lib/Optimizer/Transforms/DebugTypeGenerator.cpp:118-144 | different (dimension, entry) pairs read different descriptor offsets |
| TypeConversion.BoxedArrayEvaluation | src/lib/Optimizer/Transforms/DebugTypeGenerator.cpp:99-149 | evaluated at a descriptor, the boxed array's data location is the base address, validity is 1 iff it is non-null, and dimension i's count and lower bound are the dims words at their offsets |
| TypeConversion.CharacterConversion | src/lib/Optimizer/Transforms/DebugTypeGenerator.cpp:204-249 | ASCII iff kind 1, else UCS; in a descriptor: size 0, length expression = address of the length field, location = dereferenced base; without one: constant length times kind bit size, no expressions; otherwise the placeholder |
| TypeConversion.BoxConversion | src/lib/Optimizer/Transforms/DebugTypeGenerator.cpp:313-326 | a box of a known-shape array gives a descriptor array with neither test; of an empty-shape array, the placeholder; a box of a heap or pointer target is the pointer-like conversion with allocated requested for heap and associated for pointer, so a known-shape array target carries allocated only (heap) or associated only (pointer); a box of anything else gives the placeholder |
| TypeConversion.PointerLikeConversion | src/lib/Optimizer/Transforms/DebugTypeGenerator.cpp:251-274 | an array target takes the descriptor-array form with the requested tests; a CHARACTER target the descriptor string form (size 0, length expression = address of the length field); any other target a pointer type over the converted target whose size is ptrSize, the byte count the code passes |
| TypeConversion.PlaceholderExactly | src/lib/Optimizer/Transforms/DebugTypeGenerator.cpp:276-332 | the conversion yields the placeholder iff the type is one of the unsupported types (independently listed) or a 32-bit integer |
| TypeConversion.PointerLikeNotPlaceholder | src/lib/Optimizer/Transforms/DebugTypeGenerator.cpp:251-274 | a pointer or allocatable target yields the placeholder iff it is an array of unknown (empty) shape; a CHARACTER target, having a descriptor, never does |
| TypeConversion.ConvertedExpressionsWellFormed | src/lib/Optimizer/Transforms/DebugTypeGenerator.cpp:276-332 | every DWARF expression anywhere in a converted type is well formed, so a debugger can always evaluate it |
| TypeConversion.BoxedExpressionsWellFormed | src/lib/Optimizer/Transforms/DebugTypeGenerator.cpp:84-155 | every expression of a descriptor array, including those in its element type, is well formed |
| TypeConversion.PointerLikeExpressionsWellFormed | src/lib/Optimizer/Transforms/DebugTypeGenerator.cpp:251-274 | every expression of a pointer-like conversion is well formed |
| TypeConversion.DescriptorStringEvaluation | src/lib/Optimizer/Transforms/DebugTypeGenerator.cpp:221-233 | evaluated at a descriptor, the string length expression yields the address of the element-length field at the cached offset and the location yields the stored base address |
| TypeConversion.DescriptorStringReadsDescriptor | src/lib/Optimizer/Transforms/DebugTypeGenerator.cpp:221-233 | for offsets resolved from a layout, the string length expression yields the address of the element-length field and the location yields the base address in field 0 |
| TypeConversion.DescriptorArrayReadsDims | src/lib/Optimizer/Transforms/DebugTypeGenerator.cpp:60-68 | for offsets resolved from a layout, dimension i's bounds are read inside the i-th block of the dims field, past the aligned start of that field |
| TypeConversion.PointerSizeAsWrittenIsBytes | src/lib/Optimizer/Transforms/DebugTypeGenerator.cpp:267-273 | as written, an allocatable 64-bit integer on a target with 8-byte pointers becomes a pointer type 8 bits wide, not 64 |
| TypeConversion.PointerSizeIsAddressFieldBits | src/lib/Optimizer/Transforms/DebugTypeGenerator.cpp:267-273 | corrected, the pointer type of an allocatable or pointer scalar is 8 times the byte size of the descriptor's base-address field |
| TypeConversion.CorrectedTypeDI | src/lib/Optimizer/Transforms/DebugTypeGenerator.cpp:267-273 | corrected, a conversion that yields a pointer type gives it 8 * ptrSize bits, the bit width of the pointer |
| TypeConversion.CorrectedScalesPointers | src/lib/Optimizer/Transforms/DebugTypeGenerator.cpp:267-273 | the corrected conversion equals the conversion as written with every pointer type's size multiplied by 8 and nothing else changed |
| TypeConversion.StaticScalesPointers | src/lib/Optimizer/Transforms/DebugTypeGenerator.cpp:157-202 | for a static array, the corrected and as-written conversions differ only in the pointer sizes inside its element type |
| TypeConversion.BoxScalesPointers | src/lib/Optimizer/Transforms/DebugTypeGenerator.cpp:313-326 | for a box, the corrected and as-written conversions differ only in pointer sizes |
| TypeConversion.BoxedScalesPointers | src/lib/Optimizer/Transforms/DebugTypeGenerator.cpp:84-155 | for a descriptor array, the corrected and as-written conversions differ only in the pointer sizes inside its element type |
| TypeConversion.PointerLikeScalesPointers | src/lib/Optimizer/Transforms/DebugTypeGenerator.cpp:251-274 | for a pointer-like target, the corrected and as-written conversions differ only in pointer sizes |
| Generator.DebugTypeGenerator.ConvertBoxedSequenceType | src/lib/Optimizer/Transforms/DebugTypeGenerator.cpp:84-155 | the buffer-and-loop construction yields exactly the descriptor array of the conversion function |
| Generator.DebugTypeGenerator.ConvertSequenceType | src/lib/Optimizer/Transforms/DebugTypeGenerator.cpp:157-202 | the subrange loop yields exactly the static array of the conversion function |
| Generator.DebugTypeGenerator.ConvertCharacterType | src/lib/Optimizer/Transforms/DebugTypeGenerator.cpp:204-249 | yields exactly the string type of the conversion function |
| Generator.DebugTypeGenerator.ConvertPointerLikeType | src/lib/Optimizer/Transforms/DebugTypeGenerator.cpp:251-274 | yields exactly the pointer-like conversion, with the cached ptrSize as the pointer size, as the code does |
| Generator.DebugTypeGenerator.ConvertType | src/lib/Optimizer/Transforms/DebugTypeGenerator.cpp:276-332 | the dispatch yields exactly the conversion function for every type |
| Format.SkipBlanksFrom | src/runtime/format.h:120-126 | skipping stops at the end of the format or at the first character that is not a space, tab or vertical tab; everything passed over is blank |
| Format.SkipBlanksIdempotent | src/runtime/format.h:120-126 | skipping blanks a second time does not move the cursor |
| Format.FormatControl.constructor | src/runtime/format.h:184-190 | a control over a format stores the format and its length and starts with the cursor at offset 0 |
| Format.FormatControl.SkipBlanks | src/runtime/format.h:120-126 | the loop moves the cursor to where skipping blanks stops and changes nothing else |
| Format.FormatControl.PeekNext | src/runtime/format.h:127-130 | skips blanks and returns the character there, or '\0' at the end, without consuming it |
| Format.FormatControl.GetNextChar | src/runtime/format.h:131-144 | skips blanks and consumes and returns a non-blank character; at the end it signals IostatErrorInFormat ("Empty or badly assigned FORMAT" for an empty format, otherwise "FORMAT missing at least one ')'") and returns '\n' without consuming |
| Format.FormatControl.ReportBadFormat | src/runtime/format.h:159-179 | signals exactly one IostatErrorInFormat carrying the message, the offset and the format trimmed of leading and trailing spaces, or no echo when only spaces are left |
| Format.Echo | src/runtime/format.h:163-174 | an echo is never empty, no longer than the format, and starts and ends with a non-space |
| Format.EchoBounds | src/runtime/format.h:163-171 | the two scans of the report delimit exactly the trimmed echo |
| Format.EchoNoneIffAllSpaces | src/runtime/format.h:171-178 | the report has no echo iff the format is empty or all spaces |
| Format.EchoTrimsOnlySpaces | src/runtime/format.h:161-174 | the echo is non-empty, starts and ends with a non-space, and the format is the echo surrounded by spaces only |
| Format.EchoKeepsTabs | src/runtime/format.h:164-170 | for every format, every character other than a space, tabs included, lies between the trimmed ends and appears in the echo at its own position |
| Format.EchoKeepsCharacter | src/runtime/format.h:164-170 | a single character other than a space lies between the trimmed ends, the echo exists, and the character appears in it at its own position |
| Format.EchoKeepsTabsExample | src/runtime/format.h:164-170 | " \t(I5) " is echoed as "\t(I5)": the leading tab survives while the spaces are trimmed |
| Format.Capitalize | src/runtime/format.h:155-157 | a lower-case letter becomes the corresponding upper-case letter; every other character is unchanged |
| Format.CapitalizeIdempotent | src/runtime/format.h:155-157 | capitalizing never yields a lower-case letter, so capitalizing twice equals capitalizing once |
| Format.IsListDirected | src/runtime/format.h:56-59 | a list-directed marker is a lower-case letter, so never a capitalized descriptor, and neither the null-value marker nor DT |
| Format.IsNamelist | src/runtime/format.h:60-62 | a NAMELIST edit is list-directed, and outside NAMELIST I/O no edit is NAMELIST |
| Format.DataEditClassification | src/runtime/format.h:49-64 | no capitalized descriptor letter 'A' to 'Z' is list-directed or NAMELIST, in any mode; neither the null-value marker nor DT is list-directed; a capitalized letter never gives a list-directed or NAMELIST edit |
| Format.NeededSizeNoWrap | src/runtime/format.h:97-100 | for a height within the stack's depth the size_t subtraction does not wrap |
| Format.GetNeededSize | src/runtime/format.h:97-100 | the result is a size_t; within the depth, adding one Iteration per removed level gives back the full object size |
| Format.NeededSizeMonotone | src/runtime/format.h:97-112 | the full height needs the whole object; the needed size grows with the height, by exactly one Iteration per level |

## Left out

- MLIR contexts, attribute uniquing, the file, scope and location parameters, and the attribute fields the generator sets to constants (tags, names of arrays, flags, alignment, rank, recursive id) are not modelled. The conversions do not depend on them.
- `emitError` and `LLVM_DEBUG` output are not modelled. A missing data layout is modelled as construction stopping early with the offsets left unset.
- The descriptor field type model (`getDescFieldTypeModel`), the field positions `kDimsPosInBox` and the rest, and `getKindMapping` are not part of this model. They enter as parameters: a `DescriptorModel` with at most ten fields, and a `KindMapping`.
- The data layout's type sizes and ABI alignments are parameters, not computed.
- DescriptorLayout.AlignTo: does not model the wrap-around of `uint64_t` additions; sizes and offsets are unbounded naturals.
- TypeConversion.CharacterDI: does not model the 64-bit wrap-around of length times kind bit size; the product is an unbounded natural.
- DebugInfo.BasicType: does not model the truncation of the size to the 32-bit `unsigned bitSize` parameter, which also receives twice a complex component's width; sizes are unbounded.
- TypeConversion.DynamicSubrange: does not model the truncation of the offset to a 32-bit `unsigned` in the subrange loop; offsets are unbounded.
- The `llvm_unreachable` for other complex types has no counterpart. The model's type datatype has exactly the two complex forms.
- Recursive and derived (record) types are not modelled. The type datatype is finite, and record types fall under the placeholder case.
- Without a data layout the constructor only reports the error and returns. The offset fields stay unset, and later conversions use them as they are.
- The CHARACTER length expression is push_object_address; plus_uconst lenOffset, with no deref. It therefore yields the length field's address (`DebugInfo.EvaluateAddressAt`).
- FIR's `hasUnknownShape` (an empty shape) is defined outside the files modelled here. The model takes an empty extent list to be that unknown (assumed-rank) shape.
- A 32-bit integer produces an attribute equal to the placeholder. Unsupported types therefore cannot be told apart from it by the result alone; `TypeConversion.PlaceholderExactly` states this.
- `GetNextDataEdit`, `CueUpNextDataEdit`, `GetIntField`, `Finish` and the body of the `FormatControl` constructor (declared in format.h, defined elsewhere) are not part of this model.
  - Format.FormatControl.constructor: the member initializers set `format_` to null, `formatLength_` to 0 and `offset_` to 0. Storing the format and its length assumes what the constructor declared at format.h:92-94 does, and its body is not part of this model.
  - `maxHeight_`, `height_`, `freeFormat_`, `hitEnd_`, the iteration stack and the `Terminator` are not modelled.
- `MutableModes` is reduced to the `inNamelist` flag that `IsNamelist` reads. `DataEdit` is reduced to its descriptor and modes.
- `IoErrorHandler` and the I/O statement context are modelled only as the record of the errors signalled to them. printf-style formatting of the report is modelled as the `BadFormat` message value: message, offset and optional echo.
- Format characters are Dafny `char` values, not C `char` bytes.
- Format.GetNeededSize: `sizeof(FormatControl)` and `sizeof(Iteration)` are parameters.
- Reduction.cpp, CrossToolHelpers.h, Command.h and test-CFI_address.cc are not part of this model.

## Findings

| source | as written | input that shows it | evidently intended | confidence | as-written member | corrected member |
|---|---|---|---|---|---|---|
| src/lib/Optimizer/Transforms/DebugTypeGenerator.cpp:267-273 | the pointer type's sizeInBits is `ptrSize`, a byte count from `DataLayout::getTypeSize` (line 67) | a box of a heap `i64` on a target with 8-byte pointers: the pointer type is described as 8 bits wide (`TypeConversion.PointerSizeAsWrittenIsBytes`) | sizeInBits = 8 * ptrSize, here 64 | not executed; high | TypeConversion.PointerLikeDI | TypeConversion.CorrectedTypeDI |
