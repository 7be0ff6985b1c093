/**
 * The debug-type attribute tree the generator builds, the DWARF expression
 * operations it uses (section 2.5 of DWARF Version 5), the fixed expression
 * patterns it synthesizes, and a small stack-machine evaluator that gives
 * those patterns their meaning for a debugger.
 */
module DebugInfo {
  import opened Wrappers

  /** The DWARF stack operations the generator emits. */
  datatype DwOp = PushObjectAddress | PlusUconst | Deref | Lit0 | Ne

  /** One element of a DIExpression: an opcode and its unsigned operands. */
  datatype ExprElem = ExprElem(opcode: DwOp, operands: seq<nat>)

  type Expr = seq<ExprElem>

  /** DW_ATE_* base-type encodings used by the generator. */
  datatype Encoding = Signed | FloatEnc | Boolean | ComplexFloat | Ascii | Ucs

  /** A subrange bound: absent (null attribute), a 64-bit constant, or an expression. */
  datatype Bound = Null | Const(value: int) | Exp(expr: Expr)

  /** DISubrangeAttr. */
  datatype Subrange = Subrange(count: Bound, lowerBound: Bound, upperBound: Bound, stride: Bound)

  /**
   * The debug-type attributes produced.
   * DIBasicType: DW_TAG_base_type.
   * DICompositeType: DW_TAG_array_type with no name, file, scope or line,
   *   flags zero, size and alignment 0, no rank.
   * DIStringType: DW_TAG_string_type named "", alignment 0, no constant
   *   string-length attribute.
   * DIDerivedType: DW_TAG_pointer_type named "", alignment and offset 0, no
   *   address space and no extra data.
   */
  datatype DIType =
    | DIBasicType(name: string, sizeInBits: nat, encoding: Encoding)
    | DICompositeType(baseType: DIType, elements: seq<Subrange>, dataLocation: Option<Expr>,
                      allocatedExp: Option<Expr>, associatedExp: Option<Expr>)
    | DIStringType(sizeInBits: nat, stringLengthExp: Option<Expr>, stringLocationExp: Option<Expr>,
                   encoding: Encoding)
    | DIDerivedType(baseType: DIType, sizeInBits: nat)

  /** genBasicType: a DW_TAG_base_type with the given name, size in bits and encoding. */
  function BasicType(name: string, bitSize: nat, encoding: Encoding): (r: DIType)
    ensures r.DIBasicType? && r.name == name && r.sizeInBits == bitSize && r.encoding == encoding
  {
    DIBasicType(name, bitSize, encoding)
  }

  /** genPlaceholderType: the stand-in for every type the generator does not support. */
  function Placeholder(): (r: DIType)
    ensures r == DIBasicType("integer", 32, Signed)
  {
    BasicType("integer", 32, Signed)
  }

  /** An operation without operands. */
  function Op(opcode: DwOp): ExprElem
  {
    ExprElem(opcode, [])
  }

  /** Dereferenced base: the value stored at the start of the object. */
  function DerefBase(): Expr
  {
    [Op(PushObjectAddress), Op(Deref)]
  }

  /** Validity test: whether the value stored at the start of the object is not 0. */
  function Validity(): Expr
  {
    [Op(PushObjectAddress), Op(Deref), Op(Lit0), Op(Ne)]
  }

  /** The address `offset` bytes into the object. */
  function AddressAt(offset: nat): Expr
  {
    [Op(PushObjectAddress), ExprElem(PlusUconst, [offset])]
  }

  /** Field at offset: the value stored `offset` bytes into the object. */
  function FieldAt(offset: nat): Expr
  {
    [Op(PushObjectAddress), ExprElem(PlusUconst, [offset]), Op(Deref)]
  }

  // ---------------------------------------------------------------------
  // Meaning of an expression for a debugger: the object's address and the
  // process memory (an address-sized word at every address) go in, the
  // stack comes out.

  /** One operation applied to the stack (top at the end); None when it cannot execute. */
  function Step(op: ExprElem, address: nat, memory: nat -> nat, stack: seq<nat>): Option<seq<nat>>
  {
    var n := |stack|;
    match op.opcode
    case PushObjectAddress =>
      if op.operands == [] then Some(stack + [address]) else None
    case Lit0 =>
      if op.operands == [] then Some(stack + [0]) else None
    case PlusUconst =>
      if |op.operands| == 1 && n >= 1 then Some(stack[..n - 1] + [stack[n - 1] + op.operands[0]]) else None
    case Deref =>
      if op.operands == [] && n >= 1 then Some(stack[..n - 1] + [memory(stack[n - 1])]) else None
    case Ne =>
      if op.operands == [] && n >= 2 then Some(stack[..n - 2] + [if stack[n - 2] != stack[n - 1] then 1 else 0])
      else None
  }

  /** Runs the operations in order. */
  function Run(e: Expr, address: nat, memory: nat -> nat, stack: seq<nat>): Option<seq<nat>>
    decreases |e|
  {
    if e == [] then Some(stack)
    else match Step(e[0], address, memory, stack)
      case None => None
      case Some(next) => Run(e[1..], address, memory, next)
  }

  /** The single value an expression leaves on an empty stack, if it leaves exactly one. */
  function Evaluate(e: Expr, address: nat, memory: nat -> nat): Option<nat>
  {
    match Run(e, address, memory, [])
    case Some(stack) => if |stack| == 1 then Some(stack[0]) else None
    case None => None
  }

  /** Stack depth after running `e` from depth `depth`, without looking at any value. */
  function Depth(e: Expr, depth: nat): Option<nat>
    decreases |e|
  {
    if e == [] then Some(depth)
    else
      var op := e[0];
      var next: Option<nat> :=
        match op.opcode
        case PushObjectAddress => if op.operands == [] then Some(depth + 1) else None
        case Lit0 => if op.operands == [] then Some(depth + 1) else None
        case PlusUconst => if |op.operands| == 1 && depth >= 1 then Some(depth) else None
        case Deref => if op.operands == [] && depth >= 1 then Some(depth) else None
        case Ne => if op.operands == [] && depth >= 2 then Some(depth - 1) else None;
      if next.None? then None else Depth(e[1..], next.value)
  }

  /** An expression a debugger can always evaluate to exactly one value. */
  predicate WellFormed(e: Expr)
  {
    Depth(e, 0) == Some(1)
  }

  /** The depth analysis is sound: a run from a stack of that depth never fails and ends at the computed depth. */
  lemma {:induction false} DepthSound(e: Expr, address: nat, memory: nat -> nat, stack: seq<nat>, n: nat)
    requires Depth(e, |stack|) == Some(n)
    ensures Run(e, address, memory, stack).Some?
    ensures |Run(e, address, memory, stack).value| == n
    decreases |e|
  {
    if e != [] {
      var next := Step(e[0], address, memory, stack);
      assert next.Some?;
      DepthSound(e[1..], address, memory, next.value, n);
    }
  }

  /** A well-formed expression evaluates to a value for every object address and memory. */
  lemma WellFormedEvaluates(e: Expr, address: nat, memory: nat -> nat)
    requires WellFormed(e)
    ensures Evaluate(e, address, memory).Some?
  {
    DepthSound(e, address, memory, [], 1);
  }

  /** The patterns are well formed. */
  lemma PatternsWellFormed(offset: nat)
    ensures WellFormed(DerefBase()) && WellFormed(Validity())
    ensures WellFormed(FieldAt(offset)) && WellFormed(AddressAt(offset))
  {
    var e := FieldAt(offset);
    assert e[1..][1..] == e[2..] == [Op(Deref)] && e[2..][1..] == [];
    assert Depth(e[2..], 1) == Some(1);
    assert Depth(e[1..], 1) == Some(1);
    var f := AddressAt(offset);
    assert f[1..] == [ExprElem(PlusUconst, [offset])] && f[1..][1..] == [];
    assert Depth(f[1..], 1) == Some(1);
  }

  /** Dereferenced base yields the word stored at the object's address. */
  lemma EvaluateDerefBase(address: nat, memory: nat -> nat)
    ensures Evaluate(DerefBase(), address, memory) == Some(memory(address))
  {
  }

  /** The validity test yields 1 when the stored base address is not null and 0 when it is. */
  lemma EvaluateValidity(address: nat, memory: nat -> nat)
    ensures Evaluate(Validity(), address, memory) == Some(if memory(address) != 0 then 1 else 0)
  {
  }

  /** Field at offset yields the word stored `offset` bytes into the object. */
  lemma EvaluateFieldAt(offset: nat, address: nat, memory: nat -> nat)
    ensures Evaluate(FieldAt(offset), address, memory) == Some(memory(address + offset))
  {
    var plus := ExprElem(PlusUconst, [offset]);
    var e := FieldAt(offset);
    var v := memory(address + offset);
    assert e == [Op(PushObjectAddress), plus, Op(Deref)];
    assert Step(e[0], address, memory, []).value == [address];
    assert Step(plus, address, memory, [address]).value == [address + offset];
    assert Step(Op(Deref), address, memory, [address + offset]).value == [v];
    assert Run(e[2..], address, memory, [address + offset]) == Some([v]) by {
      assert e[2..] == [Op(Deref)] && e[2..][1..] == [];
    }
    assert Run(e[1..], address, memory, [address]) == Some([v]) by {
      assert e[1..][1..] == e[2..];
    }
  }

  /** Without a dereference the expression yields an address, not the value stored there. */
  lemma EvaluateAddressAt(offset: nat, address: nat, memory: nat -> nat)
    ensures Evaluate(AddressAt(offset), address, memory) == Some(address + offset)
  {
    var plus := ExprElem(PlusUconst, [offset]);
    var e := AddressAt(offset);
    assert Step(e[0], address, memory, []).value == [address];
    assert Step(plus, address, memory, [address]).value == [address + offset];
    assert Run(e[1..], address, memory, [address]) == Some([address + offset]) by {
      assert e[1..] == [plus] && e[1..][1..] == [];
    }
  }
}
