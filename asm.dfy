/**
 * The in-memory bytecode program shared by the transformers: JVM constant
 * opcodes, a tagged instruction type, instruction lists with node identity,
 * member references, and the mutable class/field/method nodes that the
 * remapper rewrites in place.
 */
module Asm {

  datatype Option<+T> = None | Some(value: T)

  /** A JVM `int`: the values a 32-bit two's-complement register holds. */
  type Int32 = x: int | -0x8000_0000 <= x < 0x8000_0000

  // Opcodes used by the transformers (values from the JVM instruction set).
  const ICONST_M1: int := 2
  const ICONST_0: int := 3
  const ICONST_5: int := 8
  const BIPUSH: int := 16
  const SIPUSH: int := 17
  const LDC: int := 18
  const ISHL: int := 120
  const LSHL: int := 121
  const ISHR: int := 122
  const LSHR: int := 123
  const IUSHR: int := 124
  const LUSHR: int := 125
  const IFEQ: int := 153
  const IFNE: int := 154
  const IFLT: int := 155
  const IFGE: int := 156
  const IFGT: int := 157
  const IFLE: int := 158
  const IF_ICMPEQ: int := 159
  const IF_ICMPNE: int := 160
  const IF_ICMPLT: int := 161
  const IF_ICMPGE: int := 162
  const IF_ICMPGT: int := 163
  const IF_ICMPLE: int := 164
  const GOTO: int := 167

  /** Operand of an LDC instruction. */
  datatype Cst =
    | IntCst(i: Int32)
    | LongCst(l: int)
    | StringCst(s: string)
    | TypeCst(desc: string)
    | OtherCst(tag: nat)

  /**
   * One instruction node, tagged by its ASM node class.  `Simple` is an
   * operand-less InsnNode (ICONST_*, arithmetic, shifts, returns, ...);
   * `Label`, `LineNumber` and `Frame` are the pseudo-instructions.
   */
  datatype Insn =
    | Simple(opcode: int)
    | IntOperand(opcode: int, operand: int)
    | VarInsn(opcode: int, local: nat)
    | TypeInsn(opcode: int, desc: string)
    | FieldInsn(opcode: int, owner: string, name: string, desc: string)
    | MethodInsn(opcode: int, owner: string, name: string, desc: string, itf: bool)
    | InvokeDynamic(name: string, desc: string)
    | Jump(opcode: int, target: nat)
    | Ldc(cst: Cst)
    | Iinc(local: nat, incr: int)
    | MultiANewArray(desc: string, dims: nat)
    | Label(labelId: nat)
    | LineNumber(line: nat)
    | Frame
    | Switch(opcode: int)

  /** An instruction together with its object identity in the list. */
  datatype Node = Node(id: nat, insn: Insn)

  /** Identity of a field or method: (owner type, name, descriptor). */
  datatype MemberRef = MemberRef(owner: string, name: string, desc: string)

  /** An argument slot of a method (or of a method partition). */
  datatype ArgRef<M> = ArgRef(target: M, arg: int)

  /**
   * `intConstant`: the value an `ICONST_<n>`, `BIPUSH`, `SIPUSH` or
   * int `LDC` pushes, None for every other instruction.  (A `BIPUSH` or
   * `SIPUSH` operand is always an `int`; the range is stated for the
   * unbounded operand field.)
   */
  function IntConstant(insn: Insn): (r: Option<Int32>)
    ensures insn.Simple? ==> (r.Some? <==> ICONST_M1 <= insn.opcode <= ICONST_5)
    ensures insn.Simple? && r.Some? ==> r.value == insn.opcode - ICONST_0
    ensures insn.IntOperand? ==>
              (r.Some? <==> (insn.opcode == BIPUSH || insn.opcode == SIPUSH) && -0x8000_0000 <= insn.operand < 0x8000_0000)
    ensures insn.IntOperand? && r.Some? ==> r.value == insn.operand
    ensures insn.Ldc? ==> (r.Some? <==> insn.cst.IntCst?)
    ensures insn.Ldc? && r.Some? ==> r.value == insn.cst.i
    ensures !(insn.Simple? || insn.IntOperand? || insn.Ldc?) ==> r.None?
  {
    match insn
    case Simple(op) =>
      if ICONST_M1 <= op <= ICONST_5 then Some(op - ICONST_0) else None
    case IntOperand(op, v) =>
      if (op == BIPUSH || op == SIPUSH) && -0x8000_0000 <= v < 0x8000_0000 then Some(v) else None
    case Ldc(IntCst(v)) => Some(v)
    case _ => None
  }

  /** The shortest instruction that pushes `v`. */
  function CreateIntConstant(v: Int32): (r: Insn)
    ensures IntConstant(r) == Some(v)
    ensures -1 <= v <= 5 ==> r == Simple(ICONST_0 + v)
    ensures !(-0x8000 <= v < 0x8000) ==> r == Ldc(IntCst(v))
  {
    if -1 <= v <= 5 then Simple(ICONST_0 + v)
    else if -0x80 <= v < 0x80 then IntOperand(BIPUSH, v)
    else if -0x8000 <= v < 0x8000 then IntOperand(SIPUSH, v)
    else Ldc(IntCst(v))
  }

  /** A real instruction, as opposed to a label, line number or frame. */
  predicate IsReal(insn: Insn) {
    !insn.Label? && !insn.LineNumber? && !insn.Frame?
  }

  function Insns(nodes: seq<Node>): (r: seq<Insn>)
    ensures |r| == |nodes|
    ensures forall i :: 0 <= i < |nodes| ==> r[i] == nodes[i].insn
  {
    seq(|nodes|, i requires 0 <= i < |nodes| => nodes[i].insn)
  }

  /** Position of the node with identity `id`, if it is still in the list. */
  function IndexOf(nodes: seq<Node>, id: nat): (r: Option<nat>)
    ensures r.Some? ==> r.value < |nodes| && nodes[r.value].id == id
    ensures r.Some? ==> forall j :: 0 <= j < r.value ==> nodes[j].id != id
    ensures r.None? ==> forall j :: 0 <= j < |nodes| ==> nodes[j].id != id
  {
    if |nodes| == 0 then None
    else if nodes[0].id == id then Some(0)
    else match IndexOf(nodes[1..], id)
      case None => None
      case Some(k) => Some(k + 1)
  }

  /** No node object appears twice in an instruction list. */
  predicate DistinctIds(nodes: seq<Node>) {
    forall i, j :: 0 <= i < j < |nodes| ==> nodes[i].id != nodes[j].id
  }

  /** An identity not used by any node of the list (a newly allocated node). */
  function FreshId(nodes: seq<Node>): (r: nat)
    ensures forall j :: 0 <= j < |nodes| ==> nodes[j].id < r
  {
    if |nodes| == 0 then 0
    else
      var rest := FreshId(nodes[1..]);
      if nodes[0].id < rest then rest else nodes[0].id + 1
  }

  /** `nextReal`: the first real instruction after position `i`. */
  function NextReal(nodes: seq<Node>, i: nat): (r: Option<nat>)
    decreases |nodes| - i
    ensures r.Some? ==> i < r.value < |nodes| && IsReal(nodes[r.value].insn)
    ensures r.Some? ==> forall j :: i < j < r.value ==> !IsReal(nodes[j].insn)
    ensures r.None? ==> forall j :: i < j < |nodes| ==> !IsReal(nodes[j].insn)
  {
    if i + 1 >= |nodes| then None
    else if IsReal(nodes[i + 1].insn) then Some(i + 1)
    else NextReal(nodes, i + 1)
  }

  /** An exception-table entry; `excType` is None for a `finally` handler. */
  datatype TryCatch = TryCatch(start: nat, end: nat, handler: nat, excType: Option<string>)

  class FieldNode {
    var name: string
    var desc: string
    var signature: Option<string>
    var value: Option<Cst>

    constructor (name: string, desc: string, signature: Option<string>, value: Option<Cst>)
      ensures this.name == name && this.desc == desc
      ensures this.signature == signature && this.value == value
    {
      this.name := name;
      this.desc := desc;
      this.signature := signature;
      this.value := value;
    }
  }

  class MethodNode {
    var name: string
    var desc: string
    /** The access flags; `ACC_STATIC` among them decides whether local 0 is `this`. */
    const access: int
    var signature: Option<string>
    var exceptions: seq<string>
    /** False for abstract and native methods, which carry no instructions. */
    const hasCode: bool
    var instructions: seq<Node>
    var tryCatchBlocks: seq<TryCatch>

    constructor (name: string, desc: string, access: int, signature: Option<string>, exceptions: seq<string>,
                 hasCode: bool, instructions: seq<Node>, tryCatchBlocks: seq<TryCatch>)
      ensures this.name == name && this.desc == desc && this.access == access && this.signature == signature
      ensures this.exceptions == exceptions && this.hasCode == hasCode
      ensures this.instructions == instructions && this.tryCatchBlocks == tryCatchBlocks
    {
      this.name := name;
      this.desc := desc;
      this.access := access;
      this.signature := signature;
      this.exceptions := exceptions;
      this.hasCode := hasCode;
      this.instructions := instructions;
      this.tryCatchBlocks := tryCatchBlocks;
    }
  }

  class ClassNode {
    var name: string
    var signature: Option<string>
    /** None only for java/lang/Object. */
    var superName: Option<string>
    var interfaces: Option<seq<string>>
    var fields: seq<FieldNode>
    var methods: seq<MethodNode>

    constructor (name: string, signature: Option<string>, superName: Option<string>,
                 interfaces: Option<seq<string>>, fields: seq<FieldNode>, methods: seq<MethodNode>)
      ensures this.name == name && this.signature == signature && this.superName == superName
      ensures this.interfaces == interfaces && this.fields == fields && this.methods == methods
    {
      this.name := name;
      this.signature := signature;
      this.superName := superName;
      this.interfaces := interfaces;
      this.fields := fields;
      this.methods := methods;
    }
  }
}
