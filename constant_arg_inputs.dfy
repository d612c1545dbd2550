/**
 * What the constant-argument transformer takes from its collaborators:
 * the ASM analyzer's frames over `IntValue`s, `IntBranch`, `isPure`,
 * stack metadata, the expression lookup behind `replaceExpression` and
 * `deleteExpression`, the disjoint set of inherited methods and the class
 * path.  Each collaborator whose code is not part of this model is a
 * field of `Env`; the transformer relies on nothing about them beyond
 * their types.
 */
module ConstantArgInputs {
  import opened Asm
  import opened IntValues

  /** The size of a value in stack or local slots: 2 for long and double. */
  type Width = w: int | w == 1 || w == 2 witness 1

  /** An `IntValue` of the analyzer: its value set and its size. */
  datatype Value = Value(intSet: IntValueSet, size: Width)

  /** One analyzer frame; only its operand stack is read. */
  datatype StackFrame = StackFrame(stack: seq<Value>)

  /** `IntBranchResult` */
  datatype IntBranchResult = AlwaysTaken | NeverTaken | Undecided

  /** One partition of the `DisjointSet` of methods related by inheritance. */
  datatype Partition = Partition(members: seq<MemberRef>)

  /** `DisjointSet<MemberRef>`: its partitions and the partition of each member. */
  datatype DisjointSet = DisjointSet(partitions: seq<Partition>, find: map<MemberRef, Partition>)

  /** The partitions are disjoint and `find` maps each member to its own partition. */
  ghost predicate ValidSets(ds: DisjointSet) {
    && (forall r :: r in ds.find ==> ds.find[r] in ds.partitions)
    && (forall r :: r in ds.find ==> r in ds.find[r].members)
    && (forall p, r :: p in ds.partitions && r in p.members ==> r in ds.find && ds.find[r] == p)
  }

  /** A method as `analyzeMethod` reads it from the class path: every field `copy()` carries over. */
  datatype MethodInfo = MethodInfo(name: string, desc: string, access: int, signature: Option<string>,
                                   exceptions: seq<string>, hasCode: bool, instructions: seq<Node>,
                                   tryCatchBlocks: seq<TryCatch>)

  /**
   * What `Analyzer.analyze(owner, method)` reads besides the instructions:
   * the owner, the descriptor and access flags, which lay out the entry
   * frame (`this` and the argument slots that `IntInterpreter(args)`
   * fills), and the exception table, through which handlers become
   * reachable.
   */
  datatype MethodHeader = MethodHeader(owner: string, desc: string, access: int, tryCatchBlocks: seq<TryCatch>)

  /** The header of a method of class `owner`. */
  function HeaderOf(owner: string, m: MethodInfo): MethodHeader {
    MethodHeader(owner, m.desc, m.access, m.tryCatchBlocks)
  }

  /** A class as `analyzeMethod` reads it from the class path. */
  datatype ClassInfo = ClassInfo(name: string, methods: seq<MethodInfo>)

  /**
   * The class path during discovery: the classes by internal name and the
   * result of `createInheritedMethodSets()`.
   */
  datatype ClassPath = ClassPath(classes: map<string, ClassInfo>, inheritedMethodSets: DisjointSet)

  datatype Env = Env(
    /** `Analyzer(IntInterpreter(args)).analyze(owner, method)`; None is an unreachable instruction. */
    analyze: (MethodHeader, seq<Node>, seq<IntValueSet>) -> seq<Option<StackFrame>>,
    /** `Type.getArgumentTypes(desc)`, each argument type by its size. */
    argumentSizes: string -> seq<Width>,
    /** `TypedRemapper.isMethodRenamable(classPath, partition)` */
    isMethodRenamable: Partition -> bool,
    /** `IntBranch.evaluateUnary(opcode, values)` */
    evaluateUnary: (int, set<Int32>) -> IntBranchResult,
    /** `IntBranch.evaluateBinary(opcode, values1, values2)` */
    evaluateBinary: (int, set<Int32>, set<Int32>) -> IntBranchResult,
    /** `AbstractInsnNode.isPure` */
    isPure: Insn -> bool,
    /** `stackMetadata.pushes` */
    pushes: Insn -> nat,
    /**
     * Where the operands of the instruction at the given position start:
     * the operands of an expression are the instructions between that
     * start and the instruction itself.  None when no expression is found.
     */
    expressionStart: (seq<Insn>, nat) -> Option<nat>)

  /** `frames[i]`, with positions past the end of the frames read as unreachable. */
  function FrameAt(frames: seq<Option<StackFrame>>, i: int): (r: Option<StackFrame>)
    ensures 0 <= i < |frames| ==> r == frames[i]
    ensures !(0 <= i < |frames|) ==> r.None?
  {
    if 0 <= i < |frames| then frames[i] else None
  }

  /** `frame.getStack(k)`, with a missing slot read as an unknown one-slot value. */
  function StackAt(frame: StackFrame, k: int): (r: Value)
    ensures 0 <= k < |frame.stack| ==> r == frame.stack[k]
    ensures !(0 <= k < |frame.stack|) ==> r == Value(Unknown, 1)
  {
    if 0 <= k < |frame.stack| then frame.stack[k] else Value(Unknown, 1)
  }

  /** The top `size` stack entries, deepest first: the arguments of a call. */
  function TopValues(frame: StackFrame, size: nat): (r: seq<Value>)
    ensures |r| == size
    ensures forall j :: 0 <= j < size ==> r[j] == StackAt(frame, |frame.stack| - size + j)
    ensures size <= |frame.stack| ==> r == frame.stack[|frame.stack| - size..]
  {
    seq(size, j requires 0 <= j < size => StackAt(frame, |frame.stack| - size + j))
  }

  /** The number of slots the values occupy: `sumBy { it.size }`. */
  function SumWidths(ws: seq<Width>): (r: nat)
    ensures |ws| <= r <= 2 * |ws|
  {
    if ws == [] then 0 else SumWidths(ws[..|ws| - 1]) + ws[|ws| - 1]
  }

  /** The sizes of a sequence of values. */
  function Widths(vals: seq<Value>): (r: seq<Width>)
    ensures |r| == |vals|
    ensures forall j :: 0 <= j < |vals| ==> r[j] == vals[j].size
  {
    seq(|vals|, j requires 0 <= j < |vals| => vals[j].size)
  }

  predicate Named(m: MethodInfo, name: string, desc: string) {
    m.name == name && m.desc == desc
  }

  /** `methods.singleOrNull { it.name == name && it.desc == desc }` */
  function SingleOrNull(methods: seq<MethodInfo>, name: string, desc: string): (r: Option<MethodInfo>)
    ensures r.Some? ==> r.value in methods && Named(r.value, name, desc)
    ensures r.Some? ==> forall i, j :: 0 <= i < j < |methods| && Named(methods[i], name, desc) ==> !Named(methods[j], name, desc)
    ensures r.None? ==> (forall i :: 0 <= i < |methods| ==> !Named(methods[i], name, desc))
                        || (exists i, j :: 0 <= i < j < |methods| && Named(methods[i], name, desc) && Named(methods[j], name, desc))
  {
    if methods == [] then None
    else
      var rest := SingleOrNull(methods[1..], name, desc);
      if Named(methods[0], name, desc) then
        if forall i :: 0 < i < |methods| ==> !Named(methods[i], name, desc) then Some(methods[0])
        else None
      else
        assert forall i :: 0 < i < |methods| ==> methods[i] == methods[1..][i - 1];
        rest
  }

  /** The operands of the expression ending at `idx`, when all of them are pure. */
  function PureOperands(env: Env, nodes: seq<Node>, idx: nat): (r: Option<nat>)
    requires idx < |nodes|
    ensures r.Some? <==> env.expressionStart(Insns(nodes), idx).Some?
                         && env.expressionStart(Insns(nodes), idx).value <= idx
                         && forall k :: env.expressionStart(Insns(nodes), idx).value <= k < idx ==> env.isPure(nodes[k].insn)
    ensures r.Some? ==> r == env.expressionStart(Insns(nodes), idx)
  {
    match env.expressionStart(Insns(nodes), idx)
    case None => None
    case Some(j) =>
      if j <= idx && forall k :: j <= k < idx ==> env.isPure(nodes[k].insn) then Some(j) else None
  }

  /**
   * `instructions.replaceExpression(insn, replacement, isPure)`: the
   * operands and the instruction `id` give way to a new node holding
   * `replacement`, provided the operands are all pure.
   */
  function ReplaceExpression(env: Env, nodes: seq<Node>, id: nat, replacement: Insn): (r: (bool, seq<Node>))
    ensures !r.0 ==> r.1 == nodes
    ensures r.0 <==> IndexOf(nodes, id).Some? && PureOperands(env, nodes, IndexOf(nodes, id).value).Some?
    ensures r.0 ==> var idx := IndexOf(nodes, id).value;
                    var j := PureOperands(env, nodes, idx).value;
                    && |r.1| == |nodes| - (idx - j)
                    && r.1[..j] == nodes[..j]
                    && r.1[j] == Node(FreshId(nodes), replacement)
                    && r.1[j + 1..] == nodes[idx + 1..]
  {
    match IndexOf(nodes, id)
    case None => (false, nodes)
    case Some(idx) =>
      match PureOperands(env, nodes, idx)
      case None => (false, nodes)
      case Some(j) =>
        var s := nodes[..j] + [Node(FreshId(nodes), replacement)] + nodes[idx + 1..];
        assert s[j + 1..] == nodes[idx + 1..];
        (true, s)
  }

  /**
   * Cutting out `nodes[j..idx + 1]` from distinct nodes, optionally putting
   * a newly allocated node in its place, removes `nodes[idx]` and keeps the
   * nodes distinct.
   */
  lemma SpliceRemoves(nodes: seq<Node>, j: nat, idx: nat, added: seq<Node>)
    requires j <= idx < |nodes| && DistinctIds(nodes)
    requires |added| <= 1 && forall m :: 0 <= m < |added| ==> added[m].id == FreshId(nodes)
    ensures var r := nodes[..j] + added + nodes[idx + 1..];
            (forall k :: 0 <= k < |r| ==> r[k].id != nodes[idx].id) && DistinctIds(r)
  {
    var r := nodes[..j] + added + nodes[idx + 1..];
    var f := |added|;
    assert forall k :: 0 <= k < j ==> r[k] == nodes[k];
    assert forall k :: j <= k < j + f ==> r[k] == added[k - j];
    assert forall k :: j + f <= k < |r| ==> r[k] == nodes[k - j - f + idx + 1];
  }

  /**
   * A successful replacement removes the instruction `id` from a list of
   * distinct nodes, and the new node is distinct from the rest.
   */
  lemma ReplaceRemoves(env: Env, nodes: seq<Node>, id: nat, replacement: Insn)
    requires DistinctIds(nodes) && ReplaceExpression(env, nodes, id, replacement).0
    ensures var r := ReplaceExpression(env, nodes, id, replacement).1;
            IndexOf(r, id).None? && DistinctIds(r)
  {
    var idx := IndexOf(nodes, id).value;
    var j := PureOperands(env, nodes, idx).value;
    var added := [Node(FreshId(nodes), replacement)];
    assert ReplaceExpression(env, nodes, id, replacement).1 == nodes[..j] + added + nodes[idx + 1..];
    SpliceRemoves(nodes, j, idx, added);
  }

  /** A successful deletion removes the instruction `id` from a list of distinct nodes, which stay distinct. */
  lemma DeleteRemoves(env: Env, nodes: seq<Node>, id: nat)
    requires DistinctIds(nodes) && DeleteExpression(env, nodes, id).0
    ensures var r := DeleteExpression(env, nodes, id).1;
            IndexOf(r, id).None? && DistinctIds(r) && |r| < |nodes|
  {
    var idx := IndexOf(nodes, id).value;
    var j := PureOperands(env, nodes, idx).value;
    assert DeleteExpression(env, nodes, id).1 == nodes[..j] + [] + nodes[idx + 1..];
    SpliceRemoves(nodes, j, idx, []);
  }

  /** `instructions.deleteExpression(insn, isPure)`: the operands and the instruction go. */
  function DeleteExpression(env: Env, nodes: seq<Node>, id: nat): (r: (bool, seq<Node>))
    ensures !r.0 ==> r.1 == nodes
    ensures r.0 <==> IndexOf(nodes, id).Some? && PureOperands(env, nodes, IndexOf(nodes, id).value).Some?
    ensures r.0 ==> var idx := IndexOf(nodes, id).value;
                    var j := PureOperands(env, nodes, idx).value;
                    r.1 == nodes[..j] + nodes[idx + 1..]
  {
    match IndexOf(nodes, id)
    case None => (false, nodes)
    case Some(idx) =>
      match PureOperands(env, nodes, idx)
      case None => (false, nodes)
      case Some(j) => (true, nodes[..j] + nodes[idx + 1..])
  }
}
