/**
 * `remap` on ASM tree nodes: a class, its fields and methods, and every
 * instruction and exception-table entry of a method body are rewritten in
 * place through a remapper.  Owner-qualified lookups of members use the
 * owner's name from before the rewrite; frames and `invokedynamic`
 * instructions are refused.
 */
module ClassNodeRemapper {
  import opened Asm

  /**
   * The mapping functions of an `ExtendedRemapper`, and the effect that
   * `ClassForNameUtils.remap` has on a method's instruction list under the
   * same remapper.  Nullable arguments of ASM's `Remapper` appear here as
   * `Option`s where the source passes them through.
   */
  datatype Remapper = Remapper(
    mapType: string -> string,
    mapFieldOwner: (string, string, string) -> string,
    mapFieldName: (string, string, string) -> string,
    mapMethodOwner: (string, string, string) -> string,
    mapMethodName: (string, string, string) -> string,
    mapDesc: string -> string,
    mapMethodDesc: string -> string,
    mapSignature: (Option<string>, bool) -> Option<string>,
    mapValue: Cst -> Cst,
    remapClassForName: seq<Node> -> seq<Node>)

  /** A remapper under which every name, descriptor, signature, constant and instruction list maps to itself. */
  ghost predicate IsIdentity(r: Remapper) {
    && (forall s :: r.mapType(s) == s)
    && (forall o, n, d :: r.mapFieldOwner(o, n, d) == o)
    && (forall o, n, d :: r.mapFieldName(o, n, d) == n)
    && (forall o, n, d :: r.mapMethodOwner(o, n, d) == o)
    && (forall o, n, d :: r.mapMethodName(o, n, d) == n)
    && (forall s :: r.mapDesc(s) == s)
    && (forall s :: r.mapMethodDesc(s) == s)
    && (forall s, isType :: r.mapSignature(s, isType) == s)
    && (forall v :: r.mapValue(v) == v)
    && (forall ns :: r.remapClassForName(ns) == ns)
  }

  /** How a remap ends: normally, or with an `UnsupportedOperationException` and its message, if any. */
  datatype Outcome = Remapped | Unsupported(message: Option<string>)

  const FRAMES_MESSAGE: string := "SKIP_FRAMES and COMPUTE_FRAMES must be used"

  /** The instruction kinds the remapper refuses: frames and `invokedynamic`. */
  predicate Supported(insn: Insn) {
    !insn.Frame? && !insn.InvokeDynamic?
  }

  /** `AbstractInsnNode.remap`: the instruction after the rewrite, or the exception it raises. */
  function RemapInsn(r: Remapper, insn: Insn): (res: (Insn, Outcome))
    ensures res.1.Remapped? <==> Supported(insn)
    ensures insn.Frame? ==> res.1 == Unsupported(Some(FRAMES_MESSAGE))
    ensures insn.InvokeDynamic? ==> res.1 == Unsupported(None)
    ensures res.1.Unsupported? ==> res.0 == insn
  {
    match insn
    case Frame => (insn, Unsupported(Some(FRAMES_MESSAGE)))
    case FieldInsn(op, owner, name, desc) =>
      (FieldInsn(op, r.mapFieldOwner(owner, name, desc), r.mapFieldName(owner, name, desc), r.mapDesc(desc)), Remapped)
    case MethodInsn(op, owner, name, desc, itf) =>
      (MethodInsn(op, r.mapMethodOwner(owner, name, desc), r.mapMethodName(owner, name, desc), r.mapDesc(desc), itf),
       Remapped)
    case InvokeDynamic(_, _) => (insn, Unsupported(None))
    case TypeInsn(op, desc) => (TypeInsn(op, r.mapType(desc)), Remapped)
    case Ldc(cst) => (Ldc(r.mapValue(cst)), Remapped)
    case MultiANewArray(desc, dims) => (MultiANewArray(r.mapType(desc), dims), Remapped)
    case _ => (insn, Remapped)
  }

  /**
   * What a rewrite keeps of an instruction: its kind, its opcode and every
   * operand that is not a name, descriptor or constant.
   */
  predicate SameShape(a: Insn, b: Insn) {
    match a
    case FieldInsn(op, _, _, _) => b.FieldInsn? && b.opcode == op
    case MethodInsn(op, _, _, _, itf) => b.MethodInsn? && b.opcode == op && b.itf == itf
    case TypeInsn(op, _) => b.TypeInsn? && b.opcode == op
    case Ldc(_) => b.Ldc?
    case MultiANewArray(_, dims) => b.MultiANewArray? && b.dims == dims
    case _ => b == a
  }

  /**
   * Field and method instructions look up their new owner and new name
   * with the original owner, name and descriptor, and map the descriptor
   * with `mapDesc`; every instruction keeps its shape, and the kinds the
   * `when` does not list come back unchanged.
   */
  lemma RemapInsnShape(r: Remapper, insn: Insn)
    requires Supported(insn)
    ensures SameShape(insn, RemapInsn(r, insn).0)
    ensures insn.FieldInsn? ==>
              var out := RemapInsn(r, insn).0;
              && out.owner == r.mapFieldOwner(insn.owner, insn.name, insn.desc)
              && out.name == r.mapFieldName(insn.owner, insn.name, insn.desc)
              && out.desc == r.mapDesc(insn.desc)
    ensures insn.MethodInsn? ==>
              var out := RemapInsn(r, insn).0;
              && out.owner == r.mapMethodOwner(insn.owner, insn.name, insn.desc)
              && out.name == r.mapMethodName(insn.owner, insn.name, insn.desc)
              && out.desc == r.mapDesc(insn.desc)
    ensures !insn.FieldInsn? && !insn.MethodInsn? && !insn.TypeInsn? && !insn.Ldc? && !insn.MultiANewArray? ==>
              RemapInsn(r, insn).0 == insn
  {
  }

  /** Under the identity remapper every supported instruction is left as it was. */
  lemma RemapInsnIdentity(r: Remapper, insn: Insn)
    requires IsIdentity(r) && Supported(insn)
    ensures RemapInsn(r, insn) == (insn, Remapped)
  {
    match insn
    case FieldInsn(op, owner, name, desc) =>
      assert r.mapFieldOwner(owner, name, desc) == owner && r.mapFieldName(owner, name, desc) == name;
    case MethodInsn(op, owner, name, desc, itf) =>
      assert r.mapMethodOwner(owner, name, desc) == owner && r.mapMethodName(owner, name, desc) == name;
    case _ =>
  }

  /** The position of the first refused instruction, if any. */
  function FirstUnsupported(nodes: seq<Node>): (r: Option<nat>)
    ensures r.Some? ==> r.value < |nodes| && !Supported(nodes[r.value].insn)
    ensures r.Some? ==> forall j :: 0 <= j < r.value ==> Supported(nodes[j].insn)
    ensures r.None? ==> forall j :: 0 <= j < |nodes| ==> Supported(nodes[j].insn)
  {
    if nodes == [] then None
    else if !Supported(nodes[0].insn) then Some(0)
    else match FirstUnsupported(nodes[1..])
      case None => None
      case Some(k) => Some(k + 1)
  }

  /** The nodes before position `k` rewritten in place (same identity, remapped instruction), the rest as they were. */
  function RemapPrefix(r: Remapper, nodes: seq<Node>, k: nat): (res: seq<Node>)
    ensures |res| == |nodes|
    ensures forall i :: 0 <= i < |nodes| && i < k ==> res[i] == Node(nodes[i].id, RemapInsn(r, nodes[i].insn).0)
    ensures forall i :: k <= i < |nodes| ==> res[i] == nodes[i]
  {
    seq(|nodes|, i requires 0 <= i < |nodes| => if i < k then Node(nodes[i].id, RemapInsn(r, nodes[i].insn).0) else nodes[i])
  }

  /**
   * The instruction loop of `MethodNode.remap`: every instruction is
   * rewritten in order until the first refused one, which raises; the
   * instructions from there on are left as they were.
   */
  function RemapCode(r: Remapper, nodes: seq<Node>): (seq<Node>, Outcome) {
    match FirstUnsupported(nodes)
    case None => (RemapPrefix(r, nodes, |nodes|), Remapped)
    case Some(k) => (RemapPrefix(r, nodes, k), RemapInsn(r, nodes[k].insn).1)
  }

  /**
   * The instruction loop fails exactly when the method holds a frame or an
   * `invokedynamic`; either way the list keeps its length, the identity of
   * every node and the order, and only the instructions before the first
   * refused one are changed.
   */
  lemma {:induction false} RemapCodeShape(r: Remapper, nodes: seq<Node>)
    ensures RemapCode(r, nodes).1.Remapped? <==> forall j :: 0 <= j < |nodes| ==> Supported(nodes[j].insn)
    ensures (exists j :: 0 <= j < |nodes| && nodes[j].insn.Frame? && forall i :: 0 <= i < j ==> Supported(nodes[i].insn))
            ==> RemapCode(r, nodes).1 == Unsupported(Some(FRAMES_MESSAGE))
    ensures |RemapCode(r, nodes).0| == |nodes|
    ensures forall j :: 0 <= j < |nodes| ==> RemapCode(r, nodes).0[j].id == nodes[j].id
    ensures forall j :: 0 <= j < |nodes| && Supported(nodes[j].insn) ==>
              SameShape(nodes[j].insn, RemapCode(r, nodes).0[j].insn)
  {
    match FirstUnsupported(nodes)
    case None =>
      forall j | 0 <= j < |nodes| && Supported(nodes[j].insn)
        ensures SameShape(nodes[j].insn, RemapCode(r, nodes).0[j].insn)
      {
        RemapInsnShape(r, nodes[j].insn);
      }
    case Some(k) =>
      var code := RemapCode(r, nodes).0;
      assert |code| == |nodes|;
      forall j | 0 <= j < |nodes|
        ensures code[j].id == nodes[j].id
        ensures Supported(nodes[j].insn) ==> SameShape(nodes[j].insn, code[j].insn)
      {
        if j < k {
          RemapInsnShape(r, nodes[j].insn);
        } else {
          SameShapeRefl(nodes[j].insn);
        }
      }
      forall j | 0 <= j < |nodes| && nodes[j].insn.Frame? && forall i :: 0 <= i < j ==> Supported(nodes[i].insn)
        ensures j == k
      {
      }
  }

  lemma SameShapeRefl(insn: Insn)
    ensures SameShape(insn, insn)
  {
  }

  /** Under the identity remapper a method body without frames or `invokedynamic` comes back unchanged. */
  lemma {:induction false} RemapCodeIdentity(r: Remapper, nodes: seq<Node>)
    requires IsIdentity(r)
    requires forall j :: 0 <= j < |nodes| ==> Supported(nodes[j].insn)
    ensures RemapCode(r, nodes) == (nodes, Remapped)
  {
    assert FirstUnsupported(nodes).None?;
    var code := RemapPrefix(r, nodes, |nodes|);
    forall j | 0 <= j < |nodes| ensures code[j] == nodes[j] {
      RemapInsnIdentity(r, nodes[j].insn);
    }
    assert code == nodes;
  }

  /** `list.map(remapper::mapType)`: each type name mapped, in order. */
  function MapTypes(r: Remapper, names: seq<string>): (res: seq<string>)
    ensures |res| == |names|
    ensures forall i :: 0 <= i < |names| ==> res[i] == r.mapType(names[i])
  {
    seq(|names|, i requires 0 <= i < |names| => r.mapType(names[i]))
  }

  /** `mapType` on a nullable type name: null stays null, as in ASM's `Remapper`. */
  function MapTypeOrNull(r: Remapper, name: Option<string>): Option<string> {
    match name
    case None => None
    case Some(n) => Some(r.mapType(n))
  }

  /** `mapValue` on a nullable field initialiser: null stays null, as in ASM's `Remapper`. */
  function MapValueOrNull(r: Remapper, value: Option<Cst>): Option<Cst> {
    match value
    case None => None
    case Some(v) => Some(r.mapValue(v))
  }

  /** The exception-table loop: each entry's caught type mapped, the `finally` entries (no type) kept. */
  function RemapTryCatches(r: Remapper, blocks: seq<TryCatch>): (res: seq<TryCatch>)
    ensures |res| == |blocks|
    ensures forall i :: 0 <= i < |blocks| ==> res[i] == blocks[i].(excType := MapTypeOrNull(r, blocks[i].excType))
  {
    seq(|blocks|, i requires 0 <= i < |blocks| => blocks[i].(excType := MapTypeOrNull(r, blocks[i].excType)))
  }

  /** Under the identity remapper the lists of names and exception-table entries do not change. */
  lemma ListsIdentity(r: Remapper, names: seq<string>, blocks: seq<TryCatch>, name: Option<string>, value: Option<Cst>)
    requires IsIdentity(r)
    ensures MapTypes(r, names) == names
    ensures RemapTryCatches(r, blocks) == blocks
    ensures MapTypeOrNull(r, name) == name && MapValueOrNull(r, value) == value
  {
    var ts := RemapTryCatches(r, blocks);
    forall i | 0 <= i < |blocks| ensures ts[i] == blocks[i] {
      match blocks[i].excType
      case None =>
      case Some(n) => assert r.mapType(n) == n;
    }
  }

  /** The fields of a `FieldNode` that the remapper reassigns. */
  datatype FieldState = FieldState(name: string, desc: string, signature: Option<string>, value: Option<Cst>)

  /** The fields of a `MethodNode` that the remapper reassigns. */
  datatype MethodState = MethodState(name: string, desc: string, signature: Option<string>, exceptions: seq<string>,
                                     instructions: seq<Node>, tryCatchBlocks: seq<TryCatch>)

  /** The fields of a `ClassNode` that the remapper reassigns itself. */
  datatype ClassHeader = ClassHeader(name: string, signature: Option<string>, superName: Option<string>,
                                     interfaces: Option<seq<string>>)

  function FieldView(f: FieldNode): FieldState
    reads f
  {
    FieldState(f.name, f.desc, f.signature, f.value)
  }

  function MethodView(m: MethodNode): MethodState
    reads m
  {
    MethodState(m.name, m.desc, m.signature, m.exceptions, m.instructions, m.tryCatchBlocks)
  }

  function HeaderView(c: ClassNode): ClassHeader
    reads c
  {
    ClassHeader(c.name, c.signature, c.superName, c.interfaces)
  }

  /**
   * `FieldNode.remap(remapper, owner)`: the name is looked up with the
   * original owner, name and descriptor; a field signature is a type
   * signature.
   */
  function RemapFieldState(r: Remapper, owner: string, s: FieldState): FieldState {
    FieldState(r.mapFieldName(owner, s.name, s.desc), r.mapDesc(s.desc), r.mapSignature(s.signature, true),
               MapValueOrNull(r, s.value))
  }

  /**
   * `MethodNode.remap(remapper, owner)`: name (looked up with the original
   * descriptor), descriptor, signature and exceptions always; when the
   * method has code, the `ClassForNameUtils` rewrite, then the instruction
   * loop, then, only if no instruction was refused, the exception table.
   */
  function RemapMethodState(r: Remapper, owner: string, hasCode: bool, s: MethodState): (MethodState, Outcome) {
    var head := s.(name := r.mapMethodName(owner, s.name, s.desc), desc := r.mapMethodDesc(s.desc),
                   signature := r.mapSignature(s.signature, false), exceptions := MapTypes(r, s.exceptions));
    if !hasCode then (head, Remapped)
    else
      var code := RemapCode(r, r.remapClassForName(s.instructions));
      (head.(instructions := code.0,
             tryCatchBlocks := if code.1.Remapped? then RemapTryCatches(r, s.tryCatchBlocks) else s.tryCatchBlocks),
       code.1)
  }

  /** `ClassNode.remap`'s own assignments: name, signature, superclass and interfaces through `mapType`. */
  function RemapHeader(r: Remapper, h: ClassHeader): ClassHeader {
    ClassHeader(r.mapType(h.name), r.mapSignature(h.signature, false), MapTypeOrNull(r, h.superName),
                if h.interfaces.None? then None else Some(MapTypes(r, h.interfaces.value)))
  }

  /**
   * A method remap fails exactly when the method has code and its
   * instructions, after the `ClassForNameUtils` rewrite, hold a frame or an
   * `invokedynamic`; then its exception table is left alone.  Otherwise
   * the method keeps its instruction count and exception-table size.
   */
  lemma RemapMethodOutcome(r: Remapper, owner: string, hasCode: bool, s: MethodState)
    ensures var (t, outcome) := RemapMethodState(r, owner, hasCode, s);
            var code := r.remapClassForName(s.instructions);
            && (outcome.Unsupported? <==> hasCode && exists j :: 0 <= j < |code| && !Supported(code[j].insn))
            && (outcome.Unsupported? ==> t.tryCatchBlocks == s.tryCatchBlocks)
            && |t.exceptions| == |s.exceptions| && |t.tryCatchBlocks| == |s.tryCatchBlocks|
            && (hasCode ==> |t.instructions| == |code|)
            && (!hasCode ==> t.instructions == s.instructions && t.tryCatchBlocks == s.tryCatchBlocks)
  {
    if hasCode {
      RemapCodeShape(r, r.remapClassForName(s.instructions));
    }
  }

  /**
   * With every mapping function the identity, remapping a field, a method
   * whose code holds no frame or `invokedynamic`, or the class's own names
   * changes nothing.
   */
  lemma RemapIdentity(r: Remapper, owner: string, f: FieldState, hasCode: bool, m: MethodState, h: ClassHeader)
    requires IsIdentity(r)
    requires hasCode ==> forall j :: 0 <= j < |m.instructions| ==> Supported(m.instructions[j].insn)
    ensures RemapFieldState(r, owner, f) == f
    ensures RemapMethodState(r, owner, hasCode, m) == (m, Remapped)
    ensures RemapHeader(r, h) == h
  {
    ListsIdentity(r, m.exceptions, m.tryCatchBlocks, h.superName, f.value);
    assert r.mapFieldName(owner, f.name, f.desc) == f.name;
    assert r.mapMethodName(owner, m.name, m.desc) == m.name;
    if hasCode {
      assert r.remapClassForName(m.instructions) == m.instructions;
      RemapCodeIdentity(r, m.instructions);
    }
    if h.interfaces.Some? {
      ListsIdentity(r, h.interfaces.value, [], None, None);
    }
  }

  /** Distinct node objects: the class lists each field and each method once. */
  predicate Distinct<T(==)>(xs: seq<T>) {
    forall i, j :: 0 <= i < j < |xs| ==> xs[i] != xs[j]
  }

  /** `m` holds what remapping a method with contents `before` under `owner` leaves, and the remap ended with `outcome`. */
  predicate MethodRemapped(r: Remapper, owner: string, m: MethodNode, before: MethodState, outcome: Outcome)
    reads m
  {
    (MethodView(m), outcome) == RemapMethodState(r, owner, m.hasCode, before)
  }

  /** `FieldNode.remap(remapper, owner)`. */
  method RemapField(f: FieldNode, r: Remapper, owner: string)
    modifies f
    ensures FieldView(f) == RemapFieldState(r, owner, old(FieldView(f)))
  {
    f.name := r.mapFieldName(owner, f.name, f.desc);
    f.desc := r.mapDesc(f.desc);
    f.signature := r.mapSignature(f.signature, true);
    f.value := MapValueOrNull(r, f.value);
  }

  /** `MethodNode.remap(remapper, owner)`. */
  method RemapMethod(m: MethodNode, r: Remapper, owner: string) returns (outcome: Outcome)
    modifies m
    ensures MethodRemapped(r, owner, m, old(MethodView(m)), outcome)
  {
    m.name := r.mapMethodName(owner, m.name, m.desc);
    m.desc := r.mapMethodDesc(m.desc);
    m.signature := r.mapSignature(m.signature, false);
    m.exceptions := MapTypes(r, m.exceptions);
    outcome := Remapped;

    if m.hasCode {
      m.instructions := r.remapClassForName(m.instructions);
      var code;
      code, outcome := RemapInstructions(r, m.instructions);
      m.instructions := code;
      if outcome.Unsupported? {
        return;
      }
      m.tryCatchBlocks := RemapTryCatchTypes(r, m.tryCatchBlocks);
    }
  }

  /**
   * The instruction loop of `MethodNode.remap`, on the instruction list:
   * stops at the first refused instruction.
   */
  method RemapInstructions(r: Remapper, nodes: seq<Node>) returns (code: seq<Node>, outcome: Outcome)
    ensures (code, outcome) == RemapCode(r, nodes)
  {
    code := nodes;
    for i := 0 to |nodes|
      invariant code == RemapPrefix(r, nodes, i)
      invariant forall j :: 0 <= j < i ==> Supported(nodes[j].insn)
    {
      var result := RemapInsn(r, nodes[i].insn);
      if result.1.Unsupported? {
        assert FirstUnsupported(nodes) == Some(i);
        return code, result.1;
      }
      code := code[i := Node(nodes[i].id, result.0)];
      assert code == RemapPrefix(r, nodes, i + 1);
    }
    assert FirstUnsupported(nodes).None?;
    outcome := Remapped;
  }

  /** The exception-table loop of `MethodNode.remap`, on the list of entries. */
  method RemapTryCatchTypes(r: Remapper, blocks: seq<TryCatch>) returns (res: seq<TryCatch>)
    ensures res == RemapTryCatches(r, blocks)
  {
    res := blocks;
    for i := 0 to |blocks|
      invariant |res| == |blocks|
      invariant forall j :: 0 <= j < i ==> res[j] == blocks[j].(excType := MapTypeOrNull(r, blocks[j].excType))
      invariant forall j :: i <= j < |blocks| ==> res[j] == blocks[j]
    {
      var tryCatch := res[i];
      res := res[i := tryCatch.(excType := MapTypeOrNull(r, tryCatch.excType))];
    }
  }

  /**
   * `ClassNode.remap(remapper)`: the class's own names, every field, then
   * every method, each member looked up under the class's original name.
   * A method refusing an instruction stops the walk: the methods after it
   * are left as they were.
   */
  method RemapClass(c: ClassNode, r: Remapper) returns (outcome: Outcome, ghost failedAt: nat)
    requires Distinct(c.fields) && Distinct(c.methods)
    modifies c, c.fields, c.methods
    ensures HeaderView(c) == RemapHeader(r, old(HeaderView(c)))
    ensures c.fields == old(c.fields) && c.methods == old(c.methods)
    ensures forall j :: 0 <= j < |c.fields| ==>
              FieldView(c.fields[j]) == RemapFieldState(r, old(c.name), old(FieldView(c.fields[j])))
    ensures outcome.Remapped? ==>
              forall j :: 0 <= j < |c.methods| ==>
                MethodRemapped(r, old(c.name), c.methods[j], old(MethodView(c.methods[j])), Remapped)
    ensures outcome.Unsupported? ==>
              && failedAt < |c.methods|
              && (forall j :: 0 <= j < failedAt ==>
                    MethodRemapped(r, old(c.name), c.methods[j], old(MethodView(c.methods[j])), Remapped))
              && MethodRemapped(r, old(c.name), c.methods[failedAt], old(MethodView(c.methods[failedAt])), outcome)
              && (forall j :: failedAt < j < |c.methods| ==> MethodView(c.methods[j]) == old(MethodView(c.methods[j])))
  {
    var originalName := c.name;
    RemapHeaderFields(c, r);
    RemapFields(c, r, originalName);
    outcome, failedAt := RemapMethods(c, r, originalName);
  }

  /** The first four assignments of `ClassNode.remap`. */
  method RemapHeaderFields(c: ClassNode, r: Remapper)
    modifies c`name, c`signature, c`superName, c`interfaces
    ensures HeaderView(c) == RemapHeader(r, old(HeaderView(c)))
  {
    c.name := r.mapType(c.name);
    c.signature := r.mapSignature(c.signature, false);
    c.superName := MapTypeOrNull(r, c.superName);
    if c.interfaces.Some? {
      c.interfaces := Some(MapTypes(r, c.interfaces.value));
    }
  }

  /** The field loop of `ClassNode.remap`. */
  method RemapFields(c: ClassNode, r: Remapper, owner: string)
    requires Distinct(c.fields)
    modifies c.fields
    ensures forall j :: 0 <= j < |c.fields| ==>
              FieldView(c.fields[j]) == RemapFieldState(r, owner, old(FieldView(c.fields[j])))
  {
    for i := 0 to |c.fields|
      invariant forall j :: 0 <= j < i ==> FieldView(c.fields[j]) == RemapFieldState(r, owner, old(FieldView(c.fields[j])))
      invariant forall j :: i <= j < |c.fields| ==> FieldView(c.fields[j]) == old(FieldView(c.fields[j]))
    {
      RemapField(c.fields[i], r, owner);
    }
  }

  /** The method loop of `ClassNode.remap`, stopping at the first method that refuses an instruction. */
  method RemapMethods(c: ClassNode, r: Remapper, owner: string) returns (outcome: Outcome, ghost failedAt: nat)
    requires Distinct(c.methods)
    modifies c.methods
    ensures outcome.Remapped? ==>
              forall j :: 0 <= j < |c.methods| ==>
                MethodRemapped(r, owner, c.methods[j], old(MethodView(c.methods[j])), Remapped)
    ensures outcome.Unsupported? ==>
              && failedAt < |c.methods|
              && (forall j :: 0 <= j < failedAt ==>
                    MethodRemapped(r, owner, c.methods[j], old(MethodView(c.methods[j])), Remapped))
              && MethodRemapped(r, owner, c.methods[failedAt], old(MethodView(c.methods[failedAt])), outcome)
              && (forall j :: failedAt < j < |c.methods| ==> MethodView(c.methods[j]) == old(MethodView(c.methods[j])))
  {
    failedAt := 0;
    for i := 0 to |c.methods|
      invariant forall j :: 0 <= j < i ==> MethodRemapped(r, owner, c.methods[j], old(MethodView(c.methods[j])), Remapped)
      invariant forall j :: i <= j < |c.methods| ==> MethodView(c.methods[j]) == old(MethodView(c.methods[j]))
    {
      outcome := RemapMethod(c.methods[i], r, owner);
      if outcome.Unsupported? {
        failedAt := i;
        return;
      }
    }
    outcome := Remapped;
  }
}
