/**
 * What `simplifyBranches` and `inlineConstantArgs` compute on a method's
 * instruction list, given the analyzer frames for it: which conditional
 * jumps have a known outcome, which pure one-value instructions push a
 * known constant, and the instruction list after the purity-gated
 * rewrites.
 */
module ConstantArgCode {
  import opened Asm
  import opened IntValues
  import opened ConstantArgInputs

  /** `IFEQ, IFNE, IFLT, IFGE, IFGT, IFLE`: compare the top of stack with zero. */
  predicate IsUnaryIf(op: int) {
    IFEQ <= op <= IFLE
  }

  /** `IF_ICMPEQ, ..., IF_ICMPLE`: compare the two top stack entries. */
  predicate IsBinaryIf(op: int) {
    IF_ICMPEQ <= op <= IF_ICMPLE
  }

  /** The stack entry `depth` places below the top (0 is the top). */
  function FromTop(frame: StackFrame, depth: nat): IntValueSet {
    StackAt(frame, |frame.stack| - 1 - depth).intSet
  }

  /**
   * The `when (insn.opcode)` of `simplifyBranches`: the outcome of a
   * conditional jump whose operands are all `Constant`, Undecided otherwise.
   */
  function BranchFate(env: Env, frame: StackFrame, insn: Insn): (r: IntBranchResult)
    ensures r != Undecided ==>
              || (insn.Jump? && IsUnaryIf(insn.opcode) && FromTop(frame, 0).Constant?
                  && r == env.evaluateUnary(insn.opcode, FromTop(frame, 0).values))
              || (insn.Jump? && IsBinaryIf(insn.opcode) && FromTop(frame, 1).Constant? && FromTop(frame, 0).Constant?
                  && r == env.evaluateBinary(insn.opcode, FromTop(frame, 1).values, FromTop(frame, 0).values))
    ensures insn.Jump? && IsUnaryIf(insn.opcode) && FromTop(frame, 0).Constant? ==>
              r == env.evaluateUnary(insn.opcode, FromTop(frame, 0).values)
    ensures insn.Jump? && IsBinaryIf(insn.opcode) && FromTop(frame, 1).Constant? && FromTop(frame, 0).Constant? ==>
              r == env.evaluateBinary(insn.opcode, FromTop(frame, 1).values, FromTop(frame, 0).values)
  {
    if !insn.Jump? then Undecided
    else if IsUnaryIf(insn.opcode) then
      var value := FromTop(frame, 0);
      if value.Constant? then env.evaluateUnary(insn.opcode, value.values) else Undecided
    else if IsBinaryIf(insn.opcode) then
      var value1 := FromTop(frame, 1);
      var value2 := FromTop(frame, 0);
      if value1.Constant? && value2.Constant? then env.evaluateBinary(insn.opcode, value1.values, value2.values)
      else Undecided
    else Undecided
  }

  /** The outcome of the instruction at `i`, None when the analyzer did not reach it. */
  function FateAt(env: Env, frames: seq<Option<StackFrame>>, nodes: seq<Node>, i: nat): Option<IntBranchResult>
    requires i < |nodes|
  {
    match FrameAt(frames, i)
    case None => None
    case Some(frame) => Some(BranchFate(env, frame, nodes[i].insn))
  }

  /** The reachable jumps among the first `n` instructions with outcome `fate`, in order. */
  function Classified(env: Env, frames: seq<Option<StackFrame>>, nodes: seq<Node>, fate: IntBranchResult, n: nat)
    : (r: seq<Node>)
    requires fate != Undecided && n <= |nodes|
    ensures |r| <= n
  {
    if n == 0 then []
    else
      var rest := Classified(env, frames, nodes, fate, n - 1);
      if FateAt(env, frames, nodes, n - 1) == Some(fate) then rest + [nodes[n - 1]] else rest
  }

  /** The classified branches are exactly the reachable instructions with that outcome, and all are jumps. */
  lemma {:induction false} ClassifiedMembers(env: Env, frames: seq<Option<StackFrame>>, nodes: seq<Node>,
                                             fate: IntBranchResult, n: nat)
    requires fate != Undecided && n <= |nodes|
    ensures forall b :: b in Classified(env, frames, nodes, fate, n) ==> b.insn.Jump?
    ensures forall b :: b in Classified(env, frames, nodes, fate, n) <==>
              exists i :: 0 <= i < n && nodes[i] == b && FateAt(env, frames, nodes, i) == Some(fate)
  {
    if n > 0 {
      ClassifiedMembers(env, frames, nodes, fate, n - 1);
    }
  }

  /** The label a jump goes to. */
  function JumpTarget(insn: Insn): nat {
    if insn.Jump? then insn.target else 0
  }

  /** The always-taken loop: each branch and its operands become `GOTO` to the same label. */
  function RewriteAlways(env: Env, nodes: seq<Node>, branches: seq<Node>): (r: (seq<Node>, nat))
    ensures r.1 <= |branches|
  {
    if branches == [] then (nodes, 0)
    else AlwaysStep(env, RewriteAlways(env, nodes, branches[..|branches| - 1]), branches[|branches| - 1])
  }

  /** One always-taken branch replaced by a `GOTO`, counted when the replacement succeeds. */
  function AlwaysStep(env: Env, acc: (seq<Node>, nat), b: Node): (r: (seq<Node>, nat))
    ensures r.1 == acc.1 || r.1 == acc.1 + 1
    ensures r.1 == acc.1 + 1 <==> IndexOf(acc.0, b.id).Some? && PureOperands(env, acc.0, IndexOf(acc.0, b.id).value).Some?
    ensures r.1 == acc.1 ==> r.0 == acc.0
  {
    var replaced := ReplaceExpression(env, acc.0, b.id, Jump(GOTO, JumpTarget(b.insn)));
    (replaced.1, if replaced.0 then acc.1 + 1 else acc.1)
  }

  /**
   * A counted always-taken step puts a `GOTO` to the branch's label where
   * the branch's operands began, keeps everything before it, and removes
   * the branch.
   */
  lemma AlwaysStepReplaces(env: Env, acc: (seq<Node>, nat), b: Node)
    requires DistinctIds(acc.0) && AlwaysStep(env, acc, b).1 == acc.1 + 1
    ensures var r := AlwaysStep(env, acc, b).0;
            var j := PureOperands(env, acc.0, IndexOf(acc.0, b.id).value).value;
            && j < |r| && r[..j] == acc.0[..j] && r[j].insn == Jump(GOTO, JumpTarget(b.insn))
            && IndexOf(r, b.id).None? && DistinctIds(r)
  {
    ReplaceRemoves(env, acc.0, b.id, Jump(GOTO, JumpTarget(b.insn)));
  }

  /** The never-taken loop: each branch and its operands are deleted. */
  function RewriteNever(env: Env, nodes: seq<Node>, branches: seq<Node>): (r: (seq<Node>, nat))
    ensures r.1 <= |branches|
  {
    if branches == [] then (nodes, 0)
    else NeverStep(env, RewriteNever(env, nodes, branches[..|branches| - 1]), branches[|branches| - 1])
  }

  /** One never-taken branch deleted with its operands, counted when the deletion succeeds. */
  function NeverStep(env: Env, acc: (seq<Node>, nat), b: Node): (r: (seq<Node>, nat))
    ensures r.1 == acc.1 || r.1 == acc.1 + 1
    ensures r.1 == acc.1 + 1 <==> IndexOf(acc.0, b.id).Some? && PureOperands(env, acc.0, IndexOf(acc.0, b.id).value).Some?
    ensures r.1 == acc.1 ==> r.0 == acc.0
  {
    var deleted := DeleteExpression(env, acc.0, b.id);
    (deleted.1, if deleted.0 then acc.1 + 1 else acc.1)
  }

  /** A counted never-taken step removes the branch and shrinks the method. */
  lemma NeverStepDeletes(env: Env, acc: (seq<Node>, nat), b: Node)
    requires DistinctIds(acc.0) && NeverStep(env, acc, b).1 == acc.1 + 1
    ensures var r := NeverStep(env, acc, b).0;
            IndexOf(r, b.id).None? && DistinctIds(r) && |r| < |acc.0|
  {
    DeleteRemoves(env, acc.0, b.id);
  }

  /** `simplifyBranches(owner, method, args)`: the new instructions and the number of rewrites. */
  function SimplifiedCode(env: Env, header: MethodHeader, nodes: seq<Node>, args: seq<IntValueSet>): (seq<Node>, nat) {
    var frames := env.analyze(header, nodes, args);
    var always := Classified(env, frames, nodes, AlwaysTaken, |nodes|);
    var never := Classified(env, frames, nodes, NeverTaken, |nodes|);
    var afterAlways := RewriteAlways(env, nodes, always);
    var afterNever := RewriteNever(env, afterAlways.0, never);
    (afterNever.0, afterAlways.1 + afterNever.1)
  }

  // `simplifyBranches` put together from its classification and its two
  // rewrite loops: the definition unfolded, for the method that computes it.
  lemma SimplifiedCodeSteps(env: Env, header: MethodHeader, nodes: seq<Node>, args: seq<IntValueSet>,
                            always: seq<Node>, never: seq<Node>, a: (seq<Node>, nat), n: (seq<Node>, nat))
    requires always == Classified(env, env.analyze(header, nodes, args), nodes, AlwaysTaken, |nodes|)
    requires never == Classified(env, env.analyze(header, nodes, args), nodes, NeverTaken, |nodes|)
    requires a == RewriteAlways(env, nodes, always) && n == RewriteNever(env, a.0, never)
    ensures SimplifiedCode(env, header, nodes, args) == (n.0, a.1 + n.1)
  {
  }

  /** Every instruction after the always-taken loop is an old one or a `GOTO` to a branch's label. */
  lemma {:induction false} RewriteAlwaysOnlyAddsGotos(env: Env, nodes: seq<Node>, branches: seq<Node>)
    ensures forall x :: x in RewriteAlways(env, nodes, branches).0 ==>
              x in nodes || exists b :: b in branches && x.insn == Jump(GOTO, JumpTarget(b.insn))
    ensures |RewriteAlways(env, nodes, branches).0| <= |nodes|
  {
    if branches != [] {
      var pre := branches[..|branches| - 1];
      RewriteAlwaysOnlyAddsGotos(env, nodes, pre);
      var cur := RewriteAlways(env, nodes, pre).0;
      var b := branches[|branches| - 1];
      var r := ReplaceExpression(env, cur, b.id, Jump(GOTO, JumpTarget(b.insn)));
      if r.0 {
        var idx := IndexOf(cur, b.id).value;
        var j := PureOperands(env, cur, idx).value;
        assert r.1 == r.1[..j] + [r.1[j]] + r.1[j + 1..];
        forall x | x in r.1 ensures x in nodes || exists b' :: b' in branches && x.insn == Jump(GOTO, JumpTarget(b'.insn)) {
          if x != r.1[j] {
            assert x in cur[..j] || x in cur[idx + 1..];
            assert x in cur;
          }
        }
      }
    }
  }

  /** The never-taken loop only removes instructions, at least one per deletion it counts. */
  lemma {:induction false} RewriteNeverOnlyDeletes(env: Env, nodes: seq<Node>, branches: seq<Node>)
    ensures forall x :: x in RewriteNever(env, nodes, branches).0 ==> x in nodes
    ensures |RewriteNever(env, nodes, branches).0| + RewriteNever(env, nodes, branches).1 <= |nodes|
  {
    if branches != [] {
      var pre := branches[..|branches| - 1];
      RewriteNeverOnlyDeletes(env, nodes, pre);
      var cur := RewriteNever(env, nodes, pre).0;
      var r := DeleteExpression(env, cur, branches[|branches| - 1].id);
      if r.0 {
        var idx := IndexOf(cur, branches[|branches| - 1].id).value;
        var j := PureOperands(env, cur, idx).value;
        forall x | x in r.1 ensures x in cur {
          assert x in cur[..j] || x in cur[idx + 1..];
        }
      }
    }
  }

  /**
   * Branch simplification never adds a conditional jump: every instruction
   * it leaves is an old one or a `GOTO` to the label of an always-taken
   * branch, and the method does not grow.
   */
  lemma SimplifiedCodeShape(env: Env, header: MethodHeader, nodes: seq<Node>, args: seq<IntValueSet>)
    ensures var frames := env.analyze(header, nodes, args);
            var always := Classified(env, frames, nodes, AlwaysTaken, |nodes|);
            forall x :: x in SimplifiedCode(env, header, nodes, args).0 ==>
              x in nodes || exists b :: b in always && x.insn == Jump(GOTO, JumpTarget(b.insn))
    ensures |SimplifiedCode(env, header, nodes, args).0| <= |nodes|
  {
    var frames := env.analyze(header, nodes, args);
    var always := Classified(env, frames, nodes, AlwaysTaken, |nodes|);
    var never := Classified(env, frames, nodes, NeverTaken, |nodes|);
    RewriteAlwaysOnlyAddsGotos(env, nodes, always);
    RewriteNeverOnlyDeletes(env, RewriteAlways(env, nodes, always).0, never);
  }

  /**
   * The constant `inlineConstantArgs` records for the instruction at `i`:
   * a reachable, pure instruction that is not already a constant and pushes
   * exactly one value, whose value, read at the next real instruction, is a
   * singleton.
   */
  function InlineValue(env: Env, frames: seq<Option<StackFrame>>, nodes: seq<Node>, i: nat): (r: Option<Int32>)
    requires i < |nodes|
    ensures r.Some? ==> FrameAt(frames, i).Some? && IntConstant(nodes[i].insn).None?
                        && env.isPure(nodes[i].insn) && env.pushes(nodes[i].insn) == 1
    ensures r.Some? ==> NextReal(nodes, i).Some? && FrameAt(frames, NextReal(nodes, i).value).Some?
                        && r == Singleton(FromTop(FrameAt(frames, NextReal(nodes, i).value).value, 0))
  {
    if FrameAt(frames, i).None? then None
    else if IntConstant(nodes[i].insn).Some? then None
    else if !env.isPure(nodes[i].insn) then None
    else if env.pushes(nodes[i].insn) != 1 then None
    else match NextReal(nodes, i)
      case None => None
      case Some(next) =>
        match FrameAt(frames, next)
        case None => None
        case Some(nextFrame) => Singleton(FromTop(nextFrame, 0))
  }

  /** The values of the reachable candidates that are already constants, impure or push other than one value. */
  lemma InlineSkips(env: Env, frames: seq<Option<StackFrame>>, nodes: seq<Node>, i: nat)
    requires i < |nodes|
    requires IntConstant(nodes[i].insn).Some? || !env.isPure(nodes[i].insn) || env.pushes(nodes[i].insn) != 1
    ensures InlineValue(env, frames, nodes, i).None?
  {
  }

  /** `constInsns`, in insertion order: the candidates among the first `n` instructions. */
  function Candidates(env: Env, frames: seq<Option<StackFrame>>, nodes: seq<Node>, n: nat): (r: seq<(Node, Int32)>)
    requires n <= |nodes|
    ensures |r| <= n
  {
    if n == 0 then []
    else
      var rest := Candidates(env, frames, nodes, n - 1);
      match InlineValue(env, frames, nodes, n - 1)
      case None => rest
      case Some(v) => rest + [(nodes[n - 1], v)]
  }

  /** The recorded constants are exactly the instructions with an inline value, paired with it. */
  lemma {:induction false} CandidatesMembers(env: Env, frames: seq<Option<StackFrame>>, nodes: seq<Node>, n: nat)
    requires n <= |nodes|
    ensures forall c :: c in Candidates(env, frames, nodes, n) <==>
              exists i :: 0 <= i < n && InlineValue(env, frames, nodes, i).Some?
                          && c == (nodes[i], InlineValue(env, frames, nodes, i).value)
  {
    if n > 0 {
      CandidatesMembers(env, frames, nodes, n - 1);
    }
  }

  /** The replacement loop of `inlineConstantArgs`. */
  function InlineAll(env: Env, nodes: seq<Node>, consts: seq<(Node, Int32)>): (r: (seq<Node>, nat))
    ensures r.1 <= |consts|
  {
    if consts == [] then (nodes, 0)
    else InlineStep(env, InlineAll(env, nodes, consts[..|consts| - 1]), consts[|consts| - 1])
  }

  /**
   * One recorded instruction, if still present, replaced by a push of its
   * constant, counted when the replacement succeeds.
   */
  function InlineStep(env: Env, acc: (seq<Node>, nat), c: (Node, Int32)): (r: (seq<Node>, nat))
    ensures IndexOf(acc.0, c.0.id).None? ==> r == acc
    ensures r.1 == acc.1 || r.1 == acc.1 + 1
    ensures r.1 == acc.1 + 1 <==> IndexOf(acc.0, c.0.id).Some? && PureOperands(env, acc.0, IndexOf(acc.0, c.0.id).value).Some?
    ensures r.1 == acc.1 ==> r.0 == acc.0
  {
    if IndexOf(acc.0, c.0.id).None? then acc
    else
      var replaced := ReplaceExpression(env, acc.0, c.0.id, CreateIntConstant(c.1));
      (replaced.1, if replaced.0 then acc.1 + 1 else acc.1)
  }

  /**
   * A counted inlining step puts a push of the recorded constant where the
   * instruction's operands began, keeps everything before it, and removes
   * the instruction.
   */
  lemma InlineStepReplaces(env: Env, acc: (seq<Node>, nat), c: (Node, Int32))
    requires DistinctIds(acc.0) && InlineStep(env, acc, c).1 == acc.1 + 1
    ensures var r := InlineStep(env, acc, c).0;
            var j := PureOperands(env, acc.0, IndexOf(acc.0, c.0.id).value).value;
            && j < |r| && r[..j] == acc.0[..j] && IntConstant(r[j].insn) == Some(c.1)
            && IndexOf(r, c.0.id).None? && DistinctIds(r)
  {
    ReplaceRemoves(env, acc.0, c.0.id, CreateIntConstant(c.1));
  }

  /** `inlineConstantArgs(clazz, method, args)`: the new instructions and the number of constants inlined. */
  function InlinedCode(env: Env, header: MethodHeader, nodes: seq<Node>, args: seq<IntValueSet>): (seq<Node>, nat) {
    var frames := env.analyze(header, nodes, args);
    InlineAll(env, nodes, Candidates(env, frames, nodes, |nodes|))
  }

  /** Every instruction inlining leaves is an old one or a push of one of the recorded constants. */
  lemma {:induction false} InlineAllOnlyAddsConstants(env: Env, nodes: seq<Node>, consts: seq<(Node, Int32)>)
    ensures forall x :: x in InlineAll(env, nodes, consts).0 ==>
              x in nodes || exists c :: c in consts && IntConstant(x.insn) == Some(c.1)
    ensures |InlineAll(env, nodes, consts).0| <= |nodes|
  {
    if consts != [] {
      var pre := consts[..|consts| - 1];
      InlineAllOnlyAddsConstants(env, nodes, pre);
      var cur := InlineAll(env, nodes, pre).0;
      var c := consts[|consts| - 1];
      if IndexOf(cur, c.0.id).Some? {
        var r := ReplaceExpression(env, cur, c.0.id, CreateIntConstant(c.1));
        if r.0 {
          var idx := IndexOf(cur, c.0.id).value;
          var j := PureOperands(env, cur, idx).value;
          assert r.1 == r.1[..j] + [r.1[j]] + r.1[j + 1..];
          forall x | x in r.1 ensures x in nodes || exists c' :: c' in consts && IntConstant(x.insn) == Some(c'.1) {
            if x != r.1[j] {
              assert x in cur[..j] || x in cur[idx + 1..];
              assert x in cur;
            } else {
              assert IntConstant(x.insn) == Some(c.1);
            }
          }
        }
      }
    }
  }

  // One more element of the work lists: how the loops of the rewrite
  // passes extend their results.

  lemma RewriteAlwaysNext(env: Env, nodes: seq<Node>, branches: seq<Node>, k: nat)
    requires k < |branches|
    ensures RewriteAlways(env, nodes, branches[..k + 1]) == AlwaysStep(env, RewriteAlways(env, nodes, branches[..k]), branches[k])
  {
    assert branches[..k + 1][..k] == branches[..k];
  }

  lemma RewriteNeverNext(env: Env, nodes: seq<Node>, branches: seq<Node>, k: nat)
    requires k < |branches|
    ensures RewriteNever(env, nodes, branches[..k + 1]) == NeverStep(env, RewriteNever(env, nodes, branches[..k]), branches[k])
  {
    assert branches[..k + 1][..k] == branches[..k];
  }

  lemma InlineAllNext(env: Env, nodes: seq<Node>, consts: seq<(Node, Int32)>, k: nat)
    requires k < |consts|
    ensures InlineAll(env, nodes, consts[..k + 1]) == InlineStep(env, InlineAll(env, nodes, consts[..k]), consts[k])
  {
    assert consts[..k + 1][..k] == consts[..k];
  }
}
