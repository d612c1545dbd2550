/**
 * `ConstantArgTransformer`: discovers, over the call graph reachable from
 * the entry points, the constant values passed to each argument slot of
 * each inherited-method partition; then, method by method, rewrites the
 * conditional branches those constants decide and inlines the pure
 * computations they make constant.
 */
module ConstantArg {
  import opened Asm
  import opened IntValues
  import opened ConstantArgInputs
  import opened ConstantArgKnowledge
  import opened ConstantArgCode
  import opened ConstantArgDiscovery

  class ConstantArgTransformer {
    /** The collaborators: analyzer, descriptor sizes, renamability, branch evaluation, purity. */
    const env: Env
    /** A `LinkedHashSet`: insertion order, no duplicates. */
    var pendingMethods: seq<MemberRef>
    var arglessMethods: set<Partition>
    var argValues: map<Key, IntValueSet>
    var inheritedMethodSets: DisjointSet
    var branchesSimplified: nat
    var constantsInlined: nat
    /** The methods the discovery loop has analysed so far. */
    ghost var analyzed: set<MemberRef>

    constructor (env: Env)
      ensures this.env == env
      ensures pendingMethods == [] && arglessMethods == {} && argValues == map[]
      ensures branchesSimplified == 0 && constantsInlined == 0 && analyzed == {}
    {
      this.env := env;
      pendingMethods := [];
      arglessMethods := {};
      argValues := map[];
      inheritedMethodSets := DisjointSet([], map[]);
      branchesSimplified := 0;
      constantsInlined := 0;
      analyzed := {};
    }

    /** The discovery state held in the three fields. */
    function State(): Knowledge
      reads this
    {
      Knowledge(pendingMethods, arglessMethods, argValues)
    }

    /**
     * `preTransform`: reset, queue the entry points, then analyse queued
     * methods until the queue is empty.  On return every entry point has
     * been analysed, the analysed methods are closed under their calls,
     * and re-analysing any of them would record nothing new.
     */
    method PreTransform(cp: ClassPath)
      requires ValidSets(cp.inheritedMethodSets)
      modifies this
      ensures inheritedMethodSets == cp.inheritedMethodSets
      ensures branchesSimplified == 0 && constantsInlined == 0
      ensures pendingMethods == []
      ensures Discovered(env, cp, State(), analyzed)
    {
      Reset(cp);
      DiscoveryStart(env, cp, State(), analyzed);

      while pendingMethods != []
        invariant inheritedMethodSets == cp.inheritedMethodSets
        invariant Discovering(env, cp, State(), analyzed)
        decreases RemainingFacts(env, cp, State()), RemainingArgless(cp, State()), |pendingMethods|
        modifies this`pendingMethods, this`arglessMethods, this`argValues, this`analyzed
      {
        AnalyzeNext(cp);
      }
      DiscoveryDone(env, cp, State(), analyzed);
    }

    /**
     * One iteration of the loop of `preTransform`: take the first queued
     * method off the queue and analyse it.  The invariant is kept and the
     * termination measure decreases.
     */
    method AnalyzeNext(cp: ClassPath)
      requires ValidSets(cp.inheritedMethodSets) && inheritedMethodSets == cp.inheritedMethodSets
      requires Discovering(env, cp, State(), analyzed) && pendingMethods != []
      modifies this`pendingMethods, this`arglessMethods, this`argValues, this`analyzed
      ensures Discovering(env, cp, State(), analyzed)
      ensures Progressed(env, cp, old(State()), State())
    {
      ghost var s := State();
      DiscoveryStep(env, cp, s, analyzed);
      var ref := pendingMethods[0];
      pendingMethods := pendingMethods[1..];
      AnalyzeMethod(cp, ref);
      analyzed := analyzed + {ref};
    }

    /** The first half of `preTransform`: clear the state and the counters, then queue the entry points. */
    method Reset(cp: ClassPath)
      modifies this
      ensures inheritedMethodSets == cp.inheritedMethodSets
      ensures branchesSimplified == 0 && constantsInlined == 0
      ensures State() == Start(env, cp) && analyzed == {}
    {
      pendingMethods := [];
      arglessMethods := {};
      argValues := map[];
      inheritedMethodSets := cp.inheritedMethodSets;
      branchesSimplified := 0;
      constantsInlined := 0;
      analyzed := {};
      QueueEntryPoints();
    }

    /** `queueEntryPoints`: queue the members of every non-renamable partition. */
    method QueueEntryPoints()
      modifies this`pendingMethods
      ensures pendingMethods == QueueAll(env, old(pendingMethods), inheritedMethodSets.partitions)
    {
      var partitions := inheritedMethodSets.partitions;
      var i := 0;
      while i < |partitions|
        invariant 0 <= i <= |partitions|
        invariant pendingMethods == QueueAll(env, old(pendingMethods), partitions[..i])
      {
        var partition := partitions[i];
        if !env.isMethodRenamable(partition) {
          pendingMethods := AddAll(pendingMethods, partition.members);
        }
        assert partitions[..i + 1][..i] == partitions[..i];
        i := i + 1;
      }
      assert partitions[..i] == partitions;
    }

    /**
     * `analyzeMethod(classPath, ref)`: find the method, simplify the
     * branches of a copy under the recorded arguments, and record the
     * arguments of the calls the simplified copy makes.
     */
    method AnalyzeMethod(cp: ClassPath, ref: MemberRef)
      requires inheritedMethodSets == cp.inheritedMethodSets && ref in inheritedMethodSets.find
      modifies this`pendingMethods, this`arglessMethods, this`argValues
      ensures State() == Fold(old(State()), Contributions(env, cp, old(argValues), ref))
    {
      if ref.owner !in cp.classes {
        return;
      }
      var owner := cp.classes[ref.owner];
      var originalMethod := SingleOrNull(owner.methods, ref.name, ref.desc);
      if originalMethod.None? {
        return;
      }
      if !originalMethod.value.hasCode {
        return;
      }

      // `copy()`: a fresh node with every field of the method, so that the
      // class path is left as it was
      var info := originalMethod.value;
      var node := new MethodNode(info.name, info.desc, info.access, info.signature, info.exceptions,
                                 info.hasCode, info.instructions, info.tryCatchBlocks);
      var header := HeaderOf(owner.name, info);

      var args := GetArgs(env, inheritedMethodSets, argValues, ref);
      var _ := SimplifyBranches(header, node, args);
      AddArgValues(header, node, args);
    }

    /**
     * `addArgValues(owner, node, args)`: analyse the method again and, at
     * every reachable call to a member of the disjoint set, record each
     * argument value at the slot it starts at, queueing the callee's
     * partition whenever a slot changes or the callee is first seen called
     * without arguments.
     */
    method AddArgValues(header: MethodHeader, node: MethodNode, args: seq<IntValueSet>)
      modifies this`pendingMethods, this`arglessMethods, this`argValues
      ensures State() == Fold(old(State()), CallContributions(env, inheritedMethodSets,
                env.analyze(header, node.instructions, args), node.instructions, |node.instructions|))
    {
      var nodes := node.instructions;
      var frames := env.analyze(header, nodes, args);
      AddFrames(frames, nodes);
    }

    /** The frame loop of `addArgValues`. */
    method AddFrames(frames: seq<Option<StackFrame>>, nodes: seq<Node>)
      modifies this`pendingMethods, this`arglessMethods, this`argValues
      ensures FramesRecorded(env, inheritedMethodSets, frames, nodes, |nodes|, old(State()), State())
    {
      ghost var s0 := State();
      for i := 0 to |nodes|
        invariant FramesRecorded(env, inheritedMethodSets, frames, nodes, i, s0, State())
      {
        AddFrame(frames, nodes, i, s0);
      }
    }

    /** One iteration of the frame loop of `addArgValues`: an unreachable instruction contributes nothing. */
    method AddFrame(frames: seq<Option<StackFrame>>, nodes: seq<Node>, i: nat, ghost s0: Knowledge)
      requires i < |nodes| && FramesRecorded(env, inheritedMethodSets, frames, nodes, i, s0, State())
      modifies this`pendingMethods, this`arglessMethods, this`argValues
      ensures FramesRecorded(env, inheritedMethodSets, frames, nodes, i + 1, s0, State())
    {
      ghost var before := State();
      var frame := FrameAt(frames, i);
      if frame.Some? {
        AddCallSite(frame.value, nodes[i].insn);
      }
      FramesRecordedStep(env, inheritedMethodSets, frames, nodes, i, s0, before, State());
    }

    /** The body of the frame loop of `addArgValues` for one reachable instruction. */
    method AddCallSite(frame: StackFrame, insn: Insn)
      modifies this`pendingMethods, this`arglessMethods, this`argValues
      ensures State() == Fold(old(State()), SiteContributions(env, inheritedMethodSets, frame, insn))
    {
      if !insn.MethodInsn? {
        return;
      }
      var ref := MemberRef(insn.owner, insn.name, insn.desc);
      if ref !in inheritedMethodSets.find {
        return;
      }
      var invokedMethod := inheritedMethodSets.find[ref];
      var size := |env.argumentSizes(insn.desc)|;
      ghost var s0 := State();
      RecordArgs(frame, invokedMethod, size);

      ghost var mid := State();
      if size == 0 && invokedMethod !in arglessMethods {
        arglessMethods := arglessMethods + {invokedMethod};
        pendingMethods := AddAll(pendingMethods, invokedMethod.members);
      }
      CallSiteDone(env, inheritedMethodSets, s0, frame, insn, mid, State());
    }

    /** The argument loop of `addArgValues` at one call site: each of the top `size` values joined at its slot. */
    method RecordArgs(frame: StackFrame, invokedMethod: Partition, size: nat)
      modifies this`pendingMethods, this`argValues
      ensures ArgsRecorded(old(State()), invokedMethod, TopValues(frame, size), size,
                           ArgIndex(TopValues(frame, size), size), State())
    {
      ghost var vals := TopValues(frame, size);
      ghost var s0 := State();
      var index := 0;
      for j := 0 to size
        invariant ArgsRecorded(s0, invokedMethod, vals, j, index, State())
      {
        index := RecordArgAt(frame, invokedMethod, size, j, index, s0);
      }
    }

    /** One iteration of the argument loop: the `j`-th argument joined at slot `index`, which then advances by its size. */
    method RecordArgAt(frame: StackFrame, invokedMethod: Partition, size: nat, j: nat, index: int, ghost s0: Knowledge)
      returns (next: int)
      requires j < size && ArgsRecorded(s0, invokedMethod, TopValues(frame, size), j, index, State())
      modifies this`pendingMethods, this`argValues
      ensures ArgsRecorded(s0, invokedMethod, TopValues(frame, size), j + 1, next, State())
    {
      ghost var before := State();
      var value := StackAt(frame, |frame.stack| - size + j);
      RecordArg(invokedMethod, index, value.intSet);
      ArgsRecordedStep(s0, invokedMethod, TopValues(frame, size), j, index, before, value, State());
      next := index + value.size;
    }

    /** One argument value recorded, its partition queued if the slot changed. */
    method RecordArg(invokedMethod: Partition, index: nat, value: IntValueSet)
      modifies this`pendingMethods, this`argValues
      ensures State() == Step(old(State()), ArgValue(ArgRef(invokedMethod, index), value))
    {
      var changed := AddArgValue(ArgRef(invokedMethod, index), value);
      if changed {
        pendingMethods := AddAll(pendingMethods, invokedMethod.members);
      }
    }

    /**
     * `addArgValues(ref, value)`: join the value into the slot (anything
     * but a singleton makes it `Unknown`) and report whether it changed.
     */
    method AddArgValue(ref: Key, value: IntValueSet) returns (changed: bool)
      modifies this`argValues
      ensures argValues == old(argValues)[ref := Join(Get(old(argValues), ref), value)]
      ensures changed <==> Get(old(argValues), ref) != Some(argValues[ref])
    {
      var previous := Get(argValues, ref);
      var joined: IntValueSet;
      if Singleton(value).Some? {
        if previous.Some? {
          joined := Union(previous.value, value);
        } else {
          joined := value;
        }
      } else {
        joined := Unknown;
      }
      argValues := argValues[ref := joined];
      changed := previous != Some(joined);
    }

    /**
     * `simplifyBranches(owner, node, args)`: classify the reachable
     * conditional jumps whose operands are constants, then turn each
     * always-taken one into a `GOTO` and delete each never-taken one,
     * operands included, counting the rewrites that succeed.
     */
    method SimplifyBranches(header: MethodHeader, node: MethodNode, args: seq<IntValueSet>) returns (simplified: nat)
      modifies node`instructions
      ensures (node.instructions, simplified) == SimplifiedCode(env, header, old(node.instructions), args)
    {
      var code;
      code, simplified := SimplifyCode(header, node.instructions, args);
      node.instructions := code;
    }

    /** The steps of `simplifyBranches` on the instruction list, before it is stored back. */
    method SimplifyCode(header: MethodHeader, nodes: seq<Node>, args: seq<IntValueSet>) returns (code: seq<Node>, simplified: nat)
      ensures (code, simplified) == SimplifiedCode(env, header, nodes, args)
    {
      var frames := env.analyze(header, nodes, args);
      var alwaysTakenBranches, neverTakenBranches := ClassifyBranches(frames, nodes);
      var afterAlways, replaced := ReplaceAlwaysTaken(nodes, alwaysTakenBranches);
      var deleted;
      code, deleted := DeleteNeverTaken(afterAlways, neverTakenBranches);
      SimplifiedCodeSteps(env, header, nodes, args, alwaysTakenBranches, neverTakenBranches,
                          (afterAlways, replaced), (code, deleted));
      simplified := replaced + deleted;
    }

    /** The classification loop of `simplifyBranches`: the reachable jumps always and never taken, in order. */
    method ClassifyBranches(frames: seq<Option<StackFrame>>, nodes: seq<Node>)
      returns (alwaysTakenBranches: seq<Node>, neverTakenBranches: seq<Node>)
      ensures alwaysTakenBranches == Classified(env, frames, nodes, AlwaysTaken, |nodes|)
      ensures neverTakenBranches == Classified(env, frames, nodes, NeverTaken, |nodes|)
    {
      alwaysTakenBranches, neverTakenBranches := [], [];
      for i := 0 to |nodes|
        invariant alwaysTakenBranches == Classified(env, frames, nodes, AlwaysTaken, i)
        invariant neverTakenBranches == Classified(env, frames, nodes, NeverTaken, i)
      {
        var frame := FrameAt(frames, i);
        if frame.Some? {
          var fate := Fate(frame.value, nodes[i].insn);
          if fate == AlwaysTaken {
            alwaysTakenBranches := alwaysTakenBranches + [nodes[i]];
          } else if fate == NeverTaken {
            neverTakenBranches := neverTakenBranches + [nodes[i]];
          }
        }
      }
    }

    /** The first rewrite loop of `simplifyBranches`: each always-taken branch becomes a `GOTO` to its label. */
    method ReplaceAlwaysTaken(nodes: seq<Node>, branches: seq<Node>) returns (code: seq<Node>, replaced: nat)
      ensures (code, replaced) == RewriteAlways(env, nodes, branches)
    {
      code, replaced := nodes, 0;
      for k := 0 to |branches|
        invariant (code, replaced) == RewriteAlways(env, nodes, branches[..k])
      {
        var insn := branches[k];
        var replacement := Jump(GOTO, JumpTarget(insn.insn));
        var result := ReplaceExpression(env, code, insn.id, replacement);
        RewriteAlwaysNext(env, nodes, branches, k);
        code := result.1;
        if result.0 {
          replaced := replaced + 1;
        }
      }
      assert branches[..|branches|] == branches;
    }

    /** The second rewrite loop of `simplifyBranches`: each never-taken branch is deleted with its operands. */
    method DeleteNeverTaken(nodes: seq<Node>, branches: seq<Node>) returns (code: seq<Node>, deleted: nat)
      ensures (code, deleted) == RewriteNever(env, nodes, branches)
    {
      code, deleted := nodes, 0;
      for k := 0 to |branches|
        invariant (code, deleted) == RewriteNever(env, nodes, branches[..k])
      {
        var result := DeleteExpression(env, code, branches[k].id);
        RewriteNeverNext(env, nodes, branches, k);
        code := result.1;
        if result.0 {
          deleted := deleted + 1;
        }
      }
      assert branches[..|branches|] == branches;
    }

    /** The `when (insn.opcode)` of the classification loop. */
    method Fate(frame: StackFrame, insn: Insn) returns (fate: IntBranchResult)
      ensures fate == BranchFate(env, frame, insn)
    {
      fate := Undecided;
      if !insn.Jump? {
        return;
      }
      if IsUnaryIf(insn.opcode) {
        var value := StackAt(frame, |frame.stack| - 1);
        if value.intSet.Constant? {
          fate := env.evaluateUnary(insn.opcode, value.intSet.values);
        }
      } else if IsBinaryIf(insn.opcode) {
        var value1 := StackAt(frame, |frame.stack| - 2);
        var value2 := StackAt(frame, |frame.stack| - 1);
        if value1.intSet.Constant? && value2.intSet.Constant? {
          fate := env.evaluateBinary(insn.opcode, value1.intSet.values, value2.intSet.values);
        }
      }
    }

    /**
     * `inlineConstantArgs(clazz, node, args)`: record every reachable,
     * pure, single-push instruction that is not a constant and whose
     * pushed value is a singleton, then replace each one still in the
     * method, operands included, by a push of that constant.
     */
    method InlineConstantArgs(header: MethodHeader, node: MethodNode, args: seq<IntValueSet>) returns (inlined: nat)
      modifies node`instructions
      ensures (node.instructions, inlined) == InlinedCode(env, header, old(node.instructions), args)
    {
      var nodes := node.instructions;
      var frames := env.analyze(header, nodes, args);
      var constInsns := FindConstants(frames, nodes);
      var code;
      code, inlined := ReplaceConstants(nodes, constInsns);
      node.instructions := code;
    }

    /** The frame loop of `inlineConstantArgs`: `constInsns`, the instructions to inline and their values. */
    method FindConstants(frames: seq<Option<StackFrame>>, nodes: seq<Node>) returns (constInsns: seq<(Node, Int32)>)
      ensures constInsns == Candidates(env, frames, nodes, |nodes|)
    {
      constInsns := [];
      for i := 0 to |nodes|
        invariant constInsns == Candidates(env, frames, nodes, i)
      {
        var value := Candidate(frames, nodes, i);
        if value.Some? {
          constInsns := constInsns + [(nodes[i], value.value)];
        }
      }
    }

    /** The replacement loop of `inlineConstantArgs`: each recorded instruction still present becomes a constant push. */
    method ReplaceConstants(nodes: seq<Node>, constInsns: seq<(Node, Int32)>) returns (code: seq<Node>, inlined: nat)
      ensures (code, inlined) == InlineAll(env, nodes, constInsns)
    {
      code, inlined := nodes, 0;
      for k := 0 to |constInsns|
        invariant (code, inlined) == InlineAll(env, nodes, constInsns[..k])
      {
        var (insn, value) := constInsns[k];
        InlineAllNext(env, nodes, constInsns, k);
        if IndexOf(code, insn.id).Some? {
          var replacement := CreateIntConstant(value);
          var result := ReplaceExpression(env, code, insn.id, replacement);
          code := result.1;
          if result.0 {
            inlined := inlined + 1;
          }
        }
      }
      assert constInsns[..|constInsns|] == constInsns;
    }

    /** The body of the frame loop of `inlineConstantArgs`: the constant to record for instruction `i`, if any. */
    method Candidate(frames: seq<Option<StackFrame>>, nodes: seq<Node>, i: nat) returns (value: Option<Int32>)
      requires i < |nodes|
      ensures value == InlineValue(env, frames, nodes, i)
    {
      value := None;
      if FrameAt(frames, i).None? {
        return;
      }
      var insn := nodes[i].insn;
      if IntConstant(insn).Some? {
        // already constant
        return;
      } else if !env.isPure(insn) {
        // an instruction with a side effect stays
        return;
      } else if env.pushes(insn) != 1 {
        // only an instruction pushing a single value can be replaced
        return;
      }
      // the value pushed is on top of the stack of the next real instruction's frame
      var nextInsn := NextReal(nodes, i);
      if nextInsn.None? {
        return;
      }
      var nextFrame := FrameAt(frames, nextInsn.value);
      if nextFrame.None? {
        return;
      }
      var top := StackAt(nextFrame.value, |nextFrame.value.stack| - 1);
      value := Singleton(top.intSet);
    }

    /**
     * `transformCode`: with the arguments recorded for the method, simplify
     * its branches, then inline its constants, adding both counts to the
     * totals.  It never asks for another pass.
     */
    method TransformCode(cp: ClassPath, clazz: ClassNode, node: MethodNode) returns (changed: bool)
      requires MemberRef(clazz.name, node.name, node.desc) in inheritedMethodSets.find
      modifies this`branchesSimplified, this`constantsInlined, node`instructions
      ensures !changed
      ensures var args := GetArgs(env, inheritedMethodSets, argValues, MemberRef(clazz.name, node.name, node.desc));
              var header := MethodHeader(clazz.name, node.desc, node.access, node.tryCatchBlocks);
              var simplifiedCode := SimplifiedCode(env, header, old(node.instructions), args);
              var inlinedCode := InlinedCode(env, header, simplifiedCode.0, args);
              && node.instructions == inlinedCode.0
              && branchesSimplified == old(branchesSimplified) + simplifiedCode.1
              && constantsInlined == old(constantsInlined) + inlinedCode.1
    {
      var args := GetArgs(env, inheritedMethodSets, argValues, MemberRef(clazz.name, node.name, node.desc));
      var header := MethodHeader(clazz.name, node.desc, node.access, node.tryCatchBlocks);
      var simplified := SimplifyBranches(header, node, args);
      branchesSimplified := branchesSimplified + simplified;
      var inlined := InlineConstantArgs(header, node, args);
      constantsInlined := constantsInlined + inlined;
      changed := false;
    }
  }

  // Loop invariants of `addArgValues` and their step lemmas.

  /** The first `i` instructions' call sites have been recorded on top of `s0`. */
  ghost predicate FramesRecorded(env: Env, sets: DisjointSet, frames: seq<Option<StackFrame>>, nodes: seq<Node>,
                                 i: nat, s0: Knowledge, s: Knowledge) {
    i <= |nodes| && s == Fold(s0, CallContributions(env, sets, frames, nodes, i))
  }

  lemma FramesRecordedStep(env: Env, sets: DisjointSet, frames: seq<Option<StackFrame>>, nodes: seq<Node>,
                           i: nat, s0: Knowledge, before: Knowledge, after: Knowledge)
    requires FramesRecorded(env, sets, frames, nodes, i, s0, before) && i < |nodes|
    requires FrameAt(frames, i).None? ==> after == before
    requires FrameAt(frames, i).Some? ==> after == Fold(before, SiteContributions(env, sets, FrameAt(frames, i).value, nodes[i].insn))
    ensures FramesRecorded(env, sets, frames, nodes, i + 1, s0, after)
  {
    var site := match FrameAt(frames, i) case None => [] case Some(frame) => SiteContributions(env, sets, frame, nodes[i].insn);
    assert CallContributions(env, sets, frames, nodes, i + 1) == CallContributions(env, sets, frames, nodes, i) + site;
    FoldAppend(s0, CallContributions(env, sets, frames, nodes, i), site);
  }

  /** The first `j` arguments of a call have been recorded on top of `s0`; `index` is the next slot. */
  ghost predicate ArgsRecorded(s0: Knowledge, p: Partition, vals: seq<Value>, j: nat, index: int, s: Knowledge) {
    j <= |vals| && index == ArgIndex(vals, j) && s == Fold(s0, ArgContributions(p, vals[..j]))
  }

  lemma ArgsRecordedStep(s0: Knowledge, p: Partition, vals: seq<Value>, j: nat, index: int,
                         before: Knowledge, value: Value, after: Knowledge)
    requires ArgsRecorded(s0, p, vals, j, index, before) && j < |vals| && value == vals[j]
    requires after == Step(before, ArgValue(ArgRef(p, index), value.intSet))
    ensures ArgsRecorded(s0, p, vals, j + 1, index + value.size, after)
  {
    ArgIndexStep(vals, j);
    var longer := ArgContributions(p, vals[..j + 1]);
    var shorter := ArgContributions(p, vals[..j]);
    assert vals[..j + 1][..j] == vals[..j];
    assert longer[..j] == shorter;
    assert ArgIndex(vals[..j + 1], j) == ArgIndex(vals, j);
    assert longer == shorter + [ArgValue(ArgRef(p, index), value.intSet)];
  }

  /** The last part of a call site: the argless callee recorded when the call has no arguments. */
  lemma {:induction false} CallSiteDone(env: Env, sets: DisjointSet, s0: Knowledge, frame: StackFrame, insn: Insn, mid: Knowledge, s: Knowledge)
    requires insn.MethodInsn? && MemberRef(insn.owner, insn.name, insn.desc) in sets.find
    requires var p := sets.find[MemberRef(insn.owner, insn.name, insn.desc)];
             var size := |env.argumentSizes(insn.desc)|;
             && ArgsRecorded(s0, p, TopValues(frame, size), size, ArgIndex(TopValues(frame, size), size), mid)
             && s == if size == 0 then Step(mid, Argless(p)) else mid
    ensures s == Fold(s0, SiteContributions(env, sets, frame, insn))
  {
    var p := sets.find[MemberRef(insn.owner, insn.name, insn.desc)];
    var size := |env.argumentSizes(insn.desc)|;
    var vals := TopValues(frame, size);
    var args := ArgContributions(p, vals);
    var site := SiteContributions(env, sets, frame, insn);
    assert vals[..size] == vals;
    assert mid == Fold(s0, args);
    if size == 0 {
      assert args == [];
      assert site == [Argless(p)];
      assert site[..0] == [];
    } else {
      assert site == args + [];
      assert args + [] == args;
    }
  }
}
