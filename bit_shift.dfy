/**
 * Shift-distance masking: an int-constant push that feeds a shift is
 * replaced by the distance the JVM actually uses, the low 5 bits for int
 * shifts and the low 6 bits for long shifts (Java Virtual Machine
 * Specification, section 6.5, ishl/ishr/iushr and lshl/lshr/lushr).
 */
module BitShift {
  import opened Asm

  /** `LONG_SHIFTS.contains(opcode) ? 63 : 31` */
  function ShiftMask(shift: Insn): (mask: int)
    ensures mask == 31 || mask == 63
    ensures mask == 63 <==> shift.Simple? && (shift.opcode == LSHL || shift.opcode == LSHR || shift.opcode == LUSHR)
  {
    if shift.Simple? && (shift.opcode == LSHL || shift.opcode == LSHR || shift.opcode == LUSHR) then 63 else 31
  }

  predicate IsShift(insn: Insn) {
    insn.Simple? && ISHL <= insn.opcode <= LUSHR
  }

  /**
   * `bits & mask` for a mask of the form 2^k - 1.  On a two's-complement
   * int this keeps the low k bits, which is the Euclidean remainder
   * modulo 2^k.
   */
  function Masked(bits: Int32, mask: int): (r: Int32)
    requires mask == 31 || mask == 63
    ensures 0 <= r <= mask
    ensures (bits - r) % (mask + 1) == 0
    ensures 0 <= bits <= mask ==> r == bits
  {
    bits % (mask + 1)
  }

  /** One match of `(ICONST | BIPUSH | SIPUSH | LDC) (ISHL | ... | LUSHR)`. */
  datatype Match = Match(push: nat, shift: nat)

  /**
   * What the instruction matcher delivers: each match is a push followed
   * by a shift as the next real instruction, in increasing order.
   */
  predicate Matches(s: seq<Node>, ms: seq<Match>) {
    && (forall k :: 0 <= k < |ms| ==> ms[k].push < ms[k].shift < |s|)
    && (forall k :: 0 <= k < |ms| ==> IntConstant(s[ms[k].push].insn).Some?)
    && (forall k :: 0 <= k < |ms| ==> IsShift(s[ms[k].shift].insn))
    && (forall k :: 0 <= k < |ms| ==> NextReal(s, ms[k].push) == Some(ms[k].shift))
    && (forall k, l :: 0 <= k < l < |ms| ==> ms[k].push < ms[l].push)
  }

  /** The masking step on one match must replace the push. */
  predicate Changes(s: seq<Insn>, m: Match) {
    m.push < |s| && m.shift < |s| && IntConstant(s[m.push]).Some?
    && IntConstant(s[m.push]).value != Masked(IntConstant(s[m.push]).value, ShiftMask(s[m.shift]))
  }

  function MaskOne(s: seq<Insn>, m: Match): (r: seq<Insn>)
    ensures |r| == |s|
  {
    if Changes(s, m) then
      s[m.push := CreateIntConstant(Masked(IntConstant(s[m.push]).value, ShiftMask(s[m.shift])))]
    else s
  }

  /** The instructions after masking the matches in order. */
  function MaskAll(s: seq<Insn>, ms: seq<Match>): (r: seq<Insn>)
    ensures |r| == |s|
  {
    if ms == [] then s else MaskOne(MaskAll(s, ms[..|ms| - 1]), ms[|ms| - 1])
  }

  /** How many pushes the masking replaces (the `simplified` increments). */
  function Replacements(s: seq<Insn>, ms: seq<Match>): nat {
    if ms == [] then 0
    else Replacements(s, ms[..|ms| - 1]) + (if Changes(MaskAll(s, ms[..|ms| - 1]), ms[|ms| - 1]) then 1 else 0)
  }

  /** A matched push that already holds a distance within the mask. */
  predicate IsMasked(t: seq<Insn>, m: Match) {
    m.push < |t| && m.shift < |t| && IntConstant(t[m.push]).Some?
    && 0 <= IntConstant(t[m.push]).value <= ShiftMask(t[m.shift])
  }

  /** The push is replaced exactly when masking changes its value. */
  lemma ReplacedExactlyWhenChanged(s: seq<Insn>, m: Match)
    requires m.push < |s| && m.shift < |s| && IntConstant(s[m.push]).Some?
    ensures Changes(s, m) <==> MaskOne(s, m) != s
    ensures IntConstant(MaskOne(s, m)[m.push]) == Some(Masked(IntConstant(s[m.push]).value, ShiftMask(s[m.shift])))
  {
    var bits := IntConstant(s[m.push]).value;
    var nb := Masked(bits, ShiftMask(s[m.shift]));
    if Changes(s, m) {
      assert IntConstant(MaskOne(s, m)[m.push]) == Some(nb) != IntConstant(s[m.push]);
    }
  }

  /** Masking leaves every position other than the matched pushes alone. */
  lemma {:induction false} OnlyPushesChange(s: seq<Insn>, ms: seq<Match>, i: int)
    requires 0 <= i < |s|
    requires forall k :: 0 <= k < |ms| ==> ms[k].push != i
    ensures MaskAll(s, ms)[i] == s[i]
  {
    if ms != [] {
      OnlyPushesChange(s, ms[..|ms| - 1], i);
    }
  }

  /** After masking, every matched push is within its mask. */
  lemma AllMasked(nodes: seq<Node>, ms: seq<Match>)
    requires Matches(nodes, ms)
    ensures forall k :: 0 <= k < |ms| ==> IsMasked(MaskAll(Insns(nodes), ms), ms[k])
  {
    MatchesPairs(nodes, ms);
    PairsMasked(Insns(nodes), ms);
  }

  /**
   * What the masking relies on: each matched push is a constant load and
   * each matched shift is not, and the pushes come in increasing order.
   */
  predicate Pairs(t: seq<Insn>, ms: seq<Match>) {
    && (forall k :: 0 <= k < |ms| ==> ms[k].push < |t| && ms[k].shift < |t|)
    && (forall k :: 0 <= k < |ms| ==> IntConstant(t[ms[k].push]).Some? && IntConstant(t[ms[k].shift]).None?)
    && (forall k, l :: 0 <= k < l < |ms| ==> ms[k].push < ms[l].push)
  }

  lemma MatchesPairs(nodes: seq<Node>, ms: seq<Match>)
    requires Matches(nodes, ms)
    ensures Pairs(Insns(nodes), ms)
  {
    forall k | 0 <= k < |ms| ensures IntConstant(Insns(nodes)[ms[k].shift]).None? {
      assert IsShift(nodes[ms[k].shift].insn);
    }
  }

  lemma {:induction false} PairsMasked(t: seq<Insn>, ms: seq<Match>)
    requires Pairs(t, ms)
    ensures forall k :: 0 <= k < |ms| ==> IsMasked(MaskAll(t, ms), ms[k])
  {
    if ms != [] {
      assert Pairs(t, ms[..|ms| - 1]);
      PairsMasked(t, ms[..|ms| - 1]);
      LastMasked(t, ms);
    }
  }

  /** The inductive step of `AllMasked`: masking the last match keeps the earlier ones masked. */
  lemma {:induction false} LastMasked(t: seq<Insn>, ms: seq<Match>)
    requires Pairs(t, ms) && ms != []
    requires forall k :: 0 <= k < |ms| - 1 ==> IsMasked(MaskAll(t, ms[..|ms| - 1]), ms[k])
    ensures forall k :: 0 <= k < |ms| ==> IsMasked(MaskAll(t, ms), ms[k])
  {
    var pre := ms[..|ms| - 1];
    var last := ms[|ms| - 1];
    var u := MaskAll(t, pre);
    assert MaskAll(t, ms) == MaskOne(u, last);
    forall j | 0 <= j < |pre| ensures pre[j].push != last.push {
      assert ms[j].push < ms[|ms| - 1].push;
    }
    OnlyPushesChange(t, pre, last.push);
    forall k | 0 <= k < |ms| ensures IsMasked(MaskOne(u, last), ms[k]) {
      ShiftUntouched(t, ms, k);
      if k < |ms| - 1 {
        assert IsMasked(u, pre[k]);
        assert ms[k].push < last.push;
      }
      MaskedAfterOne(u, last, ms[k], k == |ms| - 1);
    }
  }

  /** Masking the earlier matches never touches the shift of a match. */
  lemma ShiftUntouched(t: seq<Insn>, ms: seq<Match>, k: int)
    requires Pairs(t, ms) && ms != [] && 0 <= k < |ms|
    ensures MaskAll(t, ms[..|ms| - 1])[ms[k].shift] == t[ms[k].shift]
  {
    var pre := ms[..|ms| - 1];
    forall j | 0 <= j < |pre| ensures pre[j].push != ms[k].shift {
      assert IntConstant(t[ms[j].push]).Some?;
    }
    OnlyPushesChange(t, pre, ms[k].shift);
  }

  /** One match is masked after masking `last`: `last` itself, or an earlier match already masked. */
  lemma MaskedAfterOne(u: seq<Insn>, last: Match, m: Match, isLast: bool)
    requires m.shift < |u| && last.push < |u| && last.shift < |u|
    requires IntConstant(u[m.shift]).None? && IntConstant(u[last.push]).Some?
    requires isLast ==> m == last
    requires !isLast ==> IsMasked(u, m) && m.push != last.push
    ensures IsMasked(MaskOne(u, last), m)
  {
    MaskOneElsewhere(u, last, m.shift);
    if isLast {
      ReplacedExactlyWhenChanged(u, last);
    } else {
      MaskOneElsewhere(u, last, m.push);
    }
  }

  /** Masking one match changes no position but its push. */
  lemma MaskOneElsewhere(u: seq<Insn>, m: Match, i: int)
    requires 0 <= i < |u| && i != m.push
    ensures MaskOne(u, m)[i] == u[i]
  {
  }

  /** On instructions whose matched pushes are all in range, masking does nothing. */
  lemma {:induction false} MaskedIsFixed(t: seq<Insn>, ms: seq<Match>)
    requires forall k :: 0 <= k < |ms| ==> IsMasked(t, ms[k])
    ensures MaskAll(t, ms) == t
    ensures Replacements(t, ms) == 0
  {
    if ms != [] {
      MaskedIsFixed(t, ms[..|ms| - 1]);
      assert IsMasked(t, ms[|ms| - 1]);
    }
  }

  /** Running the masking a second time replaces nothing and counts nothing. */
  lemma Idempotent(nodes: seq<Node>, ms: seq<Match>)
    requires Matches(nodes, ms)
    ensures MaskAll(MaskAll(Insns(nodes), ms), ms) == MaskAll(Insns(nodes), ms)
    ensures Replacements(MaskAll(Insns(nodes), ms), ms) == 0
  {
    AllMasked(nodes, ms);
    MaskedIsFixed(MaskAll(Insns(nodes), ms), ms);
  }

  class BitShiftTransformer {
    /** Number of pushes replaced since the last `PreTransform`. */
    var simplified: int

    constructor ()
      ensures simplified == 0
    {
      simplified := 0;
    }

    method PreTransform()
      modifies this
      ensures simplified == 0
    {
      simplified := 0;
    }

    method TransformCode(methodNode: MethodNode, matches: seq<Match>) returns (changed: bool)
      requires Matches(methodNode.instructions, matches)
      modifies this, methodNode`instructions
      ensures !changed
      ensures Insns(methodNode.instructions) == MaskAll(Insns(old(methodNode.instructions)), matches)
      ensures simplified == old(simplified) + Replacements(Insns(old(methodNode.instructions)), matches)
      ensures forall i :: 0 <= i < |methodNode.instructions| && (forall k :: 0 <= k < |matches| ==> matches[k].push != i)
                ==> methodNode.instructions[i] == old(methodNode.instructions)[i]
      ensures forall k :: 0 <= k < |matches| ==> IsMasked(Insns(methodNode.instructions), matches[k])
    {
      ghost var s0 := methodNode.instructions;
      for k := 0 to |matches|
        invariant Masking(s0, methodNode.instructions, matches, k)
        invariant simplified == old(simplified) + Replacements(Insns(s0), matches[..k])
      {
        var m := matches[k];
        ghost var before := methodNode.instructions;
        PushUntouched(s0, before, matches, k);
        var bits := IntConstant(methodNode.instructions[m.push].insn).value;
        var simplifiedBits := Masked(bits, ShiftMask(methodNode.instructions[m.shift].insn));
        if bits != simplifiedBits {
          var newId := FreshId(methodNode.instructions);
          methodNode.instructions := methodNode.instructions[m.push := Node(newId, CreateIntConstant(simplifiedBits))];
          simplified := simplified + 1;
        }
        MaskingStep(s0, before, methodNode.instructions, matches, k);
      }
      MaskingDone(s0, methodNode.instructions, matches);
      changed := false;
    }
  }

  /** The loop state of `transformCode` after replacing the first `k` matches. */
  ghost predicate Masking(s0: seq<Node>, nodes: seq<Node>, ms: seq<Match>, k: int) {
    && 0 <= k <= |ms|
    && |nodes| == |s0|
    && Insns(nodes) == MaskAll(Insns(s0), ms[..k])
    && (forall i :: 0 <= i < |s0| && (forall j :: 0 <= j < k ==> ms[j].push != i) ==> nodes[i] == s0[i])
  }

  lemma PushUntouched(s0: seq<Node>, nodes: seq<Node>, ms: seq<Match>, k: int)
    requires Matches(s0, ms) && Masking(s0, nodes, ms, k) && k < |ms|
    ensures nodes[ms[k].push] == s0[ms[k].push]
    ensures IntConstant(nodes[ms[k].push].insn).Some?
  {
    forall j | 0 <= j < k ensures ms[j].push != ms[k].push {
    }
  }

  lemma MaskingStep(s0: seq<Node>, nodes: seq<Node>, next: seq<Node>, ms: seq<Match>, k: int)
    requires Matches(s0, ms) && Masking(s0, nodes, ms, k) && k < |ms|
    requires nodes[ms[k].push] == s0[ms[k].push]
    requires var bits := IntConstant(nodes[ms[k].push].insn).value;
             var masked := Masked(bits, ShiftMask(nodes[ms[k].shift].insn));
             if bits != masked then
               exists newId :: next == nodes[ms[k].push := Node(newId, CreateIntConstant(masked))]
             else next == nodes
    ensures Masking(s0, next, ms, k + 1)
    ensures Replacements(Insns(s0), ms[..k + 1])
            == Replacements(Insns(s0), ms[..k]) + (if next != nodes then 1 else 0)
  {
    assert ms[..k + 1][..k] == ms[..k];
    var cur := Insns(nodes);
    assert Insns(next) == MaskOne(cur, ms[k]);
    ReplacedExactlyWhenChanged(cur, ms[k]);
    if next != nodes {
      assert Insns(next) != cur;
    }
  }

  lemma MaskingDone(s0: seq<Node>, nodes: seq<Node>, ms: seq<Match>)
    requires Matches(s0, ms) && Masking(s0, nodes, ms, |ms|)
    ensures Insns(nodes) == MaskAll(Insns(s0), ms)
    ensures forall i :: 0 <= i < |nodes| && (forall k :: 0 <= k < |ms| ==> ms[k].push != i) ==> nodes[i] == s0[i]
    ensures forall k :: 0 <= k < |ms| ==> IsMasked(Insns(nodes), ms[k])
    ensures Replacements(Insns(s0), ms[..|ms|]) == Replacements(Insns(s0), ms)
  {
    assert ms[..|ms|] == ms;
    AllMasked(s0, ms);
  }
}
