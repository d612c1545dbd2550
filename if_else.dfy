/**
 * The if/else normalisation of the decompiled AST: the first pass moves
 * an if-like branch to the `else` side (negating the condition) and
 * prefers `if (a)` over `if (!a)`; the second pass unwraps an `else`
 * block holding a single `if`, so that it prints as `else if`.
 */
module IfElse {
  import opened Asm

  /**
   * Conditions, as far as the transformer looks at them: a logical
   * complement or any other expression.
   */
  datatype Expr = Not(operand: Expr) | Cond(id: nat)

  /**
   * Statements: an `if` with an optional `else`, a block, and any other
   * statement with the statements nested in it (loop bodies, `try`
   * blocks, ...), which the transformer searches for `if`s as well.
   *
   * `thenAttached` is the parent link of the then-branch.  JavaParser's
   * setters unlink the node they replace from its parent's child list, and
   * `findAll` walks child lists; a then-branch that is no longer among the
   * `if`'s children is still its `thenStmt`, but no search reaches into it.
   * A parsed unit has every then-branch attached.
   */
  datatype Stmt =
    | If(cond: Expr, thenStmt: Stmt, elseStmt: Option<Stmt>, thenAttached: bool)
    | Block(stmts: seq<Stmt>)
    | Other(tag: nat, body: seq<Stmt>)

  /** `ExprUtils.isNot`: the condition is a logical complement. */
  predicate IsNot(e: Expr) {
    e.Not?
  }

  /** `ExprUtils.not`: drop a logical complement, or add one. */
  function Negate(e: Expr): Expr {
    if e.Not? then e.operand else Not(e)
  }

  /**
   * On a condition that is not a double complement, negation turns `!a`
   * into `a` and `a` into `!a`, and negating twice gives the condition back.
   */
  lemma NegateFlips(e: Expr)
    requires !(e.Not? && e.operand.Not?)
    ensures IsNot(Negate(e)) <==> !IsNot(e)
    ensures Negate(Negate(e)) == e
  {
  }

  /** `isIf`: an `if`, or a block of exactly one statement which is an `if`. */
  predicate IsIf(s: Stmt) {
    match s
    case If(_, _, _, _) => true
    case Block(ss) => |ss| == 1 && ss[0].If?
    case Other(_, _) => false
  }

  /**
   * `getIf`: the `if` itself, or the only statement of a singleton block;
   * None where the source throws `IllegalArgumentException`.
   */
  function GetIf(s: Stmt): (r: Option<Stmt>)
    ensures r.Some? <==> IsIf(s)
    ensures r.Some? ==> r.value.If? && (r.value == s || s == Block([r.value]))
  {
    match s
    case If(_, _, _, _) => Some(s)
    case Block(ss) => if |ss| == 1 && ss[0].If? then Some(ss[0]) else None
    case Other(_, _) => None
  }

  /**
   * When the first pass exchanges the branches of an `if`: the then-branch
   * is if-like and the else-branch is not, or the condition is a complement
   * and it is not the case that only the else-branch is if-like.
   */
  predicate Swaps(c: Expr, t: Stmt, e: Stmt) {
    (IsIf(t) && !IsIf(e)) || (IsNot(c) && !(!IsIf(t) && IsIf(e)))
  }

  /**
   * The first pass on one `if` with an `else`: condition, then-branch,
   * else-branch and the then-branch's parent link afterwards.  Both swaps
   * assign from the values read at the start, so taking both gives the
   * same result as taking one: the branches are exchanged, never lost or
   * duplicated, and the condition negated exactly when `Swaps` holds.
   * A swap leaves the new then-branch unlinked: `setThenStmt` unlinks the
   * old then-branch, and `setElseStmt` then unlinks the old else-branch,
   * which is by now the then-branch too, before linking the old
   * then-branch as the else.  When both swaps run, the second finds the
   * same nodes in place and its setters change nothing.
   */
  function FirstPassRule(c: Expr, t: Stmt, e: Stmt, attached: bool): (r: (Expr, Stmt, Stmt, bool))
    ensures Swaps(c, t, e) ==> r == (Negate(c), e, t, false)
    ensures !Swaps(c, t, e) ==> r == (c, t, e, attached)
    ensures IsIf(t) && !IsIf(e) ==> r == (Negate(c), e, t, false)
    ensures !IsIf(t) && IsIf(e) ==> r == (c, t, e, attached)
  {
    var swapped := if IsIf(t) && !IsIf(e) then (Negate(c), e, t, false) else (c, t, e, attached);
    if !IsIf(t) && IsIf(e) then (c, t, e, attached)
    else if IsNot(c) then (Negate(c), e, t, false)
    else swapped
  }

  /**
   * The first `findAll(IfStmt).forEach` pass over a statement tree.  The
   * `if`s are collected before any is rewritten, so every `if` is visited,
   * detached or not.  The rule for each `if` reads only its own condition
   * and whether its two branches are if-like, and no rewrite changes
   * whether any statement is if-like, so the order in which the `if`s are
   * visited does not matter.
   */
  function FirstPass(s: Stmt): Stmt
    decreases s
  {
    match s
    case If(c, t, None, a) => If(c, FirstPass(t), None, a)
    case If(c, t, Some(e), a) =>
      if Swaps(c, t, e) then If(Negate(c), FirstPass(e), Some(FirstPass(t)), false)
      else If(c, FirstPass(t), Some(FirstPass(e)), a)
    case Block(ss) => Block(seq(|ss|, i requires 0 <= i < |ss| => FirstPass(ss[i])))
    case Other(tag, ss) => Other(tag, seq(|ss|, i requires 0 <= i < |ss| => FirstPass(ss[i])))
  }

  /** The second pass on one `else`: an if-like one is replaced by its `if`. */
  function SecondPassRule(e: Stmt): (r: Stmt)
    ensures IsIf(e) ==> r.If? && (r == e || e == Block([r]))
    ensures !IsIf(e) ==> r == e
  {
    match GetIf(e)
    case Some(inner) => inner
    case None => e
  }

  /**
   * The second `findAll(IfStmt).forEach` pass over a statement tree: it
   * reaches the `if`s along child lists only, so a then-branch the first
   * pass unlinked is left exactly as it is.
   */
  function SecondPass(s: Stmt): Stmt
    decreases s
  {
    match s
    case If(c, t, None, a) => If(c, if a then SecondPass(t) else t, None, a)
    case If(c, t, Some(e), a) =>
      var t' := if a then SecondPass(t) else t;
      (match e
       case Block(ss) =>
         if |ss| == 1 && ss[0].If? then If(c, t', Some(SecondPass(ss[0])), a)
         else If(c, t', Some(SecondPass(e)), a)
       case _ => If(c, t', Some(SecondPass(e)), a))
    case Block(ss) => Block(seq(|ss|, i requires 0 <= i < |ss| => SecondPass(ss[i])))
    case Other(tag, ss) => Other(tag, seq(|ss|, i requires 0 <= i < |ss| => SecondPass(ss[i])))
  }

  /**
   * The second pass at an `if` with an `else`: the else-branch is put
   * through `SecondPassRule` (an if-like one replaced by its `if`, any
   * other left as it is) and then visited itself; the then-branch is
   * visited only while it is attached.
   */
  lemma SecondPassStep(c: Expr, t: Stmt, e: Stmt, a: bool)
    ensures SecondPass(If(c, t, Some(e), a)) == If(c, if a then SecondPass(t) else t, Some(SecondPass(SecondPassRule(e))), a)
    ensures !a ==> SecondPass(If(c, t, Some(e), a)).thenStmt == t
  {
  }

  /** `transform(unit)`: both passes, one after the other. */
  function Transform(s: Stmt): Stmt {
    SecondPass(FirstPass(s))
  }

  /** Every then-branch in the tree is linked to its `if`, as in a freshly parsed unit. */
  predicate Attached(s: Stmt) {
    match s
    case If(_, t, e, a) => a && Attached(t) && (e.Some? ==> Attached(e.value))
    case Block(ss) => forall i :: 0 <= i < |ss| ==> Attached(ss[i])
    case Other(_, ss) => forall i :: 0 <= i < |ss| ==> Attached(ss[i])
  }

  /** No `if` in the tree has an `else`. */
  predicate NoElse(s: Stmt) {
    match s
    case If(_, t, e, _) => e.None? && NoElse(t)
    case Block(ss) => forall i :: 0 <= i < |ss| ==> NoElse(ss[i])
    case Other(_, ss) => forall i :: 0 <= i < |ss| ==> NoElse(ss[i])
  }

  /** After the first pass no `if` keeps an if-like then-branch beside a plain else-branch. */
  predicate IfLikeLast(s: Stmt) {
    match s
    case If(_, t, e, _) => (e.Some? ==> !(IsIf(t) && !IsIf(e.value)) && IfLikeLast(e.value)) && IfLikeLast(t)
    case Block(ss) => forall i :: 0 <= i < |ss| ==> IfLikeLast(ss[i])
    case Other(_, ss) => forall i :: 0 <= i < |ss| ==> IfLikeLast(ss[i])
  }

  /** Every if-like `else` in the tree is an `if` itself, never a block around one. */
  predicate ElseUnwrapped(s: Stmt) {
    match s
    case If(_, t, e, _) => (e.Some? ==> !(IsIf(e.value) && e.value.Block?) && ElseUnwrapped(e.value)) && ElseUnwrapped(t)
    case Block(ss) => forall i :: 0 <= i < |ss| ==> ElseUnwrapped(ss[i])
    case Other(_, ss) => forall i :: 0 <= i < |ss| ==> ElseUnwrapped(ss[i])
  }

  /** The same, for the `else`s a search along child lists reaches. */
  predicate ReachedElseUnwrapped(s: Stmt) {
    match s
    case If(_, t, e, a) =>
      && (e.Some? ==> !(IsIf(e.value) && e.value.Block?) && ReachedElseUnwrapped(e.value))
      && (a ==> ReachedElseUnwrapped(t))
    case Block(ss) => forall i :: 0 <= i < |ss| ==> ReachedElseUnwrapped(ss[i])
    case Other(_, ss) => forall i :: 0 <= i < |ss| ==> ReachedElseUnwrapped(ss[i])
  }

  /** The first pass keeps the kind of every statement, so whether it is if-like. */
  lemma FirstPassKeepsKind(s: Stmt)
    ensures FirstPass(s).If? == s.If? && FirstPass(s).Block? == s.Block?
    ensures IsIf(FirstPass(s)) == IsIf(s)
  {
    if s.Block? && |s.stmts| == 1 {
      assert FirstPass(s).stmts[0] == FirstPass(s.stmts[0]);
    }
  }

  /** Likewise for the second pass. */
  lemma SecondPassKeepsKind(s: Stmt)
    ensures SecondPass(s).If? == s.If? && SecondPass(s).Block? == s.Block?
    ensures IsIf(SecondPass(s)) == IsIf(s)
  {
    if s.Block? && |s.stmts| == 1 {
      assert SecondPass(s).stmts[0] == SecondPass(s.stmts[0]);
    }
  }

  /** A tree whose `if`s have no `else` is left exactly as it was by both passes. */
  lemma {:induction false} NoElseUntouched(s: Stmt)
    requires NoElse(s)
    ensures FirstPass(s) == s && SecondPass(s) == s
  {
    match s
    case If(c, t, _, _) =>
      NoElseUntouched(t);
    case Block(ss) =>
      forall i | 0 <= i < |ss| ensures FirstPass(ss[i]) == ss[i] && SecondPass(ss[i]) == ss[i] {
        NoElseUntouched(ss[i]);
      }
      assert FirstPass(s).stmts == ss;
      assert SecondPass(s).stmts == ss;
    case Other(tag, ss) =>
      forall i | 0 <= i < |ss| ensures FirstPass(ss[i]) == ss[i] && SecondPass(ss[i]) == ss[i] {
        NoElseUntouched(ss[i]);
      }
      assert FirstPass(s).body == ss;
      assert SecondPass(s).body == ss;
  }

  /** After the first pass, the if-like branch of every `if` with an `else` is on the `else` side or on both. */
  lemma {:induction false} FirstPassMovesIfLast(s: Stmt)
    ensures IfLikeLast(FirstPass(s))
  {
    match s
    case If(c, t, None, _) =>
      FirstPassMovesIfLast(t);
    case If(c, t, Some(e), _) =>
      FirstPassMovesIfLast(t);
      FirstPassMovesIfLast(e);
      FirstPassKeepsKind(t);
      FirstPassKeepsKind(e);
    case Block(ss) =>
      forall i | 0 <= i < |ss| ensures IfLikeLast(FirstPass(ss[i])) {
        FirstPassMovesIfLast(ss[i]);
      }
    case Other(tag, ss) =>
      forall i | 0 <= i < |ss| ensures IfLikeLast(FirstPass(ss[i])) {
        FirstPassMovesIfLast(ss[i]);
      }
  }

  /**
   * The second pass unwraps every if-like `else` it reaches and keeps the
   * first pass's arrangement of branches everywhere.
   */
  lemma {:induction false} SecondPassUnwraps(s: Stmt)
    ensures ReachedElseUnwrapped(SecondPass(s))
    ensures IfLikeLast(s) ==> IfLikeLast(SecondPass(s))
  {
    match s
    case If(c, t, None, a) =>
      SecondPassUnwraps(t);
    case If(c, t, Some(e), a) =>
      SecondPassUnwraps(t);
      SecondPassKeepsKind(t);
      if e.Block? && |e.stmts| == 1 && e.stmts[0].If? {
        var inner := e.stmts[0];
        SecondPassUnwraps(inner);
        SecondPassKeepsKind(inner);
        if IfLikeLast(s) {
          assert IfLikeLast(e);
          assert IfLikeLast(inner);
        }
      } else {
        SecondPassUnwraps(e);
        SecondPassKeepsKind(e);
      }
    case Block(ss) =>
      forall i | 0 <= i < |ss|
        ensures ReachedElseUnwrapped(SecondPass(ss[i]))
        ensures IfLikeLast(ss[i]) ==> IfLikeLast(SecondPass(ss[i]))
      {
        SecondPassUnwraps(ss[i]);
      }
    case Other(tag, ss) =>
      forall i | 0 <= i < |ss|
        ensures ReachedElseUnwrapped(SecondPass(ss[i]))
        ensures IfLikeLast(ss[i]) ==> IfLikeLast(SecondPass(ss[i]))
      {
        SecondPassUnwraps(ss[i]);
      }
  }

  /**
   * After `transform`, every if-like branch is on the `else` side, and
   * every such `else` the second pass reaches is written as a bare `if`.
   */
  lemma TransformShape(s: Stmt)
    ensures IfLikeLast(Transform(s)) && ReachedElseUnwrapped(Transform(s))
  {
    FirstPassMovesIfLast(s);
    SecondPassUnwraps(FirstPass(s));
  }

  /**
   * `if (c) { if (x) a(); } else { s(); if (y) b(); else { if (z) w(); } }`:
   * the first pass swaps the outer `if`, which unlinks the block now on
   * its then side, so the second pass never reaches the inner `if`.
   */
  const SwapExample: Stmt :=
    If(Cond(0),
       Block([If(Cond(1), Other(1, []), None, true)]),
       Some(Block([Other(2, []),
                   If(Cond(2), Other(3, []), Some(Block([If(Cond(3), Other(4, []), None, true)])), true)])),
       true)

  /**
   * As written, `transform` leaves an `else` holding a one-`if` block
   * inside the then-branch of a swapped `if`, in a unit parsed with every
   * link in place (`IntendedShape` shows the intended pass unwraps all).
   */
  lemma SwappedThenKeepsBlockElse()
    ensures Attached(SwapExample)
    ensures !ElseUnwrapped(Transform(SwapExample))
  {
    SwapExampleAttached();
    var first := FirstPass(SwapExample);
    SwapExampleFirstPass();
    SecondPassStep(first.cond, first.thenStmt, first.elseStmt.value, first.thenAttached);
    assert Transform(SwapExample).thenStmt == first.thenStmt;
  }

  /** Every `then` link in `SwapExample` is in place, as after parsing. */
  lemma SwapExampleAttached()
    ensures Attached(SwapExample)
  {
    var inner := If(Cond(3), Other(4, []), None, true);
    assert Attached(Block([inner]));
    assert Attached(Block([If(Cond(1), Other(1, []), None, true)]));
    assert Attached(Block([Other(2, []), If(Cond(2), Other(3, []), Some(Block([inner])), true)]));
  }

  /** The first pass swaps the outer `if` of `SwapExample` and leaves its old else-branch, now unlinked, as it was. */
  lemma SwapExampleFirstPass()
    ensures var first := FirstPass(SwapExample);
            first.If? && first.elseStmt.Some? && !first.thenAttached && !ElseUnwrapped(first.thenStmt)
  {
    var inner := If(Cond(3), Other(4, []), None, true);
    var mid := If(Cond(2), Other(3, []), Some(Block([inner])), true);
    var body := Block([Other(2, []), mid]);
    NoElseUntouched(Block([inner]));
    NoElseUntouched(Other(2, []));
    NoElseUntouched(Other(3, []));
    assert FirstPass(mid) == mid;
    assert FirstPass(body).stmts == body.stmts;
    assert FirstPass(SwapExample).thenStmt == body;
    assert !ElseUnwrapped(mid);
    assert body.stmts[1] == mid;
  }

  /**
   * The second pass as intended: it reaches every `if`, including those
   * inside a then-branch the first pass unlinked.
   */
  function SecondPassAll(s: Stmt): Stmt
    decreases s
  {
    match s
    case If(c, t, None, a) => If(c, SecondPassAll(t), None, a)
    case If(c, t, Some(e), a) => If(c, SecondPassAll(t), Some(SecondPassAll(SecondPassRule(e))), a)
    case Block(ss) => Block(seq(|ss|, i requires 0 <= i < |ss| => SecondPassAll(ss[i])))
    case Other(tag, ss) => Other(tag, seq(|ss|, i requires 0 <= i < |ss| => SecondPassAll(ss[i])))
  }

  /** `transform` as intended: the first pass, then the second pass over every `if`. */
  function TransformIntended(s: Stmt): Stmt {
    SecondPassAll(FirstPass(s))
  }

  /** Where every then-branch is linked, the second pass as written is the intended one. */
  lemma {:induction false} SecondPassAllAgrees(s: Stmt)
    requires Attached(s)
    ensures SecondPass(s) == SecondPassAll(s)
  {
    match s
    case If(c, t, None, a) =>
      SecondPassAllAgrees(t);
    case If(c, t, Some(e), a) =>
      SecondPassAllAgrees(t);
      if e.Block? && |e.stmts| == 1 && e.stmts[0].If? {
        SecondPassAllAgrees(e.stmts[0]);
      } else {
        SecondPassAllAgrees(e);
      }
    case Block(ss) =>
      forall i | 0 <= i < |ss| ensures SecondPass(ss[i]) == SecondPassAll(ss[i]) {
        SecondPassAllAgrees(ss[i]);
      }
      assert SecondPass(s).stmts == SecondPassAll(s).stmts;
    case Other(tag, ss) =>
      forall i | 0 <= i < |ss| ensures SecondPass(ss[i]) == SecondPassAll(ss[i]) {
        SecondPassAllAgrees(ss[i]);
      }
      assert SecondPass(s).body == SecondPassAll(s).body;
  }

  /** The intended second pass unwraps every if-like `else` and keeps the first pass's arrangement. */
  lemma {:induction false} SecondPassAllUnwraps(s: Stmt)
    ensures ElseUnwrapped(SecondPassAll(s))
    ensures IfLikeLast(s) ==> IfLikeLast(SecondPassAll(s))
  {
    match s
    case If(c, t, None, a) =>
      SecondPassAllUnwraps(t);
    case If(c, t, Some(e), a) =>
      SecondPassAllUnwraps(t);
      var e' := SecondPassRule(e);
      SecondPassAllUnwraps(e');
      SecondPassAllKeepsKind(t);
      SecondPassAllKeepsKind(e');
      if IfLikeLast(s) && e != e' {
        assert IfLikeLast(e);
        assert e.stmts[0] == e';
      }
    case Block(ss) =>
      forall i | 0 <= i < |ss|
        ensures ElseUnwrapped(SecondPassAll(ss[i]))
        ensures IfLikeLast(ss[i]) ==> IfLikeLast(SecondPassAll(ss[i]))
      {
        SecondPassAllUnwraps(ss[i]);
      }
    case Other(tag, ss) =>
      forall i | 0 <= i < |ss|
        ensures ElseUnwrapped(SecondPassAll(ss[i]))
        ensures IfLikeLast(ss[i]) ==> IfLikeLast(SecondPassAll(ss[i]))
      {
        SecondPassAllUnwraps(ss[i]);
      }
  }

  lemma SecondPassAllKeepsKind(s: Stmt)
    ensures SecondPassAll(s).If? == s.If? && SecondPassAll(s).Block? == s.Block?
    ensures IsIf(SecondPassAll(s)) == IsIf(s)
  {
    if s.Block? && |s.stmts| == 1 {
      assert SecondPassAll(s).stmts[0] == SecondPassAll(s.stmts[0]);
    }
  }

  /**
   * The intended `transform` leaves an `if ... else if ...` chain
   * everywhere: every if-like branch on the `else` side, written as a
   * bare `if`.
   */
  lemma IntendedShape(s: Stmt)
    ensures IfLikeLast(TransformIntended(s)) && ElseUnwrapped(TransformIntended(s))
  {
    FirstPassMovesIfLast(s);
    SecondPassAllUnwraps(FirstPass(s));
  }
}
