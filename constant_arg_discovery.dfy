/**
 * What one analysis of a method contributes to the transformer's
 * knowledge (`getArgs`, `analyzeMethod`, the call-site loop of
 * `addArgValues`), the entry points `queueEntryPoints` queues, and the
 * invariant of the discovery loop of `preTransform`: its termination
 * measure and the fixed point it reaches.
 */
module ConstantArgDiscovery {
  import opened Asm
  import opened IntValues
  import opened ConstantArgInputs
  import opened ConstantArgKnowledge
  import opened ConstantArgCode

  /** The slot index at which argument `j` starts: the sum of the sizes of the arguments before it. */
  function ArgIndex(vals: seq<Value>, j: nat): nat
    requires j <= |vals|
  {
    SumWidths(Widths(vals[..j]))
  }

  /** The values of one call, each recorded at the slot it starts at. */
  function ArgContributions(p: Partition, vals: seq<Value>): (r: seq<Contribution>)
    ensures |r| == |vals|
    ensures forall j :: 0 <= j < |vals| ==> r[j] == ArgValue(ArgRef(p, ArgIndex(vals, j)), vals[j].intSet)
  {
    if vals == [] then []
    else
      var pre := vals[..|vals| - 1];
      ArgIndexPrefix(vals, |pre|);
      ArgContributions(p, pre) + [ArgValue(ArgRef(p, ArgIndex(vals, |pre|)), vals[|pre|].intSet)]
  }

  /** The slot indices of the first `k` arguments do not depend on the arguments after them. */
  lemma ArgIndexPrefix(vals: seq<Value>, k: nat)
    requires k <= |vals|
    ensures forall j :: 0 <= j <= k ==> ArgIndex(vals[..k], j) == ArgIndex(vals, j)
  {
    forall j | 0 <= j <= k ensures ArgIndex(vals[..k], j) == ArgIndex(vals, j) {
      assert vals[..k][..j] == vals[..j];
    }
  }

  /** Argument `j` starts before slot `2 * j`, so a call with `n` arguments fills slots below `2 * n`. */
  lemma ArgIndexBounded(vals: seq<Value>, j: nat)
    requires j < |vals|
    ensures ArgIndex(vals, j) < 2 * |vals|
  {
  }

  /**
   * Slot indices grow with the argument position, by the size of each
   * argument: the loop's `index += value.size`.
   */
  lemma ArgIndexStep(vals: seq<Value>, j: nat)
    requires j < |vals|
    ensures ArgIndex(vals, j + 1) == ArgIndex(vals, j) + vals[j].size
  {
    assert Widths(vals[..j + 1])[..j] == Widths(vals[..j]);
  }

  /**
   * The contributions of the instruction `insn` reached with `frame`: one
   * per argument for a call whose callee is in the disjoint set, and the
   * fact that the callee is called without arguments when it has none.
   */
  function SiteContributions(env: Env, sets: DisjointSet, frame: StackFrame, insn: Insn): seq<Contribution> {
    if !insn.MethodInsn? then []
    else
      var ref := MemberRef(insn.owner, insn.name, insn.desc);
      if ref !in sets.find then []
      else
        var size := |env.argumentSizes(insn.desc)|;
        ArgContributions(sets.find[ref], TopValues(frame, size)) + (if size == 0 then [Argless(sets.find[ref])] else [])
  }

  /** The contributions of the first `n` instructions, in order; unreachable ones contribute nothing. */
  function CallContributions(env: Env, sets: DisjointSet, frames: seq<Option<StackFrame>>, nodes: seq<Node>, n: nat)
    : seq<Contribution>
    requires n <= |nodes|
  {
    if n == 0 then []
    else
      CallContributions(env, sets, frames, nodes, n - 1)
      + match FrameAt(frames, n - 1)
        case None => []
        case Some(frame) => SiteContributions(env, sets, frame, nodes[n - 1].insn)
  }

  /**
   * `getArgs(ref)`: one entry per argument slot of the method (long and
   * double take two), holding what is recorded for that slot of its
   * partition, and `Unknown` where nothing is.
   */
  function GetArgs(env: Env, sets: DisjointSet, argValues: map<Key, IntValueSet>, ref: MemberRef): (r: seq<IntValueSet>)
    requires ref in sets.find
    ensures |r| == SumWidths(env.argumentSizes(ref.desc))
    ensures forall i :: 0 <= i < |r| && ArgRef(sets.find[ref], i) in argValues ==> r[i] == argValues[ArgRef(sets.find[ref], i)]
    ensures forall i :: 0 <= i < |r| && ArgRef(sets.find[ref], i) !in argValues ==> r[i] == Unknown
  {
    var p := sets.find[ref];
    seq(SumWidths(env.argumentSizes(ref.desc)), i requires 0 <= i => if ArgRef(p, i) in argValues then argValues[ArgRef(p, i)] else Unknown)
  }

  /** Different arguments for a method means some slot of its partition was recorded differently. */
  lemma GetArgsDiffer(env: Env, sets: DisjointSet, a: map<Key, IntValueSet>, b: map<Key, IntValueSet>, ref: MemberRef)
    returns (i: nat)
    requires ref in sets.find
    requires GetArgs(env, sets, a, ref) != GetArgs(env, sets, b, ref)
    ensures Get(a, ArgRef(sets.find[ref], i)) != Get(b, ArgRef(sets.find[ref], i))
  {
    var ra := GetArgs(env, sets, a, ref);
    var rb := GetArgs(env, sets, b, ref);
    assert |ra| == |rb|;
    var j :| 0 <= j < |ra| && ra[j] != rb[j];
    i := j;
  }

  /**
   * The method `analyzeMethod` works on: the class `ref.owner` on the class
   * path, its only method named `ref.name` with descriptor `ref.desc`,
   * provided it has code.
   */
  function Lookup(cp: ClassPath, ref: MemberRef): (r: Option<MethodInfo>)
    ensures r.Some? <==> (&& ref.owner in cp.classes
                          && SingleOrNull(cp.classes[ref.owner].methods, ref.name, ref.desc).Some?
                          && SingleOrNull(cp.classes[ref.owner].methods, ref.name, ref.desc).value.hasCode)
    ensures r.Some? ==> r.value in cp.classes[ref.owner].methods && Named(r.value, ref.name, ref.desc)
  {
    if ref.owner !in cp.classes then None
    else
      match SingleOrNull(cp.classes[ref.owner].methods, ref.name, ref.desc)
      case None => None
      case Some(m) => if m.hasCode then Some(m) else None
  }

  /**
   * What `analyzeMethod(classPath, ref)` records when the method's
   * arguments are `args`: the call sites of the method after branch
   * simplification, under a fresh analysis of the simplified code.
   */
  function MethodContributions(env: Env, cp: ClassPath, ref: MemberRef, args: seq<IntValueSet>): seq<Contribution> {
    match Lookup(cp, ref)
    case None => []
    case Some(m) =>
      var header := HeaderOf(cp.classes[ref.owner].name, m);
      var code := SimplifiedCode(env, header, m.instructions, args).0;
      CallContributions(env, cp.inheritedMethodSets, env.analyze(header, code, args), code, |code|)
  }

  /** The contributions of `ref` under the recorded knowledge. */
  function Contributions(env: Env, cp: ClassPath, argValues: map<Key, IntValueSet>, ref: MemberRef): seq<Contribution>
    requires ref in cp.inheritedMethodSets.find
  {
    MethodContributions(env, cp, ref, GetArgs(env, cp.inheritedMethodSets, argValues, ref))
  }

  // The slots and partitions contributions can name.

  /** Every slot a call to a member of the disjoint set can fill. */
  ghost function Slots(env: Env, sets: DisjointSet): set<Key> {
    set q, i | q in sets.find && 0 <= i < 2 * |env.argumentSizes(q.desc)| :: ArgRef(sets.find[q], i)
  }

  /** The partitions of the members of the disjoint set. */
  ghost function Parts(sets: DisjointSet): set<Partition> {
    sets.find.Values
  }

  ghost predicate Within(env: Env, sets: DisjointSet, c: Contribution) {
    match c
    case ArgValue(k, _) => k in Slots(env, sets)
    case Argless(p) => p in Parts(sets)
  }

  lemma SiteWithin(env: Env, sets: DisjointSet, frame: StackFrame, insn: Insn)
    ensures forall c :: c in SiteContributions(env, sets, frame, insn) ==> Within(env, sets, c)
  {
    if insn.MethodInsn? {
      var ref := MemberRef(insn.owner, insn.name, insn.desc);
      if ref in sets.find {
        var size := |env.argumentSizes(insn.desc)|;
        var vals := TopValues(frame, size);
        var args := ArgContributions(sets.find[ref], vals);
        forall j | 0 <= j < |args| ensures Within(env, sets, args[j]) {
          ArgIndexBounded(vals, j);
          assert args[j].key == ArgRef(sets.find[ref], ArgIndex(vals, j));
        }
      }
    }
  }

  lemma {:induction false} CallsWithin(env: Env, sets: DisjointSet, frames: seq<Option<StackFrame>>, nodes: seq<Node>, n: nat)
    requires n <= |nodes|
    ensures forall c :: c in CallContributions(env, sets, frames, nodes, n) ==> Within(env, sets, c)
  {
    if n > 0 {
      CallsWithin(env, sets, frames, nodes, n - 1);
      if FrameAt(frames, n - 1).Some? {
        SiteWithin(env, sets, FrameAt(frames, n - 1).value, nodes[n - 1].insn);
      }
    }
  }

  /** Every contribution of a method names a slot of `Slots` or a partition of `Parts`. */
  lemma ContributionsWithin(env: Env, cp: ClassPath, ref: MemberRef, args: seq<IntValueSet>)
    ensures forall c :: c in MethodContributions(env, cp, ref, args) ==> Within(env, cp.inheritedMethodSets, c)
  {
    match Lookup(cp, ref)
    case None =>
    case Some(m) =>
      var header := HeaderOf(cp.classes[ref.owner].name, m);
      var code := SimplifiedCode(env, header, m.instructions, args).0;
      CallsWithin(env, cp.inheritedMethodSets, env.analyze(header, code, args), code, |code|);
  }

  /** A partition a contribution names is one of the disjoint set's, so its members are in the set. */
  lemma WithinMembers(env: Env, sets: DisjointSet, c: Contribution)
    requires ValidSets(sets) && Within(env, sets, c)
    ensures Callee(c) in sets.partitions
    ensures forall r :: r in Callee(c).members ==> r in sets.find
  {
    if c.ArgValue? {
      var q, i :| q in sets.find && 0 <= i < 2 * |env.argumentSizes(q.desc)| && c.key == ArgRef(sets.find[q], i);
    }
  }

  // The entry points.

  /** `queueEntryPoints`: the members of every non-renamable partition, queued in order. */
  function QueueAll(env: Env, pending: seq<MemberRef>, parts: seq<Partition>): seq<MemberRef> {
    if parts == [] then pending
    else
      var front := QueueAll(env, pending, parts[..|parts| - 1]);
      var p := parts[|parts| - 1];
      if !env.isMethodRenamable(p) then AddAll(front, p.members) else front
  }

  /** Exactly the members of the non-renamable partitions are queued, each once. */
  lemma {:induction false} QueueAllMembers(env: Env, pending: seq<MemberRef>, parts: seq<Partition>)
    ensures NoDup(pending) ==> NoDup(QueueAll(env, pending, parts))
    ensures forall r :: r in QueueAll(env, pending, parts) <==>
              r in pending || exists p :: p in parts && !env.isMethodRenamable(p) && r in p.members
  {
    if parts != [] {
      var pre := parts[..|parts| - 1];
      var p := parts[|parts| - 1];
      QueueAllMembers(env, pending, pre);
      assert forall q :: q in parts <==> q in pre || q == p;
    }
  }

  // The discovery loop.

  /**
   * A method is stable when analysing it again would record nothing new:
   * each of its contributions is already reflected in the knowledge.
   */
  ghost predicate Stable(env: Env, cp: ClassPath, s: Knowledge, r: MemberRef) {
    r in cp.inheritedMethodSets.find
    && forall c :: c in Contributions(env, cp, s.argValues, r) ==> Absorbed(s, c)
  }

  /** The members of the non-renamable partitions are analysed or queued. */
  ghost predicate EntriesCovered(env: Env, sets: DisjointSet, s: Knowledge, seen: set<MemberRef>) {
    forall p, r :: p in sets.partitions && !env.isMethodRenamable(p) && r in p.members ==> r in seen || r in s.pending
  }

  /** The invariant of the loop of `preTransform`; `seen` holds the methods analysed so far. */
  ghost predicate Discovering(env: Env, cp: ClassPath, s: Knowledge, seen: set<MemberRef>) {
    var sets := cp.inheritedMethodSets;
    && NoDup(s.pending)
    && (forall r :: r in s.pending ==> r in sets.find)
    && (forall r :: r in seen ==> r in sets.find)
    && SlotsWithin(s.argValues, Slots(env, sets))
    && s.argless <= Parts(sets)
    && Tracked(s, seen)
    && EntriesCovered(env, sets, s, seen)
    && (forall r :: r in seen ==> r in s.pending || Stable(env, cp, s, r))
  }

  /** What is left to learn about the slots: the first part of the loop's termination measure. */
  ghost function RemainingFacts(env: Env, cp: ClassPath, s: Knowledge): set<Fact> {
    FactUniverse(Slots(env, cp.inheritedMethodSets)) - Facts(s.argValues)
  }

  /** The partitions not yet known to be called without arguments. */
  ghost function RemainingArgless(cp: ClassPath, s: Knowledge): set<Partition> {
    Parts(cp.inheritedMethodSets) - s.argless
  }

  /** The knowledge once `pendingMethods.removeFirstOrNull()` has taken the first method off the queue. */
  function Dequeued(s: Knowledge): Knowledge
    requires s.pending != []
  {
    Knowledge(s.pending[1..], s.argless, s.argValues)
  }

  /** The knowledge after one iteration of the loop: the first queued method analysed. */
  function Iterate(env: Env, cp: ClassPath, s: Knowledge): Knowledge
    requires s.pending != [] && s.pending[0] in cp.inheritedMethodSets.find
  {
    Fold(Dequeued(s), Contributions(env, cp, s.argValues, s.pending[0]))
  }

  /** The knowledge `preTransform` starts the loop with. */
  function Start(env: Env, cp: ClassPath): Knowledge {
    Knowledge(QueueAll(env, [], cp.inheritedMethodSets.partitions), {}, map[])
  }

  lemma DiscoveryStart(env: Env, cp: ClassPath, s: Knowledge, seen: set<MemberRef>)
    requires ValidSets(cp.inheritedMethodSets)
    requires s == Start(env, cp) && seen == {}
    ensures Discovering(env, cp, s, seen)
  {
    var sets := cp.inheritedMethodSets;
    QueueAllMembers(env, [], sets.partitions);
    assert NoDup(s.pending);
    forall r | r in s.pending ensures r in sets.find {
      var p :| p in sets.partitions && !env.isMethodRenamable(p) && r in p.members;
    }
    assert EntriesCovered(env, sets, s, seen);
    assert SlotsWithin(s.argValues, Slots(env, sets));
    assert Tracked(s, seen);
  }

  /**
   * The loop's measure decreases lexicographically from `s` to `t`: what is
   * left to learn shrinks, or no fact is new and fewer argless callees are
   * left, or the queue shrinks.
   */
  ghost predicate Progressed(env: Env, cp: ClassPath, s: Knowledge, t: Knowledge) {
    || RemainingFacts(env, cp, t) < RemainingFacts(env, cp, s)
    || (RemainingFacts(env, cp, t) == RemainingFacts(env, cp, s)
        && RemainingArgless(cp, t) < RemainingArgless(cp, s))
    || (RemainingFacts(env, cp, t) == RemainingFacts(env, cp, s)
        && RemainingArgless(cp, t) == RemainingArgless(cp, s)
        && |t.pending| < |s.pending|)
  }

  /** One iteration keeps the invariant and decreases the measure lexicographically. */
  lemma DiscoveryStep(env: Env, cp: ClassPath, s: Knowledge, seen: set<MemberRef>)
    requires ValidSets(cp.inheritedMethodSets)
    requires Discovering(env, cp, s, seen) && s.pending != []
    ensures Discovering(env, cp, Iterate(env, cp, s), seen + {s.pending[0]})
    ensures Progressed(env, cp, s, Iterate(env, cp, s))
  {
    var sets := cp.inheritedMethodSets;
    var m := s.pending[0];
    var s0 := Dequeued(s);
    var cs := Contributions(env, cp, s.argValues, m);
    var t := Iterate(env, cp, s);
    assert forall r :: r in s.pending ==> r == m || r in s0.pending;
    ContributionsWithin(env, cp, m, GetArgs(env, sets, s.argValues, m));
    StepInvariant(env, cp, s, seen, m, s0, cs, t);
    StepStable(env, cp, s, seen, m, s0, cs, t);
    StepMeasure(env, cp, s, s0, cs, t);
  }

  /** The parts of the invariant that do not involve stability. */
  lemma StepInvariant(env: Env, cp: ClassPath, s: Knowledge, seen: set<MemberRef>, m: MemberRef,
                      s0: Knowledge, cs: seq<Contribution>, t: Knowledge)
    requires ValidSets(cp.inheritedMethodSets)
    requires Discovering(env, cp, s, seen) && s.pending != [] && m == s.pending[0]
    requires s0 == Dequeued(s) && t == Fold(s0, cs)
    requires forall r :: r in s.pending ==> r == m || r in s0.pending
    requires forall c :: c in cs ==> Within(env, cp.inheritedMethodSets, c)
    ensures var sets := cp.inheritedMethodSets;
            && NoDup(t.pending)
            && (forall r :: r in t.pending ==> r in sets.find)
            && (forall r :: r in seen + {m} ==> r in sets.find)
            && SlotsWithin(t.argValues, Slots(env, sets))
            && t.argless <= Parts(sets)
            && Tracked(t, seen + {m})
            && EntriesCovered(env, sets, t, seen + {m})
  {
    var sets := cp.inheritedMethodSets;
    assert NoDup(s0.pending) by {
      forall i, j | 0 <= i < j < |s0.pending| ensures s0.pending[i] != s0.pending[j] {
        assert s0.pending[i] == s.pending[i + 1] && s0.pending[j] == s.pending[j + 1];
      }
    }
    FoldNoDup(s0, cs);
    FoldQueuedFrom(s0, cs);
    forall r | r in t.pending ensures r in sets.find {
      if r !in s0.pending {
        var c :| c in cs && r in Callee(c).members;
        WithinMembers(env, sets, c);
      }
    }
    FoldSlotsWithin(s0, cs, Slots(env, sets));
    FoldArglessWithin(s0, cs, Parts(sets));
    FoldTracked(s0, cs, seen + {m});
    FoldGrows(s0, cs);
  }

  /** After the iteration every analysed method is queued again or stable. */
  lemma StepStable(env: Env, cp: ClassPath, s: Knowledge, seen: set<MemberRef>, m: MemberRef,
                   s0: Knowledge, cs: seq<Contribution>, t: Knowledge)
    requires ValidSets(cp.inheritedMethodSets)
    requires Discovering(env, cp, s, seen) && s.pending != [] && m == s.pending[0]
    requires s0 == Dequeued(s) && cs == Contributions(env, cp, s.argValues, m) && t == Fold(s0, cs)
    requires forall r :: r in s.pending ==> r == m || r in s0.pending
    ensures forall r :: r in seen + {m} ==> r in t.pending || Stable(env, cp, t, r)
  {
    FoldGrows(s0, cs);
    forall r | r in seen + {m} ensures r in t.pending || Stable(env, cp, t, r) {
      if r != m && r !in s0.pending {
        StableIgnoresPending(env, cp, s, s0, r);
      }
      StepStableOne(env, cp, m, s0, cs, t, r);
    }
  }

  lemma StableIgnoresPending(env: Env, cp: ClassPath, s: Knowledge, s0: Knowledge, r: MemberRef)
    requires s.argValues == s0.argValues && s.argless == s0.argless
    requires Stable(env, cp, s, r)
    ensures Stable(env, cp, s0, r)
  {
    forall c | c in Contributions(env, cp, s0.argValues, r) ensures Absorbed(s0, c) {
      assert Absorbed(s, c);
    }
  }

  lemma StepStableOne(env: Env, cp: ClassPath, m: MemberRef, s0: Knowledge, cs: seq<Contribution>, t: Knowledge,
                      r: MemberRef)
    requires ValidSets(cp.inheritedMethodSets)
    requires r in cp.inheritedMethodSets.find && m in cp.inheritedMethodSets.find
    requires cs == Contributions(env, cp, s0.argValues, m) && t == Fold(s0, cs)
    requires Grows(s0, t)
    requires r == m || r in s0.pending || Stable(env, cp, s0, r)
    ensures r in t.pending || Stable(env, cp, t, r)
  {
    var sets := cp.inheritedMethodSets;
    var argsT := GetArgs(env, sets, t.argValues, r);
    var argsS := GetArgs(env, sets, s0.argValues, r);
    if argsT != argsS {
      RequeuedOnChange(env, sets, s0, cs, r, argsT, argsS);
    } else if r == m {
      FoldAbsorbs(s0, cs);
    } else if r !in s0.pending {
      var ds := MethodContributions(env, cp, r, argsS);
      AllAbsorbedGrow(s0, t, ds);
    }
  }

  /** When a slot of a method's partition changes during the fold, the method is queued again. */
  lemma RequeuedOnChange(env: Env, sets: DisjointSet, s0: Knowledge, cs: seq<Contribution>, r: MemberRef,
                         argsT: seq<IntValueSet>, argsS: seq<IntValueSet>)
    requires ValidSets(sets) && r in sets.find
    requires argsT == GetArgs(env, sets, Fold(s0, cs).argValues, r)
    requires argsS == GetArgs(env, sets, s0.argValues, r)
    requires argsT != argsS
    ensures r in Fold(s0, cs).pending
  {
    var i := GetArgsDiffer(env, sets, Fold(s0, cs).argValues, s0.argValues, r);
    ChangedSlotsQueued(s0, cs, ArgRef(sets.find[r], i));
    assert r in sets.find[r].members;
  }

  /** The measure: what is left to learn shrinks, or no fact is new and fewer argless callees are left, or the queue shrinks. */
  lemma StepMeasure(env: Env, cp: ClassPath, s: Knowledge, s0: Knowledge, cs: seq<Contribution>, t: Knowledge)
    requires s.pending != [] && s0 == Dequeued(s) && t == Fold(s0, cs)
    requires SlotsWithin(s.argValues, Slots(env, cp.inheritedMethodSets))
    requires SlotsWithin(t.argValues, Slots(env, cp.inheritedMethodSets))
    requires t.argless <= Parts(cp.inheritedMethodSets)
    ensures Progressed(env, cp, s, t)
  {
    var slots := Slots(env, cp.inheritedMethodSets);
    var universe := FactUniverse(slots);
    FoldFacts(s0, cs);
    FoldGrows(s0, cs);
    FactsBounded(s.argValues, slots);
    FactsBounded(t.argValues, slots);
    if Facts(t.argValues) != Facts(s.argValues) {
      RemainingShrinks(universe, Facts(s.argValues), Facts(t.argValues));
    } else if t.argless != s.argless {
      RemainingShrinks(Parts(cp.inheritedMethodSets), s.argless, t.argless);
    } else {
      QuietFold(s0, cs);
    }
  }

  /**
   * What the discovery loop establishes once the queue is empty: every
   * entry point has been analysed, the analysed methods are closed under
   * the calls they make, and every one of them is stable, so each
   * recorded slot covers every value any analysed call site passes.
   */
  ghost predicate Discovered(env: Env, cp: ClassPath, s: Knowledge, seen: set<MemberRef>) {
    var sets := cp.inheritedMethodSets;
    && (forall p, r :: p in sets.partitions && !env.isMethodRenamable(p) && r in p.members ==> r in seen)
    && (forall r :: r in seen ==> Stable(env, cp, s, r))
    && (forall r, c, q :: r in seen && c in Contributions(env, cp, s.argValues, r) && q in Callee(c).members
                         ==> q in seen)
  }

  lemma DiscoveryDone(env: Env, cp: ClassPath, s: Knowledge, seen: set<MemberRef>)
    requires Discovering(env, cp, s, seen) && s.pending == []
    ensures Discovered(env, cp, s, seen)
  {
    forall r, c, q | r in seen && c in Contributions(env, cp, s.argValues, r) && q in Callee(c).members
      ensures q in seen
    {
      assert Stable(env, cp, s, r);
      AbsorbedTracked(s, c, seen, q);
    }
  }

  /** A callee whose contribution is already recorded has had its members analysed or queued. */
  lemma AbsorbedTracked(s: Knowledge, c: Contribution, seen: set<MemberRef>, q: MemberRef)
    requires Tracked(s, seen) && Absorbed(s, c) && q in Callee(c).members
    ensures q in seen || q in s.pending
  {
    if c.ArgValue? {
      assert c.key in s.argValues;
    }
  }

  /** At the fixed point, analysing any analysed method again changes nothing at all. */
  lemma Reanalysis(env: Env, cp: ClassPath, s: Knowledge, seen: set<MemberRef>, r: MemberRef)
    requires Discovered(env, cp, s, seen) && r in seen
    ensures r in cp.inheritedMethodSets.find
    ensures Fold(s, Contributions(env, cp, s.argValues, r)) == s
  {
    assert Stable(env, cp, s, r);
    AbsorbedFoldIsIdentity(s, Contributions(env, cp, s.argValues, r));
  }
}
