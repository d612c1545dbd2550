/**
 * The knowledge the constant-argument transformer accumulates while it
 * discovers the call graph (`pendingMethods`, `arglessMethods` and
 * `argValues`), the join rule of `addArgValues`, and the effect of a
 * sequence of call-site contributions on that knowledge.
 */
module ConstantArgKnowledge {
  import opened Asm
  import opened IntValues
  import opened ConstantArgInputs

  /** An argument slot of a partition: `ArgRef(partition, index)`. */
  type Key = ArgRef<Partition>

  /** The transformer's discovery state. `pending` is a `LinkedHashSet` in insertion order. */
  datatype Knowledge = Knowledge(pending: seq<MemberRef>, argless: set<Partition>, argValues: map<Key, IntValueSet>)

  /**
   * What one call site adds: a value for an argument slot of the callee
   * partition, or the fact that the callee is called without arguments.
   */
  datatype Contribution = ArgValue(key: Key, value: IntValueSet) | Argless(callee: Partition)

  /** `argValues[k]`, None when nothing is recorded. */
  function Get(m: map<Key, IntValueSet>, k: Key): (r: Option<IntValueSet>)
    ensures r.Some? <==> k in m
    ensures r.Some? ==> r.value == m[k]
  {
    if k in m then Some(m[k]) else None
  }

  /**
   * The value `addArgValues(ref, value)` stores: a singleton is joined into
   * what was recorded, anything else makes the slot `Unknown`.
   */
  function Join(prev: Option<IntValueSet>, value: IntValueSet): (r: IntValueSet)
    ensures Singleton(value).None? ==> r == Unknown
    ensures Singleton(value).Some? && prev.None? ==> r == value
    ensures Singleton(value).Some? && prev.Some? ==> r == Union(prev.value, value)
  {
    if Singleton(value).Some? then
      if prev.Some? then Union(prev.value, value) else value
    else Unknown
  }

  /** The order in which recorded knowledge only ever grows; nothing recorded is least. */
  predicate EntryLe(a: Option<IntValueSet>, b: Option<IntValueSet>) {
    a.None? || (b.Some? && Le(a.value, b.value))
  }

  /** The stored value is never below what was recorded before. */
  lemma JoinGrows(prev: Option<IntValueSet>, value: IntValueSet)
    ensures EntryLe(prev, Some(Join(prev, value)))
  {
  }

  /** Joining the same value a second time changes nothing. */
  lemma JoinAbsorbs(prev: Option<IntValueSet>, value: IntValueSet)
    ensures Join(Some(Join(prev, value)), value) == Join(prev, value)
  {
    if Singleton(value).Some? && prev.Some? && prev.value.Constant? {
      assert prev.value.values + value.values + value.values == prev.value.values + value.values;
    }
  }

  /** A value absorbed by a slot stays absorbed when the slot grows. */
  lemma AbsorbedStays(a: IntValueSet, b: IntValueSet, value: IntValueSet)
    requires Le(a, b) && Join(Some(a), value) == a
    ensures Join(Some(b), value) == b
  {
    if Singleton(value).Some? && b.Constant? {
      assert a.values + value.values == a.values;
      assert b.values + value.values == b.values;
    }
  }

  /** No member is queued twice. */
  predicate NoDup(s: seq<MemberRef>) {
    forall i, j :: 0 <= i < j < |s| ==> s[i] != s[j]
  }

  /** `pending.addAll(members)` on a `LinkedHashSet`: absent members go to the end, in order. */
  function AddAll(pending: seq<MemberRef>, members: seq<MemberRef>): (r: seq<MemberRef>)
    ensures NoDup(pending) ==> NoDup(r)
    ensures forall x :: x in r <==> x in pending || x in members
    ensures |pending| <= |r| && r[..|pending|] == pending
    ensures (forall x :: x in members ==> x in pending) ==> r == pending
  {
    if members == [] then pending
    else
      var front := AddAll(pending, members[..|members| - 1]);
      var x := members[|members| - 1];
      assert forall y :: y in members <==> y in members[..|members| - 1] || y == x;
      if x in front then front else front + [x]
  }

  /** One call-site contribution applied to the knowledge, as `addArgValues(owner, method, args)` does. */
  function Step(s: Knowledge, c: Contribution): Knowledge {
    match c
    case ArgValue(k, v) =>
      var joined := Join(Get(s.argValues, k), v);
      var pending := if Get(s.argValues, k) != Some(joined) then AddAll(s.pending, k.target.members) else s.pending;
      Knowledge(pending, s.argless, s.argValues[k := joined])
    case Argless(p) =>
      if p in s.argless then s
      else Knowledge(AddAll(s.pending, p.members), s.argless + {p}, s.argValues)
  }

  /** The contributions applied in order. */
  function Fold(s: Knowledge, cs: seq<Contribution>): Knowledge {
    if cs == [] then s else Step(Fold(s, cs[..|cs| - 1]), cs[|cs| - 1])
  }

  lemma {:induction false} FoldAppend(s: Knowledge, cs: seq<Contribution>, ds: seq<Contribution>)
    ensures Fold(s, cs + ds) == Fold(Fold(s, cs), ds)
    decreases |ds|
  {
    if ds == [] {
      assert cs + ds == cs;
    } else {
      assert (cs + ds)[..|cs + ds| - 1] == cs + ds[..|ds| - 1];
      FoldAppend(s, cs, ds[..|ds| - 1]);
    }
  }

  /** `t` holds at least the knowledge of `s`. */
  ghost predicate Grows(s: Knowledge, t: Knowledge) {
    && (forall k :: k in s.argValues ==> k in t.argValues && Le(s.argValues[k], t.argValues[k]))
    && s.argless <= t.argless
    && (forall r :: r in s.pending ==> r in t.pending)
  }

  lemma GrowsTransitive(s: Knowledge, t: Knowledge, u: Knowledge)
    requires Grows(s, t) && Grows(t, u)
    ensures Grows(s, u)
  {
    forall k | k in s.argValues ensures k in u.argValues && Le(s.argValues[k], u.argValues[k]) {
      LeTransitive(s.argValues[k], t.argValues[k], u.argValues[k]);
    }
  }

  lemma StepGrows(s: Knowledge, c: Contribution)
    ensures Grows(s, Step(s, c))
  {
    if c.ArgValue? {
      JoinGrows(Get(s.argValues, c.key), c.value);
    }
  }

  /** Knowledge only grows: no slot loses values, no argless callee or queued method is forgotten. */
  lemma {:induction false} FoldGrows(s: Knowledge, cs: seq<Contribution>)
    ensures Grows(s, Fold(s, cs))
  {
    if cs != [] {
      FoldGrows(s, cs[..|cs| - 1]);
      StepGrows(Fold(s, cs[..|cs| - 1]), cs[|cs| - 1]);
      GrowsTransitive(s, Fold(s, cs[..|cs| - 1]), Fold(s, cs));
    }
  }

  /** Queuing keeps the worklist free of duplicates. */
  lemma {:induction false} FoldNoDup(s: Knowledge, cs: seq<Contribution>)
    requires NoDup(s.pending)
    ensures NoDup(Fold(s, cs).pending)
  {
    if cs != [] {
      FoldNoDup(s, cs[..|cs| - 1]);
    }
  }

  /** Whether a contribution is already reflected in the knowledge. */
  ghost predicate Absorbed(s: Knowledge, c: Contribution) {
    match c
    case ArgValue(k, v) => k in s.argValues && Join(Some(s.argValues[k]), v) == s.argValues[k]
    case Argless(p) => p in s.argless
  }

  lemma AbsorbedGrows(s: Knowledge, t: Knowledge, c: Contribution)
    requires Grows(s, t) && Absorbed(s, c)
    ensures Absorbed(t, c)
  {
    if c.ArgValue? {
      AbsorbedStays(s.argValues[c.key], t.argValues[c.key], c.value);
    }
  }

  lemma AllAbsorbedGrow(s: Knowledge, t: Knowledge, cs: seq<Contribution>)
    requires Grows(s, t) && forall c :: c in cs ==> Absorbed(s, c)
    ensures forall c :: c in cs ==> Absorbed(t, c)
  {
    forall c | c in cs ensures Absorbed(t, c) {
      AbsorbedGrows(s, t, c);
    }
  }

  /** After the fold every contribution is reflected in the knowledge. */
  lemma {:induction false} FoldAbsorbs(s: Knowledge, cs: seq<Contribution>)
    ensures forall c :: c in cs ==> Absorbed(Fold(s, cs), c)
  {
    if cs != [] {
      var pre := cs[..|cs| - 1];
      var u := Fold(s, pre);
      var c := cs[|cs| - 1];
      FoldAbsorbs(s, pre);
      StepGrows(u, c);
      if c.ArgValue? {
        JoinAbsorbs(Get(u.argValues, c.key), c.value);
      }
      forall d | d in cs ensures Absorbed(Fold(s, cs), d) {
        if d != c {
          assert d in pre;
          AbsorbedGrows(u, Fold(s, cs), d);
        }
      }
    }
  }

  /** Contributions that are all reflected already change nothing, not even the worklist. */
  lemma {:induction false} AbsorbedFoldIsIdentity(s: Knowledge, cs: seq<Contribution>)
    requires forall c :: c in cs ==> Absorbed(s, c)
    ensures Fold(s, cs) == s
  {
    if cs != [] {
      var pre := cs[..|cs| - 1];
      assert forall c :: c in pre ==> c in cs;
      AbsorbedFoldIsIdentity(s, pre);
      var c := cs[|cs| - 1];
      assert Absorbed(s, c);
      if c.ArgValue? {
        MapUpdateSame(s.argValues, c.key);
      }
    }
  }

  lemma MapUpdateSame(m: map<Key, IntValueSet>, k: Key)
    requires k in m
    ensures m[k := m[k]] == m
  {
  }

  /** Every slot whose recorded value changed has had its partition's members queued. */
  lemma {:induction false} ChangedSlotsQueued(s: Knowledge, cs: seq<Contribution>, k: Key)
    requires Get(Fold(s, cs).argValues, k) != Get(s.argValues, k)
    ensures forall r :: r in k.target.members ==> r in Fold(s, cs).pending
  {
    var t := Fold(s, cs);
    assert cs != [];
    var u := Fold(s, cs[..|cs| - 1]);
    var c := cs[|cs| - 1];
    StepGrows(u, c);
    if Get(u.argValues, k) != Get(s.argValues, k) {
      ChangedSlotsQueued(s, cs[..|cs| - 1], k);
    }
  }

  /** Every callee newly recorded as argless has had its members queued. */
  lemma {:induction false} NewArglessQueued(s: Knowledge, cs: seq<Contribution>, p: Partition)
    requires p in Fold(s, cs).argless && p !in s.argless
    ensures forall r :: r in p.members ==> r in Fold(s, cs).pending
  {
    assert cs != [];
    var u := Fold(s, cs[..|cs| - 1]);
    StepGrows(u, cs[|cs| - 1]);
    if p in u.argless {
      NewArglessQueued(s, cs[..|cs| - 1], p);
    }
  }

  /** The partition a contribution is about. */
  function Callee(c: Contribution): Partition {
    match c
    case ArgValue(k, _) => k.target
    case Argless(p) => p
  }

  /** Everything the fold queues was queued before or belongs to a partition the contributions name. */
  lemma {:induction false} FoldQueuedFrom(s: Knowledge, cs: seq<Contribution>)
    ensures forall r :: r in Fold(s, cs).pending ==> r in s.pending || exists c :: c in cs && r in Callee(c).members
  {
    if cs != [] {
      var pre := cs[..|cs| - 1];
      var c := cs[|cs| - 1];
      FoldQueuedFrom(s, pre);
      forall r | r in Fold(s, cs).pending ensures r in s.pending || exists d :: d in cs && r in Callee(d).members {
        if r !in Fold(s, pre).pending {
          assert r in Callee(c).members;
        } else if r !in s.pending {
          var d :| d in pre && r in Callee(d).members;
          assert d in cs;
        }
      }
    }
  }

  /**
   * The members of every partition with a recorded slot, and of every
   * argless callee, have been analysed (`seen`) or are still queued.
   */
  ghost predicate Tracked(s: Knowledge, seen: set<MemberRef>) {
    && (forall k, r :: k in s.argValues && r in k.target.members ==> r in seen || r in s.pending)
    && (forall p, r :: p in s.argless && r in p.members ==> r in seen || r in s.pending)
  }

  lemma StepTracked(s: Knowledge, c: Contribution, seen: set<MemberRef>)
    requires Tracked(s, seen)
    ensures Tracked(Step(s, c), seen)
  {
    StepGrows(s, c);
  }

  /** Recording contributions keeps every recorded partition tracked. */
  lemma {:induction false} FoldTracked(s: Knowledge, cs: seq<Contribution>, seen: set<MemberRef>)
    requires Tracked(s, seen)
    ensures Tracked(Fold(s, cs), seen)
  {
    if cs != [] {
      FoldTracked(s, cs[..|cs| - 1], seen);
      StepTracked(Fold(s, cs[..|cs| - 1]), cs[|cs| - 1], seen);
    }
  }

  // Termination of the discovery loop: each fact names a slot and what is
  // known about it; the facts of the recorded knowledge only grow, within
  // the finite universe of a finite set of slots, and grow strictly
  // whenever a slot changes.

  datatype Fact = Present(key: Key) | Has(key: Key, x: int) | Top(key: Key)

  ghost function EveryValue(k: Key): set<Fact> {
    set x: int | -0x8000_0000 <= x < 0x8000_0000 :: Has(k, x)
  }

  ghost function EntryFacts(k: Key, v: IntValueSet): set<Fact> {
    {Present(k)} + (if v.Unknown? then {Top(k)} + EveryValue(k) else set x | x in v.values :: Has(k, x))
  }

  ghost function Facts(m: map<Key, IntValueSet>): set<Fact> {
    set k, f | k in m && f in EntryFacts(k, m[k]) :: f
  }

  ghost function FactUniverse(slots: set<Key>): set<Fact> {
    set k, f | k in slots && f in EntryFacts(k, Unknown) :: f
  }

  lemma EntryFactsKey(k: Key, v: IntValueSet, f: Fact)
    requires f in EntryFacts(k, v)
    ensures f.key == k
  {
  }

  lemma EntryFactsGrow(k: Key, a: IntValueSet, b: IntValueSet)
    requires Le(a, b)
    ensures EntryFacts(k, a) <= EntryFacts(k, b)
    ensures a != b ==> EntryFacts(k, a) != EntryFacts(k, b)
  {
    if a != b {
      if b.Unknown? {
        assert Top(k) in EntryFacts(k, b);
        assert Top(k) !in EntryFacts(k, a);
      } else {
        assert !(b.values <= a.values);
        var x :| x in b.values && x !in a.values;
        assert Has(k, x) in EntryFacts(k, b);
        assert Has(k, x) !in EntryFacts(k, a);
      }
    }
  }

  lemma FactsOf(m: map<Key, IntValueSet>, f: Fact)
    ensures f in Facts(m) <==> f.key in m && f in EntryFacts(f.key, m[f.key])
  {
    if f in Facts(m) {
      var k :| k in m && f in EntryFacts(k, m[k]);
      EntryFactsKey(k, m[k], f);
    }
  }

  /** Growing one slot grows the facts, strictly when the slot changes. */
  lemma FactsUpdate(m: map<Key, IntValueSet>, k: Key, b: IntValueSet)
    requires k in m ==> Le(m[k], b)
    ensures Facts(m) <= Facts(m[k := b])
    ensures Get(m, k) != Some(b) ==> Facts(m) != Facts(m[k := b])
  {
    var m' := m[k := b];
    forall f | f in Facts(m) ensures f in Facts(m') {
      FactsOf(m, f);
      FactsOf(m', f);
      if f.key == k {
        EntryFactsGrow(k, m[k], b);
      }
    }
    if Get(m, k) != Some(b) {
      if k in m {
        EntryFactsGrow(k, m[k], b);
        var f :| f in EntryFacts(k, b) && f !in EntryFacts(k, m[k]);
        EntryFactsKey(k, b, f);
        FactsOf(m, f);
        FactsOf(m', f);
      } else {
        FactsOf(m, Present(k));
        FactsOf(m', Present(k));
      }
    }
  }

  /** Every recorded slot is one of `slots`. */
  ghost predicate SlotsWithin(m: map<Key, IntValueSet>, slots: set<Key>) {
    forall k :: k in m ==> k in slots
  }

  lemma FactsBounded(m: map<Key, IntValueSet>, slots: set<Key>)
    requires SlotsWithin(m, slots)
    ensures Facts(m) <= FactUniverse(slots)
  {
    forall f | f in Facts(m) ensures f in FactUniverse(slots) {
      FactsOf(m, f);
      var k := f.key;
      assert f in EntryFacts(k, Unknown);
    }
  }

  /** The facts grow along the fold, and the fold stays within the slot universe. */
  lemma {:induction false} FoldFacts(s: Knowledge, cs: seq<Contribution>)
    ensures Facts(s.argValues) <= Facts(Fold(s, cs).argValues)
  {
    if cs != [] {
      var u := Fold(s, cs[..|cs| - 1]);
      var c := cs[|cs| - 1];
      FoldFacts(s, cs[..|cs| - 1]);
      if c.ArgValue? {
        JoinGrows(Get(u.argValues, c.key), c.value);
        FactsUpdate(u.argValues, c.key, Join(Get(u.argValues, c.key), c.value));
      }
    }
  }

  /** A fold that adds no fact and no argless callee leaves the worklist as it was. */
  lemma {:induction false} QuietFold(s: Knowledge, cs: seq<Contribution>)
    requires Facts(Fold(s, cs).argValues) == Facts(s.argValues)
    requires Fold(s, cs).argless == s.argless
    ensures Fold(s, cs).pending == s.pending
  {
    if cs != [] {
      var pre := cs[..|cs| - 1];
      var u := Fold(s, pre);
      var c := cs[|cs| - 1];
      FoldFacts(s, pre);
      FoldGrows(s, pre);
      StepGrows(u, c);
      if c.ArgValue? {
        var joined := Join(Get(u.argValues, c.key), c.value);
        JoinGrows(Get(u.argValues, c.key), c.value);
        FactsUpdate(u.argValues, c.key, joined);
      }
      QuietFold(s, pre);
    }
  }

  /** The fold records only the slots the contributions name. */
  lemma {:induction false} FoldSlotsWithin(s: Knowledge, cs: seq<Contribution>, slots: set<Key>)
    requires SlotsWithin(s.argValues, slots)
    requires forall c :: c in cs && c.ArgValue? ==> c.key in slots
    ensures SlotsWithin(Fold(s, cs).argValues, slots)
  {
    if cs != [] {
      FoldSlotsWithin(s, cs[..|cs| - 1], slots);
    }
  }

  lemma {:induction false} FoldArglessWithin(s: Knowledge, cs: seq<Contribution>, parts: set<Partition>)
    requires s.argless <= parts
    requires forall c :: c in cs && c.Argless? ==> c.callee in parts
    ensures Fold(s, cs).argless <= parts
  {
    if cs != [] {
      FoldArglessWithin(s, cs[..|cs| - 1], parts);
    }
  }

  /** What is left to learn shrinks when the known facts strictly grow. */
  lemma RemainingShrinks<T>(universe: set<T>, a: set<T>, b: set<T>)
    requires a <= b <= universe && a != b
    ensures universe - b < universe - a
  {
    var x :| x in b && x !in a;
    assert x in universe - a && x !in universe - b;
  }
}
