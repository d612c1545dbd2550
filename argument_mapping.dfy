/**
 * Flattening the nested method -> (argument index -> name) part of a name
 * map into one map keyed by argument reference.
 */
module ArgumentMapping {
  import opened Asm

  /** A method entry of the name map; only its argument names matter here. */
  datatype MethodMapping = MethodMapping(name: string, arguments: map<int, string>)

  datatype NameMap = NameMap(methods: map<MemberRef, MethodMapping>)

  /** Total number of argument entries over all methods. */
  ghost function TotalArguments(methods: map<MemberRef, MethodMapping>): nat
    decreases |methods|
  {
    if methods == map[] then 0
    else
      var k :| k in methods;
      |methods[k].arguments| + TotalArguments(methods - {k})
  }

  /** The total does not depend on which method is taken out first. */
  lemma {:induction false} TotalArgumentsRemove(methods: map<MemberRef, MethodMapping>, k: MemberRef)
    requires k in methods
    ensures TotalArguments(methods) == |methods[k].arguments| + TotalArguments(methods - {k})
    decreases |methods|
  {
    assert methods != map[];
    var j :| j in methods && TotalArguments(methods) == |methods[j].arguments| + TotalArguments(methods - {j});
    if j != k {
      var withoutJ := methods - {j};
      var withoutK := methods - {k};
      RemoveTwo(methods, j, k);
      TotalArgumentsRemove(withoutJ, k);
      TotalArgumentsRemove(withoutK, j);
    }
  }

  lemma RemoveTwo(methods: map<MemberRef, MethodMapping>, j: MemberRef, k: MemberRef)
    requires j in methods && k in methods && j != k
    ensures k in methods - {j} && (methods - {j})[k] == methods[k] && |methods - {j}| < |methods|
    ensures j in methods - {k} && (methods - {k})[j] == methods[j] && |methods - {k}| < |methods|
    ensures methods - {j} - {k} == methods - {k} - {j}
  {
  }

  function Restrict(methods: map<MemberRef, MethodMapping>, keys: set<MemberRef>): (r: map<MemberRef, MethodMapping>)
    ensures r.Keys == methods.Keys * keys
    ensures forall k :: k in r ==> r[k] == methods[k]
  {
    map k | k in methods && k in keys :: methods[k]
  }

  class ArgumentMappingGenerator {
    const nameMap: NameMap

    constructor (nameMap: NameMap)
      ensures this.nameMap == nameMap
    {
      this.nameMap := nameMap;
    }

    /** `generate`: a fresh map from every (method, index) entry to its name. */
    method Generate() returns (argumentNames: map<ArgRef<MemberRef>, string>)
      ensures forall ref, i :: ref in nameMap.methods && i in nameMap.methods[ref].arguments
                ==> ArgRef(ref, i) in argumentNames && argumentNames[ArgRef(ref, i)] == nameMap.methods[ref].arguments[i]
      ensures forall a :: a in argumentNames ==> a.target in nameMap.methods && a.arg in nameMap.methods[a.target].arguments
      ensures |argumentNames| == TotalArguments(nameMap.methods)
    {
      var methods := nameMap.methods;
      argumentNames := map[];
      var todo := methods.Keys;
      assert Restrict(methods, methods.Keys - todo) == map[];
      while todo != {}
        invariant Progress(argumentNames, methods, todo)
        decreases todo
      {
        var methodRef := Pick(todo);
        ghost var before := argumentNames;
        ProgressDisjoint(argumentNames, methods, todo, methodRef);
        argumentNames := AddArguments(argumentNames, methodRef, methods[methodRef].arguments);
        ProgressStep(before, argumentNames, methods, todo, methodRef);
        todo := todo - {methodRef};
      }
      ProgressDone(argumentNames, methods);
    }
  }

  /** `acc` holds exactly the argument names of the methods in `done`. */
  ghost predicate Flattens(acc: map<ArgRef<MemberRef>, string>, methods: map<MemberRef, MethodMapping>, done: set<MemberRef>)
  {
    && (forall a :: a in acc ==> a.target in done && a.target in methods && a.arg in methods[a.target].arguments)
    && (forall a :: a in acc && a.target in methods && a.arg in methods[a.target].arguments ==> acc[a] == methods[a.target].arguments[a.arg])
    && (forall ref, i :: ref in done && ref in methods && i in methods[ref].arguments ==> ArgRef(ref, i) in acc)
  }

  /** The state of the outer loop of `generate` with the methods `todo` still to visit. */
  ghost predicate Progress(acc: map<ArgRef<MemberRef>, string>, methods: map<MemberRef, MethodMapping>, todo: set<MemberRef>)
  {
    && todo <= methods.Keys
    && Flattens(acc, methods, methods.Keys - todo)
    && |acc| == TotalArguments(Restrict(methods, methods.Keys - todo))
  }

  lemma ProgressDisjoint(acc: map<ArgRef<MemberRef>, string>, methods: map<MemberRef, MethodMapping>,
                         todo: set<MemberRef>, methodRef: MemberRef)
    requires Progress(acc, methods, todo) && methodRef in todo
    ensures forall a :: a in acc ==> a.target != methodRef
  {
  }

  lemma ProgressDone(acc: map<ArgRef<MemberRef>, string>, methods: map<MemberRef, MethodMapping>)
    requires Progress(acc, methods, {})
    ensures forall ref, i :: ref in methods && i in methods[ref].arguments
              ==> ArgRef(ref, i) in acc && acc[ArgRef(ref, i)] == methods[ref].arguments[i]
    ensures forall a :: a in acc ==> a.target in methods && a.arg in methods[a.target].arguments
    ensures |acc| == TotalArguments(methods)
  {
    assert methods.Keys - {} == methods.Keys;
    assert Restrict(methods, methods.Keys) == methods;
  }

  /** `r` is `acc` with the names of `arguments` added under `methodRef`. */
  ghost predicate Extends(acc: map<ArgRef<MemberRef>, string>, r: map<ArgRef<MemberRef>, string>,
                          methodRef: MemberRef, arguments: map<int, string>)
  {
    && (forall a :: a in r ==> a in acc || (a.target == methodRef && a.arg in arguments))
    && (forall a :: a in acc ==> a in r)
    && (forall i :: i in arguments ==> ArgRef(methodRef, i) in r && r[ArgRef(methodRef, i)] == arguments[i])
    && (forall a :: a in acc && !(a.target == methodRef && a.arg in arguments) ==> r[a] == acc[a])
  }

  lemma ProgressStep(acc: map<ArgRef<MemberRef>, string>, r: map<ArgRef<MemberRef>, string>,
                     methods: map<MemberRef, MethodMapping>, todo: set<MemberRef>, methodRef: MemberRef)
    requires Progress(acc, methods, todo) && methodRef in todo
    requires Extends(acc, r, methodRef, methods[methodRef].arguments)
    requires |r| == |acc| + |methods[methodRef].arguments|
    ensures Progress(r, methods, todo - {methodRef})
  {
    var done := methods.Keys - todo;
    assert methods.Keys - (todo - {methodRef}) == done + {methodRef};
    FlattensStep(acc, r, methods, done, methodRef);
    CountStep(methods, done, methodRef);
  }

  lemma CountStep(methods: map<MemberRef, MethodMapping>, done: set<MemberRef>, methodRef: MemberRef)
    requires methodRef in methods && methodRef !in done
    ensures TotalArguments(Restrict(methods, done + {methodRef}))
            == TotalArguments(Restrict(methods, done)) + |methods[methodRef].arguments|
  {
    var big := Restrict(methods, done + {methodRef});
    TotalArgumentsRemove(big, methodRef);
    assert big - {methodRef} == Restrict(methods, done);
  }

  lemma FlattensStep(acc: map<ArgRef<MemberRef>, string>, r: map<ArgRef<MemberRef>, string>,
                     methods: map<MemberRef, MethodMapping>, done: set<MemberRef>, methodRef: MemberRef)
    requires methodRef in methods && Flattens(acc, methods, done)
    requires Extends(acc, r, methodRef, methods[methodRef].arguments)
    ensures Flattens(r, methods, done + {methodRef})
  {
  }

  /** The inner loop of `generate`: insert the names of one method. */
  method AddArguments(acc: map<ArgRef<MemberRef>, string>, methodRef: MemberRef, arguments: map<int, string>)
    returns (r: map<ArgRef<MemberRef>, string>)
    ensures Extends(acc, r, methodRef, arguments)
    ensures (forall a :: a in acc ==> a.target != methodRef) ==> |r| == |acc| + |arguments|
  {
    r := acc;
    var indices := arguments.Keys;
    while indices != {}
      invariant InnerLoop(acc, r, methodRef, arguments, indices)
      decreases indices
    {
      var index := Pick(indices);
      ghost var before := r;
      r := r[ArgRef(methodRef, index) := arguments[index]];
      InnerStep(acc, before, methodRef, arguments, indices, index);
      indices := indices - {index};
    }
    InnerDone(acc, r, methodRef, arguments);
  }

  /** The state of the inner loop with the indices `indices` still to visit. */
  ghost predicate InnerLoop(acc: map<ArgRef<MemberRef>, string>, r: map<ArgRef<MemberRef>, string>,
                            methodRef: MemberRef, arguments: map<int, string>, indices: set<int>)
  {
    && indices <= arguments.Keys
    && Inserted(acc, r, methodRef, arguments, arguments.Keys - indices)
    && ((forall a :: a in acc ==> a.target != methodRef) ==> |r| == |acc| + |arguments.Keys - indices|)
  }

  lemma InnerStep(acc: map<ArgRef<MemberRef>, string>, r: map<ArgRef<MemberRef>, string>,
                  methodRef: MemberRef, arguments: map<int, string>, indices: set<int>, index: int)
    requires InnerLoop(acc, r, methodRef, arguments, indices) && index in indices
    ensures InnerLoop(acc, r[ArgRef(methodRef, index) := arguments[index]], methodRef, arguments, indices - {index})
  {
    var doneIndices := arguments.Keys - indices;
    assert arguments.Keys - (indices - {index}) == doneIndices + {index};
    if forall a :: a in acc ==> a.target != methodRef {
      NotYetInserted(acc, r, methodRef, arguments, doneIndices, index);
    }
    InsertStep(acc, r, methodRef, arguments, doneIndices, index);
  }

  lemma InnerDone(acc: map<ArgRef<MemberRef>, string>, r: map<ArgRef<MemberRef>, string>,
                  methodRef: MemberRef, arguments: map<int, string>)
    requires InnerLoop(acc, r, methodRef, arguments, {})
    ensures Extends(acc, r, methodRef, arguments)
    ensures (forall a :: a in acc ==> a.target != methodRef) ==> |r| == |acc| + |arguments|
  {
    assert arguments.Keys - {} == arguments.Keys;
  }

  /** Some element of a non-empty set: the next key a map iteration visits. */
  method Pick<T>(s: set<T>) returns (x: T)
    requires s != {}
    ensures x in s
  {
    x :| x in s;
  }

  /** `r` is `acc` with the names of the indices `doneIndices` added under `methodRef`. */
  ghost predicate Inserted(acc: map<ArgRef<MemberRef>, string>, r: map<ArgRef<MemberRef>, string>,
                           methodRef: MemberRef, arguments: map<int, string>, doneIndices: set<int>)
  {
    && (forall a :: a in r ==> a in acc || (a.target == methodRef && a.arg in doneIndices))
    && (forall a :: a in acc ==> a in r)
    && (forall i :: i in doneIndices && i in arguments ==> ArgRef(methodRef, i) in r && r[ArgRef(methodRef, i)] == arguments[i])
    && (forall a :: a in acc && !(a.target == methodRef && a.arg in doneIndices) ==> r[a] == acc[a])
  }

  lemma NotYetInserted(acc: map<ArgRef<MemberRef>, string>, r: map<ArgRef<MemberRef>, string>,
                       methodRef: MemberRef, arguments: map<int, string>, doneIndices: set<int>, index: int)
    requires Inserted(acc, r, methodRef, arguments, doneIndices)
    requires forall a :: a in acc ==> a.target != methodRef
    requires index !in doneIndices
    ensures ArgRef(methodRef, index) !in r
  {
  }

  lemma InsertStep(acc: map<ArgRef<MemberRef>, string>, r: map<ArgRef<MemberRef>, string>,
                   methodRef: MemberRef, arguments: map<int, string>, doneIndices: set<int>, index: int)
    requires Inserted(acc, r, methodRef, arguments, doneIndices)
    requires index in arguments && index !in doneIndices
    ensures Inserted(acc, r[ArgRef(methodRef, index) := arguments[index]], methodRef, arguments, doneIndices + {index})
  {
  }
}
