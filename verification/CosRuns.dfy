/** Whole runs of assignments and releases: who shares a class of service, and when one is free. */
module CosRuns {
  import opened Bits
  import opened Topology
  import opened Registers
  import opened Capabilities
  import opened CosAssign

  ghost function Written(call: CosCall): set<nat> {
    match call
    case AssignCall(_, _, cores, _, done) => if done <= |cores| then Members(cores[..done]) else {}
    case ReleaseCall(released) => released
    case OtherCall => {}
  }

  /** A run that starts with every core in class 0. */
  ghost predicate CosRun(cpu: seq<CoreInfo>, states: seq<AssocRegs>, calls: seq<CosCall>) {
    && WellFormed(cpu)
    && |states| == |calls| + 1
    && states[0].Keys == Lcores(cpu)
    && (forall l :: l in states[0] ==> Cos(states[0][l]) == 0)
    && (forall i :: 0 <= i < |calls| ==> CosStep(cpu, states[i], calls[i], states[i + 1]))
  }

  /** The last of the first `n` calls that wrote the core's class; -1 when none did. */
  ghost function LastWriter(calls: seq<CosCall>, n: nat, lcore: nat): (w: int)
    requires n <= |calls|
    ensures -1 <= w < n
    ensures w >= 0 ==> lcore in Written(calls[w])
  {
    if n == 0 then -1
    else if lcore in Written(calls[n - 1]) then n - 1
    else LastWriter(calls, n - 1, lcore)
  }

  /** Two cores of one cluster that hold the same non-zero class were put there by one assignment. */
  ghost predicate Exclusive(cpu: seq<CoreInfo>, scope: Scope, assoc: AssocRegs, calls: seq<CosCall>, n: nat)
    requires n <= |calls| && assoc.Keys == Lcores(cpu)
  {
    forall x, y ::
      (x in cpu && y in cpu && IdOf(x, scope) == IdOf(y, scope) && Cos(assoc[x.lcore]) == Cos(assoc[y.lcore]) != 0) ==>
      var w := LastWriter(calls, n, x.lcore);
      w == LastWriter(calls, n, y.lcore) && w >= 0 && calls[w].AssignCall?
  }

  /** No call asks for L2, so that every search covers a whole socket. */
  ghost predicate NoL2(calls: seq<CosCall>) {
    forall i :: 0 <= i < |calls| && calls[i].AssignCall? ==> !calls[i].tech.l2
  }

  lemma RunKeys(cpu: seq<CoreInfo>, states: seq<AssocRegs>, calls: seq<CosCall>, n: nat)
    requires CosRun(cpu, states, calls) && n <= |calls|
    ensures states[n].Keys == Lcores(cpu)
  {
    if n > 0 {
      RunKeys(cpu, states, calls, n - 1);
      assert CosStep(cpu, states[n - 1], calls[n - 1], states[n]);
    }
  }

  /** A class unused in the searched scope is unused among the neighbours of every assigned core. */
  lemma FreshForNeighbours(cpu: seq<CoreInfo>, scope: Scope, call: CosCall, assoc: AssocRegs, x: CoreInfo, y: CoreInfo)
    requires WellFormed(cpu) && assoc.Keys == Lcores(cpu)
    requires call.AssignCall? && FreshClass(cpu, call.cap, call.tech, assoc, call.cores, call.classId)
    requires scope == L2Cluster || (scope == Socket && !call.tech.l2)
    requires x in cpu && y in cpu && IdOf(x, scope) == IdOf(y, scope) && x.lcore in call.cores
    ensures Cos(assoc[y.lcore]) != call.classId
  {
    var id :| AllWithin(cpu, ScopeOf(call.tech), id, call.cores)
      && call.classId == HighestFree(cpu, assoc, ScopeOf(call.tech), id, HiCos(call.cap, call.tech).value);
    assert Within(cpu, ScopeOf(call.tech), id, x.lcore);
    WithinUnique(cpu, ScopeOf(call.tech), x);
    assert IdOf(y, ScopeOf(call.tech)) == id;
  }

  lemma RetaggedCos(before: AssocRegs, cores: set<nat>, c: UInt, l: nat)
    requires l in before
    ensures Cos(Retag(before, cores, c)[l]) == if l in cores then c else Cos(before[l])
  {
    AssocFields(before[l], c, 0);
  }

  lemma StepKeepsExclusive(cpu: seq<CoreInfo>, scope: Scope, before: AssocRegs, calls: seq<CosCall>, n: nat,
      after: AssocRegs)
    requires WellFormed(cpu) && before.Keys == Lcores(cpu) && after.Keys == Lcores(cpu) && n < |calls|
    requires CosStep(cpu, before, calls[n], after)
    requires scope == L2Cluster || (scope == Socket && NoL2(calls))
    requires Exclusive(cpu, scope, before, calls, n)
    ensures Exclusive(cpu, scope, after, calls, n + 1)
  {
    var call := calls[n];
    forall x, y | x in cpu && y in cpu && IdOf(x, scope) == IdOf(y, scope)
      && Cos(after[x.lcore]) == Cos(after[y.lcore]) != 0
      ensures var w := LastWriter(calls, n + 1, x.lcore);
              w == LastWriter(calls, n + 1, y.lcore) && w >= 0 && calls[w].AssignCall?
    {
      var done := Written(call);
      if !call.OtherCall? {
        var c: UInt := if call.AssignCall? then call.classId else 0;
        RetaggedCos(before, done, c, x.lcore);
        RetaggedCos(before, done, c, y.lcore);
      }
      if call.AssignCall? && x.lcore in done {
        FreshForNeighbours(cpu, scope, call, before, x, y);
      }
      if call.AssignCall? && y.lcore in done {
        FreshForNeighbours(cpu, scope, call, before, y, x);
      }
      assert x.lcore in done <==> y.lcore in done;
    }
  }

  /** Everybody starts in class 0. */
  lemma StartIsExclusive(cpu: seq<CoreInfo>, scope: Scope, states: seq<AssocRegs>, calls: seq<CosCall>)
    requires CosRun(cpu, states, calls)
    ensures Exclusive(cpu, scope, states[0], calls, 0)
  {
  }

  lemma {:induction false} RunIsExclusive(cpu: seq<CoreInfo>, scope: Scope, states: seq<AssocRegs>, calls: seq<CosCall>,
      n: nat)
    requires CosRun(cpu, states, calls) && n <= |calls|
    requires scope == L2Cluster || (scope == Socket && NoL2(calls))
    ensures states[n].Keys == Lcores(cpu)
    ensures Exclusive(cpu, scope, states[n], calls, n)
  {
    hide Exclusive, CosStep, WellFormed, Lcores, NoL2;
    RunKeys(cpu, states, calls, n);
    if n == 0 {
      StartIsExclusive(cpu, scope, states, calls);
    } else {
      RunIsExclusive(cpu, scope, states, calls, n - 1);
      StepKeepsExclusive(cpu, scope, states[n - 1], calls, n - 1, states[n]);
    }
  }

  /** In every run of assignments, releases and resets, with writes that may fail midway, cores of one L2
      cluster share a non-zero class only if one assignment put them there; without L2 requests the same
      holds for a whole socket. */
  lemma CosExclusivity(cpu: seq<CoreInfo>, states: seq<AssocRegs>, calls: seq<CosCall>, n: nat)
    requires CosRun(cpu, states, calls) && n <= |calls|
    ensures states[n].Keys == Lcores(cpu)
    ensures Exclusive(cpu, L2Cluster, states[n], calls, n)
    ensures NoL2(calls) ==> Exclusive(cpu, Socket, states[n], calls, n)
  {
    RunIsExclusive(cpu, L2Cluster, states, calls, n);
    if NoL2(calls) {
      RunIsExclusive(cpu, Socket, states, calls, n);
    }
  }

  // ----- when an assignment finds no class -----

  /** Cores of the scope that hold one of the classes 1..hi. */
  ghost function Holders(cpu: seq<CoreInfo>, assoc: AssocRegs, scope: Scope, id: nat, hi: nat): set<CoreInfo>
    requires Lcores(cpu) <= assoc.Keys
  {
    set x | x in cpu && IdOf(x, scope) == id && 1 <= Cos(assoc[x.lcore]) <= hi
  }

  lemma {:induction false} UsedClassesNeedHolders(cpu: seq<CoreInfo>, assoc: AssocRegs, scope: Scope, id: nat, hi: nat)
    requires Lcores(cpu) <= assoc.Keys
    requires forall c :: 1 <= c <= hi ==> CosUsed(cpu, assoc, scope, id, c)
    ensures |Holders(cpu, assoc, scope, id, hi)| >= hi
  {
    if hi > 0 {
      UsedClassesNeedHolders(cpu, assoc, scope, id, hi - 1);
      assert CosUsed(cpu, assoc, scope, id, hi);
      var x :| x in cpu && IdOf(x, scope) == id && Cos(assoc[x.lcore]) == hi;
      var fewer := Holders(cpu, assoc, scope, id, hi - 1);
      assert x !in fewer;
      assert fewer + {x} <= Holders(cpu, assoc, scope, id, hi);
      SubsetSize(fewer + {x}, Holders(cpu, assoc, scope, id, hi));
    }
  }

  /** Cores of the scope outside class 0. */
  ghost function Busy(cpu: seq<CoreInfo>, assoc: AssocRegs, scope: Scope, id: nat): set<CoreInfo>
    requires Lcores(cpu) <= assoc.Keys
  {
    set x | x in cpu && IdOf(x, scope) == id && Cos(assoc[x.lcore]) != 0
  }

  /** There is no free class exactly when all of 1..hi are in use, so never while fewer than hi cores
      of the scope are outside class 0. */
  lemma NoFreeClass(cpu: seq<CoreInfo>, assoc: AssocRegs, scope: Scope, id: nat, hi: nat)
    requires Lcores(cpu) <= assoc.Keys
    ensures HighestFree(cpu, assoc, scope, id, hi) == 0 <==>
      forall c :: 1 <= c <= hi ==> CosUsed(cpu, assoc, scope, id, c)
    ensures |Busy(cpu, assoc, scope, id)| < hi ==> HighestFree(cpu, assoc, scope, id, hi) > 0
  {
    var free := HighestFree(cpu, assoc, scope, id, hi);
    assert free > 0 ==> !CosUsed(cpu, assoc, scope, id, free);
    if free == 0 {
      UsedClassesNeedHolders(cpu, assoc, scope, id, hi);
      SubsetSize(Holders(cpu, assoc, scope, id, hi), Busy(cpu, assoc, scope, id));
    }
  }
}
