/** Counting the classes in use on a socket: while fewer than hi are, one is free. */
module ClassBudget {
  import opened Bits
  import opened Topology
  import opened Registers
  import opened CosAssign

  /** The non-zero classes that cores of the socket or cluster hold. */
  ghost function UsedClasses(cpu: seq<CoreInfo>, assoc: AssocRegs, scope: Scope, id: nat): set<nat>
    requires Lcores(cpu) <= assoc.Keys
  {
    set x | x in cpu && IdOf(x, scope) == id && Cos(assoc[x.lcore]) != 0 :: Cos(assoc[x.lcore])
  }

  /** The registers agree on the cores of the socket or cluster. */
  ghost predicate SameThere(cpu: seq<CoreInfo>, a: AssocRegs, b: AssocRegs, scope: Scope, id: nat)
    requires Lcores(cpu) <= a.Keys && Lcores(cpu) <= b.Keys
  {
    forall x :: x in cpu && IdOf(x, scope) == id ==> a[x.lcore] == b[x.lcore]
  }

  lemma SameUsed(cpu: seq<CoreInfo>, a: AssocRegs, b: AssocRegs, scope: Scope, id: nat)
    requires Lcores(cpu) <= a.Keys && Lcores(cpu) <= b.Keys && SameThere(cpu, a, b, scope, id)
    ensures UsedClasses(cpu, a, scope, id) == UsedClasses(cpu, b, scope, id)
  {
  }

  lemma SameHeld(cpu: seq<CoreInfo>, a: AssocRegs, b: AssocRegs, scope: Scope, id: nat, c: nat)
    requires Lcores(cpu) <= a.Keys && Lcores(cpu) <= b.Keys && SameThere(cpu, a, b, scope, id)
    ensures CosUsed(cpu, a, scope, id, c) <==> CosUsed(cpu, b, scope, id, c)
  {
  }

  lemma {:induction false} SameFree(cpu: seq<CoreInfo>, a: AssocRegs, b: AssocRegs, scope: Scope, id: nat, hi: nat)
    requires Lcores(cpu) <= a.Keys && Lcores(cpu) <= b.Keys && SameThere(cpu, a, b, scope, id)
    ensures HighestFree(cpu, a, scope, id, hi) == HighestFree(cpu, b, scope, id, hi)
  {
    hide CosUsed, SameThere;
    if hi > 0 {
      SameFree(cpu, a, b, scope, id, hi - 1);
      SameHeld(cpu, a, b, scope, id, hi);
    }
  }

  ghost function UpTo(hi: nat): (r: set<nat>)
    ensures |r| == hi && forall c: nat :: c in r <==> 1 <= c <= hi
  {
    if hi == 0 then {} else UpTo(hi - 1) + {hi}
  }

  /** With fewer than hi classes in use, one of 1..hi is free. */
  lemma FewUsedLeavesFree(cpu: seq<CoreInfo>, assoc: AssocRegs, scope: Scope, id: nat, hi: nat)
    requires Lcores(cpu) <= assoc.Keys && |UsedClasses(cpu, assoc, scope, id)| < hi
    ensures HighestFree(cpu, assoc, scope, id, hi) > 0
  {
    if HighestFree(cpu, assoc, scope, id, hi) == 0 {
      forall c | c in UpTo(hi) ensures c in UsedClasses(cpu, assoc, scope, id) {
        assert CosUsed(cpu, assoc, scope, id, c);
        var x :| x in cpu && IdOf(x, scope) == id && Cos(assoc[x.lcore]) == c;
      }
      SubsetSize(UpTo(hi), UsedClasses(cpu, assoc, scope, id));
    }
  }

  /** All of `cores` lie in the socket or cluster. */
  ghost predicate Inside(cpu: seq<CoreInfo>, scope: Scope, id: nat, cores: set<nat>) {
    forall l :: l in cores ==> Within(cpu, scope, id, l)
  }

  /** Moving cores of one socket or cluster to one class adds one class in use at most. */
  lemma RetagAddsOne(cpu: seq<CoreInfo>, assoc: AssocRegs, scope: Scope, id: nat, cores: set<nat>, c: UInt)
    requires Lcores(cpu) == assoc.Keys
    ensures |UsedClasses(cpu, Retag(assoc, cores, c), scope, id)| <= |UsedClasses(cpu, assoc, scope, id)| + 1
  {
    var after := Retag(assoc, cores, c);
    var had, has := UsedClasses(cpu, assoc, scope, id), UsedClasses(cpu, after, scope, id);
    forall d | d in has ensures d in had + {c} {
      var x :| x in cpu && IdOf(x, scope) == id && Cos(after[x.lcore]) != 0 && Cos(after[x.lcore]) == d;
      AssocFields(assoc[x.lcore], c, 0);
    }
    SubsetSize(has, had + {c});
  }

  // ----- how many classes a group takes -----

  /** A group is served once per `unit`; these are the units in which it has a core of socket or cluster `id`. */
  ghost function Units(cpu: seq<CoreInfo>, cpus: set<nat>, unit: Scope, scope: Scope, id: nat): set<nat> {
    set x | x in cpu && x.lcore in cpus && IdOf(x, scope) == id :: IdOf(x, unit)
  }

  ghost function UnitsBelow(cpu: seq<CoreInfo>, cpus: set<nat>, unit: Scope, scope: Scope, id: nat, n: nat): set<nat> {
    set u | u in Units(cpu, cpus, unit, scope, id) && u < n
  }

  ghost predicate AddsAtMost(cpu: seq<CoreInfo>, start: AssocRegs, now: AssocRegs, scope: Scope, id: nat, more: nat)
    requires Lcores(cpu) <= start.Keys && Lcores(cpu) <= now.Keys
  {
    |UsedClasses(cpu, now, scope, id)| <= |UsedClasses(cpu, start, scope, id)| + more
  }

  /** Units from `n` on are as at the start, and everywhere each unit served added one class in use at most. */
  ghost predicate Progress(cpu: seq<CoreInfo>, cpus: set<nat>, unit: Scope, start: AssocRegs, now: AssocRegs, n: nat) {
    && Lcores(cpu) == start.Keys == now.Keys
    && (forall id :: id >= n ==> SameThere(cpu, start, now, unit, id))
    && (forall scope, id: nat :: AddsAtMost(cpu, start, now, scope, id, |UnitsBelow(cpu, cpus, unit, scope, id, n)|))
  }

  /** Serving the group put at most one more class to use per unit, counted in every socket and cluster. */
  ghost predicate AddsFew(cpu: seq<CoreInfo>, cpus: set<nat>, unit: Scope, start: AssocRegs, now: AssocRegs) {
    && Lcores(cpu) <= start.Keys && Lcores(cpu) <= now.Keys
    && forall scope, id: nat :: AddsAtMost(cpu, start, now, scope, id, |Units(cpu, cpus, unit, scope, id)|)
  }

  lemma NoProgress(cpu: seq<CoreInfo>, cpus: set<nat>, unit: Scope, assoc: AssocRegs)
    requires Lcores(cpu) == assoc.Keys
    ensures Progress(cpu, cpus, unit, assoc, assoc, 0)
  {
    hide UsedClasses, UnitsBelow;
  }

  lemma MoreProgress(cpu: seq<CoreInfo>, cpus: set<nat>, unit: Scope, start: AssocRegs, now: AssocRegs, moved: set<nat>,
      c: UInt, n: nat)
    requires WellFormed(cpu) && Progress(cpu, cpus, unit, start, now, n) && moved <= cpus && Inside(cpu, unit, n, moved)
    ensures Progress(cpu, cpus, unit, start, Retag(now, moved, c), n + 1)
  {
    hide UsedClasses, UnitsBelow, WellFormed;
    var next, m := Retag(now, moved, c), n + 1;
    forall scope, id: nat ensures AddsAtMost(cpu, start, next, scope, id, |UnitsBelow(cpu, cpus, unit, scope, id, m)|) {
      assert AddsAtMost(cpu, start, now, scope, id, |UnitsBelow(cpu, cpus, unit, scope, id, n)|);
      OneMoreUnit(cpu, cpus, unit, scope, id, n);
      if SameThere(cpu, now, next, scope, id) {
        SameUsed(cpu, now, next, scope, id);
      } else {
        RetagAddsOne(cpu, now, scope, id, moved, c);
        UnitTouched(cpu, cpus, unit, scope, id, now, moved, c, n);
      }
    }
    forall id | id >= n + 1 ensures SameThere(cpu, start, next, unit, id) {
      assert SameThere(cpu, start, now, unit, id);
      OtherUnits(cpu, unit, now, moved, c, n, id);
    }
  }

  lemma OneMoreUnit(cpu: seq<CoreInfo>, cpus: set<nat>, unit: Scope, scope: Scope, id: nat, n: nat)
    ensures |UnitsBelow(cpu, cpus, unit, scope, id, n + 1)| ==
      |UnitsBelow(cpu, cpus, unit, scope, id, n)| + if n in Units(cpu, cpus, unit, scope, id) then 1 else 0
  {
    hide Units;
    var below, next := UnitsBelow(cpu, cpus, unit, scope, id, n), UnitsBelow(cpu, cpus, unit, scope, id, n + 1);
    assert next == if n in Units(cpu, cpus, unit, scope, id) then below + {n} else below;
  }

  lemma UnitTouched(cpu: seq<CoreInfo>, cpus: set<nat>, unit: Scope, scope: Scope, id: nat,
                    now: AssocRegs, moved: set<nat>, c: UInt, n: nat)
    requires WellFormed(cpu) && Lcores(cpu) <= now.Keys && moved <= cpus && Inside(cpu, unit, n, moved)
    requires !SameThere(cpu, now, Retag(now, moved, c), scope, id)
    ensures n in Units(cpu, cpus, unit, scope, id)
  {
    var x :| x in cpu && IdOf(x, scope) == id && now[x.lcore] != Retag(now, moved, c)[x.lcore];
    assert x.lcore in moved;
    WithinUnique(cpu, unit, x);
  }

  lemma OtherUnits(cpu: seq<CoreInfo>, unit: Scope, now: AssocRegs, moved: set<nat>, c: UInt, n: nat, id: nat)
    requires WellFormed(cpu) && Lcores(cpu) <= now.Keys && Inside(cpu, unit, n, moved) && id != n
    ensures SameThere(cpu, now, Retag(now, moved, c), unit, id)
  {
    forall x | x in cpu && IdOf(x, unit) == id ensures x.lcore !in moved {
      WithinUnique(cpu, unit, x);
    }
  }

  lemma ProgressAddsFew(cpu: seq<CoreInfo>, cpus: set<nat>, unit: Scope, start: AssocRegs, now: AssocRegs, n: nat)
    requires Progress(cpu, cpus, unit, start, now, n)
    ensures AddsFew(cpu, cpus, unit, start, now)
  {
    hide UsedClasses, SameThere, Units;
    forall scope, id: nat ensures AddsAtMost(cpu, start, now, scope, id, |Units(cpu, cpus, unit, scope, id)|) {
      assert AddsAtMost(cpu, start, now, scope, id, |UnitsBelow(cpu, cpus, unit, scope, id, n)|);
      SubsetSize(UnitsBelow(cpu, cpus, unit, scope, id, n), Units(cpu, cpus, unit, scope, id));
    }
  }
}
