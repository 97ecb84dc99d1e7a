/** Handing out classes of service: `get_unused_cos`, `hw_alloc_assign`, `hw_alloc_release`. */
module CosAssign {
  import opened Bits
  import opened Results
  import opened Topology
  import opened Registers
  import opened Capabilities

  /** The listed cores, moved to class `c`; their other ASSOC bits stay. */
  ghost function Retag(assoc: map<nat, Word>, cores: set<nat>, c: UInt): (r: map<nat, Word>)
    ensures r.Keys == assoc.Keys
  {
    map l | l in assoc :: if l in cores then WithCos(assoc[l], c) else assoc[l]
  }

  ghost predicate CosUsed(cpu: seq<CoreInfo>, assoc: map<nat, Word>, scope: Scope, id: nat, c: nat)
    requires Lcores(cpu) <= assoc.Keys
  {
    exists x :: x in cpu && IdOf(x, scope) == id && Cos(assoc[x.lcore]) == c
  }

  /** The highest class of 1..hi that no core of the socket or cluster holds; 0 when there is none. */
  ghost function HighestFree(cpu: seq<CoreInfo>, assoc: map<nat, Word>, scope: Scope, id: nat, hi: nat): (c: nat)
    requires Lcores(cpu) <= assoc.Keys
    ensures c <= hi
    ensures c > 0 ==> !CosUsed(cpu, assoc, scope, id, c)
    ensures forall d :: c < d <= hi ==> CosUsed(cpu, assoc, scope, id, d)
  {
    if hi == 0 || !CosUsed(cpu, assoc, scope, id, hi) then hi
    else HighestFree(cpu, assoc, scope, id, hi - 1)
  }

  /** L2 requests are served per L2 cluster, all others per socket. */
  function ScopeOf(tech: Tech): Scope {
    if tech.l2 then L2Cluster else Socket
  }

  ghost predicate AllWithin(cpu: seq<CoreInfo>, scope: Scope, id: nat, cores: seq<nat>) {
    forall l :: l in cores ==> Within(cpu, scope, id, l)
  }

  /** What an assignment that meets no register fault returns. */
  ghost function Verdict(cpu: seq<CoreInfo>, cap: Cap, tech: Tech, assoc: map<nat, Word>, cores: seq<nat>): RetVal
    requires tech.Any() && cores != []
    requires Lcores(cpu) <= assoc.Keys
  {
    var first := Lookup(cpu, cores[0]);
    if first.None? || !AllWithin(cpu, ScopeOf(tech), IdOf(first.value, ScopeOf(tech)), cores) then Param
    else if HiCos(cap, tech).None? then Error
    else
      var id := IdOf(first.value, ScopeOf(tech));
      if HighestFree(cpu, assoc, ScopeOf(tech), id, HiCos(cap, tech).value) == 0 then Resource else Ok
  }

  /** What is known of the class that an assignment hands out. */
  ghost predicate FreshClass(cpu: seq<CoreInfo>, cap: Cap, tech: Tech, assoc: map<nat, Word>, cores: seq<nat>, c: nat) {
    tech.Any() && cores != [] && Lcores(cpu) <= assoc.Keys && c > 0 && HiCos(cap, tech).Some? &&
    exists id ::
      && AllWithin(cpu, ScopeOf(tech), id, cores)
      && c == HighestFree(cpu, assoc, ScopeOf(tech), id, HiCos(cap, tech).value)
  }

  type AssocRegs = map<nat, Word>

  // ----- what each call does to the association registers -----

  /** One library call, with how far its register writes got. */
  datatype CosCall =
    | AssignCall(cap: Cap, tech: Tech, cores: seq<nat>, classId: UInt, done: nat)
    | ReleaseCall(released: set<nat>)  // a release, or the association part of a reset
    | OtherCall                        // monitoring and class definition: the COS halves stay

  /** What each call's contract says about the association registers. */
  ghost predicate CosStep(cpu: seq<CoreInfo>, before: AssocRegs, call: CosCall, after: AssocRegs) {
    match call
    case AssignCall(cap, tech, cores, classId, done) =>
      && done <= |cores|
      && (done > 0 ==> FreshClass(cpu, cap, tech, before, cores, classId))
      && after == Retag(before, Members(cores[..done]), classId)
    case ReleaseCall(released) => after == Retag(before, released, 0)
    case OtherCall => after.Keys == before.Keys && forall l :: l in before ==> Cos(after[l]) == Cos(before[l])
  }

  lemma RetagNone(assoc: map<nat, Word>, c: UInt)
    ensures Retag(assoc, {}, c) == assoc
  {
  }

  lemma RetagOne(assoc: map<nat, Word>, done: set<nat>, l: nat, c: UInt)
    requires l in assoc
    ensures Retag(assoc, done, c)[l := WithCos(Retag(assoc, done, c)[l], c)] == Retag(assoc, done + {l}, c)
  {
    AssocRewrite(assoc[l], c, c);
  }

  lemma MembersOneMore(s: seq<nat>, i: nat)
    requires i < |s|
    ensures Members(s[..i + 1]) == Members(s[..i]) + {s[i]}
  {
    assert s[..i + 1] == s[..i] + [s[i]];
  }

  method CosAssocGet(hw: Msr, lcore: nat) returns (ret: RetVal, c: UInt)
    requires hw.Valid()
    modifies hw`clock
    ensures hw.Valid() && hw.clock > old(hw.clock)
    ensures ret == Ok || ret == Error
    ensures ret == Ok ==> lcore in hw.regs.assoc && c == Cos(hw.regs.assoc[lcore])
    ensures hw.NoFault(old(hw.clock), hw.clock) && lcore in hw.regs.assoc ==> ret == Ok
  {
    hide ValidRegs, WellFormed;
    ShapeOf(hw.chip, hw.regs);
    var ok, val := hw.Read(lcore, Assoc);
    if !ok {
      return Error, 0;
    }
    return Ok, Cos(val);
  }

  /** The class goes to bits 63..32, and the low half stays. */
  lemma CosHalf(assoc: AssocRegs, lcore: nat, c: UInt)
    ensures lcore in assoc ==>
      && WithCos(assoc[lcore], c) / 0x1_0000_0000 == c
      && WithCos(assoc[lcore], c) % 0x1_0000_0000 == assoc[lcore] % 0x1_0000_0000
  {
  }

  method CosAssocSet(hw: Msr, lcore: nat, c: UInt) returns (ret: RetVal)
    requires hw.Valid()
    modifies hw
    ensures hw.Valid() && old(hw.clock) < hw.clock <= old(hw.clock) + 2
    ensures ret == Ok || ret == Error
    ensures ret == Ok ==> lcore in old(hw.regs.assoc)
    ensures lcore in old(hw.regs.assoc) ==> (ret == Ok <==> hw.NoFault(old(hw.clock), hw.clock))
    ensures hw.regs == old(hw.regs).(assoc :=
      if ret == Ok then old(hw.regs.assoc)[lcore := WithCos(old(hw.regs.assoc)[lcore], c)] else old(hw.regs.assoc))
    ensures ret == Ok ==>
      && hw.regs.assoc[lcore] / 0x1_0000_0000 == c
      && hw.regs.assoc[lcore] % 0x1_0000_0000 == old(hw.regs.assoc)[lcore] % 0x1_0000_0000
  {
    hide ValidRegs, WellFormed, WithCos;
    ShapeOf(hw.chip, hw.regs);
    CosHalf(hw.regs.assoc, lcore, c);
    var ok, val := hw.Read(lcore, Assoc);
    if !ok {
      return Error;
    }
    ok := hw.Write(lcore, Assoc, WithCos(val, c));
    if !ok {
      return Error;
    }
    return Ok;
  }

  method GetUnusedCos(hw: Msr, cap: Cap, id: nat, tech: Tech) returns (ret: RetVal, classId: nat)
    requires hw.Valid() && tech.Any()
    requires HiCos(cap, tech).Some? ==> HiCos(cap, tech).value < MAX_COS
    modifies hw`clock
    ensures hw.Valid() && hw.clock >= old(hw.clock)
    ensures ret != Param
    ensures HiCos(cap, tech).None? ==> ret == Error
    ensures ret != Error ==>
      var c := HighestFree(hw.chip.cpu, hw.regs.assoc, ScopeOf(tech), id, HiCos(cap, tech).value);
      if c == 0 then ret == Resource else ret == Ok && classId == c
    ensures hw.NoFault(old(hw.clock), hw.clock) && HiCos(cap, tech).Some? ==> ret != Error
  {
    classId := 0;
    var hiCos := HiCos(cap, tech);
    if hiCos.None? {
      return Error, 0;
    }
    var hi := hiCos.value;
    var cpu := hw.chip.cpu;
    var used := new bool[MAX_COS](_ => false);
    for i := 0 to |cpu|
      invariant hw.Valid() && hw.clock >= old(hw.clock) && hw.regs == old(hw.regs)
      invariant forall c :: 0 <= c <= hi ==> (used[c] <==> CosUsedUpTo(cpu, i, hw.regs.assoc, ScopeOf(tech), id, c))
    {
      if IdOf(cpu[i], ScopeOf(tech)) != id {
        continue;
      }
      assert cpu[i] in cpu;
      var r, c := CosAssocGet(hw, cpu[i].lcore);
      if r != Ok {
        return r, 0;
      }
      if c > hi {
        continue;
      }
      used[c] := true;
    }
    assert forall c :: 0 <= c <= hi ==> (used[c] <==> CosUsed(cpu, hw.regs.assoc, ScopeOf(tech), id, c));
    var cos := hi;
    while cos != 0
      invariant 0 <= cos <= hi
      invariant HighestFree(cpu, hw.regs.assoc, ScopeOf(tech), id, hi)
        == HighestFree(cpu, hw.regs.assoc, ScopeOf(tech), id, cos)
    {
      if !used[cos] {
        return Ok, cos;
      }
      cos := cos - 1;
    }
    return Resource, 0;
  }

  ghost predicate CosUsedUpTo(cpu: seq<CoreInfo>, n: nat, assoc: map<nat, Word>, scope: Scope, id: nat, c: nat)
    requires n <= |cpu| && Lcores(cpu) <= assoc.Keys
  {
    exists k :: 0 <= k < n && cpu[k] in cpu && IdOf(cpu[k], scope) == id && Cos(assoc[cpu[k].lcore]) == c
  }

  /** The socket or L2 cluster all the cores belong to, if they belong to one. */
  method OneEntity(cpu: seq<CoreInfo>, scope: Scope, cores: seq<nat>) returns (r: Option<nat>)
    requires WellFormed(cpu) && cores != []
    ensures r.Some? ==> AllWithin(cpu, scope, r.value, cores)
    ensures r.Some? ==> Lookup(cpu, cores[0]).Some? && r.value == IdOf(Lookup(cpu, cores[0]).value, scope)
    ensures r.None? ==> forall id :: !AllWithin(cpu, scope, id, cores)
  {
    var id := 0;
    for i := 0 to |cores|
      invariant i > 0 ==> Lookup(cpu, cores[0]).Some? && id == IdOf(Lookup(cpu, cores[0]).value, scope)
      invariant forall j :: 0 <= j < i ==> Within(cpu, scope, id, cores[j])
    {
      var pi := GetCoreInfo(cpu, cores[i]);
      assert cores[i] in cores;
      if pi.None? {
        return None;
      }
      WithinUnique(cpu, scope, pi.value);
      if i != 0 && id != IdOf(pi.value, scope) {
        WithinUnique(cpu, scope, Lookup(cpu, cores[0]).value);
        assert cores[0] in cores;
        return None;
      }
      id := IdOf(pi.value, scope);
    }
    r := Some(id);
  }

  /** Assigns an unused class to the cores; `done` of them were reached before a failure. */
  method HwAllocAssign(hw: Msr, cap: Cap, tech: Tech, cores: seq<nat>)
      returns (ret: RetVal, classId: nat, ghost done: nat)
    requires hw.Valid() && tech.Any() && cores != []
    requires HiCos(cap, tech).Some? ==> HiCos(cap, tech).value < MAX_COS
    modifies hw
    ensures hw.Valid() && hw.clock >= old(hw.clock)
    ensures ret != Error ==> ret == Verdict(hw.chip.cpu, cap, tech, old(hw.regs.assoc), cores)
    ensures hw.NoFault(old(hw.clock), hw.clock) ==> ret == Verdict(hw.chip.cpu, cap, tech, old(hw.regs.assoc), cores)
    ensures done <= |cores| && classId < MAX_COS
    ensures ret == Ok ==> done == |cores|
    ensures ret == Ok || done > 0 ==> FreshClass(hw.chip.cpu, cap, tech, old(hw.regs.assoc), cores, classId)
    ensures hw.regs == old(hw.regs).(assoc := Retag(old(hw.regs.assoc), Members(cores[..done]), classId))
    ensures CosStep(hw.chip.cpu, old(hw.regs.assoc), AssignCall(cap, tech, cores, classId, done), hw.regs.assoc)
  {
    classId, done := 0, 0;
    var cpu := hw.chip.cpu;
    var scope := ScopeOf(tech);
    assert Retag(hw.regs.assoc, Members(cores[..0]), 0) == hw.regs.assoc;
    var entity := OneEntity(cpu, scope, cores);
    if entity.None? {
      return Param, 0, 0;
    }
    var id := entity.value;
    ret, classId := GetUnusedCos(hw, cap, id, tech);
    if ret != Ok {
      return ret, 0, 0;
    }
    assert Members(cores) <= hw.regs.assoc.Keys by {
      assert forall l :: l in cores ==> Within(cpu, scope, id, l);
    }
    ret, done := AssociateAll(hw, cores, classId);
  }

  /** Writes class `c` to the cores in order, stopping at the first failure. */
  method AssociateAll(hw: Msr, cores: seq<nat>, c: UInt) returns (ret: RetVal, ghost done: nat)
    requires hw.Valid()
    modifies hw
    ensures hw.Valid() && hw.clock >= old(hw.clock)
    ensures ret == Ok || ret == Error
    ensures done <= |cores| && (ret == Ok ==> done == |cores|)
    ensures hw.regs == old(hw.regs).(assoc := Retag(old(hw.regs.assoc), Members(cores[..done]), c))
    ensures hw.NoFault(old(hw.clock), hw.clock) && Members(cores) <= old(hw.regs.assoc.Keys) ==> ret == Ok
  {
    ret, done := Ok, 0;
    assert Retag(hw.regs.assoc, Members(cores[..0]), c) == hw.regs.assoc;
    for i := 0 to |cores|
      invariant hw.Valid() && hw.clock >= old(hw.clock)
      invariant done == i && ret == Ok
      invariant hw.regs == old(hw.regs).(assoc := Retag(old(hw.regs.assoc), Members(cores[..i]), c))
    {
      assert cores[i] in Members(cores);
      ret := CosAssocSet(hw, cores[i], c);
      if ret != Ok {
        return;
      }
      RetagOne(old(hw.regs.assoc), Members(cores[..i]), cores[i], c);
      MembersOneMore(cores, i);
      done := i + 1;
    }
  }

  lemma WithinUnique(cpu: seq<CoreInfo>, scope: Scope, c: CoreInfo)
    requires WellFormed(cpu) && c in cpu
    ensures forall id :: Within(cpu, scope, id, c.lcore) <==> id == IdOf(c, scope)
  {
    forall id | Within(cpu, scope, id, c.lcore) ensures id == IdOf(c, scope) {
      var d :| d in cpu && d.lcore == c.lcore && IdOf(d, scope) == id;
      LookupIsUnique(cpu, c);
      LookupIsUnique(cpu, d);
    }
  }

  /** Moves cores back to class 0, going on after a failure; `done` are those reached. */
  method HwAllocRelease(hw: Msr, cores: seq<nat>) returns (ret: RetVal, ghost done: set<nat>)
    requires hw.Valid() && cores != []
    modifies hw
    ensures hw.Valid() && hw.clock >= old(hw.clock)
    ensures ret == Ok || ret == Error
    ensures done <= Members(cores) && (ret == Ok ==> done == Members(cores))
    ensures hw.clock <= old(hw.clock) + 2 * |cores|
    ensures BestEffort(hw.fails, old(hw.clock), hw.clock, Members(cores) * old(hw.regs.assoc.Keys), done)
    ensures hw.regs == old(hw.regs).(assoc := Retag(old(hw.regs.assoc), done, 0))
    ensures CosStep(hw.chip.cpu, old(hw.regs.assoc), ReleaseCall(done), hw.regs.assoc)
    ensures hw.NoFault(old(hw.clock), hw.clock) && Members(cores) <= old(hw.regs.assoc.Keys) ==> ret == Ok
  {
    hide ValidRegs, WellFormed, BestEffort, Failures, Retag;
    ret, done := Ok, {};
    ghost var known := hw.regs.assoc.Keys;
    RetagNone(hw.regs.assoc, 0);
    NothingWanted(hw.fails, hw.clock, hw.clock, {});
    assert Members(cores[..0]) * known == {};
    for i := 0 to |cores|
      invariant hw.Valid() && old(hw.clock) <= hw.clock <= old(hw.clock) + 2 * i
      invariant hw.regs.assoc.Keys == known
      invariant BestEffort(hw.fails, old(hw.clock), hw.clock, Members(cores[..i]) * known, done)
      invariant ret == Ok || ret == Error
      invariant done <= Members(cores[..i]) && (ret == Ok ==> done == Members(cores[..i]))
      invariant hw.regs == old(hw.regs).(assoc := Retag(old(hw.regs.assoc), done, 0))
      invariant hw.NoFault(old(hw.clock), hw.clock) && Members(cores) <= old(hw.regs.assoc.Keys) ==> ret == Ok
    {
      assert cores[i] in Members(cores);
      MembersOneMore(cores, i);
      ghost var from, before := hw.clock, done;
      var r := CosAssocSet(hw, cores[i], 0);
      if r != Ok {
        ret := Error;
      } else {
        RetagOne(old(hw.regs.assoc), done, cores[i], 0);
        done := done + {cores[i]};
      }
      OneMoreWanted(hw.fails, old(hw.clock), from, hw.clock, Members(cores[..i]), known, before, cores[i], done);
    }
    assert cores[..|cores|] == cores;
  }
}
