/** The library's entry points on the register interface: validation, then the register operation. */
module Api {
  import opened Bits
  import opened Results
  import opened Topology
  import opened Registers
  import opened Capabilities
  import opened MbaRate
  import opened CosAssign
  import opened ClassConfig

  method PqosL3caSet(hw: Msr, cap: Cap, socket: nat, cas: seq<L3Ca>) returns (ret: RetVal, ghost ws: seq<(nat, Word)>)
    requires hw.Valid()
    modifies hw
    ensures hw.Valid() && hw.clock >= old(hw.clock)
    ensures ws <= L3Writes(cap.CdpOn(), cas) && AllWritable(hw.chip, L3Masks, ws)
    ensures L3SetStep(hw.chip, old(hw.regs), socket, ws, hw.regs)
    ensures cas == [] || (exists i :: 0 <= i < |cas| && !EntryIsRun(cas[i])) ==> ret == Param && ws == []
    ensures ret == Ok ==> L3SetAllowed(hw.chip, cap, socket, cas) && ws == L3Writes(cap.CdpOn(), cas)
    ensures hw.NoFault(old(hw.clock), hw.clock) && cas != [] && (forall i :: 0 <= i < |cas| ==> EntryIsRun(cas[i]))
      && L3SetAllowed(hw.chip, cap, socket, cas) && EntriesWritable(hw.chip, cap.CdpOn(), cas)
      ==> ret == Ok
  {
    hide ValidRegs, WellFormed, PutAll;
    PutNone(hw.regs.l3, hw.chip.l3Min, socket);
    ws := [];
    if |cas| == 0 {
      return Param, ws;
    }
    for i := 0 to |cas|
      invariant hw.Valid() && hw.regs == old(hw.regs) && hw.clock == old(hw.clock)
      invariant forall j :: 0 <= j < i ==> EntryIsRun(cas[j])
    {
      var contiguous;
      if cas[i].L3Cdp? {
        contiguous := IsContiguous(cas[i].data);
        if contiguous {
          contiguous := IsContiguous(cas[i].code);
        }
      } else {
        contiguous := IsContiguous(cas[i].ways);
      }
      if !contiguous {
        return Param, ws;
      }
    }
    EntriesWriteRuns(cap.CdpOn(), cas);
    ret, ws := HwL3caSet(hw, cap, socket, cas);
  }

  method PqosL2caSet(hw: Msr, cap: Cap, l2id: nat, cas: seq<L2Ca>) returns (ret: RetVal, ghost ws: seq<(nat, Word)>)
    requires hw.Valid()
    modifies hw
    ensures hw.Valid() && hw.clock >= old(hw.clock)
    ensures ws <= L2Writes(cas) && AllWritable(hw.chip, L2Masks, ws)
    ensures L2SetStep(hw.chip, old(hw.regs), l2id, ws, hw.regs)
    ensures cas == [] || (exists i :: 0 <= i < |cas| && !IsRun(cas[i].ways)) ==> ret == Param && ws == []
    ensures ret == Ok ==> L2SetAllowed(hw.chip, cap, l2id, cas) && ws == L2Writes(cas)
    ensures hw.NoFault(old(hw.clock), hw.clock) && cas != [] && (forall i :: 0 <= i < |cas| ==> IsRun(cas[i].ways))
      && L2SetAllowed(hw.chip, cap, l2id, cas) && AllWritable(hw.chip, L2Masks, L2Writes(cas))
      ==> ret == Ok
  {
    hide ValidRegs, WellFormed, PutAll;
    PutNone(hw.regs.l2, hw.chip.l2Min, l2id);
    ws := [];
    if |cas| == 0 {
      return Param, ws;
    }
    for i := 0 to |cas|
      invariant hw.Valid() && hw.regs == old(hw.regs) && hw.clock == old(hw.clock)
      invariant forall j :: 0 <= j < i ==> IsRun(cas[j].ways)
    {
      var contiguous := IsContiguous(cas[i].ways);
      if !contiguous {
        return Param, ws;
      }
    }
    ret, ws := HwL2caSet(hw, cap, l2id, cas);
  }

  method PqosMbaSet(hw: Msr, cap: Cap, socket: nat, cos: seq<Mba>, report: bool)
    returns (ret: RetVal, actual: seq<Mba>, ghost ws: seq<(nat, Word)>)
    requires hw.Valid()
    requires cap.mba.Some? ==> cap.mba.value.throttleStep > 0
    modifies hw
    ensures hw.Valid() && hw.clock >= old(hw.clock)
    ensures ws <= MbaWrites(cap, cos) && AllWritable(hw.chip, Throttles, ws)
    ensures hw.regs == old(hw.regs).(mba := PutAll(old(hw.regs.mba), 0, socket, ws))
    ensures cos == [] || (exists i :: 0 <= i < |cos| && !(1 <= cos[i].rate <= LINEAR_MAX)) ==> ret == Param && ws == []
    ensures ret == Ok ==> MbaSetAllowed(hw.chip, cap, socket, cos) && ws == MbaWrites(cap, cos)
    ensures ret == Ok && report ==> Reported(cap.mba.value, cos, actual)
    ensures !report ==> actual == []
    ensures hw.NoFault(old(hw.clock), hw.clock) && cos != []
      && (forall i :: 0 <= i < |cos| ==> 1 <= cos[i].rate <= LINEAR_MAX)
      && MbaSetAllowed(hw.chip, cap, socket, cos) && AllWritable(hw.chip, Throttles, MbaWrites(cap, cos))
      ==> ret == Ok
  {
    hide ValidRegs, WellFormed, PutAll;
    PutNone(hw.regs.mba, 0, socket);
    ws, actual := [], [];
    if |cos| == 0 {
      return Param, actual, ws;
    }
    for i := 0 to |cos|
      invariant forall j :: 0 <= j < i ==> 1 <= cos[j].rate <= LINEAR_MAX
    {
      if cos[i].rate == 0 || cos[i].rate > LINEAR_MAX {
        return Param, actual, ws;
      }
    }
    ret, actual, ws := HwMbaSet(hw, cap, socket, cos, report);
  }

  method PqosAllocAssign(hw: Msr, cap: Cap, tech: Tech, cores: seq<nat>)
      returns (ret: RetVal, classId: nat, ghost done: nat)
    requires hw.Valid()
    requires tech.Any() && HiCos(cap, tech).Some? ==> HiCos(cap, tech).value < MAX_COS
    modifies hw
    ensures hw.Valid() && hw.clock >= old(hw.clock)
    ensures !tech.Any() || cores == [] ==> ret == Param && done == 0
    ensures tech.Any() && cores != [] && ret != Error ==>
      ret == Verdict(hw.chip.cpu, cap, tech, old(hw.regs.assoc), cores)
    ensures hw.NoFault(old(hw.clock), hw.clock) && tech.Any() && cores != [] ==>
      ret == Verdict(hw.chip.cpu, cap, tech, old(hw.regs.assoc), cores)
    ensures done <= |cores| && classId < MAX_COS
    ensures ret == Ok ==> done == |cores|
    ensures ret == Ok || done > 0 ==> FreshClass(hw.chip.cpu, cap, tech, old(hw.regs.assoc), cores, classId)
    ensures hw.regs == old(hw.regs).(assoc := Retag(old(hw.regs.assoc), Members(cores[..done]), classId))
  {
    if |cores| == 0 || !tech.Any() {
      assert Retag(hw.regs.assoc, Members(cores[..0]), 0) == hw.regs.assoc;
      return Param, 0, 0;
    }
    ret, classId, done := HwAllocAssign(hw, cap, tech, cores);
  }

  method PqosAllocRelease(hw: Msr, cores: seq<nat>) returns (ret: RetVal, ghost done: set<nat>)
    requires hw.Valid()
    modifies hw
    ensures hw.Valid() && hw.clock >= old(hw.clock)
    ensures cores == [] ==> ret == Param
    ensures done <= Members(cores) && (ret == Ok ==> done == Members(cores))
    ensures hw.clock <= old(hw.clock) + 2 * |cores|
    ensures BestEffort(hw.fails, old(hw.clock), hw.clock, Members(cores) * old(hw.regs.assoc.Keys), done)
    ensures hw.regs == old(hw.regs).(assoc := Retag(old(hw.regs.assoc), done, 0))
    ensures hw.NoFault(old(hw.clock), hw.clock) && cores != [] && Members(cores) <= old(hw.regs.assoc.Keys) ==>
      ret == Ok
  {
    if |cores| == 0 {
      done := {};
      assert Retag(hw.regs.assoc, {}, 0) == hw.regs.assoc;
      return Param, done;
    }
    ret, done := HwAllocRelease(hw, cores);
  }

  /** Reads a core's class; refused when there is neither L2 nor L3 allocation. */
  method PqosAllocAssocGet(hw: Msr, cap: Cap, lcore: nat) returns (ret: RetVal, classId: nat)
    requires hw.Valid()
    modifies hw`clock
    ensures hw.Valid() && hw.clock >= old(hw.clock)
    ensures ret == Ok ==> lcore in hw.regs.assoc && classId == Cos(hw.regs.assoc[lcore])
    ensures lcore !in hw.regs.assoc <==> ret == Param
    ensures lcore in hw.regs.assoc ==> ((cap.l2.None? && cap.l3.None?) <==> ret == Resource)
    ensures hw.NoFault(old(hw.clock), hw.clock) && lcore in hw.regs.assoc && (cap.l2.Some? || cap.l3.Some?) ==>
      ret == Ok
  {
    classId := 0;
    var info := GetCoreInfo(hw.chip.cpu, lcore);
    if info.None? {
      return Param, 0;
    }
    if cap.l2.None? && cap.l3.None? {
      return Resource, 0;
    }
    ret, classId := CosAssocGet(hw, lcore);
  }
}
