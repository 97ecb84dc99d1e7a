/** Probing the smallest mask the hardware takes: `hw_l3ca_get_min_cbm_bits` and its L2 twin. */
module MinCbm {
  import opened Bits
  import opened Results
  import opened Topology
  import opened Registers
  import opened Capabilities
  import opened CosAssign
  import opened ClassConfig

  const L3_ONLY := Tech(false, true, false)
  const L2_ONLY := Tech(true, false, false)

  /** Widest mask that `(1 << ways) - 1` can form in a 32-bit signed integer. */
  const MAX_PROBE_WAYS: nat := 30

  /** Finds the first socket or L2 cluster id, counting from 0, that has an unused class. */
  method FindFree(hw: Msr, cap: Cap, tech: Tech, count: nat) returns (ret: RetVal, id: nat, classId: nat)
    requires hw.Valid() && tech.Any() && count > 0
    requires HiCos(cap, tech).Some? ==> HiCos(cap, tech).value < MAX_COS
    modifies hw`clock
    ensures hw.Valid() && hw.clock >= old(hw.clock)
    ensures ret == Ok ==> id < count && HiCos(cap, tech).Some? && classId > 0
    ensures ret == Ok ==> classId == HighestFree(hw.chip.cpu, hw.regs.assoc, ScopeOf(tech), id, HiCos(cap, tech).value)
    ensures ret == Ok ==> forall i :: 0 <= i < id ==>
      HighestFree(hw.chip.cpu, hw.regs.assoc, ScopeOf(tech), i, HiCos(cap, tech).value) == 0
    ensures ret == Resource ==> HiCos(cap, tech).Some? && forall i :: 0 <= i < count ==>
      HighestFree(hw.chip.cpu, hw.regs.assoc, ScopeOf(tech), i, HiCos(cap, tech).value) == 0
    ensures ret != Param
    ensures hw.NoFault(old(hw.clock), hw.clock) && HiCos(cap, tech).Some? ==> ret != Error
  {
    hide HighestFree;
    id, classId := 0, 0;
    while id < count
      invariant 0 <= id <= count && hw.Valid() && hw.clock >= old(hw.clock) && hw.regs == old(hw.regs)
      invariant id > 0 ==> HiCos(cap, tech).Some?
      invariant forall i :: 0 <= i < id ==>
        HighestFree(hw.chip.cpu, hw.regs.assoc, ScopeOf(tech), i, HiCos(cap, tech).value) == 0
    {
      ret, classId := GetUnusedCos(hw, cap, id, tech);
      if ret != Resource {
        return;
      }
      id := id + 1;
    }
    ret := Resource;
  }

  // ----- L3 -----

  ghost predicate L3Probeable(hw: Msr, cap: Cap)
    reads hw
  {
    && hw.Valid() && cap.l3.Some? && 0 < cap.L3Classes() <= MAX_COS
    && L3RegsUsed(cap) <= hw.chip.l3Regs
    && HoldsAccepted(hw.regs.l3, hw.chip.l3Min)
    && 1 <= hw.chip.l3Min <= cap.l3.value.numWays <= MAX_PROBE_WAYS
  }

  ghost predicate IsOnes(x: nat) {
    exists n: nat :: n >= 1 && x == Ones(n)
  }

  /** What a probe of class `c` may have done to the masks so far: only registers of the class differ, and
      they hold a tried mask. */
  ghost predicate Probed(before: Bank, now: Bank, id: nat, cdpOn: bool, c: nat) {
    && OnlyClass(before, now, id, cdpOn, c)
    && forall k :: k in now ==> now[k] == before[k] || IsOnes(now[k])
  }

  /** What a probe of an L3 class does to the registers, whatever fails. */
  ghost predicate L3ProbeStep(before: Regs, after: Regs, socket: nat, cdpOn: bool, c: nat) {
    after == before.(l3 := after.l3) && Probed(before.l3, after.l3, socket, cdpOn, c)
  }

  ghost predicate L2ProbeStep(before: Regs, after: Regs, l2id: nat, c: nat) {
    after == before.(l2 := after.l2) && Probed(before.l2, after.l2, l2id, false, c)
  }

  /** The write puts a tried mask or the old value into a register of the class. */
  ghost predicate ProbeWrite(bank: Bank, id: nat, cdpOn: bool, c: nat, w: (nat, Word)) {
    OfClass(cdpOn, c, w.0) && (id, w.0) in bank && (IsOnes(w.1) || w.1 == bank[(id, w.0)])
  }

  lemma ProbedPut(bank: Bank, now: Bank, min: nat, id: nat, cdpOn: bool, c: nat, w: (nat, Word))
    requires Probed(bank, now, id, cdpOn, c) && ProbeWrite(bank, id, cdpOn, c, w)
    ensures Probed(bank, Put(now, min, id, w), id, cdpOn, c)
    ensures HoldsAccepted(now, min) ==> HoldsAccepted(Put(now, min, id, w), min)
  {
    hide IsOnes;
  }

  lemma {:induction false} StillProbed(bank: Bank, now: Bank, min: nat, id: nat, cdpOn: bool, c: nat,
      ws: seq<(nat, Word)>)
    requires Probed(bank, now, id, cdpOn, c)
    requires forall i :: 0 <= i < |ws| ==> ProbeWrite(bank, id, cdpOn, c, ws[i])
    ensures Probed(bank, PutAll(now, min, id, ws), id, cdpOn, c)
    ensures HoldsAccepted(now, min) ==> HoldsAccepted(PutAll(now, min, id, ws), min)
  {
    hide Probed, ProbeWrite, HoldsAccepted, IsOnes, Put;
    if ws != [] {
      var front, last := ws[..|ws| - 1], ws[|ws| - 1];
      StillProbed(bank, now, min, id, cdpOn, c, front);
      ProbedPut(bank, PutAll(now, min, id, front), min, id, cdpOn, c, last);
    }
  }

  lemma ProbedRefl(bank: Bank, id: nat, cdpOn: bool, c: nat)
    ensures Probed(bank, bank, id, cdpOn, c)
  {
  }

  /** One attempt: set the mask for the class and read it back. */
  method TryL3(hw: Msr, cap: Cap, socket: nat, c: nat, mask: Word, ghost bank: Bank) 
    returns (ret: RetVal, taken: bool, halted: bool)
    requires hw.Valid() && cap.l3.Some? && c < cap.L3Classes() && L3RegsUsed(cap) <= hw.chip.l3Regs
    requires HasId(hw.chip.cpu, Socket, socket)
    requires Probed(bank, hw.regs.l3, socket, cap.CdpOn(), c) && IsOnes(mask)
    modifies hw
    ensures hw.Valid() && hw.clock >= old(hw.clock)
    ensures hw.regs == old(hw.regs).(l3 := hw.regs.l3)
    ensures Probed(bank, hw.regs.l3, socket, cap.CdpOn(), c)
    ensures HoldsAccepted(old(hw.regs.l3), hw.chip.l3Min) ==> HoldsAccepted(hw.regs.l3, hw.chip.l3Min)
    ensures (taken ==> ret == Ok) && (halted ==> ret != Ok)
    ensures taken && HoldsAccepted(old(hw.regs.l3), hw.chip.l3Min) ==> BitCount(mask) >= hw.chip.l3Min
    ensures hw.NoFault(old(hw.clock), hw.clock) && cap.L3Classes() <= MAX_COS
      && HoldsAccepted(old(hw.regs.l3), hw.chip.l3Min)
      ==> !halted && (taken <==> BitCount(mask) >= hw.chip.l3Min)
  {
    hide ValidRegs, WellFormed, PutAll, OnlyClass, HoldsAccepted, Probed, IsOnes;
    ghost var cdpOn, ws := cap.CdpOn(), L3Writes(cap.CdpOn(), [L3Ways(c, mask)]);
    taken, halted := false, false;
    ghost var done;
    L3Single(hw.chip, hw.regs, cap, socket, L3Ways(c, mask));
    ret, done := HwL3caSet(hw, cap, socket, [L3Ways(c, mask)]);
    SameKeys(bank, old(hw.regs.l3), socket, cdpOn, c);
    StillProbed(bank, old(hw.regs.l3), hw.chip.l3Min, socket, cdpOn, c, done);
    if BitCount(mask) < hw.chip.l3Min {
      ShortIgnored(old(hw.regs.l3), hw.chip.l3Min, socket, done);
    }
    if ret != Ok {
      return;
    }
    var tab;
    ret, tab := HwL3caGet(hw, cap, socket, MAX_COS);
    if ret != Ok {
      halted := true;
      return;
    }
    L3Reads(old(hw.regs.l3), hw.chip.l3Min, socket, cdpOn, c, mask);
    ShortDiffers(old(hw.regs.l3), hw.chip.l3Min, socket, cdpOn, c, mask);
    taken := Confirms(tab, c, mask);
    assert tab[c].classId == c;
  }

  lemma SameKeys(bank: Bank, now: Bank, id: nat, cdpOn: bool, c: nat)
    requires Probed(bank, now, id, cdpOn, c)
    ensures bank.Keys == now.Keys
  {
  }

  /** Whether class `c` reads back as the mask. */
  method Confirms(tab: seq<L3Ca>, c: nat, mask: Word) returns (taken: bool)
    ensures taken <==> exists i :: 0 <= i < |tab| && tab[i].classId == c && HasMask(tab[i], mask)
  {
    for i := 0 to |tab|
      invariant forall j :: 0 <= j < i ==> tab[j].classId != c || !HasMask(tab[j], mask)
    {
      if tab[i].classId != c {
        continue;
      }
      if HasMask(tab[i], mask) {
        return true;
      }
    }
    taken := false;
  }

  predicate HasMask(ca: L3Ca, mask: Word) {
    match ca
    case L3Ways(_, m) => m == mask
    case L3Cdp(_, d, m) => d == mask && m == mask
  }

  lemma ShortIgnored(bank: Bank, min: nat, id: nat, ws: seq<(nat, Word)>)
    requires forall i :: 0 <= i < |ws| ==> BitCount(ws[i].1) < min
    ensures PutAll(bank, min, id, ws) == bank
  {
  }

  /** A mask the hardware would not take is never what a class shows. */
  lemma ShortDiffers(bank: Bank, min: nat, socket: nat, cdpOn: bool, c: nat, mask: Word)
    requires HasL3Regs(bank, socket, cdpOn, c)
    ensures HoldsAccepted(bank, min) && BitCount(mask) < min ==> !HasMask(ReadL3(bank, socket, cdpOn, c), mask)
  {
  }

  lemma L3Reads(bank: Bank, min: nat, socket: nat, cdpOn: bool, c: nat, mask: Word)
    requires HasL3Regs(bank, socket, cdpOn, c)
    ensures var after := PutAll(bank, min, socket, L3Entry(cdpOn, L3Ways(c, mask)));
      HasL3Regs(after, socket, cdpOn, c) &&
      if BitCount(mask) >= min then HasMask(ReadL3(after, socket, cdpOn, c), mask) else after == bank
  {
    var entry := L3Entry(cdpOn, L3Ways(c, mask));
    if BitCount(mask) >= min {
      ReadAfterEntry(bank, min, socket, cdpOn, L3Ways(c, mask), socket, c);
    } else {
      ShortIgnored(bank, min, socket, entry);
    }
  }

  /** Some socket or cluster has a class that none of its cores holds. */
  ghost predicate SomeFree(cpu: seq<CoreInfo>, cap: Cap, tech: Tech, assoc: map<nat, Word>)
    requires tech.Any() && HiCos(cap, tech).Some? && Lcores(cpu) <= assoc.Keys
  {
    exists id :: id in Ids(cpu, ScopeOf(tech)) && HighestFree(cpu, assoc, ScopeOf(tech), id, HiCos(cap, tech).value) > 0
  }

  /** `bits` is the answer; `id` and `c` name the socket and the class that were probed. */
  method HwL3caGetMinCbmBits(hw: Msr, cap: Cap) returns (ret: RetVal, bits: Option<nat>, ghost id: nat, ghost c: nat)
    requires hw.Valid() && Dense(hw.chip.cpu, Socket)
    requires cap.l3.Some? ==> L3Probeable(hw, cap)
    modifies hw
    ensures hw.Valid()
    ensures cap.l3.None? ==> ret == Resource
    ensures L3ProbeStep(old(hw.regs), hw.regs, id, cap.CdpOn(), c)
    ensures hw.regs == old(hw.regs) || (0 < c && !CosUsed(hw.chip.cpu, old(hw.regs.assoc), Socket, id, c))
    ensures ret == Ok ==> hw.regs == old(hw.regs)
    ensures hw.NoFault(Before(hw.clock, RegsPerClass(cap)), hw.clock) ==> hw.regs == old(hw.regs)
    ensures hw.regs != old(hw.regs) && bits.None? ==> Failures(hw.fails, old(hw.clock), hw.clock) >= 2
    ensures bits.Some? ==> bits.value >= hw.chip.l3Min
    ensures hw.NoFault(old(hw.clock), hw.clock) && cap.l3.Some? && hw.chip.cpu != [] ==>
      && hw.regs == old(hw.regs)
      && (if SomeFree(hw.chip.cpu, cap, L3_ONLY, old(hw.regs.assoc)) then ret == Ok && bits == Some(hw.chip.l3Min)
          else ret == Resource && bits == None)
  {
    hide ValidRegs, WellFormed, PutAll, HighestFree, Failures;
    bits, id, c := None, 0, 0;
    ProbedRefl(hw.regs.l3, id, cap.CdpOn(), c);
    if cap.l3.None? {
      return Resource, bits, id, c;
    }
    var sockets := GetIds(hw.chip.cpu, Socket);
    if |sockets| == 0 {
      return Error, bits, id, c;
    }
    var socket, classId;
    ret, socket, classId := FindFree(hw, cap, L3_ONLY, |sockets|);
    DenseIds(hw.chip.cpu, Socket);
    if ret != Ok {
      return;
    }
    id, c := socket, classId;
    ProbedRefl(hw.regs.l3, id, cap.CdpOn(), c);
    ClassIsFree(hw.chip, hw.regs, Socket, id, HiCos(cap, L3_ONLY).value);
    assert id in sockets;
    ghost var first := hw.clock;
    ret, bits := ProbeL3(hw, cap, socket, classId);
    FailuresWithin(hw.fails, old(hw.clock), first, hw.clock);
  }

  /** Mask registers, and so write accesses, for one class. */
  function RegsPerClass(cap: Cap): nat {
    if cap.CdpOn() then 2 else 1
  }

  /** Tries masks of 1, 2, 3, ... ways on the class, then writes its old definition back. */
  method ProbeL3(hw: Msr, cap: Cap, socket: nat, c: nat) returns (ret: RetVal, bits: Option<nat>)
    requires L3Probeable(hw, cap) && HasId(hw.chip.cpu, Socket, socket) && c < cap.L3Classes()
    modifies hw
    ensures hw.Valid() && hw.clock >= old(hw.clock)
    ensures hw.regs == old(hw.regs).(l3 := hw.regs.l3)
    ensures hw.NoFault(Before(hw.clock, RegsPerClass(cap)), hw.clock) ==> hw.regs.l3 == old(hw.regs.l3)
    ensures hw.regs.l3 != old(hw.regs.l3) && bits.None? ==> Failures(hw.fails, old(hw.clock), hw.clock) >= 2
    ensures Probed(old(hw.regs.l3), hw.regs.l3, socket, cap.CdpOn(), c)
    ensures ret == Ok ==> hw.regs.l3 == old(hw.regs.l3)
    ensures bits.Some? ==> bits.value >= hw.chip.l3Min
    ensures hw.NoFault(old(hw.clock), hw.clock) ==>
      hw.regs.l3 == old(hw.regs.l3) && ret == Ok && bits == Some(hw.chip.l3Min)
  {
    hide ValidRegs, WellFormed, PutAll, Probed, IsOnes, HoldsAccepted, BitCount, Ones, Failures;
    bits := None;
    ProbedRefl(hw.regs.l3, socket, cap.CdpOn(), c);
    var config;
    ret, config := HwL3caGet(hw, cap, socket, MAX_COS);
    if ret != Ok {
      return;
    }
    var numWays, ways := cap.l3.value.numWays, 1;
    while ways <= numWays
      invariant 1 <= ways <= numWays + 1 && hw.Valid() && hw.clock >= old(hw.clock)
      invariant hw.regs == old(hw.regs).(l3 := hw.regs.l3)
      invariant Probed(old(hw.regs.l3), hw.regs.l3, socket, cap.CdpOn(), c)
      invariant HoldsAccepted(hw.regs.l3, hw.chip.l3Min)
      invariant hw.NoFault(old(hw.clock), hw.clock) ==> ways <= hw.chip.l3Min
      invariant bits == None
    {
      TriedMask(ways);
      var taken, halted;
      ret, taken, halted := TryL3(hw, cap, socket, c, Ones(ways), old(hw.regs.l3));
      if taken {
        bits := Some(ways);
        break;
      }
      if halted {
        break;
      }
      ways := ways + 1;
    }
    ghost var from := hw.clock;
    var restored := RestoreL3(hw, cap, socket, config[c], old(hw.regs.l3));
    TwoFailures(hw.fails, old(hw.clock), from, hw.clock);
    if restored != Ok {
      ret := restored;
    }
  }

  lemma TriedMask(ways: nat)
    requires 1 <= ways <= MAX_PROBE_WAYS
    ensures Ones(ways) < UINT_LIMIT && BitCount(Ones(ways)) == ways && IsOnes(Ones(ways))
  {
    OnesCount(ways);
    Pow2Limits();
    Pow2Monotone(ways, 32);
  }

  lemma ClassIsFree(chip: Chip, r: Regs, scope: Scope, id: nat, hi: nat)
    requires ValidRegs(chip, r) && HighestFree(chip.cpu, r.assoc, scope, id, hi) > 0
    ensures !CosUsed(chip.cpu, r.assoc, scope, id, HighestFree(chip.cpu, r.assoc, scope, id, hi))
  {
  }

  /** Writes the saved definition back. */
  method RestoreL3(hw: Msr, cap: Cap, socket: nat, saved: L3Ca, ghost bank: Bank) returns (ret: RetVal)
    requires hw.Valid() && cap.l3.Some? && saved.classId < cap.L3Classes() && L3RegsUsed(cap) <= hw.chip.l3Regs
    requires HasId(hw.chip.cpu, Socket, socket)
    requires Probed(bank, hw.regs.l3, socket, cap.CdpOn(), saved.classId) && HoldsAccepted(bank, hw.chip.l3Min)
    requires HasL3Regs(bank, socket, cap.CdpOn(), saved.classId)
    requires saved == ReadL3(bank, socket, cap.CdpOn(), saved.classId)
    modifies hw
    ensures hw.Valid() && hw.clock >= old(hw.clock)
    ensures hw.regs == old(hw.regs).(l3 := hw.regs.l3)
    ensures Probed(bank, hw.regs.l3, socket, cap.CdpOn(), saved.classId)
    ensures ret == Ok ==> hw.regs.l3 == bank
    ensures hw.clock <= old(hw.clock) + RegsPerClass(cap)
    ensures hw.NoFault(old(hw.clock), hw.clock) ==> ret == Ok
  {
    hide ValidRegs, WellFormed, PutAll, Probed, IsOnes, HoldsAccepted;
    ghost var cdpOn, now, min := cap.CdpOn(), hw.regs.l3, hw.chip.l3Min;
    L3Single(hw.chip, hw.regs, cap, socket, saved);
    assert |L3Entry(cdpOn, saved)| <= RegsPerClass(cap);
    ghost var done;
    ret, done := HwL3caSet(hw, cap, socket, [saved]);
    StillProbed(bank, now, min, socket, cdpOn, saved.classId, done);
    RestoredBank(bank, now, min, socket, cdpOn, saved);
  }

  lemma RestoredBank(bank: Bank, now: Bank, min: nat, socket: nat, cdpOn: bool, saved: L3Ca)
    requires Probed(bank, now, socket, cdpOn, saved.classId) && HoldsAccepted(bank, min)
    requires HasL3Regs(bank, socket, cdpOn, saved.classId)
    requires saved == ReadL3(bank, socket, cdpOn, saved.classId)
    ensures PutAll(now, min, socket, L3Entry(cdpOn, saved)) == bank
    ensures forall i :: 0 <= i < |L3Entry(cdpOn, saved)| ==> BitCount(L3Entry(cdpOn, saved)[i].1) >= min
  {
    hide PutAll, BitCount;
    var after := PutAll(now, min, socket, L3Entry(cdpOn, saved));
    EntryOfClass(bank, min, socket, cdpOn, saved);
    ReadAfterEntry(now, min, socket, cdpOn, saved, socket, saved.classId);
    PrefixTouches(now, min, socket, cdpOn, saved.classId, L3Entry(cdpOn, saved), L3Entry(cdpOn, saved));
    hide L3Entry, HoldsAccepted;
    forall k | k in bank ensures after[k] == bank[k] {
      if k.0 == socket && OfClass(cdpOn, saved.classId, k.1) {
        assert k == (socket, k.1);
      }
    }
  }

  lemma EntryOfClass(bank: Bank, min: nat, socket: nat, cdpOn: bool, saved: L3Ca)
    requires HoldsAccepted(bank, min) && HasL3Regs(bank, socket, cdpOn, saved.classId)
    requires saved == ReadL3(bank, socket, cdpOn, saved.classId)
    ensures forall i :: 0 <= i < |L3Entry(cdpOn, saved)| ==>
      && OfClass(cdpOn, saved.classId, L3Entry(cdpOn, saved)[i].0)
      && (socket, L3Entry(cdpOn, saved)[i].0) in bank
      && BitCount(L3Entry(cdpOn, saved)[i].1) >= min
  {
    hide BitCount;
  }

  // ----- L2 -----

  ghost predicate L2Probeable(hw: Msr, cap: Cap)
    reads hw
  {
    && hw.Valid() && cap.l2.Some? && 0 < cap.L2Classes() <= MAX_COS
    && cap.L2Classes() <= hw.chip.l2Regs
    && HoldsAccepted(hw.regs.l2, hw.chip.l2Min)
    && Holds32(hw.regs.l2)
    && 1 <= hw.chip.l2Min <= cap.l2.value.numWays <= MAX_PROBE_WAYS
  }

  lemma L2Single(chip: Chip, r: Regs, l2id: nat, c: nat, mask: UInt, done: seq<(nat, Word)>)
    requires ValidRegs(chip, r) && HasId(chip.cpu, L2Cluster, l2id) && c < chip.l2Regs
    requires done <= L2Writes([L2Ca(c, mask)])
    ensures L2Writes([L2Ca(c, mask)]) == [(c, mask)]
    ensures (l2id, c) in r.l2
    ensures AfterOneWrite(r.l2, PutAll(r.l2, chip.l2Min, l2id, done), chip.l2Min, l2id, c, mask, done)
  {
    hide PutAll, AfterOneWrite;
    assert L2Writes([L2Ca(c, mask)]) == [(c, mask)];
    assert HasId(chip.cpu, L2Cluster, (l2id, c).0);
    hide ValidRegs;
    OneWrite(r.l2, chip.l2Min, l2id, c, mask, done);
  }

  ghost predicate AfterOneWrite(before: Bank, after: Bank, min: nat, id: nat, c: nat, mask: Word,
      done: seq<(nat, Word)>)
  {
    && (id, c) in after
    && (BitCount(mask) < min || done == [] ==> after == before)
    && (BitCount(mask) >= min && done != [] ==> after[(id, c)] == mask)
    && (HoldsAccepted(before, min) && Holds32(before) && done != [] ==>
          (after[(id, c)] % UINT_LIMIT == mask <==> BitCount(mask) >= min))
  }

  /** L2 masks fit the 32 bits of their class definition. */
  ghost predicate Holds32(bank: Bank) {
    forall k :: k in bank ==> bank[k] < UINT_LIMIT
  }

  lemma Holds32At(bank: Bank, k: (nat, nat))
    requires k in bank
    ensures Holds32(bank) ==> bank[k] < UINT_LIMIT
  {
  }

  lemma Keeps32(bank: Bank, min: nat, id: nat, c: nat, mask: UInt, done: seq<(nat, Word)>)
    requires done <= [(c, mask)]
    ensures Holds32(bank) ==> Holds32(PutAll(bank, min, id, done))
  {
    hide PutAll, BitCount;
    PutNone(bank, min, id);
    if done != [] {
      assert done == [] + [(c, mask)];
      PutOneMore(bank, min, id, [], (c, mask));
    }
  }

  lemma OneWrite(bank: Bank, min: nat, id: nat, c: nat, mask: UInt, done: seq<(nat, Word)>)
    requires (id, c) in bank && done <= [(c, mask)]
    ensures AfterOneWrite(bank, PutAll(bank, min, id, done), min, id, c, mask, done)
  {
    hide PutAll, BitCount, Holds32;
    PutNone(bank, min, id);
    assert Holds32(bank) ==> bank[(id, c)] < UINT_LIMIT by {
      Holds32At(bank, (id, c));
    }
    if done != [] {
      assert done == [] + [(c, mask)];
      PutOneMore(bank, min, id, [], (c, mask));
    }
  }

  method TryL2(hw: Msr, cap: Cap, l2id: nat, c: nat, mask: UInt, ghost bank: Bank) 
    returns (ret: RetVal, taken: bool, halted: bool)
    requires hw.Valid() && cap.l2.Some? && c < cap.L2Classes() <= hw.chip.l2Regs
    requires HasId(hw.chip.cpu, L2Cluster, l2id)
    requires Probed(bank, hw.regs.l2, l2id, false, c) && IsOnes(mask)
    modifies hw
    ensures hw.Valid() && hw.clock >= old(hw.clock)
    ensures hw.regs == old(hw.regs).(l2 := hw.regs.l2)
    ensures Probed(bank, hw.regs.l2, l2id, false, c)
    ensures HoldsAccepted(old(hw.regs.l2), hw.chip.l2Min) ==> HoldsAccepted(hw.regs.l2, hw.chip.l2Min)
    ensures Holds32(old(hw.regs.l2)) ==> Holds32(hw.regs.l2)
    ensures BitCount(mask) < hw.chip.l2Min ==> hw.regs.l2 == old(hw.regs.l2)
    ensures (taken ==> ret == Ok) && (halted ==> ret != Ok)
    ensures taken && HoldsAccepted(old(hw.regs.l2), hw.chip.l2Min) && Holds32(old(hw.regs.l2)) ==>
      BitCount(mask) >= hw.chip.l2Min
    ensures hw.NoFault(old(hw.clock), hw.clock) && cap.L2Classes() <= MAX_COS
      && HoldsAccepted(old(hw.regs.l2), hw.chip.l2Min)
      && Holds32(old(hw.regs.l2))
      ==> !halted && (taken <==> BitCount(mask) >= hw.chip.l2Min)
  {
    hide ValidRegs, WellFormed, PutAll, Probed, IsOnes, OnlyClass, HoldsAccepted, Holds32;
    taken, halted := false, false;
    ghost var done;
    ret, done := HwL2caSet(hw, cap, l2id, [L2Ca(c, mask)]);
    L2Single(hw.chip, old(hw.regs), l2id, c, mask, done);
    assert L2Writes([L2Ca(c, mask)]) == [(c, mask as Word)];
    Keeps32(old(hw.regs.l2), hw.chip.l2Min, l2id, c, mask, done);
    SameKeys(bank, old(hw.regs.l2), l2id, false, c);
    StillProbed(bank, old(hw.regs.l2), hw.chip.l2Min, l2id, false, c, done);
    if ret != Ok {
      return;
    }
    var tab;
    ret, tab := HwL2caGet(hw, cap, l2id, MAX_COS);
    if ret != Ok {
      halted := true;
      return;
    }
    for i := 0 to |tab|
      invariant forall j :: 0 <= j < i ==> j != c || tab[j].ways != mask
    {
      if tab[i].classId != c {
        continue;
      }
      if tab[i].ways == mask {
        taken := true;
        return;
      }
    }
  }

  method RestoreL2(hw: Msr, cap: Cap, l2id: nat, saved: L2Ca, ghost bank: Bank) returns (ret: RetVal)
    requires hw.Valid() && cap.l2.Some? && saved.classId < cap.L2Classes() <= hw.chip.l2Regs
    requires HasId(hw.chip.cpu, L2Cluster, l2id)
    requires Probed(bank, hw.regs.l2, l2id, false, saved.classId) && HoldsAccepted(bank, hw.chip.l2Min)
    requires (l2id, saved.classId) in bank && bank[(l2id, saved.classId)] == saved.ways
    modifies hw
    ensures hw.Valid() && hw.clock >= old(hw.clock)
    ensures hw.regs == old(hw.regs).(l2 := hw.regs.l2)
    ensures Probed(bank, hw.regs.l2, l2id, false, saved.classId)
    ensures ret == Ok ==> hw.regs.l2 == bank
    ensures hw.clock <= old(hw.clock) + 1
    ensures hw.NoFault(old(hw.clock), hw.clock) ==> ret == Ok
  {
    hide ValidRegs, WellFormed, PutAll, IsOnes;
    ghost var now := hw.regs.l2;
    ghost var done;
    assert L2Writes([saved]) == [(saved.classId, saved.ways as Word)];
    ret, done := HwL2caSet(hw, cap, l2id, [saved]);
    L2Single(hw.chip, old(hw.regs), l2id, saved.classId, saved.ways, done);
    StillProbed(bank, now, hw.chip.l2Min, l2id, false, saved.classId, done);
    if ret == Ok {
      forall k | k in bank ensures hw.regs.l2[k] == bank[k] {
        if k.0 == l2id && k.1 == saved.classId {
          assert k == (l2id, saved.classId);
        }
      }
    }
  }

  method ProbeL2(hw: Msr, cap: Cap, l2id: nat, c: nat) returns (ret: RetVal, bits: Option<nat>)
    requires L2Probeable(hw, cap) && HasId(hw.chip.cpu, L2Cluster, l2id) && c < cap.L2Classes()
    modifies hw
    ensures hw.Valid() && hw.clock >= old(hw.clock)
    ensures hw.regs == old(hw.regs).(l2 := hw.regs.l2)
    ensures hw.NoFault(Before(hw.clock, 1), hw.clock) ==> hw.regs.l2 == old(hw.regs.l2)
    ensures hw.regs.l2 != old(hw.regs.l2) && bits.None? ==> Failures(hw.fails, old(hw.clock), hw.clock) >= 2
    ensures Probed(old(hw.regs.l2), hw.regs.l2, l2id, false, c)
    ensures ret == Ok ==> hw.regs.l2 == old(hw.regs.l2)
    ensures bits.Some? ==> bits.value >= hw.chip.l2Min
    ensures hw.NoFault(old(hw.clock), hw.clock) ==>
      hw.regs.l2 == old(hw.regs.l2) && ret == Ok && bits == Some(hw.chip.l2Min)
  {
    hide ValidRegs, WellFormed, PutAll, Probed, IsOnes, HoldsAccepted, Holds32, AfterOneWrite, BitCount, Ones, Failures;
    bits := None;
    ProbedRefl(hw.regs.l2, l2id, false, c);
    var config;
    ret, config := HwL2caGet(hw, cap, l2id, MAX_COS);
    if ret != Ok {
      return;
    }
    L2Single(hw.chip, hw.regs, l2id, c, 0, []);
    Holds32At(hw.regs.l2, (l2id, c));
    var numWays, ways := cap.l2.value.numWays, 1;
    while ways <= numWays
      invariant 1 <= ways <= numWays + 1 && hw.Valid() && hw.clock >= old(hw.clock)
      invariant hw.regs == old(hw.regs).(l2 := hw.regs.l2)
      invariant Probed(old(hw.regs.l2), hw.regs.l2, l2id, false, c)
      invariant HoldsAccepted(hw.regs.l2, hw.chip.l2Min) && Holds32(hw.regs.l2)
      invariant hw.NoFault(old(hw.clock), hw.clock) ==> ways <= hw.chip.l2Min && hw.regs.l2 == old(hw.regs.l2)
      invariant bits == None
    {
      TriedMask(ways);
      var taken, halted;
      ret, taken, halted := TryL2(hw, cap, l2id, c, Ones(ways), old(hw.regs.l2));
      if taken {
        bits := Some(ways);
        break;
      }
      if halted {
        break;
      }
      ways := ways + 1;
    }
    ghost var from := hw.clock;
    var restored := RestoreL2(hw, cap, l2id, config[c], old(hw.regs.l2));
    TwoFailures(hw.fails, old(hw.clock), from, hw.clock);
    if restored != Ok {
      ret := restored;
    }
  }

  method HwL2caGetMinCbmBits(hw: Msr, cap: Cap) returns (ret: RetVal, bits: Option<nat>, ghost id: nat, ghost c: nat)
    requires hw.Valid() && Dense(hw.chip.cpu, L2Cluster)
    requires cap.l2.Some? ==> L2Probeable(hw, cap)
    modifies hw
    ensures hw.Valid()
    ensures cap.l2.None? ==> ret == Resource
    ensures L2ProbeStep(old(hw.regs), hw.regs, id, c)
    ensures hw.regs == old(hw.regs) || (0 < c && !CosUsed(hw.chip.cpu, old(hw.regs.assoc), L2Cluster, id, c))
    ensures ret == Ok ==> hw.regs == old(hw.regs)
    ensures hw.NoFault(Before(hw.clock, 1), hw.clock) ==> hw.regs == old(hw.regs)
    ensures hw.regs != old(hw.regs) && bits.None? ==> Failures(hw.fails, old(hw.clock), hw.clock) >= 2
    ensures bits.Some? ==> bits.value >= hw.chip.l2Min
    ensures hw.NoFault(old(hw.clock), hw.clock) && cap.l2.Some? && hw.chip.cpu != [] ==>
      && hw.regs == old(hw.regs)
      && (if SomeFree(hw.chip.cpu, cap, L2_ONLY, old(hw.regs.assoc)) then ret == Ok && bits == Some(hw.chip.l2Min)
          else ret == Resource && bits == None)
  {
    hide ValidRegs, WellFormed, PutAll, HighestFree, Failures;
    bits, id, c := None, 0, 0;
    ProbedRefl(hw.regs.l2, id, false, c);
    if cap.l2.None? {
      return Resource, bits, id, c;
    }
    var l2ids := GetIds(hw.chip.cpu, L2Cluster);
    if |l2ids| == 0 {
      return Error, bits, id, c;
    }
    var l2id, classId;
    ret, l2id, classId := FindFree(hw, cap, L2_ONLY, |l2ids|);
    DenseIds(hw.chip.cpu, L2Cluster);
    if ret != Ok {
      return;
    }
    id, c := l2id, classId;
    ProbedRefl(hw.regs.l2, id, false, c);
    ClassIsFree(hw.chip, hw.regs, L2Cluster, id, HiCos(cap, L2_ONLY).value);
    assert id in l2ids;
    ghost var first := hw.clock;
    ret, bits := ProbeL2(hw, cap, l2id, classId);
    FailuresWithin(hw.fails, old(hw.clock), first, hw.clock);
  }
}
