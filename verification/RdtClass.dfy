/** Defining the class of a CPU group: `cfg_configure_cos` (rdtset/rdt.c). */
module RdtClass {
  import opened Bits
  import opened Results
  import opened Topology
  import opened Registers
  import opened Capabilities
  import opened MbaRate
  import opened ClassConfig
  import opened Api
  import opened RdtConfig

  /** What the code needs of the capability tables. */
  ghost predicate UsableCap(cap: Cap) {
    && cap.L3Classes() <= 16 && cap.L2Classes() <= 16 && cap.MbaClasses() <= 16
    && (cap.l3.Some? ==> cap.l3.value.numWays < 64)
    && (cap.l2.Some? ==> cap.l2.value.numWays < 64)
    && (cap.mba.Some? ==> cap.mba.value.throttleStep > 0)
  }

  // ----- the class definition a configuration stands for -----

  /** The L3 definition of class `c`: the request, or every way when there is none. */
  function L3For(cap: Cap, ca: L3Ca, c: nat): L3Ca
    requires cap.l3.Some? && cap.l3.value.numWays < 64
  {
    OnesFitWord(cap.l3.value.numWays);
    var full := Ones(cap.l3.value.numWays);
    if !L3Valid(ca) then (if cap.CdpOn() then L3Cdp(c, full, full) else L3Ways(c, full))
    else match ca
      case L3Ways(_, m) => L3Ways(c, m)
      case L3Cdp(_, d, m) => L3Cdp(c, d, m)
  }

  function L2For(cap: Cap, ca: L2Ca, c: nat): L2Ca
    requires cap.l2.Some?
  {
    L2Ca(c, if L2Valid(ca) then ca.ways else Ones(cap.l2.value.numWays) % UINT_LIMIT)
  }

  function MbaFor(mba: Mba, c: nat): Mba {
    Mba(c, if MbaValid(mba) then mba.rate else 100)
  }

  function DataMask(ca: L3Ca): Word {
    if ca.L3Cdp? then ca.data else ca.ways
  }

  function CodeMask(ca: L3Ca): Word {
    if ca.L3Cdp? then ca.code else ca.ways
  }

  /** The masks that would be written are runs that the hardware takes or ignores, and the registers exist. */
  ghost predicate Definable(chip: Chip, cap: Cap, cfg: Config)
    requires UsableCap(cap)
  {
    && (cap.l3.Some? ==> L3Definable(chip, cap, L3For(cap, cfg.l3, 0)) && L3RegsUsed(cap) <= chip.l3Regs)
    && (cap.l2.Some? ==>
          cap.L2Classes() <= chip.l2Regs && IsRun(L2For(cap, cfg.l2, 0).ways)
          && (BitCount(L2For(cap, cfg.l2, 0).ways) < chip.l2Min ==> chip.ignoresShort))
    && (cap.mba.Some? ==> cap.mba.value.isLinear && cap.MbaClasses() <= chip.mbaRegs)
  }

  ghost predicate L3Definable(chip: Chip, cap: Cap, ca: L3Ca) {
    && EntryIsRun(ca) && (ca.L3Cdp? ==> cap.CdpOn())
    && (LongEnough(chip, ca) || chip.ignoresShort)
  }

  /** The hardware takes both masks. */
  ghost predicate LongEnough(chip: Chip, ca: L3Ca) {
    BitCount(DataMask(ca)) >= chip.l3Min && BitCount(CodeMask(ca)) >= chip.l3Min
  }

  // ----- what a successful definition leaves in the registers -----

  /** The register shows the mask asked for; if that is too short for the hardware, which ignores it, what it showed at
      the start. */
  ghost predicate Shows(chip: Chip, min: nat, start: Bank, now: Bank, reg: (nat, nat), asked: Word) {
    && reg in start && reg in now
    && (BitCount(asked) >= min ==> now[reg] == asked)
    && (BitCount(asked) < min ==> chip.ignoresShort && now[reg] == start[reg])
  }

  /** Class `c` of the socket has the L3 masks the configuration asks for, as far as the hardware took them. */
  ghost predicate L3Shown(chip: Chip, cap: Cap, start: Bank, now: Bank, socket: nat, c: nat, cfg: Config)
    requires UsableCap(cap)
  {
    cap.l3.Some? && c < cap.L3Classes() ==> EntryShown(chip, cap.CdpOn(), start, now, socket, c, L3For(cap, cfg.l3, c))
  }

  ghost predicate EntryShown(chip: Chip, cdpOn: bool, start: Bank, now: Bank, socket: nat, c: nat, ca: L3Ca) {
    if cdpOn then
      && Shows(chip, chip.l3Min, start, now, (socket, 2 * c), DataMask(ca))
      && Shows(chip, chip.l3Min, start, now, (socket, 2 * c + 1), CodeMask(ca))
    else ca.L3Ways? && Shows(chip, chip.l3Min, start, now, (socket, c), ca.ways)
  }

  ghost predicate L2Shown(chip: Chip, cap: Cap, start: Bank, now: Bank, l2id: nat, c: nat, cfg: Config) {
    cap.l2.Some? && c < cap.L2Classes() ==> Shows(chip, chip.l2Min, start, now, (l2id, c), L2For(cap, cfg.l2, c).ways)
  }

  ghost predicate ThrottleShown(cap: Cap, now: Bank, socket: nat, c: nat, cfg: Config)
    requires UsableCap(cap)
  {
    cap.mba.Some? && c < cap.MbaClasses() ==>
      (socket, c) in now && now[(socket, c)] == MsrThrottle(cap.mba.value, MbaFor(cfg.mba, c).rate)
  }

  /** The request is in force exactly if the hardware takes its masks, or showed the ones it ignores already. */
  lemma RequestInForceIff(chip: Chip, cap: Cap, start: Bank, now: Bank, socket: nat, c: nat, cfg: Config)
    requires UsableCap(cap) && cap.l3.Some? && c < cap.L3Classes()
    requires L3Shown(chip, cap, start, now, socket, c, cfg)
    ensures HasL3Regs(start, socket, cap.CdpOn(), c) && HasL3Regs(now, socket, cap.CdpOn(), c)
    ensures
      var asked, held := L3For(cap, cfg.l3, c), ReadL3(start, socket, cap.CdpOn(), c);
      ReadL3(now, socket, cap.CdpOn(), c) == Normal(cap.CdpOn(), asked) <==>
        && (BitCount(DataMask(asked)) >= chip.l3Min || DataMask(held) == DataMask(asked))
        && (BitCount(CodeMask(asked)) >= chip.l3Min || CodeMask(held) == CodeMask(asked))
    ensures !chip.ignoresShort ==> LongEnough(chip, L3For(cap, cfg.l3, c))
  {
  }

  /** An ignored L2 mask is in force only where it was before. */
  lemma L2InForceIff(chip: Chip, cap: Cap, start: Bank, now: Bank, l2id: nat, c: nat, cfg: Config)
    requires cap.l2.Some? && c < cap.L2Classes() && L2Shown(chip, cap, start, now, l2id, c, cfg)
    ensures (l2id, c) in start && (l2id, c) in now
    ensures
      var asked := L2For(cap, cfg.l2, c).ways;
      now[(l2id, c)] == asked <==> BitCount(asked) >= chip.l2Min || start[(l2id, c)] == asked
  {
  }

  // ----- what changes when one class is configured on one core's socket and cluster -----

  /** Only class `c` of the core's socket and L2 cluster may have a new definition. */
  ghost predicate ClassDefined(cap: Cap, before: Regs, after: Regs, ci: CoreInfo, c: nat) {
    && after.assoc == before.assoc && after.cfg == before.cfg
    && OnlyClass(before.l3, after.l3, ci.socket, cap.CdpOn(), c)
    && OnlyClass(before.l2, after.l2, ci.l2Id, false, c)
    && OnlyClass(before.mba, after.mba, ci.socket, false, c)
  }

  lemma OneWriteOnlyClass(bank: Bank, min: nat, id: nat, c: nat, v: Word, done: seq<(nat, Word)>)
    requires done <= [(c, v)] && (done != [] ==> (id, c) in bank)
    ensures OnlyClass(bank, PutAll(bank, min, id, done), id, false, c)
    ensures done != [] ==> PutAll(bank, min, id, done) == Put(bank, min, id, (c, v))
  {
    hide PutAll;
    PutNone(bank, min, id);
    if done != [] {
      assert done == [] + [(c, v)];
      PutOneMore(bank, min, id, [], (c, v));
    }
  }

  /** `cfg_configure_cos`: defines class `c` for the core's socket and L2 cluster. */
  method CfgConfigureCos(hw: Msr, cap: Cap, cfg: Config, core: nat, c: nat) returns (status: Status)
    requires hw.Valid() && UsableCap(cap)
    modifies hw
    ensures hw.Valid() && hw.clock >= old(hw.clock)
    ensures Lookup(hw.chip.cpu, core).None? ==> status != Success && hw.regs == old(hw.regs)
    ensures Lookup(hw.chip.cpu, core).Some? ==>
      ClassDefined(cap, old(hw.regs), hw.regs, Lookup(hw.chip.cpu, core).value, c)
    ensures status == Success ==>
      ClassShown(hw.chip, cap, old(hw.regs), hw.regs, Lookup(hw.chip.cpu, core).value, c, cfg)
    ensures hw.NoFault(old(hw.clock), hw.clock) && Definable(hw.chip, cap, cfg) && (cap.l2.Some? || cap.l3.Some?)
      && Lookup(hw.chip.cpu, core).Some?
      ==> status == Success
  {
    hide ValidRegs, WellFormed, PutAll, OnlyClass, MsrThrottle, Definable, Shows, L3For, L2For;
    if cap.l2.None? && cap.l3.None? {
      OnlyClassAll(cap, hw.regs, hw.chip.cpu, core, c);
      return Fault;
    }
    var info := GetCoreInfo(hw.chip.cpu, core);
    if info.None? {
      return InvalidArgument;
    }
    var ci := info.value;
    OnlyClassAll(cap, hw.regs, hw.chip.cpu, core, c);
    if cap.l3.Some? && cap.l3.value.numClasses > c {
      status := DefineL3(hw, cap, cfg, ci, c);
      if status != Success {
        return;
      }
    }
    if cap.l2.Some? && cap.l2.value.numClasses > c {
      status := DefineL2(hw, cap, cfg, ci, c);
      if status != Success {
        return;
      }
    }
    if cap.mba.Some? && cap.mba.value.numClasses > c {
      status := DefineMba(hw, cap, cfg, ci, c);
      if status != Success {
        return;
      }
    }
    status := Success;
  }

  /** All three definitions of class `c`, on the core's socket and L2 cluster. */
  ghost predicate ClassShown(chip: Chip, cap: Cap, start: Regs, now: Regs, ci: CoreInfo, c: nat, cfg: Config)
    requires UsableCap(cap)
  {
    && L3Shown(chip, cap, start.l3, now.l3, ci.socket, c, cfg)
    && L2Shown(chip, cap, start.l2, now.l2, ci.l2Id, c, cfg)
    && ThrottleShown(cap, now.mba, ci.socket, c, cfg)
  }

  lemma OnlyClassAll(cap: Cap, r: Regs, cpu: seq<CoreInfo>, core: nat, c: nat)
    ensures Lookup(cpu, core).Some? ==> ClassDefined(cap, r, r, Lookup(cpu, core).value, c)
  {
  }

  method DefineL3(hw: Msr, cap: Cap, cfg: Config, ci: CoreInfo, c: nat) returns (status: Status)
    requires hw.Valid() && UsableCap(cap) && ci in hw.chip.cpu && cap.l3.Some? && c < cap.L3Classes()
    modifies hw
    ensures hw.Valid() && hw.clock >= old(hw.clock)
    ensures hw.regs == old(hw.regs).(l3 := hw.regs.l3)
    ensures OnlyClass(old(hw.regs.l3), hw.regs.l3, ci.socket, cap.CdpOn(), c)
    ensures status == Success ==> L3Shown(hw.chip, cap, old(hw.regs.l3), hw.regs.l3, ci.socket, c, cfg)
    ensures hw.NoFault(old(hw.clock), hw.clock) && Definable(hw.chip, cap, cfg) ==> status == Success
  {
    hide ValidRegs, WellFormed, PutAll, OnlyClass, L3Writes, EntryShown;
    var ca := L3For(cap, cfg.l3, c);
    var ret;
    ghost var ws;
    OneEntryWrites(cap.CdpOn(), ca);
    ret, ws := PqosL3caSet(hw, cap, ci.socket, [ca]);
    assert [ca][0] == ca;
    L3Allowed(hw.chip, old(hw.regs), cap, cfg, ci, c);
    L3OneEntry(hw.chip, old(hw.regs), ci.socket, cap.CdpOn(), ca, ws);
    status := if ret == Ok then Success else Fault;
  }

  lemma L3Allowed(chip: Chip, r: Regs, cap: Cap, cfg: Config, ci: CoreInfo, c: nat)
    requires ValidRegs(chip, r) && UsableCap(cap) && ci in chip.cpu && cap.l3.Some? && c < cap.L3Classes()
    ensures IdOf(ci, Socket) == ci.socket && HasId(chip.cpu, Socket, ci.socket)
    ensures Definable(chip, cap, cfg) ==>
      var ca := L3For(cap, cfg.l3, c);
      EntryIsRun(ca) && L3SetAllowed(chip, cap, ci.socket, [ca]) && EntriesWritable(chip, cap.CdpOn(), [ca])
  {
    hide ValidRegs, WellFormed, IsRun, BitCount, EntriesWritable, L3SetAllowed;
    assert IdOf(ci, Socket) == ci.socket;
    if Definable(chip, cap, cfg) {
      var ca := L3For(cap, cfg.l3, c);
      assert EntryIsRun(ca) && (LongEnough(chip, ca) || chip.ignoresShort);
      L3Single(chip, r, cap, ci.socket, ca);
    }
  }

  lemma L3OneEntry(chip: Chip, r: Regs, socket: nat, cdpOn: bool, ca: L3Ca, ws: seq<(nat, Word)>)
    requires ValidRegs(chip, r) && HasId(chip.cpu, Socket, socket)
    requires ws <= L3Entry(cdpOn, ca) && AllWritable(chip, L3Masks, ws)
    ensures OnlyClass(r.l3, PutAll(r.l3, chip.l3Min, socket, ws), socket, cdpOn, ca.classId)
    ensures ws == L3Entry(cdpOn, ca) && (ca.L3Cdp? ==> cdpOn) ==>
      EntryShown(chip, cdpOn, r.l3, PutAll(r.l3, chip.l3Min, socket, ws), socket, ca.classId, ca)
  {
    hide PutAll, ValidRegs, WellFormed, OnlyClass, EntryShown, BitCount, HasId;
    forall i | 0 <= i < |ws| ensures (socket, ws[i].0) in r.l3 {
      assert Writable(chip, L3Masks, ws[i]);
      InBank(chip, r, L3Masks, socket, ws[i].0);
    }
    PrefixTouches(r.l3, chip.l3Min, socket, cdpOn, ca.classId, ws, ws);
    if ws == L3Entry(cdpOn, ca) && (ca.L3Cdp? ==> cdpOn) {
      EntryPut(chip, r.l3, socket, cdpOn, ca);
    }
  }

  lemma EntryPut(chip: Chip, bank: Bank, socket: nat, cdpOn: bool, ca: L3Ca)
    requires ca.L3Cdp? ==> cdpOn
    requires AllWritable(chip, L3Masks, L3Entry(cdpOn, ca))
    requires forall i :: 0 <= i < |L3Entry(cdpOn, ca)| ==> (socket, L3Entry(cdpOn, ca)[i].0) in bank
    ensures EntryShown(chip, cdpOn, bank, PutAll(bank, chip.l3Min, socket, L3Entry(cdpOn, ca)), socket, ca.classId, ca)
  {
    hide PutAll, BitCount;
    var ws := L3Entry(cdpOn, ca);
    assert Writable(chip, L3Masks, ws[0]);
    PutNone(bank, chip.l3Min, socket);
    PutOneMore(bank, chip.l3Min, socket, [], ws[0]);
    assert [] + [ws[0]] == [ws[0]];
    if cdpOn {
      assert Writable(chip, L3Masks, ws[1]);
      PutOneMore(bank, chip.l3Min, socket, [ws[0]], ws[1]);
      assert ws == [ws[0]] + [ws[1]];
    }
  }

  method DefineL2(hw: Msr, cap: Cap, cfg: Config, ci: CoreInfo, c: nat) returns (status: Status)
    requires hw.Valid() && UsableCap(cap) && ci in hw.chip.cpu && cap.l2.Some? && c < cap.L2Classes()
    modifies hw
    ensures hw.Valid() && hw.clock >= old(hw.clock)
    ensures hw.regs == old(hw.regs).(l2 := hw.regs.l2)
    ensures OnlyClass(old(hw.regs.l2), hw.regs.l2, ci.l2Id, false, c)
    ensures status == Success ==> L2Shown(hw.chip, cap, old(hw.regs.l2), hw.regs.l2, ci.l2Id, c, cfg)
    ensures hw.NoFault(old(hw.clock), hw.clock) && Definable(hw.chip, cap, cfg) ==> status == Success
  {
    hide ValidRegs, WellFormed, PutAll, OnlyClass;
    var ca := L2For(cap, cfg.l2, c);
    var ret;
    ghost var ws;
    assert L2Writes([ca]) == [(c, ca.ways as Word)];
    InBank(hw.chip, hw.regs, L2Masks, ci.l2Id, c);
    ret, ws := PqosL2caSet(hw, cap, ci.l2Id, [ca]);
    assert ws != [] ==> ws[0] == (c, ca.ways as Word) && Writable(hw.chip, L2Masks, ws[0]);
    OneWriteOnlyClass(old(hw.regs.l2), hw.chip.l2Min, ci.l2Id, c, ca.ways, ws);
    status := if ret == Ok then Success else Fault;
  }

  method DefineMba(hw: Msr, cap: Cap, cfg: Config, ci: CoreInfo, c: nat) returns (status: Status)
    requires hw.Valid() && UsableCap(cap) && ci in hw.chip.cpu && cap.mba.Some? && c < cap.MbaClasses()
    modifies hw
    ensures hw.Valid() && hw.clock >= old(hw.clock)
    ensures hw.regs == old(hw.regs).(mba := hw.regs.mba)
    ensures OnlyClass(old(hw.regs.mba), hw.regs.mba, ci.socket, false, c)
    ensures status == Success ==> ThrottleShown(cap, hw.regs.mba, ci.socket, c, cfg)
    ensures hw.NoFault(old(hw.clock), hw.clock) && Definable(hw.chip, cap, cfg) ==> status == Success
  {
    hide ValidRegs, WellFormed, PutAll, OnlyClass, MsrThrottle;
    var mba := MbaFor(cfg.mba, c);
    var ret, actual;
    ghost var ws;
    assert MbaWrites(cap, [mba]) == [(c, MsrThrottle(cap.mba.value, mba.rate))];
    InBank(hw.chip, hw.regs, Throttles, ci.socket, c);
    ret, actual, ws := PqosMbaSet(hw, cap, ci.socket, [mba], true);
    assert ws != [] ==> ws[0] == (c, MsrThrottle(cap.mba.value, mba.rate)) && Writable(hw.chip, Throttles, ws[0]);
    OneWriteOnlyClass(old(hw.regs.mba), 0, ci.socket, c, MsrThrottle(cap.mba.value, mba.rate), ws);
    status := if ret == Ok then Success else Fault;
  }
}
