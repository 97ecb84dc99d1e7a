/** `hw_alloc_reset`: full masks, no throttling, class 0 everywhere, and CDP as requested. */
module AllocReset {
  import opened Bits
  import opened Results
  import opened Topology
  import opened Registers
  import opened Capabilities
  import opened CosAssign

  datatype CdpConfig = CdpOff | CdpOn | CdpAny

  // ----- what a reset does to each part of the state -----

  /** Registers 0..num-1 of the given banks hold `val`; the others are as before. */
  ghost function Filled(bank: Bank, ids: set<nat>, num: nat, val: Word): (r: Bank)
    ensures r.Keys == bank.Keys
  {
    map k: (nat, nat) | k in bank :: if k.0 in ids && k.1 < num then val else bank[k]
  }

  /** Some registers hold `val`; the others are as before. */
  ghost predicate PartlyFilled(old_: Bank, new_: Bank, val: Word) {
    new_.Keys == old_.Keys && forall k :: k in new_ ==> new_[k] == old_[k] || new_[k] == val
  }

  predicate CdpBit(w: Word) {
    w % 2 == 1
  }

  function WithCdpBit(w: Word, on: bool): (r: Word)
    ensures CdpBit(r) == on && r / 2 == w / 2
  {
    if on then w / 2 * 2 + 1 else w / 2 * 2
  }

  ghost function Switched(cfg: map<nat, Word>, sockets: set<nat>, on: bool): (r: map<nat, Word>)
    ensures r.Keys == cfg.Keys
  {
    map s | s in cfg :: if s in sockets then WithCdpBit(cfg[s], on) else cfg[s]
  }

  ghost function SocketSet(cpu: seq<CoreInfo>): set<nat> {
    Members(Ids(cpu, Socket))
  }

  /** The CDP change a reset makes, if any. */
  function CdpSwitch(cap: Cap, req: CdpConfig): Option<bool> {
    if cap.l3.Some? && req == CdpOn && !cap.l3.value.cdpOn then Some(true)
    else if cap.l3.Some? && req == CdpOff && cap.l3.value.cdpOn && cap.l3.value.cdp then Some(false)
    else None
  }

  function CapAfter(cap: Cap, req: CdpConfig): Cap {
    match CdpSwitch(cap, req)
    case None => cap
    case Some(on) =>
      var l3 := cap.l3.value;
      cap.(l3 := Some(l3.(cdpOn := on, numClasses := if on then l3.numClasses / 2 else l3.numClasses * 2)))
  }

  /** The cached CDP flag is the hardware's on every socket. */
  ghost predicate CdpAgrees(r: Regs, cap: Cap) {
    forall s :: s in r.cfg ==> (CdpBit(r.cfg[s]) <==> cap.CdpOn())
  }

  /** Requests refused before any register is touched. */
  function Refusal(cap: Cap, req: CdpConfig): Option<RetVal> {
    if cap.l2.None? && cap.l3.None? && cap.mba.None? then Some(Resource)
    else if cap.l3.None? && req != CdpAny then Some(Resource)
    else if cap.l3.Some? && req == CdpOn && !cap.l3.value.cdp then Some(Param)
    else None
  }

  /** The hardware takes the full masks of the capability tables. */
  ghost predicate FullMasksFit(chip: Chip, cap: Cap) {
    && (cap.l3.Some? ==> chip.l3Min <= cap.l3.value.numWays < 64)
    && (cap.l2.Some? ==> chip.l2Min <= cap.l2.value.numWays < 64)
  }

  function FullMask(numWays: nat): Word
    requires numWays < 64
  {
    OnesFitWord(numWays);
    Ones(numWays)
  }

  /** Number of L3 mask registers a reset writes. */
  function MaxL3Cos(cap: Cap): nat {
    if cap.l3.Some? && cap.l3.value.cdp && cap.l3.value.cdpOn then cap.L3Classes() * 2 else cap.L3Classes()
  }

  /** What a successful reset leaves behind. */
  ghost function ResetRegs(chip: Chip, r: Regs, cap: Cap, req: CdpConfig): Regs
    requires FullMasksFit(chip, cap)
  {
    var sockets, l2ids := SocketSet(chip.cpu), Members(Ids(chip.cpu, L2Cluster));
    Regs(
      Retag(r.assoc, Lcores(chip.cpu), 0),
      if cap.l3.None? then r.l3
      else Filled(r.l3, sockets, MaxL3Cos(cap), FullMask(cap.l3.value.numWays)),
      if cap.l2.None? then r.l2 else Filled(r.l2, l2ids, cap.L2Classes(), FullMask(cap.l2.value.numWays)),
      if cap.mba.None? then r.mba else Filled(r.mba, sockets, cap.MbaClasses(), 0),
      match CdpSwitch(cap, req) case None => r.cfg case Some(on) => Switched(r.cfg, sockets, on))
  }

  /** What a failed reset leaves behind: it got into the masks and throttles, or through them into the
      associations, or through those into the CDP bits, of which it never switched all. */
  ghost predicate ResetPartly(chip: Chip, before: Regs, cap: Cap, req: CdpConfig, after: Regs)
    requires FullMasksFit(chip, cap)
  {
    exists moved: set<nat>, switched: set<nat> :: CutAt(chip, before, cap, req, moved, switched, after)
  }

  ghost predicate CutAt(chip: Chip, before: Regs, cap: Cap, req: CdpConfig, moved: set<nat>, switched: set<nat>,
      after: Regs)
    requires FullMasksFit(chip, cap)
  {
    && BanksReset(chip, before, cap, moved != {}, after)
    && moved <= Lcores(chip.cpu) && after.assoc == Retag(before.assoc, moved, 0)
    && (moved == Lcores(chip.cpu) ==> CdpSwitch(cap, req).Some?)
    && switched < SocketSet(chip.cpu) && after.cfg == CfgAfter(before, cap, req, switched)
    && (switched != {} ==> moved == Lcores(chip.cpu))
  }

  /** The CDP registers after a change on some sockets, if there is one. */
  ghost function CfgAfter(before: Regs, cap: Cap, req: CdpConfig, done: set<nat>): map<nat, Word> {
    match CdpSwitch(cap, req) case None => before.cfg case Some(on) => Switched(before.cfg, done, on)
  }

  ghost predicate ResetStep(chip: Chip, before: Regs, cap: Cap, req: CdpConfig, ret: RetVal, after: Regs, cap': Cap)
    requires FullMasksFit(chip, cap)
  {
    if Refusal(cap, req).Some? then ret == Refusal(cap, req).value && after == before && cap' == cap
    else if chip.cpu == [] then ret == Ok && after == before && cap' == cap
    else if ret == Ok then after == ResetRegs(chip, before, cap, req) && cap' == CapAfter(cap, req)
    else ret == Error && ResetPartly(chip, before, cap, req, after) && cap' == cap
  }

  // ----- what a successful reset comes to -----

  /** CDP as asked for: on everywhere, off everywhere, or left alone; other bits and tables stay. A switch halves or
      doubles the classes. */
  ghost predicate CdpAsAsked(before: Regs, l3: L3Cap, req: CdpConfig, after: Regs, l3': L3Cap) {
    var agreed := forall s :: s in before.cfg ==> (before.cfg[s] % 2 == 1 <==> l3.cdpOn);
    && after.cfg.Keys == before.cfg.Keys && (forall s :: s in before.cfg ==> after.cfg[s] / 2 == before.cfg[s] / 2)
    && l3'.numWays == l3.numWays && l3'.cdp == l3.cdp
    && match req
       case CdpAny => after.cfg == before.cfg && l3' == l3
       case CdpOn =>
         && l3'.cdpOn && (agreed ==> forall s :: s in after.cfg ==> after.cfg[s] % 2 == 1)
         && l3'.numClasses == if l3.cdpOn then l3.numClasses else l3.numClasses / 2
       case CdpOff =>
         && !l3'.cdpOn && (agreed ==> forall s :: s in after.cfg ==> after.cfg[s] % 2 == 0)
         && l3'.numClasses == if l3.cdpOn then l3.numClasses * 2 else l3.numClasses
  }

  /** CDP is on only where it is supported. */
  ghost predicate CdpPlausible(cap: Cap) {
    cap.l3.Some? && (cap.l3.value.cdpOn ==> cap.l3.value.cdp)
  }

  lemma CdpCarriedOut(chip: Chip, r: Regs, cap: Cap, req: CdpConfig)
    requires ValidRegs(chip, r) && FullMasksFit(chip, cap) && Refusal(cap, req).None? && cap.l3.Some?
    requires cap.l3.value.cdpOn ==> cap.l3.value.cdp
    ensures
      var cap' := CapAfter(cap, req);
      && cap'.l3.Some? && cap'.l2 == cap.l2 && cap'.mba == cap.mba
      && CdpAsAsked(r, cap.l3.value, req, ResetRegs(chip, r, cap, req), cap'.l3.value)
  {
    hide Filled, Retag, FullMask;
    forall s | s in r.cfg ensures s in SocketSet(chip.cpu) {
      assert HasId(chip.cpu, Socket, s);
    }
  }

  /** In the first `num` registers of the bank, wherever they are, `val`; the rest stay. */
  ghost predicate FirstHold(before: Bank, num: nat, val: nat, after: Bank) {
    after.Keys == before.Keys && forall k: (nat, nat) :: k in before ==>
      after[k] == if k.1 < num then val else before[k]
  }

  /** Every core in class 0 with its RMID, every class of every socket and cluster all ways and no throttle. */
  ghost predicate AllReset(before: Regs, cap: Cap, after: Regs)
  {
    && after.assoc.Keys == before.assoc.Keys
    && (forall l :: l in before.assoc ==> after.assoc[l] == before.assoc[l] % 0x1_0000_0000)
    && (cap.l3.None? ==> after.l3 == before.l3) && (cap.l2.None? ==> after.l2 == before.l2)
    && (cap.mba.None? ==> after.mba == before.mba)
    && (cap.l3.Some? ==>
          var l3 := cap.l3.value;
          FirstHold(before.l3, if l3.cdp && l3.cdpOn then 2 * l3.numClasses else l3.numClasses, Pow2(l3.numWays) - 1,
            after.l3))
    && (cap.l2.Some? ==> FirstHold(before.l2, cap.l2.value.numClasses, Pow2(cap.l2.value.numWays) - 1, after.l2))
    && (cap.mba.Some? ==> FirstHold(before.mba, cap.mba.value.numClasses, 0, after.mba))
  }

  lemma ResetCarriedOut(chip: Chip, r: Regs, cap: Cap, req: CdpConfig)
    requires ValidRegs(chip, r) && FullMasksFit(chip, cap)
    ensures AllReset(r, cap, ResetRegs(chip, r, cap, req))
  {
    hide Switched, CdpSwitch, Pow2, Filled, FirstHold, HasBank, Retag, WithCos;
    FilledEverywhere(chip.cpu, Socket, chip.l3Regs, r.l3);
    FilledEverywhere(chip.cpu, Socket, chip.mbaRegs, r.mba);
    FilledEverywhere(chip.cpu, L2Cluster, chip.l2Regs, r.l2);
    AllReleased(r.assoc, Lcores(chip.cpu));
  }

  lemma FilledEverywhere(cpu: seq<CoreInfo>, scope: Scope, size: nat, bank: Bank)
    requires HasBank(cpu, scope, size, bank)
    ensures forall num: nat, val: Word :: FirstHold(bank, num, val, Filled(bank, Members(Ids(cpu, scope)), num, val))
  {
  }

  lemma AllReleased(assoc: map<nat, Word>, cores: set<nat>)
    requires assoc.Keys == cores
    ensures forall l :: l in assoc ==> Retag(assoc, cores, 0)[l] == assoc[l] % 0x1_0000_0000
  {
  }

  lemma FilledUnion(bank: Bank, ids: set<nat>, id: nat, num: nat, val: Word)
    ensures Filled(Filled(bank, ids, num, val), {id}, num, val) == Filled(bank, ids + {id}, num, val)
  {
  }

  lemma NoneFilled(bank: Bank, id: nat, val: Word)
    ensures Filled(bank, {id}, 0, val) == bank && PartlyFilled(bank, bank, val)
  {
  }

  lemma FilledOneMore(bank: Bank, now: Bank, id: nat, num: nat, val: Word)
    requires PartlyFilled(bank, now, val)
    ensures (id, num) in now ==> PartlyFilled(bank, now[(id, num) := val], val)
    ensures (id, num) in now && now == Filled(bank, {id}, num, val) ==>
      now[(id, num) := val] == Filled(bank, {id}, num + 1, val)
  {
  }

  lemma NoneSwitched(cfg: map<nat, Word>, on: bool)
    ensures Switched(cfg, {}, on) == cfg
  {
  }

  /** The CDP register of a socket, through the socket's first core. */
  lemma CfgAccess(chip: Chip, r: Regs, socket: nat)
    requires ValidRegs(chip, r) && HasId(chip.cpu, Socket, socket)
    ensures var core := First(chip.cpu, Socket, socket).value.lcore;
      && socket in r.cfg
      && Present(chip, core, L3QosCfg) && Fetch(chip, r, core, L3QosCfg) == r.cfg[socket]
      && forall v: Word ::
           Accepts(chip, core, L3QosCfg, v) && Store(chip, r, core, L3QosCfg, v) == r.(cfg := r.cfg[socket := v])
  {
    LookupIsUnique(chip.cpu, First(chip.cpu, Socket, socket).value);
  }

  lemma SwitchedUnion(cfg: map<nat, Word>, done: set<nat>, s: nat, on: bool)
    requires s in cfg
    ensures Switched(cfg, done, on)[s := WithCdpBit(Switched(cfg, done, on)[s], on)] == Switched(cfg, done + {s}, on)
  {
  }

  // ----- the operation -----

  /** Writes one value to the first `num` registers of a bank, going on after failures. */
  method CosReset(hw: Msr, kind: Kind, id: nat, core: nat, num: nat, val: Word) returns (ok: bool)
    requires hw.Valid() && BitCount(val) >= kind.Min(hw.chip)
    requires First(hw.chip.cpu, kind.Scope(), id).Some? && core == First(hw.chip.cpu, kind.Scope(), id).value.lcore
    modifies hw
    ensures hw.Valid() && hw.clock >= old(hw.clock)
    ensures hw.regs == kind.With(old(hw.regs), kind.Of(hw.regs))
    ensures ok ==> kind.Of(hw.regs) == Filled(kind.Of(old(hw.regs)), {id}, num, val)
    ensures PartlyFilled(kind.Of(old(hw.regs)), kind.Of(hw.regs), val)
    ensures hw.NoFault(old(hw.clock), hw.clock) && num <= kind.Size(hw.chip) ==> ok
  {
    hide ValidRegs, WellFormed, PutAll, Filled, PartlyFilled;
    ok := true;
    ghost var bank := kind.Of(hw.regs);
    assert kind.With(hw.regs, bank) == hw.regs;
    NoneFilled(bank, id, val);
    for i := 0 to num
      invariant hw.Valid() && hw.clock >= old(hw.clock)
      invariant hw.regs == kind.With(old(hw.regs), kind.Of(hw.regs))
      invariant ok ==> kind.Of(hw.regs) == Filled(bank, {id}, i, val)
      invariant PartlyFilled(bank, kind.Of(hw.regs), val)
      invariant hw.NoFault(old(hw.clock), hw.clock) && num <= kind.Size(hw.chip) ==> ok
    {
      InBank(hw.chip, hw.regs, kind, id, i);
      StoreInBank(hw.chip, hw.regs, kind, id, core, (i, val));
      WithTwice(kind, old(hw.regs), kind.Of(hw.regs), Put(kind.Of(hw.regs), kind.Min(hw.chip), id, (i, val)));
      FilledOneMore(bank, kind.Of(hw.regs), id, i, val);
      var written := hw.Write(core, kind.At(i), val);
      if !written {
        ok := false;
      }
    }
  }

  /** The same over every socket or cluster, stopping at the first one with a failure. */
  method ResetBanks(hw: Msr, kind: Kind, ids: seq<nat>, num: nat, val: Word) returns (ok: bool)
    requires hw.Valid() && BitCount(val) >= kind.Min(hw.chip)
    requires ids == Ids(hw.chip.cpu, kind.Scope())
    modifies hw
    ensures hw.Valid() && hw.clock >= old(hw.clock)
    ensures hw.regs == kind.With(old(hw.regs), kind.Of(hw.regs))
    ensures ok ==> kind.Of(hw.regs) == Filled(kind.Of(old(hw.regs)), Members(ids), num, val)
    ensures PartlyFilled(kind.Of(old(hw.regs)), kind.Of(hw.regs), val)
    ensures hw.NoFault(old(hw.clock), hw.clock) && num <= kind.Size(hw.chip) ==> ok
  {
    hide ValidRegs, WellFormed, PutAll;
    ok := true;
    ghost var bank := kind.Of(hw.regs);
    assert kind.With(hw.regs, bank) == hw.regs;
    assert Filled(bank, Members(ids[..0]), num, val) == bank;
    for j := 0 to |ids|
      invariant hw.Valid() && hw.clock >= old(hw.clock) && ok
      invariant hw.regs == kind.With(old(hw.regs), kind.Of(hw.regs))
      invariant kind.Of(hw.regs) == Filled(bank, Members(ids[..j]), num, val)
    {
      assert ids[j] in ids;
      var core := GetOne(hw.chip.cpu, kind.Scope(), ids[j]);
      ok := CosReset(hw, kind, ids[j], core.value, num, val);
      if !ok {
        return;
      }
      MembersOneMore(ids, j);
      FilledUnion(bank, Members(ids[..j]), ids[j], num, val);
    }
    assert ids[..|ids|] == ids;
  }

  /** Associates every core with class 0, going on after failures: each core missed takes a failing access. */
  method AssocReset(hw: Msr) returns (ok: bool, ghost done: set<nat>)
    requires hw.Valid()
    modifies hw
    ensures hw.Valid() && hw.clock >= old(hw.clock)
    ensures if ok then done == Lcores(hw.chip.cpu) else done < Lcores(hw.chip.cpu)
    ensures BestEffort(hw.fails, old(hw.clock), hw.clock, Lcores(hw.chip.cpu), done)
    ensures hw.regs == old(hw.regs).(assoc := Retag(old(hw.regs.assoc), done, 0))
    ensures CosStep(hw.chip.cpu, old(hw.regs.assoc), ReleaseCall(done), hw.regs.assoc)
    ensures hw.NoFault(old(hw.clock), hw.clock) ==> ok
  {
    hide BestEffort, Failures, Retag, ValidRegs, WellFormed, Lcores;
    ok, done := true, {};
    var cpu := hw.chip.cpu;
    ShapeOf(hw.chip, hw.regs);
    RetagNone(hw.regs.assoc, 0);
    NothingWanted(hw.fails, hw.clock, hw.clock, {});
    NoLcores(cpu);
    ghost var seen: set<nat> := {};
    for i := 0 to |cpu|
      invariant hw.Valid() && hw.clock >= old(hw.clock)
      invariant seen == Lcores(cpu[..i])
      invariant BestEffort(hw.fails, old(hw.clock), hw.clock, seen, done)
      invariant done <= seen && (ok <==> done == seen)
      invariant hw.regs == old(hw.regs).(assoc := Retag(old(hw.regs.assoc), done, 0))
      invariant hw.NoFault(old(hw.clock), hw.clock) ==> ok
    {
      LcoresOneMore(cpu, i);
      ghost var from, reached, l := hw.clock, done, cpu[i].lcore;
      var r := CosAssocSet(hw, cpu[i].lcore, 0);
      if r != Ok {
        ok := false;
      } else {
        RetagOne(old(hw.regs.assoc), done, l, 0);
        done := done + {l};
      }
      OneMoreMissed(hw.fails, old(hw.clock), from, hw.clock, seen, reached, l, done);
      seen := seen + {l};
    }
    assert cpu[..|cpu|] == cpu;
  }

  /** Sets or clears the CDP enable bit through one core of each socket. */
  method CdpEnable(hw: Msr, sockets: seq<nat>, on: bool) returns (ok: bool, ghost done: set<nat>)
    requires hw.Valid() && sockets == Ids(hw.chip.cpu, Socket)
    modifies hw
    ensures hw.Valid() && hw.clock >= old(hw.clock)
    ensures if ok then done == Members(sockets) else done < Members(sockets)
    ensures hw.regs == old(hw.regs).(cfg := Switched(old(hw.regs.cfg), done, on))
    ensures hw.NoFault(old(hw.clock), hw.clock) ==> ok
  {
    hide WellFormed, ValidRegs, Switched;
    ok, done := true, {};
    NoneSwitched(hw.regs.cfg, on);
    for j := 0 to |sockets|
      invariant hw.Valid() && hw.clock >= old(hw.clock) && ok
      invariant done == Members(sockets[..j])
      invariant hw.regs == old(hw.regs).(cfg := Switched(old(hw.regs.cfg), done, on))
    {
      assert sockets[j] in sockets && sockets[j] in Members(sockets) && sockets[j] !in sockets[..j];
      assert done < Members(sockets);
      var core := GetOne(hw.chip.cpu, Socket, sockets[j]);
      CfgAccess(hw.chip, hw.regs, sockets[j]);
      var reg;
      ok, reg := hw.Read(core.value, L3QosCfg);
      if !ok {
        return;
      }
      ok := hw.Write(core.value, L3QosCfg, WithCdpBit(reg, on));
      if !ok {
        return;
      }
      MembersOneMore(sockets, j);
      SwitchedUnion(old(hw.regs.cfg), done, sockets[j], on);
      done := done + {sockets[j]};
    }
    assert sockets[..|sockets|] == sockets;
  }

  /** Resets all class definitions: L3 masks, then L2 masks, then throttles. */
  method FillAll(hw: Msr, cap: Cap, sockets: seq<nat>) returns (ok: bool)
    requires hw.Valid() && FullMasksFit(hw.chip, cap) && sockets == Ids(hw.chip.cpu, Socket)
    modifies hw
    ensures hw.Valid() && hw.clock >= old(hw.clock)
    ensures hw.regs.assoc == old(hw.regs.assoc) && hw.regs.cfg == old(hw.regs.cfg)
    ensures BanksReset(hw.chip, old(hw.regs), cap, ok, hw.regs)
    ensures hw.NoFault(old(hw.clock), hw.clock) && MaxL3Cos(cap) <= hw.chip.l3Regs
      && cap.L2Classes() <= hw.chip.l2Regs && cap.MbaClasses() <= hw.chip.mbaRegs
      ==> ok
  {
    hide ValidRegs, WellFormed, Filled, PartlyFilled;
    PartlyUnfilled(hw.regs, 0);
    ok := true;
    if cap.l3.Some? {
      OnesCount(cap.l3.value.numWays);
      PartlyUnfilled(hw.regs, FullMask(cap.l3.value.numWays));
      ok := ResetBanks(hw, L3Masks, sockets, MaxL3Cos(cap), FullMask(cap.l3.value.numWays));
    }
    if cap.l2.Some? {
      OnesCount(cap.l2.value.numWays);
      PartlyUnfilled(hw.regs, FullMask(cap.l2.value.numWays));
      if !ok {
        return;
      }
      var l2ids := GetIds(hw.chip.cpu, L2Cluster);
      ok := ResetBanks(hw, L2Masks, l2ids, cap.L2Classes(), FullMask(cap.l2.value.numWays));
    }
    if !ok {
      return;
    }
    if cap.mba.Some? {
      ok := ResetBanks(hw, Throttles, sockets, cap.MbaClasses(), 0);
    }
  }

  ghost predicate BanksReset(chip: Chip, before: Regs, cap: Cap, ok: bool, after: Regs)
    requires FullMasksFit(chip, cap)
  {
    var goal := ResetRegs(chip, before, cap, CdpAny);
    && (ok ==> after.l3 == goal.l3 && after.l2 == goal.l2 && after.mba == goal.mba)
    && (if cap.l3.None? then after.l3 == before.l3
        else PartlyFilled(before.l3, after.l3, FullMask(cap.l3.value.numWays)))
    && (if cap.l2.None? then after.l2 == before.l2
        else PartlyFilled(before.l2, after.l2, FullMask(cap.l2.value.numWays)))
    && PartlyFilled(before.mba, after.mba, 0)
  }

  lemma PartlyUnfilled(r: Regs, val: Word)
    ensures PartlyFilled(r.l3, r.l3, val) && PartlyFilled(r.l2, r.l2, val) && PartlyFilled(r.mba, r.mba, val)
  {
  }

  lemma CarriedOut(chip: Chip, before: Regs, cap: Cap, req: CdpConfig, after: Regs)
    requires FullMasksFit(chip, cap) && BanksReset(chip, before, cap, true, after)
    requires after.assoc == Retag(before.assoc, Lcores(chip.cpu), 0)
    requires after.cfg == CfgAfter(before, cap, req, SocketSet(chip.cpu))
    ensures after == ResetRegs(chip, before, cap, req)
  {
    hide Retag, Switched, PartlyFilled, FullMask, Filled;
  }

  lemma SomeSocket(cpu: seq<CoreInfo>)
    requires Ids(cpu, Socket) != []
    ensures SocketSet(cpu) != {} && Lcores(cpu) != {}
  {
    assert Ids(cpu, Socket)[0] in SocketSet(cpu);
    assert HasId(cpu, Socket, Ids(cpu, Socket)[0]);
    var c :| c in cpu;
    assert c.lcore in Lcores(cpu);
  }

  /** A complete bank part is also one that may be incomplete. */
  lemma Unfinished(chip: Chip, before: Regs, cap: Cap, after: Regs)
    requires FullMasksFit(chip, cap) && BanksReset(chip, before, cap, true, after)
    ensures BanksReset(chip, before, cap, false, after)
  {
    hide PartlyFilled, ResetRegs, FullMask;
  }

  /** The bank part of a reset does not depend on associations and CDP bits. */
  lemma SameBanks(chip: Chip, before: Regs, cap: Cap, ok: bool, a: Regs, b: Regs)
    requires FullMasksFit(chip, cap) && BanksReset(chip, before, cap, ok, a)
    requires b.l3 == a.l3 && b.l2 == a.l2 && b.mba == a.mba
    ensures BanksReset(chip, before, cap, ok, b)
  {
    hide PartlyFilled, ResetRegs, FullMask;
  }

  /** A reset that stopped: `moved` reached class 0 and `switched` the new CDP bit. */
  lemma StoppedAt(chip: Chip, before: Regs, cap: Cap, req: CdpConfig, moved: set<nat>, switched: set<nat>, after: Regs)
    requires FullMasksFit(chip, cap) && BanksReset(chip, before, cap, moved != {}, after)
    requires moved <= Lcores(chip.cpu) && after.assoc == Retag(before.assoc, moved, 0)
    requires moved == Lcores(chip.cpu) ==> CdpSwitch(cap, req).Some?
    requires switched < SocketSet(chip.cpu) && after.cfg == CfgAfter(before, cap, req, switched)
    requires switched != {} ==> moved == Lcores(chip.cpu)
    ensures ResetPartly(chip, before, cap, req, after)
  {
    hide BanksReset, Retag, CfgAfter, CdpSwitch, Lcores, SocketSet;
    assert CutAt(chip, before, cap, req, moved, switched, after);
  }

  lemma NoRelease(cpu: seq<CoreInfo>, assoc: AssocRegs)
    ensures CosStep(cpu, assoc, ReleaseCall({}), assoc)
  {
  }

  /** The part of the reset that writes registers: masks and throttles, associations, CDP bits. */
  method ResetMachine(hw: Msr, cap: Cap, sockets: seq<nat>, req: CdpConfig) returns (ok: bool, ghost moved: set<nat>)
    requires hw.Valid() && FullMasksFit(hw.chip, cap) && sockets == Ids(hw.chip.cpu, Socket) != []
    modifies hw
    ensures hw.Valid() && hw.clock >= old(hw.clock)
    ensures
      if ok then hw.regs == ResetRegs(hw.chip, old(hw.regs), cap, req)
      else ResetPartly(hw.chip, old(hw.regs), cap, req, hw.regs)
    ensures CosStep(hw.chip.cpu, old(hw.regs.assoc), ReleaseCall(moved), hw.regs.assoc)
    ensures moved == {} || BestEffort(hw.fails, old(hw.clock), hw.clock, Lcores(hw.chip.cpu), moved)
    ensures hw.NoFault(old(hw.clock), hw.clock) && MaxL3Cos(cap) <= hw.chip.l3Regs
      && cap.L2Classes() <= hw.chip.l2Regs && cap.MbaClasses() <= hw.chip.mbaRegs
      ==> ok
  {
    hide BestEffort, Failures, CosStep, ResetPartly, WellFormed, ValidRegs, Switched, Retag, BanksReset, ResetRegs,
      MaxL3Cos, FullMasksFit, Lcores, CdpSwitch;
    NoneSwitched(hw.regs.cfg, true);
    NoneSwitched(hw.regs.cfg, false);
    RetagNone(hw.regs.assoc, 0);
    NoRelease(hw.chip.cpu, hw.regs.assoc);
    SomeSocket(hw.chip.cpu);
    moved := {};
    ok := FillAll(hw, cap, sockets);
    ghost var filled := hw.regs;
    if !ok {
      StoppedAt(hw.chip, old(hw.regs), cap, req, {}, {}, filled);
      return;
    }
    ghost var from := hw.clock;
    ok, moved := AssocReset(hw);
    ghost var to := hw.clock;
    WiderEffort(hw.fails, old(hw.clock), from, to, to, Lcores(hw.chip.cpu), moved);
    SameBanks(hw.chip, old(hw.regs), cap, true, filled, hw.regs);
    if !ok {
      Unfinished(hw.chip, old(hw.regs), cap, hw.regs);
      StoppedAt(hw.chip, old(hw.regs), cap, req, moved, {}, hw.regs);
      return;
    }
    var change := CdpSwitch(cap, req);
    if change.Some? {
      ghost var switched;
      ok, switched := CdpEnable(hw, sockets, change.value);
      WiderEffort(hw.fails, old(hw.clock), from, to, hw.clock, Lcores(hw.chip.cpu), moved);
      SameBanks(hw.chip, old(hw.regs), cap, true, filled, hw.regs);
      if !ok {
        StoppedAt(hw.chip, old(hw.regs), cap, req, moved, switched, hw.regs);
        return;
      }
    }
    CarriedOut(hw.chip, old(hw.regs), cap, req, hw.regs);
  }

  lemma MeansAsked(chip: Chip, r: Regs, cap: Cap, req: CdpConfig)
    requires ValidRegs(chip, r) && FullMasksFit(chip, cap) && Refusal(cap, req).None?
    ensures AllReset(r, cap, ResetRegs(chip, r, cap, req))
    ensures CdpPlausible(cap) ==>
      var cap' := CapAfter(cap, req);
      && cap'.l3.Some? && cap'.l2 == cap.l2 && cap'.mba == cap.mba
      && CdpAsAsked(r, cap.l3.value, req, ResetRegs(chip, r, cap, req), cap'.l3.value)
  {
    hide CdpAsAsked, AllReset, ResetRegs, CapAfter, ValidRegs;
    ResetCarriedOut(chip, r, cap, req);
    if CdpPlausible(cap) {
      CdpCarriedOut(chip, r, cap, req);
    }
  }

  /** `moved` are the cores that reached class 0; each core missed takes a failing access. */
  method HwAllocReset(hw: Msr, caps: CapTable, req: CdpConfig) returns (ret: RetVal, ghost moved: set<nat>)
    requires hw.Valid() && FullMasksFit(hw.chip, caps.cap)
    modifies hw, caps
    ensures hw.Valid() && hw.clock >= old(hw.clock)
    ensures ResetStep(hw.chip, old(hw.regs), old(caps.cap), req, ret, hw.regs, caps.cap)
    ensures ret == Resource <==>
      old(caps.cap.l3.None?) && ((old(caps.cap.l2.None?) && old(caps.cap.mba.None?)) || req == CdpOn || req == CdpOff)
    ensures old(caps.cap.l3.Some?) && req == CdpOn && !old(caps.cap.l3.value.cdp) <==> ret == Param
    ensures ret == Ok && hw.chip.cpu != [] ==> AllReset(old(hw.regs), old(caps.cap), hw.regs)
    ensures ret == Ok && hw.chip.cpu != [] && CdpPlausible(old(caps.cap)) ==>
      && caps.cap.l3.Some? && caps.cap.l2 == old(caps.cap.l2) && caps.cap.mba == old(caps.cap.mba)
      && CdpAsAsked(old(hw.regs), old(caps.cap.l3.value), req, hw.regs, caps.cap.l3.value)
    ensures CosStep(hw.chip.cpu, old(hw.regs.assoc), ReleaseCall(moved), hw.regs.assoc)
    ensures moved == {} || BestEffort(hw.fails, old(hw.clock), hw.clock, Lcores(hw.chip.cpu), moved)
    ensures hw.NoFault(old(hw.clock), hw.clock) && hw.chip.cpu != [] && Refusal(old(caps.cap), req).None?
      && MaxL3Cos(old(caps.cap)) <= hw.chip.l3Regs
      && old(caps.cap.L2Classes()) <= hw.chip.l2Regs && old(caps.cap.MbaClasses()) <= hw.chip.mbaRegs
      ==> ret == Ok
  {
    hide BestEffort, Failures, CosStep, ResetPartly, WellFormed, ValidRegs, ResetRegs, MaxL3Cos, CdpAsAsked, AllReset;
    NoRelease(hw.chip.cpu, hw.regs.assoc);
    moved := {};
    var cap := caps.cap;
    if cap.l2.None? && cap.l3.None? && cap.mba.None? {
      return Resource, moved;
    }
    if cap.l3.None? && req != CdpAny {
      return Resource, moved;
    }
    if cap.l3.Some? && req == CdpOn && !cap.l3.value.cdp {
      return Param, moved;
    }
    var sockets := GetIds(hw.chip.cpu, Socket);
    if |sockets| == 0 {
      return Ok, moved;
    }
    var ok;
    ok, moved := ResetMachine(hw, cap, sockets, req);
    if !ok {
      return Error, moved;
    }
    var change := CdpSwitch(cap, req);
    if change.Some? {
      caps.L3CdpChange(cap.l3.value.cdpOn, change.value);
    }
    MeansAsked(hw.chip, old(hw.regs), cap, req);
    return Ok, moved;
  }
}
