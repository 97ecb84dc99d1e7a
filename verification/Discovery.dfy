/** What the library caches at start: CDP read from every socket, classes counted, the throttle step (lib/cap.c). */
module Discovery {
  import opened Bits
  import opened Results
  import opened Topology
  import opened Registers
  import opened Capabilities
  import opened MbaRate
  import opened ClassConfig
  import opened AllocReset
  import opened ResetRuns

  /** The enable bit is the same on every socket. */
  ghost predicate CdpConsistent(cfg: map<nat, Word>) {
    forall s, t :: s in cfg && t in cfg ==> CdpBit(cfg[s]) == CdpBit(cfg[t])
  }

  ghost predicate AllCdp(cfg: map<nat, Word>, sockets: seq<nat>, n: nat, on: bool) {
    n <= |sockets| && forall i :: 0 <= i < n ==> sockets[i] in cfg && CdpBit(cfg[sockets[i]]) == on
  }

  lemma OneMoreSocket(cfg: map<nat, Word>, sockets: seq<nat>, n: nat, on: bool)
    requires n < |sockets| && sockets[n] in cfg
    ensures AllCdp(cfg, sockets, n + 1, on) <==> AllCdp(cfg, sockets, n, on) && CdpBit(cfg[sockets[n]]) == on
  {
  }

  /** `cdp_is_enabled`: reads the bit of every socket through its first core, and refuses a mixture. */
  method CdpIsEnabled(hw: Msr) returns (ret: RetVal, enabled: bool)
    requires hw.Valid()
    modifies hw`clock
    ensures hw.Valid() && hw.clock >= old(hw.clock)
    ensures ret == Ok || ret == Error
    ensures ret == Ok ==> forall s :: s in hw.regs.cfg ==> CdpBit(hw.regs.cfg[s]) == enabled
    ensures hw.NoFault(old(hw.clock), hw.clock) ==> (ret == Ok <==> CdpConsistent(hw.regs.cfg))
  {
    hide WellFormed, ValidRegs, AllCdp, CdpConsistent, CdpBit;
    enabled := false;
    var sockets := GetIds(hw.chip.cpu, Socket);
    var on, off: nat := 0, 0;
    NoSocket(hw.regs.cfg, sockets);
    for j := 0 to |sockets|
      invariant hw.Valid() && hw.regs == old(hw.regs) && hw.clock >= old(hw.clock)
      invariant on + off == j
      invariant on == 0 <==> AllCdp(hw.regs.cfg, sockets, j, false)
      invariant off == 0 <==> AllCdp(hw.regs.cfg, sockets, j, true)
    {
      assert sockets[j] in sockets;
      var core := GetOne(hw.chip.cpu, Socket, sockets[j]);
      CfgAccess(hw.chip, hw.regs, sockets[j]);
      OneMoreSocket(hw.regs.cfg, sockets, j, false);
      OneMoreSocket(hw.regs.cfg, sockets, j, true);
      var ok, reg := hw.Read(core.value, L3QosCfg);
      if !ok {
        return Error, enabled;
      }
      if CdpBit(reg) {
        on := on + 1;
      } else {
        off := off + 1;
      }
    }
    AllSockets(hw.chip, hw.regs, sockets);
    if off > 0 && on > 0 {
      ret := Error;
      return;
    }
    enabled := on > 0;
    ret := Ok;
  }

  lemma NoSocket(cfg: map<nat, Word>, sockets: seq<nat>)
    ensures AllCdp(cfg, sockets, 0, false) && AllCdp(cfg, sockets, 0, true)
  {
  }

  lemma AllSockets(chip: Chip, r: Regs, sockets: seq<nat>)
    requires ValidRegs(chip, r) && sockets == Ids(chip.cpu, Socket)
    ensures AllCdp(r.cfg, sockets, |sockets|, true) ==> forall s :: s in r.cfg ==> CdpBit(r.cfg[s]) == true
    ensures AllCdp(r.cfg, sockets, |sockets|, false) ==> forall s :: s in r.cfg ==> CdpBit(r.cfg[s]) == false
    ensures CdpConsistent(r.cfg) <==>
      AllCdp(r.cfg, sockets, |sockets|, true) || AllCdp(r.cfg, sockets, |sockets|, false)
  {
    hide WellFormed;
    forall s | s in r.cfg ensures s in sockets {
      assert HasId(chip.cpu, Socket, s);
    }
    forall i | 0 <= i < |sockets| ensures sockets[i] in r.cfg {
      assert sockets[i] in sockets;
      assert HasId(chip.cpu, Socket, sockets[i]);
    }
    if CdpConsistent(r.cfg) && |sockets| > 0 {
      assert AllCdp(r.cfg, sockets, |sockets|, CdpBit(r.cfg[sockets[0]]));
    }
  }

  /** `discover_alloc_l3_cpuid`: with CDP on, two mask registers make a class. */
  method DiscoverL3(hw: Msr, classes: nat, numWays: nat, cdp: bool) returns (ret: RetVal, l3: L3Cap)
    requires hw.Valid()
    requires !cdp ==> forall s :: s in hw.regs.cfg ==> !CdpBit(hw.regs.cfg[s])
    modifies hw`clock
    ensures hw.Valid() && hw.clock >= old(hw.clock)
    ensures hw.NoFault(old(hw.clock), hw.clock) ==> (ret == Ok <==> !cdp || CdpConsistent(hw.regs.cfg))
    ensures ret == Ok ==> l3.numWays == numWays && l3.cdp == cdp && (l3.cdpOn ==> cdp)
    ensures ret == Ok ==> forall s :: s in hw.regs.cfg ==> (CdpBit(hw.regs.cfg[s]) <==> l3.cdpOn)
    ensures ret == Ok ==> l3.numClasses == if l3.cdpOn then classes / 2 else classes
  {
    l3 := L3Cap(classes, numWays, cdp, false);
    if cdp {
      var on;
      ret, on := CdpIsEnabled(hw);
      if ret != Ok {
        return;
      }
      l3 := l3.(cdpOn := on);
      if on {
        l3 := l3.(numClasses := l3.numClasses / 2);
      }
    }
    ret := Ok;
  }

  /** The platform a successful discovery caches is one a run of resets may start from. */
  lemma DiscoveredIsSound(chip: Chip, r: Regs, cap: Cap)
    requires FullMasksFit(chip, cap)
    requires cap.l3.Some? ==>
      && (cap.l3.value.cdpOn ==> cap.l3.value.cdp)
      && cap.l3.value.numClasses == if cap.l3.value.cdpOn then chip.l3Regs / 2 else chip.l3Regs
    requires forall s :: s in r.cfg ==> (CdpBit(r.cfg[s]) <==> cap.CdpOn())
    ensures SoundCap(chip, cap) && CdpAgrees(r, cap)
    ensures cap.l3.Some? ==> L3RegsUsed(cap) == if cap.CdpOn() then chip.l3Regs - chip.l3Regs % 2 else chip.l3Regs
  {
  }

  /** `discover_alloc_mba` from the fields of CPUID leaf 0x10: the step is what the maximum leaves to 100. */
  function DiscoverMba(maxMinus1: nat, classesMinus1: nat, linear: bool): Option<MbaCap>
    requires maxMinus1 < 0x1000 && classesMinus1 < 0x1_0000
  {
    if linear then
      Some(MbaCap(classesMinus1 + 1, maxMinus1 + 1, (LINEAR_MAX - (maxMinus1 + 1)) % UINT_LIMIT, true))
    else None
  }

  /** Reported fields count from 0; the step wraps when the maximum is above 100; nonlinear throttling is not
      supported. */
  lemma DiscoveredMba(maxMinus1: nat, classesMinus1: nat, linear: bool)
    requires maxMinus1 < 0x1000 && classesMinus1 < 0x1_0000
    ensures DiscoverMba(maxMinus1, classesMinus1, linear).Some? <==> linear
    ensures linear ==>
      var mba := DiscoverMba(maxMinus1, classesMinus1, linear).value;
      && mba.numClasses == classesMinus1 + 1 && mba.throttleMax == maxMinus1 + 1 && mba.isLinear
      && mba.throttleStep == if maxMinus1 < 100 then 99 - maxMinus1 else 0x1_0000_0063 - maxMinus1
  {
    var d: int := 99 - maxMinus1;
    if d < 0 {
      assert d % UINT_LIMIT == d + UINT_LIMIT;
    }
  }

  /** The step is usable exactly when the reported maximum leaves something to 100. */
  lemma DiscoveredStep(maxMinus1: nat, classesMinus1: nat)
    requires maxMinus1 < 0x1000 && classesMinus1 < 0x1_0000
    ensures Linear(DiscoverMba(maxMinus1, classesMinus1, true).value) <==> maxMinus1 + 1 < LINEAR_MAX
  {
    var max := maxMinus1 + 1;
    if max > LINEAR_MAX {
      assert (LINEAR_MAX - max) % UINT_LIMIT == LINEAR_MAX - max + UINT_LIMIT;
    }
  }
}
