/** Whole runs of resets: the cached capability keeps agreeing with the registers. */
module ResetRuns {
  import opened Results
  import opened Topology
  import opened Registers
  import opened Capabilities
  import opened CosAssign
  import opened ClassConfig
  import opened AllocReset

  datatype Platform = Platform(regs: Regs, cap: Cap)

  datatype ResetCall = ResetCall(req: CdpConfig, ret: RetVal)

  /** Cached flags are possible ones, and full masks fit the registers. */
  ghost predicate SoundCap(chip: Chip, cap: Cap) {
    && FullMasksFit(chip, cap)
    && (cap.CdpOn() ==> cap.l3.value.cdp)
    && L3RegsUsed(cap) <= chip.l3Regs
  }

  ghost predicate ResetRun(chip: Chip, states: seq<Platform>, calls: seq<ResetCall>) {
    && |states| == |calls| + 1
    && ValidRegs(chip, states[0].regs) && SoundCap(chip, states[0].cap) && CdpAgrees(states[0].regs, states[0].cap)
    && (forall i :: 0 <= i < |calls| ==>
          FullMasksFit(chip, states[i].cap)
          && ResetStep(chip, states[i].regs, states[i].cap, calls[i].req, calls[i].ret, states[i + 1].regs,
            states[i + 1].cap))
  }

  /** Every core in class 0, every mask register full, no throttling. */
  ghost predicate Pristine(r: Regs, cap: Cap)
    requires (cap.l3.Some? ==> cap.l3.value.numWays < 64) && (cap.l2.Some? ==> cap.l2.value.numWays < 64)
  {
    && (forall l :: l in r.assoc ==> Cos(r.assoc[l]) == 0)
    && (cap.l3.Some? ==> forall k :: k in r.l3 ==> r.l3[k] == FullMask(cap.l3.value.numWays))
    && (cap.l2.Some? ==> forall k :: k in r.l2 ==> r.l2[k] == FullMask(cap.l2.value.numWays))
    && (cap.mba.Some? ==> forall k :: k in r.mba ==> r.mba[k] == 0)
  }

  /** The L2 and MBA classes are those of the hardware. */
  ghost predicate AllClasses(chip: Chip, cap: Cap) {
    (cap.l2.Some? ==> cap.L2Classes() == chip.l2Regs) && (cap.mba.Some? ==> cap.MbaClasses() == chip.mbaRegs)
  }

  lemma ResetKeepsShape(chip: Chip, r: Regs, cap: Cap, req: CdpConfig)
    requires ValidRegs(chip, r) && FullMasksFit(chip, cap)
    ensures ValidRegs(chip, ResetRegs(chip, r, cap, req))
  {
    var r' := ResetRegs(chip, r, cap, req);
    assert r'.l3.Keys == r.l3.Keys && r'.l2.Keys == r.l2.Keys && r'.mba.Keys == r.mba.Keys && r'.cfg.Keys == r.cfg.Keys;
  }

  /** A CDP change halves or doubles the classes, so the registers they use never grow in number. */
  lemma SwitchKeepsCap(chip: Chip, cap: Cap, req: CdpConfig)
    requires SoundCap(chip, cap) && Refusal(cap, req).None?
    ensures SoundCap(chip, CapAfter(cap, req))
    ensures L3RegsUsed(CapAfter(cap, req)) == L3RegsUsed(cap)
      || L3RegsUsed(CapAfter(cap, req)) == L3RegsUsed(cap) - L3RegsUsed(cap) % 2
    ensures MaxL3Cos(cap) == L3RegsUsed(cap)
  {
  }

  /** A successful reset reaches every register of the machine: the L3 bank exactly when the cached
      classes cover it. */
  lemma ResetIsPristine(chip: Chip, r: Regs, cap: Cap, req: CdpConfig)
    requires ValidRegs(chip, r) && SoundCap(chip, cap) && AllClasses(chip, cap)
    requires cap.l3.Some? ==> L3RegsUsed(cap) == chip.l3Regs
    ensures Pristine(ResetRegs(chip, r, cap, req), cap)
  {
    var r' := ResetRegs(chip, r, cap, req);
    forall l | l in r'.assoc ensures Cos(r'.assoc[l]) == 0 {
      AssocFields(r.assoc[l], 0, 0);
    }
    forall k | k in r'.l3 && cap.l3.Some? ensures r'.l3[k] == FullMask(cap.l3.value.numWays) {
      assert k.0 in SocketSet(chip.cpu);
    }
    forall k | k in r'.l2 && cap.l2.Some? ensures r'.l2[k] == FullMask(cap.l2.value.numWays) {
      assert k.0 in Members(Ids(chip.cpu, L2Cluster));
    }
    forall k | k in r'.mba && cap.mba.Some? ensures r'.mba[k] == 0 {
      assert k.0 in SocketSet(chip.cpu);
    }
  }

  /** A register the cached classes do not cover is missed by the reset. */
  lemma UncoveredRegisterStays(chip: Chip, r: Regs, cap: Cap, req: CdpConfig, socket: nat)
    requires ValidRegs(chip, r) && SoundCap(chip, cap) && HasId(chip.cpu, Socket, socket)
    requires cap.l3.Some? && L3RegsUsed(cap) < chip.l3Regs
    ensures (socket, chip.l3Regs - 1) in r.l3
    ensures ResetRegs(chip, r, cap, req).l3[(socket, chip.l3Regs - 1)] == r.l3[(socket, chip.l3Regs - 1)]
  {
    assert HasId(chip.cpu, Socket, (socket, chip.l3Regs - 1).0);
  }

  /** What every run keeps, failing resets included. */
  ghost predicate Kept(chip: Chip, start: Platform, now: Platform) {
    && ValidRegs(chip, now.regs) && SoundCap(chip, now.cap)
    && now.cap.l3.Some? == start.cap.l3.Some? && now.cap.l2 == start.cap.l2 && now.cap.mba == start.cap.mba
    && (chip.l3Regs % 2 == 0 && L3RegsUsed(start.cap) == chip.l3Regs ==> L3RegsUsed(now.cap) == chip.l3Regs)
  }

  lemma SameKeysValid(chip: Chip, r: Regs, r': Regs)
    requires ValidRegs(chip, r) && r'.assoc.Keys == r.assoc.Keys && r'.cfg.Keys == r.cfg.Keys
    requires r'.l3.Keys == r.l3.Keys && r'.l2.Keys == r.l2.Keys && r'.mba.Keys == r.mba.Keys
    ensures ValidRegs(chip, r')
  {
    hide WellFormed;
  }

  lemma PartKeepsShape(chip: Chip, r: Regs, cap: Cap, req: CdpConfig, r': Regs)
    requires ValidRegs(chip, r) && FullMasksFit(chip, cap) && ResetPartly(chip, r, cap, req, r')
    ensures ValidRegs(chip, r')
  {
    hide ValidRegs, FullMask, Retag, Filled, Switched, ResetRegs;
    var moved, switched :| CutAt(chip, r, cap, req, moved, switched, r');
    SameKeysValid(chip, r, r');
  }

  lemma StepKeeps(chip: Chip, start: Platform, before: Platform, call: ResetCall, after: Platform)
    requires Kept(chip, start, before)
    requires ResetStep(chip, before.regs, before.cap, call.req, call.ret, after.regs, after.cap)
    ensures Kept(chip, start, after)
  {
    if Refusal(before.cap, call.req).None? && chip.cpu != [] {
      if call.ret == Ok {
        ResetKeepsShape(chip, before.regs, before.cap, call.req);
        SwitchKeepsCap(chip, before.cap, call.req);
        hide ValidRegs, ResetRegs;
        assert after == Platform(ResetRegs(chip, before.regs, before.cap, call.req), CapAfter(before.cap, call.req));
      } else {
        PartKeepsShape(chip, before.regs, before.cap, call.req, after.regs);
      }
    }
  }

  lemma {:induction false} RunInvariant(chip: Chip, states: seq<Platform>, calls: seq<ResetCall>, n: nat)
    requires ResetRun(chip, states, calls) && n <= |calls|
    ensures Kept(chip, states[0], states[n])
  {
    hide ResetStep, CdpAgrees;
    if n > 0 {
      RunInvariant(chip, states, calls, n - 1);
      StepKeeps(chip, states[0], states[n - 1], calls[n - 1], states[n]);
    }
  }

  // ----- agreement under failures -----

  /** A failed reset that switched the CDP bit of some sockets. */
  ghost predicate HalfSwitch(before: Platform, call: ResetCall, after: Platform) {
    call.ret == Error && after.regs.cfg != before.regs.cfg
  }

  /** A reset that switched CDP everywhere. */
  ghost predicate FullSwitch(chip: Chip, before: Platform, call: ResetCall) {
    Refusal(before.cap, call.req).None? && chip.cpu != [] && call.ret == Ok && CdpSwitch(before.cap, call.req).Some?
  }

  /** Some reset switched only some sockets, and none has switched all of them since. */
  ghost predicate LeftHalf(chip: Chip, states: seq<Platform>, calls: seq<ResetCall>, n: nat)
    requires n <= |calls| < |states|
  {
    n > 0 &&
    if HalfSwitch(states[n - 1], calls[n - 1], states[n]) then true
    else if FullSwitch(chip, states[n - 1], calls[n - 1]) then false
    else LeftHalf(chip, states, calls, n - 1)
  }

  /** A successful switch makes flag and bits agree, whatever they were. */
  lemma FullSwitchAgrees(chip: Chip, r: Regs, cap: Cap, req: CdpConfig)
    requires ValidRegs(chip, r) && FullMasksFit(chip, cap) && CdpSwitch(cap, req).Some?
    ensures CdpAgrees(ResetRegs(chip, r, cap, req), CapAfter(cap, req))
  {
    var r' := ResetRegs(chip, r, cap, req);
    forall s | s in r'.cfg ensures CdpBit(r'.cfg[s]) <==> CapAfter(cap, req).CdpOn() {
      assert HasId(chip.cpu, Socket, s);
      assert s in SocketSet(chip.cpu);
    }
  }

  lemma CutCfg(chip: Chip, r: Regs, cap: Cap, req: CdpConfig, r': Regs) returns (done: set<nat>)
    requires ValidRegs(chip, r) && FullMasksFit(chip, cap) && ResetPartly(chip, r, cap, req, r')
    ensures done <= r.cfg.Keys && r'.cfg == CfgAfter(r, cap, req, done)
  {
    var moved, switched :| CutAt(chip, r, cap, req, moved, switched, r');
    done := switched;
    forall s | s in done ensures s in r.cfg {
      assert HasId(chip.cpu, Socket, s);
    }
  }

  /** A switch of some sockets leaves bits that differ from the flag, and so does one on top of such bits. */
  lemma HalfSwitchDisagrees(chip: Chip, before: Platform, call: ResetCall, after: Platform)
    requires ValidRegs(chip, before.regs) && FullMasksFit(chip, before.cap) && call.ret == Error
    requires ResetPartly(chip, before.regs, before.cap, call.req, after.regs) && after.cap == before.cap
    ensures !CdpAgrees(before.regs, before.cap) || HalfSwitch(before, call, after) ==> !CdpAgrees(after.regs, after.cap)
    ensures CdpAgrees(before.regs, before.cap) && !HalfSwitch(before, call, after) ==> CdpAgrees(after.regs, after.cap)
  {
    var done := CutCfg(chip, before.regs, before.cap, call.req, after.regs);
    var cfg, cfg' := before.regs.cfg, after.regs.cfg;
    if done != {} && cfg' != cfg {
      var s :| s in done;
      assert CdpBit(cfg'[s]) == CdpSwitch(before.cap, call.req).value != before.cap.CdpOn();
    } else if !CdpAgrees(before.regs, before.cap) {
      if done == {} && CdpSwitch(before.cap, call.req).Some? {
        NoneSwitched(cfg, CdpSwitch(before.cap, call.req).value);
      }
    } else if done == {} && CdpSwitch(before.cap, call.req).Some? {
      NoneSwitched(cfg, CdpSwitch(before.cap, call.req).value);
    }
  }

  lemma StepAgreement(chip: Chip, before: Platform, call: ResetCall, after: Platform)
    requires ValidRegs(chip, before.regs) && FullMasksFit(chip, before.cap)
    requires ResetStep(chip, before.regs, before.cap, call.req, call.ret, after.regs, after.cap)
    ensures CdpAgrees(after.regs, after.cap) <==>
      !HalfSwitch(before, call, after) && (FullSwitch(chip, before, call) || CdpAgrees(before.regs, before.cap))
  {
    if Refusal(before.cap, call.req).None? && chip.cpu != [] {
      if call.ret == Ok && CdpSwitch(before.cap, call.req).Some? {
        FullSwitchAgrees(chip, before.regs, before.cap, call.req);
      } else if call.ret != Ok {
        hide CdpAgrees, ResetPartly;
        HalfSwitchDisagrees(chip, before, call, after);
      }
    }
  }

  /** In every state of every run of resets, with register failures anywhere, the cached flag is the enable bit
      of every socket if and only if no failed reset has switched some sockets without a later reset having
      switched all of them. */
  lemma {:induction false} AgreementIff(chip: Chip, states: seq<Platform>, calls: seq<ResetCall>, n: nat)
    requires ResetRun(chip, states, calls) && n <= |calls|
    ensures CdpAgrees(states[n].regs, states[n].cap) <==> !LeftHalf(chip, states, calls, n)
  {
    hide ResetStep, CdpAgrees, HalfSwitch, FullSwitch;
    if n > 0 {
      AgreementIff(chip, states, calls, n - 1);
      RunInvariant(chip, states, calls, n - 1);
      StepAgreement(chip, states[n - 1], calls[n - 1], states[n]);
    }
  }

  /** Over a whole run: agreement in every state if and only if no failed reset switched a socket. */
  lemma RunAgreesIff(chip: Chip, states: seq<Platform>, calls: seq<ResetCall>)
    requires ResetRun(chip, states, calls)
    ensures (forall n :: 0 <= n < |states| ==> CdpAgrees(states[n].regs, states[n].cap))
      <==> forall i :: 0 <= i < |calls| ==> !HalfSwitch(states[i], calls[i], states[i + 1])
  {
    hide ResetStep, CdpAgrees, HalfSwitch, FullSwitch;
    forall n | 0 <= n < |states|
      ensures CdpAgrees(states[n].regs, states[n].cap) <==> !LeftHalf(chip, states, calls, n)
    {
      AgreementIff(chip, states, calls, n);
    }
    if forall i :: 0 <= i < |calls| ==> !HalfSwitch(states[i], calls[i], states[i + 1]) {
      forall n | 0 <= n < |states| ensures !LeftHalf(chip, states, calls, n) {
        NeverHalf(chip, states, calls, n);
      }
    }
    if i :| 0 <= i < |calls| && HalfSwitch(states[i], calls[i], states[i + 1]) {
      assert LeftHalf(chip, states, calls, i + 1);
    }
  }

  lemma {:induction false} NeverHalf(chip: Chip, states: seq<Platform>, calls: seq<ResetCall>, n: nat)
    requires n <= |calls| < |states|
    requires forall i :: 0 <= i < |calls| ==> !HalfSwitch(states[i], calls[i], states[i + 1])
    ensures !LeftHalf(chip, states, calls, n)
  {
    if n > 0 {
      NeverHalf(chip, states, calls, n - 1);
    }
  }

  /** The L3 mask registers that the classes found at start use. */
  function CoveredRegs(chip: Chip, cap: Cap): nat {
    if cap.l3.None? then 0 else if cap.CdpOn() then chip.l3Regs - chip.l3Regs % 2 else chip.l3Regs
  }

  /** Over every run of resets with any CDP requests and register failures anywhere: the cached classes never use
      more L3 mask registers than exist, and all of them when their number is even; each reset that succeeds then
      leaves the machine pristine; and flag and bits agree while no failed reset has switched a socket. */
  lemma ResetAgreement(chip: Chip, states: seq<Platform>, calls: seq<ResetCall>, n: nat)
    requires ResetRun(chip, states, calls) && n <= |calls|
    requires L3RegsUsed(states[0].cap) == CoveredRegs(chip, states[0].cap)
    requires AllClasses(chip, states[0].cap)
    ensures CdpAgrees(states[n].regs, states[n].cap) <==> !LeftHalf(chip, states, calls, n)
    ensures L3RegsUsed(states[n].cap) <= chip.l3Regs
    ensures chip.l3Regs % 2 == 0 && states[n].cap.l3.Some? ==> L3RegsUsed(states[n].cap) == chip.l3Regs
    ensures SoundCap(chip, states[n].cap)
    ensures n > 0 && chip.l3Regs % 2 == 0 && chip.cpu != [] && calls[n - 1].ret == Ok ==>
      Pristine(states[n].regs, states[n].cap)
  {
    hide CdpAgrees, LeftHalf, Pristine, ResetPartly, ResetRegs, ValidRegs, AllClasses;
    RunInvariant(chip, states, calls, n);
    AgreementIff(chip, states, calls, n);
    if n > 0 && chip.l3Regs % 2 == 0 && chip.cpu != [] && calls[n - 1].ret == Ok {
      RunInvariant(chip, states, calls, n - 1);
      var before := states[n - 1];
      assert ResetStep(chip, before.regs, before.cap, calls[n - 1].req, calls[n - 1].ret, states[n].regs,
        states[n].cap);
      SameClasses(chip, states[0].cap, before.cap);
      ResetIsPristine(chip, before.regs, before.cap, calls[n - 1].req);
      PristineAfter(chip, before, calls[n - 1], states[n]);
    }
  }

  lemma SameClasses(chip: Chip, cap: Cap, cap': Cap)
    requires AllClasses(chip, cap) && cap'.l2 == cap.l2 && cap'.mba == cap.mba
    ensures AllClasses(chip, cap')
  {
  }

  lemma PristineAfter(chip: Chip, before: Platform, call: ResetCall, after: Platform)
    requires SoundCap(chip, before.cap) && SoundCap(chip, after.cap) && chip.cpu != [] && call.ret == Ok
    requires ResetStep(chip, before.regs, before.cap, call.req, call.ret, after.regs, after.cap)
    requires Pristine(ResetRegs(chip, before.regs, before.cap, call.req), before.cap)
    ensures Pristine(after.regs, after.cap)
  {
    hide ResetRegs, ResetPartly, FullMask;
  }

  /** With an odd number of mask registers, turning CDP on and off again loses one of them for good. */
  lemma OddRegisterLost(cap: Cap)
    requires cap.l3.Some? && cap.l3.value.cdp && !cap.CdpOn()
    ensures L3RegsUsed(CapAfter(CapAfter(cap, AllocReset.CdpOn), CdpOff)) == L3RegsUsed(cap) - L3RegsUsed(cap) % 2
  {
  }

  /** A failure between two sockets' CDP writes leaves bits that no cached flag describes. */
  lemma HalfSwitchedDisagrees(r: Regs, cap: Cap, done: set<nat>, on: bool, cap': Cap, s: nat, t: nat)
    requires CdpAgrees(r, cap) && cap.CdpOn() != on
    requires s in r.cfg && t in r.cfg && s in done && t !in done
    ensures !CdpAgrees(r.(cfg := Switched(r.cfg, done, on)), cap')
  {
    var cfg := Switched(r.cfg, done, on);
    assert CdpBit(cfg[s]) == on && CdpBit(cfg[t]) != on;
    assert s in cfg && t in cfg;
  }
}
