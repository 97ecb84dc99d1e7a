/** What a configured CPU gets, in terms of its configuration and of the registers alone. */
module Configured {
  import opened Arith
  import opened Bits
  import opened Topology
  import opened Registers
  import opened Capabilities
  import opened MbaRate
  import opened ClassConfig
  import opened RdtConfig
  import opened RdtClass
  import opened Isolation
  import opened Rdtset

  /** The register holds the mask, or what it held at the start if the hardware ignores the mask. */
  ghost predicate Gets(chip: Chip, min: nat, start: Bank, now: Bank, reg: (nat, nat), mask: nat) {
    && reg in start && reg in now
    && if BitCount(mask) >= min then now[reg] == mask else chip.ignoresShort && now[reg] == start[reg]
  }

  /** Data and code mask: the request, or all ways where there is none. */
  ghost function WantedL3(ca: L3Ca, ways: nat): (nat, nat) {
    match ca
    case L3Ways(_, m) => if m != 0 then (m, m) else (Pow2(ways) - 1, Pow2(ways) - 1)
    case L3Cdp(_, d, k) => if d != 0 && k != 0 then (d, k) else (Pow2(ways) - 1, Pow2(ways) - 1)
  }

  /** The masks of class `c`: with CDP on data in register 2c and code in 2c + 1, else one mask in register c. */
  ghost predicate L3Given(chip: Chip, l3: L3Cap, start: Bank, now: Bank, socket: nat, c: nat, ca: L3Ca) {
    var (data, code) := WantedL3(ca, l3.numWays);
    if l3.cdpOn then
      && Gets(chip, chip.l3Min, start, now, (socket, 2 * c), data)
      && Gets(chip, chip.l3Min, start, now, (socket, 2 * c + 1), code)
    else Gets(chip, chip.l3Min, start, now, (socket, c), data) && data == code
  }

  /** The share of bandwidth: the multiple of the step nearest to the request, upwards if two are, and at least one
      step; all of it without a request. */
  ghost predicate RateGiven(step: nat, rate: nat, throttle: nat)
    requires step > 0
  {
    var share: int := 100 - throttle;
    if 0 < rate <= 100 then
      && share % step == 0 && step <= share <= 100
      && if 2 * rate < step then share == step else 0 - step < 2 * (share - rate) <= step
    else share == 100
  }

  /** A linear step that divides 100, as the hardware reports it. */
  predicate EvenStep(mba: MbaCap) {
    mba.isLinear && mba.throttleStep > 0 && 100 % mba.throttleStep == 0 && mba.throttleMax == 100 - mba.throttleStep
  }

  lemma L3Means(chip: Chip, cap: Cap, start: Bank, now: Bank, socket: nat, c: nat, cfg: Config)
    requires UsableCap(cap) && cap.l3.Some? && c < cap.l3.value.numClasses
    requires L3Shown(chip, cap, start, now, socket, c, cfg)
    ensures L3Given(chip, cap.l3.value, start, now, socket, c, cfg.l3)
  {
    hide BitCount, Pow2;
  }

  lemma L2Means(chip: Chip, cap: Cap, start: Bank, now: Bank, l2id: nat, c: nat, cfg: Config)
    requires cap.l2.Some? && c < cap.l2.value.numClasses && cap.l2.value.numWays <= 32
    requires L2Shown(chip, cap, start, now, l2id, c, cfg)
    ensures Gets(chip, chip.l2Min, start, now, (l2id, c),
              if cfg.l2.ways != 0 then cfg.l2.ways else Pow2(cap.l2.value.numWays) - 1)
  {
    hide BitCount, Pow2;
    Pow2Limits();
    Pow2Monotone(cap.l2.value.numWays, 32);
  }

  lemma ThrottleMeans(cap: Cap, now: Bank, socket: nat, c: nat, cfg: Config)
    requires UsableCap(cap) && cap.mba.Some? && c < cap.mba.value.numClasses && EvenStep(cap.mba.value)
    requires ThrottleShown(cap, now, socket, c, cfg)
    ensures (socket, c) in now && RateGiven(cap.mba.value.throttleStep, cfg.mba.rate, now[(socket, c)])
  {
    ShareMeans(cap.mba.value, if 0 < cfg.mba.rate <= 100 then cfg.mba.rate else 100);
  }

  lemma ShareMeans(mba: MbaCap, rate: nat)
    requires EvenStep(mba) && 1 <= rate <= 100
    ensures RateGiven(mba.throttleStep, rate, MsrThrottle(mba, rate))
    ensures rate == 100 ==> MsrThrottle(mba, rate) == 0
  {
    hide MsrThrottle;
    var step, share := mba.throttleStep, 100 - MsrThrottle(mba, rate);
    assert step <= 100;
    AppliedRate(mba, rate);
    if rate == 100 {
      Shares(step, 100, share);
      SmallMultiple(step, 100 - share);
    }
  }

  lemma Shares(step: nat, a: nat, b: nat)
    requires step > 0 && a % step == 0 && b % step == 0 && b <= a
    ensures (a - b) % step == 0
  {
    assert a - b == (a / step - b / step) * step;
    Multiple(a / step - b / step, step);
  }

  /** What `cfg_configure_cos` leaves behind on success: each mask as requested, or all ways, and the share of
      bandwidth. */
  lemma DefinedMeans(chip: Chip, cap: Cap, start: Regs, now: Regs, ci: CoreInfo, c: nat, cfg: Config)
    requires UsableCap(cap) && ClassShown(chip, cap, start, now, ci, c, cfg)
    ensures cap.l3.Some? && c < cap.l3.value.numClasses ==>
      L3Given(chip, cap.l3.value, start.l3, now.l3, ci.socket, c, cfg.l3)
    ensures cap.l2.Some? && c < cap.l2.value.numClasses && cap.l2.value.numWays <= 32 ==>
      Gets(chip, chip.l2Min, start.l2, now.l2, (ci.l2Id, c),
        if cfg.l2.ways != 0 then cfg.l2.ways else Pow2(cap.l2.value.numWays) - 1)
    ensures cap.mba.Some? && c < cap.mba.value.numClasses && EvenStep(cap.mba.value) ==>
      (ci.socket, c) in now.mba && RateGiven(cap.mba.value.throttleStep, cfg.mba.rate, now.mba[(ci.socket, c)])
  {
    hide L3Shown, L2Shown, ThrottleShown, L3Given, Gets, RateGiven, EvenStep, Pow2;
    if cap.l3.Some? && c < cap.l3.value.numClasses {
      L3Means(chip, cap, start.l3, now.l3, ci.socket, c, cfg);
    }
    if cap.l2.Some? && c < cap.l2.value.numClasses && cap.l2.value.numWays <= 32 {
      L2Means(chip, cap, start.l2, now.l2, ci.l2Id, c, cfg);
    }
    if cap.mba.Some? && c < cap.mba.value.numClasses && EvenStep(cap.mba.value) {
      ThrottleMeans(cap, now.mba, ci.socket, c, cfg);
    }
  }

  /** No core there outside the group is in the class. */
  ghost predicate NobodyElse(cpu: seq<CoreInfo>, at: Place, assoc: map<nat, Word>, cpus: set<nat>, c: nat) {
    forall y :: y in cpu && IdOf(y, at.scope) == at.id && y.lcore !in cpus ==>
      y.lcore in assoc && assoc[y.lcore] / 0x1_0000_0000 != c
  }

  /** The configuration asks for L3 ways. */
  ghost predicate Asks(ca: L3Ca) {
    match ca
    case L3Ways(_, m) => m != 0
    case L3Cdp(_, d, k) => d != 0 && k != 0
  }

  /** The class exists for all that is asked for in the socket, and has its L3 masks and share of bandwidth. */
  ghost predicate SocketGiven(chip: Chip, cap: Cap, start: Regs, now: Regs, socket: nat, c: nat, cfg: Config) {
    && (Asks(cfg.l3) ==> cap.l3.Some? && c < cap.l3.value.numClasses)
    && (0 < cfg.mba.rate <= 100 ==> cap.mba.Some? && c < cap.mba.value.numClasses)
    && (cap.l3.Some? && c < cap.l3.value.numClasses ==>
          L3Given(chip, cap.l3.value, start.l3, now.l3, socket, c, cfg.l3))
    && (cap.mba.Some? && c < cap.mba.value.numClasses && EvenStep(cap.mba.value) ==>
          (socket, c) in now.mba && RateGiven(cap.mba.value.throttleStep, cfg.mba.rate, now.mba[(socket, c)]))
  }

  /** The class has the L2 mask asked for, if one is. */
  ghost predicate ClusterGiven(chip: Chip, cap: Cap, start: Regs, now: Regs, l2id: nat, c: nat, cfg: Config) {
    cfg.l2.ways != 0 ==>
      && cap.l2.Some? && c < cap.l2.value.numClasses
      && Gets(chip, chip.l2Min, start.l2, now.l2, (l2id, c), cfg.l2.ways)
  }

  /** A CPU of group `i` in an isolated socket or cluster has a class of its group's own, with what the group
      asks for. */
  lemma ConfiguredCpu(chip: Chip, cap: Cap, at: Place, start: Regs, now: Regs, configs: seq<Config>, i: nat,
      x: CoreInfo)
    requires UsableCap(cap) && ValidRegs(chip, now) && i < |configs|
    requires Isolated(chip, cap, at, start, now, configs, |configs|)
    requires x in chip.cpu && IdOf(x, at.scope) == at.id && x.lcore in configs[i].cpus
    ensures x.lcore in now.assoc
    ensures
      var c := now.assoc[x.lcore] / 0x1_0000_0000;
      && c != 0 && NobodyElse(chip.cpu, at, now.assoc, configs[i].cpus, c)
      && (at.scope == Socket ==> SocketGiven(chip, cap, start, now, at.id, c, configs[i]))
      && (at.scope == L2Cluster ==> ClusterGiven(chip, cap, start, now, at.id, c, configs[i]))
  {
    hide SocketGiven, ClusterGiven, WellFormed, ValidRegs, UsableCap, Isolated, ShownIn, CanHold, NobodyElse;
    OwnClass(chip, cap, at, start, now, configs, i, x);
    var cfg, c := configs[i], Cos(now.assoc[x.lcore]);
    if at.scope == Socket {
      SocketMeans(chip, cap, start, now, at.id, c, cfg);
    } else if at.scope == L2Cluster {
      ClusterMeans(chip, cap, start, now, at.id, c, cfg);
    }
  }

  lemma OwnClass(chip: Chip, cap: Cap, at: Place, start: Regs, now: Regs, configs: seq<Config>, i: nat, x: CoreInfo)
    requires UsableCap(cap) && ValidRegs(chip, now) && i < |configs|
    requires Isolated(chip, cap, at, start, now, configs, |configs|)
    requires x in chip.cpu && IdOf(x, at.scope) == at.id && x.lcore in configs[i].cpus
    ensures x.lcore in now.assoc
    ensures
      var c := now.assoc[x.lcore] / 0x1_0000_0000;
      && c != 0 && NobodyElse(chip.cpu, at, now.assoc, configs[i].cpus, c)
      && CanHold(cap, c, configs[i]) && ShownIn(chip, cap, at.scope, start, now, at.id, c, configs[i])
  {
    hide ShownIn, CanHold, WellFormed, ValidRegs, UsableCap;
    ShapeOf(chip, now);
    assert Within(chip.cpu, at.scope, at.id, x.lcore);
    LookupIsUnique(chip.cpu, x);
    assert Served(chip, cap, at.scope, start, now, configs[i], x.lcore);
    assert forall y :: y in chip.cpu ==> y.lcore in Lcores(chip.cpu);
  }

  lemma SocketMeans(chip: Chip, cap: Cap, start: Regs, now: Regs, socket: nat, c: nat, cfg: Config)
    requires UsableCap(cap) && CanHold(cap, c, cfg) && ShownIn(chip, cap, Socket, start, now, socket, c, cfg)
    ensures SocketGiven(chip, cap, start, now, socket, c, cfg)
  {
    hide L3Shown, ThrottleShown, L3Given, RateGiven, EvenStep;
    if cap.l3.Some? && c < cap.l3.value.numClasses {
      L3Means(chip, cap, start.l3, now.l3, socket, c, cfg);
    }
    if cap.mba.Some? && c < cap.mba.value.numClasses && EvenStep(cap.mba.value) {
      ThrottleMeans(cap, now.mba, socket, c, cfg);
    }
  }

  lemma ClusterMeans(chip: Chip, cap: Cap, start: Regs, now: Regs, l2id: nat, c: nat, cfg: Config)
    requires UsableCap(cap) && CanHold(cap, c, cfg) && ShownIn(chip, cap, L2Cluster, start, now, l2id, c, cfg)
    ensures ClusterGiven(chip, cap, start, now, l2id, c, cfg)
  {
    hide Gets, L2Shown;
    if cfg.l2.ways != 0 {
      RequestedL2(chip, cap, start.l2, now.l2, l2id, c, cfg);
    }
  }

  lemma RequestedL2(chip: Chip, cap: Cap, start: Bank, now: Bank, l2id: nat, c: nat, cfg: Config)
    requires cap.l2.Some? && c < cap.l2.value.numClasses && cfg.l2.ways != 0
    requires L2Shown(chip, cap, start, now, l2id, c, cfg)
    ensures Gets(chip, chip.l2Min, start, now, (l2id, c), cfg.l2.ways)
  {
    hide BitCount;
  }
}
