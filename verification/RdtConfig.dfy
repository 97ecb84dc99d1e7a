/** rdtset's configurations and their validation (rdtset/rdt.c). */
module RdtConfig {
  import opened Bits
  import opened Results
  import opened Registers
  import opened Capabilities
  import opened ClassConfig
  import opened Api

  const CPU_SETSIZE: nat := 1024

  type CpuSet = s: set<nat> | forall c :: c in s ==> c < 1024

  /** A group of CPUs and what it asks for; a zero mask or rate asks for nothing. */
  datatype Config = Config(cpus: CpuSet, l2: L2Ca, l3: L3Ca, mba: Mba)

  datatype Status = Success | InvalidArgument | NoDevice | Fault | Busy | NotSupported

  predicate L2Valid(ca: L2Ca) {
    ca.ways != 0
  }

  predicate L3Valid(ca: L3Ca) {
    match ca
    case L3Ways(_, m) => m != 0
    case L3Cdp(_, d, c) => d != 0 && c != 0
  }

  predicate MbaValid(mba: Mba) {
    0 < mba.rate <= 100
  }

  function Technology(cfg: Config): Tech {
    Tech(L2Valid(cfg.l2), L3Valid(cfg.l3), MbaValid(cfg.mba))
  }

  // ----- what a valid set of configurations is -----

  ghost predicate CpusFree(assoc: map<nat, Word>, cpus: set<nat>) {
    forall l :: l in cpus ==> l in assoc && Cos(assoc[l]) == 0
  }

  ghost predicate Supported(cap: Cap, cfg: Config) {
    && (L3Valid(cfg.l3) ==> cap.l3.Some?)
    && (L2Valid(cfg.l2) ==> cap.l2.Some?)
    && (MbaValid(cfg.mba) ==> cap.mba.Some?)
  }

  ghost predicate CdpSupported(cap: Cap, cfg: Config) {
    cfg.l3.L3Cdp? ==> cap.l3.Some? && cap.l3.value.cdp && cap.l3.value.cdpOn
  }

  /** Requested masks use no way above those of the cache. */
  ghost predicate MasksFit(cap: Cap, cfg: Config) {
    && (cap.l2.Some? ==> L2MaskFits(cap.l2.value.numWays, cfg))
    && (cap.l3.Some? ==> L3MasksFit(cap.l3.value.numWays, cfg))
  }

  ghost predicate Disjoint(configs: seq<Config>) {
    forall i, j :: 0 <= i < j < |configs| ==> configs[i].cpus !! configs[j].cpus
  }

  ghost predicate ValidConfigs(cap: Cap, assoc: map<nat, Word>, configs: seq<Config>) {
    && (forall i :: 0 <= i < |configs| ==>
          && CpusFree(assoc, configs[i].cpus) && Supported(cap, configs[i])
          && CdpSupported(cap, configs[i]) && MasksFit(cap, configs[i]))
    && Disjoint(configs)
  }

  // ----- validation -----

  method CheckCpus(hw: Msr, cap: Cap, configs: seq<Config>) returns (status: Status)
    requires hw.Valid()
    modifies hw`clock
    ensures hw.Valid() && hw.clock >= old(hw.clock)
    ensures status == Success ==> forall i :: 0 <= i < |configs| ==> CpusFree(hw.regs.assoc, configs[i].cpus)
    ensures status == Success || status == Busy || status == NoDevice || status == Fault
    ensures status == Busy ==>
      exists i, l :: 0 <= i < |configs| && l in configs[i].cpus && l in hw.regs.assoc && Cos(hw.regs.assoc[l]) != 0
    ensures status == NoDevice ==> exists i, l :: 0 <= i < |configs| && l in configs[i].cpus && l !in hw.regs.assoc
    ensures hw.NoFault(old(hw.clock), hw.clock) && (cap.l2.Some? || cap.l3.Some?) ==> status != Fault
    ensures hw.NoFault(old(hw.clock), hw.clock) && (cap.l2.Some? || cap.l3.Some?)
      && (forall i :: 0 <= i < |configs| ==> CpusFree(hw.regs.assoc, configs[i].cpus))
      ==> status == Success
  {
    for i := 0 to |configs|
      invariant hw.Valid() && hw.clock >= old(hw.clock) && hw.regs == old(hw.regs)
      invariant forall j :: 0 <= j < i ==> CpusFree(hw.regs.assoc, configs[j].cpus)
    {
      for cpu := 0 to CPU_SETSIZE
        invariant hw.Valid() && hw.clock >= old(hw.clock) && hw.regs == old(hw.regs)
        invariant forall l :: l in configs[i].cpus && l < cpu ==> l in hw.regs.assoc && Cos(hw.regs.assoc[l]) == 0
      {
        if cpu !in configs[i].cpus {
          continue;
        }
        var ret, cos := PqosAllocAssocGet(hw, cap, cpu);
        if ret == Param {
          return NoDevice;
        }
        if ret != Ok {
          return Fault;
        }
        if cos != 0 {
          return Busy;
        }
      }
    }
    status := Success;
  }

  method CheckSupported(cap: Cap, configs: seq<Config>) returns (status: Status)
    ensures status == if forall i :: 0 <= i < |configs| ==> Supported(cap, configs[i]) then Success else NotSupported
  {
    for i := 0 to |configs|
      invariant forall j :: 0 <= j < i ==> Supported(cap, configs[j])
    {
      if L3Valid(configs[i].l3) && cap.l3.None? {
        return NotSupported;
      }
      if L2Valid(configs[i].l2) && cap.l2.None? {
        return NotSupported;
      }
      if MbaValid(configs[i].mba) && cap.mba.None? {
        return NotSupported;
      }
    }
    status := Success;
  }

  method CheckCdpSupport(cap: Cap, configs: seq<Config>) returns (status: Status)
    ensures status == if forall i :: 0 <= i < |configs| ==> CdpSupported(cap, configs[i]) then Success else NotSupported
  {
    var enabled := cap.l3.Some? && cap.l3.value.cdp && cap.l3.value.cdpOn;
    if enabled {
      return Success;
    }
    for i := 0 to |configs|
      invariant forall j :: 0 <= j < i ==> configs[j].l3.L3Ways?
    {
      if configs[i].l3.L3Cdp? {
        return NotSupported;
      }
    }
    status := Success;
  }

  /** A mask against the complement of the cache's ways. */
  predicate TooLong(mask: Word, numWays: nat)
    requires numWays < 64
  {
    Pow2Monotone(numWays, 64);
    And(mask, Pow2(64) - Pow2(numWays)) != 0
  }

  lemma TooLongIffAbove(mask: Word, numWays: nat)
    requires numWays < 64
    ensures TooLong(mask, numWays) <==> mask >= Pow2(numWays)
  {
    Pow2Limits();
    AndAbove(mask, numWays, 64);
  }

  function CumulativeMask(ca: L3Ca): nat {
    match ca
    case L3Ways(_, m) => m
    case L3Cdp(_, d, c) => Or(c, d)
  }

  ghost predicate L2MaskFits(numWays: nat, cfg: Config) {
    L2Valid(cfg.l2) ==> cfg.l2.ways < Pow2(numWays)
  }

  ghost predicate L3MasksFit(numWays: nat, cfg: Config) {
    L3Valid(cfg.l3) ==>
      match cfg.l3
      case L3Ways(_, m) => m < Pow2(numWays)
      case L3Cdp(_, d, c) => d < Pow2(numWays) && c < Pow2(numWays)
  }

  method CheckL2CbmLen(numWays: nat, configs: seq<Config>) returns (status: Status)
    requires numWays < 64
    ensures status == Success <==> numWays > 0 && forall i :: 0 <= i < |configs| ==> L2MaskFits(numWays, configs[i])
  {
    if numWays == 0 {
      return InvalidArgument;
    }
    for i := 0 to |configs|
      invariant forall j :: 0 <= j < i ==> L2MaskFits(numWays, configs[j])
    {
      TooLongIffAbove(configs[i].l2.ways, numWays);
      if L2Valid(configs[i].l2) && TooLong(configs[i].l2.ways, numWays) {
        return NotSupported;
      }
    }
    status := Success;
  }

  /** One bit pattern covers both masks of an entry. */
  lemma CumulativeFits(ca: L3Ca, n: nat)
    requires n < 64
    ensures CumulativeMask(ca) < WORD_LIMIT
    ensures CumulativeMask(ca) < Pow2(n) <==>
      match ca case L3Ways(_, m) => m < Pow2(n) case L3Cdp(_, d, c) => d < Pow2(n) && c < Pow2(n)
    ensures CumulativeMask(ca) < Pow2(n) ==> CumulativeMask(ca) != WORD_LIMIT - 1
  {
    Pow2Limits();
    Pow2Monotone(n, 63);
    assert Pow2(64) == 2 * Pow2(63);
    if ca.L3Cdp? {
      OrBelow(ca.code, ca.data, 64);
      OrBelow(ca.code, ca.data, n);
    }
  }

  method CheckL3CbmLen(numWays: nat, configs: seq<Config>) returns (status: Status)
    requires numWays < 64
    ensures status == Success <==> numWays > 0 && forall i :: 0 <= i < |configs| ==> L3MasksFit(numWays, configs[i])
  {
    if numWays == 0 {
      return InvalidArgument;
    }
    for i := 0 to |configs|
      invariant forall j :: 0 <= j < i ==> L3MasksFit(numWays, configs[j])
    {
      if !L3Valid(configs[i].l3) {
        continue;
      }
      CumulativeFits(configs[i].l3, numWays);
      var mask := CumulativeMask(configs[i].l3);
      if mask == WORD_LIMIT - 1 {
        return Fault;
      }
      TooLongIffAbove(mask, numWays);
      if TooLong(mask, numWays) {
        return NotSupported;
      }
    }
    status := Success;
  }

  method CheckCpusOverlapping(configs: seq<Config>) returns (status: Status)
    ensures status == if Disjoint(configs) then Success else InvalidArgument
  {
    for i := 0 to |configs|
      invariant forall p, q :: 0 <= p < i && p < q < |configs| ==> configs[p].cpus !! configs[q].cpus
    {
      for j := i + 1 to |configs|
        invariant forall q :: i < q < j ==> configs[i].cpus !! configs[q].cpus
      {
        var common: set<nat> := configs[i].cpus * configs[j].cpus;
        if |common| != 0 {
          return InvalidArgument;
        }
        assert forall l :: l in configs[i].cpus && l in configs[j].cpus ==> l in common;
      }
    }
    status := Success;
  }

  /** The capability tables report at least one way. */
  ghost predicate SomeWays(cap: Cap) {
    (cap.l3.Some? ==> cap.l3.value.numWays > 0) && (cap.l2.Some? ==> cap.l2.value.numWays > 0)
  }

  method AllocValidate(hw: Msr, cap: Cap, configs: seq<Config>) returns (status: Status)
    requires hw.Valid()
    requires cap.l3.Some? ==> cap.l3.value.numWays < 64
    requires cap.l2.Some? ==> cap.l2.value.numWays < 64
    modifies hw`clock
    ensures hw.Valid() && hw.clock >= old(hw.clock)
    ensures status == Success ==> ValidConfigs(cap, hw.regs.assoc, configs)
    ensures hw.NoFault(old(hw.clock), hw.clock) && (cap.l2.Some? || cap.l3.Some?) && SomeWays(cap)
      && ValidConfigs(cap, hw.regs.assoc, configs)
      ==> status == Success
  {
    status := CheckCpus(hw, cap, configs);
    if status != Success {
      return;
    }
    status := CheckSupported(cap, configs);
    if status != Success {
      return;
    }
    status := CheckCdpSupport(cap, configs);
    if status != Success {
      return;
    }
    if cap.l2.Some? {
      status := CheckL2CbmLen(cap.l2.value.numWays, configs);
      if status != Success {
        return;
      }
    }
    if cap.l3.Some? {
      status := CheckL3CbmLen(cap.l3.value.numWays, configs);
      if status != Success {
        return;
      }
    }
    status := CheckCpusOverlapping(configs);
  }
}
