/** Configuring CPU groups on the register interface: `alloc_configure` and its parts (rdtset/rdt.c). */
module Rdtset {
  import opened Bits
  import opened Results
  import opened Topology
  import opened Registers
  import opened Capabilities
  import opened CosAssign
  import opened Api
  import opened ClassBudget
  import opened RdtConfig
  import opened RdtClass
  import opened Isolation

  /** Only COS halves of the group's cores differ. */
  ghost predicate CosOnly(before: AssocRegs, after: AssocRegs, cpus: set<nat>) {
    && before.Keys == after.Keys
    && (forall l :: l in before ==> after[l] % COS_SHIFT == before[l] % COS_SHIFT)
    && (forall l :: l in before && l !in cpus ==> after[l] == before[l])
  }

  // ----- core lists -----

  /** Cores of the set that lie in a socket or L2 cluster, in topology order. */
  method SelectCores(cpu: seq<CoreInfo>, cpus: CpuSet, scope: Scope, id: nat) returns (cores: seq<nat>)
    ensures forall l :: l in cores <==> l in cpus && Within(cpu, scope, id, l)
  {
    cores := [];
    for i := 0 to |cpu|
      invariant forall l :: l in cores <==> l in cpus && Within(cpu[..i], scope, id, l)
    {
      assert cpu[..i + 1] == cpu[..i] + [cpu[i]];
      if IdOf(cpu[i], scope) == id && cpu[i].lcore in cpus {
        cores := cores + [cpu[i].lcore];
      }
    }
    assert cpu[..|cpu|] == cpu;
  }

  method CoresIn(cpu: seq<CoreInfo>, cpus: CpuSet) returns (cores: seq<nat>)
    requires WellFormed(cpu)
    ensures Members(cores) == Lcores(cpu) * cpus && |cores| <= |cpus|
  {
    hide WellFormed, Lcores;
    cores := [];
    NoLcores(cpu);
    for i := 0 to |cpu|
      invariant Members(cores) == Lcores(cpu[..i]) * cpus && |Members(cores)| == |cores|
    {
      LcoresOneMore(cpu, i);
      if cpu[i].lcore in cpus {
        assert Members(cores + [cpu[i].lcore]) == Members(cores) + {cpu[i].lcore};
        cores := cores + [cpu[i].lcore];
      }
    }
    assert cpu[..|cpu|] == cpu;
    SubsetSize(Members(cores), cpus);
  }

  /** Number of socket or cluster ids a technology selection ranges over; 0 is an error. */
  method GetMaxResId(cpu: seq<CoreInfo>, tech: Tech) returns (max: nat)
    ensures !tech.Any() ==> max == 0
    ensures tech.l2 ==> max >= |Ids(cpu, L2Cluster)|
    ensures tech.l3 || tech.mba ==> max >= |Ids(cpu, Socket)|
    ensures max == 0 || max == |Ids(cpu, L2Cluster)| || max == |Ids(cpu, Socket)|
  {
    max := 0;
    if !tech.Any() {
      return;
    }
    if tech.l2 {
      var ids := GetIds(cpu, L2Cluster);
      max := if |ids| > max then |ids| else max;
    }
    if tech.l3 || tech.mba {
      var ids := GetIds(cpu, Socket);
      max := if |ids| > max then |ids| else max;
    }
  }

  // ----- serving one group -----

  lemma CosOnlyRefl(assoc: AssocRegs, cpus: set<nat>)
    ensures CosOnly(assoc, assoc, cpus)
  {
  }

  lemma CosOnlyRetag(start: AssocRegs, before: AssocRegs, cores: set<nat>, c: UInt, cpus: set<nat>)
    requires CosOnly(start, before, cpus) && cores <= cpus
    ensures CosOnly(start, Retag(before, cores, c), cpus)
  {
    forall l | l in before ensures Retag(before, cores, c)[l] % COS_SHIFT == before[l] % COS_SHIFT {
      AssocFields(before[l], c, 0);
    }
  }

  /** One socket or cluster of a group: assign a class to its cores and define it. */
  method ServeId(hw: Msr, cap: Cap, cfg: Config, id: nat) returns (status: Status, ghost c: UInt, ghost moved: set<nat>)
    requires hw.Valid() && UsableCap(cap) && Technology(cfg).Any()
    modifies hw
    ensures hw.Valid() && hw.clock >= old(hw.clock)
    ensures CosOnly(old(hw.regs.assoc), hw.regs.assoc, cfg.cpus)
    ensures status == Success && WaitingAt(hw.chip.cpu, cfg, id, old(hw.regs.assoc)) ==>
      Untouched(hw.chip.cpu, cfg, id, old(hw.regs), hw.regs) || Handed(hw.chip, cap, cfg, id, old(hw.regs), c, hw.regs)
    ensures moved <= cfg.cpus && Inside(hw.chip.cpu, Unit(cfg), id, moved)
    ensures hw.regs.assoc == Retag(old(hw.regs.assoc), moved, c)
    ensures hw.NoFault(old(hw.clock), hw.clock) && (cap.l2.Some? || cap.l3.Some?) && Definable(hw.chip, cap, cfg)
      && (AnyThere(hw.chip.cpu, cfg.cpus, Unit(cfg), id) ==>
            FreeThere(hw.chip.cpu, cap, Technology(cfg), old(hw.regs.assoc), id))
      ==> status == Success
  {
    hide ValidRegs, WellFormed, CosOnly, ClassDefined, ClassShown, FreshClass, Retag, Within, Verdict, Step, Definable,
      Handed, FreeThere, WaitingAt, CanHold;
    c, moved := 0, {};
    CosOnlyRefl(hw.regs.assoc, cfg.cpus);
    RetagNone(hw.regs.assoc, c);
    var tech := Technology(cfg);
    var cores := SelectCores(hw.chip.cpu, cfg.cpus, ScopeOf(tech), id);
    if |cores| == 0 {
      return Success, c, moved;
    }
    assert cores[0] in cores;
    AssignSucceeds(hw.chip, hw.regs, cap, tech, id, cores);
    var ret, cosId;
    ghost var done;
    ghost var before := hw.regs;
    ret, cosId, done := PqosAllocAssign(hw, cap, tech, cores);
    assert Members(cores[..done]) <= cfg.cpus;
    CosOnlyRetag(before.assoc, before.assoc, Members(cores[..done]), cosId, cfg.cpus);
    c, moved := cosId, Members(cores[..done]);
    if ret != Ok {
      return if ret == Resource then Busy else Fault, c, moved;
    }
    assert cores[..done] == cores;
    ghost var mid := hw.regs;
    status := CfgConfigureCos(hw, cap, cfg, cores[0], cosId);
    SameAssoc(hw.chip.cpu, cap, mid, hw.regs, cores[0], cosId);
    if status == Success && WaitingAt(hw.chip.cpu, cfg, id, before.assoc) {
      HandedOver(hw.chip, cap, cfg, id, before, mid, cores, c, hw.regs);
    }
  }

  /** The group has a core in the socket or cluster. */
  ghost predicate AnyThere(cpu: seq<CoreInfo>, cpus: set<nat>, scope: Scope, id: nat) {
    exists l :: l in cpus && Within(cpu, scope, id, l)
  }

  /** A class that can hold the request is unused there. */
  ghost predicate FreeThere(cpu: seq<CoreInfo>, cap: Cap, tech: Tech, assoc: AssocRegs, id: nat)
    requires tech.Any() && Lcores(cpu) <= assoc.Keys
  {
    HiCos(cap, tech).Some? && HighestFree(cpu, assoc, ScopeOf(tech), id, HiCos(cap, tech).value) > 0
  }

  lemma AssignSucceeds(chip: Chip, r: Regs, cap: Cap, tech: Tech, id: nat, cores: seq<nat>)
    requires ValidRegs(chip, r) && tech.Any() && cores != []
    requires forall l :: l in cores ==> Within(chip.cpu, ScopeOf(tech), id, l)
    ensures Lookup(chip.cpu, cores[0]).Some?
    ensures FreeThere(chip.cpu, cap, tech, r.assoc, id) ==> Verdict(chip.cpu, cap, tech, r.assoc, cores) == Ok
  {
    assert cores[0] in cores;
    var x :| x in chip.cpu && x.lcore == cores[0] && IdOf(x, ScopeOf(tech)) == id;
    LookupIsUnique(chip.cpu, x);
  }

  lemma SameAssoc(cpu: seq<CoreInfo>, cap: Cap, before: Regs, after: Regs, core: nat, c: nat)
    requires
      if Lookup(cpu, core).None? then after == before
      else ClassDefined(cap, before, after, Lookup(cpu, core).value, c)
    ensures after.assoc == before.assoc
  {
  }

  /** A configuration gets its classes per socket, or per L2 cluster if it asks for L2. */
  function Unit(cfg: Config): Scope {
    ScopeOf(Technology(cfg))
  }

  ghost function CoresAt(cpu: seq<CoreInfo>, cfg: Config, id: nat): set<nat> {
    set l | l in cfg.cpus && Within(cpu, Unit(cfg), id, l)
  }

  /** The group's cores there are in class 0. */
  ghost predicate WaitingAt(cpu: seq<CoreInfo>, cfg: Config, id: nat, assoc: AssocRegs) {
    forall l :: l in CoresAt(cpu, cfg, id) ==> l in assoc && Cos(assoc[l]) == 0
  }

  ghost predicate Untouched(cpu: seq<CoreInfo>, cfg: Config, id: nat, before: Regs, after: Regs) {
    after == before && CoresAt(cpu, cfg, id) == {}
  }

  /** The group's cores there were given class `c`, which stands for its request. */
  ghost predicate Handed(chip: Chip, cap: Cap, cfg: Config, id: nat, before: Regs, c: UInt, after: Regs)
    requires UsableCap(cap)
  {
    exists ci: CoreInfo ::
      && IdOf(ci, Unit(cfg)) == id && CanHold(cap, c, cfg)
      && Step(chip, cap, Serving(Unit(cfg), before, CoresAt(chip.cpu, cfg, id), ci, c, after))
      && ClassShown(chip, cap, before, after, ci, c, cfg)
  }

  lemma HandedOver(chip: Chip, cap: Cap, cfg: Config, id: nat, before: Regs, mid: Regs, cores: seq<nat>, c: UInt,
      after: Regs)
    requires UsableCap(cap) && ValidRegs(chip, before) && ValidRegs(chip, after)
    requires Technology(cfg).Any() && cores != [] && WaitingAt(chip.cpu, cfg, id, before.assoc)
    requires forall l :: l in cores <==> l in cfg.cpus && Within(chip.cpu, Unit(cfg), id, l)
    requires FreshClass(chip.cpu, cap, Technology(cfg), before.assoc, cores, c)
    requires Lookup(chip.cpu, cores[0]).Some?
    requires mid == before.(assoc := Retag(before.assoc, Members(cores), c))
    requires ClassDefined(cap, mid, after, Lookup(chip.cpu, cores[0]).value, c)
    requires ClassShown(chip, cap, mid, after, Lookup(chip.cpu, cores[0]).value, c, cfg)
    ensures Handed(chip, cap, cfg, id, before, c, after)
  {
    hide ValidRegs, WellFormed, ClassDefined, ClassShown, Within, Step, FreshClass, CanHold, Retag, UsableCap, CosUsed,
      Technology;
    ShapeOf(chip, before);
    var ci := Lookup(chip.cpu, cores[0]).value;
    assert cores[0] in cores;
    WithinLookup(chip.cpu, Unit(cfg), id, cores[0]);
    assert Members(cores) == CoresAt(chip.cpu, cfg, id);
    FreshIsUnused(chip.cpu, cap, cfg, before.assoc, cores, c, id);
    StepOver(chip, cap, Serving(Unit(cfg), before, Members(cores), ci, c, after), mid);
    ShownFromMid(chip, cap, before, mid, after, ci, c, cfg);
    assert Step(chip, cap, Serving(Unit(cfg), before, CoresAt(chip.cpu, cfg, id), ci, c, after));
    assert IdOf(ci, Unit(cfg)) == id && CanHold(cap, c, cfg) && ClassShown(chip, cap, before, after, ci, c, cfg);
  }

  lemma FreshIsUnused(cpu: seq<CoreInfo>, cap: Cap, cfg: Config, assoc: AssocRegs, cores: seq<nat>, c: UInt, id: nat)
    requires WellFormed(cpu) && Lcores(cpu) <= assoc.Keys && Technology(cfg).Any() && cores != []
    requires FreshClass(cpu, cap, Technology(cfg), assoc, cores, c) && Within(cpu, Unit(cfg), id, cores[0])
    ensures c > 0 && !CosUsed(cpu, assoc, Unit(cfg), id, c) && CanHold(cap, c, cfg)
  {
    hide WellFormed, Within, CosUsed;
    var found :| AllWithin(cpu, Unit(cfg), found, cores)
      && c == HighestFree(cpu, assoc, Unit(cfg), found, HiCos(cap, Technology(cfg)).value);
    assert cores[0] in cores;
    WithinLookup(cpu, Unit(cfg), id, cores[0]);
    WithinLookup(cpu, Unit(cfg), found, cores[0]);
  }

  lemma StepOver(chip: Chip, cap: Cap, s: Serving, mid: Regs)
    requires ValidRegs(chip, s.before) && ValidRegs(chip, s.after) && s.ci in chip.cpu && s.ci.lcore in s.cores
      && 0 < s.c
    requires Lcores(chip.cpu) <= s.before.assoc.Keys
      && !CosUsed(chip.cpu, s.before.assoc, s.unit, IdOf(s.ci, s.unit), s.c)
    requires forall l :: l in s.cores ==> Within(chip.cpu, s.unit, IdOf(s.ci, s.unit), l)
    requires forall l :: l in s.cores ==> l in s.before.assoc && Cos(s.before.assoc[l]) == 0
    requires mid == s.before.(assoc := Retag(s.before.assoc, s.cores, s.c))
      && ClassDefined(cap, mid, s.after, s.ci, s.c)
    ensures Step(chip, cap, s)
  {
    hide ValidRegs, ClassDefined, Retag, CosUsed, Within;
  }

  lemma ShownFromMid(chip: Chip, cap: Cap, before: Regs, mid: Regs, after: Regs, ci: CoreInfo, c: nat, cfg: Config)
    requires UsableCap(cap) && before == mid.(assoc := before.assoc) && ClassShown(chip, cap, mid, after, ci, c, cfg)
    ensures ClassShown(chip, cap, before, after, ci, c, cfg)
  {
    hide L3Shown, L2Shown, ThrottleShown;
  }

  // ----- what serving one group does -----

  /** Where serving the group keeps groups apart: in every cluster, and in sockets unless it asks for L2 there. */
  ghost predicate FitsAt(cpu: seq<CoreInfo>, at: Place, cfg: Config) {
    at.scope == L2Cluster || (at.scope == Socket && (Unit(cfg) == Socket || !AnyThere(cpu, cfg.cpus, Socket, at.id)))
  }

  lemma FitsStep(chip: Chip, cap: Cap, s: Serving, at: Place, cfg: Config, n: nat)
    requires Step(chip, cap, s) && s.unit == Unit(cfg) && s.cores == CoresAt(chip.cpu, cfg, n)
    requires FitsAt(chip.cpu, at, cfg)
    ensures KeepsApart(s, at)
  {
    StepShape(chip, cap, s);
    hide Step, WellFormed;
    assert Within(chip.cpu, Socket, s.ci.socket, s.ci.lcore) by {
      assert IdOf(s.ci, Socket) == s.ci.socket;
    }
  }

  /** Other groups' CPUs stay served and separate. */
  ghost predicate OthersKept(chip: Chip, cap: Cap, at: Place, start: Regs, before: Regs, after: Regs, cpus: set<nat>)
    requires UsableCap(cap) && Lcores(chip.cpu) <= before.assoc.Keys && Lcores(chip.cpu) <= after.assoc.Keys
  {
    && (forall cfg: Config, l: nat ::
          (l !in cpus && Within(chip.cpu, at.scope, at.id, l) && Served(chip, cap, at.scope, start, before, cfg, l)) ==>
          Served(chip, cap, at.scope, start, after, cfg, l))
    && (forall group: set<nat> :: group !! cpus && Separate(chip.cpu, at, before.assoc, group) ==>
          Separate(chip.cpu, at, after.assoc, group))
  }

  lemma StepKeepsOthers(chip: Chip, cap: Cap, s: Serving, at: Place, start: Regs, first: Regs, cpus: set<nat>)
    requires UsableCap(cap) && Step(chip, cap, s) && KeepsApart(s, at) && s.cores <= cpus
    requires Lcores(chip.cpu) <= first.assoc.Keys && Lcores(chip.cpu) <= s.before.assoc.Keys
    requires OthersKept(chip, cap, at, start, first, s.before, cpus)
    ensures Lcores(chip.cpu) <= s.after.assoc.Keys && OthersKept(chip, cap, at, start, first, s.after, cpus)
  {
    hide Step, Separate, Served, Within, KeepsApart;
    StepShape(chip, cap, s);
    forall cfg: Config, l: nat | l !in cpus && Within(chip.cpu, at.scope, at.id, l)
      && Served(chip, cap, at.scope, start, first, cfg, l)
      ensures Served(chip, cap, at.scope, start, s.after, cfg, l)
    {
      StepKeepsServed(chip, cap, s, at, start, cfg, l);
    }
    forall group: set<nat> | group !! cpus && Separate(chip.cpu, at, first.assoc, group)
      ensures Separate(chip.cpu, at, s.after.assoc, group)
    {
      StepKeepsSeparate(chip, cap, s, at, group);
    }
  }

  /** The group's cores in the first `n` sockets or clusters are served, the others wait, and nobody else was
      disturbed. */
  ghost predicate ServedBelow(chip: Chip, cap: Cap, at: Place, start: Regs, first: Regs, now: Regs, cfg: Config,
      n: nat)
    requires UsableCap(cap) && ValidRegs(chip, first) && ValidRegs(chip, now)
  {
    && OthersKept(chip, cap, at, start, first, now, cfg.cpus)
    && IdleKept(chip, cap, at, start, now)
    && Separate(chip.cpu, at, now.assoc, cfg.cpus)
    && (forall l: nat, id: nat ::
          (id < n && l in CoresAt(chip.cpu, cfg, id) && Within(chip.cpu, at.scope, at.id, l)) ==>
          Served(chip, cap, at.scope, start, now, cfg, l))
  }

  lemma NothingServedYet(chip: Chip, cap: Cap, at: Place, start: Regs, first: Regs, cfg: Config)
    requires UsableCap(cap) && ValidRegs(chip, first) && CpusFree(first.assoc, cfg.cpus)
    requires IdleKept(chip, cap, at, start, first)
    ensures ServedBelow(chip, cap, at, start, first, first, cfg, 0)
  {
    hide ValidRegs, IdleKept, Served;
    ShapeOf(chip, first);
  }

  lemma OneMoreServed(chip: Chip, cap: Cap, at: Place, start: Regs, first: Regs, before: Regs, c: UInt, after: Regs,
      cfg: Config, n: nat)
    requires UsableCap(cap) && ValidRegs(chip, first) && ValidRegs(chip, before) && ValidRegs(chip, after)
    requires FitsAt(chip.cpu, at, cfg) && ServedBelow(chip, cap, at, start, first, before, cfg, n)
    requires Untouched(chip.cpu, cfg, n, before, after) || Handed(chip, cap, cfg, n, before, c, after)
    ensures ServedBelow(chip, cap, at, start, first, after, cfg, n + 1)
  {
    hide ValidRegs, WellFormed, ServedBelow, Step, CoresAt, ClassShown, CanHold, IdleKept, Served;
    if Untouched(chip.cpu, cfg, n, before, after) {
      NobodyThere(chip, cap, at, start, first, after, cfg, n);
    } else {
      var ci: CoreInfo :| IdOf(ci, Unit(cfg)) == n && CanHold(cap, c, cfg)
        && Step(chip, cap, Serving(Unit(cfg), before, CoresAt(chip.cpu, cfg, n), ci, c, after))
        && ClassShown(chip, cap, before, after, ci, c, cfg);
      ShownThere(chip, cap, at, before, after, ci, c, cfg);
      FitsStep(chip, cap, Serving(Unit(cfg), before, CoresAt(chip.cpu, cfg, n), ci, c, after), at, cfg, n);
      StepServesGroup(chip, cap, Serving(Unit(cfg), before, CoresAt(chip.cpu, cfg, n), ci, c, after), at, start,
        first, cfg, n);
    }
  }

  lemma NobodyThere(chip: Chip, cap: Cap, at: Place, start: Regs, first: Regs, now: Regs, cfg: Config, n: nat)
    requires UsableCap(cap) && ValidRegs(chip, first) && ValidRegs(chip, now)
    requires ServedBelow(chip, cap, at, start, first, now, cfg, n) && CoresAt(chip.cpu, cfg, n) == {}
    ensures ServedBelow(chip, cap, at, start, first, now, cfg, n + 1)
  {
    hide ValidRegs, OthersKept, IdleKept, Separate, Served, CoresAt;
  }

  lemma StepServesGroup(chip: Chip, cap: Cap, s: Serving, at: Place, start: Regs, first: Regs, cfg: Config, n: nat)
    requires UsableCap(cap) && ValidRegs(chip, first) && ValidRegs(chip, s.before) && ValidRegs(chip, s.after)
    requires KeepsApart(s, at) && ServedBelow(chip, cap, at, start, first, s.before, cfg, n)
    requires Step(chip, cap, s) && s.unit == Unit(cfg) && s.cores == CoresAt(chip.cpu, cfg, n)
    requires CanHold(cap, s.c, cfg) && ShownIn(chip, cap, at.scope, s.before, s.after, IdOf(s.ci, at.scope), s.c, cfg)
    ensures ServedBelow(chip, cap, at, start, first, s.after, cfg, n + 1)
  {
    hide ValidRegs, WellFormed, OthersKept, IdleKept, Separate, Served, Step, CoresAt, CanHold, ShownIn, UsableCap,
      Retag;
    ShapeOf(chip, first);
    StepShape(chip, cap, s);
    OwnCores(chip.cpu, cfg, n);
    StepKeepsOthers(chip, cap, s, at, start, first, cfg.cpus);
    StepKeepsSeparate(chip, cap, s, at, cfg.cpus);
    StepKeepsIdle(chip, cap, s, at, start);
    forall l: nat, id: nat | id < n + 1 && l in CoresAt(chip.cpu, cfg, id) && Within(chip.cpu, at.scope, at.id, l)
      ensures Served(chip, cap, at.scope, start, s.after, cfg, l)
    {
      if l in s.cores {
        StepServes(chip, cap, s, at, start, cfg, l);
      } else {
        StepKeepsServed(chip, cap, s, at, start, cfg, l);
      }
    }
  }

  lemma OwnCores(cpu: seq<CoreInfo>, cfg: Config, id: nat)
    ensures CoresAt(cpu, cfg, id) <= cfg.cpus
  {
  }

  lemma ShownThere(chip: Chip, cap: Cap, at: Place, before: Regs, after: Regs, ci: CoreInfo, c: nat, cfg: Config)
    requires UsableCap(cap) && ClassShown(chip, cap, before, after, ci, c, cfg)
      && (at.scope == Socket || at.scope == L2Cluster)
    ensures ShownIn(chip, cap, at.scope, before, after, IdOf(ci, at.scope), c, cfg)
  {
  }

  lemma StillWaiting(chip: Chip, cap: Cap, cfg: Config, before: Regs, c: UInt, after: Regs, n: nat, id: nat)
    requires UsableCap(cap) && id != n && WaitingAt(chip.cpu, cfg, id, before.assoc)
    requires Untouched(chip.cpu, cfg, n, before, after) || Handed(chip, cap, cfg, n, before, c, after)
    ensures WaitingAt(chip.cpu, cfg, id, after.assoc)
  {
    hide Step, ClassShown, CanHold, WellFormed, Within, Retag;
    if !Untouched(chip.cpu, cfg, n, before, after) {
      var ci: CoreInfo :| Step(chip, cap, Serving(Unit(cfg), before, CoresAt(chip.cpu, cfg, n), ci, c, after));
      StepShape(chip, cap, Serving(Unit(cfg), before, CoresAt(chip.cpu, cfg, n), ci, c, after));
      forall l | l in CoresAt(chip.cpu, cfg, id) ensures l in after.assoc && Cos(after.assoc[l]) == 0 {
        WithinLookup(chip.cpu, Unit(cfg), id, l);
        if l in CoresAt(chip.cpu, cfg, n) {
          WithinLookup(chip.cpu, Unit(cfg), n, l);
        }
        RetaggedClass(before.assoc, CoresAt(chip.cpu, cfg, n), c, l);
      }
    }
  }

  /** The group is served and separate, and the others are as they were. */
  ghost predicate GroupServed(chip: Chip, cap: Cap, at: Place, start: Regs, first: Regs, now: Regs, cfg: Config)
    requires UsableCap(cap) && ValidRegs(chip, first) && ValidRegs(chip, now)
  {
    && OthersKept(chip, cap, at, start, first, now, cfg.cpus)
    && IdleKept(chip, cap, at, start, now)
    && Separate(chip.cpu, at, now.assoc, cfg.cpus)
    && AllServed(chip, cap, at, start, now, cfg)
  }

  /** Wherever the group fits, if idle masks were as at the start. */
  ghost predicate ServedWhereFit(chip: Chip, cap: Cap, start: Regs, first: Regs, now: Regs, cfg: Config)
    requires UsableCap(cap) && ValidRegs(chip, first) && ValidRegs(chip, now)
  {
    && Lcores(chip.cpu) <= first.assoc.Keys
    && forall at: Place :: FitsAt(chip.cpu, at, cfg) && IdleKept(chip, cap, at, start, first) ==>
      GroupServed(chip, cap, at, start, first, now, cfg)
  }

  lemma EveryIdBelow(chip: Chip, cap: Cap, at: Place, start: Regs, first: Regs, now: Regs, cfg: Config, n: nat)
    requires UsableCap(cap) && ValidRegs(chip, first) && ValidRegs(chip, now)
    requires ServedBelow(chip, cap, at, start, first, now, cfg, n) && CpusFree(first.assoc, cfg.cpus)
    requires Dense(chip.cpu, Unit(cfg)) && n >= |Ids(chip.cpu, Unit(cfg))|
    ensures GroupServed(chip, cap, at, start, first, now, cfg)
  {
    hide ValidRegs, WellFormed, OthersKept, IdleKept, Separate, Served;
    ShapeOf(chip, first);
    forall l | l in cfg.cpus && Within(chip.cpu, at.scope, at.id, l)
      ensures Served(chip, cap, at.scope, start, now, cfg, l)
    {
      assert l in Lcores(chip.cpu);
      var x :| x in chip.cpu && x.lcore == l;
      assert IdOf(x, Unit(cfg)) < n;
      assert l in CoresAt(chip.cpu, cfg, IdOf(x, Unit(cfg)));
    }
  }

  /** Wherever the group fits; the rest of its cores wait. */
  ghost predicate ServedSoFar(chip: Chip, cap: Cap, start: Regs, first: Regs, now: Regs, cfg: Config, n: nat)
    requires UsableCap(cap) && ValidRegs(chip, first) && ValidRegs(chip, now)
  {
    && Lcores(chip.cpu) <= first.assoc.Keys
    && (forall at: Place :: FitsAt(chip.cpu, at, cfg) && IdleKept(chip, cap, at, start, first) ==>
          ServedBelow(chip, cap, at, start, first, now, cfg, n))
    && (forall id: nat :: id >= n ==> WaitingAt(chip.cpu, cfg, id, now.assoc))
  }

  lemma SoFarAtFirst(chip: Chip, cap: Cap, start: Regs, first: Regs, cfg: Config)
    requires UsableCap(cap) && ValidRegs(chip, first) && CpusFree(first.assoc, cfg.cpus)
    ensures ServedSoFar(chip, cap, start, first, first, cfg, 0)
  {
    hide ValidRegs, IdleKept, ServedBelow;
    ShapeOf(chip, first);
    forall at: Place | FitsAt(chip.cpu, at, cfg) && IdleKept(chip, cap, at, start, first)
      ensures ServedBelow(chip, cap, at, start, first, first, cfg, 0)
    {
      NothingServedYet(chip, cap, at, start, first, cfg);
    }
  }

  lemma SoFarWaiting(chip: Chip, cap: Cap, start: Regs, first: Regs, now: Regs, cfg: Config, n: nat)
    requires UsableCap(cap) && ValidRegs(chip, first) && ValidRegs(chip, now)
    requires ServedSoFar(chip, cap, start, first, now, cfg, n)
    ensures WaitingAt(chip.cpu, cfg, n, now.assoc)
  {
  }

  lemma SoFarOneMore(chip: Chip, cap: Cap, start: Regs, first: Regs, before: Regs, c: UInt, after: Regs, cfg: Config,
      n: nat)
    requires UsableCap(cap) && ValidRegs(chip, first) && ValidRegs(chip, before) && ValidRegs(chip, after)
    requires ServedSoFar(chip, cap, start, first, before, cfg, n)
    requires Untouched(chip.cpu, cfg, n, before, after) || Handed(chip, cap, cfg, n, before, c, after)
    ensures ServedSoFar(chip, cap, start, first, after, cfg, n + 1)
  {
    hide ValidRegs, IdleKept, ServedBelow, WaitingAt, Untouched, Handed;
    forall at: Place | FitsAt(chip.cpu, at, cfg) && IdleKept(chip, cap, at, start, first)
      ensures ServedBelow(chip, cap, at, start, first, after, cfg, n + 1)
    {
      OneMoreServed(chip, cap, at, start, first, before, c, after, cfg, n);
    }
    forall id: nat | id >= n + 1 ensures WaitingAt(chip.cpu, cfg, id, after.assoc) {
      StillWaiting(chip, cap, cfg, before, c, after, n, id);
    }
  }

  lemma SoFarAtEnd(chip: Chip, cap: Cap, start: Regs, first: Regs, now: Regs, cfg: Config, n: nat)
    requires UsableCap(cap) && ValidRegs(chip, first) && ValidRegs(chip, now) && CpusFree(first.assoc, cfg.cpus)
    requires ServedSoFar(chip, cap, start, first, now, cfg, n) && Lcores(chip.cpu) <= first.assoc.Keys
    requires Dense(chip.cpu, Unit(cfg)) && n >= |Ids(chip.cpu, Unit(cfg))|
    ensures ServedWhereFit(chip, cap, start, first, now, cfg)
  {
    hide ValidRegs, IdleKept, ServedBelow, GroupServed, Dense, CpusFree;
    forall at: Place | FitsAt(chip.cpu, at, cfg) && IdleKept(chip, cap, at, start, first)
      ensures GroupServed(chip, cap, at, start, first, now, cfg)
    {
      EveryIdBelow(chip, cap, at, start, first, now, cfg, n);
    }
  }

  /** `cfg_set_cores_msr`: a class for the group on every socket (or L2 cluster) where it has cores. Masks are compared
      to `start`, some state in which the idle classes had the masks they have now. */
  method CfgSetCoresMsr(hw: Msr, cap: Cap, cfg: Config, ghost start: Regs) returns (status: Status)
    requires hw.Valid() && UsableCap(cap)
    modifies hw
    ensures hw.Valid() && hw.clock >= old(hw.clock)
    ensures CosOnly(old(hw.regs.assoc), hw.regs.assoc, cfg.cpus)
    ensures !Technology(cfg).Any() ==> status == Fault
    ensures status == Success && CpusFree(old(hw.regs.assoc), cfg.cpus) && Dense(hw.chip.cpu, Unit(cfg)) ==>
      ServedWhereFit(hw.chip, cap, start, old(hw.regs), hw.regs, cfg)
    ensures AddsFew(hw.chip.cpu, cfg.cpus, Unit(cfg), old(hw.regs.assoc), hw.regs.assoc)
    ensures hw.NoFault(old(hw.clock), hw.clock) && hw.chip.cpu != [] && (cap.l2.Some? || cap.l3.Some?)
      && Definable(hw.chip, cap, cfg)
      && FreeWhereNeeded(hw.chip.cpu, cap, cfg, old(hw.regs.assoc))
      ==> status == Success
  {
    hide ValidRegs, WellFormed, CosOnly, Within, Dense, CpusFree, Definable, FreeThere, AnyThere, Handed, Progress,
      Inside, AddsFew, Retag, FreeWhereNeeded, ServedSoFar, ServedWhereFit, Untouched, Technology, UsableCap,
      GroupServed, IdleKept, WaitingAt, CosUsed, HighestFree, UsedClasses, CoresAt, Lookup;
    CosOnlyRefl(hw.regs.assoc, cfg.cpus);
    ShapeOf(hw.chip, hw.regs);
    NoProgress(hw.chip.cpu, cfg.cpus, Unit(cfg), hw.regs.assoc);
    var tech := Technology(cfg);
    var max := GetMaxResId(hw.chip.cpu, tech);
    if max == 0 {
      NeedsTechnology(hw.chip.cpu, cap, cfg, hw.regs.assoc);
      ProgressAddsFew(hw.chip.cpu, cfg.cpus, Unit(cfg), hw.regs.assoc, hw.regs.assoc, 0);
      return Fault;
    }
    ghost var free := CpusFree(hw.regs.assoc, cfg.cpus);
    if free {
      SoFarAtFirst(hw.chip, cap, start, hw.regs, cfg);
    }
    for i := 0 to max
      invariant hw.Valid() && hw.clock >= old(hw.clock)
      invariant CosOnly(old(hw.regs.assoc), hw.regs.assoc, cfg.cpus)
      invariant free ==> ServedSoFar(hw.chip, cap, start, old(hw.regs), hw.regs, cfg, i)
      invariant Progress(hw.chip.cpu, cfg.cpus, Unit(cfg), old(hw.regs.assoc), hw.regs.assoc, i)
    {
      ghost var c, moved;
      ghost var before := hw.regs;
      ShapeOf(hw.chip, before);
      StillFreeThere(hw.chip.cpu, cap, cfg, old(hw.regs.assoc), before.assoc, i);
      if free {
        SoFarWaiting(hw.chip, cap, start, old(hw.regs), before, cfg, i);
      }
      status, c, moved := ServeId(hw, cap, cfg, i);
      MoreProgress(hw.chip.cpu, cfg.cpus, Unit(cfg), old(hw.regs.assoc), before.assoc, moved, c, i);
      CosOnlyTrans(old(hw.regs.assoc), before.assoc, hw.regs.assoc, cfg.cpus);
      if status != Success {
        ProgressAddsFew(hw.chip.cpu, cfg.cpus, Unit(cfg), old(hw.regs.assoc), hw.regs.assoc, i + 1);
        return;
      }
      if free {
        SoFarOneMore(hw.chip, cap, start, old(hw.regs), before, c, hw.regs, cfg, i);
      }
    }
    status := Success;
    ProgressAddsFew(hw.chip.cpu, cfg.cpus, Unit(cfg), old(hw.regs.assoc), hw.regs.assoc, max);
    if free && Dense(hw.chip.cpu, Unit(cfg)) {
      SoFarAtEnd(hw.chip, cap, start, old(hw.regs), hw.regs, cfg, max);
    }
  }

  // ----- when a group can be served -----

  /** Wherever the group has cores, a class is unused. */
  ghost predicate FreeWhereNeeded(cpu: seq<CoreInfo>, cap: Cap, cfg: Config, assoc: AssocRegs)
    requires Lcores(cpu) <= assoc.Keys
  {
    Technology(cfg).Any() && forall id: nat ::
      AnyThere(cpu, cfg.cpus, ScopeOf(Technology(cfg)), id) ==> FreeThere(cpu, cap, Technology(cfg), assoc, id)
  }

  lemma NeedsTechnology(cpu: seq<CoreInfo>, cap: Cap, cfg: Config, assoc: AssocRegs)
    requires Lcores(cpu) <= assoc.Keys
    ensures FreeWhereNeeded(cpu, cap, cfg, assoc) ==> Technology(cfg).Any()
  {
  }

  lemma StillFreeThere(cpu: seq<CoreInfo>, cap: Cap, cfg: Config, start: AssocRegs, now: AssocRegs, n: nat)
    requires Progress(cpu, cfg.cpus, Unit(cfg), start, now, n)
    ensures FreeWhereNeeded(cpu, cap, cfg, start) && AnyThere(cpu, cfg.cpus, ScopeOf(Technology(cfg)), n) ==>
      FreeThere(cpu, cap, Technology(cfg), now, n)
  {
    if FreeWhereNeeded(cpu, cap, cfg, start) && AnyThere(cpu, cfg.cpus, ScopeOf(Technology(cfg)), n) {
      assert FreeThere(cpu, cap, Technology(cfg), start, n);
      SameFree(cpu, start, now, ScopeOf(Technology(cfg)), n, HiCos(cap, Technology(cfg)).value);
    }
  }

  lemma CosOnlyTrans(a: AssocRegs, b: AssocRegs, d: AssocRegs, cpus: set<nat>)
    requires CosOnly(a, b, cpus) && CosOnly(b, d, cpus)
    ensures CosOnly(a, d, cpus)
  {
  }

  // ----- the whole configuration -----

  /** `alloc_release`: the set's cores back to class 0. */
  method AllocRelease(hw: Msr, cpus: CpuSet) returns (status: Status, ghost done: set<nat>)
    requires hw.Valid()
    modifies hw
    ensures hw.Valid() && hw.clock >= old(hw.clock)
    ensures done <= cpus && (status == Success && cpus <= old(hw.regs.assoc.Keys) ==> done == cpus)
    ensures hw.clock <= old(hw.clock) + 2 * |cpus|
    ensures BestEffort(hw.fails, old(hw.clock), hw.clock, cpus * old(hw.regs.assoc.Keys), done)
    ensures hw.regs == old(hw.regs).(assoc := Retag(old(hw.regs.assoc), done, 0))
    ensures hw.NoFault(old(hw.clock), hw.clock) && cpus <= old(hw.regs.assoc.Keys) ==> status == Success
  {
    hide ValidRegs, WellFormed, BestEffort, Retag, Members, Lcores;
    done := {};
    ShapeOf(hw.chip, hw.regs);
    ghost var known := hw.regs.assoc.Keys;
    if |cpus| == 0 {
      RetagNone(hw.regs.assoc, 0);
      NothingWanted(hw.fails, hw.clock, hw.clock, {});
      assert cpus == {} && cpus * known == {};
      return Success, done;
    }
    var cores := CoresIn(hw.chip.cpu, cpus);
    KnownOnly(known, cpus, cores);
    var ret;
    ret, done := PqosAllocRelease(hw, cores);
    status := if ret == Ok then Success else Fault;
  }

  lemma KnownOnly(known: set<nat>, cpus: set<nat>, cores: seq<nat>)
    requires Members(cores) == known * cpus
    ensures Members(cores) * known == cpus * known && Members(cores) <= cpus && Members(cores) <= known
    ensures cpus <= known ==> Members(cores) == cpus && (cpus != {} ==> cores != [])
  {
  }

  ghost function CpusOf(configs: seq<Config>, n: nat): set<nat>
    requires n <= |configs|
  {
    if n == 0 then {} else CpusOf(configs, n - 1) + configs[n - 1].cpus
  }

  lemma CpusOfContains(configs: seq<Config>, n: nat)
    requires n <= |configs|
    ensures forall i :: 0 <= i < n ==> configs[i].cpus <= CpusOf(configs, n)
    ensures forall l :: l in CpusOf(configs, n) ==> exists i :: 0 <= i < n && l in configs[i].cpus
  {
  }

  /** In the socket or cluster, the first `n` groups are served, and each has its classes to itself. */
  ghost predicate Isolated(chip: Chip, cap: Cap, at: Place, start: Regs, now: Regs, configs: seq<Config>, n: nat)
    requires UsableCap(cap) && ValidRegs(chip, now) && n <= |configs|
  {
    forall i :: 0 <= i < n ==>
      Separate(chip.cpu, at, now.assoc, configs[i].cpus) && AllServed(chip, cap, at, start, now, configs[i])
  }

  /** No group with a core there asks for L2. */
  ghost predicate NoL2Request(cpu: seq<CoreInfo>, socket: nat, configs: seq<Config>) {
    forall i :: 0 <= i < |configs| && Technology(configs[i]).l2 ==> !AnyThere(cpu, configs[i].cpus, Socket, socket)
  }

  /** Serving group `n` keeps the groups before it isolated. */
  lemma OneMoreIsolated(chip: Chip, cap: Cap, at: Place, start: Regs, before: Regs, after: Regs,
      configs: seq<Config>, n: nat)
    requires UsableCap(cap) && ValidRegs(chip, before) && ValidRegs(chip, after) && n < |configs| && Disjoint(configs)
    requires Isolated(chip, cap, at, start, before, configs, n)
    requires GroupServed(chip, cap, at, start, before, after, configs[n])
    ensures Isolated(chip, cap, at, start, after, configs, n + 1)
  {
    hide Separate, AllServed, ValidRegs, WellFormed, UsableCap, IdleKept, OthersKept, Served;
    ShapeOf(chip, before);
    ShapeOf(chip, after);
    forall i | 0 <= i < n
      ensures Separate(chip.cpu, at, after.assoc, configs[i].cpus)
        && AllServed(chip, cap, at, start, after, configs[i])
    {
      assert configs[i].cpus !! configs[n].cpus;
      assert Separate(chip.cpu, at, before.assoc, configs[i].cpus);
      GroupKept(chip, cap, at, start, before, after, configs[n].cpus, configs[i]);
    }
  }

  lemma GroupKept(chip: Chip, cap: Cap, at: Place, start: Regs, before: Regs, after: Regs, cpus: set<nat>,
      cfg: Config)
    requires UsableCap(cap) && Lcores(chip.cpu) <= before.assoc.Keys && Lcores(chip.cpu) <= after.assoc.Keys
    requires OthersKept(chip, cap, at, start, before, after, cpus) && cfg.cpus !! cpus
    requires Separate(chip.cpu, at, before.assoc, cfg.cpus) && AllServed(chip, cap, at, start, before, cfg)
    ensures Separate(chip.cpu, at, after.assoc, cfg.cpus) && AllServed(chip, cap, at, start, after, cfg)
  {
    hide Separate, Served, UsableCap;
  }

  /** Where all groups fit, and idle masks are as at the start, the first `n` are isolated. */
  ghost predicate AllIsolated(chip: Chip, cap: Cap, start: Regs, now: Regs, configs: seq<Config>, n: nat)
    requires UsableCap(cap) && ValidRegs(chip, now) && n <= |configs|
  {
    && Lcores(chip.cpu) <= now.assoc.Keys
    && forall at: Place :: FitAll(chip.cpu, at, configs) ==>
      IdleKept(chip, cap, at, start, now) && Isolated(chip, cap, at, start, now, configs, n)
  }

  ghost predicate FitAll(cpu: seq<CoreInfo>, at: Place, configs: seq<Config>) {
    at.scope == L2Cluster || (at.scope == Socket && NoL2Request(cpu, at.id, configs))
  }

  /** Ids are 0..n-1 where a group of the configuration is served. */
  ghost predicate AllDense(cpu: seq<CoreInfo>, configs: seq<Config>) {
    forall i :: 0 <= i < |configs| ==> Dense(cpu, Unit(configs[i]))
  }

  lemma NoneIsolated(chip: Chip, cap: Cap, start: Regs, configs: seq<Config>)
    requires UsableCap(cap) && ValidRegs(chip, start)
    ensures AllIsolated(chip, cap, start, start, configs, 0)
  {
  }

  lemma NextIsolated(chip: Chip, cap: Cap, start: Regs, before: Regs, after: Regs, configs: seq<Config>, n: nat)
    requires UsableCap(cap) && ValidRegs(chip, before) && ValidRegs(chip, after) && n < |configs| && Disjoint(configs)
    requires AllIsolated(chip, cap, start, before, configs, n) && Lcores(chip.cpu) <= before.assoc.Keys
    requires ServedWhereFit(chip, cap, start, before, after, configs[n])
    ensures AllIsolated(chip, cap, start, after, configs, n + 1)
  {
    hide ValidRegs, WellFormed, UsableCap, OthersKept, IdleKept, Isolated, Separate, AllServed, Disjoint;
    ShapeOf(chip, after);
    forall at: Place | FitAll(chip.cpu, at, configs)
      ensures IdleKept(chip, cap, at, start, after) && Isolated(chip, cap, at, start, after, configs, n + 1)
    {
      assert FitsAt(chip.cpu, at, configs[n]);
      OneMoreIsolated(chip, cap, at, start, before, after, configs, n);
    }
  }

  /** All groups can be served: what a run that meets no fault needs to succeed. */
  ghost predicate Servable(chip: Chip, cap: Cap, assoc: AssocRegs, configs: seq<Config>)
    requires UsableCap(cap) && Lcores(chip.cpu) <= assoc.Keys
  {
    && chip.cpu != [] && (cap.l2.Some? || cap.l3.Some?) && SomeWays(cap)
    && ValidConfigs(cap, assoc, configs) && AllDefinable(chip, cap, configs)
    && EnoughClasses(chip.cpu, cap, assoc, configs)
  }

  /** After a rollback each CPU in `stuck` takes a failing access; when none of the last accesses failed, at most two
      for each CPU of the groups, all associations are as at the start. */
  ghost predicate Restored(start: AssocRegs, now: AssocRegs, fails: nat -> bool, first: nat, clock: nat, all: set<nat>,
      stuck: set<nat>)
  {
    && CosOnly(start, now, stuck) && stuck <= all && |stuck| <= Failures(fails, first, clock)
    && ((forall n: nat :: Before(clock, 2 * |all|) <= n < clock ==> !fails(n)) ==> now == start)
  }

  lemma RolledBack(start: AssocRegs, now: AssocRegs, fails: nat -> bool, first: nat, from: nat, to: nat,
      configs: seq<Config>, n: nat, stuck: set<nat>)
    requires n <= |configs| && first <= from
    requires Rolled(start, now, fails, from, to, CpusOf(configs, n), {}, stuck)
    ensures from <= to && CosOnly(start, now, CpusOf(configs, |configs|))
    ensures Restored(start, now, fails, first, to, CpusOf(configs, |configs|), stuck)
    ensures (exists i: nat :: first <= i < from && fails(i)) ==> |stuck| < Failures(fails, first, to)
  {
    hide CosOnly, CpusOf;
    CpusGrow(configs, n);
    AllRolled(start, now, fails, from, to, CpusOf(configs, n), stuck);
    CosOnlyWider(start, now, stuck, CpusOf(configs, |configs|));
    UndoneSince(fails, first, first, from, to, 2 * |CpusOf(configs, |configs|)|);
  }

  lemma NotStarted(start: AssocRegs, fails: nat -> bool, first: nat, clock: nat, all: set<nat>)
    requires first <= clock
    ensures Restored(start, start, fails, first, clock, all, {}) && CosOnly(start, start, all)
    ensures (exists i: nat :: first <= i < clock && fails(i)) ==> 0 < Failures(fails, first, clock)
  {
    NoFailures(fails, first, clock);
  }

  lemma ServableParts(chip: Chip, cap: Cap, assoc: AssocRegs, configs: seq<Config>)
    requires UsableCap(cap) && Lcores(chip.cpu) <= assoc.Keys
    ensures Servable(chip, cap, assoc, configs) ==>
      chip.cpu != [] && (cap.l2.Some? || cap.l3.Some?) && SomeWays(cap) && ValidConfigs(cap, assoc, configs)
    ensures ValidConfigs(cap, assoc, configs) ==>
      Disjoint(configs) && forall j :: 0 <= j < |configs| ==> CpusFree(assoc, configs[j].cpus)
  {
    hide EnoughClasses, AllDefinable, Disjoint, CpusFree;
  }

  lemma ServableGroup(chip: Chip, cap: Cap, start: AssocRegs, now: AssocRegs, configs: seq<Config>, i: nat)
    requires UsableCap(cap) && i < |configs| && WithinBudget(chip.cpu, start, now, configs, i)
    ensures Lcores(chip.cpu) <= start.Keys && Lcores(chip.cpu) <= now.Keys
    ensures Servable(chip, cap, start, configs) ==>
      Definable(chip, cap, configs[i]) && FreeWhereNeeded(chip.cpu, cap, configs[i], now)
  {
    hide EnoughClasses, Definable, FreeWhereNeeded, ValidConfigs;
    if Servable(chip, cap, start, configs) {
      BudgetLeavesFree(chip.cpu, cap, start, now, configs, i);
    }
  }

  /** `alloc_configure`. After a failure `stuck` are the CPUs whose class may not be back. */
  method AllocConfigure(hw: Msr, cap: Cap, configs: seq<Config>) returns (status: Status, ghost stuck: set<nat>)
    requires hw.Valid() && UsableCap(cap)
    modifies hw
    ensures hw.Valid() && hw.clock >= old(hw.clock)
    // isolation
    ensures status == Success ==> ValidConfigs(cap, old(hw.regs.assoc), configs)
    ensures status == Success && AllDense(hw.chip.cpu, configs) ==> forall id ::
      Isolated(hw.chip, cap, Place(L2Cluster, id), old(hw.regs), hw.regs, configs, |configs|)
    ensures status == Success && AllDense(hw.chip.cpu, configs) ==> forall socket ::
      NoL2Request(hw.chip.cpu, socket, configs) ==>
      Isolated(hw.chip, cap, Place(Socket, socket), old(hw.regs), hw.regs, configs, |configs|)
    // rollback
    ensures status != Success ==>
      Restored(old(hw.regs.assoc), hw.regs.assoc, hw.fails, old(hw.clock), hw.clock, CpusOf(configs, |configs|), stuck)
    ensures status != Success && Servable(hw.chip, cap, old(hw.regs.assoc), configs) ==>
      |stuck| < Failures(hw.fails, old(hw.clock), hw.clock)
    // frame
    ensures CosOnly(old(hw.regs.assoc), hw.regs.assoc, CpusOf(configs, |configs|))
    // success
    ensures hw.NoFault(old(hw.clock), hw.clock) && Servable(hw.chip, cap, old(hw.regs.assoc), configs) ==>
      status == Success
  {
    hide ValidRegs, WellFormed, CosOnly, Dense, EnoughClasses, WithinBudget, AddsFew, FreeWhereNeeded, Definable,
      Isolated, ServedWhereFit, GroupServed, IdleKept, Technology, Failures, CpusOf, SomeWays, Rolled, Restored,
      Servable, AllDefinable, ValidConfigs, Disjoint, CpusFree;
    ShapeOf(hw.chip, hw.regs);
    NothingSpent(hw.chip.cpu, hw.regs.assoc, configs);
    ServableParts(hw.chip, cap, hw.regs.assoc, configs);
    stuck := {};
    status := AllocValidate(hw, cap, configs);
    NotStarted(hw.regs.assoc, hw.fails, old(hw.clock), hw.clock, CpusOf(configs, |configs|));
    if status != Success {
      return;
    }
    CosOnlyRefl(hw.regs.assoc, CpusOf(configs, 0));
    NoneIsolated(hw.chip, cap, hw.regs, configs);
    ghost var dense := AllDense(hw.chip.cpu, configs);
    for i := 0 to |configs|
      invariant hw.Valid()
      invariant CosOnly(old(hw.regs.assoc), hw.regs.assoc, CpusOf(configs, i))
      invariant dense ==> AllIsolated(hw.chip, cap, old(hw.regs), hw.regs, configs, i)
      invariant WithinBudget(hw.chip.cpu, old(hw.regs.assoc), hw.regs.assoc, configs, i)
      invariant hw.clock >= old(hw.clock)
    {
      ghost var before := hw.regs;
      ShapeOf(hw.chip, before);
      StillFree(old(hw.regs.assoc), hw.regs.assoc, configs, i, cap);
      ServableGroup(hw.chip, cap, old(hw.regs.assoc), before.assoc, configs, i);
      CpusSpread(configs, i, i + 1);
      status := CfgSetCoresMsr(hw, cap, configs[i], old(hw.regs));
      CosOnlyGrow(old(hw.regs.assoc), before.assoc, hw.regs.assoc, CpusOf(configs, i), configs[i].cpus);
      if status != Success {
        ghost var from := hw.clock;
        stuck := Revert(hw, configs, i, old(hw.regs.assoc));
        RolledBack(old(hw.regs.assoc), hw.regs.assoc, hw.fails, old(hw.clock), from, hw.clock, configs, i + 1, stuck);
        return;
      }
      if dense {
        NextIsolated(hw.chip, cap, old(hw.regs), before, hw.regs, configs, i);
      }
      BudgetStep(hw.chip.cpu, old(hw.regs.assoc), before.assoc, hw.regs.assoc, configs, i);
    }
    status := Success;
  }

  ghost predicate AllDefinable(chip: Chip, cap: Cap, configs: seq<Config>)
    requires UsableCap(cap)
  {
    forall i :: 0 <= i < |configs| ==> Definable(chip, cap, configs[i])
  }

  /** How many classes the first `n` groups take there, one for each unit in which they are served. */
  ghost function Load(cpu: seq<CoreInfo>, configs: seq<Config>, n: nat, scope: Scope, id: nat): nat
    requires n <= |configs|
  {
    if n == 0 then 0
    else Load(cpu, configs, n - 1, scope, id) + |Units(cpu, configs[n - 1].cpus, Unit(configs[n - 1]), scope, id)|
  }

  /** Wherever a group needs a class, those in use and those of earlier groups are fewer than those that can hold its
      request. */
  ghost predicate EnoughClasses(cpu: seq<CoreInfo>, cap: Cap, assoc: AssocRegs, configs: seq<Config>)
    requires Lcores(cpu) <= assoc.Keys
  {
    && (forall i :: 0 <= i < |configs| ==> Technology(configs[i]).Any() && HiCos(cap, Technology(configs[i])).Some?)
    && (forall i, id: nat :: 0 <= i < |configs| && AnyThere(cpu, configs[i].cpus, Unit(configs[i]), id) ==>
          |UsedClasses(cpu, assoc, Unit(configs[i]), id)| + Load(cpu, configs, i, Unit(configs[i]), id)
          < HiCos(cap, Technology(configs[i])).value)
  }

  /** What the first `n` groups took is within their load. */
  ghost predicate WithinBudget(cpu: seq<CoreInfo>, start: AssocRegs, now: AssocRegs, configs: seq<Config>, n: nat)
    requires n <= |configs|
  {
    && Lcores(cpu) <= start.Keys && Lcores(cpu) <= now.Keys
    && forall scope, id: nat :: AddsAtMost(cpu, start, now, scope, id, Load(cpu, configs, n, scope, id))
  }

  lemma NothingSpent(cpu: seq<CoreInfo>, assoc: AssocRegs, configs: seq<Config>)
    requires Lcores(cpu) <= assoc.Keys
    ensures WithinBudget(cpu, assoc, assoc, configs, 0)
  {
  }

  lemma BudgetStep(cpu: seq<CoreInfo>, start: AssocRegs, before: AssocRegs, after: AssocRegs, configs: seq<Config>,
      n: nat)
    requires n < |configs| && WithinBudget(cpu, start, before, configs, n)
    requires AddsFew(cpu, configs[n].cpus, Unit(configs[n]), before, after)
    ensures WithinBudget(cpu, start, after, configs, n + 1)
  {
    hide UsedClasses, Units, Technology;
    var m := n + 1;
    forall scope, id: nat ensures AddsAtMost(cpu, start, after, scope, id, Load(cpu, configs, m, scope, id)) {
      assert AddsAtMost(cpu, start, before, scope, id, Load(cpu, configs, n, scope, id));
      assert AddsAtMost(cpu, before, after, scope, id, |Units(cpu, configs[n].cpus, Unit(configs[n]), scope, id)|);
    }
  }

  lemma BudgetLeavesFree(cpu: seq<CoreInfo>, cap: Cap, start: AssocRegs, now: AssocRegs, configs: seq<Config>, n: nat)
    requires n < |configs| && Lcores(cpu) <= start.Keys && Lcores(cpu) <= now.Keys
    requires EnoughClasses(cpu, cap, start, configs) && WithinBudget(cpu, start, now, configs, n)
    ensures FreeWhereNeeded(cpu, cap, configs[n], now)
  {
    hide UsedClasses, Load, HighestFree;
    var tech := Technology(configs[n]);
    assert tech.Any() && HiCos(cap, tech).Some?;
    forall id: nat | AnyThere(cpu, configs[n].cpus, ScopeOf(tech), id) ensures FreeThere(cpu, cap, tech, now, id) {
      assert AddsAtMost(cpu, start, now, Unit(configs[n]), id, Load(cpu, configs, n, Unit(configs[n]), id));
      FewUsedLeavesFree(cpu, now, ScopeOf(tech), id, HiCos(cap, tech).value);
    }
  }

  lemma StillFree(start: AssocRegs, now: AssocRegs, configs: seq<Config>, i: nat, cap: Cap)
    requires i < |configs| && ValidConfigs(cap, start, configs)
    requires CosOnly(start, now, CpusOf(configs, i))
    ensures CpusFree(now, configs[i].cpus)
  {
    CpusOfContains(configs, i);
    forall l | l in configs[i].cpus ensures l !in CpusOf(configs, i) {
    }
  }

  lemma CosOnlyGrow(a: AssocRegs, b: AssocRegs, d: AssocRegs, some: set<nat>, more: set<nat>)
    requires CosOnly(a, b, some) && CosOnly(b, d, more)
    ensures CosOnly(a, d, some + more)
  {
  }

  lemma CosOnlyWider(a: AssocRegs, b: AssocRegs, some: set<nat>, more: set<nat>)
    requires CosOnly(a, b, some) && some <= more
    ensures CosOnly(a, b, more)
    ensures some == {} ==> a == b
  {
  }

  lemma CpusGrow(configs: seq<Config>, n: nat)
    requires n <= |configs|
    ensures CpusOf(configs, n) <= CpusOf(configs, |configs|) && |CpusOf(configs, n)| <= |CpusOf(configs, |configs|)|
    decreases |configs| - n
  {
    if n < |configs| {
      CpusGrow(configs, n + 1);
    }
    SubsetSize(CpusOf(configs, n), CpusOf(configs, |configs|));
  }

  /** Where a rollback stands when groups from `n` on are released: other than the CPUs of the first `n` groups at
      most `stuck` are not as at the start, one for each failing access, in at most two accesses for each CPU. */
  ghost predicate Rolled(start: AssocRegs, now: AssocRegs, fails: nat -> bool, first: nat, clock: nat, all: set<nat>,
      left: set<nat>, stuck: set<nat>)
  {
    && CosOnly(start, now, stuck + left) && stuck <= all
    && |stuck| <= Failures(fails, first, clock)
    && first <= clock && clock + 2 * |left| <= first + 2 * |all|
  }

  lemma NoneRolled(start: AssocRegs, now: AssocRegs, fails: nat -> bool, first: nat, all: set<nat>)
    requires CosOnly(start, now, all)
    ensures Rolled(start, now, fails, first, first, all, all, {})
  {
    assert {} + all == all;
  }

  lemma RolledMore(start: AssocRegs, before: AssocRegs, fails: nat -> bool, first: nat, from: nat, to: nat,
      configs: seq<Config>, n: nat, all: set<nat>, stuck: set<nat>, done: set<nat>)
    requires n < |configs| && Disjoint(configs) && CpusFree(start, configs[n].cpus) && configs[n].cpus <= all
    requires Rolled(start, before, fails, first, from, all, CpusOf(configs, n + 1), stuck)
    requires BestEffort(fails, from, to, configs[n].cpus * before.Keys, done) && done <= configs[n].cpus
    requires to <= from + 2 * |configs[n].cpus|
    ensures Rolled(start, Retag(before, done, 0), fails, first, to, all, CpusOf(configs, n),
              stuck + (configs[n].cpus - done))
  {
    hide CosOnly, Retag, CpusFree, Disjoint, CpusOf, BestEffort;
    CpusAdd(configs, n);
    CpusSpread(configs, n, n + 1);
    ReleasedGroup(start, before, configs[n].cpus, done, stuck, CpusOf(configs, n));
    SameCores(start, before, stuck + CpusOf(configs, n + 1));
    MoreStuck(fails, first, from, to, start, configs[n].cpus, done, stuck);
  }

  lemma AllRolled(start: AssocRegs, now: AssocRegs, fails: nat -> bool, first: nat, clock: nat, all: set<nat>,
      stuck: set<nat>)
    requires Rolled(start, now, fails, first, clock, all, {}, stuck)
    ensures CosOnly(start, now, stuck) && CosOnly(start, now, all)
  {
    assert stuck + {} == stuck;
    CosOnlyWider(start, now, stuck, all);
  }

  /** The rollback loop: releases groups `i`, `i - 1`, ..., 0, whatever each release returns. */
  method Revert(hw: Msr, configs: seq<Config>, i: nat, ghost start: AssocRegs) returns (ghost stuck: set<nat>)
    requires hw.Valid() && i < |configs| && Disjoint(configs)
    requires forall j :: 0 <= j < |configs| ==> CpusFree(start, configs[j].cpus)
    requires CosOnly(start, hw.regs.assoc, CpusOf(configs, i + 1))
    modifies hw
    ensures hw.Valid()
    ensures Rolled(start, hw.regs.assoc, hw.fails, old(hw.clock), hw.clock, CpusOf(configs, i + 1), {}, stuck)
  {
    hide ValidRegs, WellFormed, Rolled, CosOnly, Retag, BestEffort, CpusFree, Disjoint, CpusOf;
    stuck := {};
    var j := i + 1;
    ghost var all := CpusOf(configs, j);
    NoneRolled(start, hw.regs.assoc, hw.fails, hw.clock, all);
    while j > 0
      invariant 0 <= j <= i + 1 && hw.Valid()
      invariant Rolled(start, hw.regs.assoc, hw.fails, old(hw.clock), hw.clock, all, CpusOf(configs, j), stuck)
    {
      j := j - 1;
      ghost var before, from := hw.regs.assoc, hw.clock;
      var status, done := AllocRelease(hw, configs[j].cpus);
      CpusSpread(configs, j, i + 1);
      RolledMore(start, before, hw.fails, old(hw.clock), from, hw.clock, configs, j, all, stuck, done);
      stuck := stuck + (configs[j].cpus - done);
    }
    NoCpus(configs);
  }

  lemma NoCpus(configs: seq<Config>)
    ensures CpusOf(configs, 0) == {}
  {
  }

  lemma CpusSpread(configs: seq<Config>, j: nat, n: nat)
    requires j < n <= |configs|
    ensures configs[j].cpus <= CpusOf(configs, n) && CpusOf(configs, j + 1) == CpusOf(configs, j) + configs[j].cpus
  {
    CpusOfContains(configs, n);
  }

  lemma CpusAdd(configs: seq<Config>, n: nat)
    requires n < |configs| && Disjoint(configs)
    ensures |CpusOf(configs, n + 1)| == |CpusOf(configs, n)| + |configs[n].cpus|
  {
    CpusOfContains(configs, n);
    assert CpusOf(configs, n) !! configs[n].cpus;
  }

  lemma MoreStuck(fails: nat -> bool, first: nat, from: nat, to: nat, start: AssocRegs, cpus: set<nat>, done: set<nat>,
      stuck: set<nat>)
    requires first <= from && |stuck| <= Failures(fails, first, from) && CpusFree(start, cpus)
    requires BestEffort(fails, from, to, cpus * start.Keys, done)
    ensures |stuck + (cpus - done)| <= Failures(fails, first, to) && from <= to
  {
    FailuresAdd(fails, first, from, to);
    assert cpus * start.Keys == cpus;
    var more := cpus - done - stuck;
    SubsetSize(more, cpus - done);
    assert stuck + (cpus - done) == stuck + more;
  }

  lemma SameCores(a: AssocRegs, b: AssocRegs, cpus: set<nat>)
    requires CosOnly(a, b, cpus)
    ensures a.Keys == b.Keys
  {
  }

  /** Releasing CPUs that were in class 0 at the start puts the registers of those reached back as they were. */
  lemma ReleasedGroup(start: AssocRegs, before: AssocRegs, cpus: set<nat>, done: set<nat>, stuck: set<nat>,
      rest: set<nat>)
    requires CosOnly(start, before, stuck + (rest + cpus)) && CpusFree(start, cpus) && done <= cpus
    ensures CosOnly(start, Retag(before, done, 0), stuck + (cpus - done) + rest)
  {
    var after := Retag(before, done, 0);
    forall l | l in start
      ensures after[l] % COS_SHIFT == start[l] % COS_SHIFT
      ensures l !in stuck + (cpus - done) + rest ==> after[l] == start[l]
    {
      AssocFields(before[l], 0, 0);
      AssocRewrite(start[l], 0, 0);
      if l in done {
        assert after[l] == before[l] % COS_SHIFT == start[l] % COS_SHIFT;
        assert WithCos(start[l], Cos(start[l])) == start[l];
      }
    }
  }
}
