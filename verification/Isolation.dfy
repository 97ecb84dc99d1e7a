/** What keeps CPU groups apart, in sockets and in L2 clusters, when one more of them is served. */
module Isolation {
  import opened Bits
  import opened Topology
  import opened Registers
  import opened Capabilities
  import opened MbaRate
  import opened CosAssign
  import opened ClassConfig
  import opened RdtConfig
  import opened RdtClass

  /** A socket or an L2 cluster. */
  datatype Place = Place(scope: Scope, id: nat) {
    predicate Has(c: CoreInfo) {
      IdOf(c, scope) == id
    }
  }

  /** No core there outside the group shares a non-zero class with one inside. */
  ghost predicate Separate(cpu: seq<CoreInfo>, at: Place, assoc: AssocRegs, cpus: set<nat>)
    requires Lcores(cpu) <= assoc.Keys
  {
    forall x, y :: (x in cpu && y in cpu && at.Has(x) && at.Has(y) && x.lcore in cpus && y.lcore !in cpus
                    && Cos(assoc[x.lcore]) != 0) ==> Cos(assoc[x.lcore]) != Cos(assoc[y.lcore])
  }

  /** Class `c` stands for the configuration in the socket, or in the L2 cluster. */
  ghost predicate ShownIn(chip: Chip, cap: Cap, scope: Scope, start: Regs, now: Regs, id: nat, c: nat, cfg: Config)
    requires UsableCap(cap)
  {
    if scope == Socket then L3Shown(chip, cap, start.l3, now.l3, id, c, cfg) && ThrottleShown(cap, now.mba, id, c, cfg)
    else L2Valid(cfg.l2) ==> L2Shown(chip, cap, start.l2, now.l2, id, c, cfg)
  }

  /** The class exists for all that the configuration asks for. */
  ghost predicate CanHold(cap: Cap, c: nat, cfg: Config) {
    && (L3Valid(cfg.l3) ==> c < cap.L3Classes())
    && (L2Valid(cfg.l2) ==> c < cap.L2Classes())
    && (MbaValid(cfg.mba) ==> c < cap.MbaClasses())
  }

  /** The CPU is in a non-zero class that stands for the configuration. */
  ghost predicate Served(chip: Chip, cap: Cap, scope: Scope, start: Regs, now: Regs, cfg: Config, l: nat)
    requires UsableCap(cap)
  {
    && l in now.assoc && Lookup(chip.cpu, l).Some? && Cos(now.assoc[l]) != 0
    && CanHold(cap, Cos(now.assoc[l]), cfg)
    && ShownIn(chip, cap, scope, start, now, IdOf(Lookup(chip.cpu, l).value, scope), Cos(now.assoc[l]), cfg)
  }

  /** The group's CPUs there are served. */
  ghost predicate AllServed(chip: Chip, cap: Cap, at: Place, start: Regs, now: Regs, cfg: Config)
    requires UsableCap(cap)
  {
    forall l :: l in cfg.cpus && Within(chip.cpu, at.scope, at.id, l) ==>
      Served(chip, cap, at.scope, start, now, cfg, l)
  }

  function MaskBank(scope: Scope, r: Regs): Bank {
    if scope == Socket then r.l3 else r.l2
  }

  predicate Paired(scope: Scope, cap: Cap) {
    scope == Socket && cap.CdpOn()
  }

  /** Masks of classes that nobody holds there are as at the start. */
  ghost predicate IdleKept(chip: Chip, cap: Cap, at: Place, start: Regs, now: Regs)
    requires Lcores(chip.cpu) <= now.assoc.Keys
  {
    var was, shown := MaskBank(at.scope, start), MaskBank(at.scope, now);
    was.Keys == shown.Keys &&
    forall k, c: nat ::
      (k in was && k.0 == at.id && c > 0 && OfClass(Paired(at.scope, cap), c, k.1)
       && !CosUsed(chip.cpu, now.assoc, at.scope, at.id, c)) ==> shown[k] == was[k]
  }

  // ----- one step -----

  /** A class handed to cores of one socket or cluster, and then defined through core `ci`. */
  datatype Serving = Serving(unit: Scope, before: Regs, cores: set<nat>, ci: CoreInfo, c: UInt, after: Regs)

  /** An unused class is handed to `cores`, which had class 0, and defined through core `ci`. */
  ghost predicate Step(chip: Chip, cap: Cap, s: Serving) {
    && ValidRegs(chip, s.before) && ValidRegs(chip, s.after) && s.ci in chip.cpu && s.ci.lcore in s.cores
    && 0 < s.c && !CosUsed(chip.cpu, s.before.assoc, s.unit, IdOf(s.ci, s.unit), s.c)
    && (forall l :: l in s.cores ==>
      Within(chip.cpu, s.unit, IdOf(s.ci, s.unit), l) && l in s.before.assoc && Cos(s.before.assoc[l]) == 0)
    && ClassDefined(cap, s.before.(assoc := Retag(s.before.assoc, s.cores, s.c)), s.after, s.ci, s.c)
  }

  lemma StepShape(chip: Chip, cap: Cap, s: Serving)
    requires Step(chip, cap, s)
    ensures WellFormed(chip.cpu) && s.ci in chip.cpu && s.ci.lcore in s.cores && s.c > 0
    ensures Lcores(chip.cpu) == s.before.assoc.Keys == s.after.assoc.Keys
    ensures s.after.assoc == Retag(s.before.assoc, s.cores, s.c)
    ensures forall l :: l in s.cores ==> l in s.before.assoc && Cos(s.before.assoc[l]) == 0
  {
  }

  lemma RetaggedClass(assoc: AssocRegs, cores: set<nat>, c: UInt, l: nat)
    ensures l in assoc ==> Cos(Retag(assoc, cores, c)[l]) == if l in cores then c else Cos(assoc[l])
    ensures l in assoc ==> Retag(assoc, cores, c)[l] % COS_SHIFT == assoc[l] % COS_SHIFT
  {
    if l in assoc {
      AssocFields(assoc[l], c, 0);
    }
  }

  /** Where the step keeps groups apart: in all clusters, and in sockets unless it searched one
      cluster of this socket. */
  predicate KeepsApart(s: Serving, at: Place) {
    || (at.scope == L2Cluster && s.unit != L3Cluster)
    || (at.scope == Socket && (s.unit == Socket || (s.unit == L2Cluster && s.ci.socket != at.id)))
  }

  lemma SameUnit(chip: Chip, cap: Cap, s: Serving, x: CoreInfo)
    requires Step(chip, cap, s) && x in chip.cpu && x.lcore in s.cores
    ensures IdOf(x, s.unit) == IdOf(s.ci, s.unit)
    ensures s.unit == L2Cluster ==> x.socket == s.ci.socket
  {
    assert Within(chip.cpu, s.unit, IdOf(s.ci, s.unit), x.lcore);
    WithinUnique(chip.cpu, s.unit, x);
  }

  /** The class is new to every core near one of those it is handed to. */
  lemma FreshNear(chip: Chip, cap: Cap, s: Serving, at: Place, x: CoreInfo, y: CoreInfo)
    requires Step(chip, cap, s) && KeepsApart(s, at)
    requires x in chip.cpu && y in chip.cpu && x.lcore in s.cores && at.Has(x) && at.Has(y)
    ensures Cos(s.before.assoc[y.lcore]) != s.c
  {
    SameUnit(chip, cap, s, x);
    if s.unit == at.scope || s.unit == Socket {
      assert IdOf(y, s.unit) == IdOf(s.ci, s.unit);
    }
  }

  /** Nobody there on the other side of the group holds the class that cores there are handed. */
  ghost predicate NotShared(chip: Chip, s: Serving, at: Place, cpus: set<nat>)
    requires Lcores(chip.cpu) <= s.before.assoc.Keys
  {
    forall x, y :: (x in chip.cpu && y in chip.cpu && at.Has(x) && at.Has(y)
                    && x.lcore in s.cores && (x.lcore in cpus <==> y.lcore !in cpus))
                   ==> Cos(s.before.assoc[y.lcore]) != s.c
  }

  /** Handing a class to cores of one group keeps a group separate exactly if the two groups do not come to share it. */
  lemma SeparateIff(chip: Chip, cap: Cap, s: Serving, at: Place, cpus: set<nat>)
    requires Step(chip, cap, s) && (s.cores <= cpus || s.cores !! cpus)
    requires Lcores(chip.cpu) <= s.before.assoc.Keys && Separate(chip.cpu, at, s.before.assoc, cpus)
    ensures Lcores(chip.cpu) <= s.after.assoc.Keys
    ensures Separate(chip.cpu, at, s.after.assoc, cpus) <==> NotShared(chip, s, at, cpus)
  {
    hide Step, WellFormed, Retag;
    StepShape(chip, cap, s);
    forall x | x in chip.cpu
      ensures Cos(s.after.assoc[x.lcore]) == if x.lcore in s.cores then s.c else Cos(s.before.assoc[x.lcore])
    {
      RetaggedClass(s.before.assoc, s.cores, s.c, x.lcore);
    }
  }

  /** So an unused class keeps every group separate. */
  lemma StepKeepsSeparate(chip: Chip, cap: Cap, s: Serving, at: Place, cpus: set<nat>)
    requires Step(chip, cap, s) && KeepsApart(s, at)
    requires s.cores <= cpus || s.cores !! cpus
    requires Lcores(chip.cpu) <= s.before.assoc.Keys && Separate(chip.cpu, at, s.before.assoc, cpus)
    ensures Lcores(chip.cpu) <= s.after.assoc.Keys && Separate(chip.cpu, at, s.after.assoc, cpus)
  {
    hide Step, WellFormed, Retag, Separate, KeepsApart;
    StepShape(chip, cap, s);
    SeparateIff(chip, cap, s, at, cpus);
    forall x, y | x in chip.cpu && y in chip.cpu && x.lcore in s.cores && at.Has(x) && at.Has(y)
      ensures Cos(s.before.assoc[y.lcore]) != s.c
    {
      FreshNear(chip, cap, s, at, x, y);
    }
  }

  /** Definitions of another class, or elsewhere, are not disturbed. */
  lemma ShownStays(chip: Chip, cap: Cap, scope: Scope, start: Regs, before: Regs, after: Regs, ci: CoreInfo, c: nat,
                   id: nat, d: nat, cfg: Config)
    requires UsableCap(cap) && ClassDefined(cap, before, after, ci, c) && (scope == Socket || scope == L2Cluster)
    requires id != IdOf(ci, scope) || d != c
    requires ShownIn(chip, cap, scope, start, before, id, d, cfg)
    ensures ShownIn(chip, cap, scope, start, after, id, d, cfg)
  {
    hide MsrThrottle, L3For, L2For, BitCount;
  }

  /** Every CPU outside the cores handed over stays served. */
  lemma StepKeepsServed(chip: Chip, cap: Cap, s: Serving, at: Place, start: Regs, cfg: Config, l: nat)
    requires UsableCap(cap) && Step(chip, cap, s) && KeepsApart(s, at) && Within(chip.cpu, at.scope, at.id, l)
    requires Served(chip, cap, at.scope, start, s.before, cfg, l) && l !in s.cores
    ensures Served(chip, cap, at.scope, start, s.after, cfg, l)
  {
    hide WellFormed, ValidRegs, ClassDefined, L3Shown, L2Shown, ThrottleShown, CanHold, Within;
    StepShape(chip, cap, s);
    WithinLookup(chip.cpu, at.scope, at.id, l);
    var x := Lookup(chip.cpu, l).value;
    var mid := s.before.(assoc := Retag(s.before.assoc, s.cores, s.c));
    RetaggedClass(s.before.assoc, s.cores, s.c, l);
    if at.Has(s.ci) {
      FreshNear(chip, cap, s, at, s.ci, x);
    }
    ShownStays(chip, cap, at.scope, start, mid, s.after, s.ci, s.c, at.id, Cos(s.before.assoc[l]), cfg);
  }

  /** A mask that was ignored is as at the start, for nobody held the class. */
  lemma ShownSinceStart(chip: Chip, cap: Cap, at: Place, start: Regs, before: Regs, after: Regs, c: nat, cfg: Config)
    requires UsableCap(cap) && (at.scope == Socket || at.scope == L2Cluster) && c > 0
    requires Lcores(chip.cpu) <= before.assoc.Keys
    requires IdleKept(chip, cap, at, start, before) && !CosUsed(chip.cpu, before.assoc, at.scope, at.id, c)
    requires ShownIn(chip, cap, at.scope, before, after, at.id, c, cfg)
    ensures ShownIn(chip, cap, at.scope, start, after, at.id, c, cfg)
  {
    hide MsrThrottle, L3For, L2For, BitCount, CosUsed;
  }

  /** The cores handed over are served, if the class stands for the request where it was defined. */
  lemma StepServes(chip: Chip, cap: Cap, s: Serving, at: Place, start: Regs, cfg: Config, l: nat)
    requires UsableCap(cap) && Step(chip, cap, s) && KeepsApart(s, at) && Within(chip.cpu, at.scope, at.id, l)
    requires s.unit == ScopeOf(Technology(cfg)) && CanHold(cap, s.c, cfg) && l in s.cores
    requires Lcores(chip.cpu) <= s.before.assoc.Keys && IdleKept(chip, cap, at, start, s.before)
    requires ShownIn(chip, cap, at.scope, s.before, s.after, IdOf(s.ci, at.scope), s.c, cfg)
    ensures Served(chip, cap, at.scope, start, s.after, cfg, l)
  {
    hide WellFormed, ValidRegs, ClassDefined, L3Shown, L2Shown, ThrottleShown, CanHold, IdleKept, Within;
    StepShape(chip, cap, s);
    RetaggedClass(s.before.assoc, s.cores, s.c, l);
    WithinLookup(chip.cpu, at.scope, at.id, l);
    SameUnit(chip, cap, s, Lookup(chip.cpu, l).value);
    if at.scope == s.unit {
      NobodyHolds(chip, cap, s, at);
      ShownSinceStart(chip, cap, at, start, s.before, s.after, s.c, cfg);
    }
  }

  lemma NobodyHolds(chip: Chip, cap: Cap, s: Serving, at: Place)
    requires Step(chip, cap, s) && KeepsApart(s, at) && at.Has(s.ci)
    ensures Lcores(chip.cpu) <= s.before.assoc.Keys && !CosUsed(chip.cpu, s.before.assoc, at.scope, at.id, s.c)
  {
    StepShape(chip, cap, s);
    forall y | y in chip.cpu && at.Has(y) ensures Cos(s.before.assoc[y.lcore]) != s.c {
      FreshNear(chip, cap, s, at, s.ci, y);
    }
  }

  lemma StepKeepsIdle(chip: Chip, cap: Cap, s: Serving, at: Place, start: Regs)
    requires Step(chip, cap, s) && (at.scope == Socket || at.scope == L2Cluster)
    requires Lcores(chip.cpu) <= s.before.assoc.Keys && IdleKept(chip, cap, at, start, s.before)
    ensures Lcores(chip.cpu) <= s.after.assoc.Keys && IdleKept(chip, cap, at, start, s.after)
  {
    hide Step, WellFormed, ValidRegs, CosUsed, Retag, OfClass;
    StepShape(chip, cap, s);
    var was, shown := MaskBank(at.scope, start), MaskBank(at.scope, s.after);
    RegistersStay(chip, cap, s, at.scope);
    forall k, d: nat | k in was && k.0 == at.id && d > 0 && OfClass(Paired(at.scope, cap), d, k.1)
      && !CosUsed(chip.cpu, s.after.assoc, at.scope, at.id, d)
      ensures shown[k] == was[k]
    {
      NowHeld(chip, cap, s, at.scope);
      IdleBefore(chip, cap, s, at.scope, at.id, d);
    }
  }

  lemma NowHeld(chip: Chip, cap: Cap, s: Serving, scope: Scope)
    requires Step(chip, cap, s)
    ensures Lcores(chip.cpu) <= s.after.assoc.Keys && CosUsed(chip.cpu, s.after.assoc, scope, IdOf(s.ci, scope), s.c)
  {
    StepShape(chip, cap, s);
    RetaggedClass(s.before.assoc, s.cores, s.c, s.ci.lcore);
  }

  lemma RegistersStay(chip: Chip, cap: Cap, s: Serving, scope: Scope)
    requires Step(chip, cap, s) && (scope == Socket || scope == L2Cluster)
    ensures
      var was, shown := MaskBank(scope, s.before), MaskBank(scope, s.after);
      was.Keys == shown.Keys
      && forall k, d: nat ::
        k in was && OfClass(Paired(scope, cap), d, k.1) && !(k.0 == IdOf(s.ci, scope) && d == s.c) ==>
        shown[k] == was[k]
  {
    hide ValidRegs, CosUsed, Retag;
  }

  lemma IdleBefore(chip: Chip, cap: Cap, s: Serving, scope: Scope, id: nat, d: nat)
    requires Step(chip, cap, s) && d > 0
    requires Lcores(chip.cpu) <= s.after.assoc.Keys && !CosUsed(chip.cpu, s.after.assoc, scope, id, d)
    ensures Lcores(chip.cpu) <= s.before.assoc.Keys && !CosUsed(chip.cpu, s.before.assoc, scope, id, d)
  {
    StepShape(chip, cap, s);
    forall y | y in chip.cpu && IdOf(y, scope) == id ensures Cos(s.before.assoc[y.lcore]) != d {
      RetaggedClass(s.before.assoc, s.cores, s.c, y.lcore);
    }
  }

  /** The L3 request of a served CPU is in force exactly if the hardware takes its masks, or showed
      those it ignores already. */
  lemma ServedInForceIff(chip: Chip, cap: Cap, start: Regs, now: Regs, cfg: Config, l: nat)
    requires UsableCap(cap) && Served(chip, cap, Socket, start, now, cfg, l) && L3Valid(cfg.l3)
    ensures cap.l3.Some? && Lookup(chip.cpu, l).Some?
    ensures
      var socket, c := Lookup(chip.cpu, l).value.socket, Cos(now.assoc[l]);
      && HasL3Regs(start.l3, socket, cap.CdpOn(), c) && HasL3Regs(now.l3, socket, cap.CdpOn(), c)
      && var asked, held := L3For(cap, cfg.l3, c), ReadL3(start.l3, socket, cap.CdpOn(), c);
         ReadL3(now.l3, socket, cap.CdpOn(), c) == Normal(cap.CdpOn(), asked) <==>
           && (BitCount(DataMask(asked)) >= chip.l3Min || DataMask(held) == DataMask(asked))
           && (BitCount(CodeMask(asked)) >= chip.l3Min || CodeMask(held) == CodeMask(asked))
  {
    RequestInForceIff(chip, cap, start.l3, now.l3, Lookup(chip.cpu, l).value.socket, Cos(now.assoc[l]), cfg);
  }
}
