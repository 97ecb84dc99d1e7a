/** Starting and stopping monitoring groups (lib/monitoring.c). */
module Monitoring {
  import opened Bits
  import opened Results
  import opened Topology
  import opened Registers
  import opened CosAssign

  datatype Event = L3Occup | LmemBw | TmemBw | RmemBw | LlcMiss | Ipc

  const PERF_EVENTS: set<Event> := {LlcMiss, Ipc}

  /** One supported event; `scale` turns counter units into bytes. */
  datatype Monitor = Monitor(event: Event, maxRmid: nat, scale: nat)

  datatype MonCap = MonCap(maxRmid: nat, events: seq<Monitor>)

  /** A poll context: the RMID of a group in one L3 cluster, read through `lcore`. */
  datatype Ctx = Ctx(lcore: nat, cluster: nat, rmid: nat)

  // ----- RMIDs in the association registers -----

  /** RMID of the group in a cluster; 0 when the group has none there. */
  function RmidFor(ctxs: seq<Ctx>, cluster: nat): nat {
    if ctxs == [] then 0
    else if ctxs[0].cluster == cluster then ctxs[0].rmid
    else RmidFor(ctxs[1..], cluster)
  }

  ghost predicate InCluster(cpu: seq<CoreInfo>, l: nat, cluster: nat) {
    Lookup(cpu, l).Some? && Lookup(cpu, l).value.l3Id == cluster
  }

  /** Exactly the cores of `tagged` carry the group's RMID of their cluster; all COS halves stay. */
  ghost predicate Tagged(cpu: seq<CoreInfo>, before: AssocRegs, ctxs: seq<Ctx>, tagged: set<nat>,
      after: AssocRegs): (r: bool)
    ensures r ==> CosStep(cpu, before, OtherCall, after)
  {
    && before.Keys == after.Keys == Lcores(cpu)
    && (forall l :: l in before ==> Cos(after[l]) == Cos(before[l]))
    && (forall l :: l in before && l !in tagged ==> Rmid(after[l]) == Rmid(before[l]))
    && (forall l :: l in before && l in tagged ==>
          Lookup(cpu, l).Some? && Rmid(after[l]) == RmidFor(ctxs, Lookup(cpu, l).value.l3Id))
  }

  /** The cores of `done` carry RMID0; all COS halves stay. */
  ghost predicate Cleared(before: AssocRegs, done: set<nat>, after: AssocRegs): (r: bool)
    ensures r ==> forall cpu :: CosStep(cpu, before, OtherCall, after)
  {
    && before.Keys == after.Keys
    && (forall l :: l in before ==> Cos(after[l]) == Cos(before[l]))
    && (forall l :: l in before ==> Rmid(after[l]) == if l in done then 0 else Rmid(before[l]))
  }

  ghost predicate RmidUsed(cpu: seq<CoreInfo>, assoc: AssocRegs, cluster: nat, rmid: nat)
    requires Lcores(cpu) <= assoc.Keys
  {
    exists x :: x in cpu && x.l3Id == cluster && Rmid(assoc[x.lcore]) == rmid
  }

  ghost predicate DistinctClusters(ctxs: seq<Ctx>) {
    forall i, j :: 0 <= i < j < |ctxs| ==> ctxs[i].cluster != ctxs[j].cluster
  }

  /** Every core is known and on RMID0. */
  ghost predicate Unmonitored(cpu: seq<CoreInfo>, assoc: AssocRegs, cores: seq<nat>) {
    forall l :: l in cores ==> l in assoc && Lookup(cpu, l).Some? && Rmid(assoc[l]) == 0
  }

  /** Every core's cluster has a context. */
  ghost predicate Covered(cpu: seq<CoreInfo>, cores: seq<nat>, ctxs: seq<Ctx>) {
    forall l :: l in cores ==> exists k :: 0 <= k < |ctxs| && InCluster(cpu, l, ctxs[k].cluster)
  }

  /** A context of the group: read through one of its cores, with an RMID nobody uses there, and never RMID0. */
  ghost predicate FreshCtx(cpu: seq<CoreInfo>, assoc: AssocRegs, cores: seq<nat>, ctx: Ctx)
    requires Lcores(cpu) <= assoc.Keys
  {
    && ctx.lcore in cores && InCluster(cpu, ctx.lcore, ctx.cluster)
    && 0 < ctx.rmid < RMID_LIMIT
    && !RmidUsed(cpu, assoc, ctx.cluster, ctx.rmid)
  }

  /** Contexts fit for the cores: one per cluster. */
  ghost predicate FreshCtxs(cpu: seq<CoreInfo>, assoc: AssocRegs, cores: seq<nat>, ctxs: seq<Ctx>)
    requires Lcores(cpu) <= assoc.Keys
  {
    && Unmonitored(cpu, assoc, cores)
    && DistinctClusters(ctxs)
    && Covered(cpu, cores, ctxs)
    && (forall k :: 0 <= k < |ctxs| ==> FreshCtx(cpu, assoc, cores, ctxs[k]))
  }

  /** What a start does to the association registers: the cores of `tagged` carry fresh RMIDs, all of them if it
      succeeded. */
  ghost predicate StartStep(cpu: seq<CoreInfo>, before: AssocRegs, cores: seq<nat>, ctxs: seq<Ctx>, tagged: set<nat>,
                            ok: bool, after: AssocRegs)
    requires Lcores(cpu) <= before.Keys
  {
    && cores != [] && tagged <= Members(cores)
    && (ok || tagged != {} ==> FreshCtxs(cpu, before, cores, ctxs))
    && Tagged(cpu, before, ctxs, tagged, after)
    && (ok ==> tagged == Members(cores))
  }

  /** What a stop of a group with these cores does: those of `done` are back on RMID0. */
  ghost predicate StopStep(before: AssocRegs, cores: seq<nat>, done: set<nat>, after: AssocRegs) {
    done <= Members(cores) && Cleared(before, done, after)
  }

  lemma RmidForAt(ctxs: seq<Ctx>, k: nat)
    requires DistinctClusters(ctxs) && k < |ctxs|
    ensures RmidFor(ctxs, ctxs[k].cluster) == ctxs[k].rmid
  {
    if k > 0 {
      assert ctxs[0].cluster != ctxs[k].cluster;
      RmidForAt(ctxs[1..], k - 1);
    }
  }

  // ----- register level -----

  /** Bits 63..32 stay, and the low half is the RMID alone. */
  lemma RmidHalf(assoc: AssocRegs, lcore: nat, rmid: nat)
    ensures lcore in assoc ==>
      && WithRmid(assoc[lcore], rmid) / 0x1_0000_0000 == assoc[lcore] / 0x1_0000_0000
      && WithRmid(assoc[lcore], rmid) % 0x1_0000_0000 == rmid % 1024
  {
  }

  method MonAssocSet(hw: Msr, lcore: nat, rmid: nat) returns (ok: bool)
    requires hw.Valid()
    modifies hw
    ensures hw.Valid() && old(hw.clock) < hw.clock <= old(hw.clock) + 2
    ensures ok ==> lcore in old(hw.regs.assoc)
    ensures lcore in old(hw.regs.assoc) ==> (ok <==> hw.NoFault(old(hw.clock), hw.clock))
    ensures hw.regs == old(hw.regs).(assoc :=
      if ok then old(hw.regs.assoc)[lcore := WithRmid(old(hw.regs.assoc)[lcore], rmid)] else old(hw.regs.assoc))
    ensures ok ==>
      && hw.regs.assoc[lcore] / 0x1_0000_0000 == old(hw.regs.assoc)[lcore] / 0x1_0000_0000
      && hw.regs.assoc[lcore] % 0x1_0000_0000 == rmid % 1024
  {
    hide ValidRegs, WellFormed, WithRmid;
    ShapeOf(hw.chip, hw.regs);
    RmidHalf(hw.regs.assoc, lcore, rmid);
    var val;
    ok, val := hw.Read(lcore, Assoc);
    if !ok {
      return;
    }
    ok := hw.Write(lcore, Assoc, WithRmid(val, rmid));
  }

  method MonAssocGet(hw: Msr, lcore: nat) returns (ok: bool, rmid: nat)
    requires hw.Valid()
    modifies hw`clock
    ensures hw.Valid() && hw.clock > old(hw.clock)
    ensures ok ==> lcore in hw.regs.assoc && rmid == Rmid(hw.regs.assoc[lcore])
    ensures hw.NoFault(old(hw.clock), hw.clock) && lcore in hw.regs.assoc ==> ok
  {
    var val;
    ok, val := hw.Read(lcore, Assoc);
    rmid := Rmid(val);
  }

  // ----- choosing RMIDs -----

  /** Whether the event is in the capability table. */
  function FindEvent(events: seq<Monitor>, e: Event): (r: Option<Monitor>)
    ensures r.Some? ==> r.value in events && r.value.event == e
    ensures r.None? ==> forall m :: m in events ==> m.event != e
  {
    if events == [] then None
    else if events[0].event == e then Some(events[0])
    else FindEvent(events[1..], e)
  }

  /** The smallest of `max` and the RMID counts of the listed events that are asked for. */
  function LowestCount(monitors: seq<Monitor>, events: set<Event>, max: nat): (r: nat)
    ensures r <= max && forall m :: m in monitors && m.event in events ==> r <= m.maxRmid
    ensures r == max || exists m :: m in monitors && m.event in events && r == m.maxRmid
  {
    if monitors == [] then max
    else
      var last := monitors[|monitors| - 1];
      var r := LowestCount(monitors[..|monitors| - 1], events, max);
      assert monitors == monitors[..|monitors| - 1] + [last];
      if last.event in events && last.maxRmid < r then last.maxRmid else r
  }

  /** No monitor listed before it has the event. */
  lemma {:induction false} FoundIsFirst(events: seq<Monitor>, e: Event) returns (p: nat)
    requires FindEvent(events, e).Some?
    ensures p < |events| && FindEvent(events, e) == Some(events[p])
    ensures forall q :: 0 <= q < p ==> events[q].event != e
  {
    p := 0;
    if events[0].event != e {
      p := FoundIsFirst(events[1..], e);
      assert forall q :: 0 < q <= p ==> events[q] == events[1..][q - 1];
      p := p + 1;
    }
  }

  /** How many RMIDs the events can share; None when an event is not listed or there are none. */
  function RmidLimit(mon: MonCap, events: set<Event>): Option<nat> {
    if (exists e :: e in events && FindEvent(mon.events, e).None?)
      || LowestCount(mon.events, events, mon.maxRmid) == 0 then None
    else Some(LowestCount(mon.events, events, mon.maxRmid))
  }

  /** An RMID that every listed event of the group supports. */
  ghost predicate Supported(mon: MonCap, events: set<Event>, rmid: nat) {
    rmid < mon.maxRmid && forall m :: m in mon.events && m.event in events ==> rmid < m.maxRmid
  }

  /** The limit in terms of the table: what is below it is exactly what every event supports. */
  lemma BelowLimit(mon: MonCap, events: set<Event>, r: nat)
    requires RmidLimit(mon, events).Some?
    ensures r < RmidLimit(mon, events).value <==> Supported(mon, events, r)
  {
  }

  /** The context's RMID is the highest that every event supports and nobody carries in the cluster. */
  ghost predicate HighestLeft(cpu: seq<CoreInfo>, assoc: AssocRegs, mon: MonCap, events: set<Event>, ctx: Ctx)
    requires Lcores(cpu) <= assoc.Keys
  {
    && Supported(mon, events, ctx.rmid) && !RmidUsed(cpu, assoc, ctx.cluster, ctx.rmid)
    && forall r :: ctx.rmid < r && Supported(mon, events, r) ==> RmidUsed(cpu, assoc, ctx.cluster, r)
  }

  /** The events asked for that the table lists. */
  ghost function Listed(monitors: seq<Monitor>, events: set<Event>): set<Event> {
    set e | e in events && FindEvent(monitors, e).Some?
  }

  lemma ListedOneMore(monitors: seq<Monitor>, i: nat, events: set<Event>, max: nat)
    requires i < |monitors|
    ensures Listed(monitors[..i + 1], events)
         == if monitors[i].event in events then Listed(monitors[..i], events) + {monitors[i].event}
           else Listed(monitors[..i], events)
    ensures LowestCount(monitors[..i + 1], events, max)
         == if monitors[i].event in events && monitors[i].maxRmid < LowestCount(monitors[..i], events, max)
            then monitors[i].maxRmid
            else LowestCount(monitors[..i], events, max)
  {
    var fewer, more := monitors[..i], monitors[..i + 1];
    assert more == fewer + [monitors[i]] && more[..|more| - 1] == fewer;
    forall e | e in events
      ensures FindEvent(more, e).Some? <==> FindEvent(fewer, e).Some? || monitors[i].event == e
    {
      if FindEvent(fewer, e).Some? {
        assert FindEvent(fewer, e).value in more;
      }
      assert monitors[i] in more;
    }
  }

  lemma AllListed(monitors: seq<Monitor>, events: set<Event>)
    ensures Listed(monitors, events) == events <==> !exists e :: e in events && FindEvent(monitors, e).None?
    ensures Listed(monitors[..0], events) == {}
  {
  }

  method MaxRmid(mon: MonCap, events: set<Event>) returns (r: Option<nat>)
    ensures r == RmidLimit(mon, events)
  {
    hide Listed, LowestCount, FindEvent;
    var max: nat := mon.maxRmid;
    var found: set<Event> := {};
    AllListed(mon.events, events);
    NothingLower(mon.events, events, max);
    for i := 0 to |mon.events|
      invariant max == LowestCount(mon.events[..i], events, mon.maxRmid)
      invariant found == Listed(mon.events[..i], events)
    {
      ListedOneMore(mon.events, i, events, mon.maxRmid);
      if mon.events[i].event in events {
        found := found + {mon.events[i].event};
        max := if max > mon.events[i].maxRmid then mon.events[i].maxRmid else max;
      }
    }
    assert mon.events[..|mon.events|] == mon.events;
    if found != events || max == 0 {
      return None;
    }
    r := Some(max);
  }

  lemma NothingLower(monitors: seq<Monitor>, events: set<Event>, max: nat)
    ensures LowestCount(monitors[..0], events, max) == max
  {
  }

  /** Some RMID below the events' limit is unused in the cluster. */
  ghost predicate RmidLeft(cpu: seq<CoreInfo>, assoc: AssocRegs, mon: MonCap, events: set<Event>, cluster: nat)
    requires Lcores(cpu) <= assoc.Keys
  {
    RmidLimit(mon, events).Some? && exists r ::
      0 <= r < RmidLimit(mon, events).value && !RmidUsed(cpu, assoc, cluster, r)
  }

  /** `rmid_alloc`: the highest RMID below the limit that no core of the cluster carries; 0 is allowed. */
  method RmidAlloc(hw: Msr, mon: MonCap, cluster: nat, events: set<Event>) returns (ret: RetVal, rmid: nat)
    requires hw.Valid()
    modifies hw`clock
    ensures hw.Valid() && hw.clock >= old(hw.clock)
    ensures ret == Ok || ret == Error
    ensures ret == Ok ==> RmidLimit(mon, events).Some? && rmid < RmidLimit(mon, events).value <= mon.maxRmid
    ensures ret == Ok ==> !RmidUsed(hw.chip.cpu, hw.regs.assoc, cluster, rmid)
    ensures ret == Ok ==> HighestLeft(hw.chip.cpu, hw.regs.assoc, mon, events, Ctx(0, cluster, rmid))
    ensures ret == Ok ==> forall r :: rmid < r < RmidLimit(mon, events).value ==>
      RmidUsed(hw.chip.cpu, hw.regs.assoc, cluster, r)
    ensures hw.NoFault(old(hw.clock), hw.clock) && HasId(hw.chip.cpu, L3Cluster, cluster) ==>
      (ret == Ok <==> RmidLeft(hw.chip.cpu, hw.regs.assoc, mon, events, cluster))
  {
    hide WellFormed, RmidUsed, LowestCount, RmidLimit, HighestLeft;
    rmid := 0;
    var limit := MaxRmid(mon, events);
    if limit.None? {
      return Error, 0;
    }
    LimitInRange(mon, events);
    var cores := GetCores(hw.chip.cpu, L3Cluster, cluster);
    if |cores| == 0 {
      NoCoresNoCluster(hw.chip.cpu, cluster);
      return Error, 0;
    }
    var rmids := [];
    for i := 0 to |cores|
      invariant hw.Valid() && hw.clock >= old(hw.clock) && hw.regs == old(hw.regs)
      invariant |rmids| == i
      invariant forall j :: 0 <= j < i ==> cores[j] in hw.regs.assoc && rmids[j] == Rmid(hw.regs.assoc[cores[j]])
    {
      assert cores[i] in cores;
      CoreIsListed(hw.chip, hw.regs, cluster, cores[i]);
      var ok, r := MonAssocGet(hw, cores[i]);
      if !ok {
        return Error, 0;
      }
      rmids := rmids + [r];
    }
    ListCoversCluster(hw.chip.cpu, hw.regs.assoc, cluster, cores, rmids);
    var i := limit.value;
    while i > 0
      invariant 0 <= i <= limit.value
      invariant forall r :: i <= r < limit.value ==> r in rmids
    {
      if i - 1 !in rmids {
        LimitIsSupport(hw.chip.cpu, hw.regs.assoc, mon, events, Ctx(0, cluster, i - 1));
        return Ok, i - 1;
      }
      i := i - 1;
    }
    return Error, 0;
  }

  lemma LimitIsSupport(cpu: seq<CoreInfo>, assoc: AssocRegs, mon: MonCap, events: set<Event>, ctx: Ctx)
    requires Lcores(cpu) <= assoc.Keys && RmidLimit(mon, events).Some? && ctx.rmid < RmidLimit(mon, events).value
    requires !RmidUsed(cpu, assoc, ctx.cluster, ctx.rmid)
    requires forall r :: ctx.rmid < r < RmidLimit(mon, events).value ==> RmidUsed(cpu, assoc, ctx.cluster, r)
    ensures HighestLeft(cpu, assoc, mon, events, ctx)
  {
    hide RmidLimit, RmidUsed, Supported;
    BelowLimit(mon, events, ctx.rmid);
    forall r | ctx.rmid < r && Supported(mon, events, r) ensures RmidUsed(cpu, assoc, ctx.cluster, r) {
      BelowLimit(mon, events, r);
    }
  }

  lemma LimitInRange(mon: MonCap, events: set<Event>)
    ensures RmidLimit(mon, events).Some? ==> 0 < RmidLimit(mon, events).value <= mon.maxRmid
  {
  }

  lemma NoCoresNoCluster(cpu: seq<CoreInfo>, cluster: nat)
    requires CoreList(cpu, L3Cluster, cluster) == []
    ensures !HasId(cpu, L3Cluster, cluster)
  {
    if c :| c in cpu && IdOf(c, L3Cluster) == cluster {
      assert Within(cpu, L3Cluster, cluster, c.lcore);
    }
  }

  lemma CoreIsListed(chip: Chip, r: Regs, cluster: nat, l: nat)
    requires ValidRegs(chip, r) && Within(chip.cpu, L3Cluster, cluster, l)
    ensures l in r.assoc
  {
  }

  lemma ListCoversCluster(cpu: seq<CoreInfo>, assoc: AssocRegs, cluster: nat, cores: seq<nat>, rmids: seq<nat>)
    requires Lcores(cpu) <= assoc.Keys && WellFormed(cpu)
    requires cores == CoreList(cpu, L3Cluster, cluster) && |rmids| == |cores|
    requires forall j :: 0 <= j < |cores| ==> cores[j] in assoc && rmids[j] == Rmid(assoc[cores[j]])
    ensures forall r :: r in rmids <==> RmidUsed(cpu, assoc, cluster, r)
  {
    forall r ensures r in rmids <==> RmidUsed(cpu, assoc, cluster, r) {
      if RmidUsed(cpu, assoc, cluster, r) {
        var x :| x in cpu && x.l3Id == cluster && Rmid(assoc[x.lcore]) == r;
        assert IdOf(x, L3Cluster) == cluster;
        assert Within(cpu, L3Cluster, cluster, x.lcore);
        var j :| 0 <= j < |cores| && cores[j] == x.lcore;
        assert rmids[j] == r;
      }
      if r in rmids {
        var j :| 0 <= j < |rmids| && rmids[j] == r;
        assert cores[j] in cores;
        var x :| x in cpu && x.lcore == cores[j] && IdOf(x, L3Cluster) == cluster;
      }
    }
  }

  /** Every core's cluster has an unused RMID. */
  ghost predicate RmidsLeft(cpu: seq<CoreInfo>, assoc: AssocRegs, mon: MonCap, events: set<Event>, cores: seq<nat>)
    requires Lcores(cpu) <= assoc.Keys
  {
    forall l :: l in cores && Lookup(cpu, l).Some? ==> RmidLeft(cpu, assoc, mon, events, Lookup(cpu, l).value.l3Id)
  }

  lemma LeftForCore(cpu: seq<CoreInfo>, assoc: AssocRegs, mon: MonCap, events: set<Event>, cores: seq<nat>, l: nat)
    requires Lcores(cpu) <= assoc.Keys && l in cores
    ensures Unmonitored(cpu, assoc, cores) ==> l in assoc && Lookup(cpu, l).Some? && Rmid(assoc[l]) == 0
    ensures Lookup(cpu, l).Some? ==> HasId(cpu, L3Cluster, Lookup(cpu, l).value.l3Id)
    ensures Lookup(cpu, l).Some? && RmidsLeft(cpu, assoc, mon, events, cores) ==>
      RmidLeft(cpu, assoc, mon, events, Lookup(cpu, l).value.l3Id)
  {
    if Lookup(cpu, l).Some? {
      assert IdOf(Lookup(cpu, l).value, L3Cluster) == Lookup(cpu, l).value.l3Id;
    }
  }

  /** The checking loop of `hw_mon_start`: every core is known and on RMID0, and every cluster gets an RMID. */
  method ChooseContexts(hw: Msr, mon: MonCap, cores: seq<nat>, events: set<Event>)
    returns (ret: RetVal, ctxs: seq<Ctx>)
    requires hw.Valid() && mon.maxRmid <= RMID_LIMIT
    modifies hw`clock
    ensures hw.Valid() && hw.clock >= old(hw.clock)
    ensures ret == Ok ==> FreshCtxs(hw.chip.cpu, hw.regs.assoc, cores, ctxs)
    ensures ret == Ok ==> forall k :: 0 <= k < |ctxs| ==>
      HighestLeft(hw.chip.cpu, hw.regs.assoc, mon, events - PERF_EVENTS, ctxs[k])
    ensures ret == Resource ==> exists l :: l in cores && l in hw.regs.assoc && Rmid(hw.regs.assoc[l]) != 0
    ensures hw.NoFault(old(hw.clock), hw.clock) && Unmonitored(hw.chip.cpu, hw.regs.assoc, cores)
      && RmidsLeft(hw.chip.cpu, hw.regs.assoc, mon, events - PERF_EVENTS, cores)
      ==> ret == Ok
  {
    hide ValidRegs, WellFormed, RmidUsed, FreshCtx, Covered, Unmonitored, RmidLeft, RmidsLeft, RmidLimit, HighestLeft;
    ctxs := [];
    ShapeOf(hw.chip, hw.regs);
    NoContexts(hw.chip.cpu, hw.regs.assoc);
    for i := 0 to |cores|
      invariant hw.Valid() && hw.clock >= old(hw.clock) && hw.regs == old(hw.regs)
      invariant cores[..0] == [] && FreshCtxs(hw.chip.cpu, hw.regs.assoc, cores[..i], ctxs)
      invariant forall k :: 0 <= k < |ctxs| ==>
        HighestLeft(hw.chip.cpu, hw.regs.assoc, mon, events - PERF_EVENTS, ctxs[k])
    {
      assert cores[..i + 1] == cores[..i] + [cores[i]];
      assert cores[i] in cores;
      var lcore := cores[i];
      LeftForCore(hw.chip.cpu, hw.regs.assoc, mon, events - PERF_EVENTS, cores, lcore);
      var info := GetCoreInfo(hw.chip.cpu, lcore);
      if info.None? {
        return Param, ctxs;
      }
      var ok, rmid := MonAssocGet(hw, lcore);
      if !ok {
        return Param, ctxs;
      }
      if rmid != 0 {
        return Resource, ctxs;
      }
      var cluster := info.value.l3Id;
      var j := 0;
      while j < |ctxs|
        invariant 0 <= j <= |ctxs|
        invariant forall k :: 0 <= k < j ==> ctxs[k].cluster != cluster
      {
        if ctxs[j].lcore == lcore || ctxs[j].cluster == cluster {
          break;
        }
        j := j + 1;
      }
      ghost var before := ctxs;
      if j >= |ctxs| {
        var r;
        r, rmid := RmidAlloc(hw, mon, cluster, events - PERF_EVENTS);
        if r != Ok {
          return r, ctxs;
        }
        assert info.value in hw.chip.cpu;
        OtherReader(hw.chip.cpu, hw.regs.assoc, mon, events - PERF_EVENTS, cluster, rmid, lcore);
        ctxs := ctxs + [Ctx(lcore, cluster, rmid)];
        OneMoreContext(hw.chip.cpu, hw.regs.assoc, cores[..i], before, lcore, rmid);
      } else {
        CtxCluster(hw.chip.cpu, hw.regs.assoc, cores[..i], ctxs[j]);
        assert InCluster(hw.chip.cpu, lcore, ctxs[j].cluster);
        SameContexts(hw.chip.cpu, hw.regs.assoc, cores[..i], ctxs, lcore, j);
      }
    }
    assert cores[..|cores|] == cores;
    ret := Ok;
  }

  lemma OtherReader(cpu: seq<CoreInfo>, assoc: AssocRegs, mon: MonCap, events: set<Event>, cluster: nat, rmid: nat,
      lcore: nat)
    requires Lcores(cpu) <= assoc.Keys && HighestLeft(cpu, assoc, mon, events, Ctx(0, cluster, rmid))
    ensures HighestLeft(cpu, assoc, mon, events, Ctx(lcore, cluster, rmid))
  {
    hide RmidUsed, Supported;
  }

  lemma CtxCluster(cpu: seq<CoreInfo>, assoc: AssocRegs, cores: seq<nat>, ctx: Ctx)
    requires Lcores(cpu) <= assoc.Keys && FreshCtx(cpu, assoc, cores, ctx)
    ensures InCluster(cpu, ctx.lcore, ctx.cluster)
  {
  }

  lemma NoContexts(cpu: seq<CoreInfo>, assoc: AssocRegs)
    requires Lcores(cpu) <= assoc.Keys
    ensures FreshCtxs(cpu, assoc, [], [])
  {
  }

  /** The core checked still carries RMID0 in the scanned cluster, so the RMID found is another one. */
  lemma OneMoreContext(cpu: seq<CoreInfo>, assoc: AssocRegs, cores: seq<nat>, ctxs: seq<Ctx>, lcore: nat, rmid: nat)
    requires Lcores(cpu) <= assoc.Keys && FreshCtxs(cpu, assoc, cores, ctxs)
    requires Lookup(cpu, lcore).Some? && lcore in assoc && Rmid(assoc[lcore]) == 0 && rmid < RMID_LIMIT
    requires !RmidUsed(cpu, assoc, Lookup(cpu, lcore).value.l3Id, rmid)
    requires forall k :: 0 <= k < |ctxs| ==> ctxs[k].cluster != Lookup(cpu, lcore).value.l3Id
    ensures FreshCtxs(cpu, assoc, cores + [lcore], ctxs + [Ctx(lcore, Lookup(cpu, lcore).value.l3Id, rmid)])
  {
    hide Covered, Unmonitored, RmidUsed, FreshCtx;
    var last := Ctx(lcore, Lookup(cpu, lcore).value.l3Id, rmid);
    var more := ctxs + [last];
    FreshLast(cpu, assoc, cores, last);
    OneMoreCovered(cpu, cores, ctxs, lcore, more, |ctxs|);
    OneMoreUnmonitored(cpu, assoc, cores, lcore);
    hide InCluster, Rmid;
    forall k | 0 <= k < |more| ensures FreshCtx(cpu, assoc, cores + [lcore], more[k]) {
      if k < |ctxs| {
        FreshForMore(cpu, assoc, cores, ctxs[k], lcore);
      }
    }
  }

  lemma FreshLast(cpu: seq<CoreInfo>, assoc: AssocRegs, cores: seq<nat>, ctx: Ctx)
    requires Lcores(cpu) <= assoc.Keys && ctx.rmid < RMID_LIMIT
    requires Lookup(cpu, ctx.lcore).Some? && ctx.lcore in assoc && Rmid(assoc[ctx.lcore]) == 0
    requires ctx.cluster == Lookup(cpu, ctx.lcore).value.l3Id && !RmidUsed(cpu, assoc, ctx.cluster, ctx.rmid)
    ensures FreshCtx(cpu, assoc, cores + [ctx.lcore], ctx)
  {
    hide Rmid;
    assert ctx.lcore in cores + [ctx.lcore];
  }

  lemma FreshForMore(cpu: seq<CoreInfo>, assoc: AssocRegs, cores: seq<nat>, ctx: Ctx, lcore: nat)
    requires Lcores(cpu) <= assoc.Keys && FreshCtx(cpu, assoc, cores, ctx)
    ensures FreshCtx(cpu, assoc, cores + [lcore], ctx)
  {
    hide RmidUsed, InCluster;
  }

  lemma OneMoreCovered(cpu: seq<CoreInfo>, cores: seq<nat>, ctxs: seq<Ctx>, lcore: nat, more: seq<Ctx>, k: nat)
    requires Covered(cpu, cores, ctxs) && ctxs <= more && k < |more| && InCluster(cpu, lcore, more[k].cluster)
    ensures Covered(cpu, cores + [lcore], more)
  {
    hide InCluster;
    forall l | l in cores + [lcore] ensures exists k :: 0 <= k < |more| && InCluster(cpu, l, more[k].cluster) {
      if l in cores {
        var j :| 0 <= j < |ctxs| && InCluster(cpu, l, ctxs[j].cluster);
        assert InCluster(cpu, l, more[j].cluster);
      }
    }
  }

  lemma OneMoreUnmonitored(cpu: seq<CoreInfo>, assoc: AssocRegs, cores: seq<nat>, lcore: nat)
    requires Unmonitored(cpu, assoc, cores)
    requires lcore in assoc && Lookup(cpu, lcore).Some? && Rmid(assoc[lcore]) == 0
    ensures Unmonitored(cpu, assoc, cores + [lcore])
  {
  }

  lemma SameContexts(cpu: seq<CoreInfo>, assoc: AssocRegs, cores: seq<nat>, ctxs: seq<Ctx>, lcore: nat, j: nat)
    requires Lcores(cpu) <= assoc.Keys && FreshCtxs(cpu, assoc, cores, ctxs) && j < |ctxs|
    requires lcore in assoc && Rmid(assoc[lcore]) == 0 && InCluster(cpu, lcore, ctxs[j].cluster)
    ensures FreshCtxs(cpu, assoc, cores + [lcore], ctxs)
  {
    OneMoreCovered(cpu, cores, ctxs, lcore, ctxs, j);
    OneMoreUnmonitored(cpu, assoc, cores, lcore);
    hide Covered, Unmonitored, RmidUsed, InCluster;
    forall k | 0 <= k < |ctxs| ensures FreshCtx(cpu, assoc, cores + [lcore], ctxs[k]) {
      assert FreshCtx(cpu, assoc, cores, ctxs[k]);
    }
  }

  // ----- monitoring groups -----

  /** A monitoring group; the library fills it in on start and clears it on stop. */
  class MonGroup {
    var cores: seq<nat>
    var ctxs: seq<Ctx>
    var events: set<Event>
    var llc: Word
    var mbmLocal: Word
    var mbmLocalDelta: Word
    var mbmTotal: Word
    var mbmTotalDelta: Word
    var validMbmRead: bool

    constructor ()
      ensures IsClear()
    {
      cores, ctxs, events := [], [], {};
      llc, mbmLocal, mbmLocalDelta, mbmTotal, mbmTotalDelta, validMbmRead := 0, 0, 0, 0, 0, false;
    }

    ghost predicate IsClear()
      reads this
    {
      && cores == [] && ctxs == [] && events == {}
      && NoReadings()
    }

    ghost predicate NoReadings()
      reads this
    {
      llc == 0 && mbmLocal == 0 && mbmLocalDelta == 0 && mbmTotal == 0 && mbmTotalDelta == 0 && !validMbmRead
    }

    method Clear()
      modifies this
      ensures IsClear()
    {
      cores, ctxs, events := [], [], {};
      llc, mbmLocal, mbmLocalDelta, mbmTotal, mbmTotalDelta, validMbmRead := 0, 0, 0, 0, 0, false;
    }
  }

  // ----- start -----

  method EventsSupported(mon: MonCap, events: set<Event>) returns (ok: bool)
    ensures ok <==> forall e :: e in events ==> FindEvent(mon.events, e).Some?
  {
    var all := [L3Occup, LmemBw, TmemBw, RmemBw, LlcMiss, Ipc];
    for i := 0 to |all|
      invariant forall j :: 0 <= j < i && all[j] in events ==> FindEvent(mon.events, all[j]).Some?
    {
      if all[i] in events && FindEvent(mon.events, all[i]).None? {
        return false;
      }
    }
    forall e | e in events ensures FindEvent(mon.events, e).Some? {
      match e
      case L3Occup => assert all[0] == e;
      case LmemBw => assert all[1] == e;
      case TmemBw => assert all[2] == e;
      case RmemBw => assert all[3] == e;
      case LlcMiss => assert all[4] == e;
      case Ipc => assert all[5] == e;
      var j :| 0 <= j < |all| && all[j] == e;
    }
    ok := true;
  }

  lemma TaggedRefl(cpu: seq<CoreInfo>, assoc: AssocRegs, ctxs: seq<Ctx>)
    requires assoc.Keys == Lcores(cpu)
    ensures Tagged(cpu, assoc, ctxs, {}, assoc)
  {
  }

  /** Writing the group's RMID to one more core. */
  lemma TagOne(cpu: seq<CoreInfo>, start: AssocRegs, before: AssocRegs, ctxs: seq<Ctx>, tagged: set<nat>, l: nat,
      rmid: nat)
    requires Tagged(cpu, start, ctxs, tagged, before) && l in before && Lookup(cpu, l).Some? && rmid < RMID_LIMIT
    requires rmid == RmidFor(ctxs, Lookup(cpu, l).value.l3Id)
    ensures Tagged(cpu, start, ctxs, tagged + {l}, before[l := WithRmid(before[l], rmid)])
  {
    hide Cos, Rmid, WithRmid, RmidFor;
    AssocFields(before[l], 0, rmid);
  }

  /** Writing RMID0 back to one more core. */
  lemma UntagOne(cpu: seq<CoreInfo>, start: AssocRegs, before: AssocRegs, ctxs: seq<Ctx>, tagged: set<nat>, l: nat)
    requires Tagged(cpu, start, ctxs, tagged, before) && l in before && Rmid(start[l]) == 0
    ensures Tagged(cpu, start, ctxs, tagged - {l}, before[l := WithRmid(before[l], 0)])
  {
    hide Cos, Rmid, WithRmid, RmidFor;
    AssocFields(before[l], 0, 0);
  }

  lemma CtxOfCore(cpu: seq<CoreInfo>, assoc: AssocRegs, cores: seq<nat>, ctxs: seq<Ctx>, l: nat)
    requires Lcores(cpu) <= assoc.Keys && FreshCtxs(cpu, assoc, cores, ctxs) && l in cores
    ensures l in assoc && Lookup(cpu, l).Some? && Rmid(assoc[l]) == 0
    ensures 0 < RmidFor(ctxs, Lookup(cpu, l).value.l3Id) < RMID_LIMIT
    ensures !RmidUsed(cpu, assoc, Lookup(cpu, l).value.l3Id, RmidFor(ctxs, Lookup(cpu, l).value.l3Id))
  {
    var k :| 0 <= k < |ctxs| && InCluster(cpu, l, ctxs[k].cluster);
    RmidForAt(ctxs, k);
    assert FreshCtx(cpu, assoc, cores, ctxs[k]);
  }

  /** Gives each core the RMID of its cluster, stopping at the first failure. */
  method TagCores(hw: Msr, cores: seq<nat>, ctxs: seq<Ctx>) returns (ret: RetVal, ghost tagged: set<nat>)
    requires hw.Valid() && FreshCtxs(hw.chip.cpu, hw.regs.assoc, cores, ctxs)
    modifies hw
    ensures hw.Valid() && hw.clock >= old(hw.clock)
    ensures hw.regs == old(hw.regs).(assoc := hw.regs.assoc)
    ensures Tagged(hw.chip.cpu, old(hw.regs.assoc), ctxs, tagged, hw.regs.assoc)
    ensures tagged <= Members(cores) && (if ret == Ok then tagged == Members(cores) else ret == Error)
    ensures hw.NoFault(old(hw.clock), hw.clock) ==> ret == Ok
  {
    hide ValidRegs, WellFormed, FreshCtxs, Tagged;
    ret, tagged := Ok, {};
    ghost var start := hw.regs.assoc;
    ShapeOf(hw.chip, hw.regs);
    TaggedRefl(hw.chip.cpu, start, ctxs);
    for i := 0 to |cores|
      invariant hw.Valid() && hw.clock >= old(hw.clock) && ret == Ok
      invariant hw.regs == old(hw.regs).(assoc := hw.regs.assoc)
      invariant tagged == Members(cores[..i])
      invariant Tagged(hw.chip.cpu, start, ctxs, tagged, hw.regs.assoc)
    {
      CtxOfCore(hw.chip.cpu, start, cores, ctxs, cores[i]);
      MembersOneMore(cores, i);
      var info := GetCoreInfo(hw.chip.cpu, cores[i]);
      var cluster := info.value.l3Id;
      var rmid := RmidFor(ctxs, cluster);
      ghost var before := hw.regs.assoc;
      TaggedShape(hw.chip.cpu, start, ctxs, tagged, before);
      var ok := MonAssocSet(hw, cores[i], rmid);
      if !ok {
        return Error, tagged;
      }
      TagOne(hw.chip.cpu, start, before, ctxs, tagged, cores[i], rmid);
      tagged := tagged + {cores[i]};
    }
    assert cores[..|cores|] == cores;
  }

  lemma TaggedShape(cpu: seq<CoreInfo>, start: AssocRegs, ctxs: seq<Ctx>, tagged: set<nat>, now: AssocRegs)
    requires Tagged(cpu, start, ctxs, tagged, now)
    ensures now.Keys == start.Keys == Lcores(cpu)
  {
  }

  /** The undo of a failed start: RMID0 to every core, going on after failures; `left` keep their RMID, at most one
      for each failing access. */
  method UntagCores(hw: Msr, cores: seq<nat>, ghost ctxs: seq<Ctx>, ghost tagged: set<nat>, ghost start: AssocRegs)
    returns (ghost left: set<nat>)
    requires hw.Valid() && Lcores(hw.chip.cpu) <= start.Keys && FreshCtxs(hw.chip.cpu, start, cores, ctxs)
    requires Tagged(hw.chip.cpu, start, ctxs, tagged, hw.regs.assoc) && tagged <= Members(cores)
    modifies hw
    ensures hw.Valid()
    ensures hw.regs == old(hw.regs).(assoc := hw.regs.assoc)
    ensures left <= tagged && Tagged(hw.chip.cpu, start, ctxs, left, hw.regs.assoc)
    ensures old(hw.clock) <= hw.clock <= old(hw.clock) + 2 * |cores|
    ensures |left| <= Failures(hw.fails, old(hw.clock), hw.clock)
  {
    hide ValidRegs, WellFormed, FreshCtxs, Tagged, BestEffort, Failures;
    left := tagged;
    ghost var done: set<nat> := {};
    ghost var seen: set<nat> := {};
    NothingWanted(hw.fails, hw.clock, hw.clock, {});
    for i := 0 to |cores|
      invariant hw.Valid() && old(hw.clock) <= hw.clock <= old(hw.clock) + 2 * i
      invariant hw.regs == old(hw.regs).(assoc := hw.regs.assoc)
      invariant left == tagged - done && Tagged(hw.chip.cpu, start, ctxs, left, hw.regs.assoc)
      invariant seen == Members(cores[..i]) && BestEffort(hw.fails, old(hw.clock), hw.clock, seen, done)
    {
      MembersOneMore(cores, i);
      CtxOfCore(hw.chip.cpu, start, cores, ctxs, cores[i]);
      ghost var before := hw.regs.assoc;
      TaggedShape(hw.chip.cpu, start, ctxs, left, before);
      ghost var from, reached := hw.clock, done;
      var ok := MonAssocSet(hw, cores[i], 0);
      if ok {
        UntagOne(hw.chip.cpu, start, before, ctxs, left, cores[i]);
        left, done := left - {cores[i]}, done + {cores[i]};
      }
      OneMoreMissed(hw.fails, old(hw.clock), from, hw.clock, seen, reached, cores[i], done);
      seen := seen + {cores[i]};
    }
    assert cores[..|cores|] == cores;
    FewMissed(hw.fails, old(hw.clock), hw.clock, Members(cores), done, left);
  }

  /** `hw_mon_start`. `perfStarts` is the outcome of programming the performance counters; `ctxs` are the
      contexts chosen, and `tagged` the cores that carry a new RMID on return. */
  method HwMonStart(hw: Msr, mon: MonCap, cores: seq<nat>, events: set<Event>, perfStarts: bool, group: MonGroup)
    returns (ret: RetVal, ghost ctxs: seq<Ctx>, ghost tagged: set<nat>)
    requires hw.Valid() && cores != [] && events != {} && mon.maxRmid <= RMID_LIMIT
    modifies hw, group
    ensures hw.Valid()
    ensures hw.regs == old(hw.regs).(assoc := hw.regs.assoc)
    ensures StartStep(hw.chip.cpu, old(hw.regs.assoc), cores, ctxs, tagged, ret == Ok, hw.regs.assoc)
    ensures CosStep(hw.chip.cpu, old(hw.regs.assoc), OtherCall, hw.regs.assoc)
    ensures ret == Ok ==> group.cores == cores && group.ctxs == ctxs && group.events == events && group.NoReadings()
    ensures ret == Ok ==> forall e :: e in events ==> FindEvent(mon.events, e).Some?
    // each RMID is the highest unused one that all events support, counter events aside
    ensures ret == Ok ==> forall k :: 0 <= k < |ctxs| ==>
      HighestLeft(hw.chip.cpu, old(hw.regs.assoc), mon, events - {LlcMiss, Ipc}, ctxs[k])
    ensures ret == Resource ==> exists l :: l in cores && l in old(hw.regs.assoc) && Rmid(old(hw.regs.assoc[l])) != 0
    ensures hw.clock >= old(hw.clock)
    // the undo: each core left with a new RMID takes one failing access more than that which made the start fail
    ensures ret != Ok && tagged != {} ==> |tagged| < Failures(hw.fails, old(hw.clock), hw.clock)
    ensures ret != Ok && hw.NoFault(Before(hw.clock, 2 * |cores|), hw.clock) ==> tagged == {}
    ensures hw.NoFault(old(hw.clock), hw.clock) && (events * PERF_EVENTS == {} || perfStarts)
      && (forall e :: e in events ==> FindEvent(mon.events, e).Some?)
      && Unmonitored(hw.chip.cpu, old(hw.regs.assoc), cores)
      && RmidsLeft(hw.chip.cpu, old(hw.regs.assoc), mon, events - PERF_EVENTS, cores)
      ==> ret == Ok
  {
    hide ValidRegs, WellFormed, FreshCtxs, Tagged, Unmonitored, RmidsLeft, Failures, HighestLeft;
    ctxs, tagged := [], {};
    ghost var start := hw.regs.assoc;
    ShapeOf(hw.chip, hw.regs);
    TaggedRefl(hw.chip.cpu, start, ctxs);
    var supported := EventsSupported(mon, events);
    if !supported {
      return Param, ctxs, tagged;
    }
    var chosen;
    ret, chosen := ChooseContexts(hw, mon, cores, events);
    if ret != Ok {
      return ret, ctxs, tagged;
    }
    ctxs := chosen;
    TaggedRefl(hw.chip.cpu, start, ctxs);
    group.Clear();
    ghost var first := hw.clock;
    if events * PERF_EVENTS == {} || perfStarts {
      ret, tagged := TagCores(hw, cores, chosen);
    } else {
      ret := Error;
    }
    if ret != Ok {
      ghost var from := hw.clock;
      tagged := UntagCores(hw, cores, ctxs, tagged, start);
      UndoneSince(hw.fails, old(hw.clock), first, from, hw.clock, 2 * |cores|);
      group.Clear();
      return;
    }
    group.cores, group.ctxs, group.events := cores, chosen, events;
  }

  // ----- stop -----

  lemma ClearOne(start: AssocRegs, before: AssocRegs, done: set<nat>, l: nat)
    requires Cleared(start, done, before) && l in before
    ensures Cleared(start, done + {l}, before[l := WithRmid(before[l], 0)])
  {
    AssocFields(before[l], 0, 0);
  }

  /** `hw_mon_stop`: RMID0 to every core of the group, going on after failures; `done` were reached. The
      group is cleared in any case once its contexts were read. */
  method HwMonStop(hw: Msr, group: MonGroup, perfStops: bool) returns (ret: RetVal, ghost done: set<nat>)
    requires hw.Valid()
    modifies hw, group
    ensures hw.Valid()
    ensures hw.regs == old(hw.regs).(assoc := hw.regs.assoc)
    ensures StopStep(old(hw.regs.assoc), old(group.cores), done, hw.regs.assoc)
    ensures CosStep(hw.chip.cpu, old(hw.regs.assoc), OtherCall, hw.regs.assoc)
    ensures ret == Ok ==> done == Members(old(group.cores))
    ensures hw.clock >= old(hw.clock)
    ensures ret != Param ==>
      var known := Members(old(group.cores)) * old(hw.regs.assoc.Keys);
      BestEffort(hw.fails, Before(hw.clock, 2 * |old(group.cores)|), hw.clock, known, done)
    ensures ret == Param ==> done == {} && unchanged(group)
    ensures ret != Param ==> group.IsClear()
    ensures old(group.cores) == [] || old(group.ctxs) == [] ==> ret == Param
    ensures hw.NoFault(old(hw.clock), hw.clock) && old(group.cores) != [] && old(group.ctxs) != []
      && (forall k :: 0 <= k < |old(group.ctxs)| ==> old(group.ctxs)[k].lcore in old(hw.regs.assoc))
      && Members(old(group.cores)) <= old(hw.regs.assoc.Keys)
      ==> ret != Param && done == Members(old(group.cores)) && (perfStops ==> ret == Ok)
  {
    hide ValidRegs, WellFormed, Cleared, BestEffort, Failures;
    done := {};
    ghost var start := hw.regs.assoc;
    NothingCleared(start);
    if |group.cores| == 0 || |group.ctxs| == 0 {
      return Param, done;
    }
    var ctxs, cores := group.ctxs, group.cores;
    for i := 0 to |ctxs|
      invariant hw.Valid() && hw.clock >= old(hw.clock) && hw.regs == old(hw.regs) && unchanged(group)
    {
      var info := GetCoreInfo(hw.chip.cpu, ctxs[i].lcore);
      ShapeOf(hw.chip, hw.regs);
      if info.None? {
        return Param, done;
      }
      var ok, rmid := MonAssocGet(hw, ctxs[i].lcore);
      if !ok {
        return Param, done;
      }
    }
    ret := Ok;
    ghost var first := hw.clock;
    ghost var seen: set<nat> := {};
    NothingWanted(hw.fails, first, first, {});
    assert seen * start.Keys == {};
    for i := 0 to |cores|
      invariant hw.Valid() && first <= hw.clock <= first + 2 * i
      invariant (ret == Ok || ret == Resource) && unchanged(group)
      invariant seen == Members(cores[..i]) && BestEffort(hw.fails, first, hw.clock, seen * start.Keys, done)
      invariant hw.regs == old(hw.regs).(assoc := hw.regs.assoc)
      invariant done <= Members(cores[..i]) && Cleared(start, done, hw.regs.assoc)
      invariant ret == Ok ==> done == Members(cores[..i])
      invariant hw.NoFault(old(hw.clock), hw.clock) && Members(cores) <= start.Keys ==> ret == Ok
    {
      MembersOneMore(cores, i);
      assert cores[i] in Members(cores);
      ghost var before := hw.regs.assoc;
      ClearedShape(start, done, before);
      ghost var from, reached := hw.clock, done;
      var ok := MonAssocSet(hw, cores[i], 0);
      if ok {
        ClearOne(start, before, done, cores[i]);
        done := done + {cores[i]};
      } else {
        ret := Resource;
      }
      OneMoreWanted(hw.fails, first, from, hw.clock, seen, start.Keys, reached, cores[i], done);
      seen := seen + {cores[i]};
    }
    assert cores[..|cores|] == cores;
    WiderEffort(hw.fails, Before(hw.clock, 2 * |cores|), first, hw.clock, hw.clock, Members(cores) * start.Keys, done);
    if group.events * PERF_EVENTS != {} && !perfStops {
      ret := Resource;
    }
    group.Clear();
  }

  lemma NothingCleared(assoc: AssocRegs)
    ensures Cleared(assoc, {}, assoc)
  {
  }

  lemma ClearedShape(start: AssocRegs, done: set<nat>, now: AssocRegs)
    requires Cleared(start, done, now)
    ensures now.Keys == start.Keys
  {
  }
}
