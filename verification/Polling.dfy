/** Polling monitoring groups: occupancy sums and bandwidth differences (lib/monitoring.c). */
module Polling {
  import opened Bits
  import opened Results
  import opened Topology
  import opened Registers
  import opened CosAssign
  import opened Monitoring
  import opened MonRuns

  // ----- what hardware counts -----

  /** Sum over the listed cores that are in the set, each once. */
  ghost function Sum(cpu: seq<CoreInfo>, amount: nat -> nat, cores: set<nat>): nat {
    if cpu == [] then 0
    else
      var last := cpu[|cpu| - 1];
      Sum(cpu[..|cpu| - 1], amount, cores) + if last.lcore in cores then amount(last.lcore) else 0
  }

  /** Cores of a cluster tagged with an RMID. */
  ghost function TaggedWith(cpu: seq<CoreInfo>, assoc: AssocRegs, cluster: nat, rmid: nat): set<nat>
    requires Lcores(cpu) <= assoc.Keys
  {
    set x | x in cpu && x.l3Id == cluster && Rmid(assoc[x.lcore]) == rmid :: x.lcore
  }

  /** The counter of (cluster, RMID): the sum over the cores tagged with it. */
  ghost predicate CountsTags(cpu: seq<CoreInfo>, assoc: AssocRegs, amount: nat -> nat, counter: (nat, nat) -> nat)
    requires Lcores(cpu) <= assoc.Keys
  {
    forall cluster: nat, rmid: nat :: counter(cluster, rmid) == Sum(cpu, amount, TaggedWith(cpu, assoc, cluster, rmid))
  }

  function CtxTotal(counter: (nat, nat) -> nat, ctxs: seq<Ctx>): nat {
    if ctxs == [] then 0
    else CtxTotal(counter, ctxs[..|ctxs| - 1]) + counter(ctxs[|ctxs| - 1].cluster, ctxs[|ctxs| - 1].rmid)
  }

  ghost function GroupsTotal(counter: (nat, nat) -> nat, groups: seq<Group>): nat {
    if groups == [] then 0
    else GroupsTotal(counter, groups[..|groups| - 1]) + CtxTotal(counter, groups[|groups| - 1].ctxs)
  }

  lemma {:induction false} SumUnion(cpu: seq<CoreInfo>, amount: nat -> nat, a: set<nat>, b: set<nat>)
    requires a !! b
    ensures Sum(cpu, amount, a + b) == Sum(cpu, amount, a) + Sum(cpu, amount, b)
  {
    if cpu != [] {
      SumUnion(cpu[..|cpu| - 1], amount, a, b);
    }
  }

  lemma {:induction false} SumMonotone(cpu: seq<CoreInfo>, amount: nat -> nat, a: set<nat>, b: set<nat>)
    requires a <= b
    ensures Sum(cpu, amount, a) <= Sum(cpu, amount, b)
  {
    if cpu != [] {
      SumMonotone(cpu[..|cpu| - 1], amount, a, b);
    }
  }

  // ----- no double counting -----

  /** Cores of the group that lie in one of the contexts' clusters. */
  ghost function CoresUnder(cpu: seq<CoreInfo>, g: Group, ctxs: seq<Ctx>): set<nat> {
    set l | l in g.cores && exists k :: 0 <= k < |ctxs| && InCluster(cpu, l, ctxs[k].cluster)
  }

  /** The cores tagged with a context's RMID are exactly the group's cores in that cluster. */
  lemma TaggedAreOwn(cpu: seq<CoreInfo>, assoc: AssocRegs, g: Group, k: nat)
    requires WellFormed(cpu) && assoc.Keys == Lcores(cpu) && GroupTagged(cpu, assoc, g) && k < |g.ctxs|
    ensures TaggedWith(cpu, assoc, g.ctxs[k].cluster, g.ctxs[k].rmid) == CoresUnder(cpu, g, [g.ctxs[k]])
  {
    var ctx := g.ctxs[k];
    assert OwnCtx(cpu, assoc, g, ctx);
    RmidForAt(g.ctxs, k);
    forall l ensures l in TaggedWith(cpu, assoc, ctx.cluster, ctx.rmid) <==> l in CoresUnder(cpu, g, [ctx]) {
      if l in TaggedWith(cpu, assoc, ctx.cluster, ctx.rmid) {
        var x :| x in cpu && x.l3Id == ctx.cluster && Rmid(assoc[x.lcore]) == ctx.rmid && x.lcore == l;
        LookupIsUnique(cpu, x);
        assert InCluster(cpu, l, [ctx][0].cluster);
      }
      if l in CoresUnder(cpu, g, [ctx]) {
        assert InCluster(cpu, l, ctx.cluster) && CarriesOwn(cpu, assoc, g, l);
        var x := Lookup(cpu, l).value;
        assert x in cpu && x.l3Id == ctx.cluster && Rmid(assoc[x.lcore]) == ctx.rmid && x.lcore == l;
      }
    }
  }

  lemma {:induction false} ContextsCountOnce(cpu: seq<CoreInfo>, assoc: AssocRegs, amount: nat -> nat,
      counter: (nat, nat) -> nat, g: Group, n: nat)
    requires WellFormed(cpu) && assoc.Keys == Lcores(cpu) && GroupTagged(cpu, assoc, g) && n <= |g.ctxs|
    requires CountsTags(cpu, assoc, amount, counter)
    ensures CtxTotal(counter, g.ctxs[..n]) == Sum(cpu, amount, CoresUnder(cpu, g, g.ctxs[..n]))
  {
    if n == 0 {
      SumOfNone(cpu, amount);
      assert CoresUnder(cpu, g, g.ctxs[..0]) == {};
    } else {
      hide CoresUnder, TaggedWith, InCluster, WellFormed;
      ContextsCountOnce(cpu, assoc, amount, counter, g, n - 1);
      var fewer, last := g.ctxs[..n - 1], g.ctxs[n - 1];
      TakeOneMore(g.ctxs, n - 1);
      TaggedAreOwn(cpu, assoc, g, n - 1);
      UnderOneMore(cpu, g, fewer, last, g.ctxs[..n]);
      SumUnion(cpu, amount, CoresUnder(cpu, g, fewer), CoresUnder(cpu, g, [last]));
      hide Sum, GroupTagged;
      assert counter(last.cluster, last.rmid) == Sum(cpu, amount, TaggedWith(cpu, assoc, last.cluster, last.rmid));
    }
  }

  lemma {:induction false} SumOfNone(cpu: seq<CoreInfo>, amount: nat -> nat)
    ensures Sum(cpu, amount, {}) == 0
  {
    if cpu != [] {
      SumOfNone(cpu[..|cpu| - 1], amount);
    }
  }

  lemma UnderOneMore(cpu: seq<CoreInfo>, g: Group, fewer: seq<Ctx>, last: Ctx, ctxs: seq<Ctx>)
    requires ctxs == fewer + [last] && DistinctClusters(g.ctxs) && ctxs <= g.ctxs
    ensures CoresUnder(cpu, g, ctxs) == CoresUnder(cpu, g, fewer) + CoresUnder(cpu, g, [last])
    ensures CoresUnder(cpu, g, fewer) !! CoresUnder(cpu, g, [last])
  {
    assert ctxs[|fewer|] == last && [last][0] == last;
    forall l ensures l in CoresUnder(cpu, g, ctxs) <==> l in CoresUnder(cpu, g, fewer) + CoresUnder(cpu, g, [last]) {
      if l in CoresUnder(cpu, g, ctxs) {
        var k :| 0 <= k < |ctxs| && InCluster(cpu, l, ctxs[k].cluster);
        if k < |fewer| {
          assert InCluster(cpu, l, fewer[k].cluster);
        } else {
          assert InCluster(cpu, l, [last][0].cluster);
        }
      }
      if l in CoresUnder(cpu, g, fewer) {
        var k :| 0 <= k < |fewer| && InCluster(cpu, l, fewer[k].cluster);
        assert InCluster(cpu, l, ctxs[k].cluster);
      }
      if l in CoresUnder(cpu, g, [last]) {
        assert InCluster(cpu, l, ctxs[|fewer|].cluster);
      }
    }
    forall l | l in CoresUnder(cpu, g, fewer) ensures l !in CoresUnder(cpu, g, [last]) {
      var k :| 0 <= k < |fewer| && InCluster(cpu, l, fewer[k].cluster);
      assert g.ctxs[k] == fewer[k] && g.ctxs[|fewer|] == last;
    }
  }

  /** The counters of a group's contexts add up to the sum over its distinct cores, each counted once. */
  lemma GroupCountsOnce(cpu: seq<CoreInfo>, assoc: AssocRegs, amount: nat -> nat, counter: (nat, nat) -> nat, g: Group)
    requires WellFormed(cpu) && assoc.Keys == Lcores(cpu) && GroupTagged(cpu, assoc, g)
    requires CountsTags(cpu, assoc, amount, counter)
    ensures CtxTotal(counter, g.ctxs) == Sum(cpu, amount, Members(g.cores))
  {
    ContextsCountOnce(cpu, assoc, amount, counter, g, |g.ctxs|);
    assert g.ctxs[..|g.ctxs|] == g.ctxs;
    assert CoresUnder(cpu, g, g.ctxs) == Members(g.cores);
  }

  ghost function CoresOf(groups: seq<Group>): set<nat> {
    if groups == [] then {} else CoresOf(groups[..|groups| - 1]) + Members(groups[|groups| - 1].cores)
  }

  lemma {:induction false} CoresOfIsDisjoint(groups: seq<Group>, n: nat, i: nat)
    requires DisjointGroups(groups) && n <= i < |groups|
    ensures CoresOf(groups[..n]) !! Members(groups[i].cores)
  {
    if n > 0 {
      CoresOfIsDisjoint(groups, n - 1, i);
      assert groups[..n][..n - 1] == groups[..n - 1] && groups[..n][n - 1] == groups[n - 1];
    }
  }

  lemma {:induction false} GroupsCountOnce(cpu: seq<CoreInfo>, s: MonState, amount: nat -> nat,
      counter: (nat, nat) -> nat, n: nat)
    requires WellFormed(cpu) && s.assoc.Keys == Lcores(cpu) && Sound(cpu, s) && n <= |s.groups|
    requires CountsTags(cpu, s.assoc, amount, counter)
    ensures GroupsTotal(counter, s.groups[..n]) == Sum(cpu, amount, CoresOf(s.groups[..n]))
  {
    hide WellFormed, Sum, CtxTotal, CountsTags, GroupTagged, Lcores;
    if n == 0 {
      SumOfNone(cpu, amount);
    } else {
      GroupsCountOnce(cpu, s, amount, counter, n - 1);
      assert s.groups[..n][..n - 1] == s.groups[..n - 1] && s.groups[..n][n - 1] == s.groups[n - 1];
      GroupCountsOnce(cpu, s.assoc, amount, counter, s.groups[n - 1]);
      CoresOfIsDisjoint(s.groups, n - 1, n - 1);
      SumUnion(cpu, amount, CoresOf(s.groups[..n - 1]), Members(s.groups[n - 1].cores));
    }
  }

  /** In every run of starts and stops, with writes that may fail: each active group's counters sum its
      distinct cores once, and all active groups together count no more than the whole system. */
  lemma NoDoubleCounting(cpu: seq<CoreInfo>, states: seq<MonState>, calls: seq<MonCall>, n: nat, amount: nat -> nat,
      counter: (nat, nat) -> nat)
    requires MonRun(cpu, states, calls) && n <= |calls|
    requires CountsTags(cpu, states[n].assoc, amount, counter)
    ensures forall i :: 0 <= i < |states[n].groups| ==>
      CtxTotal(counter, states[n].groups[i].ctxs) == Sum(cpu, amount, Members(states[n].groups[i].cores))
    ensures GroupsTotal(counter, states[n].groups) <= Sum(cpu, amount, Lcores(cpu))
  {
    RunIsSound(cpu, states, calls, n);
    var s := states[n];
    forall i | 0 <= i < |s.groups|
      ensures CtxTotal(counter, s.groups[i].ctxs) == Sum(cpu, amount, Members(s.groups[i].cores))
    {
      GroupCountsOnce(cpu, s.assoc, amount, counter, s.groups[i]);
    }
    GroupsCountOnce(cpu, s, amount, counter, |s.groups|);
    assert s.groups[..|s.groups|] == s.groups;
    OwnCoresListed(cpu, s, |s.groups|);
    SumMonotone(cpu, amount, CoresOf(s.groups), Lcores(cpu));
  }

  lemma {:induction false} OwnCoresListed(cpu: seq<CoreInfo>, s: MonState, n: nat)
    requires s.assoc.Keys == Lcores(cpu) && Sound(cpu, s) && n <= |s.groups|
    ensures CoresOf(s.groups[..n]) <= Lcores(cpu)
  {
    if n > 0 {
      OwnCoresListed(cpu, s, n - 1);
      assert s.groups[..n][..n - 1] == s.groups[..n - 1] && s.groups[..n][n - 1] == s.groups[n - 1];
      forall l | l in s.groups[n - 1].cores ensures l in Lcores(cpu) {
        assert CarriesOwn(cpu, s.assoc, s.groups[n - 1], l);
      }
    }
  }

  // ----- bandwidth -----

  const MBM_MAX_VALUE: nat := 0x100_0000

  /** The difference of two readings, allowing for one overrun of a 24-bit counter; the arithmetic is 64-bit. */
  function GetDelta(oldValue: Word, newValue: Word): Word {
    if oldValue > newValue then (MBM_MAX_VALUE - oldValue + newValue) % WORD_LIMIT else newValue - oldValue
  }

  /** A difference is the true traffic exactly when less than one full turn lies between the readings. */
  lemma DeltaIsTraffic(before: nat, now: nat)
    requires before <= now
    ensures GetDelta(before % MBM_MAX_VALUE, now % MBM_MAX_VALUE) == now - before <==> now - before < MBM_MAX_VALUE
  {
  }

  function SumOf(s: seq<nat>): nat {
    if s == [] then 0 else SumOf(s[..|s| - 1]) + s[|s| - 1]
  }

  /** How often the counters of a group's contexts turned over, from readings `a` and traffic `d` since then. */
  function Turns(a: seq<nat>, d: seq<nat>): nat
    requires |a| == |d|
  {
    if a == [] then 0
    else Turns(a[..|a| - 1], d[..|d| - 1]) + (a[|a| - 1] + d[|d| - 1]) / MBM_MAX_VALUE
  }

  /** The sum of the new 24-bit readings. */
  function NewSum(a: seq<nat>, d: seq<nat>): nat
    requires |a| == |d|
  {
    if a == [] then 0
    else NewSum(a[..|a| - 1], d[..|d| - 1]) + (a[|a| - 1] + d[|d| - 1]) % MBM_MAX_VALUE
  }

  ghost predicate Readings(a: seq<nat>) {
    |a| < UINT_LIMIT && forall i :: 0 <= i < |a| ==> a[i] < MBM_MAX_VALUE
  }

  lemma {:induction false} SumsAdd(a: seq<nat>, d: seq<nat>)
    requires |a| == |d| && Readings(a)
    ensures NewSum(a, d) + Turns(a, d) * MBM_MAX_VALUE == SumOf(a) + SumOf(d)
    ensures SumOf(a) <= |a| * MBM_MAX_VALUE && NewSum(a, d) <= |a| * MBM_MAX_VALUE
  {
    if a != [] {
      SumsAdd(a[..|a| - 1], d[..|d| - 1]);
    }
  }

  /** Times a counter must turn for the 64-bit difference to come round to the right value again. */
  const ALL_ROUND: nat := WORD_LIMIT / MBM_MAX_VALUE + 1

  /** A group's contexts are summed and the sum is treated as one counter. The difference of two sums is the
      true traffic if and only if no counter turned over, or one did and the traffic is below one turn, or
      the 64-bit arithmetic came round, which takes more than 2^40 turns between two polls. */
  lemma ContextsDelta(a: seq<nat>, d: seq<nat>)
    requires |a| == |d| && Readings(a)
    ensures SumOf(a) < WORD_LIMIT && NewSum(a, d) < WORD_LIMIT
    ensures GetDelta(SumOf(a), NewSum(a, d)) == SumOf(d) <==>
      || Turns(a, d) == 0
      || (Turns(a, d) == 1 && SumOf(d) < MBM_MAX_VALUE)
      || (Turns(a, d) == ALL_ROUND && SumOf(d) < WORD_LIMIT)
  {
    SumsAdd(a, d);
    var sum: int, later: int, traffic: int, turns := SumOf(a), NewSum(a, d), SumOf(d), Turns(a, d);
    assert later - sum == traffic - turns * MBM_MAX_VALUE;
    assert |a| * MBM_MAX_VALUE < UINT_LIMIT * MBM_MAX_VALUE < WORD_LIMIT;
    DeltaOfSums(sum, later, traffic, turns);
  }

  lemma DeltaOfSums(sum: Word, later: Word, traffic: nat, turns: nat)
    requires sum < UINT_LIMIT * MBM_MAX_VALUE && later < UINT_LIMIT * MBM_MAX_VALUE
    requires later - sum == traffic - turns * MBM_MAX_VALUE
    ensures GetDelta(sum, later) == traffic <==>
      || turns == 0
      || (turns == 1 && traffic < MBM_MAX_VALUE)
      || (turns == ALL_ROUND && traffic < WORD_LIMIT)
  {
    assert WORD_LIMIT == 0x100_0000_0000 * MBM_MAX_VALUE;
    var e: int := later - sum;
    if e < 0 - MBM_MAX_VALUE {
      assert (MBM_MAX_VALUE + e) % WORD_LIMIT == MBM_MAX_VALUE + e + WORD_LIMIT;
    } else if e < 0 {
      assert (MBM_MAX_VALUE + e) % WORD_LIMIT == MBM_MAX_VALUE + e;
    }
  }

  lemma {:induction false} FewTurns(a: seq<nat>, d: seq<nat>)
    requires |a| == |d| && Readings(a) && Readings(d)
    ensures Turns(a, d) <= |a|
  {
    if a != [] {
      FewTurns(a[..|a| - 1], d[..|d| - 1]);
      assert a[|a| - 1] + d[|d| - 1] < 2 * MBM_MAX_VALUE;
    }
  }

  /** With less than one turn for each context, the number of turns is the number of counters that turned over,
      and only the first two cases remain. */
  lemma ContextsDeltaPerTurn(a: seq<nat>, d: seq<nat>)
    requires |a| == |d| && Readings(a) && Readings(d)
    ensures SumOf(a) < WORD_LIMIT && NewSum(a, d) < WORD_LIMIT && Turns(a, d) <= |a|
    ensures GetDelta(SumOf(a), NewSum(a, d)) == SumOf(d) <==>
      Turns(a, d) == 0 || (Turns(a, d) == 1 && SumOf(d) < MBM_MAX_VALUE)
  {
    ContextsDelta(a, d);
    FewTurns(a, d);
  }

  /** For instance two contexts of which one turns over, with the traffic of exactly one turn between them,
      are reported to have none. */
  lemma TwoContextsMiscount(a: nat, b: nat, da: nat, db: nat)
    requires a < MBM_MAX_VALUE && b < MBM_MAX_VALUE && da + db == MBM_MAX_VALUE
    requires a + da >= MBM_MAX_VALUE && b + db < MBM_MAX_VALUE
    ensures GetDelta(a + b, (a + da) % MBM_MAX_VALUE + (b + db) % MBM_MAX_VALUE) == 0
  {
    assert (a + da) % MBM_MAX_VALUE == a + da - MBM_MAX_VALUE;
  }

  /** The bandwidth part of a group: last reading, last difference, and whether a reading was taken. */
  datatype Bandwidth = Bandwidth(reading: Word, delta: Word, valid: bool)

  /** A reading of a group: the 64-bit sum over its contexts. */
  function Summed(counter: (nat, nat) -> nat, ctxs: seq<Ctx>): Word {
    CtxTotal(counter, ctxs) % WORD_LIMIT
  }

  /** A difference in the units that are reported. */
  function ScaledDelta(oldValue: Word, newValue: Word, scale: nat): Word {
    GetDelta(oldValue, newValue) * scale % WORD_LIMIT
  }

  /** What one successful poll makes of it. */
  function PollOnce(b: Bandwidth, reading: Word, scale: nat): Bandwidth {
    Bandwidth(reading, if b.valid then ScaledDelta(b.reading, reading, scale) else 0, true)
  }

  /** Successful polls of a group, the first one ever among them; `counters[i]` is the hardware at poll `i`. */
  ghost predicate PollRun(states: seq<Bandwidth>, ctxs: seq<Ctx>, counters: seq<(nat, nat) -> nat>, scale: nat) {
    && |states| == |counters| + 1 && !states[0].valid
    && forall i :: 0 <= i < |counters| ==>
         states[i + 1] == PollOnce(states[i], Summed(counters[i], ctxs), scale)
  }

  /** The differences reported by the first `n` polls. */
  ghost function DeltaSum(states: seq<Bandwidth>, n: nat): nat
    requires n < |states|
  {
    if n == 0 then 0 else DeltaSum(states, n - 1) + states[n].delta
  }

  /** The 24-bit counter of the one context, for the true traffic at each poll. */
  ghost predicate Counts(ctx: Ctx, counters: seq<(nat, nat) -> nat>, traffic: seq<nat>) {
    |counters| == |traffic| &&
    forall i :: 0 <= i < |traffic| ==> counters[i](ctx.cluster, ctx.rmid) == traffic[i] % MBM_MAX_VALUE
  }

  /** Less than a counter turn between two polls. */
  ghost predicate Slow(traffic: seq<nat>) {
    forall i :: 0 < i < |traffic| ==> traffic[i - 1] <= traffic[i] < traffic[i - 1] + MBM_MAX_VALUE
  }

  lemma OneContextTotal(counter: (nat, nat) -> nat, ctx: Ctx)
    ensures CtxTotal(counter, [ctx]) == counter(ctx.cluster, ctx.rmid)
  {
    assert [ctx][..0] == [];
  }

  /** Over any run of successful polls of a group with one context, less than one counter turn apart, the
      reported differences add up to the scaled true traffic since the first poll, whose own difference is 0. */
  lemma {:induction false} DeltasTelescope(states: seq<Bandwidth>, ctx: Ctx, counters: seq<(nat, nat) -> nat>,
      traffic: seq<nat>, scale: UInt, n: nat)
    requires PollRun(states, [ctx], counters, scale) && Counts(ctx, counters, traffic) && Slow(traffic)
    requires 1 <= n <= |traffic|
    ensures states[n].valid && states[n].reading == traffic[n - 1] % MBM_MAX_VALUE
    ensures states[1].delta == 0 && traffic[0] <= traffic[n - 1]
    ensures DeltaSum(states, n) == (traffic[n - 1] - traffic[0]) * scale
  {
    OneContextTotal(counters[n - 1], ctx);
    assert states[n] == PollOnce(states[n - 1], Summed(counters[n - 1], [ctx]), scale);
    if n == 1 {
      assert DeltaSum(states, 1) == DeltaSum(states, 0) + states[1].delta;
    } else {
      DeltasTelescope(states, ctx, counters, traffic, scale, n - 1);
      var prev, last := traffic[n - 2], traffic[n - 1];
      DeltaIsTraffic(prev, last);
      ScaledFits(last - prev, scale);
      AddUp(traffic[0], prev, last, scale);
      hide GetDelta;
    }
  }

  lemma AddUp(first: int, prev: int, last: int, scale: int)
    ensures (prev - first) * scale + (last - prev) * scale == (last - first) * scale
  {
  }

  /** A 24-bit difference times a 32-bit scale fits 64 bits. */
  lemma ScaledFits(delta: nat, scale: UInt)
    requires delta < MBM_MAX_VALUE
    ensures 0 <= delta * scale < WORD_LIMIT
    ensures delta * scale % WORD_LIMIT == delta * scale
  {
    assert delta * scale <= MBM_MAX_VALUE * scale;
  }

  // ----- reading the counters -----

  /** The counter hardware: its data per event, L3 cluster and RMID, which selections it refuses, and at which
      accesses it has no data ready (it then shows `stale`). */
  datatype Qmc = Qmc(
    data: (Event, nat, nat) -> nat,
    refuses: (Event, nat, nat) -> bool,
    late: nat -> bool,
    stale: nat -> nat)

  const QMC_DATA_LIMIT: nat := 0x4000_0000_0000_0000

  /** How many of up to three reads from access `t` on it takes until data is ready. */
  function ReadsFrom(q: Qmc, t: nat): nat {
    if !q.late(t) then 1 else if !q.late(t + 1) then 2 else 3
  }

  /** No data in three reads in a row. */
  predicate AllLate(q: Qmc, t: nat) {
    q.late(t) && q.late(t + 1) && q.late(t + 2)
  }

  /** The value stored: the counter, or what the third read showed when data was not ready even then. */
  function Shown(q: Qmc, event: Event, cluster: nat, rmid: nat, t: nat): nat {
    (if AllLate(q, t) then q.stale(t + 2) else q.data(event, cluster, rmid)) % QMC_DATA_LIMIT
  }

  /** `mon_read`: selects the RMID and event, then reads up to three times while no data is ready; after three
      reads without data it still reports success. */
  method MonRead(hw: Msr, q: Qmc, lcore: nat, rmid: nat, event: Event) returns (ok: bool, value: nat)
    requires hw.Valid()
    modifies hw`clock
    ensures hw.Valid() && hw.clock >= old(hw.clock)
    ensures ok ==> Lookup(hw.chip.cpu, lcore).Some?
    ensures ok ==> !q.refuses(event, Lookup(hw.chip.cpu, lcore).value.l3Id, rmid % RMID_LIMIT)
    ensures ok ==> value == Shown(q, event, Lookup(hw.chip.cpu, lcore).value.l3Id, rmid % RMID_LIMIT, old(hw.clock) + 1)
    ensures ok && !(q.late(old(hw.clock) + 1) && q.late(old(hw.clock) + 2) && q.late(old(hw.clock) + 3)) ==>
      value == q.data(event, Lookup(hw.chip.cpu, lcore).value.l3Id, rmid % 1024) % 0x4000_0000_0000_0000
    ensures ok ==> hw.clock == old(hw.clock) + 1 + ReadsFrom(q, old(hw.clock) + 1)
    ensures hw.NoFault(old(hw.clock), hw.clock) && Lookup(hw.chip.cpu, lcore).Some?
      && !q.refuses(event, Lookup(hw.chip.cpu, lcore).value.l3Id, rmid % RMID_LIMIT)
      ==> ok
  {
    hide ValidRegs, WellFormed;
    value := 0;
    ok := hw.Touch(lcore);
    if !ok {
      return;
    }
    var cluster := Lookup(hw.chip.cpu, lcore).value.l3Id;
    var retries := 3;
    var again := true;
    while again
      invariant hw.Valid() && hw.regs == old(hw.regs)
      invariant ok && 0 <= retries <= 3 && (again ==> retries > 0) && (!again ==> retries < 3)
      invariant hw.clock == old(hw.clock) + 4 - retries
      invariant retries < 3 ==> !q.refuses(event, cluster, rmid % RMID_LIMIT)
      invariant (again && retries == 2) || retries <= 1 ==> q.late(old(hw.clock) + 1)
      invariant (again && retries == 1) || retries == 0 ==> q.late(old(hw.clock) + 2)
      invariant !again && retries > 0 ==> !q.late(hw.clock - 1)
      invariant !again ==> value == (if q.late(hw.clock - 1) then q.stale(hw.clock - 1)
                                     else q.data(event, cluster, rmid % RMID_LIMIT)) % QMC_DATA_LIMIT
      decreases retries, again
    {
      var late, now := q.late(hw.clock), hw.clock;
      ok := hw.Touch(lcore);
      if !ok || q.refuses(event, cluster, rmid % RMID_LIMIT) {
        return false, value;
      }
      value := (if late then q.stale(now) else q.data(event, cluster, rmid % RMID_LIMIT)) % QMC_DATA_LIMIT;
      retries := retries - 1;
      again := late && retries > 0;
    }
  }

  /** Counter of an event as a function of cluster and RMID. */
  function CounterOf(q: Qmc, event: Event): (nat, nat) -> nat {
    (cluster, rmid) => q.data(event, cluster, rmid) % QMC_DATA_LIMIT
  }

  /** Among the accesses from `from` up to `to` there are no three late ones in a row. */
  ghost predicate NotStuck(q: Qmc, from: nat, to: nat) {
    forall t: nat :: from <= t && t + 3 <= to ==> !AllLate(q, t)
  }

  /** The contexts as a started group has them. */
  ghost predicate ReadableCtxs(cpu: seq<CoreInfo>, ctxs: seq<Ctx>) {
    forall k :: 0 <= k < |ctxs| ==> InCluster(cpu, ctxs[k].lcore, ctxs[k].cluster) && ctxs[k].rmid < RMID_LIMIT
  }

  /** The contexts of an active group are readable ones, so a poll of it sees their counters. */
  lemma StartedIsReadable(cpu: seq<CoreInfo>, states: seq<MonState>, calls: seq<MonCall>, n: nat, i: nat)
    requires MonRun(cpu, states, calls) && n <= |calls| && i < |states[n].groups|
    ensures ReadableCtxs(cpu, states[n].groups[i].ctxs)
  {
    RunIsSound(cpu, states, calls, n);
    var s := states[n];
    forall k | 0 <= k < |s.groups[i].ctxs|
      ensures InCluster(cpu, s.groups[i].ctxs[k].lcore, s.groups[i].ctxs[k].cluster)
        && s.groups[i].ctxs[k].rmid < RMID_LIMIT
    {
      assert OwnCtx(cpu, s.assoc, s.groups[i], s.groups[i].ctxs[k]);
    }
  }

  /** Every context's core exists and its selection is not refused. */
  ghost predicate Answers(cpu: seq<CoreInfo>, q: Qmc, ctxs: seq<Ctx>, event: Event) {
    forall k :: 0 <= k < |ctxs| ==>
      Lookup(cpu, ctxs[k].lcore).Some?
        && !q.refuses(event, Lookup(cpu, ctxs[k].lcore).value.l3Id, ctxs[k].rmid % RMID_LIMIT)
  }

  /** Adds up an event over the group's contexts, in 64 bits. */
  method ReadTotal(hw: Msr, q: Qmc, ctxs: seq<Ctx>, event: Event) returns (ok: bool, total: Word)
    requires hw.Valid()
    modifies hw`clock
    ensures hw.Valid() && hw.clock >= old(hw.clock)
    ensures ok && NotStuck(q, old(hw.clock), hw.clock) && ReadableCtxs(hw.chip.cpu, ctxs) ==>
      total == Summed(CounterOf(q, event), ctxs)
    ensures hw.NoFault(old(hw.clock), hw.clock) && Answers(hw.chip.cpu, q, ctxs, event) ==> ok
  {
    hide ValidRegs, WellFormed, NotStuck, AllLate, ReadsFrom, Shown, CounterOf, ReadableCtxs, InCluster;
    NotStuckPart(q, hw.clock, hw.clock, hw.clock, hw.clock);
    total, ok := 0, true;
    for i := 0 to |ctxs|
      invariant hw.Valid() && hw.clock >= old(hw.clock) && hw.regs == old(hw.regs) && ok
      invariant NotStuck(q, old(hw.clock), hw.clock) && ReadableCtxs(hw.chip.cpu, ctxs) ==>
        total == CtxTotal(CounterOf(q, event), ctxs[..i]) % WORD_LIMIT
    {
      assert ctxs[..i + 1][..i] == ctxs[..i];
      ghost var start := hw.clock;
      var value;
      ok, value := MonRead(hw, q, ctxs[i].lcore, ctxs[i].rmid, event);
      if !ok {
        return;
      }
      NotStuckRead(q, old(hw.clock), start, hw.clock);
      ContextRead(q, hw.chip.cpu, ctxs, event, i, start + 1);
      AddModulo(CtxTotal(CounterOf(q, event), ctxs[..i]), value);
      total := (total + value) % WORD_LIMIT;
    }
    assert ctxs[..|ctxs|] == ctxs;
  }

  /** A read that is not stuck shows the counter of the context. */
  lemma ContextRead(q: Qmc, cpu: seq<CoreInfo>, ctxs: seq<Ctx>, event: Event, i: nat, t: nat)
    requires i < |ctxs| && Lookup(cpu, ctxs[i].lcore).Some?
    ensures ReadableCtxs(cpu, ctxs) && !AllLate(q, t) ==>
      Shown(q, event, Lookup(cpu, ctxs[i].lcore).value.l3Id, ctxs[i].rmid % RMID_LIMIT, t)
      == CounterOf(q, event)(ctxs[i].cluster, ctxs[i].rmid)
  {
  }

  lemma NotStuckRead(q: Qmc, from: nat, start: nat, to: nat)
    requires from <= start && to == start + 1 + ReadsFrom(q, start + 1)
    ensures NotStuck(q, from, to) ==> NotStuck(q, from, start) && !AllLate(q, start + 1)
  {
  }

  lemma NotStuckPart(q: Qmc, from: nat, a: nat, b: nat, to: nat)
    requires from <= a <= b <= to
    ensures NotStuck(q, from, to) ==> NotStuck(q, a, b)
  {
  }

  lemma AddModulo(a: nat, b: nat)
    ensures (a % WORD_LIMIT + b) % WORD_LIMIT == (a + b) % WORD_LIMIT
  {
  }

  function Scale(mon: MonCap, event: Event): nat {
    match FindEvent(mon.events, event) case None => 1 case Some(m) => m.scale
  }

  /** A new bandwidth total and its scaled difference to the old one. */
  method ReadDelta(hw: Msr, mon: MonCap, q: Qmc, ctxs: seq<Ctx>, event: Event, oldValue: Word)
    returns (ok: bool, total: Word, delta: Word)
    requires hw.Valid()
    modifies hw`clock
    ensures hw.Valid() && hw.clock >= old(hw.clock)
    ensures ok && NotStuck(q, old(hw.clock), hw.clock) && ReadableCtxs(hw.chip.cpu, ctxs) ==>
      total == Summed(CounterOf(q, event), ctxs)
    ensures ok ==> delta == ScaledDelta(oldValue, total, Scale(mon, event))
    ensures hw.NoFault(old(hw.clock), hw.clock) && Answers(hw.chip.cpu, q, ctxs, event) ==> ok
  {
    hide ValidRegs, WellFormed, NotStuck, ReadableCtxs, CtxTotal, GetDelta, Answers;
    ok, total := ReadTotal(hw, q, ctxs, event);
    if !ok {
      return false, total, 0;
    }
    delta := GetDelta(oldValue, total) * Scale(mon, event) % WORD_LIMIT;
  }

  function Local(group: MonGroup): Bandwidth
    reads group
  {
    Bandwidth(group.mbmLocal, group.mbmLocalDelta, group.validMbmRead)
  }

  function Total(group: MonGroup): Bandwidth
    reads group
  {
    Bandwidth(group.mbmTotal, group.mbmTotalDelta, group.validMbmRead)
  }

  /** The hardware takes the selection of every event that the poll reads; remote bandwidth takes both others. */
  ghost predicate AllAnswer(cpu: seq<CoreInfo>, q: Qmc, ctxs: seq<Ctx>, events: set<Event>) {
    && (forall e :: e in events ==> Answers(cpu, q, ctxs, e))
    && (RmemBw in events ==> Answers(cpu, q, ctxs, LmemBw) && Answers(cpu, q, ctxs, TmemBw))
  }

  lemma EachAnswers(cpu: seq<CoreInfo>, q: Qmc, ctxs: seq<Ctx>, events: set<Event>)
    ensures AllAnswer(cpu, q, ctxs, events) ==>
      && (L3Occup in events ==> Answers(cpu, q, ctxs, L3Occup))
      && (LmemBw in events || RmemBw in events ==> Answers(cpu, q, ctxs, LmemBw))
      && (TmemBw in events || RmemBw in events ==> Answers(cpu, q, ctxs, TmemBw))
  {
    hide Answers;
  }

  /** The counter value in the units of its event: times the listed scale, in 64 bits, or as it is if not listed. */
  ghost predicate InUnits(mon: MonCap, event: Event, raw: nat, value: nat) {
    && (forall m :: FindEvent(mon.events, event) == Some(m) ==> value == raw * m.scale % 0x1_0000_0000_0000_0000)
    && (FindEvent(mon.events, event).None? ==> value == raw % 0x1_0000_0000_0000_0000)
  }

  lemma ScaledInUnits(mon: MonCap, event: Event, raw: nat)
    ensures InUnits(mon, event, raw, raw * Scale(mon, event) % WORD_LIMIT)
  {
    assert raw * 1 == raw;
  }

  /** The total is the 64-bit sum over the contexts, and the difference to the total before is in bytes; on a first
      poll it is 0. */
  ghost predicate BandwidthRead(mon: MonCap, event: Event, sum: nat, first: bool, before: Word, total: Word,
      delta: nat)
  {
    && total == sum % 0x1_0000_0000_0000_0000
    && if first then delta == 0 else InUnits(mon, event, GetDelta(before, total), delta)
  }

  lemma PolledInUnits(mon: MonCap, event: Event, counter: (nat, nat) -> nat, ctxs: seq<Ctx>, b: Bandwidth,
      b': Bandwidth)
    requires b' == PollOnce(b, Summed(counter, ctxs), Scale(mon, event))
    ensures BandwidthRead(mon, event, CtxTotal(counter, ctxs), !b.valid, b.reading, b'.reading, b'.delta)
  {
    ScaledInUnits(mon, event, GetDelta(b.reading, Summed(counter, ctxs)));
  }

  lemma BothInUnits(mon: MonCap, q: Qmc, ctxs: seq<Ctx>, l: Bandwidth, l': Bandwidth, t: Bandwidth, t': Bandwidth)
    ensures l' == PollOnce(l, Summed(CounterOf(q, LmemBw), ctxs), Scale(mon, LmemBw)) ==>
      BandwidthRead(mon, LmemBw, CtxTotal(CounterOf(q, LmemBw), ctxs), !l.valid, l.reading, l'.reading, l'.delta)
    ensures t' == PollOnce(t, Summed(CounterOf(q, TmemBw), ctxs), Scale(mon, TmemBw)) ==>
      BandwidthRead(mon, TmemBw, CtxTotal(CounterOf(q, TmemBw), ctxs), !t.valid, t.reading, t'.reading, t'.delta)
  {
    hide BandwidthRead, PollOnce, Scale, CtxTotal, Summed;
    if l' == PollOnce(l, Summed(CounterOf(q, LmemBw), ctxs), Scale(mon, LmemBw)) {
      PolledInUnits(mon, LmemBw, CounterOf(q, LmemBw), ctxs, l, l');
    }
    if t' == PollOnce(t, Summed(CounterOf(q, TmemBw), ctxs), Scale(mon, TmemBw)) {
      PolledInUnits(mon, TmemBw, CounterOf(q, TmemBw), ctxs, t, t');
    }
  }

  lemma OccupancyInUnits(mon: MonCap, counter: (nat, nat) -> nat, ctxs: seq<Ctx>, llc: nat)
    ensures llc == Summed(counter, ctxs) * Scale(mon, L3Occup) % WORD_LIMIT ==>
      InUnits(mon, L3Occup, CtxTotal(counter, ctxs) % WORD_LIMIT, llc)
  {
    ScaledInUnits(mon, L3Occup, Summed(counter, ctxs));
  }

  /** `pqos_core_poll`, without the performance-counter events: occupancy, then local and total bandwidth. */
  method CorePoll(hw: Msr, mon: MonCap, q: Qmc, group: MonGroup) returns (ok: bool)
    requires hw.Valid()
    modifies hw`clock, group`llc, group`mbmLocal, group`mbmLocalDelta, group`mbmTotal, group`mbmTotalDelta,
      group`validMbmRead
    ensures hw.Valid() && hw.clock >= old(hw.clock)
    ensures !ok ==> Total(group) == old(Total(group))
    ensures hw.NoFault(old(hw.clock), hw.clock) && AllAnswer(hw.chip.cpu, q, group.ctxs, group.events) ==> ok
    ensures ok && NotStuck(q, old(hw.clock), hw.clock) && ReadableCtxs(hw.chip.cpu, group.ctxs) ==>
      && (L3Occup in group.events ==>
            group.llc == Summed(CounterOf(q, L3Occup), group.ctxs) * Scale(mon, L3Occup) % WORD_LIMIT)
      && (LmemBw in group.events || RmemBw in group.events ==>
            Local(group) == PollOnce(old(Local(group)), Summed(CounterOf(q, LmemBw), group.ctxs),
              Scale(mon, LmemBw)))
      && (TmemBw in group.events || RmemBw in group.events ==>
            Total(group) == PollOnce(old(Total(group)), Summed(CounterOf(q, TmemBw), group.ctxs),
              Scale(mon, TmemBw)))
    ensures ok && NotStuck(q, old(hw.clock), hw.clock) && ReadableCtxs(hw.chip.cpu, group.ctxs) ==>
      && (L3Occup in group.events ==>
            InUnits(mon, L3Occup, CtxTotal(CounterOf(q, L3Occup), group.ctxs) % WORD_LIMIT, group.llc))
      && (LmemBw in group.events || RmemBw in group.events ==>
            BandwidthRead(mon, LmemBw, CtxTotal(CounterOf(q, LmemBw), group.ctxs), !old(group.validMbmRead),
              old(group.mbmLocal), group.mbmLocal, group.mbmLocalDelta))
      && (TmemBw in group.events || RmemBw in group.events ==>
            BandwidthRead(mon, TmemBw, CtxTotal(CounterOf(q, TmemBw), group.ctxs), !old(group.validMbmRead),
              old(group.mbmTotal), group.mbmTotal, group.mbmTotalDelta))
  {
    hide ValidRegs, WellFormed, NotStuck, ReadableCtxs, CtxTotal, GetDelta, Answers, AllAnswer, Scale, CounterOf,
      Summed, ScaledDelta, InUnits, BandwidthRead;
    EachAnswers(hw.chip.cpu, q, group.ctxs, group.events);
    var total, delta;
    ghost var a, b, c := hw.clock, hw.clock, hw.clock;
    if L3Occup in group.events {
      ok, total := ReadTotal(hw, q, group.ctxs, L3Occup);
      if !ok {
        return;
      }
      group.llc := total * Scale(mon, L3Occup) % WORD_LIMIT;
      OccupancyInUnits(mon, CounterOf(q, L3Occup), group.ctxs, group.llc);
    }
    b := hw.clock;
    if LmemBw in group.events || RmemBw in group.events {
      ok, total, delta := ReadDelta(hw, mon, q, group.ctxs, LmemBw, group.mbmLocal);
      if !ok {
        return;
      }
      group.mbmLocal, group.mbmLocalDelta := total, delta;
    }
    c := hw.clock;
    if TmemBw in group.events || RmemBw in group.events {
      ok, total, delta := ReadDelta(hw, mon, q, group.ctxs, TmemBw, group.mbmTotal);
      if !ok {
        return;
      }
      group.mbmTotal, group.mbmTotalDelta := total, delta;
    }
    NotStuckPart(q, a, a, b, hw.clock);
    NotStuckPart(q, a, b, c, hw.clock);
    NotStuckPart(q, a, c, hw.clock, hw.clock);
    if !group.validMbmRead {
      group.mbmLocalDelta := 0;
      group.mbmTotalDelta := 0;
      group.validMbmRead := true;
    }
    BothInUnits(mon, q, group.ctxs, old(Local(group)), Local(group), old(Total(group)), Total(group));
    ok := true;
  }
}
