/** Whole runs of monitoring starts and stops, with register writes that may fail midway. */
module MonRuns {
  import opened Topology
  import opened Registers
  import opened CosAssign
  import opened Monitoring

  datatype Group = Group(cores: seq<nat>, ctxs: seq<Ctx>)

  datatype MonState = MonState(assoc: AssocRegs, groups: seq<Group>)

  datatype MonCall =
    | StartCall(cores: seq<nat>, ctxs: seq<Ctx>, tagged: set<nat>, ok: bool)
    | StopCall(index: nat, done: set<nat>)
    | AllocCall  // assignments, releases and resets: the RMIDs stay

  /** What each call's contract says, with the list of active groups. */
  ghost predicate MonStep(cpu: seq<CoreInfo>, s: MonState, call: MonCall, s': MonState)
    requires s.assoc.Keys == Lcores(cpu)
  {
    match call
    case StartCall(cores, ctxs, tagged, ok) =>
      && StartStep(cpu, s.assoc, cores, ctxs, tagged, ok, s'.assoc)
      && s'.groups == if ok then s.groups + [Group(cores, ctxs)] else s.groups
    case StopCall(i, done) =>
      && i < |s.groups| && StopStep(s.assoc, s.groups[i].cores, done, s'.assoc)
      && s'.groups == s.groups[..i] + s.groups[i + 1..]
    case AllocCall =>
      && s'.assoc.Keys == s.assoc.Keys && s'.groups == s.groups
      && (forall l :: l in s.assoc ==> Rmid(s'.assoc[l]) == Rmid(s.assoc[l]))
  }

  /** A start that undid everything if it failed, or a stop that reached every core. */
  ghost predicate Complete(s: MonState, call: MonCall) {
    match call
    case StartCall(_, _, tagged, ok) => ok || tagged == {}
    case StopCall(i, done) => i < |s.groups| && done == Members(s.groups[i].cores)
    case AllocCall => true
  }

  /** A run that starts with every core on RMID0 and no group. */
  ghost predicate MonRun(cpu: seq<CoreInfo>, states: seq<MonState>, calls: seq<MonCall>) {
    && WellFormed(cpu) && |states| == |calls| + 1
    && states[0].groups == []
    && (forall i :: 0 <= i < |states| ==> states[i].assoc.Keys == Lcores(cpu))
    && (forall l :: l in states[0].assoc ==> Rmid(states[0].assoc[l]) == 0)
    && (forall i :: 0 <= i < |calls| ==> MonStep(cpu, states[i], calls[i], states[i + 1]))
  }

  /** Assignments, releases and resets are no step of the monitoring machine: they keep every core's RMID. */
  lemma AllocationKeepsRmids(cpu: seq<CoreInfo>, before: AssocRegs, call: CosCall, after: AssocRegs, groups: seq<Group>)
    requires before.Keys == Lcores(cpu) && CosStep(cpu, before, call, after) && !call.OtherCall?
    ensures MonStep(cpu, MonState(before, groups), AllocCall, MonState(after, groups))
  {
    forall l | l in before ensures Rmid(after[l]) == Rmid(before[l]) {
      AssocFields(before[l], if call.AssignCall? then call.classId else 0, 0);
    }
  }

  // ----- what holds of one active group -----

  /** The group's cores carry its RMIDs, and nobody else carries them in its clusters. */
  ghost predicate GroupTagged(cpu: seq<CoreInfo>, assoc: AssocRegs, g: Group)
    requires Lcores(cpu) <= assoc.Keys
  {
    && DistinctClusters(g.ctxs) && Covered(cpu, g.cores, g.ctxs)
    && (forall k :: 0 <= k < |g.ctxs| ==> OwnCtx(cpu, assoc, g, g.ctxs[k]))
    && (forall l :: l in g.cores ==> CarriesOwn(cpu, assoc, g, l))
  }

  ghost predicate OwnCtx(cpu: seq<CoreInfo>, assoc: AssocRegs, g: Group, ctx: Ctx)
    requires Lcores(cpu) <= assoc.Keys
  {
    && ctx.lcore in g.cores && InCluster(cpu, ctx.lcore, ctx.cluster) && 0 < ctx.rmid < RMID_LIMIT
    && forall x :: x in cpu && x.l3Id == ctx.cluster && Rmid(assoc[x.lcore]) == ctx.rmid ==> x.lcore in g.cores
  }

  ghost predicate CarriesOwn(cpu: seq<CoreInfo>, assoc: AssocRegs, g: Group, l: nat) {
    && l in assoc && Lookup(cpu, l).Some?
    && Rmid(assoc[l]) == RmidFor(g.ctxs, Lookup(cpu, l).value.l3Id) != 0
  }

  ghost predicate DisjointGroups(groups: seq<Group>) {
    forall i, j :: 0 <= i < j < |groups| ==> Members(groups[i].cores) !! Members(groups[j].cores)
  }

  ghost predicate Sound(cpu: seq<CoreInfo>, s: MonState)
    requires Lcores(cpu) <= s.assoc.Keys
  {
    && (forall i :: 0 <= i < |s.groups| ==> GroupTagged(cpu, s.assoc, s.groups[i]))
    && DisjointGroups(s.groups)
  }

  /** Every core with a non-zero RMID belongs to an active group. */
  ghost predicate NoStrays(s: MonState) {
    forall l :: l in s.assoc && Rmid(s.assoc[l]) != 0 ==> exists i :: 0 <= i < |s.groups| && l in s.groups[i].cores
  }

  // ----- one step -----

  /** The RMID of a group in a cluster where it has a core is in use there. */
  lemma OwnRmidUsed(cpu: seq<CoreInfo>, assoc: AssocRegs, g: Group, k: nat)
    requires WellFormed(cpu) && Lcores(cpu) <= assoc.Keys && GroupTagged(cpu, assoc, g) && k < |g.ctxs|
    ensures RmidUsed(cpu, assoc, g.ctxs[k].cluster, g.ctxs[k].rmid)
  {
    var ctx := g.ctxs[k];
    assert OwnCtx(cpu, assoc, g, ctx) && CarriesOwn(cpu, assoc, g, ctx.lcore);
    RmidForAt(g.ctxs, k);
    var x := Lookup(cpu, ctx.lcore).value;
    assert x in cpu && x.l3Id == ctx.cluster && Rmid(assoc[x.lcore]) == ctx.rmid;
  }

  lemma StartKeepsGroup(cpu: seq<CoreInfo>, before: AssocRegs, cores: seq<nat>, ctxs: seq<Ctx>, tagged: set<nat>,
      after: AssocRegs, g: Group)
    requires WellFormed(cpu) && before.Keys == Lcores(cpu) && GroupTagged(cpu, before, g)
    requires tagged <= Members(cores) && (tagged != {} ==> FreshCtxs(cpu, before, cores, ctxs))
    requires Tagged(cpu, before, ctxs, tagged, after)
    ensures GroupTagged(cpu, after, g)
    ensures Members(g.cores) !! tagged
  {
    forall l | l in g.cores ensures l !in tagged && CarriesOwn(cpu, after, g, l) {
      assert CarriesOwn(cpu, before, g, l);
      if l in tagged {
        CtxOfCore(cpu, before, cores, ctxs, l);
      }
    }
    forall k | 0 <= k < |g.ctxs| ensures OwnCtx(cpu, after, g, g.ctxs[k]) {
      var ctx := g.ctxs[k];
      assert OwnCtx(cpu, before, g, ctx);
      OwnRmidUsed(cpu, before, g, k);
      forall x | x in cpu && x.l3Id == ctx.cluster && Rmid(after[x.lcore]) == ctx.rmid ensures x.lcore in g.cores {
        if x.lcore in tagged {
          LookupIsUnique(cpu, x);
          CtxOfCore(cpu, before, cores, ctxs, x.lcore);
        }
      }
    }
  }

  lemma StartMakesGroup(cpu: seq<CoreInfo>, before: AssocRegs, cores: seq<nat>, ctxs: seq<Ctx>, after: AssocRegs)
    requires WellFormed(cpu) && before.Keys == Lcores(cpu)
    requires FreshCtxs(cpu, before, cores, ctxs) && Tagged(cpu, before, ctxs, Members(cores), after)
    ensures GroupTagged(cpu, after, Group(cores, ctxs))
  {
    var g := Group(cores, ctxs);
    forall l | l in cores ensures CarriesOwn(cpu, after, g, l) {
      CtxOfCore(cpu, before, cores, ctxs, l);
    }
    forall k | 0 <= k < |ctxs| ensures OwnCtx(cpu, after, g, ctxs[k]) {
      assert FreshCtx(cpu, before, cores, ctxs[k]);
      forall x | x in cpu && x.l3Id == ctxs[k].cluster && Rmid(after[x.lcore]) == ctxs[k].rmid
        ensures x.lcore in cores
      {
      }
    }
  }

  lemma StopKeepsGroup(cpu: seq<CoreInfo>, before: AssocRegs, done: set<nat>, after: AssocRegs, g: Group)
    requires before.Keys == Lcores(cpu) && GroupTagged(cpu, before, g)
    requires Cleared(before, done, after) && Members(g.cores) !! done
    ensures GroupTagged(cpu, after, g)
  {
    forall l | l in g.cores ensures CarriesOwn(cpu, after, g, l) {
      assert CarriesOwn(cpu, before, g, l) && l in Members(g.cores);
    }
    forall k | 0 <= k < |g.ctxs| ensures OwnCtx(cpu, after, g, g.ctxs[k]) {
      assert OwnCtx(cpu, before, g, g.ctxs[k]);
    }
  }

  lemma OtherKeepsGroup(cpu: seq<CoreInfo>, before: AssocRegs, after: AssocRegs, g: Group)
    requires before.Keys == Lcores(cpu) == after.Keys && GroupTagged(cpu, before, g)
    requires forall l :: l in before ==> Rmid(after[l]) == Rmid(before[l])
    ensures GroupTagged(cpu, after, g)
  {
    forall l | l in g.cores ensures CarriesOwn(cpu, after, g, l) {
      assert CarriesOwn(cpu, before, g, l);
    }
    forall k | 0 <= k < |g.ctxs| ensures OwnCtx(cpu, after, g, g.ctxs[k]) {
      assert OwnCtx(cpu, before, g, g.ctxs[k]);
    }
  }

  lemma StepKeepsSound(cpu: seq<CoreInfo>, s: MonState, call: MonCall, s': MonState)
    requires WellFormed(cpu) && s.assoc.Keys == Lcores(cpu) && s'.assoc.Keys == Lcores(cpu)
    requires Sound(cpu, s) && MonStep(cpu, s, call, s')
    ensures Sound(cpu, s')
  {
    hide GroupTagged, FreshCtxs, Tagged, Cleared, WellFormed;
    match call
    case StartCall(cores, ctxs, tagged, ok) =>
      forall i | 0 <= i < |s.groups|
        ensures GroupTagged(cpu, s'.assoc, s.groups[i]) && Members(s.groups[i].cores) !! tagged
      {
        StartKeepsGroup(cpu, s.assoc, cores, ctxs, tagged, s'.assoc, s.groups[i]);
      }
      if ok {
        StartMakesGroup(cpu, s.assoc, cores, ctxs, s'.assoc);
      }
    case StopCall(i, done) =>
      forall j | 0 <= j < |s.groups| && j != i ensures GroupTagged(cpu, s'.assoc, s.groups[j]) {
        assert Members(s.groups[j].cores) !! Members(s.groups[i].cores);
        StopKeepsGroup(cpu, s.assoc, done, s'.assoc, s.groups[j]);
      }
      forall p | 0 <= p < |s'.groups| ensures s'.groups[p] == s.groups[if p < i then p else p + 1] {
      }
    case AllocCall =>
      forall i | 0 <= i < |s.groups| ensures GroupTagged(cpu, s'.assoc, s.groups[i]) {
        OtherKeepsGroup(cpu, s.assoc, s'.assoc, s.groups[i]);
      }
  }

  lemma StepKeepsNoStrays(cpu: seq<CoreInfo>, s: MonState, call: MonCall, s': MonState)
    requires s.assoc.Keys == Lcores(cpu) && s'.assoc.Keys == Lcores(cpu)
    requires MonStep(cpu, s, call, s') && Complete(s, call) && NoStrays(s)
    ensures NoStrays(s')
  {
    hide FreshCtxs;
    forall l | l in s'.assoc && Rmid(s'.assoc[l]) != 0
      ensures exists i :: 0 <= i < |s'.groups| && l in s'.groups[i].cores
    {
      if call.StartCall? && l in call.tagged {
        assert l in s'.groups[|s.groups|].cores;
      } else {
        var i :| 0 <= i < |s.groups| && l in s.groups[i].cores;
        if call.StopCall? {
          assert i != call.index;
          assert s'.groups[if i < call.index then i else i - 1] == s.groups[i];
        } else {
          assert s'.groups[i] == s.groups[i];
        }
      }
    }
  }

  // ----- cores that an incomplete call leaves behind -----

  /** The core has a non-zero RMID and belongs to no active group. */
  ghost predicate Stray(s: MonState, l: nat) {
    l in s.assoc && Rmid(s.assoc[l]) != 0 && forall i :: 0 <= i < |s.groups| ==> l !in s.groups[i].cores
  }

  lemma StrayIffNotNoStrays(s: MonState)
    ensures NoStrays(s) <==> !exists l :: Stray(s, l)
  {
    if !NoStrays(s) {
      var l :| l in s.assoc && Rmid(s.assoc[l]) != 0 && !exists i :: 0 <= i < |s.groups| && l in s.groups[i].cores;
      assert Stray(s, l);
    }
  }

  /** No later start takes a stray core and no stop reaches it. */
  lemma StrayStays(cpu: seq<CoreInfo>, s: MonState, call: MonCall, s': MonState, l: nat)
    requires s.assoc.Keys == Lcores(cpu) && MonStep(cpu, s, call, s') && Stray(s, l)
    ensures Stray(s', l)
  {
    hide Tagged, Cleared;
    match call
    case StartCall(cores, ctxs, tagged, ok) =>
      StartKeepsStray(cpu, s, cores, ctxs, tagged, ok, s'.assoc, l);
    case StopCall(i, done) =>
      StopKeepsOthers(s.assoc, s.groups[i].cores, done, s'.assoc, l);
      assert forall p :: 0 <= p < |s'.groups| ==> s'.groups[p] == s.groups[if p < i then p else p + 1];
    case AllocCall =>
  }

  lemma StartKeepsStray(cpu: seq<CoreInfo>, s: MonState, cores: seq<nat>, ctxs: seq<Ctx>, tagged: set<nat>, ok: bool,
                        after: AssocRegs, l: nat)
    requires s.assoc.Keys == Lcores(cpu) && StartStep(cpu, s.assoc, cores, ctxs, tagged, ok, after) && Stray(s, l)
    ensures l in after && Rmid(after[l]) != 0 && (ok ==> l !in cores)
  {
    hide Covered;
    assert ok || tagged != {} ==> Unmonitored(cpu, s.assoc, cores);
    assert l in tagged ==> l in cores;
  }

  lemma StopKeepsOthers(before: AssocRegs, cores: seq<nat>, done: set<nat>, after: AssocRegs, l: nat)
    requires StopStep(before, cores, done, after) && l in before && l !in cores
    ensures l in after && Rmid(after[l]) == Rmid(before[l])
  {
  }

  /** A failed start whose undo did not reach a tagged core leaves it a stray. */
  lemma FailedStartLeavesStray(cpu: seq<CoreInfo>, s: MonState, cores: seq<nat>, ctxs: seq<Ctx>, tagged: set<nat>,
                               after: AssocRegs, l: nat)
    requires s.assoc.Keys == Lcores(cpu) && Sound(cpu, s)
    requires StartStep(cpu, s.assoc, cores, ctxs, tagged, false, after) && l in tagged
    ensures Stray(MonState(after, s.groups), l)
  {
    CtxOfCore(cpu, s.assoc, cores, ctxs, l);
    hide FreshCtxs;
    forall i | 0 <= i < |s.groups| ensures l !in s.groups[i].cores {
      assert GroupTagged(cpu, s.assoc, s.groups[i]);
      assert l in s.groups[i].cores ==> CarriesOwn(cpu, s.assoc, s.groups[i], l);
    }
  }

  /** A stop that did not reach a core of its group leaves it a stray. */
  lemma PartialStopLeavesStray(cpu: seq<CoreInfo>, s: MonState, i: nat, done: set<nat>, after: AssocRegs, l: nat)
    requires s.assoc.Keys == Lcores(cpu) && Sound(cpu, s) && i < |s.groups|
    requires StopStep(s.assoc, s.groups[i].cores, done, after) && l in s.groups[i].cores && l !in done
    ensures Stray(MonState(after, s.groups[..i] + s.groups[i + 1..]), l)
  {
    OthersLack(s.groups, i, l);
    hide DisjointGroups;
    assert GroupTagged(cpu, s.assoc, s.groups[i]) && CarriesOwn(cpu, s.assoc, s.groups[i], l);
  }

  lemma OthersLack(groups: seq<Group>, i: nat, l: nat)
    requires i < |groups| && DisjointGroups(groups) && l in groups[i].cores
    ensures var left := groups[..i] + groups[i + 1..]; forall p :: 0 <= p < |left| ==> l !in left[p].cores
  {
    var left := groups[..i] + groups[i + 1..];
    forall p | 0 <= p < |left| ensures l !in left[p].cores {
      var j := if p < i then p else p + 1;
      assert left[p] == groups[j];
      assert Members(groups[j].cores) !! Members(groups[i].cores);
      assert l in Members(groups[i].cores) && l !in Members(groups[j].cores);
    }
  }

  lemma IncompleteLeavesStray(cpu: seq<CoreInfo>, s: MonState, call: MonCall, s': MonState)
    requires s.assoc.Keys == Lcores(cpu) && Sound(cpu, s)
    requires MonStep(cpu, s, call, s') && !Complete(s, call)
    ensures exists l :: Stray(s', l)
  {
    hide Sound, StartStep, StopStep, Stray;
    match call
    case StartCall(cores, ctxs, tagged, ok) =>
      var l :| l in tagged;
      FailedStartLeavesStray(cpu, s, cores, ctxs, tagged, s'.assoc, l);
      assert s' == MonState(s'.assoc, s.groups);
    case StopCall(i, done) =>
      StoppedOwn(s.assoc, s.groups[i].cores, done, s'.assoc);
      assert !(Members(s.groups[i].cores) <= done);
      var l :| l in s.groups[i].cores && l !in done;
      PartialStopLeavesStray(cpu, s, i, done, s'.assoc, l);
      assert s' == MonState(s'.assoc, s.groups[..i] + s.groups[i + 1..]);
  }

  lemma StoppedOwn(before: AssocRegs, cores: seq<nat>, done: set<nat>, after: AssocRegs)
    requires StopStep(before, cores, done, after)
    ensures done <= Members(cores)
  {
  }

  /** Strays exist from the first incomplete call on. */
  lemma {:induction false} IncompleteRunHasStray(cpu: seq<CoreInfo>, states: seq<MonState>, calls: seq<MonCall>, i: nat,
      n: nat)
    requires MonRun(cpu, states, calls) && i < n <= |calls| && !Complete(states[i], calls[i])
    ensures exists l :: Stray(states[n], l)
  {
    hide MonStep, Complete, WellFormed, Sound, Stray;
    if n == i + 1 {
      RunIsSound(cpu, states, calls, i);
      IncompleteLeavesStray(cpu, states[i], calls[i], states[n]);
    } else {
      IncompleteRunHasStray(cpu, states, calls, i, n - 1);
      var l :| Stray(states[n - 1], l);
      StrayStays(cpu, states[n - 1], calls[n - 1], states[n], l);
    }
  }

  // ----- whole runs -----

  lemma {:induction false} RunIsSound(cpu: seq<CoreInfo>, states: seq<MonState>, calls: seq<MonCall>, n: nat)
    requires MonRun(cpu, states, calls) && n <= |calls|
    ensures Sound(cpu, states[n])
    ensures (forall i :: 0 <= i < n ==> Complete(states[i], calls[i])) ==> NoStrays(states[n])
  {
    hide Sound, MonStep, NoStrays, Complete, WellFormed;
    NothingStarted(cpu, states[0]);
    if n > 0 {
      RunIsSound(cpu, states, calls, n - 1);
      StepKeepsSound(cpu, states[n - 1], calls[n - 1], states[n]);
      if forall i :: 0 <= i < n ==> Complete(states[i], calls[i]) {
        StepKeepsNoStrays(cpu, states[n - 1], calls[n - 1], states[n]);
      }
    }
  }

  lemma NothingStarted(cpu: seq<CoreInfo>, s: MonState)
    requires Lcores(cpu) <= s.assoc.Keys && s.groups == [] && forall l :: l in s.assoc ==> Rmid(s.assoc[l]) == 0
    ensures Sound(cpu, s) && NoStrays(s)
  {
  }

  /** Groups with a context in one L3 cluster use different RMIDs there. */
  ghost predicate OwnRmids(groups: seq<Group>) {
    forall i, j :: 0 <= i < j < |groups| ==> NoCommonRmid(groups[i].ctxs, groups[j].ctxs)
  }

  ghost predicate NoCommonRmid(a: seq<Ctx>, b: seq<Ctx>) {
    forall p, q :: 0 <= p < |a| && 0 <= q < |b| && a[p].cluster == b[q].cluster ==> a[p].rmid != b[q].rmid
  }

  /** In every run: active groups have disjoint cores; groups with a context in one L3 cluster use different
      non-zero RMIDs there; a core of an active group has a non-zero RMID; and only such cores have one if and
      only if every failed start was undone and every stop reached all cores. */
  lemma MonitoringInvariant(cpu: seq<CoreInfo>, states: seq<MonState>, calls: seq<MonCall>, n: nat)
    requires MonRun(cpu, states, calls) && n <= |calls|
    ensures DisjointGroups(states[n].groups)
    ensures OwnRmids(states[n].groups)
    ensures forall i, l :: 0 <= i < |states[n].groups| && l in states[n].groups[i].cores ==>
      l in states[n].assoc && Rmid(states[n].assoc[l]) != 0
    ensures NoStrays(states[n]) <==> forall i :: 0 <= i < n ==> Complete(states[i], calls[i])
  {
    RunIsSound(cpu, states, calls, n);
    var s := states[n];
    StrayIffNotNoStrays(s);
    if i :| 0 <= i < n && !Complete(states[i], calls[i]) {
      IncompleteRunHasStray(cpu, states, calls, i, n);
    }
    forall i, l | 0 <= i < |s.groups| && l in s.groups[i].cores ensures l in s.assoc && Rmid(s.assoc[l]) != 0 {
      assert CarriesOwn(cpu, s.assoc, s.groups[i], l);
    }
    forall i, j | 0 <= i < j < |s.groups| ensures NoCommonRmid(s.groups[i].ctxs, s.groups[j].ctxs) {
      forall p, q | 0 <= p < |s.groups[i].ctxs| && 0 <= q < |s.groups[j].ctxs|
        && s.groups[i].ctxs[p].cluster == s.groups[j].ctxs[q].cluster
        ensures s.groups[i].ctxs[p].rmid != s.groups[j].ctxs[q].rmid
      {
        DifferentRmids(cpu, s.assoc, s.groups[i], s.groups[j], p, q);
      }
    }
  }

  lemma DifferentRmids(cpu: seq<CoreInfo>, assoc: AssocRegs, g: Group, h: Group, p: nat, q: nat)
    requires WellFormed(cpu) && Lcores(cpu) <= assoc.Keys && GroupTagged(cpu, assoc, g) && GroupTagged(cpu, assoc, h)
    requires Members(g.cores) !! Members(h.cores)
    requires p < |g.ctxs| && q < |h.ctxs| && g.ctxs[p].cluster == h.ctxs[q].cluster
    ensures g.ctxs[p].rmid != h.ctxs[q].rmid
  {
    var ctx := h.ctxs[q];
    assert OwnCtx(cpu, assoc, g, g.ctxs[p]) && OwnCtx(cpu, assoc, h, ctx) && CarriesOwn(cpu, assoc, h, ctx.lcore);
    RmidForAt(h.ctxs, q);
    var x := Lookup(cpu, ctx.lcore).value;
    assert x in cpu && x.lcore == ctx.lcore && x.l3Id == ctx.cluster && Rmid(assoc[x.lcore]) == ctx.rmid;
    assert x.lcore in Members(h.cores);
  }
}
