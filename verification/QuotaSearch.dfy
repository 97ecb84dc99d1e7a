/** The pruned search for the cheapest sufficient quota (pqos/get_best_quota.py). */
module QuotaSearch {

  /** A descending range: `x`, `x - step`, ... while above `y`. */
  function Drange(x: real, y: real, step: real): (r: seq<real>)
    requires step > 0.0
    ensures forall i :: 0 <= i < |r| ==> y < r[i] <= x
    ensures forall i, j :: 0 <= i < j < |r| ==> r[i] > r[j]
    decreases StepsAbove(x, y, step)
  {
    if x > y then
      StepsDecrease(x, y, step);
      [x] + Drange(x - step, y, step)
    else []
  }

  function StepsAbove(x: real, y: real, step: real): nat
    requires step > 0.0
  {
    if x > y then
      QuotientPositive(x - y, step);
      ((x - y) / step).Floor + 1
    else 0
  }

  lemma QuotientPositive(d: real, step: real)
    requires d > 0.0 && step > 0.0
    ensures d / step > 0.0
  {
  }

  lemma StepsDecrease(x: real, y: real, step: real)
    requires step > 0.0 && x > y
    ensures StepsAbove(x - step, y, step) < StepsAbove(x, y, step)
  {
    OneStepLess(x - y, step);
    assert x - step - y == x - y - step;
    QuotientPositive(x - y, step);
  }

  lemma OneStepLess(d: real, step: real)
    requires step > 0.0
    ensures (d - step) / step == d / step - 1.0
  {
    var q, r := d / step, (d - step) / step;
    assert q * step == d && r * step == d - step;
    assert (q - r - 1.0) * step == q * step - r * step - step;
    ZeroFactor(q - r - 1.0, step);
  }

  lemma ZeroFactor(a: real, b: real)
    requires a * b == 0.0 && b > 0.0
    ensures a == 0.0
  {
  }

  /** The value `k` steps below `x`. */
  ghost function StepsBelow(x: real, step: real, k: nat): real
    decreases k
  {
    if k == 0 then x else StepsBelow(x - step, step, k - 1)
  }

  lemma BelowIsLess(x: real, step: real, k: nat)
    requires step > 0.0
    ensures StepsBelow(x, step, k) <= x
    decreases k
  {
  }

  /** Every value a whole number of steps below `x` and still above `y` is in the range. */
  lemma {:induction false} DrangeHolds(x: real, y: real, step: real, k: nat)
    requires step > 0.0 && StepsBelow(x, step, k) > y
    ensures StepsBelow(x, step, k) in Drange(x, y, step)
    decreases k
  {
    BelowIsLess(x, step, k);
    assert Drange(x, y, step) == [x] + Drange(x - step, y, step);
    if k > 0 {
      DrangeHolds(x - step, y, step, k - 1);
    }
  }

  /** The range holds nothing else. */
  lemma {:induction false} DrangeIndex(x: real, y: real, step: real, i: nat)
    requires step > 0.0 && i < |Drange(x, y, step)|
    ensures Drange(x, y, step)[i] == StepsBelow(x, step, i)
    decreases i
  {
    assert Drange(x, y, step) == [x] + Drange(x - step, y, step);
    if i > 0 {
      DrangeIndex(x - step, y, step, i - 1);
    }
  }

  method DrangeLoop(start: real, y: real, step: real) returns (r: seq<real>)
    requires step > 0.0
    ensures r == Drange(start, y, step)
  {
    var x := start;
    r := [];
    while x > y
      invariant r + Drange(x, y, step) == Drange(start, y, step)
      decreases StepsAbove(x, y, step)
    {
      StepsDecrease(x, y, step);
      assert r + ([x] + Drange(x - step, y, step)) == r + [x] + Drange(x - step, y, step);
      r := r + [x];
      x := x - step;
    }
    assert r + [] == r;
  }

  // ----- the search space -----

  datatype Range = Range(max: real, min: real, step: real)

  datatype Quota = Quota(cpu: real, mem: real, llc: real, membw: real)

  /** Ranges of the four resources, the load, and the instruction rate to reach. */
  datatype Space = Space(cpu: Range, mem: Range, llc: Range, membw: Range, ips: real) {
    predicate Valid() {
      cpu.step > 0.0 && mem.step > 0.0 && llc.step > 0.0 && membw.step > 0.0
    }

    function Full(): Quota {
      Quota(cpu.max, mem.max, llc.max, membw.max)
    }

    predicate InGrid(q: Quota)
      requires Valid()
    {
      && q.cpu in Values(cpu) && q.mem in Values(mem) && q.llc in Values(llc) && q.membw in Values(membw)
    }
  }

  function Values(r: Range): seq<real>
    requires r.step > 0.0
  {
    Drange(r.max, r.min, r.step)
  }

  predicate Feasible(s: Space, predict: Quota -> real, q: Quota) {
    predict(q) >= s.ips
  }

  /** The pruned loops get to the feasible grid point: no break stands before it. The full bandwidth suffices for
      each cache size from the largest down to its own, and at its own each bandwidth down to its own does. */
  ghost predicate Reached(s: Space, predict: Quota -> real, q: Quota)
    requires s.Valid()
  {
    && s.InGrid(q) && Feasible(s, predict, q)
    && LlcsPass(s, predict, q.cpu, q.mem, q.llc)
    && MembwsPass(s, predict, q.cpu, q.mem, q.llc, q.membw)
  }

  ghost predicate LlcsPass(s: Space, predict: Quota -> real, c: real, m: real, l: real)
    requires s.Valid()
  {
    forall larger :: larger in Values(s.llc) && larger >= l ==> Feasible(s, predict, Quota(c, m, larger, s.membw.max))
  }

  ghost predicate MembwsPass(s: Space, predict: Quota -> real, c: real, m: real, l: real, b: real)
    requires s.Valid()
  {
    forall larger :: larger in Values(s.membw) && larger >= b ==> Feasible(s, predict, Quota(c, m, l, larger))
  }

  /** No reached quota made of the given values is cheaper than `min`. */
  ghost predicate NoneCheaper(s: Space, predict: Quota -> real, cost: Quota -> real, min: real,
                              cpus: seq<real>, mems: seq<real>, llcs: seq<real>, membws: seq<real>)
    requires s.Valid()
  {
    forall q: Quota ::
      q.cpu in cpus && q.mem in mems && q.llc in llcs && q.membw in membws && Reached(s, predict, q) ==>
      min <= cost(q)
  }

  /** The best quota so far: the full allocation, or a reached point of the grid. */
  ghost predicate Candidate(s: Space, predict: Quota -> real, cost: Quota -> real, best: Quota, min: real)
    requires s.Valid()
  {
    cost(best) == min && min <= cost(s.Full()) && (best == s.Full() || Reached(s, predict, best))
  }

  /** Nothing at or below a cache size that is too small even with the full bandwidth is reached. */
  lemma PrunedLlc(s: Space, predict: Quota -> real, cost: Quota -> real, min: real, c: real, m: real, llcs: seq<real>,
      k: nat)
    requires s.Valid() && llcs == Values(s.llc) && k < |llcs|
    requires !Feasible(s, predict, Quota(c, m, llcs[k], s.membw.max))
    requires NoneCheaper(s, predict, cost, min, [c], [m], llcs[..k], Values(s.membw))
    ensures NoneCheaper(s, predict, cost, min, [c], [m], llcs, Values(s.membw))
  {
    forall q: Quota | q.cpu in [c] && q.mem in [m] && q.llc in llcs && q.membw in Values(s.membw)
      ensures Reached(s, predict, q) ==> min <= cost(q)
    {
      var j :| 0 <= j < |llcs| && llcs[j] == q.llc;
      if j < k {
        assert llcs[..k][j] == q.llc;
      } else {
        assert llcs[k] in llcs && llcs[k] >= q.llc;
      }
    }
  }

  lemma PrunedMembw(s: Space, predict: Quota -> real, cost: Quota -> real, min: real, c: real, m: real, l: real,
      membws: seq<real>, n: nat)
    requires s.Valid() && membws == Values(s.membw) && n < |membws|
    requires !Feasible(s, predict, Quota(c, m, l, membws[n]))
    requires NoneCheaper(s, predict, cost, min, [c], [m], [l], membws[..n])
    ensures NoneCheaper(s, predict, cost, min, [c], [m], [l], membws)
  {
    forall q: Quota | q.cpu in [c] && q.mem in [m] && q.llc in [l] && q.membw in membws
      ensures Reached(s, predict, q) ==> min <= cost(q)
    {
      var j :| 0 <= j < |membws| && membws[j] == q.membw;
      if j < n {
        assert membws[..n][j] == q.membw;
      } else {
        assert membws[n] in membws && membws[n] >= q.membw;
      }
    }
  }

  /** Values passed before and one more. */
  lemma OneMoreLlc(s: Space, predict: Quota -> real, c: real, m: real, k: nat)
    requires s.Valid() && k < |Values(s.llc)| && Feasible(s, predict, Quota(c, m, Values(s.llc)[k], s.membw.max))
    requires k > 0 ==> LlcsPass(s, predict, c, m, Values(s.llc)[k - 1])
    ensures LlcsPass(s, predict, c, m, Values(s.llc)[k])
  {
    var llcs := Values(s.llc);
    forall larger | larger in llcs && larger >= llcs[k] ensures Feasible(s, predict, Quota(c, m, larger, s.membw.max)) {
      var j :| 0 <= j < |llcs| && llcs[j] == larger;
      assert j <= k;
      if j < k {
        assert larger >= llcs[k - 1];
      }
    }
  }

  lemma OneMoreMembw(s: Space, predict: Quota -> real, c: real, m: real, l: real, n: nat)
    requires s.Valid() && n < |Values(s.membw)| && Feasible(s, predict, Quota(c, m, l, Values(s.membw)[n]))
    requires n > 0 ==> MembwsPass(s, predict, c, m, l, Values(s.membw)[n - 1])
    ensures MembwsPass(s, predict, c, m, l, Values(s.membw)[n])
  {
    var membws := Values(s.membw);
    forall larger | larger in membws && larger >= membws[n] ensures Feasible(s, predict, Quota(c, m, l, larger)) {
      var j :| 0 <= j < |membws| && membws[j] == larger;
      assert j <= n;
      if j < n {
        assert larger >= membws[n - 1];
      }
    }
  }

  /** Values already searched and one more. */
  lemma OneMore(s: Space, predict: Quota -> real, cost: Quota -> real, min: real, cs: seq<real>, ms: seq<real>,
      ls: seq<real>, bs: seq<real>, i: nat)
    requires s.Valid()
    ensures i < |cs| && NoneCheaper(s, predict, cost, min, cs[..i], ms, ls, bs)
      && NoneCheaper(s, predict, cost, min, [cs[i]], ms, ls, bs)
      ==> NoneCheaper(s, predict, cost, min, cs[..i + 1], ms, ls, bs)
    ensures i < |ms| && NoneCheaper(s, predict, cost, min, cs, ms[..i], ls, bs)
      && NoneCheaper(s, predict, cost, min, cs, [ms[i]], ls, bs)
      ==> NoneCheaper(s, predict, cost, min, cs, ms[..i + 1], ls, bs)
    ensures i < |ls| && NoneCheaper(s, predict, cost, min, cs, ms, ls[..i], bs)
      && NoneCheaper(s, predict, cost, min, cs, ms, [ls[i]], bs)
      ==> NoneCheaper(s, predict, cost, min, cs, ms, ls[..i + 1], bs)
    ensures i < |bs| && NoneCheaper(s, predict, cost, min, cs, ms, ls, bs[..i])
      && NoneCheaper(s, predict, cost, min, cs, ms, ls, [bs[i]])
      ==> NoneCheaper(s, predict, cost, min, cs, ms, ls, bs[..i + 1])
  {
    assert i < |cs| ==> cs[..i + 1] == cs[..i] + [cs[i]];
    assert i < |ms| ==> ms[..i + 1] == ms[..i] + [ms[i]];
    assert i < |ls| ==> ls[..i + 1] == ls[..i] + [ls[i]];
    assert i < |bs| ==> bs[..i + 1] == bs[..i] + [bs[i]];
  }

  /** A lower minimum keeps every bound. */
  lemma LowerCost(s: Space, predict: Quota -> real, cost: Quota -> real, min: real, lower: real, cs: seq<real>,
      ms: seq<real>, ls: seq<real>, bs: seq<real>)
    requires s.Valid() && NoneCheaper(s, predict, cost, min, cs, ms, ls, bs) && lower <= min
    ensures NoneCheaper(s, predict, cost, lower, cs, ms, ls, bs)
  {
  }

  lemma NoneAtAll(s: Space, predict: Quota -> real, cost: Quota -> real, min: real, cs: seq<real>, ms: seq<real>,
      ls: seq<real>)
    requires s.Valid()
    ensures forall bs: seq<real> :: bs == [] ==> NoneCheaper(s, predict, cost, min, cs, ms, ls, bs)
  {
  }

  lemma ReachedHere(s: Space, predict: Quota -> real, q: Quota)
    requires s.Valid() && q.cpu in Values(s.cpu) && q.mem in Values(s.mem) && q.llc in Values(s.llc)
      && q.membw in Values(s.membw)
    requires LlcsPass(s, predict, q.cpu, q.mem, q.llc) && MembwsPass(s, predict, q.cpu, q.mem, q.llc, q.membw)
    ensures Feasible(s, predict, q) ==> Reached(s, predict, q)
    ensures forall cost: Quota -> real, min: real :: Reached(s, predict, q) && min <= cost(q) ==>
      NoneCheaper(s, predict, cost, min, [q.cpu], [q.mem], [q.llc], [q.membw])
  {
  }

  /** The innermost loop: bandwidths from the largest down, until one is too small. */
  method SearchMembw(s: Space, predict: Quota -> real, cost: Quota -> real, c: real, m: real, l: real, best0: Quota,
      min0: real)
    returns (best: Quota, min: real)
    requires s.Valid() && Candidate(s, predict, cost, best0, min0)
    requires c in Values(s.cpu) && m in Values(s.mem) && l in Values(s.llc) && LlcsPass(s, predict, c, m, l)
    ensures Candidate(s, predict, cost, best, min) && min <= min0
    ensures NoneCheaper(s, predict, cost, min, [c], [m], [l], Values(s.membw))
  {
    hide Reached, LlcsPass, MembwsPass, NoneCheaper, Drange;
    best, min := best0, min0;
    NoneAtAll(s, predict, cost, min, [c], [m], [l]);
    var membws := DrangeLoop(s.membw.max, s.membw.min, s.membw.step);
    for n := 0 to |membws|
      invariant Candidate(s, predict, cost, best, min) && min <= min0
      invariant NoneCheaper(s, predict, cost, min, [c], [m], [l], membws[..n])
      invariant n > 0 ==> MembwsPass(s, predict, c, m, l, membws[n - 1])
    {
      var q := Quota(c, m, l, membws[n]);
      if predict(q) < s.ips {
        PrunedMembw(s, predict, cost, min, c, m, l, membws, n);
        return;
      }
      OneMoreMembw(s, predict, c, m, l, n);
      ReachedHere(s, predict, q);
      ghost var before := min;
      var current := cost(q);
      if current < min {
        min, best := current, q;
      }
      LowerCost(s, predict, cost, before, min, [c], [m], [l], membws[..n]);
      OneMore(s, predict, cost, min, [c], [m], [l], membws, n);
    }
    assert membws[..|membws|] == membws;
  }

  /** Cache sizes from the largest down, until one is too small even with the full bandwidth. */
  method SearchLlc(s: Space, predict: Quota -> real, cost: Quota -> real, c: real, m: real, best0: Quota, min0: real)
    returns (best: Quota, min: real)
    requires s.Valid() && Candidate(s, predict, cost, best0, min0)
    requires c in Values(s.cpu) && m in Values(s.mem)
    ensures Candidate(s, predict, cost, best, min) && min <= min0
    ensures NoneCheaper(s, predict, cost, min, [c], [m], Values(s.llc), Values(s.membw))
  {
    best, min := best0, min0;
    var llcs := DrangeLoop(s.llc.max, s.llc.min, s.llc.step);
    for k := 0 to |llcs|
      invariant Candidate(s, predict, cost, best, min) && min <= min0
      invariant NoneCheaper(s, predict, cost, min, [c], [m], llcs[..k], Values(s.membw))
      invariant k > 0 ==> LlcsPass(s, predict, c, m, llcs[k - 1])
    {
      if predict(Quota(c, m, llcs[k], s.membw.max)) < s.ips {
        PrunedLlc(s, predict, cost, min, c, m, llcs, k);
        return;
      }
      OneMoreLlc(s, predict, c, m, k);
      ghost var before := min;
      best, min := SearchMembw(s, predict, cost, c, m, llcs[k], best, min);
      LowerCost(s, predict, cost, before, min, [c], [m], llcs[..k], Values(s.membw));
      OneMore(s, predict, cost, min, [c], [m], llcs, Values(s.membw), k);
    }
    assert llcs[..|llcs|] == llcs;
  }

  /** What the search returns, for any predictor: the cheapest of the full allocation and the reached points. */
  ghost predicate Result(s: Space, predict: Quota -> real, cost: Quota -> real, best: Quota)
    requires s.Valid()
  {
    && (best == s.Full() || Reached(s, predict, best)) && cost(best) <= cost(s.Full())
    && forall q: Quota :: Reached(s, predict, q) ==> cost(best) <= cost(q)
  }

  // ----- the same in terms of maxima, minima and steps -----

  /** A whole number of steps below the maximum, and above the minimum. */
  ghost predicate OnSteps(r: Range, v: real) {
    v > r.min && exists k: nat :: StepAt(r, k, v)
  }

  ghost predicate StepAt(r: Range, k: nat, v: real) {
    v == r.max - k as real * r.step
  }

  lemma {:induction false} BelowIs(x: real, step: real, k: nat)
    ensures StepsBelow(x, step, k) == x - k as real * step
    decreases k
  {
    if k > 0 {
      BelowIs(x - step, step, k - 1);
      assert k as real * step == (k - 1) as real * step + step;
    }
  }

  lemma ValuesAreSteps(r: Range, v: real)
    requires r.step > 0.0
    ensures v in Values(r) <==> OnSteps(r, v)
  {
    hide Drange, StepAt, StepsBelow;
    if v in Values(r) {
      var i :| 0 <= i < |Values(r)| && Values(r)[i] == v;
      DrangeIndex(r.max, r.min, r.step, i);
      StepIs(r, i, v);
    }
    if OnSteps(r, v) {
      var k: nat :| StepAt(r, k, v);
      StepIs(r, k, v);
      DrangeHolds(r.max, r.min, r.step, k);
    }
  }

  lemma StepIs(r: Range, k: nat, v: real)
    ensures StepAt(r, k, v) <==> v == StepsBelow(r.max, r.step, k)
  {
    BelowIs(r.max, r.step, k);
  }

  ghost predicate OnGrid(s: Space, q: Quota) {
    OnSteps(s.cpu, q.cpu) && OnSteps(s.mem, q.mem) && OnSteps(s.llc, q.llc) && OnSteps(s.membw, q.membw)
  }

  /** The point is predicted to do, and so are those that the loops try before it: each larger cache with the full
      bandwidth, and each larger bandwidth with its own cache. */
  ghost predicate NotCutOff(s: Space, predict: Quota -> real, q: Quota) {
    && OnGrid(s, q) && predict(q) >= s.ips
    && (forall l :: OnSteps(s.llc, l) && l >= q.llc ==> predict(Quota(q.cpu, q.mem, l, s.membw.max)) >= s.ips)
    && (forall b :: OnSteps(s.membw, b) && b >= q.membw ==> predict(Quota(q.cpu, q.mem, q.llc, b)) >= s.ips)
  }

  lemma NotCutOffIsReached(s: Space, predict: Quota -> real, q: Quota)
    requires s.Valid()
    ensures NotCutOff(s, predict, q) <==> Reached(s, predict, q)
  {
    hide Values, OnSteps;
    forall v ensures v in Values(s.cpu) <==> OnSteps(s.cpu, v) {
      ValuesAreSteps(s.cpu, v);
    }
    forall v ensures v in Values(s.mem) <==> OnSteps(s.mem, v) {
      ValuesAreSteps(s.mem, v);
    }
    forall v ensures v in Values(s.llc) <==> OnSteps(s.llc, v) {
      ValuesAreSteps(s.llc, v);
    }
    forall v ensures v in Values(s.membw) <==> OnSteps(s.membw, v) {
      ValuesAreSteps(s.membw, v);
    }
  }

  /** All maxima, or a point of the grid that is predicted to do; and nothing that is not cut off is cheaper. */
  ghost predicate Cheapest(s: Space, predict: Quota -> real, cost: Quota -> real, best: Quota) {
    var full := Quota(s.cpu.max, s.mem.max, s.llc.max, s.membw.max);
    && (best == full || (OnGrid(s, best) && predict(best) >= s.ips)) && cost(best) <= cost(full)
    && forall q: Quota :: NotCutOff(s, predict, q) ==> cost(best) <= cost(q)
  }

  lemma ResultIsCheapest(s: Space, predict: Quota -> real, cost: Quota -> real, best: Quota)
    requires s.Valid() && Result(s, predict, cost, best)
    ensures Cheapest(s, predict, cost, best)
  {
    hide Reached, NotCutOff;
    forall q: Quota | NotCutOff(s, predict, q) ensures cost(best) <= cost(q) {
      NotCutOffIsReached(s, predict, q);
    }
    NotCutOffIsReached(s, predict, best);
    if Reached(s, predict, best) {
      StillFeasible(s, predict, best);
    }
  }

  lemma StillFeasible(s: Space, predict: Quota -> real, q: Quota)
    requires NotCutOff(s, predict, q)
    ensures OnGrid(s, q) && predict(q) >= s.ips
  {
  }

  /** What an exhaustive search of the grid would return. */
  ghost predicate Optimal(s: Space, predict: Quota -> real, cost: Quota -> real, best: Quota)
    requires s.Valid()
  {
    && (best == s.Full() || (s.InGrid(best) && Feasible(s, predict, best))) && cost(best) <= cost(s.Full())
    && forall q: Quota :: s.InGrid(q) && Feasible(s, predict, q) ==> cost(best) <= cost(q)
  }

  /** `get_quota_from_ipc`: nested loops with two breaks. */
  method GetQuotaFromIpc(s: Space, predict: Quota -> real, cost: Quota -> real) returns (best: Quota, min: real)
    requires s.Valid()
    ensures min == cost(best) && Result(s, predict, cost, best) && Cheapest(s, predict, cost, best)
  {
    best := s.Full();
    min := cost(best);
    var cpus := DrangeLoop(s.cpu.max, s.cpu.min, s.cpu.step);
    var mems := DrangeLoop(s.mem.max, s.mem.min, s.mem.step);
    for i := 0 to |cpus|
      invariant Candidate(s, predict, cost, best, min)
      invariant NoneCheaper(s, predict, cost, min, cpus[..i], mems, Values(s.llc), Values(s.membw))
    {
      for j := 0 to |mems|
        invariant Candidate(s, predict, cost, best, min)
        invariant NoneCheaper(s, predict, cost, min, cpus[..i], mems, Values(s.llc), Values(s.membw))
        invariant NoneCheaper(s, predict, cost, min, [cpus[i]], mems[..j], Values(s.llc), Values(s.membw))
      {
        ghost var before := min;
        best, min := SearchLlc(s, predict, cost, cpus[i], mems[j], best, min);
        LowerCost(s, predict, cost, before, min, cpus[..i], mems, Values(s.llc), Values(s.membw));
        LowerCost(s, predict, cost, before, min, [cpus[i]], mems[..j], Values(s.llc), Values(s.membw));
        OneMore(s, predict, cost, min, [cpus[i]], mems, Values(s.llc), Values(s.membw), j);
      }
      assert mems[..|mems|] == mems;
      OneMore(s, predict, cost, min, cpus, mems, Values(s.llc), Values(s.membw), i);
    }
    assert cpus[..|cpus|] == cpus;
    ResultIsCheapest(s, predict, cost, best);
  }

  // ----- when pruning loses nothing -----

  /** On the grid, what a feasible point has is enough when there is more of it: each larger cache size with the
      full bandwidth, and each larger bandwidth with the same cache. */
  ghost predicate MoreSuffices(s: Space, predict: Quota -> real)
    requires s.Valid()
  {
    forall q: Quota :: s.InGrid(q) && Feasible(s, predict, q) ==>
      LlcsPass(s, predict, q.cpu, q.mem, q.llc) && MembwsPass(s, predict, q.cpu, q.mem, q.llc, q.membw)
  }

  /** More cache or more bandwidth never lowers the predicted rate. */
  ghost predicate Monotone(predict: Quota -> real) {
    forall p: Quota, q: Quota :: p.cpu == q.cpu && p.mem == q.mem && p.llc <= q.llc && p.membw <= q.membw ==>
      predict(p) <= predict(q)
  }

  lemma MonotoneSuffices(s: Space, predict: Quota -> real)
    requires s.Valid() && Monotone(predict)
    ensures MoreSuffices(s, predict)
  {
    forall q: Quota | s.InGrid(q) && Feasible(s, predict, q)
      ensures LlcsPass(s, predict, q.cpu, q.mem, q.llc) && MembwsPass(s, predict, q.cpu, q.mem, q.llc, q.membw)
    {
      forall larger | larger in Values(s.llc) && larger >= q.llc
        ensures Feasible(s, predict, Quota(q.cpu, q.mem, larger, s.membw.max))
      {
        assert predict(q) <= predict(Quota(q.cpu, q.mem, larger, s.membw.max));
      }
      forall larger | larger in Values(s.membw) && larger >= q.membw
        ensures Feasible(s, predict, Quota(q.cpu, q.mem, q.llc, larger))
      {
        assert predict(q) <= predict(Quota(q.cpu, q.mem, q.llc, larger));
      }
    }
  }

  /** Nothing to spend but on one point. */
  function AllBut(free: Quota): Quota -> real {
    q => if q == free then 0.0 else 1.0
  }

  /** The full allocation needs no search, so it is never pruned away. */
  lemma FullIsReached(s: Space, predict: Quota -> real)
    requires s.Valid() && s.InGrid(s.Full()) && Feasible(s, predict, s.Full())
    ensures Reached(s, predict, s.Full())
  {
    assert forall v :: v in Values(s.llc) && v >= s.llc.max ==> v == s.llc.max;
    assert forall v :: v in Values(s.membw) && v >= s.membw.max ==> v == s.membw.max;
  }

  /** The pruned search is as good as an exhaustive one for every cost function if and only if more of a feasible
      point's cache and bandwidth suffices on the grid; a monotone predictor has that. */
  lemma PruningIsExact(s: Space, predict: Quota -> real)
    requires s.Valid()
    ensures (forall cost: Quota -> real, best: Quota :: Result(s, predict, cost, best) ==>
      Optimal(s, predict, cost, best))
      <==> MoreSuffices(s, predict)
    ensures Monotone(predict) ==> MoreSuffices(s, predict)
  {
    if Monotone(predict) {
      MonotoneSuffices(s, predict);
    }
    if !MoreSuffices(s, predict) {
      var q: Quota :| s.InGrid(q) && Feasible(s, predict, q) && !Reached(s, predict, q);
      PrunedIsMissed(s, predict, q);
    }
  }

  /** A feasible grid point that a break hides is missed when it alone is free of cost. */
  lemma PrunedIsMissed(s: Space, predict: Quota -> real, q: Quota)
    requires s.Valid() && s.InGrid(q) && Feasible(s, predict, q) && !Reached(s, predict, q)
    ensures Result(s, predict, AllBut(q), s.Full()) && !Optimal(s, predict, AllBut(q), s.Full())
    ensures forall best: Quota :: Result(s, predict, AllBut(q), best) ==> AllBut(q)(best) == 1.0
  {
    if q == s.Full() {
      FullIsReached(s, predict);
    }
  }

  /** A predictor for which half of the cache suffices and all of it does not, and a cost that is the cache used:
      the search returns the full allocation, at twice the cost of the feasible point it never tries. */
  lemma PruningNeedsMonotone(best: Quota)
    ensures var s := Space(Range(1.0, 0.0, 1.0), Range(1.0, 0.0, 1.0), Range(2.0, 0.0, 1.0), Range(1.0, 0.0, 1.0), 5.0);
      var predict := (q: Quota) => if q.llc == 1.0 then 5.0 else 0.0;
      var cost := (q: Quota) => q.llc;
      var missed := Quota(1.0, 1.0, 1.0, 1.0);
      && s.InGrid(missed) && Feasible(s, predict, missed) && cost(missed) == 1.0
      && (Result(s, predict, cost, best) ==> best == s.Full() && cost(best) == 2.0)
  {
    assert Drange(1.0, 0.0, 1.0) == [1.0] + Drange(0.0, 0.0, 1.0);
    assert Drange(2.0, 0.0, 1.0) == [2.0] + Drange(1.0, 0.0, 1.0);
    var s := Space(Range(1.0, 0.0, 1.0), Range(1.0, 0.0, 1.0), Range(2.0, 0.0, 1.0), Range(1.0, 0.0, 1.0), 5.0);
    assert Values(s.llc)[0] == 2.0 && 2.0 in Values(s.llc);
    assert 1.0 in Drange(1.0, 0.0, 1.0);
  }
}
