/** The processes with the highest CPU usage (pqos/monitor.c). */
module TopProcs {
  import opened Bits
  import opened Results

  datatype ProcStats = ProcStats(pid: int, ticks: Word, ratio: real, valid: bool)

  const INT_LIMIT: nat := 0x8000_0000

  /** A 64-bit value returned as `int`: the low 32 bits, signed. */
  function ToInt(v: Word): int {
    var low := v % UINT_LIMIT;
    if low >= INT_LIMIT then low - UINT_LIMIT else low
  }

  /** `proc_stats_cmp`: the tick difference wraps at 64 bits and is cut to `int`. */
  function Compare(a: ProcStats, b: ProcStats): int {
    if a.ticks == b.ticks then
      if a.ratio < b.ratio then -1 else if a.ratio > b.ratio then 1 else 0
    else ToInt((a.ticks - b.ticks) % WORD_LIMIT)
  }

  /** The order meant: ticks first, then average CPU usage. */
  predicate AtMost(a: ProcStats, b: ProcStats) {
    a.ticks < b.ticks || (a.ticks == b.ticks && a.ratio <= b.ratio)
  }

  /** Tick counts close enough for their difference to fit an `int`. */
  ghost predicate Near(a: ProcStats, b: ProcStats) {
    0 - INT_LIMIT < a.ticks - b.ticks < INT_LIMIT
  }

  /** The comparator orders the two as meant. */
  ghost predicate Agrees(a: ProcStats, b: ProcStats) {
    (Compare(a, b) <= 0 <==> AtMost(a, b)) && (Compare(a, b) >= 0 <==> AtMost(b, a))
  }

  /** For near tick counts it does. */
  lemma CompareIsOrder(a: ProcStats, b: ProcStats)
    requires Near(a, b)
    ensures Agrees(a, b)
  {
    Wrapped(a.ticks - b.ticks);
  }

  lemma Wrapped(d: int)
    requires 0 - INT_LIMIT < d < INT_LIMIT
    ensures d % WORD_LIMIT == if d >= 0 then d else d + WORD_LIMIT
    ensures ToInt(d % WORD_LIMIT) == d
  {
  }

  /** In general it does exactly when the difference, cut to 32 bits, still has the sign it should. */
  lemma CompareRightIff(a: ProcStats, b: ProcStats)
    ensures Agrees(a, b) <==>
      || a.ticks == b.ticks
      || (a.ticks > b.ticks && 0 < (a.ticks - b.ticks) % UINT_LIMIT < INT_LIMIT)
      || (a.ticks < b.ticks && 0 < (b.ticks - a.ticks) % UINT_LIMIT <= INT_LIMIT)
  {
    if a.ticks != b.ticks {
      LowDifference(a.ticks, b.ticks);
    }
  }

  /** What is left of a difference in 32 bits, either way round. */
  lemma LowDifference(x: Word, y: Word)
    requires x != y
    ensures
      var low := (x - y) % WORD_LIMIT % UINT_LIMIT;
      if x > y then low == (x - y) % UINT_LIMIT
      else (y - x) % UINT_LIMIT == if low == 0 then 0 else UINT_LIMIT - low
  {
    var d := x - y;
    assert WORD_LIMIT == UINT_LIMIT * UINT_LIMIT;
    if d > 0 {
      assert d % WORD_LIMIT == d;
    } else {
      assert d % WORD_LIMIT == d + WORD_LIMIT;
      assert (d + WORD_LIMIT) % UINT_LIMIT == d % UINT_LIMIT;
      assert (0 - d) % UINT_LIMIT == (UINT_LIMIT - d % UINT_LIMIT) % UINT_LIMIT;
    }
  }

  /** A process 2^32 ticks ahead compares as equal. */
  lemma FarTicksMiscompare(a: ProcStats)
    requires a.ticks + UINT_LIMIT < WORD_LIMIT
    ensures Compare(a.(ticks := a.ticks + UINT_LIMIT), a) == 0
  {
  }

  // ----- sorting -----

  ghost predicate Sorted(s: seq<ProcStats>) {
    forall i, j :: 0 <= i < j < |s| ==> AtMost(s[i], s[j])
  }

  ghost predicate AllAgree(s: seq<ProcStats>) {
    forall i, j :: 0 <= i < |s| && 0 <= j < |s| ==> Agrees(s[i], s[j])
  }

  /** Puts `p` in its place in a sorted sequence. */
  function Insert(s: seq<ProcStats>, p: ProcStats): (r: seq<ProcStats>)
    ensures multiset(r) == multiset(s) + multiset{p}
  {
    if s == [] || Compare(p, s[0]) <= 0 then [p] + s
    else
      assert s == [s[0]] + s[1..];
      [s[0]] + Insert(s[1..], p)
  }

  function InsertionSort(s: seq<ProcStats>): (r: seq<ProcStats>)
    ensures multiset(r) == multiset(s)
  {
    if s == [] then []
    else
      assert s == [s[0]] + s[1..];
      Insert(InsertionSort(s[1..]), s[0])
  }

  lemma {:induction false} InsertSorts(s: seq<ProcStats>, p: ProcStats)
    requires Sorted(s) && AllAgree(s + [p])
    ensures Sorted(Insert(s, p))
  {
    assert forall i :: 0 <= i < |s| ==> (s + [p])[i] == s[i];
    assert (s + [p])[|s|] == p;
    if s != [] {
      assert Agrees((s + [p])[|s|], (s + [p])[0]);
      if Compare(p, s[0]) > 0 {
        var rest := s[1..];
        forall i, j | 0 <= i < |rest + [p]| && 0 <= j < |rest + [p]| ensures Agrees((rest + [p])[i], (rest + [p])[j]) {
          assert (rest + [p])[i] == (s + [p])[i + 1] && (rest + [p])[j] == (s + [p])[j + 1];
        }
        InsertSorts(rest, p);
        var sorted := Insert(rest, p);
        forall j | 0 <= j < |sorted| ensures AtMost(s[0], sorted[j]) {
          assert sorted[j] in multiset(sorted);
          assert sorted[j] in multiset(rest) + multiset{p};
        }
      }
    }
  }

  lemma {:induction false} SortSorts(s: seq<ProcStats>)
    requires AllAgree(s)
    ensures Sorted(InsertionSort(s))
  {
    if s != [] {
      var rest := s[1..];
      SortSorts(rest);
      SameElementsAgree(s, InsertionSort(rest) + [s[0]]);
      InsertSorts(InsertionSort(rest), s[0]);
    }
  }

  lemma SameElementsAgree(s: seq<ProcStats>, t: seq<ProcStats>)
    requires AllAgree(s) && forall p :: p in multiset(t) ==> p in multiset(s)
    ensures AllAgree(t)
  {
    forall i, j | 0 <= i < |t| && 0 <= j < |t| ensures Agrees(t[i], t[j]) {
      assert t[i] in multiset(t) && t[j] in multiset(t);
      var a :| 0 <= a < |s| && s[a] == t[i];
      var b :| 0 <= b < |s| && s[b] == t[j];
    }
  }

  /** Sorts the first `n` slots; it stands for the C library's `qsort`. With a comparator that is wrong on some pair
      it still only moves them around. */
  method Qsort(a: array<ProcStats>, n: nat)
    requires n <= a.Length
    modifies a
    ensures AllAgree(old(a[..n])) ==> Sorted(a[..n])
    ensures multiset(a[..n]) == multiset(old(a[..n]))
    ensures a[n..] == old(a[n..])
  {
    hide AllAgree, Sorted, InsertionSort;
    var sorted := InsertionSort(a[..n]);
    if AllAgree(a[..n]) {
      SortSorts(a[..n]);
    }
    SameLength(sorted, a[..n]);
    PutFront(a, sorted);
  }

  method PutFront(a: array<ProcStats>, s: seq<ProcStats>)
    requires |s| <= a.Length
    modifies a
    ensures a[..|s|] == s && a[|s|..] == old(a[|s|..])
  {
    for i := 0 to |s|
      invariant forall j :: 0 <= j < i ==> a[j] == s[j]
      invariant forall j :: |s| <= j < a.Length ==> a[j] == old(a[j])
    {
      a[i] := s[i];
    }
  }

  lemma SameLength(s: seq<ProcStats>, t: seq<ProcStats>)
    requires multiset(s) == multiset(t)
    ensures |s| == |t|
  {
    assert |s| == |multiset(s)| == |multiset(t)| == |t|;
  }

  // ----- selection -----

  ghost function ValidOnes(procs: seq<ProcStats>): multiset<ProcStats> {
    if procs == [] then multiset{}
    else
      var last := procs[|procs| - 1];
      ValidOnes(procs[..|procs| - 1]) + if last.valid then multiset{last} else multiset{}
  }

  /** `kept` are the largest of `all`: nothing left out is above anything kept. */
  ghost predicate Largest(kept: multiset<ProcStats>, all: multiset<ProcStats>) {
    && kept <= all
    && forall p, q :: p in all - kept && q in kept ==> AtMost(p, q)
  }

  ghost predicate ValidAgree(procs: seq<ProcStats>) {
    forall i, j :: 0 <= i < |procs| && 0 <= j < |procs| && procs[i].valid && procs[j].valid ==>
      Agrees(procs[i], procs[j])
  }

  lemma {:induction false} ValidIsListed(procs: seq<ProcStats>, p: ProcStats)
    requires p in ValidOnes(procs)
    ensures exists i :: 0 <= i < |procs| && procs[i] == p && p.valid
  {
    var n := |procs| - 1;
    if procs[n] != p || !p.valid {
      ValidIsListed(procs[..n], p);
      var i :| 0 <= i < n && procs[..n][i] == p;
      assert procs[i] == p;
    }
  }

  lemma KeptAgree(procs: seq<ProcStats>, s: seq<ProcStats>)
    requires ValidAgree(procs) && multiset(s) <= ValidOnes(procs)
    ensures AllAgree(s)
  {
    forall i, j | 0 <= i < |s| && 0 <= j < |s| ensures Agrees(s[i], s[j]) {
      assert s[i] in multiset(s) && s[j] in multiset(s);
      ValidIsListed(procs, s[i]);
      ValidIsListed(procs, s[j]);
    }
  }

  /** One more process, as `ValidOnes` sees it. */
  lemma OneMoreValid(procs: seq<ProcStats>, i: nat)
    requires i < |procs|
    ensures ValidOnes(procs[..i + 1])
      == if procs[i].valid then ValidOnes(procs[..i]) + multiset{procs[i]} else ValidOnes(procs[..i])
  {
    assert procs[..i + 1][..i] == procs[..i];
  }

  lemma {:induction false} ValidGrows(procs: seq<ProcStats>, i: nat)
    requires i <= |procs|
    ensures ValidOnes(procs[..i]) <= ValidOnes(procs)
    decreases |procs| - i
  {
    if i == |procs| {
      assert procs[..i] == procs;
    } else {
      OneMoreValid(procs, i);
      ValidGrows(procs, i + 1);
    }
  }

  /** A process no larger than the smallest kept one may be left out. */
  lemma SkipKeepsLargest(kept: seq<ProcStats>, all: multiset<ProcStats>, p: ProcStats)
    requires |kept| > 0 && Sorted(kept) && Largest(multiset(kept), all) && AtMost(p, kept[0])
    ensures Largest(multiset(kept), all + multiset{p})
  {
    forall q, r | q in all + multiset{p} - multiset(kept) && r in multiset(kept) ensures AtMost(q, r) {
      var j :| 0 <= j < |kept| && kept[j] == r;
      assert q == p || q in all - multiset(kept);
    }
  }

  /** A larger process takes the place of the smallest kept one. */
  lemma ReplaceKeepsLargest(rest: multiset<ProcStats>, low: ProcStats, all: multiset<ProcStats>, p: ProcStats)
    requires Largest(rest + multiset{low}, all) && AtMost(low, p)
    requires forall q :: q in rest ==> AtMost(low, q)
    ensures Largest(rest + multiset{p}, all + multiset{p})
  {
    forall q, r | q in all + multiset{p} - (rest + multiset{p}) && r in rest + multiset{p} ensures AtMost(q, r) {
      assert q == low || q in all - (rest + multiset{low});
      assert low in rest + multiset{low};
      assert AtMost(q, low);
    }
  }

  lemma FirstIsSmallest(kept: seq<ProcStats>, p: ProcStats)
    requires |kept| > 0 && Sorted(kept)
    ensures multiset(kept) == multiset(kept[1..]) + multiset{kept[0]}
    ensures multiset(kept[0 := p]) == multiset(kept[1..]) + multiset{p}
    ensures forall q :: q in multiset(kept[1..]) ==> AtMost(kept[0], q)
  {
    assert kept == [kept[0]] + kept[1..];
    assert kept[0 := p] == [p] + kept[1..];
    forall q | q in multiset(kept[1..]) ensures AtMost(kept[0], q) {
      var j :| 0 <= j < |kept[1..]| && kept[1..][j] == q;
      assert kept[j + 1] == q;
    }
  }

  const NO_PROC := ProcStats(0, 0, 0.0, false)

  /** Whatever is kept of `kept` and `p`, the comparator is right about it. */
  ghost predicate MixAgree(kept: seq<ProcStats>, p: ProcStats) {
    forall s: seq<ProcStats> :: multiset(s) <= multiset(kept) + multiset{p} ==> AllAgree(s)
  }

  /** What `top` holds once the processes `all` were offered. */
  ghost predicate Holds(top: seq<ProcStats>, size: nat, all: multiset<ProcStats>) {
    && size == (if |top| <= |all| then |top| else |all|)
    && Sorted(top[..size]) && Largest(multiset(top[..size]), all)
    && forall j :: size <= j < |top| ==> top[j] == NO_PROC
  }

  /** What holds even if the comparator is wrong: as many of the processes offered as fit, and no others. */
  ghost predicate Kept(top: seq<ProcStats>, size: nat, all: multiset<ProcStats>) {
    && size == (if |top| <= |all| then |top| else |all|)
    && multiset(top[..size]) <= all
    && forall j :: size <= j < |top| ==> top[j] == NO_PROC
  }

  /** The loop's body for a valid process: a free slot, or the smallest kept process's slot if it is larger; then
      sort. */
  method Offer(ps: ProcStats, top: array<ProcStats>, size0: nat, ghost all: multiset<ProcStats>) returns (size: nat)
    requires top.Length >= 1 && Kept(top[..], size0, all)
    modifies top
    ensures Kept(top[..], size, all + multiset{ps})
    ensures old(Holds(top[..], size0, all)) && MixAgree(old(top[..size0]), ps) ==>
      Holds(top[..], size, all + multiset{ps})
    ensures top.Length == 1 ==> size == 1 && top[0] == if size0 == 0 then ps else Winner(old(top[0]), ps)
  {
    hide Holds, Kept, Placed, Largest, Sorted, AllAgree, MixAgree, AtMost, Compare;
    size := size0;
    ghost var before := top[..];
    KeptSize(before, size, all);
    ghost var agree := Holds(before, size, all) && MixAgree(before[..size], ps);
    assert top[..size] == before[..size];
    if size < top.Length {
      KeepsOneMore(before, size, all, ps);
      if agree {
        PlacedLast(before, size, all, ps);
      }
      top[size] := ps;
      size := size + 1;
      assert top[..] == before[size - 1 := ps];
    } else {
      KeepsInstead(before, size, all, ps);
      if agree {
        PlacedFirst(before, size, all, ps);
      }
      if Compare(ps, top[0]) <= 0 {
        return;
      }
      top[0] := ps;
      assert top[..] == before[0 := ps];
    }
    ghost var unsorted := top[..];
    if agree {
      PlacedAgree(unsorted, size, all + multiset{ps});
    }
    assert unsorted[..size] == top[..size] && unsorted[size..] == top[size..];
    Qsort(top, size);
    assert top[..][..size] == top[..size] && top[..][size..] == top[size..];
    KeptSorted(unsorted, top[..], size, all + multiset{ps});
    if agree {
      HoldsSorted(unsorted, top[..], size, all + multiset{ps});
    }
    if top.Length == 1 {
      OnlyOne(unsorted[..size], top[..size]);
    }
  }

  lemma KeptSize(top: seq<ProcStats>, size: nat, all: multiset<ProcStats>)
    requires Kept(top, size, all)
    ensures size == if |top| <= |all| then |top| else |all|
  {
  }

  lemma KeepsOneMore(top: seq<ProcStats>, size: nat, all: multiset<ProcStats>, ps: ProcStats)
    requires Kept(top, size, all) && size < |top|
    ensures Kept(top[size := ps], size + 1, all + multiset{ps})
  {
    assert top[size := ps][..size + 1] == top[..size] + [ps];
  }

  lemma KeepsInstead(top: seq<ProcStats>, size: nat, all: multiset<ProcStats>, ps: ProcStats)
    requires Kept(top, size, all) && 0 < size == |top|
    ensures Kept(top, size, all + multiset{ps}) && Kept(top[0 := ps], size, all + multiset{ps})
  {
    assert top[..size] == top == [top[0]] + top[1..];
    assert top[0 := ps][..size] == [ps] + top[1..];
  }

  lemma KeptSorted(before: seq<ProcStats>, after: seq<ProcStats>, size: nat, all: multiset<ProcStats>)
    requires Kept(before, size, all) && |before| == |after|
    requires multiset(after[..size]) == multiset(before[..size]) && after[size..] == before[size..]
    ensures Kept(after, size, all)
  {
    forall j | size <= j < |after| ensures after[j] == NO_PROC {
      assert after[j] == after[size..][j - size];
    }
  }

  lemma OnlyOne(before: seq<ProcStats>, after: seq<ProcStats>)
    requires |before| == |after| == 1 && multiset(after) == multiset(before)
    ensures after[0] == before[0]
  {
    assert after[0] in multiset(after);
  }

  /** The right processes, not yet in order. */
  ghost predicate Placed(top: seq<ProcStats>, size: nat, all: multiset<ProcStats>) {
    && size == (if |top| <= |all| then |top| else |all|)
    && Largest(multiset(top[..size]), all) && AllAgree(top[..size])
    && forall j :: size <= j < |top| ==> top[j] == NO_PROC
  }

  lemma PlacedAgree(top: seq<ProcStats>, size: nat, all: multiset<ProcStats>)
    requires Placed(top, size, all)
    ensures size <= |top| && AllAgree(top[..size])
  {
  }

  lemma HoldsSorted(before: seq<ProcStats>, after: seq<ProcStats>, size: nat, all: multiset<ProcStats>)
    requires Placed(before, size, all) && |before| == |after|
    requires Sorted(after[..size]) && multiset(after[..size]) == multiset(before[..size])
      && after[size..] == before[size..]
    ensures Holds(after, size, all)
  {
    hide Largest, Sorted;
    forall j | size <= j < |after| ensures after[j] == NO_PROC {
      assert after[j] == after[size..][j - size];
    }
  }

  lemma PlacedLast(top: seq<ProcStats>, size: nat, all: multiset<ProcStats>, ps: ProcStats)
    requires Holds(top, size, all) && size < |top| && MixAgree(top[..size], ps)
    ensures Placed(top[size := ps], size + 1, all + multiset{ps})
  {
    hide Largest, Sorted, AllAgree, MixAgree, AtMost, Compare, Agrees;
    if size > 0 {
      KeptAgrees(top[..size], ps);
    }
    HoldsAll(top[..size], all, ps);
    assert top[size := ps][..size + 1] == top[..size] + [ps];
  }

  lemma PlacedFirst(top: seq<ProcStats>, size: nat, all: multiset<ProcStats>, ps: ProcStats)
    requires Holds(top, size, all) && 0 < size == |top| && MixAgree(top[..size], ps)
    ensures if Compare(ps, top[0]) <= 0 then Holds(top, size, all + multiset{ps})
      else Placed(top[0 := ps], size, all + multiset{ps})
  {
    hide Largest, Sorted, AllAgree, MixAgree, AtMost, Compare;
    var kept := top[..size];
    assert kept == top && top[0 := ps][..size] == top[0 := ps];
    KeptAgrees(kept, ps);
    if Compare(ps, top[0]) <= 0 {
      SkipKeepsLargest(kept, all, ps);
    } else {
      FirstIsSmallest(kept, ps);
      ReplaceKeepsLargest(multiset(kept[1..]), kept[0], all, ps);
    }
  }

  lemma HoldsAll(kept: seq<ProcStats>, all: multiset<ProcStats>, p: ProcStats)
    requires Largest(multiset(kept), all) && |kept| == |all|
    ensures Largest(multiset(kept + [p]), all + multiset{p})
    ensures |kept| == 0 ==> AllAgree(kept + [p])
  {
    assert multiset(kept + [p]) == multiset(kept) + multiset{p};
    WholeIfEqual(multiset(kept), all);
  }

  lemma KeptAgrees(kept: seq<ProcStats>, p: ProcStats)
    requires |kept| > 0 && MixAgree(kept, p)
    ensures Agrees(p, kept[0]) && AllAgree(kept + [p]) && AllAgree(kept[0 := p])
  {
    var s := kept + [p];
    assert AllAgree(s);
    assert Agrees(s[|kept|], s[0]);
    assert kept == [kept[0]] + kept[1..] && kept[0 := p] == [p] + kept[1..];
    assert multiset(kept[0 := p]) <= multiset(kept) + multiset{p};
  }

  lemma HoldsNothing(top: seq<ProcStats>, procs: seq<ProcStats>)
    requires forall j :: 0 <= j < |top| ==> top[j] == NO_PROC
    ensures Holds(top, 0, ValidOnes(procs[..0])) && Kept(top, 0, ValidOnes(procs[..0]))
  {
    assert top[..0] == [];
  }

  method ClearSlots(top: array<ProcStats>)
    modifies top
    ensures forall j :: 0 <= j < top.Length ==> top[j] == NO_PROC
  {
    for i := 0 to top.Length
      invariant forall j :: 0 <= j < i ==> top[j] == NO_PROC
    {
      top[i] := NO_PROC;
    }
  }

  // ----- a single slot -----

  /** Which of the two stays in the only slot. */
  function Winner(kept: ProcStats, p: ProcStats): ProcStats {
    if Compare(p, kept) <= 0 then kept else p
  }

  /** The process that a single slot keeps. */
  function Champion(procs: seq<ProcStats>): Option<ProcStats> {
    if procs == [] then None
    else
      var last, best := procs[|procs| - 1], Champion(procs[..|procs| - 1]);
      if !last.valid then best else if best.None? then Some(last) else Some(Winner(best.value, last))
  }

  lemma ChampionNext(procs: seq<ProcStats>, i: nat)
    requires i < |procs|
    ensures
      var best := Champion(procs[..i]);
      Champion(procs[..i + 1]) ==
        if !procs[i].valid then best else if best.None? then Some(procs[i]) else Some(Winner(best.value, procs[i]))
  {
    assert procs[..i + 1][..i] == procs[..i];
  }

  ghost predicate InSlot(top: seq<ProcStats>, size: nat, best: Option<ProcStats>) {
    |top| >= 1 && if best.None? then size == 0 else size == 1 && top[0] == best.value
  }

  /** `fill_top_procs`: one pass over the list. What remains are as many of the valid processes as fit; if the
      comparator is right about them, it is sorted and they are the largest. */
  method FillTopProcs(pslist: seq<ProcStats>, top: array<ProcStats>) returns (size: nat)
    requires top.Length >= 1
    modifies top
    ensures Kept(top[..], size, ValidOnes(pslist))
    ensures ValidAgree(pslist) ==> Holds(top[..], size, ValidOnes(pslist))
    ensures top.Length == 1 ==> InSlot(top[..], size, Champion(pslist))
  {
    hide Holds, Kept, Largest, Sorted, AllAgree, ValidAgree, ValidOnes, MixAgree, Compare, Champion;
    size := 0;
    ClearSlots(top);
    HoldsNothing(top[..], pslist);
    NoChampion();
    for i := 0 to |pslist|
      invariant Kept(top[..], size, ValidOnes(pslist[..i]))
      invariant ValidAgree(pslist) ==> Holds(top[..], size, ValidOnes(pslist[..i]))
      invariant top.Length == 1 ==> InSlot(top[..], size, Champion(pslist[..i]))
    {
      OneMoreValid(pslist, i);
      ChampionNext(pslist, i);
      if pslist[i].valid {
        ValidGrows(pslist, i + 1);
        KeptSize(top[..], size, ValidOnes(pslist[..i]));
        assert top[..][..size] == top[..size];
        if ValidAgree(pslist) {
          OfferedAgree(pslist, top[..], size, ValidOnes(pslist[..i]), pslist[i]);
        }
        size := Offer(pslist[i], top, size, ValidOnes(pslist[..i]));
      }
    }
    assert pslist[..|pslist|] == pslist;
  }

  lemma NoChampion()
    ensures Champion([]) == None
  {
  }

  /** The busiest process, 2^32 ticks ahead of the other one, loses the only slot to it. */
  method BusiestLost(a: ProcStats) returns (kept: ProcStats)
    requires a.valid && a.ticks + UINT_LIMIT < WORD_LIMIT
    ensures kept == a && AtMost(a, a.(ticks := a.ticks + UINT_LIMIT)) && !AtMost(a.(ticks := a.ticks + UINT_LIMIT), a)
  {
    hide Kept, Holds, Champion, Compare;
    var b := a.(ticks := a.ticks + UINT_LIMIT);
    FarTicksMiscompare(a);
    NoChampion();
    ChampionNext([a, b], 0);
    ChampionNext([a, b], 1);
    assert [a, b][..0] == [] && [a, b][..2] == [a, b];
    assert Champion([a, b]) == Some(a);
    var top := new ProcStats[1](_ => NO_PROC);
    var size := FillTopProcs([a, b], top);
    kept := top[0];
  }

  lemma OfferedAgree(pslist: seq<ProcStats>, top: seq<ProcStats>, size: nat, all: multiset<ProcStats>, p: ProcStats)
    requires ValidAgree(pslist) && Holds(top, size, all) && all + multiset{p} <= ValidOnes(pslist)
    ensures MixAgree(top[..size], p)
  {
    var kept := top[..size];
    forall s: seq<ProcStats> | multiset(s) <= multiset(kept) + multiset{p} ensures AllAgree(s) {
      assert multiset(kept) + multiset{p} <= all + multiset{p};
      KeptAgree(pslist, s);
    }
  }

  /** A part as large as the whole is the whole. */
  lemma WholeIfEqual(part: multiset<ProcStats>, whole: multiset<ProcStats>)
    requires part <= whole && |part| == |whole|
    ensures part == whole
  {
    assert whole == part + (whole - part);
    assert |whole - part| == 0;
  }
}
