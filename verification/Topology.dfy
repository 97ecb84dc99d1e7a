/** Return values shared by the library's calls. */
module Results {
  datatype RetVal = Ok | Error | Param | Resource

  datatype Option<+T> = None | Some(value: T)
}

/** The CPU topology table and the searches over it (lib/utils.c). */
module Topology {
  import opened Results

  datatype CoreInfo = CoreInfo(lcore: nat, socket: nat, l3Id: nat, l2Id: nat)

  datatype Scope = Socket | L3Cluster | L2Cluster

  function IdOf(c: CoreInfo, scope: Scope): nat {
    match scope
    case Socket => c.socket
    case L3Cluster => c.l3Id
    case L2Cluster => c.l2Id
  }

  /** Logical cores are listed once, and an L2 cluster lies in one socket. */
  ghost predicate WellFormed(cpu: seq<CoreInfo>) {
    && (forall i, j :: 0 <= i < j < |cpu| ==> cpu[i].lcore != cpu[j].lcore)
    && (forall c, d :: c in cpu && d in cpu && c.l2Id == d.l2Id ==> c.socket == d.socket)
  }

  /** Socket or cluster ids are 0..n-1, so that a count can serve as an id range. */
  ghost predicate Dense(cpu: seq<CoreInfo>, scope: Scope) {
    forall c :: c in cpu ==> IdOf(c, scope) < |Ids(cpu, scope)|
  }

  ghost function Lcores(cpu: seq<CoreInfo>): set<nat> {
    set c | c in cpu :: c.lcore
  }

  ghost predicate Within(cpu: seq<CoreInfo>, scope: Scope, id: nat, lcore: nat) {
    exists c :: c in cpu && c.lcore == lcore && IdOf(c, scope) == id
  }

  ghost predicate HasId(cpu: seq<CoreInfo>, scope: Scope, id: nat) {
    exists c :: c in cpu && IdOf(c, scope) == id
  }

  function Lookup(cpu: seq<CoreInfo>, lcore: nat): (r: Option<CoreInfo>)
    ensures r.Some? ==> r.value in cpu && r.value.lcore == lcore
    ensures r.None? ==> forall c :: c in cpu ==> c.lcore != lcore
  {
    if cpu == [] then None
    else if cpu[0].lcore == lcore then Some(cpu[0])
    else Lookup(cpu[1..], lcore)
  }

  /** The first listed core of a socket or cluster. */
  function First(cpu: seq<CoreInfo>, scope: Scope, id: nat): (r: Option<CoreInfo>)
    ensures r.Some? ==> r.value in cpu && IdOf(r.value, scope) == id
    ensures r.None? ==> !HasId(cpu, scope, id)
  {
    if cpu == [] then None
    else if IdOf(cpu[0], scope) == id then Some(cpu[0])
    else First(cpu[1..], scope, id)
  }

  /** Logical cores of a socket or cluster, in listing order. */
  function CoreList(cpu: seq<CoreInfo>, scope: Scope, id: nat): (r: seq<nat>)
    ensures forall l :: l in r <==> Within(cpu, scope, id, l)
  {
    if cpu == [] then []
    else
      var last := cpu[|cpu| - 1];
      var front := CoreList(cpu[..|cpu| - 1], scope, id);
      assert cpu == cpu[..|cpu| - 1] + [last];
      if IdOf(last, scope) == id then front + [last.lcore] else front
  }

  /** The positions of the listed cores ascend, and no core of the socket or cluster is left out. */
  lemma {:induction false} ListedInOrder(cpu: seq<CoreInfo>, scope: Scope, id: nat) returns (ps: seq<nat>)
    ensures |ps| == |CoreList(cpu, scope, id)| && forall i, j :: 0 <= i < j < |ps| ==> ps[i] < ps[j]
    ensures forall i :: 0 <= i < |ps| ==> ps[i] < |cpu| && cpu[ps[i]].lcore == CoreList(cpu, scope, id)[i]
    ensures forall p: nat :: p in ps <==> p < |cpu| && IdOf(cpu[p], scope) == id
  {
    ps := [];
    if cpu != [] {
      var n := |cpu| - 1;
      ps := ListedInOrder(cpu[..n], scope, id);
      if IdOf(cpu[n], scope) == id {
        ps := ps + [n];
      }
    }
  }

  /** Socket or cluster ids in order of first appearance. */
  function Ids(cpu: seq<CoreInfo>, scope: Scope): (r: seq<nat>)
    ensures forall id :: id in r <==> HasId(cpu, scope, id)
    ensures forall i, j :: 0 <= i < j < |r| ==> r[i] != r[j]
    ensures |r| <= |cpu|
    ensures cpu != [] ==> r != []
  {
    if cpu == [] then []
    else
      var last := IdOf(cpu[|cpu| - 1], scope);
      var front := Ids(cpu[..|cpu| - 1], scope);
      assert cpu == cpu[..|cpu| - 1] + [cpu[|cpu| - 1]];
      if last in front then front else front + [last]
  }

  /** The first positions of the ids ascend. */
  lemma {:induction false} IdsInOrder(cpu: seq<CoreInfo>, scope: Scope) returns (ps: seq<nat>)
    ensures |ps| == |Ids(cpu, scope)| && forall i, j :: 0 <= i < j < |ps| ==> ps[i] < ps[j]
    ensures forall i :: 0 <= i < |ps| ==> ps[i] < |cpu| && IdOf(cpu[ps[i]], scope) == Ids(cpu, scope)[i]
    ensures forall i, q :: 0 <= i < |ps| && 0 <= q < ps[i] ==> IdOf(cpu[q], scope) != Ids(cpu, scope)[i]
  {
    ps := [];
    if cpu != [] {
      var n := |cpu| - 1;
      ps := IdsInOrder(cpu[..n], scope);
      var front, last := Ids(cpu[..n], scope), IdOf(cpu[n], scope);
      assert Ids(cpu, scope) == if last in front then front else front + [last];
      hide Ids;
      if last !in front {
        forall q | 0 <= q < n ensures IdOf(cpu[q], scope) != last {
          assert cpu[..n][q] == cpu[q];
        }
        ps := ps + [n];
      }
    }
  }

  /** No core listed before it has the id. */
  lemma {:induction false} FirstIsFirst(cpu: seq<CoreInfo>, scope: Scope, id: nat) returns (p: nat)
    requires First(cpu, scope, id).Some?
    ensures p < |cpu| && First(cpu, scope, id) == Some(cpu[p])
    ensures forall q :: 0 <= q < p ==> IdOf(cpu[q], scope) != id
  {
    p := 0;
    if IdOf(cpu[0], scope) != id {
      p := FirstIsFirst(cpu[1..], scope, id);
      assert forall q :: 0 < q <= p ==> cpu[q] == cpu[1..][q - 1];
      p := p + 1;
    }
  }

  lemma NoLcores(cpu: seq<CoreInfo>)
    ensures Lcores(cpu[..0]) == {}
  {
  }

  lemma LcoresOneMore(cpu: seq<CoreInfo>, i: nat)
    requires WellFormed(cpu) && i < |cpu|
    ensures cpu[i].lcore in Lcores(cpu) && Lcores(cpu[..i + 1]) == Lcores(cpu[..i]) + {cpu[i].lcore}
    ensures cpu[i].lcore !in Lcores(cpu[..i])
  {
    assert cpu[..i + 1] == cpu[..i] + [cpu[i]];
  }

  lemma LookupIsUnique(cpu: seq<CoreInfo>, c: CoreInfo)
    requires WellFormed(cpu) && c in cpu
    ensures Lookup(cpu, c.lcore) == Some(c)
  {
    var d := Lookup(cpu, c.lcore).value;
    var i :| 0 <= i < |cpu| && cpu[i] == c;
    var j :| 0 <= j < |cpu| && cpu[j] == d;
  }

  lemma WithinLookup(cpu: seq<CoreInfo>, scope: Scope, id: nat, l: nat)
    requires WellFormed(cpu) && Within(cpu, scope, id, l)
    ensures Lookup(cpu, l).Some? && IdOf(Lookup(cpu, l).value, scope) == id
  {
    var x :| x in cpu && x.lcore == l && IdOf(x, scope) == id;
    LookupIsUnique(cpu, x);
  }

  lemma TakeOneMore<T>(s: seq<T>, i: nat)
    requires i < |s|
    ensures s[..i + 1] == s[..i] + [s[i]] && s[..i + 1][..i] == s[..i]
  {
  }

  method GetIds(cpu: seq<CoreInfo>, scope: Scope) returns (ids: seq<nat>)
    ensures ids == Ids(cpu, scope)
  {
    ids := [];
    for i := 0 to |cpu|
      invariant ids == Ids(cpu[..i], scope)
    {
      var id := IdOf(cpu[i], scope);
      var j := 0;
      while j < |ids|
        invariant 0 <= j <= |ids|
        invariant forall k :: 0 <= k < j ==> ids[k] != id
      {
        if id == ids[j] {
          break;
        }
        j := j + 1;
      }
      TakeOneMore(cpu, i);
      if j >= |ids| {
        ids := ids + [id];
      }
    }
    assert cpu[..|cpu|] == cpu;
  }

  method GetCores(cpu: seq<CoreInfo>, scope: Scope, id: nat) returns (cores: seq<nat>)
    ensures cores == CoreList(cpu, scope, id)
  {
    cores := [];
    for i := 0 to |cpu|
      invariant cores == CoreList(cpu[..i], scope, id)
    {
      TakeOneMore(cpu, i);
      if IdOf(cpu[i], scope) == id {
        cores := cores + [cpu[i].lcore];
      }
    }
    assert cpu[..|cpu|] == cpu;
  }

  method GetOne(cpu: seq<CoreInfo>, scope: Scope, id: nat) returns (r: Option<nat>)
    ensures r == match First(cpu, scope, id) case None => None case Some(c) => Some(c.lcore)
  {
    for i := 0 to |cpu|
      invariant First(cpu, scope, id) == First(cpu[i..], scope, id)
    {
      if IdOf(cpu[i], scope) == id {
        return Some(cpu[i].lcore);
      }
      assert cpu[i..][1..] == cpu[i + 1..];
    }
    r := None;
  }

  method GetCoreInfo(cpu: seq<CoreInfo>, lcore: nat) returns (r: Option<CoreInfo>)
    ensures r == Lookup(cpu, lcore)
  {
    for i := 0 to |cpu|
      invariant Lookup(cpu, lcore) == Lookup(cpu[i..], lcore)
    {
      if cpu[i].lcore == lcore {
        return Some(cpu[i]);
      }
      assert cpu[i..][1..] == cpu[i + 1..];
    }
    r := None;
  }

  // ----- dense ids -----

  ghost function Below(n: nat): (r: set<nat>)
    ensures |r| == n && forall v: nat :: v in r <==> v < n
  {
    if n == 0 then {} else Below(n - 1) + {n - 1}
  }

  ghost function Members(s: seq<nat>): (r: set<nat>)
    ensures forall v: nat :: v in r <==> v in s
  {
    set v | v in s
  }

  lemma DistinctSize(s: seq<nat>)
    requires forall i, j :: 0 <= i < j < |s| ==> s[i] != s[j]
    ensures |Members(s)| == |s|
  {
    if s != [] {
      var front, last := s[..|s| - 1], s[|s| - 1];
      DistinctSize(front);
      assert s == front + [last];
      assert Members(s) == Members(front) + {last};
    }
  }

  lemma SubsetSize<T>(a: set<T>, b: set<T>)
    requires a <= b
    ensures |a| <= |b|
  {
    assert b == a + (b - a);
  }

  lemma SameSize(a: set<nat>, b: set<nat>)
    requires a <= b && |a| == |b|
    ensures a == b
  {
    assert b == a + (b - a);
  }

  /** Distinct ids below their own number are all of 0..n-1. */
  lemma DenseIds(cpu: seq<CoreInfo>, scope: Scope)
    requires Dense(cpu, scope)
    ensures forall i: nat :: i in Ids(cpu, scope) <==> i < |Ids(cpu, scope)|
  {
    var ids := Ids(cpu, scope);
    forall i | i in ids ensures i < |ids| {
      var x :| x in cpu && IdOf(x, scope) == i;
    }
    DistinctSize(ids);
    SameSize(Members(ids), Below(|ids|));
  }
}
