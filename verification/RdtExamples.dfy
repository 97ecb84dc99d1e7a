/** Configurations that succeed without being in force: an ignored mask, and a class that two groups share. */
module RdtExamples {
  import opened Bits
  import opened Results
  import opened Topology
  import opened Registers
  import opened Capabilities
  import opened ClassConfig
  import opened ClassBudget
  import opened RdtConfig
  import opened RdtClass
  import opened Isolation
  import opened Rdtset

  // ----- small masks -----

  lemma SmallMasks()
    ensures IsRun(1) && IsRun(2) && IsRun(3) && Ones(2) == 3
    ensures BitCount(1) == 1 && BitCount(2) == 1 && BitCount(3) == 2
  {
    SmallRun(1, 0, 1);
    SmallRun(1, 1, 2);
    SmallRun(2, 0, 3);
    hide IsRun, Shl;
    assert BitCount(0) == 0 && Pow2(1) == 2;
  }

  lemma SmallRun(len: nat, lo: nat, mask: nat)
    requires len >= 1 && mask == Shl(Ones(len), lo)
    ensures IsRun(mask)
  {
  }

  // ----- a request that hardware ignores -----

  /** One core; masks of fewer than two bits are ignored. */
  function IgnoringChip(): Chip {
    Chip([CoreInfo(0, 0, 0, 0)], 4, 0, 0, 2, 1, true)
  }

  function FourClasses(): Cap {
    Cap(Some(L3Cap(4, 2, false, false)), None, None)
  }

  /** Ways 0 and 1 for each class. */
  function BothWays(): Regs {
    Regs(map[0 := 0], map[(0, 0) := 3, (0, 1) := 3, (0, 2) := 3, (0, 3) := 3], map[], map[], map[0 := 0])
  }

  function OnlyWayZero(): Config {
    Config({0}, L2Ca(0, 0), L3Ways(0, 1), Mba(0, 0))
  }

  lemma BothWaysValid()
    ensures ValidRegs(IgnoringChip(), BothWays())
  {
    var cpu := IgnoringChip().cpu;
    forall scope: Scope ensures HasId(cpu, scope, 0) {
      assert cpu[0] in cpu;
    }
    assert forall scope, id :: HasId(cpu, scope, id) ==> id == 0;
    assert Lcores(cpu) == {0};
  }

  lemma ShortButDefinable()
    ensures Definable(IgnoringChip(), FourClasses(), OnlyWayZero())
    ensures BitCount(1) == 1
  {
    hide IsRun, BitCount, Ones;
    SmallMasks();
  }

  /** On hardware that ignores short masks, asking for way 0 alone succeeds and leaves both ways to the class. */
  method ShortMaskIgnored() returns (status: Status, shown: L3Ca)
    ensures status == Success && shown == L3Ways(1, 3) != L3For(FourClasses(), OnlyWayZero().l3, 1)
  {
    hide ValidRegs, Definable;
    BothWaysValid();
    ShortButDefinable();
    var hw := new Msr(IgnoringChip(), _ => false, BothWays());
    status := CfgConfigureCos(hw, FourClasses(), OnlyWayZero(), 0, 1);
    shown := L3Ways(1, hw.regs.l3[(0, 1)]);
  }

  // ----- two clusters of one socket -----

  /** Two cores of one socket, each its own L2 cluster. */
  function TwoClusters(): Chip {
    Chip([CoreInfo(0, 0, 0, 0), CoreInfo(1, 0, 0, 1)], 2, 2, 0, 1, 1, false)
  }

  /** Class 1 is the only one besides class 0. */
  function TwoClasses(): Cap {
    Cap(Some(L3Cap(2, 2, false, false)), Some(L2Cap(2, 2)), None)
  }

  function FullBank(ids: set<nat>): Bank {
    map id, i | id in ids && i in {0, 1} :: (id, i) := 3
  }

  function FullMasks(): Regs {
    Regs(map[0 := 0, 1 := 0], FullBank({0}), FullBank({0, 1}), map[], map[0 := 0])
  }

  /** The first group asks for L3 way 0, the second for L3 way 1 and both L2 ways. */
  function WithAndWithoutL2(): seq<Config> {
    [Config({0}, L2Ca(0, 0), L3Ways(0, 1), Mba(0, 0)), Config({1}, L2Ca(0, 3), L3Ways(0, 2), Mba(0, 0))]
  }

  lemma TwoClusterIds()
    ensures forall id :: HasId(TwoClusters().cpu, Socket, id) <==> id == 0
    ensures forall id :: HasId(TwoClusters().cpu, L2Cluster, id) <==> id == 0 || id == 1
    ensures Lcores(TwoClusters().cpu) == {0, 1}
  {
    var cpu := TwoClusters().cpu;
    assert cpu[0] in cpu && cpu[1] in cpu;
    assert IdOf(cpu[0], Socket) == 0 && IdOf(cpu[0], L2Cluster) == 0 && IdOf(cpu[1], L2Cluster) == 1;
  }

  lemma FullBankFits(cpu: seq<CoreInfo>, scope: Scope, ids: set<nat>)
    requires forall id :: HasId(cpu, scope, id) <==> id in ids
    ensures HasBank(cpu, scope, 2, FullBank(ids))
  {
    hide HasId;
  }

  lemma FullMasksValid()
    ensures ValidRegs(TwoClusters(), FullMasks())
  {
    hide HasId, Lcores, HasBank, FullBank;
    TwoClusterIds();
    FullBankFits(TwoClusters().cpu, Socket, {0});
    FullBankFits(TwoClusters().cpu, L2Cluster, {0, 1});
    NoBank(TwoClusters().cpu);
  }

  lemma NoBank(cpu: seq<CoreInfo>)
    ensures HasBank(cpu, Socket, 0, map[])
  {
  }

  lemma BothDefinable()
    ensures AllDefinable(TwoClusters(), TwoClasses(), WithAndWithoutL2())
  {
    hide IsRun, BitCount, Ones;
    SmallMasks();
  }

  lemma BothDense()
    ensures AllDense(TwoClusters().cpu, WithAndWithoutL2())
  {
    hide HasId, Ids;
    TwoClusterIds();
    var cpu := TwoClusters().cpu;
    assert 0 in Ids(cpu, Socket) && 0 in Ids(cpu, L2Cluster) && 1 in Ids(cpu, L2Cluster);
    SubsetSize({0}, Members(Ids(cpu, Socket)));
    SubsetSize({0, 1}, Members(Ids(cpu, L2Cluster)));
    DistinctSize(Ids(cpu, Socket));
    DistinctSize(Ids(cpu, L2Cluster));
  }

  lemma BothValid()
    ensures ValidConfigs(TwoClasses(), FullMasks().assoc, WithAndWithoutL2())
  {
    hide FullBank;
    assert Pow2(2) == 4;
  }

  /** A served CPU is in a class that can hold its request, and here that is class 1. */
  lemma InClassOne(start: Regs, now: Regs)
    requires ValidRegs(TwoClusters(), now)
    requires forall id :: Isolated(TwoClusters(), TwoClasses(), Place(L2Cluster, id), start, now, WithAndWithoutL2(), 2)
    ensures 0 in now.assoc && 1 in now.assoc && Cos(now.assoc[0]) == Cos(now.assoc[1]) == 1
  {
    hide ValidRegs, Separate, ShownIn;
    var configs, cpu := WithAndWithoutL2(), TwoClusters().cpu;
    assert cpu[0] in cpu && IdOf(cpu[0], L2Cluster) == 0 && cpu[1] in cpu && IdOf(cpu[1], L2Cluster) == 1;
    assert Within(cpu, L2Cluster, 0, 0) && Within(cpu, L2Cluster, 1, 1);
    assert AllServed(TwoClusters(), TwoClasses(), Place(L2Cluster, 0), start, now, configs[0]);
    assert AllServed(TwoClusters(), TwoClasses(), Place(L2Cluster, 1), start, now, configs[1]);
    assert 0 in configs[0].cpus && 1 in configs[1].cpus;
  }

  lemma OneClassIsEnough()
    ensures EnoughClasses(TwoClusters().cpu, TwoClasses(), FullMasks().assoc, WithAndWithoutL2())
  {
    hide UsedClasses, Units;
    var cpu, assoc, configs := TwoClusters().cpu, FullMasks().assoc, WithAndWithoutL2();
    forall scope, id: nat ensures UsedClasses(cpu, assoc, scope, id) == {} {
      NothingUsed(scope, id);
    }
    forall id: nat | AnyThere(cpu, {1}, L2Cluster, id) ensures Units(cpu, {0}, Socket, L2Cluster, id) == {} {
      FirstElsewhere(id);
    }
  }

  lemma NothingUsed(scope: Scope, id: nat)
    ensures UsedClasses(TwoClusters().cpu, FullMasks().assoc, scope, id) == {}
  {
  }

  lemma FirstElsewhere(id: nat)
    requires AnyThere(TwoClusters().cpu, {1}, L2Cluster, id)
    ensures Units(TwoClusters().cpu, {0}, Socket, L2Cluster, id) == {}
  {
  }

  /** Two groups that fit their clusters end up in one class of one socket, which has one L3 mask for both requests. */
  method SocketClassShared() returns (status: Status, first: nat, second: nat)
    ensures status == Success && first == second == 1
  {
    hide ValidRegs, AllDefinable, EnoughClasses, ValidConfigs, Isolated, AllDense, WellFormed, CosOnly;
    FullMasksValid();
    var hw := new Msr(TwoClusters(), _ => false, FullMasks());
    var start := hw.regs;
    BothValid();
    BothDense();
    BothDefinable();
    OneClassIsEnough();
    ghost var stuck;
    status, stuck := AllocConfigure(hw, TwoClasses(), WithAndWithoutL2());
    InClassOne(start, hw.regs);
    first, second := Cos(hw.regs.assoc[0]), Cos(hw.regs.assoc[1]);
  }
}
