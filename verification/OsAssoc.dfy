/** Associating cores with classes through the cpus files (lib/os_allocation.c). */
module OsAssoc {
  import opened Results
  import opened Topology
  import opened Capabilities
  import opened Cpumask
  import opened OsAllocation

  /** Core ids fit the mask table. */
  ghost predicate SmallCores(cpu: seq<CoreInfo>) {
    |cpu| <= MAX_CPUS && forall i :: 0 <= i < |cpu| ==> cpu[i].lcore < MAX_CPUS
  }

  method ReadMask(fs: ResctrlFs, c: nat, mask: array<Byte>) returns (ret: RetVal)
    requires mask.Length == TAB_SIZE
    modifies mask
    ensures ret == if c in fs.cpus then Ok else Error
    ensures ret == Ok ==> mask[..] == MaskIn(fs.cpus[c])
  {
    ClearMask(mask);
    if c !in fs.cpus {
      return Error;
    }
    var text := Buffered(fs.cpus[c]);
    Convert(text, mask);
    ret := Ok;
  }

  method WriteMask(fs: ResctrlFs, c: nat, mask: array<Byte>) returns (ret: RetVal)
    requires mask.Length == TAB_SIZE
    modifies fs
    ensures fs.schemata == old(fs.schemata)
    ensures ret == if c in old(fs.cpus) then Ok else Error
    ensures fs.cpus == if ret == Ok then old(fs.cpus)[c := TextFrom(mask[..], 0)] else old(fs.cpus)
  {
    if c !in fs.cpus {
      return Error;
    }
    var text := CpumaskWrite(mask);
    fs.cpus := fs.cpus[c := text];
    ret := Ok;
  }

  /** The file of `c` holds the full text of a mask with the cores it had and the given ones; other files are as
      before. */
  ghost predicate CoresAdded(before: map<nat, string>, c: nat, cores: set<nat>, after: map<nat, string>) {
    && c in before && after.Keys == before.Keys && (forall k :: k in before && k != c ==> after[k] == before[k])
    && var tab := TabOf(Nibbles(after[c]));
       after[c] == TextFrom(tab, 0)
       && forall l :: 0 <= l < MAX_CPUS ==> (HasCpu(tab, l) <==> HasCpu(MaskIn(before[c]), l) || l in cores)
  }

  lemma WrittenAdds(before: map<nat, string>, c: nat, cores: set<nat>, tab: Tab)
    requires c in before
    requires forall l :: 0 <= l < MAX_CPUS ==> (HasCpu(tab, l) <==> HasCpu(MaskIn(before[c]), l) || l in cores)
    ensures CoresAdded(before, c, cores, before[c := TextFrom(tab, 0)])
  {
    hide TextFrom, Nibbles, TabOf, HasCpu, MaskIn;
    TextReadsBack(tab);
  }

  method OsAllocAssocSet(fs: ResctrlFs, cap: Cap, cpu: seq<CoreInfo>, lcore: nat, c: nat) returns (ret: RetVal)
    requires SmallCores(cpu)
    modifies fs
    ensures fs.schemata == old(fs.schemata)
    ensures ret == if Lookup(cpu, lcore).None? || (c >= cap.L3Classes() && c >= cap.L2Classes()) then Param
                   else if c in old(fs.cpus) then Ok else Error
    ensures ret == Ok ==> CoresAdded(old(fs.cpus), c, {lcore}, fs.cpus)
    ensures ret != Ok ==> fs.cpus == old(fs.cpus)
  {
    hide TextFrom, Nibbles, TabOf, HasCpu, MaskIn, WithCpu;
    var info := GetCoreInfo(cpu, lcore);
    if info.None? {
      return Param;
    }
    if c >= cap.L3Classes() && c >= cap.L2Classes() {
      return Param;
    }
    var mask := new Byte[TAB_SIZE];
    ret := ReadMask(fs, c, mask);
    if ret != Ok {
      return;
    }
    CpumaskSet(lcore, mask);
    WrittenAdds(fs.cpus, c, {lcore}, mask[..]);
    ret := WriteMask(fs, c, mask);
  }

  /** Puts the cores back into group 0; a core id that is not below the number of cores stops it before any write. */
  method OsAllocRelease(fs: ResctrlFs, cpu: seq<CoreInfo>, cores: seq<nat>) returns (ret: RetVal)
    requires SmallCores(cpu) && cores != []
    modifies fs
    ensures fs.schemata == old(fs.schemata)
    ensures ret == if 0 in old(fs.cpus) && forall i :: 0 <= i < |cores| ==> cores[i] < |cpu| then Ok else Error
    ensures ret == Ok ==> CoresAdded(old(fs.cpus), 0, Members(cores), fs.cpus)
    ensures ret != Ok ==> fs.cpus == old(fs.cpus)
  {
    hide TextFrom, Nibbles, TabOf, HasCpu, MaskIn, WithCpu, CoresAdded;
    var mask := new Byte[TAB_SIZE];
    ret := ReadMask(fs, 0, mask);
    if ret != Ok {
      return;
    }
    for i := 0 to |cores|
      invariant fs.cpus == old(fs.cpus) && fs.schemata == old(fs.schemata)
      invariant forall j :: 0 <= j < i ==> cores[j] < |cpu|
      invariant forall l :: 0 <= l < MAX_CPUS ==>
        (HasCpu(mask[..], l) <==> HasCpu(MaskIn(fs.cpus[0]), l) || l in cores[..i])
    {
      if cores[i] >= |cpu| {
        return Error;
      }
      CpumaskSet(cores[i], mask);
      assert cores[..i + 1] == cores[..i] + [cores[i]];
    }
    assert cores[..|cores|] == cores;
    WrittenAdds(fs.cpus, 0, Members(cores), mask[..]);
    ret := WriteMask(fs, 0, mask);
  }

  /** The lowest group whose mask holds the core. */
  method OsAllocAssocGet(fs: ResctrlFs, cap: Cap, cpu: seq<CoreInfo>, lcore: nat) returns (ret: RetVal, c: nat)
    requires SmallCores(cpu)
    ensures Lookup(cpu, lcore).None? <==> ret == Param
    ensures ret == Ok ==> c < GrpsNum(cap) && lcore < MAX_CPUS && c in fs.cpus && HasCpu(MaskIn(fs.cpus[c]), lcore)
    ensures ret == Ok ==> forall i :: 0 <= i < c ==> i in fs.cpus && !HasCpu(MaskIn(fs.cpus[i]), lcore)
    ensures ret == Error && lcore < MAX_CPUS && (forall i :: 0 <= i < GrpsNum(cap) ==> i in fs.cpus) ==>
      forall i :: 0 <= i < GrpsNum(cap) ==> !HasCpu(MaskIn(fs.cpus[i]), lcore)
    ensures ret == Ok || ret == Error || ret == Param
  {
    hide TextFrom, Nibbles, TabOf, HasCpu, MaskIn;
    c := 0;
    var info := GetCoreInfo(cpu, lcore);
    if info.None? {
      return Param, c;
    }
    var mask := new Byte[TAB_SIZE];
    for i := 0 to GrpsNum(cap)
      invariant mask.Length == TAB_SIZE && fresh(mask)
      invariant forall j :: 0 <= j < i ==> j in fs.cpus && !HasCpu(MaskIn(fs.cpus[j]), lcore)
    {
      ret := ReadMask(fs, i, mask);
      if ret != Ok {
        return;
      }
      var found := CpumaskGet(lcore, mask);
      if found {
        return Ok, i;
      }
    }
    ret := Error;
  }

  /** Shown without its leading zero groups, in at most 511 characters, the file then reads as exactly the old
      mask and the added cores. */
  lemma SetThenRead(before: map<nat, string>, c: nat, cores: set<nat>, after: map<nat, string>, shown: string,
      z: string, l: nat)
    requires CoresAdded(before, c, cores, after) && l < MAX_CPUS
    requires ZeroText(z) && z + shown == after[c] && |shown| < TAB_SIZE
    ensures HasCpu(MaskIn(shown), l) <==> HasCpu(MaskIn(before[c]), l) || l in cores
  {
    hide TextFrom, Nibbles, TabOf, HasCpu, MaskIn;
    var tab := TabOf(Nibbles(after[c]));
    ShortTextReadsBack(tab, z, shown);
  }
}
