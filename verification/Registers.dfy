/** The model-specific registers of the machine, and failing access to them.

    ASSOC is per logical core. L3 masks, MBA throttles and the CDP enable register are
    shared by a socket, L2 masks by an L2 cluster; they are reached through any core of it.
 */
module Registers {
  import opened Bits
  import opened Topology

  // ----- the ASSOC register: COS in bits 63..32, RMID in bits 9..0 -----

  const COS_SHIFT: nat := 0x1_0000_0000
  const RMID_LIMIT: nat := 1024

  function Cos(w: Word): UInt {
    w / COS_SHIFT
  }

  function Rmid(w: Word): nat {
    w % RMID_LIMIT
  }

  /** Replaces bits 63..32 and keeps the rest. */
  function WithCos(w: Word, c: UInt): Word {
    w % COS_SHIFT + c * COS_SHIFT
  }

  /** Keeps bits 63..32 and clears the rest but for the RMID. */
  function WithRmid(w: Word, r: nat): Word {
    w / COS_SHIFT * COS_SHIFT + r % RMID_LIMIT
  }

  /** The two halves of ASSOC do not disturb each other. */
  lemma AssocFields(w: Word, c: UInt, r: nat)
    ensures Cos(WithCos(w, c)) == c
    ensures Rmid(WithCos(w, c)) == Rmid(w)
    ensures WithCos(w, c) % COS_SHIFT == w % COS_SHIFT
    ensures Cos(WithRmid(w, r)) == Cos(w)
    ensures Rmid(WithRmid(w, r)) == r % RMID_LIMIT
    ensures r < RMID_LIMIT ==> Rmid(WithRmid(w, r)) == r
  {
    assert WithCos(w, c) / COS_SHIFT == c;
    LowBits(w % COS_SHIFT, c);
    LowBits(w % COS_SHIFT, w / COS_SHIFT);
    LowBits(r % RMID_LIMIT, w / COS_SHIFT);
    assert WithRmid(w, r) / COS_SHIFT == w / COS_SHIFT;
  }

  /** The RMID is that of the low half. */
  lemma LowBits(low: nat, high: nat)
    ensures (low + high * COS_SHIFT) % RMID_LIMIT == low % RMID_LIMIT
  {
    var k := low / RMID_LIMIT + high * 0x40_0000;
    assert low + high * COS_SHIFT == k * RMID_LIMIT + low % RMID_LIMIT;
  }

  /** The last COS written wins, and writing the COS already held changes nothing. */
  lemma AssocRewrite(w: Word, c: UInt, d: UInt)
    ensures WithCos(WithCos(w, c), d) == WithCos(w, d)
    ensures WithCos(w, Cos(w)) == w
  {
    AssocFields(w, c, 0);
  }

  // ----- the register file -----

  datatype Reg = Assoc | L3Mask(index: nat) | L2Mask(index: nat) | MbaThrottle(index: nat) | L3QosCfg

  /** What does not change: topology, number of registers, and which masks are too short. */
  datatype Chip = Chip(
    cpu: seq<CoreInfo>,
    l3Regs: nat, l2Regs: nat, mbaRegs: nat,
    l3Min: nat, l2Min: nat,
    ignoresShort: bool)

  datatype Regs = Regs(
    assoc: map<nat, Word>,
    l3: map<(nat, nat), Word>,
    l2: map<(nat, nat), Word>,
    mba: map<(nat, nat), Word>,
    cfg: map<nat, Word>)

  ghost predicate HasBank(cpu: seq<CoreInfo>, scope: Scope, size: nat, bank: map<(nat, nat), Word>) {
    forall k: (nat, nat) :: k in bank <==> HasId(cpu, scope, k.0) && k.1 < size
  }

  ghost predicate ValidRegs(chip: Chip, r: Regs) {
    && WellFormed(chip.cpu)
    && r.assoc.Keys == Lcores(chip.cpu)
    && HasBank(chip.cpu, Socket, chip.l3Regs, r.l3)
    && HasBank(chip.cpu, L2Cluster, chip.l2Regs, r.l2)
    && HasBank(chip.cpu, Socket, chip.mbaRegs, r.mba)
    && (forall s :: s in r.cfg <==> HasId(chip.cpu, Socket, s))
  }

  /** Whether the hardware takes this value for this register. */
  predicate TooShort(chip: Chip, reg: Reg, val: Word) {
    match reg
    case L3Mask(_) => BitCount(val) < chip.l3Min
    case L2Mask(_) => BitCount(val) < chip.l2Min
    case _ => false
  }

  predicate Present(chip: Chip, lcore: nat, reg: Reg) {
    Lookup(chip.cpu, lcore).Some? &&
    match reg
    case Assoc => true
    case L3Mask(i) => i < chip.l3Regs
    case L2Mask(i) => i < chip.l2Regs
    case MbaThrottle(i) => i < chip.mbaRegs
    case L3QosCfg => true
  }

  /** Whether a write that meets no fault is accepted (possibly ignored). */
  predicate Accepts(chip: Chip, lcore: nat, reg: Reg, val: Word) {
    Present(chip, lcore, reg) && (TooShort(chip, reg, val) ==> chip.ignoresShort)
  }

  function Fetch(chip: Chip, r: Regs, lcore: nat, reg: Reg): Word
    requires ValidRegs(chip, r) && Present(chip, lcore, reg)
  {
    var c := Lookup(chip.cpu, lcore).value;
    match reg
    case Assoc => r.assoc[lcore]
    case L3Mask(i) => r.l3[(c.socket, i)]
    case L2Mask(i) => r.l2[(c.l2Id, i)]
    case MbaThrottle(i) => r.mba[(c.socket, i)]
    case L3QosCfg => r.cfg[c.socket]
  }

  /** The registers after an accepted write. */
  function Store(chip: Chip, r: Regs, lcore: nat, reg: Reg, val: Word): (r': Regs)
    requires Accepts(chip, lcore, reg, val)
  {
    var c := Lookup(chip.cpu, lcore).value;
    if TooShort(chip, reg, val) then r
    else
      match reg
      case Assoc => r.(assoc := r.assoc[lcore := val])
      case L3Mask(i) => r.(l3 := r.l3[(c.socket, i) := val])
      case L2Mask(i) => r.(l2 := r.l2[(c.l2Id, i) := val])
      case MbaThrottle(i) => r.(mba := r.mba[(c.socket, i) := val])
      case L3QosCfg => r.(cfg := r.cfg[c.socket := val])
  }

  // ----- banks of class-definition registers, one bank per socket or L2 cluster -----

  type Bank = map<(nat, nat), Word>

  datatype Kind = L3Masks | L2Masks | Throttles {
    function Scope(): Scope {
      if this == L2Masks then L2Cluster else Socket
    }

    function Size(chip: Chip): nat {
      match this
      case L3Masks => chip.l3Regs
      case L2Masks => chip.l2Regs
      case Throttles => chip.mbaRegs
    }

    /** Fewest set bits the hardware takes. */
    function Min(chip: Chip): nat {
      match this
      case L3Masks => chip.l3Min
      case L2Masks => chip.l2Min
      case Throttles => 0
    }

    function At(index: nat): Reg {
      match this
      case L3Masks => L3Mask(index)
      case L2Masks => L2Mask(index)
      case Throttles => MbaThrottle(index)
    }

    function Of(r: Regs): Bank {
      match this
      case L3Masks => r.l3
      case L2Masks => r.l2
      case Throttles => r.mba
    }

    function With(r: Regs, bank: Bank): Regs {
      match this
      case L3Masks => r.(l3 := bank)
      case L2Masks => r.(l2 := bank)
      case Throttles => r.(mba := bank)
    }
  }

  function Put(bank: Bank, min: nat, id: nat, w: (nat, Word)): Bank {
    if BitCount(w.1) < min then bank else bank[(id, w.0) := w.1]
  }

  /** The bank after the writes, in order; the hardware ignores values with fewer than `min` bits. */
  function PutAll(bank: Bank, min: nat, id: nat, ws: seq<(nat, Word)>): Bank {
    if ws == [] then bank
    else Put(PutAll(bank, min, id, ws[..|ws| - 1]), min, id, ws[|ws| - 1])
  }

  lemma PutNone(bank: Bank, min: nat, id: nat)
    ensures PutAll(bank, min, id, []) == bank
  {
  }

  lemma PutOneMore(bank: Bank, min: nat, id: nat, ws: seq<(nat, Word)>, w: (nat, Word))
    ensures PutAll(bank, min, id, ws + [w]) == Put(PutAll(bank, min, id, ws), min, id, w)
  {
    assert (ws + [w])[..|ws|] == ws;
  }

  lemma {:induction false} PutMore(bank: Bank, min: nat, id: nat, ws: seq<(nat, Word)>, vs: seq<(nat, Word)>)
    ensures PutAll(bank, min, id, ws + vs) == PutAll(PutAll(bank, min, id, ws), min, id, vs)
  {
    if vs == [] {
      assert ws + vs == ws;
    } else {
      var front, last := vs[..|vs| - 1], vs[|vs| - 1];
      PutMore(bank, min, id, ws, front);
      assert ws + vs == ws + front + [last];
      PutOneMore(bank, min, id, ws + front, last);
    }
  }

  /** The write lands in a register that exists and is not refused for being short. */
  predicate Writable(chip: Chip, kind: Kind, w: (nat, Word)) {
    w.0 < kind.Size(chip) && (BitCount(w.1) < kind.Min(chip) ==> chip.ignoresShort)
  }

  ghost predicate AllWritable(chip: Chip, kind: Kind, ws: seq<(nat, Word)>) {
    forall i :: 0 <= i < |ws| ==> Writable(chip, kind, ws[i])
  }

  /** The parts of a valid register file that the operations lean on. */
  lemma ShapeOf(chip: Chip, r: Regs)
    requires ValidRegs(chip, r)
    ensures r.assoc.Keys == Lcores(chip.cpu) && WellFormed(chip.cpu)
  {
  }

  lemma InBank(chip: Chip, r: Regs, kind: Kind, id: nat, index: nat)
    requires ValidRegs(chip, r) && HasId(chip.cpu, kind.Scope(), id)
    ensures (id, index) in kind.Of(r) <==> index < kind.Size(chip)
  {
  }

  lemma StoreKeepsShape(chip: Chip, r: Regs, lcore: nat, reg: Reg, val: Word)
    requires ValidRegs(chip, r) && Accepts(chip, lcore, reg, val)
    ensures ValidRegs(chip, Store(chip, r, lcore, reg, val))
  {
  }

  // ----- counting failing accesses -----

  /** How many of the accesses number `from` to `to` - 1 met a fault. */
  ghost function Failures(fails: nat -> bool, from: nat, to: nat): nat {
    if to <= from then 0 else Failures(fails, from, to - 1) + if fails(to - 1) then 1 else 0
  }

  /** The number of the access `n` before the current one, or of the first. */
  function Before(clock: nat, n: nat): nat {
    if clock < n then 0 else clock - n
  }

  lemma {:induction false} FailuresAdd(fails: nat -> bool, a: nat, b: nat, c: nat)
    requires a <= b <= c
    ensures Failures(fails, a, c) == Failures(fails, a, b) + Failures(fails, b, c)
  {
    if b < c {
      FailuresAdd(fails, a, b, c - 1);
    }
  }

  /** More accesses, more failures. */
  lemma FailuresWithin(fails: nat -> bool, wide: nat, from: nat, to: nat)
    requires wide <= from <= to
    ensures Failures(fails, from, to) <= Failures(fails, wide, to)
  {
    FailuresAdd(fails, wide, from, to);
  }

  lemma {:induction false} NoFailures(fails: nat -> bool, from: nat, to: nat)
    ensures Failures(fails, from, to) == 0 <==> forall n: nat :: from <= n < to ==> !fails(n)
  {
    if from < to {
      NoFailures(fails, from, to - 1);
      assert Failures(fails, from, to) == 0 ==> !fails(to - 1);
    }
  }

  lemma TwoFailures(fails: nat -> bool, from: nat, mid: nat, to: nat)
    requires from <= mid <= to
    ensures (exists n: nat :: from <= n < mid && fails(n)) && (exists n: nat :: mid <= n < to && fails(n)) ==>
      Failures(fails, from, to) >= 2
  {
    FailuresAdd(fails, from, mid, to);
    NoFailures(fails, from, mid);
    NoFailures(fails, mid, to);
  }

  /** Going through `wanted`, an operation misses at most one for each access that fails. */
  ghost predicate BestEffort(fails: nat -> bool, from: nat, to: nat, wanted: set<nat>, done: set<nat>) {
    from <= to && |wanted - done| <= Failures(fails, from, to)
  }

  lemma NothingWanted(fails: nat -> bool, from: nat, to: nat, done: set<nat>)
    requires from <= to
    ensures BestEffort(fails, from, to, {}, done)
  {
  }

  /** One more is wanted: it is done, or one more access failed. */
  lemma OneMoreMissed(fails: nat -> bool, from: nat, mid: nat, to: nat, wanted: set<nat>, done: set<nat>, l: nat,
      done': set<nat>)
    requires BestEffort(fails, from, mid, wanted, done) && mid <= to && done <= done'
    requires l in done' || exists n: nat :: mid <= n < to && fails(n)
    ensures BestEffort(fails, from, to, wanted + {l}, done')
  {
    FailuresAdd(fails, from, mid, to);
    NoFailures(fails, mid, to);
    var missed, missed' := wanted - done, wanted + {l} - done';
    if l in missed' {
      SubsetSize(missed', missed + {l});
      assert l in missed ==> missed + {l} == missed;
    } else {
      SubsetSize(missed', missed);
    }
  }

  /** The same where only what is known can be done. */
  lemma OneMoreWanted(fails: nat -> bool, from: nat, mid: nat, to: nat, wanted: set<nat>, known: set<nat>,
      done: set<nat>, l: nat, done': set<nat>)
    requires BestEffort(fails, from, mid, wanted * known, done) && mid <= to && done <= done'
    requires l in known ==> l in done' || exists n: nat :: mid <= n < to && fails(n)
    ensures BestEffort(fails, from, to, (wanted + {l}) * known, done')
  {
    if l in known {
      OneMoreMissed(fails, from, mid, to, wanted * known, done, l, done');
      assert (wanted + {l}) * known == wanted * known + {l};
    } else {
      FailuresAdd(fails, from, mid, to);
      SubsetSize(wanted * known - done', wanted * known - done);
      assert (wanted + {l}) * known == wanted * known;
    }
  }

  lemma WiderEffort(fails: nat -> bool, wide: nat, from: nat, to: nat, later: nat, wanted: set<nat>, done: set<nat>)
    requires BestEffort(fails, from, to, wanted, done) && wide <= from && to <= later
    ensures BestEffort(fails, wide, later, wanted, done)
  {
    FailuresWithin(fails, wide, from, to);
    FailuresAdd(fails, wide, to, later);
  }

  /** What was wanted and not done is at most as much as accesses failed. */
  lemma FewMissed(fails: nat -> bool, from: nat, to: nat, wanted: set<nat>, done: set<nat>, left: set<nat>)
    requires BestEffort(fails, from, to, wanted, done) && left <= wanted - done
    ensures |left| <= Failures(fails, from, to)
  {
    SubsetSize(left, wanted - done);
  }

  /** What failed before the undo, and in it, in terms of the whole call and of its last accesses. */
  lemma UndoneSince(fails: nat -> bool, start: nat, first: nat, from: nat, to: nat, most: nat)
    requires start <= first <= from <= to <= from + most
    ensures Failures(fails, from, to) <= Failures(fails, start, to)
    ensures (exists n: nat :: first <= n < from && fails(n)) ==>
      Failures(fails, from, to) < Failures(fails, start, to)
    ensures (forall n: nat :: Before(to, most) <= n < to ==> !fails(n)) ==> Failures(fails, from, to) == 0
  {
    FailuresAdd(fails, start, from, to);
    NoFailures(fails, start, from);
    NoFailures(fails, from, to);
  }

  /** Register access. Every access consumes one answer of the fault oracle. */
  class Msr {
    const chip: Chip
    const fails: nat -> bool
    var clock: nat
    var regs: Regs

    ghost predicate Valid()
      reads this
    {
      ValidRegs(chip, regs)
    }

    /** None of the accesses number `from` to `to` - 1 met a fault. */
    ghost predicate NoFault(from: nat, to: nat) {
      forall n: nat :: from <= n < to ==> !fails(n)
    }

    constructor (chip: Chip, fails: nat -> bool, regs: Regs)
      requires ValidRegs(chip, regs)
      ensures Valid() && this.chip == chip && this.fails == fails && this.regs == regs
    {
      this.chip, this.fails, this.clock, this.regs := chip, fails, 0, regs;
    }

    method Read(lcore: nat, reg: Reg) returns (ok: bool, val: Word)
      requires Valid()
      modifies this`clock
      ensures Valid() && clock == old(clock) + 1
      ensures ok <==> !fails(old(clock)) && Present(chip, lcore, reg)
      ensures ok ==> val == Fetch(chip, regs, lcore, reg)
    {
      ok := !fails(clock) && Present(chip, lcore, reg);
      clock := clock + 1;
      val := if ok then Fetch(chip, regs, lcore, reg) else 0;
    }

    /** Access to a register outside this register file. */
    method Touch(lcore: nat) returns (ok: bool)
      requires Valid()
      modifies this`clock
      ensures Valid() && clock == old(clock) + 1
      ensures ok <==> !fails(old(clock)) && Lookup(chip.cpu, lcore).Some?
    {
      ok := !fails(clock) && Lookup(chip.cpu, lcore).Some?;
      clock := clock + 1;
    }

    method Write(lcore: nat, reg: Reg, val: Word) returns (ok: bool)
      requires Valid()
      modifies this
      ensures Valid() && clock == old(clock) + 1
      ensures ok <==> !fails(old(clock)) && Accepts(chip, lcore, reg, val)
      ensures regs == if ok then Store(chip, old(regs), lcore, reg, val) else old(regs)
    {
      ok := !fails(clock) && Accepts(chip, lcore, reg, val);
      clock := clock + 1;
      if ok {
        StoreKeepsShape(chip, regs, lcore, reg, val);
        regs := Store(chip, regs, lcore, reg, val);
      }
    }
  }

  /** A bank write through the bank's representative core. */
  lemma StoreInBank(chip: Chip, r: Regs, kind: Kind, id: nat, core: nat, w: (nat, Word))
    requires ValidRegs(chip, r)
    requires First(chip.cpu, kind.Scope(), id).Some? && core == First(chip.cpu, kind.Scope(), id).value.lcore
    ensures Accepts(chip, core, kind.At(w.0), w.1) <==> Writable(chip, kind, w)
    ensures Writable(chip, kind, w) ==>
      Store(chip, r, core, kind.At(w.0), w.1) == kind.With(r, Put(kind.Of(r), kind.Min(chip), id, w))
  {
    LookupIsUnique(chip.cpu, First(chip.cpu, kind.Scope(), id).value);
  }

  lemma WithTwice(kind: Kind, r: Regs, a: Bank, b: Bank)
    ensures kind.With(kind.With(r, a), b) == kind.With(r, b)
    ensures kind.Of(kind.With(r, a)) == a
  {
  }

  /** Writes to one bank through its representative core, stopping at the first failure. */
  method WriteBank(hw: Msr, kind: Kind, id: nat, core: nat, ws: seq<(nat, Word)>)
      returns (ok: bool, ghost done: seq<(nat, Word)>)
    requires hw.Valid()
    requires First(hw.chip.cpu, kind.Scope(), id).Some? && core == First(hw.chip.cpu, kind.Scope(), id).value.lcore
    modifies hw
    ensures hw.Valid() && hw.clock >= old(hw.clock)
    ensures done <= ws && (ok ==> done == ws)
    ensures hw.clock <= old(hw.clock) + |ws|
    ensures hw.regs == kind.With(old(hw.regs), PutAll(kind.Of(old(hw.regs)), kind.Min(hw.chip), id, done))
    ensures AllWritable(hw.chip, kind, done)
    ensures hw.NoFault(old(hw.clock), hw.clock) && AllWritable(hw.chip, kind, ws) ==> ok
  {
    hide ValidRegs, WellFormed, PutAll, Put;
    done, ok := [], true;
    ghost var bank, min := kind.Of(hw.regs), kind.Min(hw.chip);
    PutNone(bank, min, id);
    assert kind.With(hw.regs, bank) == hw.regs;
    for i := 0 to |ws|
      invariant hw.Valid() && hw.clock == old(hw.clock) + i && ok
      invariant done == ws[..i]
      invariant hw.regs == kind.With(old(hw.regs), PutAll(bank, min, id, done))
      invariant AllWritable(hw.chip, kind, done)
    {
      assert ws[..i + 1] == ws[..i] + [ws[i]];
      StoreInBank(hw.chip, hw.regs, kind, id, core, ws[i]);
      WithTwice(kind, old(hw.regs), PutAll(bank, min, id, done), Put(PutAll(bank, min, id, done), min, id, ws[i]));
      PutOneMore(bank, min, id, done, ws[i]);
      ok := hw.Write(core, kind.At(ws[i].0), ws[i].1);
      if !ok {
        return;
      }
      done := done + [ws[i]];
    }
  }

  method ReadBank(hw: Msr, kind: Kind, id: nat, core: nat, index: nat) returns (ok: bool, val: Word)
    requires hw.Valid()
    requires First(hw.chip.cpu, kind.Scope(), id).Some? && core == First(hw.chip.cpu, kind.Scope(), id).value.lcore
    modifies hw`clock
    ensures hw.Valid() && hw.clock >= old(hw.clock)
    ensures ok ==> index < kind.Size(hw.chip) && (id, index) in kind.Of(hw.regs) && val == kind.Of(hw.regs)[(id, index)]
    ensures hw.NoFault(old(hw.clock), hw.clock) && index < kind.Size(hw.chip) ==> ok
  {
    LookupIsUnique(hw.chip.cpu, First(hw.chip.cpu, kind.Scope(), id).value);
    ok, val := hw.Read(core, kind.At(index));
  }
}
