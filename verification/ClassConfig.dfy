/** Defining classes of service: the L3, L2 and MBA setters and getters on registers. */
module ClassConfig {
  import opened Bits
  import opened Results
  import opened Topology
  import opened Registers
  import opened Capabilities
  import opened MbaRate

  datatype L3Ca =
    | L3Ways(classId: nat, ways: Word)
    | L3Cdp(classId: nat, data: Word, code: Word)

  datatype L2Ca = L2Ca(classId: nat, ways: UInt)

  datatype Mba = Mba(classId: nat, rate: nat)

  // ----- the register writes an operation asks for -----

  /** With CDP on, class c owns registers 2c (data) and 2c + 1 (code). */
  function L3Entry(cdpOn: bool, ca: L3Ca): seq<(nat, Word)> {
    match ca
    case L3Ways(c, m) => if cdpOn then [(2 * c, m), (2 * c + 1, m)] else [(c, m)]
    case L3Cdp(c, d, m) => if cdpOn then [(2 * c, d), (2 * c + 1, m)] else []
  }

  function L3Writes(cdpOn: bool, cas: seq<L3Ca>): seq<(nat, Word)> {
    if cas == [] then [] else L3Writes(cdpOn, cas[..|cas| - 1]) + L3Entry(cdpOn, cas[|cas| - 1])
  }

  lemma OneEntryWrites(cdpOn: bool, ca: L3Ca)
    ensures L3Writes(cdpOn, [ca]) == L3Entry(cdpOn, ca)
  {
    assert [ca][..0] == [];
  }

  function L2Writes(cas: seq<L2Ca>): seq<(nat, Word)> {
    seq(|cas|, i requires 0 <= i < |cas| => (cas[i].classId, cas[i].ways))
  }

  function MbaWrites(cap: Cap, cos: seq<Mba>): seq<(nat, Word)>
    requires cap.mba.Some? ==> cap.mba.value.throttleStep > 0
  {
    if cap.mba.None? then []
    else seq(|cos|, i requires 0 <= i < |cos| => (cos[i].classId, MsrThrottle(cap.mba.value, cos[i].rate)))
  }

  lemma {:induction false} L3WritesPrefix(cdpOn: bool, cas: seq<L3Ca>, i: nat)
    requires i <= |cas|
    ensures L3Writes(cdpOn, cas[..i]) <= L3Writes(cdpOn, cas)
    ensures i < |cas| ==>
      L3Writes(cdpOn, cas[..i]) + L3Entry(cdpOn, cas[i]) == L3Writes(cdpOn, cas[..i + 1]) <= L3Writes(cdpOn, cas)
    decreases |cas| - i
  {
    if i == |cas| {
      assert cas[..i] == cas;
    } else {
      var next := cas[..i + 1];
      assert next[..i] == cas[..i] && next[i] == cas[i] && |next| == i + 1;
      assert L3Writes(cdpOn, next) == L3Writes(cdpOn, cas[..i]) + L3Entry(cdpOn, cas[i]);
      L3WritesPrefix(cdpOn, cas, i + 1);
    }
  }

  // ----- the masks an entry carries -----

  ghost predicate EntryIsRun(ca: L3Ca) {
    match ca
    case L3Ways(_, m) => IsRun(m)
    case L3Cdp(_, d, c) => IsRun(d) && IsRun(c)
  }

  ghost predicate WritesAreRuns(ws: seq<(nat, Word)>) {
    forall i :: 0 <= i < |ws| ==> IsRun(ws[i].1)
  }

  lemma {:induction false} EntriesWriteRuns(cdpOn: bool, cas: seq<L3Ca>)
    requires forall i :: 0 <= i < |cas| ==> EntryIsRun(cas[i])
    ensures WritesAreRuns(L3Writes(cdpOn, cas))
  {
    if cas != [] {
      var front, last := cas[..|cas| - 1], cas[|cas| - 1];
      EntriesWriteRuns(cdpOn, front);
      assert EntryIsRun(last);
      assert WritesAreRuns(L3Entry(cdpOn, last));
    }
  }

  /** What a set of contiguous L3 masks does, complete or cut short after the writes `ws`. */
  ghost predicate L3SetStep(chip: Chip, before: Regs, socket: nat, ws: seq<(nat, Word)>, after: Regs) {
    WritesAreRuns(ws) && after == before.(l3 := PutAll(before.l3, chip.l3Min, socket, ws))
  }

  ghost predicate L2SetStep(chip: Chip, before: Regs, l2id: nat, ws: seq<(nat, Word)>, after: Regs) {
    WritesAreRuns(ws) && after == before.(l2 := PutAll(before.l2, chip.l2Min, l2id, ws))
  }

  // ----- setters -----

  lemma NoWrites(cdpOn: bool, cas: seq<L3Ca>)
    ensures L3Writes(cdpOn, cas[..0]) == []
  {
  }

  /** The writing loop of the L3 setter: a CDP entry is refused when CDP is off. */
  method WriteL3Entries(hw: Msr, cdpOn: bool, socket: nat, core: nat, cas: seq<L3Ca>)
    returns (ok: bool, ghost ws: seq<(nat, Word)>)
    requires hw.Valid()
    requires First(hw.chip.cpu, Socket, socket).Some? && core == First(hw.chip.cpu, Socket, socket).value.lcore
    modifies hw
    ensures hw.Valid() && hw.clock >= old(hw.clock)
    ensures ws <= L3Writes(cdpOn, cas) && AllWritable(hw.chip, L3Masks, ws)
    ensures hw.regs == old(hw.regs).(l3 := PutAll(old(hw.regs.l3), hw.chip.l3Min, socket, ws))
    ensures ok ==> ws == L3Writes(cdpOn, cas) && NoCdpEntry(cdpOn, cas)
    ensures hw.clock <= old(hw.clock) + |L3Writes(cdpOn, cas)|
    ensures hw.NoFault(old(hw.clock), hw.clock) && NoCdpEntry(cdpOn, cas) && EntriesWritable(hw.chip, cdpOn, cas) ==> ok
  {
    hide ValidRegs, WellFormed, PutAll, L3Entry, L3Writes, Writable;
    PutNone(hw.regs.l3, hw.chip.l3Min, socket);
    NoWrites(cdpOn, cas);
    ws := [];
    for i := 0 to |cas|
      invariant hw.Valid() && old(hw.clock) <= hw.clock <= old(hw.clock) + |ws|
      invariant ws == L3Writes(cdpOn, cas[..i])
      invariant AllWritable(hw.chip, L3Masks, ws)
      invariant hw.regs == old(hw.regs).(l3 := PutAll(old(hw.regs.l3), hw.chip.l3Min, socket, ws))
      invariant forall j :: 0 <= j < i && cas[j].L3Cdp? ==> cdpOn
    {
      L3WritesPrefix(cdpOn, cas, i);
      if !cdpOn && cas[i].L3Cdp? {
        return false, ws;
      }
      ghost var done;
      ok, done := WriteBank(hw, L3Masks, socket, core, L3Entry(cdpOn, cas[i]));
      PutMore(old(hw.regs.l3), hw.chip.l3Min, socket, ws, done);
      ws := ws + done;
      if !ok {
        return;
      }
    }
    assert cas[..|cas|] == cas;
    ok := true;
  }

  ghost predicate NoCdpEntry(cdpOn: bool, cas: seq<L3Ca>) {
    forall i :: 0 <= i < |cas| && cas[i].L3Cdp? ==> cdpOn
  }

  ghost predicate EntriesWritable(chip: Chip, cdpOn: bool, cas: seq<L3Ca>) {
    forall i :: 0 <= i < |cas| ==> AllWritable(chip, L3Masks, L3Entry(cdpOn, cas[i]))
  }

  /** `ws` are the register writes that were made; a failure leaves a prefix. */
  method HwL3caSet(hw: Msr, cap: Cap, socket: nat, cas: seq<L3Ca>) returns (ret: RetVal, ghost ws: seq<(nat, Word)>)
    requires hw.Valid() && cas != []
    modifies hw
    ensures hw.Valid() && hw.clock >= old(hw.clock)
    ensures ws <= L3Writes(cap.CdpOn(), cas) && AllWritable(hw.chip, L3Masks, ws)
    ensures hw.regs == old(hw.regs).(l3 := PutAll(old(hw.regs.l3), hw.chip.l3Min, socket, ws))
    ensures cap.l3.None? <==> ret == Resource
    ensures ws != [] ==> HasId(hw.chip.cpu, Socket, socket)
    ensures ret == Ok ==> L3SetAllowed(hw.chip, cap, socket, cas) && ws == L3Writes(cap.CdpOn(), cas)
    ensures hw.clock <= old(hw.clock) + |L3Writes(cap.CdpOn(), cas)|
    ensures hw.NoFault(old(hw.clock), hw.clock) && L3SetAllowed(hw.chip, cap, socket, cas)
      && EntriesWritable(hw.chip, cap.CdpOn(), cas)
      ==> ret == Ok
  {
    hide ValidRegs, WellFormed, PutAll;
    PutNone(hw.regs.l3, hw.chip.l3Min, socket);
    ws := [];
    if cap.l3.None? {
      return Resource, ws;
    }
    if |cas| > cap.l3.value.numClasses {
      return Error, ws;
    }
    var core := GetOne(hw.chip.cpu, Socket, socket);
    if core.None? {
      return Error, ws;
    }
    var ok;
    ok, ws := WriteL3Entries(hw, cap.l3.value.cdpOn, socket, core.value, cas);
    ret := if ok then Ok else Error;
  }

  ghost predicate L3SetAllowed(chip: Chip, cap: Cap, socket: nat, cas: seq<L3Ca>) {
    && cap.l3.Some? && |cas| <= cap.L3Classes() && HasId(chip.cpu, Socket, socket)
    && NoCdpEntry(cap.CdpOn(), cas)
  }

  ghost predicate L2SetAllowed(chip: Chip, cap: Cap, l2id: nat, cas: seq<L2Ca>) {
    && cap.l2.Some? && HasId(chip.cpu, L2Cluster, l2id)
    && (forall i :: 0 <= i < |cas| ==> cas[i].classId < cap.L2Classes())
  }

  ghost predicate MbaSetAllowed(chip: Chip, cap: Cap, socket: nat, cos: seq<Mba>) {
    && cap.mba.Some? && cap.mba.value.isLinear && HasId(chip.cpu, Socket, socket)
    && (forall i :: 0 <= i < |cos| ==> cos[i].classId < cap.MbaClasses())
  }

  method HwL2caSet(hw: Msr, cap: Cap, l2id: nat, cas: seq<L2Ca>) returns (ret: RetVal, ghost ws: seq<(nat, Word)>)
    requires hw.Valid() && cas != []
    modifies hw
    ensures hw.Valid() && hw.clock >= old(hw.clock)
    ensures ws <= L2Writes(cas) && AllWritable(hw.chip, L2Masks, ws)
    ensures hw.regs == old(hw.regs).(l2 := PutAll(old(hw.regs.l2), hw.chip.l2Min, l2id, ws))
    ensures !L2SetAllowed(hw.chip, cap, l2id, cas) ==> ret != Ok && ws == []
    ensures cap.l2.None? ==> ret == Resource
    ensures ret == Ok ==> ws == L2Writes(cas)
    ensures hw.clock <= old(hw.clock) + |L2Writes(cas)|
    ensures hw.NoFault(old(hw.clock), hw.clock) && L2SetAllowed(hw.chip, cap, l2id, cas)
      && AllWritable(hw.chip, L2Masks, L2Writes(cas))
      ==> ret == Ok
  {
    hide ValidRegs, WellFormed, PutAll;
    PutNone(hw.regs.l2, hw.chip.l2Min, l2id);
    ws := [];
    if cap.l2.None? {
      return Resource, ws;
    }
    for i := 0 to |cas|
      invariant forall j :: 0 <= j < i ==> cas[j].classId < cap.L2Classes()
    {
      if cas[i].classId >= cap.l2.value.numClasses {
        return Param, ws;
      }
    }
    var core := GetOne(hw.chip.cpu, L2Cluster, l2id);
    if core.None? {
      return Error, ws;
    }
    var ok;
    ok, ws := WriteBank(hw, L2Masks, l2id, core.value, L2Writes(cas));
    ret := if ok then Ok else Error;
  }

  /** The writing loop of the MBA setter, reading each register back if a report is asked for. */
  method WriteThrottles(hw: Msr, cap: Cap, socket: nat, core: nat, cos: seq<Mba>, report: bool)
    returns (ok: bool, actual: seq<Mba>, ghost ws: seq<(nat, Word)>)
    requires hw.Valid() && cap.mba.Some? && cap.mba.value.throttleStep > 0
    requires First(hw.chip.cpu, Socket, socket).Some? && core == First(hw.chip.cpu, Socket, socket).value.lcore
    modifies hw
    ensures hw.Valid() && hw.clock >= old(hw.clock)
    ensures ws <= MbaWrites(cap, cos) && AllWritable(hw.chip, Throttles, ws)
    ensures hw.regs == old(hw.regs).(mba := PutAll(old(hw.regs.mba), 0, socket, ws))
    ensures ok ==> ws == MbaWrites(cap, cos) && (report ==> Reported(cap.mba.value, cos, actual))
    ensures !report ==> actual == []
    ensures hw.NoFault(old(hw.clock), hw.clock) && AllWritable(hw.chip, Throttles, MbaWrites(cap, cos)) ==> ok
  {
    hide ValidRegs, WellFormed, PutAll;
    PutNone(hw.regs.mba, 0, socket);
    ok, ws, actual := true, [], [];
    var all := MbaWrites(cap, cos);
    for i := 0 to |cos|
      invariant hw.Valid() && hw.clock >= old(hw.clock) && ok
      invariant ws == all[..i]
      invariant AllWritable(hw.chip, Throttles, ws)
      invariant hw.regs == old(hw.regs).(mba := PutAll(old(hw.regs.mba), 0, socket, ws))
      invariant if report then Reported(cap.mba.value, cos[..i], actual) else actual == []
    {
      assert all[..i + 1] == all[..i] + [all[i]];
      ghost var done;
      ok, done := WriteBank(hw, Throttles, socket, core, [all[i]]);
      PutMore(old(hw.regs.mba), 0, socket, ws, done);
      ws := ws + done;
      if !ok {
        return;
      }
      PutOneMore(old(hw.regs.mba), 0, socket, all[..i], all[i]);
      if !report {
        continue;
      }
      assert hw.regs.mba[(socket, cos[i].classId)] == MsrThrottle(cap.mba.value, cos[i].rate);
      var val;
      ok, val := ReadBank(hw, Throttles, socket, core, cos[i].classId);
      if !ok {
        return;
      }
      actual := actual + [Mba(cos[i].classId, (LINEAR_MAX - val) % UINT_LIMIT)];
      assert cos[..i + 1] == cos[..i] + [cos[i]];
    }
    assert cos[..|cos|] == cos;
  }

  /** Each entry as it took effect. */
  ghost predicate Reported(mba: MbaCap, cos: seq<Mba>, actual: seq<Mba>)
    requires mba.throttleStep > 0
  {
    |actual| == |cos| && forall i :: 0 <= i < |cos| ==>
      actual[i].classId == cos[i].classId && actual[i].rate == MsrRate(mba, cos[i].rate) % UINT_LIMIT
  }

  /** Rates are rounded; `actual` reports the rate read back from each register, if asked for. */
  method HwMbaSet(hw: Msr, cap: Cap, socket: nat, cos: seq<Mba>, report: bool)
    returns (ret: RetVal, actual: seq<Mba>, ghost ws: seq<(nat, Word)>)
    requires hw.Valid() && cos != []
    requires cap.mba.Some? ==> cap.mba.value.throttleStep > 0
    modifies hw
    ensures hw.Valid() && hw.clock >= old(hw.clock)
    ensures ws <= MbaWrites(cap, cos) && AllWritable(hw.chip, Throttles, ws)
    ensures hw.regs == old(hw.regs).(mba := PutAll(old(hw.regs.mba), 0, socket, ws))
    ensures !MbaSetAllowed(hw.chip, cap, socket, cos) ==> ret != Ok && ws == []
    ensures cap.mba.None? || !cap.mba.value.isLinear <==> ret == Resource
    ensures ret == Ok ==> ws == MbaWrites(cap, cos) && (report ==> Reported(cap.mba.value, cos, actual))
    ensures !report ==> actual == []
    ensures hw.NoFault(old(hw.clock), hw.clock) && MbaSetAllowed(hw.chip, cap, socket, cos)
      && AllWritable(hw.chip, Throttles, MbaWrites(cap, cos))
      ==> ret == Ok
  {
    hide ValidRegs, WellFormed, PutAll;
    PutNone(hw.regs.mba, 0, socket);
    ws, actual := [], [];
    if cap.mba.None? || !cap.mba.value.isLinear {
      return Resource, actual, ws;
    }
    for i := 0 to |cos|
      invariant forall j :: 0 <= j < i ==> cos[j].classId < cap.MbaClasses()
    {
      if cos[i].classId >= cap.mba.value.numClasses {
        return Param, actual, ws;
      }
    }
    var core := GetOne(hw.chip.cpu, Socket, socket);
    if core.None? {
      return Error, actual, ws;
    }
    var ok;
    ok, actual, ws := WriteThrottles(hw, cap, socket, core.value, cos, report);
    ret := if ok then Ok else Error;
  }

  // ----- getters -----

  function ReadL3(bank: Bank, socket: nat, cdpOn: bool, c: nat): L3Ca
    requires HasL3Regs(bank, socket, cdpOn, c)
  {
    if cdpOn then L3Cdp(c, bank[(socket, 2 * c)], bank[(socket, 2 * c + 1)]) else L3Ways(c, bank[(socket, c)])
  }

  predicate HasL3Regs(bank: Bank, socket: nat, cdpOn: bool, c: nat) {
    if cdpOn then (socket, 2 * c) in bank && (socket, 2 * c + 1) in bank else (socket, c) in bank
  }

  /** Number of L3 mask registers the cached classes use. */
  function L3RegsUsed(cap: Cap): nat {
    if cap.CdpOn() then 2 * cap.L3Classes() else cap.L3Classes()
  }

  method HwL3caGet(hw: Msr, cap: Cap, socket: nat, max: nat) returns (ret: RetVal, cas: seq<L3Ca>)
    requires hw.Valid()
    modifies hw`clock
    ensures hw.Valid() && hw.clock >= old(hw.clock)
    ensures cap.l3.None? ==> ret == Resource
    ensures ret == Ok ==> |cas| == cap.L3Classes() <= max && HasId(hw.chip.cpu, Socket, socket)
    ensures ret == Ok ==> forall c :: 0 <= c < |cas| ==>
      HasL3Regs(hw.regs.l3, socket, cap.CdpOn(), c) && cas[c] == ReadL3(hw.regs.l3, socket, cap.CdpOn(), c)
    ensures hw.NoFault(old(hw.clock), hw.clock) && cap.l3.Some? && cap.L3Classes() <= max
      && HasId(hw.chip.cpu, Socket, socket)
      && L3RegsUsed(cap) <= hw.chip.l3Regs
      ==> ret == Ok
  {
    hide ValidRegs, WellFormed;
    cas := [];
    if cap.l3.None? {
      return Resource, cas;
    }
    var count, cdpOn := cap.l3.value.numClasses, cap.l3.value.cdpOn;
    if count > max {
      return Error, cas;
    }
    var core := GetOne(hw.chip.cpu, Socket, socket);
    if core.None? {
      return Error, cas;
    }
    for i := 0 to count
      invariant hw.Valid() && hw.clock >= old(hw.clock) && hw.regs == old(hw.regs)
      invariant |cas| == i
      invariant forall c :: 0 <= c < i ==>
        HasL3Regs(hw.regs.l3, socket, cdpOn, c) && cas[c] == ReadL3(hw.regs.l3, socket, cdpOn, c)
    {
      var ok, val := ReadBank(hw, L3Masks, socket, core.value, if cdpOn then 2 * i else i);
      if !ok {
        return Error, cas;
      }
      if cdpOn {
        var code;
        ok, code := ReadBank(hw, L3Masks, socket, core.value, 2 * i + 1);
        if !ok {
          return Error, cas;
        }
        cas := cas + [L3Cdp(i, val, code)];
      } else {
        cas := cas + [L3Ways(i, val)];
      }
    }
    ret := Ok;
  }

  method HwL2caGet(hw: Msr, cap: Cap, l2id: nat, max: nat) returns (ret: RetVal, cas: seq<L2Ca>)
    requires hw.Valid()
    modifies hw`clock
    ensures hw.Valid() && hw.clock >= old(hw.clock)
    ensures cap.l2.None? ==> ret == Resource
    ensures ret == Ok ==> |cas| == cap.L2Classes() <= hw.chip.l2Regs && HasId(hw.chip.cpu, L2Cluster, l2id)
    ensures ret == Ok ==> forall c :: 0 <= c < |cas| ==> cas[c] == L2Ca(c, hw.regs.l2[(l2id, c)] % UINT_LIMIT)
    ensures hw.NoFault(old(hw.clock), hw.clock) && cap.l2.Some? && cap.L2Classes() <= max
      && HasId(hw.chip.cpu, L2Cluster, l2id)
      && cap.L2Classes() <= hw.chip.l2Regs
      ==> ret == Ok
  {
    hide ValidRegs, WellFormed;
    cas := [];
    if cap.l2.None? {
      return Resource, cas;
    }
    var count := cap.l2.value.numClasses;
    if max < count {
      return Param, cas;
    }
    var core := GetOne(hw.chip.cpu, L2Cluster, l2id);
    if core.None? {
      return Error, cas;
    }
    for i := 0 to count
      invariant hw.Valid() && hw.clock >= old(hw.clock) && hw.regs == old(hw.regs)
      invariant |cas| == i <= hw.chip.l2Regs
      invariant forall c :: 0 <= c < i ==>
        (l2id, c) in hw.regs.l2 && cas[c] == L2Ca(c, hw.regs.l2[(l2id, c)] % UINT_LIMIT)
    {
      var ok, val := ReadBank(hw, L2Masks, l2id, core.value, i);
      if !ok {
        return Error, cas;
      }
      cas := cas + [L2Ca(i, val % UINT_LIMIT)];
    }
    ret := Ok;
  }

  method HwMbaGet(hw: Msr, cap: Cap, socket: nat, max: nat) returns (ret: RetVal, cos: seq<Mba>)
    requires hw.Valid()
    modifies hw`clock
    ensures hw.Valid() && hw.clock >= old(hw.clock)
    ensures cap.mba.None? ==> ret == Resource
    ensures ret == Ok ==> |cos| == cap.MbaClasses() <= hw.chip.mbaRegs && HasId(hw.chip.cpu, Socket, socket)
    ensures ret == Ok ==> forall c :: 0 <= c < |cos| ==>
      cos[c] == Mba(c, (LINEAR_MAX - hw.regs.mba[(socket, c)]) % UINT_LIMIT)
    ensures hw.NoFault(old(hw.clock), hw.clock) && cap.mba.Some? && cap.MbaClasses() <= max
      && HasId(hw.chip.cpu, Socket, socket)
      && cap.MbaClasses() <= hw.chip.mbaRegs
      ==> ret == Ok
  {
    hide ValidRegs, WellFormed;
    cos := [];
    if cap.mba.None? {
      return Resource, cos;
    }
    var count := cap.mba.value.numClasses;
    if count > max {
      return Error, cos;
    }
    var core := GetOne(hw.chip.cpu, Socket, socket);
    if core.None? {
      return Error, cos;
    }
    for i := 0 to count
      invariant hw.Valid() && hw.clock >= old(hw.clock) && hw.regs == old(hw.regs)
      invariant |cos| == i <= hw.chip.mbaRegs
      invariant forall c :: 0 <= c < i ==>
        (socket, c) in hw.regs.mba && cos[c] == Mba(c, (LINEAR_MAX - hw.regs.mba[(socket, c)]) % UINT_LIMIT)
    {
      var ok, val := ReadBank(hw, Throttles, socket, core.value, i);
      if !ok {
        return Error, cos;
      }
      cos := cos + [Mba(i, (LINEAR_MAX - val) % UINT_LIMIT)];
    }
    ret := Ok;
  }

  // ----- what a set means to a later get -----

  /** Entry `ca` as it reads back: with CDP on, one mask stands for both. */
  function Normal(cdpOn: bool, ca: L3Ca): L3Ca {
    if cdpOn && ca.L3Ways? then L3Cdp(ca.classId, ca.ways, ca.ways) else ca
  }

  function LastL3(cas: seq<L3Ca>, c: nat): Option<L3Ca> {
    if cas == [] then None
    else if cas[|cas| - 1].classId == c then Some(cas[|cas| - 1])
    else LastL3(cas[..|cas| - 1], c)
  }

  /** After a complete set with masks the hardware takes, each class reads back as the last entry
      naming it, every other class of the socket as before, and other sockets are untouched. */
  lemma {:induction false} L3SetThenGet(bank: Bank, min: nat, socket: nat, cdpOn: bool, cas: seq<L3Ca>, s: nat, c: nat)
    requires HasL3Regs(bank, s, cdpOn, c)
    requires forall ca :: ca in cas && ca.L3Cdp? ==> cdpOn
    requires forall w :: w in L3Writes(cdpOn, cas) ==> BitCount(w.1) >= min
    ensures var bank' := PutAll(bank, min, socket, L3Writes(cdpOn, cas));
            && HasL3Regs(bank', s, cdpOn, c)
            && ReadL3(bank', s, cdpOn, c) ==
               if s == socket && LastL3(cas, c).Some? then Normal(cdpOn, LastL3(cas, c).value)
               else ReadL3(bank, s, cdpOn, c)
  {
    if cas != [] {
      var front, last := cas[..|cas| - 1], cas[|cas| - 1];
      var ws, entry := L3Writes(cdpOn, front), L3Entry(cdpOn, last);
      assert last in cas;
      assert forall w :: w in ws || w in entry ==> w in L3Writes(cdpOn, cas);
      L3SetThenGet(bank, min, socket, cdpOn, front, s, c);
      PutMore(bank, min, socket, ws, entry);
      ReadAfterEntry(PutAll(bank, min, socket, ws), min, socket, cdpOn, last, s, c);
    }
  }

  function LastL2(cas: seq<L2Ca>, c: nat): Option<L2Ca> {
    if cas == [] then None
    else if cas[|cas| - 1].classId == c then Some(cas[|cas| - 1])
    else LastL2(cas[..|cas| - 1], c)
  }

  /** After a complete set of accepted masks, each L2 class reads back as the last entry naming it; all others are as
      before. */
  lemma {:induction false} L2SetThenGet(bank: Bank, min: nat, l2id: nat, cas: seq<L2Ca>, s: nat, c: nat)
    requires (s, c) in bank && forall i :: 0 <= i < |cas| ==> BitCount(cas[i].ways) >= min
    ensures var bank' := PutAll(bank, min, l2id, L2Writes(cas));
      (s, c) in bank' && bank'[(s, c)] ==
        if s == l2id && LastL2(cas, c).Some? then LastL2(cas, c).value.ways else bank[(s, c)]
  {
    var ws := L2Writes(cas);
    if cas == [] {
      assert ws == [];
    } else {
      var front := cas[..|cas| - 1];
      L2SetThenGet(bank, min, l2id, front, s, c);
      assert ws[..|ws| - 1] == L2Writes(front);
    }
  }

  function LastMba(cos: seq<Mba>, c: nat): Option<Mba> {
    if cos == [] then None
    else if cos[|cos| - 1].classId == c then Some(cos[|cos| - 1])
    else LastMba(cos[..|cos| - 1], c)
  }

  /** After a complete set, the rate that a get computes from the register of a class is the one that the set
      reported for the last entry naming it; the registers of other classes and sockets are as before. */
  lemma {:induction false} MbaSetThenGet(bank: Bank, cap: Cap, socket: nat, cos: seq<Mba>, s: nat, c: nat)
    requires (s, c) in bank && cap.mba.Some? && cap.mba.value.throttleStep > 0
    ensures var bank' := PutAll(bank, 0, socket, MbaWrites(cap, cos));
      && (s, c) in bank'
      && if s == socket && LastMba(cos, c).Some?
         then LINEAR_MAX - bank'[(s, c)] == MsrRate(cap.mba.value, LastMba(cos, c).value.rate)
         else bank'[(s, c)] == bank[(s, c)]
  {
    hide Throttle, RoundedRate;
    var ws := MbaWrites(cap, cos);
    if cos == [] {
      assert ws == [];
    } else {
      var front := cos[..|cos| - 1];
      MbaSetThenGet(bank, cap, socket, front, s, c);
      assert ws[..|ws| - 1] == MbaWrites(cap, front);
    }
  }

  lemma ReadAfterEntry(bank: Bank, min: nat, socket: nat, cdpOn: bool, ca: L3Ca, s: nat, c: nat)
    requires HasL3Regs(bank, s, cdpOn, c) && (ca.L3Cdp? ==> cdpOn)
    requires forall w :: w in L3Entry(cdpOn, ca) ==> BitCount(w.1) >= min
    ensures var bank' := PutAll(bank, min, socket, L3Entry(cdpOn, ca));
            && HasL3Regs(bank', s, cdpOn, c)
            && ReadL3(bank', s, cdpOn, c) ==
               if s == socket && ca.classId == c then Normal(cdpOn, ca) else ReadL3(bank, s, cdpOn, c)
  {
    hide PutAll;
    var entry := L3Entry(cdpOn, ca);
    assert entry[0] in entry;
    PutNone(bank, min, socket);
    PutOneMore(bank, min, socket, [], entry[0]);
    assert [] + [entry[0]] == [entry[0]];
    if cdpOn {
      assert entry[1] in entry;
      PutOneMore(bank, min, socket, [entry[0]], entry[1]);
      assert entry == [entry[0]] + [entry[1]];
    }
  }

  // ----- what a set leaves alone -----

  /** The registers of class `c`. */
  ghost predicate OfClass(cdpOn: bool, c: nat, index: nat) {
    if cdpOn then index == 2 * c || index == 2 * c + 1 else index == c
  }

  /** Only registers of class `c` on socket or cluster `id` differ. */
  ghost predicate OnlyClass(before: Bank, after: Bank, id: nat, cdpOn: bool, c: nat) {
    before.Keys == after.Keys &&
    forall k :: k in before && !(k.0 == id && OfClass(cdpOn, c, k.1)) ==> after[k] == before[k]
  }

  /** The hardware never holds a mask it would not take. */
  ghost predicate HoldsAccepted(bank: Bank, min: nat) {
    forall k :: k in bank ==> BitCount(bank[k]) >= min
  }

  lemma PrefixTouches(bank: Bank, min: nat, id: nat, cdpOn: bool, c: nat, ws: seq<(nat, Word)>, done: seq<(nat, Word)>)
    requires forall i :: 0 <= i < |ws| ==> OfClass(cdpOn, c, ws[i].0) && (id, ws[i].0) in bank
    requires done <= ws
    ensures OnlyClass(bank, PutAll(bank, min, id, done), id, cdpOn, c)
    ensures HoldsAccepted(bank, min) ==> HoldsAccepted(PutAll(bank, min, id, done), min)
  {
    if done != [] {
      PrefixTouches(bank, min, id, cdpOn, c, ws, done[..|done| - 1]);
    }
  }

  /** A one-entry set writes only registers of its class, all of them present. */
  lemma L3Single(chip: Chip, r: Regs, cap: Cap, socket: nat, ca: L3Ca)
    requires ValidRegs(chip, r) && HasId(chip.cpu, Socket, socket)
    requires cap.l3.Some? && ca.classId < cap.L3Classes() && L3RegsUsed(cap) <= chip.l3Regs
    requires ca.L3Cdp? ==> cap.CdpOn()
    ensures L3Writes(cap.CdpOn(), [ca]) == L3Entry(cap.CdpOn(), ca)
    ensures L3SetAllowed(chip, cap, socket, [ca])
    ensures HasL3Regs(r.l3, socket, cap.CdpOn(), ca.classId)
    ensures forall i :: 0 <= i < |L3Entry(cap.CdpOn(), ca)| ==>
      OfClass(cap.CdpOn(), ca.classId, L3Entry(cap.CdpOn(), ca)[i].0) && (socket, L3Entry(cap.CdpOn(), ca)[i].0) in r.l3
    ensures (chip.ignoresShort || forall i :: 0 <= i < |L3Entry(cap.CdpOn(), ca)| ==>
      BitCount(L3Entry(cap.CdpOn(), ca)[i].1) >= chip.l3Min)
      ==> EntriesWritable(chip, cap.CdpOn(), [ca])
  {
    hide ValidRegs, L3Writes;
    OneEntryWrites(cap.CdpOn(), ca);
    var entry := L3Entry(cap.CdpOn(), ca);
    InBank(chip, r, L3Masks, socket, entry[0].0);
    if cap.CdpOn() {
      InBank(chip, r, L3Masks, socket, entry[1].0);
    }
  }
}
