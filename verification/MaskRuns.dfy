/** Whole runs of class definitions, resets and probes: every mask register stays one run of ones. */
module MaskRuns {
  import opened Bits
  import opened Results
  import opened Topology
  import opened Registers
  import opened ClassConfig
  import opened AllocReset
  import opened ResetRuns
  import opened MinCbm
  import opened RdtConfig

  /** Calls that touch L3 or L2 masks; a set makes the writes `ws`, possibly only some of those asked for. */
  datatype MaskCall =
    | L3Set(socket: nat, ws: seq<(nat, Word)>)
    | L2Set(l2id: nat, ws: seq<(nat, Word)>)
    | Reset(req: CdpConfig, ret: RetVal)
    | L3Probe(socket: nat, c: nat)
    | L2Probe(l2id: nat, c: nat)
    | OtherMaskCall

  /** What the calls may do, failing or not. */
  ghost predicate MaskStep(chip: Chip, before: Platform, call: MaskCall, after: Platform) {
    && (call.Reset? || after.cap == before.cap)
    && match call
       case L3Set(socket, ws) => L3SetStep(chip, before.regs, socket, ws, after.regs)
       case L2Set(l2id, ws) => L2SetStep(chip, before.regs, l2id, ws, after.regs)
       case Reset(req, ret) =>
         FullMasksFit(chip, before.cap) && ResetStep(chip, before.regs, before.cap, req, ret, after.regs, after.cap)
       case L3Probe(socket, c) => L3ProbeStep(before.regs, after.regs, socket, before.cap.CdpOn(), c)
       case L2Probe(l2id, c) => L2ProbeStep(before.regs, after.regs, l2id, c)
       case OtherMaskCall =>
         after.regs.l3 == before.regs.l3 && after.regs.l2 == before.regs.l2
  }

  ghost predicate AllRuns(bank: Bank) {
    forall k :: k in bank ==> IsRun(bank[k])
  }

  ghost predicate MasksSound(p: Platform) {
    AllRuns(p.regs.l3) && AllRuns(p.regs.l2) && SomeWays(p.cap)
  }

  lemma {:induction false} WritesKeepRuns(bank: Bank, min: nat, id: nat, ws: seq<(nat, Word)>)
    requires AllRuns(bank) && WritesAreRuns(ws)
    ensures AllRuns(PutAll(bank, min, id, ws))
  {
    hide IsRun;
    if ws != [] {
      WritesKeepRuns(bank, min, id, ws[..|ws| - 1]);
    }
  }

  lemma FilledKeepsRuns(bank: Bank, now: Bank, ways: nat)
    requires AllRuns(bank) && 1 <= ways < 64 && PartlyFilled(bank, now, FullMask(ways))
    ensures AllRuns(now)
  {
    OnesIsRun(ways);
    hide IsRun;
  }

  lemma FilledIsPartly(bank: Bank, ids: set<nat>, num: nat, val: Word)
    ensures PartlyFilled(bank, Filled(bank, ids, num, val), val)
  {
  }

  lemma ProbeKeepsRuns(bank: Bank, now: Bank, id: nat, cdpOn: bool, c: nat)
    requires AllRuns(bank) && Probed(bank, now, id, cdpOn, c)
    ensures AllRuns(now)
  {
    forall k | k in now ensures IsRun(now[k]) {
      if now[k] != bank[k] {
        var n: nat :| n >= 1 && now[k] == Ones(n);
        OnesIsRun(n);
      }
    }
  }

  lemma ResetKeepsRuns(chip: Chip, before: Platform, req: CdpConfig, ret: RetVal, after: Platform)
    requires MasksSound(before) && FullMasksFit(chip, before.cap)
    requires ResetStep(chip, before.regs, before.cap, req, ret, after.regs, after.cap)
    ensures MasksSound(after)
  {
    hide AllRuns, Filled, PartlyFilled, FullMask;
    var r, r', cap := before.regs, after.regs, before.cap;
    if r' != r {
      if cap.l3.Some? {
        FilledIsPartly(r.l3, SocketSet(chip.cpu), MaxL3Cos(cap), FullMask(cap.l3.value.numWays));
        FilledKeepsRuns(r.l3, r'.l3, cap.l3.value.numWays);
      }
      if cap.l2.Some? {
        FilledIsPartly(r.l2, Members(Ids(chip.cpu, L2Cluster)), cap.L2Classes(), FullMask(cap.l2.value.numWays));
        FilledKeepsRuns(r.l2, r'.l2, cap.l2.value.numWays);
      }
    }
  }

  lemma StepKeepsMasks(chip: Chip, before: Platform, call: MaskCall, after: Platform)
    requires MasksSound(before) && MaskStep(chip, before, call, after)
    ensures MasksSound(after)
  {
    hide AllRuns, ResetStep, Probed;
    match call
    case L3Set(socket, ws) => WritesKeepRuns(before.regs.l3, chip.l3Min, socket, ws);
    case L2Set(l2id, ws) => WritesKeepRuns(before.regs.l2, chip.l2Min, l2id, ws);
    case Reset(req, ret) => ResetKeepsRuns(chip, before, req, ret, after);
    case L3Probe(socket, c) => ProbeKeepsRuns(before.regs.l3, after.regs.l3, socket, before.cap.CdpOn(), c);
    case L2Probe(l2id, c) => ProbeKeepsRuns(before.regs.l2, after.regs.l2, l2id, false, c);
    case OtherMaskCall =>
  }

  ghost predicate MaskRun(chip: Chip, states: seq<Platform>, calls: seq<MaskCall>) {
    && |states| == |calls| + 1
    && forall i :: 0 <= i < |calls| ==> MaskStep(chip, states[i], calls[i], states[i + 1])
  }

  /** Every register holds its lowest bits, as after power-on or a reset. */
  ghost predicate AllFull(bank: Bank) {
    forall k :: k in bank ==> IsOnes(bank[k])
  }

  lemma FullIsRuns(bank: Bank)
    requires AllFull(bank)
    ensures AllRuns(bank)
  {
    forall k | k in bank ensures IsRun(bank[k]) {
      var n: nat :| n >= 1 && bank[k] == Ones(n);
      OnesIsRun(n);
    }
  }

  /** From full masks, every state that sets, resets and probes can reach, failing or not, has one run of
      ones in every L3 and L2 mask register. */
  lemma {:induction false} MasksStayRuns(chip: Chip, states: seq<Platform>, calls: seq<MaskCall>, n: nat)
    requires MaskRun(chip, states, calls) && n <= |calls|
    requires SomeWays(states[0].cap) && AllFull(states[0].regs.l3) && AllFull(states[0].regs.l2)
    ensures MasksSound(states[n])
  {
    hide MaskStep, AllRuns, AllFull;
    if n == 0 {
      FullIsRuns(states[0].regs.l3);
      FullIsRuns(states[0].regs.l2);
    } else {
      MasksStayRuns(chip, states, calls, n - 1);
      StepKeepsMasks(chip, states[n - 1], calls[n - 1], states[n]);
    }
  }

  /** After any such run the masks that a get reports are ones that a set accepts back. */
  lemma ReportedMasksAreRuns(chip: Chip, states: seq<Platform>, calls: seq<MaskCall>, n: nat, socket: nat, c: nat)
    requires MaskRun(chip, states, calls) && n <= |calls|
    requires SomeWays(states[0].cap) && AllFull(states[0].regs.l3) && AllFull(states[0].regs.l2)
    requires HasL3Regs(states[n].regs.l3, socket, states[n].cap.CdpOn(), c)
    ensures EntryIsRun(ReadL3(states[n].regs.l3, socket, states[n].cap.CdpOn(), c))
  {
    MasksStayRuns(chip, states, calls, n);
  }
}
