/** Class definitions through the resctrl file system (lib/os_allocation.c): read a group's schemata, change
    one entry, write it back. */
module OsAllocation {
  import opened Bits
  import opened Results
  import opened Topology
  import opened Capabilities
  import opened MbaRate
  import opened ClassConfig
  import opened Numerals
  import opened Schemata
  import opened SchemataRoundTrip

  /** The text files of the resctrl groups; a file stores what was last written to it. */
  class ResctrlFs {
    var schemata: map<nat, string>
    var cpus: map<nat, string>

    constructor (schemata: map<nat, string>, cpus: map<nat, string>)
      ensures this.schemata == schemata && this.cpus == cpus
    {
      this.schemata, this.cpus := schemata, cpus;
    }
  }

  /** `resctrl_alloc_get_grps_num`: the fewest classes of any technology. */
  function GrpsNum(cap: Cap): nat {
    var n := cap.L3Classes();
    var n := if cap.l2.Some? && (n == 0 || cap.L2Classes() < n) then cap.L2Classes() else n;
    if cap.mba.Some? && (n == 0 || cap.MbaClasses() < n) then cap.MbaClasses() else n
  }

  /** Every technology that is there has a class. */
  ghost predicate NoEmptyTech(cap: Cap) {
    && (cap.l3.Some? ==> cap.L3Classes() > 0)
    && (cap.l2.Some? ==> cap.L2Classes() > 0)
    && (cap.mba.Some? ==> cap.MbaClasses() > 0)
  }

  /** A class below the number of groups has every technology. */
  lemma GroupsHaveAll(cap: Cap, c: nat)
    requires NoEmptyTech(cap) && c < GrpsNum(cap)
    ensures (cap.l3.Some? <==> c < cap.L3Classes()) && (cap.l2.Some? <==> c < cap.L2Classes())
    ensures cap.mba.Some? <==> c < cap.MbaClasses()
  {
  }

  /** There are as many groups as classes of the technology with the fewest, and none without any. */
  lemma GroupsAreFewest(cap: Cap)
    requires NoEmptyTech(cap)
    ensures cap.l3.Some? ==> GrpsNum(cap) <= cap.l3.value.numClasses
    ensures cap.l2.Some? ==> GrpsNum(cap) <= cap.l2.value.numClasses
    ensures cap.mba.Some? ==> GrpsNum(cap) <= cap.mba.value.numClasses
    ensures
      || (cap.l3.Some? && GrpsNum(cap) == cap.l3.value.numClasses)
      || (cap.l2.Some? && GrpsNum(cap) == cap.l2.value.numClasses)
      || (cap.mba.Some? && GrpsNum(cap) == cap.mba.value.numClasses)
      || (cap.l3.None? && cap.l2.None? && cap.mba.None? && GrpsNum(cap) == 0)
  {
  }

  /** A schemata as it is before any file is read. */
  function FreshDefs(cap: Cap, cpu: seq<CoreInfo>, c: nat): Defs {
    var sockets, l2ids := |Ids(cpu, Socket)|, |Ids(cpu, L2Cluster)|;
    Defs(
      if c < cap.L2Classes() then seq(l2ids, i => L2Ca(c, 0)) else [],
      if c < cap.L3Classes() then seq(sockets, i => if cap.CdpOn() then L3Cdp(c, 0, 0) else L3Ways(c, 0)) else [],
      if c < cap.MbaClasses() then seq(sockets, i => Mba(c, LINEAR_MAX)) else [])
  }

  method SchemataInit(c: nat, cap: Cap, cpu: seq<CoreInfo>) returns (s: ResctrlSchemata)
    ensures fresh(s) && s.defs == FreshDefs(cap, cpu, c)
  {
    var l2: seq<L2Ca>, l3: seq<L3Ca>, mba: seq<Mba> := [], [], [];
    if c < cap.L2Classes() {
      var ids := GetIds(cpu, L2Cluster);
      for i := 0 to |ids|
        invariant l2 == seq(i, j => L2Ca(c, 0))
      {
        l2 := l2 + [L2Ca(c, 0)];
      }
    }
    if c < cap.L3Classes() {
      var ids := GetIds(cpu, Socket);
      for i := 0 to |ids|
        invariant l3 == seq(i, j => if cap.CdpOn() then L3Cdp(c, 0, 0) else L3Ways(c, 0))
      {
        l3 := l3 + [if cap.CdpOn() then L3Cdp(c, 0, 0) else L3Ways(c, 0)];
      }
    }
    if c < cap.MbaClasses() {
      var ids := GetIds(cpu, Socket);
      for i := 0 to |ids|
        invariant mba == seq(i, j => Mba(c, LINEAR_MAX))
      {
        mba := mba + [Mba(c, LINEAR_MAX)];
      }
    }
    s := new ResctrlSchemata(Defs(l2, l3, mba));
  }

  /** What a read of the group's schemata file yields. */
  ghost function View(cap: Cap, cpu: seq<CoreInfo>, files: map<nat, string>, c: nat): Outcome
    requires c in files
  {
    ReadText(files[c], FreshDefs(cap, cpu, c))
  }

  // ----- reading keeps the shape -----

  lemma ShapeTrans(a: Defs, b: Defs, c: Defs)
    requires SameShape(a, b) && SameShape(b, c)
    ensures SameShape(a, c) && SameShape(b, a)
  {
  }

  lemma SetKeepsShape(d: Defs, kind: Label, id: nat, v: Word)
    ensures SameShape(SetEntry(d, kind, id, v).defs, d)
    ensures ValuesFit(d) ==> ValuesFit(SetEntry(d, kind, id, v).defs)
  {
  }

  lemma {:induction false} TokensKeepShape(s: string, kind: Label, d: Defs)
    ensures SameShape(ReadTokens(s, kind, d).defs, d)
    ensures ValuesFit(d) ==> ValuesFit(ReadTokens(s, kind, d).defs)
    decreases |s|
  {
    hide SameShape, ValuesFit, SetEntry, ReadToken, ReadTokens, Find, Semis;
    SelfShape(d);
    NextToken(s, kind, d);
    var t := s[Semis(s)..];
    if t != "" {
      var token := t[..Find(t, ';')];
      var r := ReadToken(token, kind, d);
      TokenKeepsShape(token, kind, d);
      if r.ok {
        TokensKeepShape(t[Find(t, ';')..], kind, r.defs);
        ShapeTrans(ReadTokens(s, kind, d).defs, r.defs, d);
      }
    }
  }

  lemma NextToken(s: string, kind: Label, d: Defs)
    ensures
      var t := s[Semis(s)..];
      ReadTokens(s, kind, d) ==
        if t == "" then Outcome(true, d)
        else
          var r := ReadToken(t[..Find(t, ';')], kind, d);
          if r.ok then ReadTokens(t[Find(t, ';')..], kind, r.defs) else r
    ensures s[Semis(s)..] != "" ==> |s[Semis(s)..][Find(s[Semis(s)..], ';')..]| < |s|
  {
    hide ReadToken;
  }

  lemma TokenKeepsShape(token: string, kind: Label, d: Defs)
    ensures SameShape(ReadToken(token, kind, d).defs, d)
    ensures ValuesFit(d) ==> ValuesFit(ReadToken(token, kind, d).defs)
  {
    hide SameShape, ValuesFit, SetEntry, Find, StrToUint64;
    SelfShape(d);
    var k := Find(token, '=');
    if k < |token| {
      var id, v := StrToUint64(token[..k], 10), StrToUint64(token[k + 1..], kind.Base());
      if id.Some? && v.Some? {
        SetKeepsShape(d, kind, id.value % UINT_LIMIT, v.value);
      }
    }
  }

  lemma SelfShape(d: Defs)
    ensures SameShape(d, d)
  {
  }

  lemma {:induction false} TextKeepsShape(text: string, d: Defs)
    ensures SameShape(ReadText(text, d).defs, d)
    ensures ValuesFit(d) ==> ValuesFit(ReadText(text, d).defs)
    decreases |text|
  {
    hide SameShape, ValuesFit, ReadTokens, Find, CString, Spaces, LabelOf, LineEnd;
    SelfShape(d);
    if text != "" {
      var n := LineEnd(text, LINE_MAX);
      var r := ReadLine(text[..n], d);
      var s := CString(text[..n]);
      var q := s[Spaces(s)..];
      var k := Find(q, ':');
      if k < |q| {
        TokensKeepShape(q[k + 1..], LabelOf(q[..k]), d);
      }
      if r.ok {
        TextKeepsShape(text[n..], r.defs);
        ShapeTrans(ReadText(text, d).defs, r.defs, d);
      }
    }
  }

  /** Lines of any schemata of the platform's shape fit the reader's buffer. */
  ghost predicate RoomForLines(cap: Cap, cpu: seq<CoreInfo>) {
    forall c: nat, d :: SameShape(d, FreshDefs(cap, cpu, c)) && ValuesFit(d) ==> LinesFit(d)
  }

  lemma RoomWithFewIds(cap: Cap, cpu: seq<CoreInfo>)
    requires |Ids(cpu, Socket)| <= 700 && |Ids(cpu, L2Cluster)| <= 700
    ensures RoomForLines(cap, cpu)
  {
    forall c: nat, d | SameShape(d, FreshDefs(cap, cpu, c)) && ValuesFit(d) ensures LinesFit(d) {
      FewIdsFit(d);
    }
  }

  lemma FreshShape(cap: Cap, cpu: seq<CoreInfo>, c: nat, d: Defs)
    requires SameShape(d, FreshDefs(cap, cpu, c))
    ensures Uniform(d) && ValuesFit(FreshDefs(cap, cpu, c))
    ensures |d.l3| > 0 ==> d.l3[0].L3Cdp? == cap.CdpOn()
  {
    var f := FreshDefs(cap, cpu, c);
    forall i | 0 <= i < |d.l3| ensures d.l3[i].L3Cdp? == cap.CdpOn() {
      assert d.l3[i].L3Cdp? == f.l3[i].L3Cdp?;
    }
  }

  // ----- one entry of one group -----

  /** An entry to store, with the values already normalised. */
  datatype Change =
    | SetL3(socket: nat, l3: L3Ca)
    | SetL2(l2id: nat, l2: L2Ca)
    | SetMba(socket: nat, mba: Mba)
  {
    function ClassId(): nat {
      match this
      case SetL3(_, ca) => ca.classId
      case SetL2(_, ca) => ca.classId
      case SetMba(_, m) => m.classId
    }

    /** The entry is one the platform's schemata has. */
    ghost predicate Applies(cap: Cap, cpu: seq<CoreInfo>) {
      match this
      case SetL3(s, ca) => cap.l3.Some? && s < |Ids(cpu, Socket)| && ca.L3Cdp? == cap.CdpOn()
      case SetL2(id, ca) => cap.l2.Some? && id < |Ids(cpu, L2Cluster)|
      case SetMba(s, m) => cap.mba.Some? && s < |Ids(cpu, Socket)| && m.rate < UINT_LIMIT
    }

    /** Same technology and resource id. */
    ghost predicate SameSlot(that: Change) {
      match this
      case SetL3(s, _) => that.SetL3? && that.socket == s
      case SetL2(id, _) => that.SetL2? && that.l2id == id
      case SetMba(s, _) => that.SetMba? && that.socket == s
    }
  }

  ghost predicate HasSlot(d: Defs, ch: Change) {
    match ch
    case SetL3(s, _) => s < |d.l3|
    case SetL2(id, _) => id < |d.l2|
    case SetMba(s, _) => s < |d.mba|
  }

  function Applied(d: Defs, ch: Change): Defs
    requires HasSlot(d, ch)
  {
    match ch
    case SetL3(s, ca) => d.(l3 := d.l3[s := ca])
    case SetL2(id, ca) => d.(l2 := d.l2[id := ca])
    case SetMba(s, m) => d.(mba := d.mba[s := m])
  }

  lemma ChangeKeepsShape(cap: Cap, cpu: seq<CoreInfo>, c: nat, d: Defs, ch: Change)
    requires NoEmptyTech(cap) && c < GrpsNum(cap) && ch.Applies(cap, cpu) && ch.ClassId() == c
    requires SameShape(d, FreshDefs(cap, cpu, c)) && ValuesFit(d)
    ensures HasSlot(d, ch)
    ensures SameShape(Applied(d, ch), FreshDefs(cap, cpu, c)) && ValuesFit(Applied(d, ch))
  {
    GroupsHaveAll(cap, c);
    FreshShape(cap, cpu, c, d);
  }

  /** The groups are those that initialisation created. */
  ghost predicate GroupFiles(cap: Cap, files: map<nat, string>) {
    forall c: nat :: c in files <==> c < GrpsNum(cap)
  }

  ghost predicate UsablePlatform(cap: Cap, cpu: seq<CoreInfo>, files: map<nat, string>) {
    NoEmptyTech(cap) && RoomForLines(cap, cpu) && GroupFiles(cap, files)
  }

  /** The view of one group after a change. */
  ghost predicate Updated(cap: Cap, cpu: seq<CoreInfo>, before: map<nat, string>, ch: Change, after: map<nat, string>) {
    var c := ch.ClassId();
    && c in before && before.Keys == after.Keys
    && (forall k :: k in before && k != c ==> after[k] == before[k])
    && var v := View(cap, cpu, before, c);
       v.ok && HasSlot(v.defs, ch) && View(cap, cpu, after, c) == Outcome(true, Applied(v.defs, ch))
  }

  lemma WrittenReadsBack(cap: Cap, cpu: seq<CoreInfo>, files: map<nat, string>, ch: Change)
    requires UsablePlatform(cap, cpu, files) && ch.Applies(cap, cpu) && ch.ClassId() in files
    requires View(cap, cpu, files, ch.ClassId()).ok
    ensures var d := View(cap, cpu, files, ch.ClassId()).defs;
      && HasSlot(d, ch) && Uniform(Applied(d, ch))
      && ReadText(Print(Applied(d, ch)), Applied(d, ch)) == Outcome(true, Applied(d, ch))
      && Updated(cap, cpu, files, ch, files[ch.ClassId() := Print(Applied(d, ch))])
  {
    var c := ch.ClassId();
    var f := FreshDefs(cap, cpu, c);
    var d := View(cap, cpu, files, c).defs;
    FreshShape(cap, cpu, c, f);
    TextKeepsShape(files[c], f);
    ChangeKeepsShape(cap, cpu, c, d, ch);
    var d' := Applied(d, ch);
    FreshShape(cap, cpu, c, d');
    SelfShape(d');
    RoundTrip(d', f);
    RoundTrip(d', d');
  }

  /** Reads a group's schemata, changes one entry and writes the file. */
  method UpdateSchemata(fs: ResctrlFs, cap: Cap, cpu: seq<CoreInfo>, ch: Change)
      returns (ret: RetVal, s: ResctrlSchemata)
    requires UsablePlatform(cap, cpu, fs.schemata) && ch.Applies(cap, cpu)
    modifies fs
    ensures fresh(s) && fs.cpus == old(fs.cpus)
    ensures ret == Ok || ret == Error
    ensures ret == Ok <==> ch.ClassId() in old(fs.schemata) && View(cap, cpu, old(fs.schemata), ch.ClassId()).ok
    ensures ret != Ok ==> fs.schemata == old(fs.schemata)
    ensures ret == Ok ==> Updated(cap, cpu, old(fs.schemata), ch, fs.schemata)
    ensures ret == Ok ==> s.defs == View(cap, cpu, fs.schemata, ch.ClassId()).defs
    ensures ret == Ok ==> ReadText(fs.schemata[ch.ClassId()], s.defs) == Outcome(true, s.defs)
  {
    hide SameShape, ValuesFit, RoomForLines, Print, ReadText, Uniform, FreshDefs;
    var c := ch.ClassId();
    s := SchemataInit(c, cap, cpu);
    if c !in fs.schemata {
      return Error, s;
    }
    ret := s.Read(fs.schemata[c]);
    if ret != Ok {
      return;
    }
    WrittenReadsBack(cap, cpu, fs.schemata, ch);
    match ch {
      case SetL3(socket, ca) => s.defs := s.defs.(l3 := s.defs.l3[socket := ca]);
      case SetL2(l2id, ca) => s.defs := s.defs.(l2 := s.defs.l2[l2id := ca]);
      case SetMba(socket, mba) => s.defs := s.defs.(mba := s.defs.mba[socket := mba]);
    }
    var text := s.Write();
    fs.schemata := fs.schemata[c := text];
  }

  // ----- sets -----

  function L3Changes(cap: Cap, socket: nat, cas: seq<L3Ca>): seq<Change> {
    seq(|cas|, i requires 0 <= i < |cas| => SetL3(socket, Normal(cap.CdpOn(), cas[i])))
  }

  function L2Changes(l2id: nat, cas: seq<L2Ca>): seq<Change> {
    seq(|cas|, i requires 0 <= i < |cas| => SetL2(l2id, cas[i]))
  }

  function MbaChanges(step: nat, socket: nat, cos: seq<Mba>): seq<Change>
    requires step > 0
  {
    seq(|cos|, i requires 0 <= i < |cos| => SetMba(socket, Mba(cos[i].classId, OsRate(step, cos[i].rate))))
  }

  /** The last entry that names the class. */
  function LastFor(chs: seq<Change>, c: nat): (r: Option<Change>)
    ensures r.Some? ==> r.value in chs && r.value.ClassId() == c
    ensures r.None? ==> forall i :: 0 <= i < |chs| ==> chs[i].ClassId() != c
  {
    if chs == [] then None
    else if chs[|chs| - 1].ClassId() == c then Some(chs[|chs| - 1])
    else LastFor(chs[..|chs| - 1], c)
  }

  /** What a get sees of one group after the changes: the last entry naming its class, and all else as before. */
  ghost predicate SeenAfter(cap: Cap, cpu: seq<CoreInfo>, before: map<nat, string>, chs: seq<Change>,
      after: map<nat, string>, c: nat)
    requires c in before && c in after
  {
    match LastFor(chs, c)
    case None => after[c] == before[c]
    case Some(ch) =>
      var v := View(cap, cpu, before, c);
      v.ok && HasSlot(v.defs, ch) && View(cap, cpu, after, c) == Outcome(true, Applied(v.defs, ch))
  }

  ghost predicate Framed(cap: Cap, cpu: seq<CoreInfo>, before: map<nat, string>, chs: seq<Change>,
      after: map<nat, string>)
  {
    before.Keys == after.Keys && forall c :: c in before ==> SeenAfter(cap, cpu, before, chs, after, c)
  }

  lemma FramedNone(cap: Cap, cpu: seq<CoreInfo>, files: map<nat, string>)
    ensures Framed(cap, cpu, files, [], files)
  {
  }

  lemma FramedStep(cap: Cap, cpu: seq<CoreInfo>, before: map<nat, string>, chs: seq<Change>, mid: map<nat, string>,
      ch: Change, after: map<nat, string>)
    requires Framed(cap, cpu, before, chs, mid) && Updated(cap, cpu, mid, ch, after)
    requires forall i :: 0 <= i < |chs| ==> ch.SameSlot(chs[i])
    ensures Framed(cap, cpu, before, chs + [ch], after)
  {
    hide View;
    assert (chs + [ch])[..|chs|] == chs;
    forall c | c in before ensures SeenAfter(cap, cpu, before, chs + [ch], after, c) {
      assert SeenAfter(cap, cpu, before, chs, mid, c);
      SameText(cap, cpu, before, mid, c);
      SameText(cap, cpu, mid, after, c);
      if LastFor(chs, c).Some? {
        assert ch.SameSlot(LastFor(chs, c).value);
      }
    }
  }

  lemma SameText(cap: Cap, cpu: seq<CoreInfo>, a: map<nat, string>, b: map<nat, string>, c: nat)
    ensures c in a && c in b && a[c] == b[c] ==> View(cap, cpu, a, c) == View(cap, cpu, b, c)
  {
  }

  ghost predicate Readable(cap: Cap, cpu: seq<CoreInfo>, files: map<nat, string>, c: nat) {
    c in files && View(cap, cpu, files, c).ok
  }

  /** `done` entries took effect; a failure at an entry leaves the earlier ones in place. */
  method OsL3caSet(fs: ResctrlFs, cap: Cap, cpu: seq<CoreInfo>, socket: nat, cas: seq<L3Ca>)
      returns (ret: RetVal, ghost done: nat)
    requires UsablePlatform(cap, cpu, fs.schemata) && cas != []
    modifies fs
    ensures fs.cpus == old(fs.cpus)
    ensures cap.l3.None? <==> ret == Resource
    ensures done <= |cas| && (ret == Ok ==> done == |cas|)
    ensures Framed(cap, cpu, old(fs.schemata), L3Changes(cap, socket, cas)[..done], fs.schemata)
    ensures ret == Ok <==>
      && cap.l3.Some? && |cas| <= GrpsNum(cap) && socket < |Ids(cpu, Socket)|
      && forall i :: 0 <= i < |cas| ==>
        (cas[i].L3Cdp? ==> cap.CdpOn()) && Readable(cap, cpu, old(fs.schemata), cas[i].classId)
  {
    hide View, Framed, Updated, RoomForLines;
    done := 0;
    FramedNone(cap, cpu, fs.schemata);
    ghost var chs := L3Changes(cap, socket, cas);
    assert chs[..0] == [];
    if cap.l3.None? {
      return Resource, 0;
    }
    if |cas| > GrpsNum(cap) {
      return Error, 0;
    }
    var sockets := GetIds(cpu, Socket);
    if |sockets| == 0 {
      return Error, 0;
    }
    if socket >= |sockets| {
      return Param, 0;
    }
    for i := 0 to |cas|
      invariant done == i && fs.cpus == old(fs.cpus) && GroupFiles(cap, fs.schemata)
      invariant Framed(cap, cpu, old(fs.schemata), chs[..i], fs.schemata)
      invariant forall j :: 0 <= j < i ==>
        (cas[j].L3Cdp? ==> cap.CdpOn()) && Readable(cap, cpu, old(fs.schemata), cas[j].classId)
    {
      if cas[i].L3Cdp? && !cap.CdpOn() {
        return Error, done;
      }
      ghost var before := fs.schemata;
      ReadableSame(cap, cpu, old(fs.schemata), chs[..i], before, cas[i].classId);
      var s;
      ret, s := UpdateSchemata(fs, cap, cpu, SetL3(socket, Normal(cap.CdpOn(), cas[i])));
      if ret != Ok {
        return;
      }
      FramedStep(cap, cpu, old(fs.schemata), chs[..i], before, chs[i], fs.schemata);
      UpdatedKeys(cap, cpu, before, chs[i], fs.schemata);
      assert chs[..i + 1] == chs[..i] + [chs[i]];
      done := i + 1;
    }
    ret := Ok;
  }

  lemma UpdatedKeys(cap: Cap, cpu: seq<CoreInfo>, before: map<nat, string>, ch: Change, after: map<nat, string>)
    requires Updated(cap, cpu, before, ch, after)
    ensures before.Keys == after.Keys
  {
  }

  lemma ReadableSame(cap: Cap, cpu: seq<CoreInfo>, before: map<nat, string>, chs: seq<Change>, after: map<nat, string>,
      c: nat)
    requires Framed(cap, cpu, before, chs, after)
    ensures Readable(cap, cpu, before, c) <==> Readable(cap, cpu, after, c)
  {
    if c in before {
      assert SeenAfter(cap, cpu, before, chs, after, c);
      SameText(cap, cpu, before, after, c);
    }
  }

  method OsL2caSet(fs: ResctrlFs, cap: Cap, cpu: seq<CoreInfo>, l2id: nat, cas: seq<L2Ca>)
      returns (ret: RetVal, ghost done: nat)
    requires UsablePlatform(cap, cpu, fs.schemata) && cas != []
    modifies fs
    ensures fs.cpus == old(fs.cpus)
    ensures cap.l2.None? <==> ret == Resource
    ensures done <= |cas| && (ret == Ok ==> done == |cas|)
    ensures Framed(cap, cpu, old(fs.schemata), L2Changes(l2id, cas)[..done], fs.schemata)
    ensures ret == Ok <==>
      && cap.l2.Some? && |cas| <= GrpsNum(cap) && l2id < |Ids(cpu, L2Cluster)|
      && forall i :: 0 <= i < |cas| ==>
        cas[i].classId < cap.L2Classes() && Readable(cap, cpu, old(fs.schemata), cas[i].classId)
  {
    hide View, Framed, Updated, RoomForLines;
    done := 0;
    FramedNone(cap, cpu, fs.schemata);
    ghost var chs := L2Changes(l2id, cas);
    assert chs[..0] == [];
    if cap.l2.None? {
      return Resource, 0;
    }
    if |cas| > GrpsNum(cap) {
      return Param, 0;
    }
    for i := 0 to |cas|
      invariant forall j :: 0 <= j < i ==> cas[j].classId < cap.L2Classes()
    {
      if cas[i].classId >= cap.L2Classes() {
        return Param, 0;
      }
    }
    var l2ids := GetIds(cpu, L2Cluster);
    if |l2ids| == 0 {
      return Error, 0;
    }
    if l2id >= |l2ids| {
      return Param, 0;
    }
    for i := 0 to |cas|
      invariant done == i && fs.cpus == old(fs.cpus) && GroupFiles(cap, fs.schemata)
      invariant Framed(cap, cpu, old(fs.schemata), chs[..i], fs.schemata)
      invariant forall j :: 0 <= j < i ==> Readable(cap, cpu, old(fs.schemata), cas[j].classId)
    {
      ghost var before := fs.schemata;
      ReadableSame(cap, cpu, old(fs.schemata), chs[..i], before, cas[i].classId);
      var s;
      ret, s := UpdateSchemata(fs, cap, cpu, SetL2(l2id, cas[i]));
      if ret != Ok {
        return;
      }
      FramedStep(cap, cpu, old(fs.schemata), chs[..i], before, chs[i], fs.schemata);
      UpdatedKeys(cap, cpu, before, chs[i], fs.schemata);
      assert chs[..i + 1] == chs[..i] + [chs[i]];
      done := i + 1;
    }
    ret := Ok;
  }

  /** Rates are at most 100, as the caller checks; `actual` is read back from the file, if asked for. */
  method OsMbaSet(fs: ResctrlFs, cap: Cap, cpu: seq<CoreInfo>, socket: nat, cos: seq<Mba>, report: bool)
    returns (ret: RetVal, actual: seq<Mba>, ghost done: nat)
    requires UsablePlatform(cap, cpu, fs.schemata) && cos != []
    requires cap.mba.Some? ==> 0 < cap.mba.value.throttleStep <= LINEAR_MAX
    requires forall i :: 0 <= i < |cos| ==> cos[i].rate <= LINEAR_MAX
    modifies fs
    ensures fs.cpus == old(fs.cpus)
    ensures cap.mba.None? <==> ret == Resource
    ensures done <= |cos| && (ret == Ok ==> done == |cos|)
    ensures cap.mba.Some? ==>
      Framed(cap, cpu, old(fs.schemata), MbaChanges(cap.mba.value.throttleStep, socket, cos)[..done], fs.schemata)
    ensures cap.mba.None? ==> fs.schemata == old(fs.schemata)
    ensures ret == Ok <==>
      && cap.mba.Some? && |cos| <= GrpsNum(cap) && socket < |Ids(cpu, Socket)|
      && forall i :: 0 <= i < |cos| ==> Readable(cap, cpu, old(fs.schemata), cos[i].classId)
    ensures !report ==> actual == []
    ensures ret == Ok && report ==> |actual| == |cos| && forall i :: 0 <= i < |cos| ==>
      actual[i] == Mba(cos[i].classId, OsRate(cap.mba.value.throttleStep, cos[i].rate))
  {
    hide View, Framed, Updated, RoomForLines, OsRate;
    done, actual := 0, [];
    if cap.mba.None? {
      return Resource, actual, 0;
    }
    var step := cap.mba.value.throttleStep;
    FramedNone(cap, cpu, fs.schemata);
    ghost var chs := MbaChanges(step, socket, cos);
    assert chs[..0] == [];
    if |cos| > GrpsNum(cap) {
      return Param, actual, 0;
    }
    for i := 0 to |cos|
      invariant forall j :: 0 <= j < i ==> cos[j].classId < GrpsNum(cap)
    {
      if cos[i].classId >= GrpsNum(cap) {
        return Param, actual, 0;
      }
    }
    var sockets := GetIds(cpu, Socket);
    if |sockets| == 0 || socket >= |sockets| {
      return Error, actual, 0;
    }
    for i := 0 to |cos|
      invariant done == i && fs.cpus == old(fs.cpus) && GroupFiles(cap, fs.schemata)
      invariant Framed(cap, cpu, old(fs.schemata), chs[..i], fs.schemata)
      invariant forall j :: 0 <= j < i ==> Readable(cap, cpu, old(fs.schemata), cos[j].classId)
      invariant |actual| == if report then i else 0
      invariant forall j :: 0 <= j < |actual| ==> actual[j] == Mba(cos[j].classId, OsRate(step, cos[j].rate))
    {
      ghost var before := fs.schemata;
      ReadableSame(cap, cpu, old(fs.schemata), chs[..i], before, cos[i].classId);
      SmallRate(step, cos[i].rate);
      var s;
      ret, s := UpdateSchemata(fs, cap, cpu, SetMba(socket, Mba(cos[i].classId, OsRate(step, cos[i].rate))));
      if ret != Ok {
        return;
      }
      UpdatedMba(cap, cpu, before, chs[i], fs.schemata);
      if report {
        ret := s.Read(fs.schemata[cos[i].classId]);
        actual := actual + [s.defs.mba[socket]];
      }
      FramedStep(cap, cpu, old(fs.schemata), chs[..i], before, chs[i], fs.schemata);
      UpdatedKeys(cap, cpu, before, chs[i], fs.schemata);
      assert chs[..i + 1] == chs[..i] + [chs[i]];
      done := i + 1;
    }
    ret := Ok;
  }

  lemma SmallRate(step: nat, rate: nat)
    requires 0 < step <= LINEAR_MAX && rate <= LINEAR_MAX
    ensures OsRate(step, rate) < UINT_LIMIT
  {
    RoundedIsNearest(step, rate);
    hide RoundedRate;
  }

  lemma UpdatedMba(cap: Cap, cpu: seq<CoreInfo>, before: map<nat, string>, ch: Change, after: map<nat, string>)
    requires Updated(cap, cpu, before, ch, after) && ch.SetMba?
    ensures ch.ClassId() in after
    ensures var d := View(cap, cpu, after, ch.ClassId()).defs; ch.socket < |d.mba| && d.mba[ch.socket] == ch.mba
  {
  }

  // ----- gets -----

  /** Every group's file can be read. */
  ghost predicate AllReadable(cap: Cap, cpu: seq<CoreInfo>, files: map<nat, string>, n: nat) {
    forall c :: 0 <= c < n ==> Readable(cap, cpu, files, c)
  }

  /** The schemata of one group as it is now, and its shape. */
  method ReadGroup(fs: ResctrlFs, cap: Cap, cpu: seq<CoreInfo>, c: nat) returns (ret: RetVal, s: ResctrlSchemata)
    requires NoEmptyTech(cap) && GroupFiles(cap, fs.schemata)
    ensures fresh(s) && (ret == Ok || ret == Error)
    ensures ret == Ok <==> Readable(cap, cpu, fs.schemata, c)
    ensures ret == Ok ==> s.defs == View(cap, cpu, fs.schemata, c).defs && SameShape(s.defs, FreshDefs(cap, cpu, c))
  {
    hide ReadText, FreshDefs, SameShape;
    s := SchemataInit(c, cap, cpu);
    if c !in fs.schemata {
      return Error, s;
    }
    TextKeepsShape(fs.schemata[c], s.defs);
    ret := s.Read(fs.schemata[c]);
  }

  method OsL3caGet(fs: ResctrlFs, cap: Cap, cpu: seq<CoreInfo>, socket: nat, max: nat)
      returns (ret: RetVal, cas: seq<L3Ca>)
    requires NoEmptyTech(cap) && GroupFiles(cap, fs.schemata)
    ensures cap.l3.None? <==> ret == Resource
    ensures ret == Ok <==>
      && cap.l3.Some? && GrpsNum(cap) <= max && socket < |Ids(cpu, Socket)|
      && AllReadable(cap, cpu, fs.schemata, GrpsNum(cap))
    ensures ret == Ok ==> |cas| == GrpsNum(cap) && forall c :: 0 <= c < |cas| ==>
      socket < |View(cap, cpu, fs.schemata, c).defs.l3| && cas[c] == View(cap, cpu, fs.schemata, c).defs.l3[socket]
  {
    hide View, SameShape, FreshDefs, Readable;
    cas := [];
    if cap.l3.None? {
      return Resource, cas;
    }
    var count := GrpsNum(cap);
    if count > max {
      return Error, cas;
    }
    var sockets := GetIds(cpu, Socket);
    if |sockets| == 0 {
      return Error, cas;
    }
    if socket >= |sockets| {
      return Param, cas;
    }
    for c := 0 to count
      invariant |cas| == c && AllReadable(cap, cpu, fs.schemata, c)
      invariant forall k :: 0 <= k < c ==>
        socket < |View(cap, cpu, fs.schemata, k).defs.l3| && cas[k] == View(cap, cpu, fs.schemata, k).defs.l3[socket]
    {
      GroupSlots(cap, cpu, c);
      var s;
      ret, s := ReadGroup(fs, cap, cpu, c);
      if ret != Ok {
        return;
      }
      ShapeSizes(s.defs, FreshDefs(cap, cpu, c));
      cas := cas + [s.defs.l3[socket]];
    }
    ret := Ok;
  }

  method OsL2caGet(fs: ResctrlFs, cap: Cap, cpu: seq<CoreInfo>, l2id: nat, max: nat)
      returns (ret: RetVal, cas: seq<L2Ca>)
    requires NoEmptyTech(cap) && GroupFiles(cap, fs.schemata)
    ensures cap.l2.None? <==> ret == Resource
    ensures ret == Ok <==>
      && cap.l2.Some? && GrpsNum(cap) <= max && l2id < |Ids(cpu, L2Cluster)|
      && AllReadable(cap, cpu, fs.schemata, GrpsNum(cap))
    ensures ret == Ok ==> |cas| == GrpsNum(cap) && forall c :: 0 <= c < |cas| ==>
      l2id < |View(cap, cpu, fs.schemata, c).defs.l2| && cas[c] == View(cap, cpu, fs.schemata, c).defs.l2[l2id]
  {
    hide View, SameShape, FreshDefs, Readable;
    cas := [];
    if cap.l2.None? {
      return Resource, cas;
    }
    var count := GrpsNum(cap);
    if count > max {
      return Param, cas;
    }
    var l2ids := GetIds(cpu, L2Cluster);
    if |l2ids| == 0 {
      return Error, cas;
    }
    if l2id >= |l2ids| {
      return Param, cas;
    }
    for c := 0 to count
      invariant |cas| == c && AllReadable(cap, cpu, fs.schemata, c)
      invariant forall k :: 0 <= k < c ==>
        l2id < |View(cap, cpu, fs.schemata, k).defs.l2| && cas[k] == View(cap, cpu, fs.schemata, k).defs.l2[l2id]
    {
      GroupSlots(cap, cpu, c);
      var s;
      ret, s := ReadGroup(fs, cap, cpu, c);
      if ret != Ok {
        return;
      }
      ShapeSizes(s.defs, FreshDefs(cap, cpu, c));
      cas := cas + [s.defs.l2[l2id]];
    }
    ret := Ok;
  }

  method OsMbaGet(fs: ResctrlFs, cap: Cap, cpu: seq<CoreInfo>, socket: nat, max: nat)
      returns (ret: RetVal, cos: seq<Mba>)
    requires NoEmptyTech(cap) && GroupFiles(cap, fs.schemata)
    ensures cap.mba.None? <==> ret == Resource
    ensures ret == Ok <==>
      && cap.mba.Some? && GrpsNum(cap) <= max && socket < |Ids(cpu, Socket)|
      && AllReadable(cap, cpu, fs.schemata, GrpsNum(cap))
    ensures ret == Ok ==> |cos| == GrpsNum(cap) && forall c :: 0 <= c < |cos| ==>
      socket < |View(cap, cpu, fs.schemata, c).defs.mba| && cos[c] == View(cap, cpu, fs.schemata, c).defs.mba[socket]
  {
    hide View, SameShape, FreshDefs, Readable;
    cos := [];
    if cap.mba.None? {
      return Resource, cos;
    }
    var count := GrpsNum(cap);
    if count > max {
      return Error, cos;
    }
    var sockets := GetIds(cpu, Socket);
    if |sockets| == 0 || socket >= |sockets| {
      return Error, cos;
    }
    for c := 0 to count
      invariant |cos| == c && AllReadable(cap, cpu, fs.schemata, c)
      invariant forall k :: 0 <= k < c ==>
        socket < |View(cap, cpu, fs.schemata, k).defs.mba| && cos[k] == View(cap, cpu, fs.schemata, k).defs.mba[socket]
    {
      GroupSlots(cap, cpu, c);
      var s;
      ret, s := ReadGroup(fs, cap, cpu, c);
      if ret != Ok {
        return;
      }
      ShapeSizes(s.defs, FreshDefs(cap, cpu, c));
      cos := cos + [s.defs.mba[socket]];
    }
    ret := Ok;
  }

  lemma GroupSlots(cap: Cap, cpu: seq<CoreInfo>, c: nat)
    requires NoEmptyTech(cap) && c < GrpsNum(cap)
    ensures cap.l3.Some? ==> |FreshDefs(cap, cpu, c).l3| == |Ids(cpu, Socket)|
    ensures cap.l2.Some? ==> |FreshDefs(cap, cpu, c).l2| == |Ids(cpu, L2Cluster)|
    ensures cap.mba.Some? ==> |FreshDefs(cap, cpu, c).mba| == |Ids(cpu, Socket)|
  {
    GroupsHaveAll(cap, c);
  }

  lemma ShapeSizes(a: Defs, b: Defs)
    requires SameShape(a, b)
    ensures |a.l3| == |b.l3| && |a.l2| == |b.l2| && |a.mba| == |b.mba|
  {
  }

  // ----- a set, then a get -----

  /** After L3 entries for one socket took effect: there, each class named shows the last entry naming it;
      other sockets, classes and technologies show what they did. */
  lemma L3SetFrame(cap: Cap, cpu: seq<CoreInfo>, before: map<nat, string>, socket: nat, cas: seq<L3Ca>,
      after: map<nat, string>, c: nat)
    requires Framed(cap, cpu, before, L3Changes(cap, socket, cas), after) && Readable(cap, cpu, before, c)
    ensures Readable(cap, cpu, after, c)
    ensures var b, a := View(cap, cpu, before, c).defs, View(cap, cpu, after, c).defs;
      && a.l2 == b.l2 && a.mba == b.mba && |a.l3| == |b.l3|
      && (LastL3(cas, c).Some? ==> socket < |b.l3|)
      && forall s :: 0 <= s < |b.l3| ==>
        a.l3[s] == if s == socket && LastL3(cas, c).Some? then Normal(cap.CdpOn(), LastL3(cas, c).value) else b.l3[s]
  {
    hide View, LastL3;
    LastL3Change(cap, socket, cas, c);
    assert SeenAfter(cap, cpu, before, L3Changes(cap, socket, cas), after, c);
    SameText(cap, cpu, before, after, c);
  }

  lemma {:induction false} LastL3Change(cap: Cap, socket: nat, cas: seq<L3Ca>, c: nat)
    ensures LastFor(L3Changes(cap, socket, cas), c) ==
      match LastL3(cas, c) case None => None case Some(ca) => Some(SetL3(socket, Normal(cap.CdpOn(), ca)))
  {
    var chs := L3Changes(cap, socket, cas);
    if cas != [] {
      var front := cas[..|cas| - 1];
      assert chs[..|chs| - 1] == L3Changes(cap, socket, front);
      LastL3Change(cap, socket, front, c);
    }
  }

  lemma L2SetFrame(cap: Cap, cpu: seq<CoreInfo>, before: map<nat, string>, l2id: nat, cas: seq<L2Ca>,
      after: map<nat, string>, c: nat)
    requires Framed(cap, cpu, before, L2Changes(l2id, cas), after) && Readable(cap, cpu, before, c)
    ensures Readable(cap, cpu, after, c)
    ensures var b, a := View(cap, cpu, before, c).defs, View(cap, cpu, after, c).defs;
      && a.l3 == b.l3 && a.mba == b.mba && |a.l2| == |b.l2|
      && (LastL2(cas, c).Some? ==> l2id < |b.l2|)
      && forall s :: 0 <= s < |b.l2| ==>
        a.l2[s] == if s == l2id && LastL2(cas, c).Some? then LastL2(cas, c).value else b.l2[s]
  {
    hide View, LastL2;
    LastL2Change(l2id, cas, c);
    assert SeenAfter(cap, cpu, before, L2Changes(l2id, cas), after, c);
    SameText(cap, cpu, before, after, c);
  }

  lemma {:induction false} LastL2Change(l2id: nat, cas: seq<L2Ca>, c: nat)
    ensures LastFor(L2Changes(l2id, cas), c) ==
      match LastL2(cas, c) case None => None case Some(ca) => Some(SetL2(l2id, ca))
  {
    var chs := L2Changes(l2id, cas);
    if cas != [] {
      var front := cas[..|cas| - 1];
      assert chs[..|chs| - 1] == L2Changes(l2id, front);
      LastL2Change(l2id, front, c);
    }
  }

  lemma MbaSetFrame(cap: Cap, cpu: seq<CoreInfo>, before: map<nat, string>, step: nat, socket: nat, cos: seq<Mba>,
      after: map<nat, string>, c: nat)
    requires step > 0
    requires Framed(cap, cpu, before, MbaChanges(step, socket, cos), after) && Readable(cap, cpu, before, c)
    ensures Readable(cap, cpu, after, c)
    ensures var b, a := View(cap, cpu, before, c).defs, View(cap, cpu, after, c).defs;
      && a.l3 == b.l3 && a.l2 == b.l2 && |a.mba| == |b.mba|
      && (LastMba(cos, c).Some? ==> socket < |b.mba|)
      && forall s :: 0 <= s < |b.mba| ==>
        a.mba[s] ==
          if s == socket && LastMba(cos, c).Some? then Mba(c, OsRate(step, LastMba(cos, c).value.rate)) else b.mba[s]
  {
    hide View, LastMba, OsRate;
    LastMbaChange(step, socket, cos, c);
    assert SeenAfter(cap, cpu, before, MbaChanges(step, socket, cos), after, c);
    SameText(cap, cpu, before, after, c);
  }

  lemma {:induction false} LastMbaChange(step: nat, socket: nat, cos: seq<Mba>, c: nat)
    requires step > 0
    ensures LastFor(MbaChanges(step, socket, cos), c) ==
      match LastMba(cos, c) case None => None case Some(m) => Some(SetMba(socket, Mba(c, OsRate(step, m.rate))))
  {
    var chs := MbaChanges(step, socket, cos);
    hide OsRate;
    if cos != [] {
      var front := cos[..|cos| - 1];
      assert chs[..|chs| - 1] == MbaChanges(step, socket, front);
      LastMbaChange(step, socket, front, c);
    }
  }
}
