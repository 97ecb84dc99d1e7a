/** What a line of schemata text stores, for any ids and values under the five labels in either case. */
module SchemataLines {
  import opened Bits
  import opened ClassConfig
  import opened Numerals
  import opened Schemata
  import opened SchemataRoundTrip

  /** "1=f;0=3": ids in decimal and values in the base, from pair `i` on. */
  ghost function PairList(ps: seq<(UInt, Word)>, i: nat, base: Base): string
    decreases |ps| - i
  {
    if i >= |ps| then ""
    else (if i > 0 then ";" else "") + (Digits(ps[i].0, 10) + "=" + Digits(ps[i].1, base)) + PairList(ps, i + 1, base)
  }

  // ----- what the five kinds of line store -----

  ghost function PutL2(l2: seq<L2Ca>, ps: seq<(UInt, Word)>, i: nat): seq<L2Ca>
    requires forall p :: p in ps ==> p.0 as nat < |l2|
    decreases |ps| - i
  {
    if i >= |ps| then l2
    else PutL2(l2[ps[i].0 := L2Ca(l2[ps[i].0].classId, ps[i].1 % 0x1_0000_0000)], ps, i + 1)
  }

  ghost function PutWays(l3: seq<L3Ca>, ps: seq<(UInt, Word)>, i: nat): seq<L3Ca>
    requires forall p :: p in ps ==> p.0 as nat < |l3|
    decreases |ps| - i
  {
    if i >= |ps| then l3
    else PutWays(l3[ps[i].0 := L3Ways(l3[ps[i].0].classId, ps[i].1)], ps, i + 1)
  }

  /** Code masks change, data masks stay. */
  ghost function PutCodes(l3: seq<L3Ca>, ps: seq<(UInt, Word)>, i: nat): seq<L3Ca>
    requires (forall p :: p in ps ==> p.0 as nat < |l3|) && forall ca :: ca in l3 ==> ca.L3Cdp?
    decreases |ps| - i
  {
    if i >= |ps| then l3
    else PutCodes(l3[ps[i].0 := L3Cdp(l3[ps[i].0].classId, l3[ps[i].0].data, ps[i].1)], ps, i + 1)
  }

  /** Data masks change, code masks stay. */
  ghost function PutDatas(l3: seq<L3Ca>, ps: seq<(UInt, Word)>, i: nat): seq<L3Ca>
    requires (forall p :: p in ps ==> p.0 as nat < |l3|) && forall ca :: ca in l3 ==> ca.L3Cdp?
    decreases |ps| - i
  {
    if i >= |ps| then l3
    else PutDatas(l3[ps[i].0 := L3Cdp(l3[ps[i].0].classId, ps[i].1, l3[ps[i].0].code)], ps, i + 1)
  }

  ghost function PutRates(mba: seq<Mba>, ps: seq<(UInt, Word)>, i: nat): seq<Mba>
    requires forall p :: p in ps ==> p.0 as nat < |mba|
    decreases |ps| - i
  {
    if i >= |ps| then mba
    else PutRates(mba[ps[i].0 := Mba(mba[ps[i].0].classId, ps[i].1 % 0x1_0000_0000)], ps, i + 1)
  }

  // ----- any kind -----

  ghost predicate FitAll(b: Defs, kind: Label, ps: seq<(UInt, Word)>) {
    kind != NoLabel && forall j :: 0 <= j < |ps| ==> Fits(b, kind, ps[j].0)
  }

  lemma StillFit(b: Defs, kind: Label, ps: seq<(UInt, Word)>, i: nat)
    requires FitAll(b, kind, ps) && i < |ps|
    ensures FitAll(WithValue(b, kind, ps[i].0, ps[i].1), kind, ps)
  {
    forall j | 0 <= j < |ps| ensures Fits(WithValue(b, kind, ps[i].0, ps[i].1), kind, ps[j].0) {
      assert Fits(b, kind, ps[j].0) && Fits(b, kind, ps[i].0);
    }
  }

  ghost function Stored(b: Defs, kind: Label, ps: seq<(UInt, Word)>, i: nat): Defs
    requires FitAll(b, kind, ps)
    decreases |ps| - i
  {
    if i >= |ps| then b
    else
      StillFit(b, kind, ps, i);
      Stored(WithValue(b, kind, ps[i].0, ps[i].1), kind, ps, i + 1)
  }

  /** What follows pair `i` on its line. */
  ghost function Rest(ps: seq<(UInt, Word)>, i: nat, base: Base): string {
    PairList(ps, i + 1, base) + "\n"
  }

  lemma PairsSplit(ps: seq<(UInt, Word)>, i: nat, kind: Label)
    requires i < |ps|
    ensures PairList(ps, i, kind.Base()) + "\n"
      == Separator(i) + (Entry(ps[i].0, ps[i].1, kind) + Rest(ps, i, kind.Base()))
    ensures Rest(ps, i, kind.Base()) != ""
    ensures if i + 1 == |ps| then Rest(ps, i, kind.Base()) == "\n" else Rest(ps, i, kind.Base())[0] == ';'
  {
    hide Digits;
    if i + 1 < |ps| {
      assert PairList(ps, i + 1, kind.Base())[0] == ';';
    }
  }

  lemma {:induction false} ReadPairs(ps: seq<(UInt, Word)>, kind: Label, i: nat, b: Defs)
    requires FitAll(b, kind, ps) && i < |ps|
    ensures ReadTokens(PairList(ps, i, kind.Base()) + "\n", kind, b) == Outcome(true, Stored(b, kind, ps, i))
    decreases |ps| - i
  {
    hide PairList, Rest, ReadTokens, ReadToken, Find, Semis, WithValue, Entry, Fits;
    var id, v := ps[i].0, ps[i].1;
    var s, sep, entry, more := PairList(ps, i, kind.Base()) + "\n", Separator(i), Entry(id, v, kind),
      Rest(ps, i, kind.Base());
    var last := i + 1 == |ps|;
    EntryPlain(id, v, kind);
    StillFit(b, kind, ps, i);
    assert Fits(b, kind, ps[i].0);
    var b' := WithValue(b, kind, id, v);
    PairsSplit(ps, i, kind);
    FirstToken(s, sep, entry, more);
    ReadEntry(id, v, kind, if last then "\n" else "", b);
    assert entry + "" == entry;
    TokensStep(s, sep, entry, more, kind, b, b');
    if last {
      NoTokens(kind, b');
    } else {
      ReadPairs(ps, kind, i + 1, b');
      RestIs(ps, i, kind.Base());
    }
  }

  lemma RestIs(ps: seq<(UInt, Word)>, i: nat, base: Base)
    ensures Rest(ps, i, base) == PairList(ps, i + 1, base) + "\n"
  {
  }

  lemma {:induction false} PairsPlain(ps: seq<(UInt, Word)>, i: nat, kind: Label)
    ensures Plain(PairList(ps, i, kind.Base()))
    decreases |ps| - i
  {
    if i < |ps| {
      PairsPlain(ps, i + 1, kind);
      EntryPlain(ps[i].0, ps[i].1, kind);
      SemicolonPlain();
      hide PlainChar, Digits;
      assert Entry(ps[i].0, ps[i].1, kind) == Digits(ps[i].0, 10) + "=" + Digits(ps[i].1, kind.Base());
    }
  }

  /** A line under a name of the kind, in any text: its pairs are stored, then the rest is read. */
  lemma ReadNamedLine(name: string, ps: seq<(UInt, Word)>, kind: Label, rest: string, b: Defs)
    requires kind != NoLabel && FitAll(b, kind, ps) && ps != [] && LabelOf(name) == kind && name != ""
      && Alphanumeric(name)
    requires |name| + 2 + |PairList(ps, 0, kind.Base())| <= LINE_MAX
    ensures ReadText(name + ":" + PairList(ps, 0, kind.Base()) + "\n" + rest, b)
      == ReadText(rest, Stored(b, kind, ps, 0))
  {
    hide Stored, PairList, Find, Spaces, LabelOf, ReadTokens, ReadLine, CString, Plain, Alphanumeric, FitAll, ReadText;
    var body := PairList(ps, 0, kind.Base());
    var s := name + ":" + body + "\n";
    PairsPlain(ps, 0, kind);
    ReadPairs(ps, kind, 0, b);
    LineIsPlain(name, body);
    LabelPart(name, body + "\n");
    assert s == name + ":" + (body + "\n");
    WholeCString(s);
    ReadLabelled(s, name, body + "\n", b);
    ReadOneLine(s, rest, b);
  }

  // ----- the five labels -----

  lemma LettersOnly(name: string, wanted: string)
    requires SameIgnoringCase(name, wanted) && Alphanumeric(wanted)
    ensures Alphanumeric(name)
  {
    forall i | 0 <= i < |name| ensures DigitVal(name[i]) < 36 {
      assert Lower(name[i]) == Lower(wanted[i]) && DigitVal(wanted[i]) < 36;
    }
  }

  /** A text with L2 masks: they are cut to 32 bits and stored under their cluster ids. */
  lemma L2LineRead(name: string, ps: seq<(UInt, Word)>, rest: string, b: Defs)
    requires SameIgnoringCase(name, "L2") && ps != [] && (forall p :: p in ps ==> p.0 as nat < |b.l2|)
    requires |name| + 2 + |PairList(ps, 0, 16)| <= LINE_MAX
    ensures ReadText(name + ":" + PairList(ps, 0, 16) + "\n" + rest, b) == ReadText(rest, b.(l2 := PutL2(b.l2, ps, 0)))
  {
    hide ReadText, PairList;
    LettersOnly(name, "L2");
    StoredL2(b, ps, 0);
    ReadNamedLine(name, ps, L2, rest, b);
  }

  lemma L3LineRead(name: string, ps: seq<(UInt, Word)>, rest: string, b: Defs)
    requires SameIgnoringCase(name, "L3") && ps != [] && (forall p :: p in ps ==> p.0 as nat < |b.l3|)
    requires forall ca :: ca in b.l3 ==> ca.L3Ways?
    requires |name| + 2 + |PairList(ps, 0, 16)| <= LINE_MAX
    ensures ReadText(name + ":" + PairList(ps, 0, 16) + "\n" + rest, b)
      == ReadText(rest, b.(l3 := PutWays(b.l3, ps, 0)))
  {
    hide ReadText, PairList;
    LettersOnly(name, "L3");
    assert Lower(name[1]) == '3';
    StoredWays(b, ps, 0);
    ReadNamedLine(name, ps, L3, rest, b);
  }

  lemma CodeLineRead(name: string, ps: seq<(UInt, Word)>, rest: string, b: Defs)
    requires SameIgnoringCase(name, "L3CODE") && ps != [] && (forall p :: p in ps ==> p.0 as nat < |b.l3|)
    requires forall ca :: ca in b.l3 ==> ca.L3Cdp?
    requires |name| + 2 + |PairList(ps, 0, 16)| <= LINE_MAX
    ensures ReadText(name + ":" + PairList(ps, 0, 16) + "\n" + rest, b)
      == ReadText(rest, b.(l3 := PutCodes(b.l3, ps, 0)))
  {
    hide ReadText, PairList;
    LettersOnly(name, "L3CODE");
    StoredCodes(b, ps, 0);
    ReadNamedLine(name, ps, L3Code, rest, b);
  }

  lemma DataLineRead(name: string, ps: seq<(UInt, Word)>, rest: string, b: Defs)
    requires SameIgnoringCase(name, "L3DATA") && ps != [] && (forall p :: p in ps ==> p.0 as nat < |b.l3|)
    requires forall ca :: ca in b.l3 ==> ca.L3Cdp?
    requires |name| + 2 + |PairList(ps, 0, 16)| <= LINE_MAX
    ensures ReadText(name + ":" + PairList(ps, 0, 16) + "\n" + rest, b)
      == ReadText(rest, b.(l3 := PutDatas(b.l3, ps, 0)))
  {
    hide ReadText, PairList;
    LettersOnly(name, "L3DATA");
    assert Lower(name[2]) == 'd';
    StoredDatas(b, ps, 0);
    ReadNamedLine(name, ps, L3Data, rest, b);
  }

  /** Rates are decimal and cut to 32 bits. */
  lemma RateLineRead(name: string, ps: seq<(UInt, Word)>, rest: string, b: Defs)
    requires SameIgnoringCase(name, "MB") && ps != [] && (forall p :: p in ps ==> p.0 as nat < |b.mba|)
    requires |name| + 2 + |PairList(ps, 0, 10)| <= LINE_MAX
    ensures ReadText(name + ":" + PairList(ps, 0, 10) + "\n" + rest, b)
      == ReadText(rest, b.(mba := PutRates(b.mba, ps, 0)))
  {
    hide ReadText, PairList;
    LettersOnly(name, "MB");
    assert Lower(name[0]) == 'm';
    StoredRates(b, ps, 0);
    ReadNamedLine(name, ps, MB, rest, b);
  }

  lemma {:induction false} StoredL2(b: Defs, ps: seq<(UInt, Word)>, i: nat)
    requires forall p :: p in ps ==> p.0 as nat < |b.l2|
    ensures FitAll(b, L2, ps) && Stored(b, L2, ps, i) == b.(l2 := PutL2(b.l2, ps, i))
    decreases |ps| - i
  {
    if i < |ps| {
      StoredL2(WithValue(b, L2, ps[i].0, ps[i].1), ps, i + 1);
    }
  }

  lemma {:induction false} StoredWays(b: Defs, ps: seq<(UInt, Word)>, i: nat)
    requires (forall p :: p in ps ==> p.0 as nat < |b.l3|) && forall ca :: ca in b.l3 ==> ca.L3Ways?
    ensures FitAll(b, L3, ps) && Stored(b, L3, ps, i) == b.(l3 := PutWays(b.l3, ps, i))
    decreases |ps| - i
  {
    if i < |ps| {
      StoredWays(WithValue(b, L3, ps[i].0, ps[i].1), ps, i + 1);
    }
  }

  lemma {:induction false} StoredCodes(b: Defs, ps: seq<(UInt, Word)>, i: nat)
    requires (forall p :: p in ps ==> p.0 as nat < |b.l3|) && forall ca :: ca in b.l3 ==> ca.L3Cdp?
    ensures FitAll(b, L3Code, ps) && Stored(b, L3Code, ps, i) == b.(l3 := PutCodes(b.l3, ps, i))
    decreases |ps| - i
  {
    if i < |ps| {
      StoredCodes(WithValue(b, L3Code, ps[i].0, ps[i].1), ps, i + 1);
    }
  }

  lemma {:induction false} StoredDatas(b: Defs, ps: seq<(UInt, Word)>, i: nat)
    requires (forall p :: p in ps ==> p.0 as nat < |b.l3|) && forall ca :: ca in b.l3 ==> ca.L3Cdp?
    ensures FitAll(b, L3Data, ps) && Stored(b, L3Data, ps, i) == b.(l3 := PutDatas(b.l3, ps, i))
    decreases |ps| - i
  {
    if i < |ps| {
      StoredDatas(WithValue(b, L3Data, ps[i].0, ps[i].1), ps, i + 1);
    }
  }

  lemma {:induction false} StoredRates(b: Defs, ps: seq<(UInt, Word)>, i: nat)
    requires forall p :: p in ps ==> p.0 as nat < |b.mba|
    ensures FitAll(b, MB, ps) && Stored(b, MB, ps, i) == b.(mba := PutRates(b.mba, ps, i))
    decreases |ps| - i
  {
    if i < |ps| {
      StoredRates(WithValue(b, MB, ps[i].0, ps[i].1), ps, i + 1);
    }
  }

  // ----- lines that are refused -----

  /** A character that ends nothing: no line, label, entry or value. */
  ghost predicate Inner(s: string) {
    forall i :: 0 <= i < |s| ==> s[i] !in {'\n', '\0', ':', ';', '='}
  }

  lemma InnerFind(s: string, c: char)
    requires forall i :: 0 <= i < |s| ==> s[i] != c
    ensures Find(s, c) == |s|
  {
  }

  /** A line without a colon ends the reading with an error. */
  lemma NoColonRefused(s: string, rest: string, b: Defs)
    requires |s| < LINE_MAX && forall i :: 0 <= i < |s| ==> s[i] !in {'\n', '\0', ':'}
    ensures ReadText(s + "\n" + rest, b) == Outcome(false, b)
  {
    var line := s + "\n";
    FindLast(s, '\n');
    InnerFind(line, '\0');
    WholeCString(line);
    var q := line[Spaces(line)..];
    InnerFind(q, ':');
    ReadOneLine(line, rest, b);
  }

  /** The first entry of a line with a known label decides if it is refused. */
  lemma TokenRefused(name: string, token: string, rest: string, b: Defs)
    requires name != "" && Alphanumeric(name) && LabelOf(name) != NoLabel && |name| + 2 + |token| <= LINE_MAX
    requires token != "" && forall i :: 0 <= i < |token| ==> token[i] !in {'\n', '\0', ';'}
    requires !ReadToken(token + "\n", LabelOf(name), b).ok && ReadToken(token + "\n", LabelOf(name), b).defs == b
    ensures ReadText(name + ":" + token + "\n" + rest, b) == Outcome(false, b)
  {
    hide ReadToken, LabelOf, Spaces, Alphanumeric, CString, ReadText;
    var kind, t := LabelOf(name), token + "\n";
    var line := name + ":" + token + "\n";
    assert t[0] == token[0];
    InnerFind(t, ';');
    FirstEntry(t, kind, b);
    PlainLine(name, token);
    LabelPart(name, t);
    assert line == name + ":" + t;
    WholeCString(line);
    ReadLabelled(line, name, t, b);
    ReadOneLine(line, rest, b);
  }

  lemma FirstEntry(t: string, kind: Label, b: Defs)
    requires t != "" && t[0] != ';' && Find(t, ';') == |t| && !ReadToken(t, kind, b).ok
    ensures ReadTokens(t, kind, b) == ReadToken(t, kind, b)
  {
    hide ReadToken, Find;
    assert t[..|t|] == t;
  }

  lemma PlainLine(name: string, token: string)
    requires Alphanumeric(name) && forall i :: 0 <= i < |token| ==> token[i] !in {'\n', '\0', ';'}
    ensures
      var s := name + ":" + token;
      Find(s + "\n", '\n') == |s| && Find(s + "\n", '\0') == |s| + 1
  {
    var s := name + ":" + token;
    forall i | 0 <= i < |s| ensures s[i] != '\n' && s[i] != '\0' {
      if i < |name| {
        assert s[i] == name[i];
      } else if i > |name| {
        assert s[i] == token[i - |name| - 1];
      }
    }
    FindLast(s, '\n');
    InnerFind(s + "\n", '\0');
  }

  /** No equals sign. */
  lemma NoEqualsRefused(name: string, token: string, rest: string, b: Defs)
    requires name != "" && Alphanumeric(name) && LabelOf(name) != NoLabel && |name| + 2 + |token| <= LINE_MAX
    requires token != "" && Inner(token)
    ensures ReadText(name + ":" + token + "\n" + rest, b) == Outcome(false, b)
  {
    hide LabelOf, ReadText, Alphanumeric;
    InnerFind(token + "\n", '=');
    TokenRefused(name, token, rest, b);
  }

  /** An id or a value that is no number, in the base of the label. */
  lemma NoNumberRefused(name: string, id: string, v: string, rest: string, b: Defs)
    requires name != "" && Alphanumeric(name) && LabelOf(name) != NoLabel && |name| + 3 + |id| + |v| <= LINE_MAX
    requires Inner(id) && Inner(v)
    requires StrToUint64(id, 10).None? || StrToUint64(v + "\n", if SameIgnoringCase(name, "MB") then 10 else 16).None?
    ensures ReadText(name + ":" + (id + "=" + v) + "\n" + rest, b) == Outcome(false, b)
  {
    hide ReadText, Alphanumeric, StrToUint64;
    var token := id + "=" + v;
    EntrySplit(id, v);
    LabelBase(name);
    TokenRefused(name, token, rest, b);
  }

  lemma LabelBase(name: string)
    ensures LabelOf(name) != NoLabel ==> LabelOf(name).Base() == if SameIgnoringCase(name, "MB") then 10 else 16
  {
    if SameIgnoringCase(name, "MB") {
      assert Lower(name[0]) == 'm';
    }
  }

  lemma EntrySplit(id: string, v: string)
    requires Inner(id) && Inner(v)
    ensures
      var t := id + "=" + v + "\n";
      Find(t, '=') == |id| < |t| && t[..|id|] == id && t[|id| + 1..] == v + "\n"
    ensures forall i :: 0 <= i < |id + "=" + v| ==> (id + "=" + v)[i] !in {'\n', '\0', ';'}
  {
    var t := id + "=" + v + "\n";
    assert t == id + ['='] + (v + "\n");
    FindFirst(id, '=', v + "\n");
    var s := id + "=" + v;
    forall i | 0 <= i < |s| ensures s[i] !in {'\n', '\0', ';'} {
      if i < |id| {
        assert s[i] == id[i];
      } else if i > |id| {
        assert s[i] == v[i - |id| - 1];
      }
    }
  }

  /** The schemata has an entry with the id for the label, in the mode the label belongs to. */
  ghost predicate HasEntry(name: string, id: nat, b: Defs) {
    if SameIgnoringCase(name, "L2") then id < |b.l2|
    else if SameIgnoringCase(name, "L3") then id < |b.l3| && b.l3[id].L3Ways?
    else if SameIgnoringCase(name, "MB") then id < |b.mba|
    else id < |b.l3| && b.l3[id].L3Cdp?
  }

  /** An id that is not there, or a label of the other CDP mode. */
  lemma NoEntryRefused(name: string, id: string, v: string, rest: string, b: Defs)
    requires name != "" && Alphanumeric(name) && LabelOf(name) != NoLabel && |name| + 3 + |id| + |v| <= LINE_MAX
    requires Inner(id) && Inner(v)
    requires StrToUint64(id, 10).Some? && !HasEntry(name, StrToUint64(id, 10).value % 0x1_0000_0000, b)
    ensures ReadText(name + ":" + (id + "=" + v) + "\n" + rest, b) == Outcome(false, b)
  {
    hide ReadText, Alphanumeric, StrToUint64;
    var token := id + "=" + v;
    EntrySplit(id, v);
    EntryFits(name, StrToUint64(id, 10).value % 0x1_0000_0000, b);
    TokenRefused(name, token, rest, b);
  }

  lemma EntryFits(name: string, id: nat, b: Defs)
    requires LabelOf(name) != NoLabel
    ensures Fits(b, LabelOf(name), id) <==> HasEntry(name, id, b)
  {
    if SameIgnoringCase(name, "MB") {
      assert Lower(name[0]) == 'm';
    }
  }
}
