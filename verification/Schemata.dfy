/** The schemata text of a resctrl group: printing it and parsing it (lib/resctrl_alloc.c). */
module Schemata {
  import opened Bits
  import opened Results
  import opened ClassConfig
  import opened Numerals

  /** The class definitions a schemata holds, one entry for each L2 cluster or socket. */
  datatype Defs = Defs(l2: seq<L2Ca>, l3: seq<L3Ca>, mba: seq<Mba>)

  datatype Label = NoLabel | L2 | L3 | L3Code | L3Data | MB {
    function Base(): Base {
      if this == MB then 10 else 16
    }
  }

  function Name(kind: Label): string {
    match kind
    case NoLabel => ""
    case L2 => "L2"
    case L3 => "L3"
    case L3Code => "L3CODE"
    case L3Data => "L3DATA"
    case MB => "MB"
  }

  function Lower(c: char): char {
    if 'A' <= c <= 'Z' then (c as int + 32) as char else c
  }

  predicate SameIgnoringCase(a: string, b: string) {
    |a| == |b| && forall i :: 0 <= i < |a| ==> Lower(a[i]) == Lower(b[i])
  }

  function LabelOf(s: string): Label {
    if SameIgnoringCase(s, "L2") then L2
    else if SameIgnoringCase(s, "L3") then L3
    else if SameIgnoringCase(s, "L3CODE") then L3Code
    else if SameIgnoringCase(s, "L3DATA") then L3Data
    else if SameIgnoringCase(s, "MB") then MB
    else NoLabel
  }

  lemma NameIsLabel(kind: Label)
    requires kind != NoLabel
    ensures LabelOf(Name(kind)) == kind
  {
    assert !SameIgnoringCase("L3", "L2") by {
      assert Lower("L3"[1]) != Lower("L2"[1]);
    }
    assert !SameIgnoringCase("MB", "L2") && !SameIgnoringCase("MB", "L3") by {
      assert Lower("MB"[0]) != Lower("L2"[0]) && Lower("MB"[0]) != Lower("L3"[0]);
    }
    assert !SameIgnoringCase("L3DATA", "L3CODE") by {
      assert Lower("L3DATA"[2]) != Lower("L3CODE"[2]);
    }
  }

  // ----- entries -----

  function Count(d: Defs, kind: Label): nat {
    match kind
    case NoLabel => 0
    case L2 => |d.l2|
    case MB => |d.mba|
    case _ => |d.l3|
  }

  /** The schemata has an entry of this kind for the resource id. */
  predicate Fits(d: Defs, kind: Label, id: nat) {
    match kind
    case NoLabel => true
    case L2 => id < |d.l2|
    case L3 => id < |d.l3| && d.l3[id].L3Ways?
    case L3Code => id < |d.l3| && d.l3[id].L3Cdp?
    case L3Data => id < |d.l3| && d.l3[id].L3Cdp?
    case MB => id < |d.mba|
  }

  function ValueAt(d: Defs, kind: Label, id: nat): nat
    requires kind != NoLabel && Fits(d, kind, id)
  {
    match kind
    case L2 => d.l2[id].ways
    case L3 => d.l3[id].ways
    case L3Code => d.l3[id].code
    case L3Data => d.l3[id].data
    case MB => d.mba[id].rate
  }

  /** One entry replaced; L2 masks and rates are cut to 32 bits. */
  function WithValue(d: Defs, kind: Label, id: nat, v: Word): Defs
    requires Fits(d, kind, id)
  {
    match kind
    case NoLabel => d
    case L2 => d.(l2 := d.l2[id := d.l2[id].(ways := v % UINT_LIMIT)])
    case L3 => d.(l3 := d.l3[id := d.l3[id].(ways := v)])
    case L3Code => d.(l3 := d.l3[id := d.l3[id].(code := v)])
    case L3Data => d.(l3 := d.l3[id := d.l3[id].(data := v)])
    case MB => d.(mba := d.mba[id := d.mba[id].(rate := v % UINT_LIMIT)])
  }

  /** What an attempt leaves behind. */
  datatype Outcome = Outcome(ok: bool, defs: Defs)

  function SetEntry(d: Defs, kind: Label, id: nat, v: Word): Outcome {
    if Fits(d, kind, id) then Outcome(true, WithValue(d, kind, id, v)) else Outcome(false, d)
  }

  // ----- printing -----

  ghost predicate Printable(d: Defs, kind: Label) {
    kind != NoLabel && forall i :: 0 <= i < Count(d, kind) ==> Fits(d, kind, i)
  }

  function Entry(id: nat, v: nat, kind: Label): string {
    Digits(id, 10) + "=" + Digits(v, kind.Base())
  }

  /** The printed entries from `i` on. */
  ghost function Entries(d: Defs, kind: Label, i: nat): string
    requires Printable(d, kind)
    decreases Count(d, kind) - i
  {
    if i >= Count(d, kind) then ""
    else (if i > 0 then ";" else "") + Entry(i, ValueAt(d, kind, i), kind) + Entries(d, kind, i + 1)
  }

  ghost function Line(d: Defs, kind: Label): string
    requires Printable(d, kind)
  {
    Name(kind) + ":" + Entries(d, kind, 0) + "\n"
  }

  /** All L3 entries have the CDP flag of the first one. */
  ghost predicate Uniform(d: Defs) {
    forall i :: 0 <= i < |d.l3| ==> d.l3[i].L3Cdp? == d.l3[0].L3Cdp?
  }

  ghost function LineIf(d: Defs, kind: Label, present: bool): string
    requires present ==> Printable(d, kind)
  {
    if present then Line(d, kind) else ""
  }

  ghost function Print(d: Defs): string
    requires Uniform(d)
  {
    var cdp := |d.l3| > 0 && d.l3[0].L3Cdp?;
    LineIf(d, L2, |d.l2| > 0) + LineIf(d, L3, |d.l3| > 0 && !cdp) + LineIf(d, L3Code, cdp) + LineIf(d, L3Data, cdp)
    + LineIf(d, MB, |d.mba| > 0)
  }

  // ----- the text in so many words -----

  /** "0=f;1=3": decimal ids, values in the base, from id `i` on. */
  ghost function Listing(vs: seq<nat>, i: nat, base: Base): string
    decreases |vs| - i
  {
    if i >= |vs| then ""
    else (if i > 0 then ";" else "") + (Digits(i, 10) + "=" + Digits(vs[i], base)) + Listing(vs, i + 1, base)
  }

  ghost function Clusters(l2: seq<L2Ca>): seq<nat> {
    seq(|l2|, i requires 0 <= i < |l2| => l2[i].ways as nat)
  }

  ghost function Rates(mba: seq<Mba>): seq<nat> {
    seq(|mba|, i requires 0 <= i < |mba| => mba[i].rate)
  }

  ghost function Codes(l3: seq<L3Ca>): seq<nat> {
    seq(|l3|, i requires 0 <= i < |l3| => if l3[i].L3Cdp? then l3[i].code as nat else 0)
  }

  ghost function Datas(l3: seq<L3Ca>): seq<nat> {
    seq(|l3|, i requires 0 <= i < |l3| => if l3[i].L3Cdp? then l3[i].data as nat else 0)
  }

  ghost function Ways(l3: seq<L3Ca>): seq<nat> {
    seq(|l3|, i requires 0 <= i < |l3| => if l3[i].L3Ways? then l3[i].ways as nat else 0)
  }

  /** Masks in hexadecimal and rates in decimal, each line under its label. */
  ghost function LiteralText(d: Defs): string {
    (if d.l2 == [] then "" else "L2:" + Listing(Clusters(d.l2), 0, 16) + "\n")
    + (if d.l3 == [] || d.l3[0].L3Cdp? then "" else "L3:" + Listing(Ways(d.l3), 0, 16) + "\n")
    + (if d.l3 == [] || d.l3[0].L3Ways? then "" else "L3CODE:" + Listing(Codes(d.l3), 0, 16) + "\n")
    + (if d.l3 == [] || d.l3[0].L3Ways? then "" else "L3DATA:" + Listing(Datas(d.l3), 0, 16) + "\n")
    + (if d.mba == [] then "" else "MB:" + Listing(Rates(d.mba), 0, 10) + "\n")
  }

  /** A line is its label and the listing of its values. */
  lemma {:induction false} EntriesListed(d: Defs, kind: Label, vs: seq<nat>, i: nat)
    requires Printable(d, kind) && |vs| == Count(d, kind) && i <= |vs|
    requires forall j :: 0 <= j < |vs| ==> Fits(d, kind, j) && vs[j] == ValueAt(d, kind, j)
    ensures Entries(d, kind, i) == Listing(vs, i, kind.Base())
    decreases |vs| - i
  {
    hide Fits, ValueAt, Count, Digits;
    if i < |vs| {
      EntriesListed(d, kind, vs, i + 1);
      assert Fits(d, kind, i) && vs[i] == ValueAt(d, kind, i);
    }
  }

  lemma LineListed(d: Defs, kind: Label, name: string, vs: seq<nat>, base: Base)
    requires Printable(d, kind) && |vs| == Count(d, kind) && Name(kind) == name && kind.Base() == base
    requires forall j :: 0 <= j < |vs| ==> Fits(d, kind, j) && vs[j] == ValueAt(d, kind, j)
    ensures Line(d, kind) == name + ":" + Listing(vs, 0, base) + "\n"
  {
    hide Fits, ValueAt, Count, Entries, Listing, Printable;
    EntriesListed(d, kind, vs, 0);
  }

  /** What is printed, in so many words. */
  lemma PrintsLiterally(d: Defs)
    requires Uniform(d)
    ensures Print(d) == LiteralText(d)
  {
    hide Line, Listing, Name;
    UniformPrintable(d);
    Labels();
    if d.l2 != [] {
      LineListed(d, L2, "L2", Clusters(d.l2), 16);
    }
    if d.l3 != [] && d.l3[0].L3Ways? {
      LineListed(d, L3, "L3", Ways(d.l3), 16);
    }
    if d.l3 != [] && d.l3[0].L3Cdp? {
      LineListed(d, L3Code, "L3CODE", Codes(d.l3), 16);
      LineListed(d, L3Data, "L3DATA", Datas(d.l3), 16);
    }
    if d.mba != [] {
      LineListed(d, MB, "MB", Rates(d.mba), 10);
    }
    assert "L2" + ":" == "L2:" && "L3" + ":" == "L3:" && "MB" + ":" == "MB:";
    assert "L3CODE" + ":" == "L3CODE:" && "L3DATA" + ":" == "L3DATA:";
  }

  lemma Labels()
    ensures Name(L2) == "L2" && Name(L3) == "L3" && Name(L3Code) == "L3CODE" && Name(L3Data) == "L3DATA"
      && Name(MB) == "MB"
  {
  }

  // ----- parsing -----

  /** Most characters that one `fgets` with the 16 KiB buffer takes. */
  const LINE_MAX: nat := 16 * 1024 - 1

  /** How much of the text the next `fgets` takes: up to a line feed, or what fits. */
  function LineEnd(s: string, room: nat): (n: nat)
    ensures n <= |s| && n <= room && (s != "" && room > 0 ==> n > 0)
  {
    if s == "" || room == 0 then 0
    else if s[0] == '\n' then 1
    else 1 + LineEnd(s[1..], room - 1)
  }

  /** Position of the first `c`; the length if there is none. */
  function Find(s: string, c: char): (n: nat)
    ensures n <= |s| && (n < |s| ==> s[n] == c)
    ensures forall i :: 0 <= i < n ==> s[i] != c
  {
    if s == "" || s[0] == c then 0 else 1 + Find(s[1..], c)
  }

  /** A C string ends at its first NUL. */
  function CString(s: string): string {
    s[..Find(s, '\0')]
  }

  /** Number of leading semicolons, which `strtok_r` skips. */
  function Semis(s: string): (n: nat)
    ensures n <= |s| && (n < |s| ==> s[n] != ';')
  {
    if s != "" && s[0] == ';' then 1 + Semis(s[1..]) else 0
  }

  function ReadToken(token: string, kind: Label, d: Defs): Outcome {
    var k := Find(token, '=');
    if k == |token| then Outcome(false, d)
    else
      var id, v := StrToUint64(token[..k], 10), StrToUint64(token[k + 1..], kind.Base());
      if id.None? || v.None? then Outcome(false, d)
      else SetEntry(d, kind, id.value % UINT_LIMIT, v.value)
  }

  function ReadTokens(s: string, kind: Label, d: Defs): Outcome
    decreases |s|
  {
    var t := s[Semis(s)..];
    if t == "" then Outcome(true, d)
    else
      var k := Find(t, ';');
      var r := ReadToken(t[..k], kind, d);
      if r.ok then ReadTokens(t[k..], kind, r.defs) else r
  }

  function ReadLine(line: string, d: Defs): Outcome {
    var s := CString(line);
    var q := s[Spaces(s)..];
    var k := Find(q, ':');
    if k == |q| then Outcome(false, d)
    else if LabelOf(q[..k]) == NoLabel then Outcome(true, d)
    else ReadTokens(q[k + 1..], LabelOf(q[..k]), d)
  }

  function ReadText(text: string, d: Defs): Outcome
    decreases |text|
  {
    if text == "" then Outcome(true, d)
    else
      var n := LineEnd(text, LINE_MAX);
      var r := ReadLine(text[..n], d);
      if r.ok then ReadText(text[n..], r.defs) else r
  }

  // ----- the structure the parser fills -----

  class ResctrlSchemata {
    var defs: Defs

    constructor (defs: Defs)
      ensures this.defs == defs
    {
      this.defs := defs;
    }

    /** Stores one parsed value. */
    method Set(id: nat, value: Word, kind: Label) returns (ret: RetVal)
      modifies this
      ensures ret == if Fits(old(defs), kind, id) then Ok else Error
      ensures defs == SetEntry(old(defs), kind, id, value).defs
    {
      if kind == L2 {
        if |defs.l2| <= id {
          return Error;
        }
        defs := defs.(l2 := defs.l2[id := L2Ca(defs.l2[id].classId, value % UINT_LIMIT)]);
      } else if kind == L3 {
        if |defs.l3| <= id || defs.l3[id].L3Cdp? {
          return Error;
        }
        defs := defs.(l3 := defs.l3[id := L3Ways(defs.l3[id].classId, value)]);
      } else if kind == L3Code {
        if |defs.l3| <= id || !defs.l3[id].L3Cdp? {
          return Error;
        }
        defs := defs.(l3 := defs.l3[id := L3Cdp(defs.l3[id].classId, defs.l3[id].data, value)]);
      } else if kind == L3Data {
        if |defs.l3| <= id || !defs.l3[id].L3Cdp? {
          return Error;
        }
        defs := defs.(l3 := defs.l3[id := L3Cdp(defs.l3[id].classId, value, defs.l3[id].code)]);
      } else if kind == MB {
        if |defs.mba| <= id {
          return Error;
        }
        defs := defs.(mba := defs.mba[id := Mba(defs.mba[id].classId, value % UINT_LIMIT)]);
      }
      ret := Ok;
    }

    /** The reading loop over the tokens of one line. */
    method ReadEntries(line: string, kind: Label) returns (ret: RetVal)
      modifies this
      ensures ret == Ok || ret == Error
      ensures Outcome(ret == Ok, defs) == ReadTokens(line, kind, old(defs))
    {
      hide StrToUint64, Fits, WithValue;
      var rest := line;
      while true
        invariant ReadTokens(rest, kind, defs) == ReadTokens(line, kind, old(defs))
        decreases |rest|
      {
        var t := rest[Semis(rest)..];
        if t == "" {
          return Ok;
        }
        var end := Find(t, ';');
        var token := t[..end];
        var eq := Find(token, '=');
        if eq == |token| {
          return Error;
        }
        var id := StrToUint64(token[..eq], 10);
        if id.None? {
          return Error;
        }
        var value := StrToUint64(token[eq + 1..], kind.Base());
        if value.None? {
          return Error;
        }
        ret := Set(id.value % UINT_LIMIT, value.value, kind);
        if ret != Ok {
          return;
        }
        rest := t[end..];
      }
    }

    /** The reading loop over the lines of the file. */
    method Read(text: string) returns (ret: RetVal)
      modifies this
      ensures ret == Ok || ret == Error
      ensures Outcome(ret == Ok, defs) == ReadText(text, old(defs))
    {
      hide LabelOf, Spaces, Find, CString, LineEnd, ReadTokens;
      var rest := text;
      while rest != ""
        invariant ReadText(rest, defs) == ReadText(text, old(defs))
        decreases |rest|
      {
        var n := LineEnd(rest, LINE_MAX);
        var s := CString(rest[..n]);
        rest := rest[n..];
        var q := s[Spaces(s)..];
        var k := Find(q, ':');
        if k == |q| {
          return Error;
        }
        var kind := LabelOf(q[..k]);
        if kind == NoLabel {
          continue;
        }
        ret := ReadEntries(q[k + 1..], kind);
        if ret != Ok {
          return;
        }
      }
      ret := Ok;
    }

    method WriteLine(kind: Label) returns (line: string)
      requires Printable(defs, kind)
      ensures line == Line(defs, kind)
    {
      hide Entries, Entry, Fits, ValueAt, Name, Count;
      line := Name(kind) + ":";
      for i := 0 to Count(defs, kind)
        invariant line + Entries(defs, kind, i) == Name(kind) + ":" + Entries(defs, kind, 0)
      {
        var entry := Entry(i, ValueAt(defs, kind, i), kind);
        EntriesNext(defs, kind, i, line);
        if i > 0 {
          line := line + ";";
        }
        line := line + entry;
      }
      EntriesEnd(defs, kind);
      assert line + "" == line;
      line := line + "\n";
    }

    /** What is written to the file. */
    method Write() returns (text: string)
      requires Uniform(defs)
      ensures text == Print(defs) == LiteralText(defs)
    {
      hide Line, Printable, Uniform, LiteralText;
      PrintsLiterally(defs);
      UniformPrintable(defs);
      text := "";
      if |defs.l2| > 0 {
        var line := WriteLine(L2);
        text := line;
      }
      if |defs.l3| > 0 && !defs.l3[0].L3Cdp? {
        var line := WriteLine(L3);
        text := text + line;
      }
      if |defs.l3| > 0 && defs.l3[0].L3Cdp? {
        var line := WriteLine(L3Code);
        text := text + line;
        line := WriteLine(L3Data);
        text := text + line;
      }
      if |defs.mba| > 0 {
        var line := WriteLine(MB);
        text := text + line;
      }
    }
  }

  lemma EntriesNext(d: Defs, kind: Label, i: nat, line: string)
    requires Printable(d, kind) && i < Count(d, kind)
    ensures line + Entries(d, kind, i)
         == (if i > 0 then line + ";" else line) + Entry(i, ValueAt(d, kind, i), kind) + Entries(d, kind, i + 1)
  {
    hide Entry, Fits, ValueAt, Count;
    var entry, rest := Entry(i, ValueAt(d, kind, i), kind), Entries(d, kind, i + 1);
    assert "" + entry == entry;
    assert line + (";" + entry + rest) == line + ";" + entry + rest;
  }

  lemma EntriesEnd(d: Defs, kind: Label)
    requires Printable(d, kind)
    ensures Entries(d, kind, Count(d, kind)) == ""
  {
  }

  lemma UniformPrintable(d: Defs)
    requires Uniform(d)
    ensures |d.l2| > 0 ==> Printable(d, L2)
    ensures |d.l3| > 0 && !d.l3[0].L3Cdp? ==> Printable(d, L3)
    ensures |d.l3| > 0 && d.l3[0].L3Cdp? ==> Printable(d, L3Code) && Printable(d, L3Data)
    ensures |d.mba| > 0 ==> Printable(d, MB)
  {
  }
}
