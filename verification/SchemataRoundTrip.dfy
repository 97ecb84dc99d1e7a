/** Reading back what was printed, and what unknown lines do to it. */
module SchemataRoundTrip {
  import opened Bits
  import opened Results
  import opened ClassConfig
  import opened Numerals
  import opened Schemata

  // ----- texts in pieces -----

  /** The text stops at a line boundary. */
  predicate WholeLines(a: string) {
    a == "" || a[|a| - 1] == '\n'
  }

  lemma {:induction false} LineEndStable(a: string, b: string, room: nat)
    requires a != "" && WholeLines(a)
    ensures LineEnd(a + b, room) == LineEnd(a, room)
    decreases |a|
  {
    assert (a + b)[0] == a[0];
    if room > 0 && a[0] != '\n' {
      assert (a + b)[1..] == a[1..] + b;
      LineEndStable(a[1..], b, room - 1);
    }
  }

  /** A text of whole lines is read before what follows it. */
  lemma {:induction false} ReadAppend(a: string, b: string, d: Defs)
    requires WholeLines(a)
    ensures var r := ReadText(a, d); ReadText(a + b, d) == if r.ok then ReadText(b, r.defs) else r
    decreases |a|
  {
    hide ReadLine;
    if a == "" {
      assert a + b == b;
    } else {
      LineEndStable(a, b, LINE_MAX);
      var n := LineEnd(a, LINE_MAX);
      assert (a + b)[..n] == a[..n] && (a + b)[n..] == a[n..] + b;
      var r := ReadLine(a[..n], d);
      if r.ok {
        ReadAppend(a[n..], b, r.defs);
      }
    }
  }

  /** A line whose label the reader does not know. */
  predicate UnknownLine(u: string) {
    && 0 < |u| <= LINE_MAX && Find(u, '\n') == |u| - 1
    && var s := CString(u);
       var q := s[Spaces(s)..];
       Find(q, ':') < |q| && LabelOf(q[..Find(q, ':')]) == NoLabel
  }

  lemma {:induction false} LineEndAtFeed(s: string, rest: string, room: nat)
    requires s != "" && Find(s, '\n') == |s| - 1 && |s| <= room
    ensures LineEnd(s + rest, room) == |s|
    decreases |s|
  {
    assert (s + rest)[0] == s[0];
    if s[0] != '\n' {
      assert (s + rest)[1..] == s[1..] + rest;
      LineEndAtFeed(s[1..], rest, room - 1);
    }
  }

  lemma ReadOneLine(s: string, rest: string, d: Defs)
    requires 0 < |s| <= LINE_MAX && Find(s, '\n') == |s| - 1
    ensures var r := ReadLine(s, d); ReadText(s + rest, d) == if r.ok then ReadText(rest, r.defs) else r
  {
    hide ReadLine;
    LineEndAtFeed(s, rest, LINE_MAX);
    assert (s + rest)[..|s|] == s && (s + rest)[|s|..] == rest;
  }

  /** Lines with unknown labels, put between any two lines of any text, change nothing. */
  lemma UnknownLineIgnored(a: string, u: string, b: string, d: Defs)
    requires WholeLines(a) && UnknownLine(u)
    ensures ReadText(a + u + b, d) == ReadText(a + b, d)
  {
    assert a + u + b == a + (u + b);
    ReadAppend(a, u + b, d);
    ReadAppend(a, b, d);
    var r := ReadText(a, d);
    if r.ok {
      ReadOneLine(u, b, r.defs);
    }
  }

  // ----- one entry -----

  predicate PlainChar(c: char) {
    DigitVal(c) < 36 || c == ';' || c == '='
  }

  ghost predicate Plain(s: string) {
    forall i :: 0 <= i < |s| ==> PlainChar(s[i])
  }

  lemma EntryPlain(id: nat, v: nat, kind: Label)
    ensures Plain(Entry(id, v, kind)) && Entry(id, v, kind) != "" && DigitVal(Entry(id, v, kind)[0]) < 10
    ensures Find(Entry(id, v, kind), ';') == |Entry(id, v, kind)|
  {
    var e := Entry(id, v, kind);
    var n := |Digits(id, 10)|;
    forall i | 0 <= i < |e| ensures PlainChar(e[i]) && e[i] != ';' {
      if i < n {
        assert e[i] == Digits(id, 10)[i];
      } else if i > n {
        assert e[i] == Digits(v, kind.Base())[i - n - 1];
      }
    }
    assert e[0] == Digits(id, 10)[0];
  }

  lemma FindFirst(left: string, c: char, right: string)
    requires forall i :: 0 <= i < |left| ==> left[i] != c
    ensures Find(left + [c] + right, c) == |left|
    ensures (left + [c] + right)[..|left|] == left && (left + [c] + right)[|left| + 1..] == right
  {
    var s := left + [c] + right;
    assert forall i :: 0 <= i < |left| ==> s[i] == left[i];
    assert s[|left|] == c;
  }

  lemma ReadEntry(id: UInt, v: Word, kind: Label, tail: string, b: Defs)
    requires kind != NoLabel && Fits(b, kind, id) && (tail == "" || tail == "\n")
    ensures ReadToken(Entry(id, v, kind) + tail, kind, b) == Outcome(true, WithValue(b, kind, id, v))
  {
    var left, right := Digits(id, 10), Digits(v, kind.Base());
    FindFirst(left, '=', right + tail);
    PrintedReadsBack(id, 10, "");
    PrintedReadsBack(v, kind.Base(), tail);
    hide StrToUint64, Digits, WithValue, Fits, Find, ReadToken;
    Regroup(left, right, tail);
    ReadSplit(left, right + tail, id, v, kind, b);
  }

  lemma Regroup(left: string, right: string, tail: string)
    ensures left + "" == left
    ensures left + "=" + right + tail == left + ['='] + (right + tail)
  {
  }

  lemma ReadSplit(left: string, right: string, id: UInt, v: Word, kind: Label, b: Defs)
    requires var token := left + ['='] + right;
      Find(token, '=') == |left| && token[..|left|] == left && token[|left| + 1..] == right
    requires StrToUint64(left, 10) == Some(id) && StrToUint64(right, kind.Base()) == Some(v)
    requires kind != NoLabel && Fits(b, kind, id)
    ensures ReadToken(left + ['='] + right, kind, b) == Outcome(true, WithValue(b, kind, id, v))
  {
    hide StrToUint64, WithValue, Fits, Find;
  }

  // ----- the entries of one line -----

  /** Entries `i` on copied from `src`. */
  ghost function CopyFrom(src: Defs, kind: Label, b: Defs, i: nat): Defs
    requires Printable(src, kind) && Printable(b, kind) && Count(src, kind) == Count(b, kind)
    requires ValuesFit(src)
    decreases Count(src, kind) - i
  {
    if i >= Count(src, kind) then b
    else
      WithValueFits(b, kind, i, ValueAt(src, kind, i));
      CopyFrom(src, kind, WithValue(b, kind, i, ValueAt(src, kind, i)), i + 1)
  }

  /** Rates are 32-bit values, as the structure's field is. */
  ghost predicate ValuesFit(d: Defs) {
    forall i :: 0 <= i < |d.mba| ==> d.mba[i].rate < UINT_LIMIT
  }

  lemma WithValueFits(b: Defs, kind: Label, i: nat, v: Word)
    requires Printable(b, kind) && i < Count(b, kind)
    ensures Printable(WithValue(b, kind, i, v), kind) && Count(WithValue(b, kind, i, v), kind) == Count(b, kind)
  {
    forall j | 0 <= j < Count(b, kind) ensures Fits(WithValue(b, kind, i, v), kind, j) {
      assert Fits(b, kind, j) && Fits(b, kind, i);
    }
  }

  lemma {:induction false} EntriesPlain(d: Defs, kind: Label, i: nat)
    requires Printable(d, kind)
    ensures Plain(Entries(d, kind, i))
    decreases Count(d, kind) - i
  {
    if i < Count(d, kind) {
      EntriesPlain(d, kind, i + 1);
      EntryPlain(i, ValueAt(d, kind, i), kind);
      hide Entry, PlainChar;
      assert PlainChar(';') by {
        SemicolonPlain();
      }
    }
  }

  lemma SemicolonPlain()
    ensures PlainChar(';')
  {
  }

  /** Splitting off the first token: a separator, an entry, and what follows. */
  lemma FirstToken(s: string, sep: string, entry: string, more: string)
    requires s == sep + (entry + more) && (sep == "" || sep == ";")
    requires entry != "" && Find(entry, ';') == |entry| && more != "" && (more == "\n" || more[0] == ';')
    ensures Semis(s) == |sep| && s[|sep|..] == entry + more
    ensures Find(entry + more, ';') == if more == "\n" then |entry| + 1 else |entry|
  {
    NoSeparator(entry, more);
    assert (entry + more)[0] == entry[0];
    AfterSeparator(sep, entry + more);
  }

  lemma AfterSeparator(sep: string, t: string)
    requires (sep == "" || sep == ";") && t != "" && t[0] != ';'
    ensures Semis(sep + t) == |sep| && (sep + t)[|sep|..] == t
  {
    var s := sep + t;
    if sep == ";" {
      assert s[0] == ';' && s[1..] == t;
    } else {
      assert s == t;
    }
  }

  lemma NoSeparator(entry: string, more: string)
    requires Find(entry, ';') == |entry| && more != "" && (more == "\n" || more[0] == ';')
    ensures Find(entry + more, ';') == if more == "\n" then |entry| + 1 else |entry|
  {
    var t := entry + more;
    assert forall i :: 0 <= i < |entry| ==> t[i] == entry[i] && entry[i] != ';';
    assert t[|entry|] == more[0];
  }

  function Separator(i: nat): string {
    if i > 0 then ";" else ""
  }

  /** What follows entry `i` on its line. */
  ghost function More(d: Defs, kind: Label, i: nat): string
    requires Printable(d, kind)
  {
    Entries(d, kind, i + 1) + "\n"
  }

  lemma BodySplits(d: Defs, kind: Label, i: nat)
    requires Printable(d, kind) && i < Count(d, kind)
    ensures Entries(d, kind, i) + "\n" == Separator(i) + (Entry(i, ValueAt(d, kind, i), kind) + More(d, kind, i))
    ensures More(d, kind, i) != ""
    ensures if i + 1 == Count(d, kind) then More(d, kind, i) == "\n" else More(d, kind, i)[0] == ';'
  {
    hide Entry, Fits, ValueAt, Count;
    if i + 1 < Count(d, kind) {
      assert Entries(d, kind, i + 1)[0] == ';';
    }
  }

  lemma {:induction false} ReadBody(d: Defs, kind: Label, i: nat, b: Defs)
    requires Printable(d, kind) && Printable(b, kind) && Count(d, kind) == Count(b, kind) <= UINT_LIMIT
    requires ValuesFit(d) && i < Count(d, kind)
    ensures ReadTokens(Entries(d, kind, i) + "\n", kind, b) == Outcome(true, CopyFrom(d, kind, b, i))
    decreases Count(d, kind) - i
  {
    hide Entries, ReadTokens, ReadToken, Find, Semis, ValueAt, WithValue, Count, Entry, ValuesFit;
    ValueIsWord(d, kind, i);
    var v := ValueAt(d, kind, i);
    var s, sep, entry, more := Entries(d, kind, i) + "\n", Separator(i), Entry(i, v, kind), More(d, kind, i);
    var last := i + 1 == Count(d, kind);
    EntryPlain(i, v, kind);
    WithValueFits(b, kind, i, v);
    var b' := WithValue(b, kind, i, v);
    BodySplits(d, kind, i);
    FirstToken(s, sep, entry, more);
    ReadEntry(i, v, kind, if last then "\n" else "", b);
    assert entry + "" == entry;
    TokensStep(s, sep, entry, more, kind, b, b');
    if last {
      NoTokens(kind, b');
    } else {
      ReadBody(d, kind, i + 1, b');
    }
  }

  lemma ValueIsWord(d: Defs, kind: Label, i: nat)
    requires Printable(d, kind) && i < Count(d, kind) && ValuesFit(d)
    ensures ValueAt(d, kind, i) < WORD_LIMIT
  {
    assert Fits(d, kind, i);
  }

  lemma NoTokens(kind: Label, b: Defs)
    ensures ReadTokens("", kind, b) == Outcome(true, b)
  {
  }

  lemma TokensStep(s: string, sep: string, entry: string, more: string, kind: Label, b: Defs, b': Defs)
    requires s == sep + (entry + more) && entry != "" && more != ""
    requires Semis(s) == |sep| && s[|sep|..] == entry + more
    requires Find(entry + more, ';') == if more == "\n" then |entry| + 1 else |entry|
    requires ReadToken(if more == "\n" then entry + "\n" else entry, kind, b) == Outcome(true, b')
    ensures ReadTokens(s, kind, b) == ReadTokens(if more == "\n" then "" else more, kind, b')
  {
    hide ReadToken, Find, Semis;
    var t := entry + more;
    if more == "\n" {
      assert t[..|entry| + 1] == t && t[|entry| + 1..] == "";
    } else {
      assert t[..|entry|] == entry && t[|entry|..] == more;
    }
  }

  // ----- one line -----

  ghost predicate Alphanumeric(s: string) {
    forall i :: 0 <= i < |s| ==> DigitVal(s[i]) < 36
  }

  lemma FindLast(s: string, c: char)
    requires forall i :: 0 <= i < |s| ==> s[i] != c
    ensures Find(s + [c], c) == |s| && Find(s, c) == |s|
  {
    FindFirst(s, c, "");
    assert s + [c] + "" == s + [c];
  }

  lemma LineIsPlain(name: string, body: string)
    requires Plain(body) && Alphanumeric(name)
    ensures var s := name + ":" + body; Find(s + "\n", '\n') == |s| && Find(s + "\n", '\0') == |s| + 1
  {
    var s := name + ":" + body;
    forall i | 0 <= i < |s| ensures s[i] != '\n' && s[i] != '\0' {
      if i < |name| {
        assert s[i] == name[i];
      } else if i > |name| {
        assert s[i] == body[i - |name| - 1];
      }
    }
    FindLast(s, '\n');
    var t := s + "\n";
    assert forall i :: 0 <= i < |s| ==> t[i] == s[i];
    FindLast(t, '\0');
  }

  /** The label in front of the colon. */
  lemma LabelPart(name: string, rest: string)
    requires name != "" && Alphanumeric(name)
    ensures var s := name + ":" + rest;
      && Spaces(s) == 0 && Find(s, ':') == |name| && s[..|name|] == name && s[|name| + 1..] == rest
  {
    var s := name + ":" + rest;
    assert s == name + [':'] + rest;
    FindFirst(name, ':', rest);
    assert s[0] == name[0];
  }

  lemma ReadLabelled(s: string, name: string, rest: string, b: Defs)
    requires CString(s) == s && Spaces(s) == 0 && Find(s, ':') == |name| < |s|
    requires s[..|name|] == name && s[|name| + 1..] == rest && LabelOf(name) != NoLabel
    ensures ReadLine(s, b) == ReadTokens(rest, LabelOf(name), b)
  {
    hide CString, Find, Spaces, LabelOf, ReadTokens;
    assert s[0..] == s;
  }

  lemma WholeCString(s: string)
    requires Find(s, '\0') == |s|
    ensures CString(s) == s
  {
    hide Find;
  }

  lemma NameShape(kind: Label)
    requires kind != NoLabel
    ensures Name(kind) != "" && Alphanumeric(Name(kind))
  {
  }

  /** A printed line reads back as its entries. */
  lemma ReadPrintedLine(d: Defs, kind: Label, b: Defs)
    requires Printable(d, kind) && Printable(b, kind) && 0 < Count(d, kind) == Count(b, kind) <= UINT_LIMIT
    requires ValuesFit(d)
    ensures Find(Line(d, kind), '\n') == |Line(d, kind)| - 1
    ensures ReadLine(Line(d, kind), b) == Outcome(true, CopyFrom(d, kind, b, 0))
  {
    hide CopyFrom, Entries, Find, Spaces, LabelOf, ReadTokens, ReadLine, CString, Name, Plain, Alphanumeric, ValuesFit,
      Fits, Count;
    var name, body := Name(kind), Entries(d, kind, 0);
    var s := Line(d, kind);
    EntriesPlain(d, kind, 0);
    NameIsLabel(kind);
    NameShape(kind);
    ReadBody(d, kind, 0, b);
    LineIsPlain(name, body);
    LabelPart(name, body + "\n");
    assert s == name + ":" + (body + "\n");
    WholeCString(s);
    ReadLabelled(s, name, body + "\n", b);
  }

  /** Every printed line fits the reader's buffer. */
  ghost predicate LineFits(d: Defs, kind: Label) {
    Printable(d, kind) ==> |Line(d, kind)| <= LINE_MAX
  }

  ghost predicate LinesFit(d: Defs) {
    LineFits(d, L2) && LineFits(d, L3) && LineFits(d, L3Code) && LineFits(d, L3Data) && LineFits(d, MB)
  }

  lemma {:induction false} EntriesLonger(d: Defs, kind: Label, i: nat)
    requires Printable(d, kind) && i <= Count(d, kind)
    ensures |Entries(d, kind, i)| >= Count(d, kind) - i
    decreases Count(d, kind) - i
  {
    hide Fits, ValueAt, Digits;
    if i < Count(d, kind) {
      EntriesLonger(d, kind, i + 1);
    }
  }

  /** The line for `kind`, when there is one, is read before the rest of the text. */
  lemma ReadLineIf(d: Defs, kind: Label, present: bool, rest: string, b: Defs)
    requires present <==> Printable(d, kind) && Count(d, kind) > 0
    requires present ==> Printable(b, kind) && Count(d, kind) == Count(b, kind)
    requires ValuesFit(d) && LineFits(d, kind)
    ensures ReadText(LineIf(d, kind, present) + rest, b)
      == ReadText(rest, if present then CopyFrom(d, kind, b, 0) else b)
  {
    if present {
      EntriesLonger(d, kind, 0);
      assert |Line(d, kind)| > |Entries(d, kind, 0)|;
      ReadPrintedLine(d, kind, b);
      ReadOneLine(Line(d, kind), rest, b);
    } else {
      assert LineIf(d, kind, present) + rest == rest;
    }
  }

  // ----- the whole schemata -----

  /** Equal but for masks and rates. */
  ghost predicate SameShape(a: Defs, b: Defs) {
    && |a.l2| == |b.l2| && |a.l3| == |b.l3| && |a.mba| == |b.mba|
    && (forall i :: 0 <= i < |a.l2| ==> a.l2[i].classId == b.l2[i].classId)
    && (forall i :: 0 <= i < |a.l3| ==> a.l3[i].classId == b.l3[i].classId && a.l3[i].L3Cdp? == b.l3[i].L3Cdp?)
    && (forall i :: 0 <= i < |a.mba| ==> a.mba[i].classId == b.mba[i].classId)
  }

  function CodeOf(ca: L3Ca): Word {
    if ca.L3Cdp? then ca.code else 0
  }

  function DataOf(ca: L3Ca): Word {
    if ca.L3Cdp? then ca.data else 0
  }

  /** The first `n` entries of `kind` are those of `src`. */
  ghost function Merge(src: Defs, kind: Label, b: Defs, n: nat): Defs
    requires SameShape(src, b) && n <= Count(src, kind)
  {
    match kind
    case NoLabel => b
    case L2 => b.(l2 := src.l2[..n] + b.l2[n..])
    case L3 => b.(l3 := src.l3[..n] + b.l3[n..])
    case MB => b.(mba := src.mba[..n] + b.mba[n..])
    case L3Code =>
      b.(l3 := seq(|b.l3|, i requires 0 <= i < |b.l3| =>
        if i < n then L3Cdp(b.l3[i].classId, DataOf(b.l3[i]), CodeOf(src.l3[i])) else b.l3[i]))
    case L3Data =>
      b.(l3 := seq(|b.l3|, i requires 0 <= i < |b.l3| =>
        if i < n then L3Cdp(b.l3[i].classId, DataOf(src.l3[i]), CodeOf(b.l3[i])) else b.l3[i]))
  }

  lemma MergeShape(src: Defs, kind: Label, b: Defs, n: nat)
    requires SameShape(src, b) && Printable(src, kind) && n <= Count(src, kind)
    ensures SameShape(src, Merge(src, kind, b, n))
  {
    if kind == L3Code || kind == L3Data {
      forall i | 0 <= i < |src.l3| ensures src.l3[i].L3Cdp? {
        assert Fits(src, kind, i);
      }
    }
  }

  lemma ShapePrints(src: Defs, b: Defs, kind: Label)
    requires SameShape(src, b) && Printable(src, kind)
    ensures Printable(b, kind) && Count(b, kind) == Count(src, kind)
  {
    forall i | 0 <= i < Count(b, kind) ensures Fits(b, kind, i) {
      assert Fits(src, kind, i);
    }
  }

  lemma MergeStep(src: Defs, kind: Label, b: Defs, n: nat)
    requires SameShape(src, b) && Printable(src, kind) && n < Count(src, kind) && ValuesFit(src)
    ensures SameShape(src, Merge(src, kind, b, n)) && Fits(Merge(src, kind, b, n), kind, n)
    ensures WithValue(Merge(src, kind, b, n), kind, n, ValueAt(src, kind, n)) == Merge(src, kind, b, n + 1)
  {
    MergeShape(src, kind, b, n);
    ShapePrints(src, Merge(src, kind, b, n), kind);
    var x, y := WithValue(Merge(src, kind, b, n), kind, n, ValueAt(src, kind, n)), Merge(src, kind, b, n + 1);
    assert Fits(src, kind, n);
    if kind == L2 {
      assert src.l2[n].classId == b.l2[n].classId;
      assert x.l2 == y.l2;
    } else if kind == MB {
      assert src.mba[n].classId == b.mba[n].classId;
      assert x.mba == y.mba;
    } else {
      assert src.l3[n].classId == b.l3[n].classId;
      assert x.l3 == y.l3;
    }
  }

  lemma {:induction false} CopyIsMerge(src: Defs, kind: Label, b: Defs, n: nat)
    requires SameShape(src, b) && Printable(src, kind) && n <= Count(src, kind) && ValuesFit(src)
    ensures Printable(Merge(src, kind, b, n), kind) && Count(Merge(src, kind, b, n), kind) == Count(src, kind)
    ensures CopyFrom(src, kind, Merge(src, kind, b, n), n) == Merge(src, kind, b, Count(src, kind))
    decreases Count(src, kind) - n
  {
    MergeShape(src, kind, b, n);
    ShapePrints(src, Merge(src, kind, b, n), kind);
    hide Merge, SameShape, Printable, ValuesFit, Fits, ValueAt, WithValue;
    if n < Count(src, kind) {
      MergeStep(src, kind, b, n);
      CopyIsMerge(src, kind, b, n + 1);
    }
  }

  lemma MergeNone(src: Defs, kind: Label, b: Defs)
    requires SameShape(src, b) && Printable(src, kind)
    ensures Merge(src, kind, b, 0) == b
  {
    var m := Merge(src, kind, b, 0);
    assert m.l2 == b.l2 && m.l3 == b.l3 && m.mba == b.mba;
  }

  /** Copying all entries of a kind. */
  lemma CopyAll(src: Defs, kind: Label, b: Defs)
    requires SameShape(src, b) && Printable(src, kind) && ValuesFit(src)
    ensures Printable(b, kind) && Count(b, kind) == Count(src, kind)
    ensures CopyFrom(src, kind, b, 0) == Merge(src, kind, b, Count(src, kind))
  {
    ShapePrints(src, b, kind);
    MergeNone(src, kind, b);
    CopyIsMerge(src, kind, b, 0);
  }

  /** What reading the printed lines leaves, one technology after the other. */
  lemma MergedIsSource(d: Defs, b: Defs)
    requires SameShape(d, b) && Uniform(d)
    ensures Printable(d, L2) && Merge(d, L2, b, |d.l2|) == b.(l2 := d.l2)
    ensures Printable(d, MB) && Merge(d, MB, b, |d.mba|) == b.(mba := d.mba)
    ensures |d.l3| > 0 && !d.l3[0].L3Cdp? ==> Printable(d, L3) && Merge(d, L3, b, |d.l3|) == b.(l3 := d.l3)
    ensures |d.l3| > 0 && d.l3[0].L3Cdp? ==>
      && Printable(d, L3Code) && Printable(d, L3Data) && SameShape(d, Merge(d, L3Code, b, |d.l3|))
      && Merge(d, L3Data, Merge(d, L3Code, b, |d.l3|), |d.l3|) == b.(l3 := d.l3)
  {
    assert Printable(d, L2) && Printable(d, MB);
    assert Merge(d, L2, b, |d.l2|).l2 == d.l2;
    assert Merge(d, MB, b, |d.mba|).mba == d.mba;
    if |d.l3| > 0 && !d.l3[0].L3Cdp? {
      assert Merge(d, L3, b, |d.l3|).l3 == d.l3;
    }
    if |d.l3| > 0 && d.l3[0].L3Cdp? {
      MergeShape(d, L3Code, b, |d.l3|);
      assert Merge(d, L3Data, Merge(d, L3Code, b, |d.l3|), |d.l3|).l3 == d.l3;
    }
  }

  /** The L3 lines: one without CDP, two with it. */
  ghost function L3Lines(d: Defs): string
    requires Uniform(d)
  {
    var cdp := |d.l3| > 0 && d.l3[0].L3Cdp?;
    LineIf(d, L3, |d.l3| > 0 && !cdp) + LineIf(d, L3Code, cdp) + LineIf(d, L3Data, cdp)
  }

  lemma ReadL3Lines(d: Defs, rest: string, b: Defs)
    requires Uniform(d) && ValuesFit(d) && LinesFit(d) && SameShape(d, b)
    ensures ReadText(L3Lines(d) + rest, b) == ReadText(rest, b.(l3 := d.l3))
  {
    hide Printable, Uniform, ValuesFit, LineFits, SameShape, Merge, ReadText, LineIf, Fits;
    UniformPrintable(d);
    MergedIsSource(d, b);
    PrintableCdp(d);
    var cdp := |d.l3| > 0 && d.l3[0].L3Cdp?;
    var code, data := LineIf(d, L3Code, cdp), LineIf(d, L3Data, cdp);
    assert L3Lines(d) + rest == LineIf(d, L3, |d.l3| > 0 && !cdp) + (code + (data + rest));
    var b1 := if |d.l3| > 0 && !cdp then b.(l3 := d.l3) else b;
    ReadOneKind(d, L3, |d.l3| > 0 && !cdp, code + (data + rest), b, b1);
    var b2 := if cdp then Merge(d, L3Code, b, |d.l3|) else b1;
    assert SameShape(d, b1) by {
      L3Shape(d, b);
    }
    ReadOneKind(d, L3Code, cdp, data + rest, b1, b2);
    var b3 := if cdp then b.(l3 := d.l3) else b2;
    ReadOneKind(d, L3Data, cdp, rest, b2, b3);
    assert |d.l3| == 0 ==> b.(l3 := d.l3) == b by {
      L3Shape(d, b);
    }
  }

  lemma L3Shape(d: Defs, b: Defs)
    requires SameShape(d, b)
    ensures SameShape(d, b.(l3 := d.l3)) && SameShape(d, b.(l2 := d.l2)) && |d.l3| == |b.l3|
  {
  }

  lemma PrintableCdp(d: Defs)
    ensures Printable(d, L3) && |d.l3| > 0 ==> !d.l3[0].L3Cdp?
    ensures (Printable(d, L3Code) || Printable(d, L3Data)) && |d.l3| > 0 ==> d.l3[0].L3Cdp?
  {
    if |d.l3| > 0 {
      assert Printable(d, L3) ==> Fits(d, L3, 0);
      assert Printable(d, L3Code) ==> Fits(d, L3Code, 0);
      assert Printable(d, L3Data) ==> Fits(d, L3Data, 0);
    }
  }

  /** Reading what was printed, into any schemata of the same shape, gives back the original. */
  lemma RoundTrip(d: Defs, b: Defs)
    requires Uniform(d) && ValuesFit(d) && LinesFit(d) && SameShape(d, b)
    ensures ReadText(Print(d), b) == Outcome(true, d)
  {
    hide Printable, Uniform, ValuesFit, LineFits, Merge, ReadText, LineIf, L3Lines, Print, Fits;
    UniformPrintable(d);
    MergedIsSource(d, b);
    L3Shape(d, b);
    var b1 := b.(l2 := d.l2);
    var b2 := b1.(l3 := d.l3);
    L3Shape(d, b1);
    MergedIsSource(d, b2);
    var l2, mb := LineIf(d, L2, |d.l2| > 0), LineIf(d, MB, |d.mba| > 0);
    PrintInThree(d);
    ReadOneKind(d, L2, |d.l2| > 0, L3Lines(d) + mb, b, b1);
    ReadL3Lines(d, mb, b1);
    assert mb + "" == mb;
    ReadOneKind(d, MB, |d.mba| > 0, "", b2, d);
    ReadNothing(d);
  }

  lemma PrintInThree(d: Defs)
    requires Uniform(d)
    ensures |d.l2| > 0 ==> Printable(d, L2)
    ensures |d.mba| > 0 ==> Printable(d, MB)
    ensures Print(d) == LineIf(d, L2, |d.l2| > 0) + (L3Lines(d) + LineIf(d, MB, |d.mba| > 0))
  {
    UniformPrintable(d);
    hide Uniform, Printable, Line;
    var cdp := |d.l3| > 0 && d.l3[0].L3Cdp?;
    var a, b, c, e, f := LineIf(d, L2, |d.l2| > 0), LineIf(d, L3, |d.l3| > 0 && !cdp), LineIf(d, L3Code, cdp),
      LineIf(d, L3Data, cdp), LineIf(d, MB, |d.mba| > 0);
    Regroup5(a, b, c, e, f);
  }

  lemma Regroup5(a: string, b: string, c: string, e: string, f: string)
    ensures a + b + c + e + f == a + ((b + c + e) + f)
  {
  }

  lemma ReadNothing(d: Defs)
    ensures ReadText("", d) == Outcome(true, d)
  {
  }

  lemma ReadOneKind(d: Defs, kind: Label, present: bool, rest: string, b: Defs, b': Defs)
    requires kind != NoLabel && (present <==> Printable(d, kind) && Count(d, kind) > 0)
    requires ValuesFit(d) && LineFits(d, kind) && SameShape(d, b)
    requires b' == if present then Merge(d, kind, b, Count(d, kind)) else b
    ensures ReadText(LineIf(d, kind, present) + rest, b) == ReadText(rest, b')
  {
    if present {
      CopyAll(d, kind, b);
    }
    ReadLineIf(d, kind, present, rest, b);
  }

  // ----- when the lines fit -----

  lemma Powers()
    ensures Power(10, 3) == 1000 && Power(10, 10) >= UINT_LIMIT && Power(16, 16) == WORD_LIMIT
  {
    assert Power(10, 5) == 100000;
    assert Power(16, 4) == 65536;
    assert Power(16, 8) == 65536 * 65536;
    assert Power(16, 12) == 65536 * 65536 * 65536;
  }

  lemma EntryLength(id: nat, v: Word, kind: Label)
    requires id < 1000 && (kind == MB ==> v < UINT_LIMIT)
    ensures |Entry(id, v, kind)| <= 20
  {
    Powers();
    hide Digits, Power;
    DigitsLength(id, 10, 3);
    DigitsLength(v, kind.Base(), if kind == MB then 10 else 16);
  }

  lemma {:induction false} EntriesLength(d: Defs, kind: Label, i: nat)
    requires Printable(d, kind) && ValuesFit(d) && i <= Count(d, kind) <= 1000
    ensures |Entries(d, kind, i)| <= 21 * (Count(d, kind) - i)
    decreases Count(d, kind) - i
  {
    if i < Count(d, kind) {
      EntriesLength(d, kind, i + 1);
      ValueIsWord(d, kind, i);
      EntryLength(i, ValueAt(d, kind, i), kind);
      hide Entry;
    }
  }

  /** Up to 700 resource ids always fit. */
  lemma FewIdsFit(d: Defs)
    requires ValuesFit(d) && |d.l2| <= 700 && |d.l3| <= 700 && |d.mba| <= 700
    ensures LinesFit(d)
  {
    forall kind: Label ensures LineFits(d, kind) {
      if Printable(d, kind) {
        EntriesLength(d, kind, 0);
        NameLength(kind);
        hide Entries, Name;
      }
    }
  }

  lemma NameLength(kind: Label)
    ensures |Name(kind)| <= 6
  {
  }
}
