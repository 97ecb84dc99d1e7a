/** The cpus text of a resctrl group: a 4096-bit mask in hexadecimal (lib/resctrl_alloc.c, lib/os_allocation.c). */
module Cpumask {
  import opened Bits
  import opened Numerals

  const MAX_CPUS: nat := 4096
  const TAB_SIZE: nat := 512

  type Byte = b: nat | b < 256

  /** A mask: byte 511 holds cores 0..7. */
  type Tab = t: seq<Byte> | |t| == TAB_SIZE witness seq(TAB_SIZE, i => 0)

  // ----- single cores -----

  predicate HasCpu(tab: Tab, lcore: nat)
    requires lcore < MAX_CPUS
  {
    Shr(tab[TAB_SIZE - 1 - lcore / 8], lcore % 8) % 2 == 1
  }

  lemma {:induction false} OrBit(x: nat, bit: nat, j: nat)
    ensures Shr(Or(x, Pow2(bit)), j) % 2 == 1 <==> j == bit || Shr(x, j) % 2 == 1
    decreases j + bit
  {
    if x == 0 {
      PowBit(bit, j);
      ShrAll(0, j);
    } else if bit == 0 {
      assert Or(x, 1) == 1 + 2 * Or(x / 2, 0);
      assert Or(x, 1) / 2 == x / 2;
    } else {
      assert Or(x, Pow2(bit)) == x % 2 + 2 * Or(x / 2, Pow2(bit - 1));
      if j > 0 {
        OrBit(x / 2, bit - 1, j - 1);
      }
    }
  }

  lemma {:induction false} PowBit(bit: nat, j: nat)
    ensures Shr(Pow2(bit), j) % 2 == 1 <==> j == bit
  {
    if bit > 0 && j > 0 {
      PowBit(bit - 1, j - 1);
    } else if bit == 0 && j > 0 {
      ShrAll(0, j - 1);
    }
  }

  lemma ByteOr(x: Byte, bit: nat)
    requires bit < 8
    ensures Or(x, Pow2(bit)) < 256
  {
    assert Pow2(8) == 256;
    Pow2Monotone(bit + 1, 8);
    OrBelow(x, Pow2(bit), 8);
  }

  /** The mask with one more core. */
  function WithCpu(tab: Tab, lcore: nat): Tab
    requires lcore < MAX_CPUS
  {
    var item := TAB_SIZE - 1 - lcore / 8;
    ByteOr(tab[item], lcore % 8);
    tab[item := Or(tab[item], Pow2(lcore % 8))]
  }

  lemma WithCpuHas(tab: Tab, lcore: nat, l: nat)
    requires lcore < MAX_CPUS && l < MAX_CPUS
    ensures HasCpu(WithCpu(tab, lcore), l) <==> l == lcore || HasCpu(tab, l)
  {
    OrBit(tab[TAB_SIZE - 1 - lcore / 8], lcore % 8, l % 8);
    assert l == l / 8 * 8 + l % 8 && lcore == lcore / 8 * 8 + lcore % 8;
  }

  method CpumaskSet(lcore: nat, mask: array<Byte>)
    requires lcore < MAX_CPUS && mask.Length == TAB_SIZE
    modifies mask
    ensures mask[..] == WithCpu(old(mask[..]), lcore)
    ensures forall l :: 0 <= l < MAX_CPUS ==> (HasCpu(mask[..], l) <==> l == lcore || HasCpu(old(mask[..]), l))
  {
    ghost var before: Tab := mask[..];
    var item, bit := mask.Length - 1 - lcore / 8, lcore % 8;
    ByteOr(mask[item], bit);
    mask[item] := Or(mask[item], Pow2(bit));
    forall l | 0 <= l < MAX_CPUS ensures HasCpu(WithCpu(before, lcore), l) <==> l == lcore || HasCpu(before, l) {
      WithCpuHas(before, lcore, l);
    }
  }

  method CpumaskGet(lcore: nat, mask: array<Byte>) returns (set_: bool)
    requires lcore < MAX_CPUS && mask.Length == TAB_SIZE
    ensures set_ <==> HasCpu(mask[..], lcore)
  {
    var item, bit := mask.Length - 1 - lcore / 8, lcore % 8;
    set_ := Shr(mask[item], bit) % 2 == 1;
  }

  // ----- writing -----

  /** `printf` with `%02x`. */
  function Hex2(b: Byte): string {
    [DigitChar(b / 16), DigitChar(b % 16)]
  }

  /** The printed bytes from `i` on, a comma after every fourth. */
  function TextFrom(tab: Tab, i: nat): (s: string)
    requires i <= TAB_SIZE
    ensures |s| == 2 * (TAB_SIZE - i) + (TAB_SIZE / 4 - i / 4)
    decreases TAB_SIZE - i
  {
    if i == TAB_SIZE then ""
    else Hex2(tab[i]) + (if (i + 1) % 4 == 0 then "," else "") + TextFrom(tab, i + 1)
  }

  method CpumaskWrite(mask: array<Byte>) returns (text: string)
    requires mask.Length == TAB_SIZE
    ensures text == TextFrom(mask[..], 0)
  {
    hide TextFrom, Hex2;
    text := "";
    for i := 0 to mask.Length
      invariant text + TextFrom(mask[..], i) == TextFrom(mask[..], 0)
    {
      TextStep(mask[..], i, text);
      text := text + Hex2(mask[i]);
      if (i + 1) % 4 == 0 {
        text := text + ",";
      }
    }
    TextEnd(mask[..], text);
  }

  lemma TextStep(tab: Tab, i: nat, text: string)
    requires i < TAB_SIZE
    ensures text + TextFrom(tab, i)
         == (if (i + 1) % 4 == 0 then text + Hex2(tab[i]) + "," else text + Hex2(tab[i])) + TextFrom(tab, i + 1)
  {
    hide Hex2;
    var two, rest := Hex2(tab[i]), TextFrom(tab, i + 1);
    assert two + "" == two;
    assert text + (two + "," + rest) == text + two + "," + rest;
    assert text + (two + rest) == text + two + rest;
  }

  lemma TextEnd(tab: Tab, text: string)
    ensures text + TextFrom(tab, TAB_SIZE) == text
  {
  }

  // ----- reading -----

  /** The values of the hexadecimal digits, the last one first; other characters are skipped. */
  function Nibbles(s: string): (d: seq<nat>)
    ensures forall k :: 0 <= k < |d| ==> d[k] < 16
    ensures |d| <= |s|
  {
    if s == "" then []
    else Nibbles(s[1..]) + if DigitVal(s[0]) < 16 then [DigitVal(s[0])] else []
  }

  function Nth(d: seq<nat>, k: nat): nat {
    if k < |d| then d[k] else 0
  }

  function ByteAt(d: seq<nat>, i: nat): nat
    requires i < TAB_SIZE
  {
    Nth(d, 2 * (TAB_SIZE - 1 - i)) + 16 * Nth(d, 2 * (TAB_SIZE - 1 - i) + 1)
  }

  /** The mask that the digits spell, the first digit lowest. */
  function TabOf(d: seq<nat>): Tab
    requires forall k :: 0 <= k < |d| ==> d[k] < 16
  {
    seq(TAB_SIZE, i requires 0 <= i < TAB_SIZE => ByteAt(d, i))
  }

  lemma NthAppend(d: seq<nat>, v: nat, k: nat)
    ensures Nth(d + [v], k) == if k == |d| then v else Nth(d, k)
  {
  }

  lemma ByteStep(d: seq<nat>, v: nat, j: nat)
    requires j < TAB_SIZE
    ensures j != TAB_SIZE - 1 - |d| / 2 ==> ByteAt(d + [v], j) == ByteAt(d, j)
    ensures j == TAB_SIZE - 1 - |d| / 2 && |d| % 2 == 0 ==> ByteAt(d + [v], j) == v
    ensures j == TAB_SIZE - 1 - |d| / 2 && |d| % 2 == 1 ==>
      ByteAt(d, j) == Nth(d, |d| - 1) && ByteAt(d + [v], j) == ByteAt(d, j) + 16 * v
  {
    NthAppend(d, v, 2 * (TAB_SIZE - 1 - j));
    NthAppend(d, v, 2 * (TAB_SIZE - 1 - j) + 1);
    var k := TAB_SIZE - 1 - j;
    if k == |d| / 2 {
      assert |d| == 2 * k + |d| % 2;
    }
  }

  /** What the mask is after one more digit: a low one starts a byte, a high one completes it. */
  lemma OneMoreNibble(d: seq<nat>, v: nat)
    requires (forall k :: 0 <= k < |d| ==> d[k] < 16) && v < 16 && |d| < 2 * TAB_SIZE
    ensures var i := TAB_SIZE - 1 - |d| / 2;
      && (|d| % 2 == 0 ==> TabOf(d + [v]) == TabOf(d)[i := v])
      && (|d| % 2 == 1 ==> TabOf(d)[i] < 16 && TabOf(d + [v]) == TabOf(d)[i := TabOf(d)[i] + 16 * v])
  {
    var t, u := TabOf(d), TabOf(d + [v]);
    forall j | 0 <= j < TAB_SIZE
      ensures t[j] == ByteAt(d, j) && u[j] == ByteAt(d + [v], j)
      ensures j != TAB_SIZE - 1 - |d| / 2 ==> u[j] == t[j]
    {
      ByteStep(d, v, j);
    }
    ByteStep(d, v, TAB_SIZE - 1 - |d| / 2);
    hide ByteAt, TabOf;
    assert |d| % 2 == 1 ==> Nth(d, |d| - 1) < 16;
  }

  /** `low | high << 4` for a low nibble. */
  lemma OrNibble(low: nat, high: nat)
    requires low < 16
    ensures Or(low, 16 * high) == low + 16 * high
  {
    OrShifted(low, high, 4);
    assert Pow2(4) == 16;
  }

  lemma {:induction false} OrShifted(low: nat, high: nat, n: nat)
    requires low < Pow2(n)
    ensures Or(low, Pow2(n) * high) == low + Pow2(n) * high
  {
    if low > 0 && high > 0 {
      var rest := Pow2(n - 1) * high;
      assert Pow2(n) * high == 2 * rest;
      OrShifted(low / 2, high, n - 1);
      assert rest > 0;
    }
  }

  lemma NibblesStep(s: string, i: nat)
    requires i < |s|
    ensures Nibbles(s[i..])
      == if DigitVal(s[i]) < 16 then Nibbles(s[i + 1..]) + [DigitVal(s[i])] else Nibbles(s[i + 1..])
  {
    assert s[i..][1..] == s[i + 1..];
  }

  method ClearMask(mask: array<Byte>)
    modifies mask
    ensures forall j :: 0 <= j < mask.Length ==> mask[j] == 0
  {
    for k := 0 to mask.Length
      invariant forall j :: 0 <= j < k ==> mask[j] == 0
    {
      mask[k] := 0;
    }
  }

  lemma EmptyTab(t: Tab)
    requires forall j :: 0 <= j < TAB_SIZE ==> t[j] == 0
    ensures t == TabOf([]) && Nibbles("") == []
  {
  }

  /** The conversion loop, from the last character back, on a cleared mask. */
  method Convert(cpus: string, mask: array<Byte>)
    requires mask.Length == TAB_SIZE && |Nibbles(cpus)| <= 2 * TAB_SIZE
    modifies mask
    ensures mask[..] == TabOf(Nibbles(cpus))
  {
    hide Nibbles, TabOf, Or, DigitVal;
    ClearMask(mask);
    EmptyTab(mask[..]);
    var i, hexOffset, idx := |cpus|, 0, mask.Length - 1;
    assert cpus[i..] == "";
    while i > 0
      invariant 0 <= i <= |cpus|
      invariant hexOffset == |Nibbles(cpus[i..])| % 2 && idx == TAB_SIZE - 1 - |Nibbles(cpus[i..])| / 2
      invariant mask[..] == TabOf(Nibbles(cpus[i..]))
    {
      i := i - 1;
      ghost var d := Nibbles(cpus[i + 1..]);
      NibblesStep(cpus, i);
      FewerNibbles(cpus, i);
      var hex := DigitVal(cpus[i]);
      if hex >= 16 {
        continue;
      }
      OneMoreNibble(d, hex);
      ghost var before: Tab := mask[..];
      if hexOffset == 0 {
        mask[idx] := hex;
        assert mask[..] == before[idx := hex];
      } else {
        OrNibble(mask[idx], hex);
        mask[idx] := Or(mask[idx], 16 * hex);
        assert mask[..] == before[idx := before[idx] + 16 * hex];
        idx := idx - 1;
      }
      hexOffset := 1 - hexOffset;
    }
    assert cpus[0..] == cpus;
  }

  lemma {:induction false} FewerNibbles(s: string, i: nat)
    requires i <= |s|
    ensures |Nibbles(s[i..])| <= |Nibbles(s)|
  {
    if i == 0 {
      assert s[0..] == s;
    } else {
      FewerNibbles(s, i - 1);
      NibblesStep(s, i - 1);
    }
  }

  // ----- what was written reads back -----

  lemma {:induction false} NibblesConcat(a: string, b: string)
    ensures Nibbles(a + b) == Nibbles(b) + Nibbles(a)
  {
    if a == "" {
      assert a + b == b;
    } else {
      assert (a + b)[0] == a[0] && (a + b)[1..] == a[1..] + b;
      NibblesConcat(a[1..], b);
    }
  }

  lemma HexNibbles(b: Byte, sep: string)
    requires sep == "" || sep == ","
    ensures Nibbles(Hex2(b) + sep) == [b % 16, b / 16]
  {
    var s := Hex2(b) + sep;
    assert s[0] == DigitChar(b / 16) && s[1] == DigitChar(b % 16);
    assert s[1..][0] == DigitChar(b % 16) && s[1..][1..] == sep;
    SeparatorHasNone(sep);
    assert Nibbles(s[1..]) == [] + [b % 16];
  }

  lemma SeparatorHasNone(sep: string)
    requires sep == "" || sep == ","
    ensures Nibbles(sep) == []
  {
    if sep == "," {
      assert sep[1..] == "";
    }
  }

  /** The digits of the full text, last byte first, low nibble first. */
  ghost predicate Spells(d: seq<nat>, tab: Tab, i: nat) {
    i <= TAB_SIZE && |d| == 2 * (TAB_SIZE - i)
    && forall k :: 0 <= k < TAB_SIZE - i ==>
      d[2 * k] == tab[TAB_SIZE - 1 - k] % 16 && d[2 * k + 1] == tab[TAB_SIZE - 1 - k] / 16
  }

  lemma {:induction false} TextSpells(tab: Tab, i: nat)
    requires i <= TAB_SIZE
    ensures Spells(Nibbles(TextFrom(tab, i)), tab, i)
    decreases TAB_SIZE - i
  {
    if i < TAB_SIZE {
      hide Nibbles, Spells, Hex2;
      var sep := if (i + 1) % 4 == 0 then "," else "";
      TextSpells(tab, i + 1);
      NibblesConcat(Hex2(tab[i]) + sep, TextFrom(tab, i + 1));
      HexNibbles(tab[i], sep);
      SpellsStep(Nibbles(TextFrom(tab, i + 1)), tab, i);
    } else {
      NoText(tab);
    }
  }

  lemma NoText(tab: Tab)
    ensures Spells(Nibbles(TextFrom(tab, TAB_SIZE)), tab, TAB_SIZE)
  {
  }

  lemma SpellsStep(d: seq<nat>, tab: Tab, i: nat)
    requires i < TAB_SIZE && Spells(d, tab, i + 1)
    ensures Spells(d + [tab[i] % 16, tab[i] / 16], tab, i)
  {
    var e := d + [tab[i] % 16, tab[i] / 16];
    forall k | 0 <= k < TAB_SIZE - i
      ensures e[2 * k] == tab[TAB_SIZE - 1 - k] % 16 && e[2 * k + 1] == tab[TAB_SIZE - 1 - k] / 16
    {
      if k < TAB_SIZE - i - 1 {
        assert e[2 * k] == d[2 * k] && e[2 * k + 1] == d[2 * k + 1];
      }
    }
  }

  lemma SpellsTab(d: seq<nat>, tab: Tab)
    requires Spells(d, tab, 0) && forall k :: 0 <= k < |d| ==> d[k] < 16
    ensures TabOf(d) == tab
  {
    forall i | 0 <= i < TAB_SIZE ensures ByteAt(d, i) == tab[i] {
      var k := TAB_SIZE - 1 - i;
      assert d[2 * k] == tab[TAB_SIZE - 1 - k] % 16;
    }
  }

  /** The conversion loop undoes the writer, for every mask. */
  lemma TextReadsBack(tab: Tab)
    ensures TabOf(Nibbles(TextFrom(tab, 0))) == tab
  {
    TextSpells(tab, 0);
    SpellsTab(Nibbles(TextFrom(tab, 0)), tab);
  }

  /** Only zeros and separators. */
  predicate ZeroText(z: string) {
    forall i :: 0 <= i < |z| ==> DigitVal(z[i]) == 0 || DigitVal(z[i]) >= 16
  }

  lemma {:induction false} ZeroNibbles(z: string)
    requires ZeroText(z)
    ensures forall k :: 0 <= k < |Nibbles(z)| ==> Nibbles(z)[k] == 0
  {
    if z != "" {
      ZeroNibbles(z[1..]);
    }
  }

  /** Leading zeros and commas do not matter. */
  lemma LeadingZeros(z: string, text: string)
    requires ZeroText(z)
    ensures TabOf(Nibbles(z + text)) == TabOf(Nibbles(text))
  {
    ZeroNibbles(z);
    NibblesConcat(z, text);
    hide Nibbles;
    var d, e := Nibbles(text), Nibbles(z + text);
    forall k: nat ensures Nth(e, k) == Nth(d, k) {
      if |d| <= k < |e| {
        assert e[k] == Nibbles(z)[k - |d|];
      }
    }
    assert forall i :: 0 <= i < TAB_SIZE ==> ByteAt(e, i) == ByteAt(d, i);
  }

  /** What one read of 512 bytes leaves in the buffer, its last byte overwritten. */
  function Buffered(text: string): string {
    if |text| < TAB_SIZE then text else text[..TAB_SIZE - 1] + ['\0']
  }

  function MaskIn(text: string): Tab {
    TabOf(Nibbles(Buffered(text)))
  }

  /** A text that leaves out leading zero groups reads back in full if it has at most 511 characters. */
  lemma ShortTextReadsBack(tab: Tab, z: string, text: string)
    requires ZeroText(z) && z + text == TextFrom(tab, 0) && |text| < TAB_SIZE
    ensures MaskIn(text) == tab
  {
    hide TextFrom, Nibbles, TabOf;
    LeadingZeros(z, text);
    TextReadsBack(tab);
  }

  // ----- the full text does not fit the reader -----

  /** The printed bytes before `i`. */
  function TextUpTo(tab: Tab, i: nat): string
    requires i <= TAB_SIZE
  {
    if i == 0 then ""
    else if i % 4 == 0 then TextUpTo(tab, i - 1) + Hex2(tab[i - 1]) + ","
    else TextUpTo(tab, i - 1) + Hex2(tab[i - 1])
  }

  lemma {:induction false} TextSplits(tab: Tab, i: nat)
    requires i <= TAB_SIZE
    ensures TextUpTo(tab, i) + TextFrom(tab, i) == TextFrom(tab, 0)
  {
    hide TextFrom, Hex2;
    if i == 0 {
      assert "" + TextFrom(tab, 0) == TextFrom(tab, 0);
    } else {
      TextSplits(tab, i - 1);
      TextStep(tab, i - 1, TextUpTo(tab, i - 1));
    }
  }

  /** The part of the full text that the reader misses holds 569 of its 1024 digits. */
  lemma MissedDigits(tab: Tab)
    ensures var text := TextFrom(tab, 0); |text| == 1152 && |Nibbles(text[TAB_SIZE - 1..])| == 569
  {
    hide TextFrom, TextUpTo, Nibbles, Spells;
    var text, lowDigit, tail := TextFrom(tab, 0), [DigitChar(tab[227] % 16)] + ",", TextFrom(tab, 228);
    TextSplits(tab, 227);
    SplitByte(tab, 227);
    CutAfter(text, TextUpTo(tab, 227), [DigitChar(tab[227] / 16)], lowDigit + tail);
    NibblesConcat(lowDigit, tail);
    LowDigitAndComma(tab[227] % 16);
    TextLength(tab, 228);
  }

  lemma TextLength(tab: Tab, i: nat)
    requires i <= TAB_SIZE
    ensures |Nibbles(TextFrom(tab, i))| == 2 * (TAB_SIZE - i)
  {
    TextSpells(tab, i);
  }

  lemma SplitByte(tab: Tab, i: nat)
    requires i < TAB_SIZE && (i + 1) % 4 == 0
    ensures TextFrom(tab, i) == [DigitChar(tab[i] / 16)] + ([DigitChar(tab[i] % 16)] + "," + TextFrom(tab, i + 1))
  {
    assert Hex2(tab[i]) == [DigitChar(tab[i] / 16)] + [DigitChar(tab[i] % 16)];
  }

  lemma CutAfter(text: string, front: string, one: string, rest: string)
    requires |one| == 1 && text == front + (one + rest)
    ensures text[|front| + 1..] == rest
  {
  }

  lemma LowDigitAndComma(v: nat)
    requires v < 16
    ensures Nibbles([DigitChar(v)] + ",") == [v]
  {
    var s := [DigitChar(v)] + ",";
    assert s[0] == DigitChar(v) && s[1..] == ",";
    SeparatorHasNone(",");
  }

  lemma SameNibbles(d: seq<nat>, e: seq<nat>)
    requires forall k :: 0 <= k < |d| ==> d[k] < 16
    requires forall k :: 0 <= k < |e| ==> e[k] < 16
    requires TabOf(d) == TabOf(e)
    ensures forall k :: 0 <= k < 2 * TAB_SIZE ==> Nth(d, k) == Nth(e, k)
  {
    forall k | 0 <= k < 2 * TAB_SIZE ensures Nth(d, k) == Nth(e, k) {
      var i := TAB_SIZE - 1 - k / 2;
      assert TabOf(d)[i] == ByteAt(d, i) && TabOf(e)[i] == ByteAt(e, i);
      assert 2 * (TAB_SIZE - 1 - i) == 2 * (k / 2);
    }
  }

  /** Read back verbatim, the writer's own text yields the mask exactly when no core is in it: what makes the
      read-modify-write operations work is the kernel's shorter rendering. */
  lemma FullTextDoesNotFit(tab: Tab)
    ensures MaskIn(TextFrom(tab, 0)) == tab <==> forall i :: 0 <= i < TAB_SIZE ==> tab[i] == 0
  {
    var text := TextFrom(tab, 0);
    var d, e := Nibbles(text), Nibbles(text[..TAB_SIZE - 1]);
    MissedDigits(tab);
    TextSpells(tab, 0);
    TextReadsBack(tab);
    hide TextFrom, Nibbles, TabOf, MaskIn, Spells;
    SpelledLength(d, tab);
    SeenDigits(text);
    if TabOf(e) == tab {
      SameNibbles(d, e);
      ShiftedIsZero(d, e);
      SpelledZero(d, tab);
    }
    if forall i :: 0 <= i < TAB_SIZE ==> tab[i] == 0 {
      ZeroTab(d, e, tab);
    }
  }

  lemma SpelledLength(d: seq<nat>, tab: Tab)
    requires Spells(d, tab, 0)
    ensures |d| == 1024
  {
  }

  /** The reader sees the digits past the 569 lowest. */
  lemma SeenDigits(text: string)
    requires |text| == 1152 && |Nibbles(text)| == 1024 && |Nibbles(text[TAB_SIZE - 1..])| == 569
    ensures var d, e := Nibbles(text), Nibbles(text[..TAB_SIZE - 1]);
      |e| == 455 && MaskIn(text) == TabOf(e) && forall k :: 0 <= k < 455 ==> e[k] == d[k + 569]
  {
    hide Nibbles, TabOf;
    var head, tail := text[..TAB_SIZE - 1], text[TAB_SIZE - 1..];
    assert head + tail == text;
    NibblesConcat(head, tail);
    NulIsSkipped(head);
  }

  lemma NulIsSkipped(s: string)
    ensures Nibbles(s + ['\0']) == Nibbles(s)
  {
    NibblesConcat(s, ['\0']);
    assert ['\0'][1..] == "";
    assert Nibbles(['\0']) == [];
  }

  lemma ShiftedIsZero(d: seq<nat>, e: seq<nat>)
    requires |d| == 1024 && |e| == 455 && (forall k :: 0 <= k < |e| ==> e[k] == d[k + 569])
    requires forall k :: 0 <= k < 1024 ==> Nth(d, k) == Nth(e, k)
    ensures forall k :: 0 <= k < 1024 ==> d[k] == 0
  {
    assert forall k :: 455 <= k < 1024 ==> d[k] == Nth(d, k) == Nth(e, k) == 0;
    assert forall k :: 0 <= k < 455 ==> d[k] == Nth(d, k) == Nth(e, k) == e[k];
  }

  lemma SpelledZero(d: seq<nat>, tab: Tab)
    requires Spells(d, tab, 0) && forall k :: 0 <= k < |d| ==> d[k] == 0
    ensures forall i :: 0 <= i < TAB_SIZE ==> tab[i] == 0
  {
    forall i | 0 <= i < TAB_SIZE ensures tab[i] == 0 {
      var k := TAB_SIZE - 1 - i;
      assert d[2 * k] == tab[TAB_SIZE - 1 - k] % 16 && d[2 * k + 1] == tab[TAB_SIZE - 1 - k] / 16;
    }
  }

  lemma ZeroTab(d: seq<nat>, e: seq<nat>, tab: Tab)
    requires Spells(d, tab, 0) && |e| == 455 && forall k :: 0 <= k < |e| ==> e[k] == d[k + 569]
    requires forall k :: 0 <= k < |e| ==> e[k] < 16
    requires forall i :: 0 <= i < TAB_SIZE ==> tab[i] == 0
    ensures TabOf(e) == tab
  {
    forall k | 0 <= k < 1024 ensures d[k] == 0 {
      assert d[2 * (k / 2)] == 0 && d[2 * (k / 2) + 1] == 0;
    }
    assert forall i :: 0 <= i < TAB_SIZE ==> ByteAt(e, i) == 0;
  }

  // ----- where a core stands in the text -----

  lemma {:induction false} ShrSplit(low: nat, high: nat, n: nat, j: nat)
    requires low < Pow2(n)
    ensures Shr(low + Pow2(n) * high, j) % 2 == if j < n then Shr(low, j) % 2 else Shr(high, j - n) % 2
    decreases j
  {
    if n > 0 {
      var rest := Pow2(n - 1) * high;
      assert Pow2(n) * high == 2 * rest;
      if j > 0 {
        ShrSplit(low / 2, high, n - 1, j - 1);
      }
    }
  }

  /** A bit of a byte is a bit of one of its hexadecimal digits. */
  lemma NibbleBit(b: Byte, j: nat)
    requires j < 8
    ensures Shr(b, j) % 2 == if j < 4 then Shr(b % 16, j) % 2 else Shr(b / 16, j - 4) % 2
  {
    assert Pow2(4) == 16;
    ShrSplit(b % 16, b / 16, 4, j);
  }

  lemma {:induction false} TextAt(tab: Tab, i: nat, item: nat)
    requires i <= item < 512
    ensures var at := 2 * (item - i) + (item / 4 - i / 4);
      at + 1 < |TextFrom(tab, i)| && TextFrom(tab, i)[at] == DigitChar(tab[item] / 16)
      && TextFrom(tab, i)[at + 1] == DigitChar(tab[item] % 16)
    decreases item - i
  {
    hide TextFrom, DigitChar;
    var head := FirstByte(tab, i);
    if i < item {
      TextAt(tab, i + 1, item);
      var s, rest := TextFrom(tab, i), TextFrom(tab, i + 1);
      var at := 2 * (item - i - 1) + (item / 4 - (i + 1) / 4);
      assert s[|head| + at] == rest[at] && s[|head| + at + 1] == rest[at + 1];
    }
  }

  lemma FirstByte(tab: Tab, i: nat) returns (head: string)
    requires i < 512
    ensures TextFrom(tab, i) == head + TextFrom(tab, i + 1) && |head| == 2 + (i + 1) / 4 - i / 4
    ensures TextFrom(tab, i)[0] == DigitChar(tab[i] / 16) && TextFrom(tab, i)[1] == DigitChar(tab[i] % 16)
    ensures (i + 1) % 4 == 0 ==> TextFrom(tab, i)[2] == ','
  {
    head := Hex2(tab[i]) + if (i + 1) % 4 == 0 then "," else "";
    assert TextFrom(tab, i) == head + TextFrom(tab, i + 1);
  }

  /** Core `l` is bit l % 4 of one hexadecimal digit of the text: eight digits and a comma for each 32 cores, the
      highest cores first. */
  lemma CoreInText(tab: Tab, l: nat)
    requires l < 4096
    ensures
      DigitOf(l) < |TextFrom(tab, 0)|
        && (HasCpu(tab, l) <==> Shr(DigitVal(TextFrom(tab, 0)[DigitOf(l)]), l % 4) % 2 == 1)
  {
    hide TextFrom, Shr, DigitOf;
    var item := 511 - l / 8;
    TextAt(tab, 0, item);
    NibbleBit(tab[item], l % 8);
    DigitPlace(l);
  }

  /** Each eight digits end with a comma, and nothing else is there. */
  lemma {:induction false} CommaAt(tab: Tab, i: nat, item: nat)
    requires i <= item < 512 && (item + 1) % 4 == 0
    ensures var at := 2 * (item + 1 - i) + ((item + 1) / 4 - 1 - i / 4);
      at < |TextFrom(tab, i)| && TextFrom(tab, i)[at] == ','
    decreases item - i
  {
    hide TextFrom;
    var head := FirstByte(tab, i);
    if i < item {
      CommaAt(tab, i + 1, item);
      var s, rest := TextFrom(tab, i), TextFrom(tab, i + 1);
      var at := 2 * (item - i) + ((item + 1) / 4 - 1 - (i + 1) / 4);
      assert s[|head| + at] == rest[at];
    }
  }

  lemma CommasInText(tab: Tab, g: nat)
    requires g < 128
    ensures |TextFrom(tab, 0)| == 9 * 128 && TextFrom(tab, 0)[9 * g + 8] == ','
  {
    hide TextFrom;
    CommaAt(tab, 0, 4 * g + 3);
  }

  /** Where the digit of a core stands. */
  ghost function DigitOf(l: nat): nat
    requires l < 4096
  {
    9 * (127 - l / 32) + 7 - l % 32 / 4
  }

  lemma DigitPlace(l: nat)
    requires l < 4096
    ensures var item := 511 - l / 8;
      DigitOf(l) == 2 * item + item / 4 + if l % 8 < 4 then 1 else 0
  {
    var item := 511 - l / 8;
    assert item / 4 == 127 - l / 32;
  }

  lemma {:induction false} NibbleAt(s: string, k: nat)
    requires AllDigits(s, 16) && k < |s|
    ensures |Nibbles(s)| == |s| && Nibbles(s)[k] == DigitVal(s[|s| - 1 - k])
  {
    assert DigitVal(s[0]) < 16;
    AllNibbles(s[1..]);
    if k < |s| - 1 {
      NibbleAt(s[1..], k);
    }
  }

  lemma {:induction false} AllNibbles(s: string)
    requires AllDigits(s, 16)
    ensures |Nibbles(s)| == |s|
  {
    if s != "" {
      assert DigitVal(s[0]) < 16;
      AllNibbles(s[1..]);
    }
  }

  /** Converting digits: core `l` is in the mask if and only if bit l % 4 of the digit l / 4 from the end is set. */
  lemma CoreFromText(s: string, l: nat)
    requires AllDigits(s, 16) && l < 4096
    ensures HasCpu(TabOf(Nibbles(s)), l) <==> l / 4 < |s| && Shr(DigitVal(s[|s| - 1 - l / 4]), l % 4) % 2 == 1
  {
    hide Shr, DigitVal;
    AllNibbles(s);
    var d := Nibbles(s);
    if l / 4 < |s| {
      NibbleAt(s, l / 4);
    }
    var k := l / 8;
    assert l / 4 == 2 * k + if l % 8 < 4 then 0 else 1;
    NibbleBit(ByteAt(d, 511 - k), l % 8);
    ZeroBits(l % 4);
  }

  lemma {:induction false} ZeroBits(j: nat)
    ensures Shr(0, j) == 0
  {
    if j > 0 {
      ZeroBits(j - 1);
    }
  }

  /** Anything that is no hexadecimal digit is skipped, wherever it stands. */
  lemma SeparatorSkipped(a: string, c: char, b: string)
    requires DigitVal(c) >= 16
    ensures Nibbles(a + [c] + b) == Nibbles(a + b)
  {
    assert a + [c] + b == a + ([c] + b);
    NibblesConcat(a, [c] + b);
    NibblesConcat([c], b);
    NibblesConcat(a, b);
  }
}
