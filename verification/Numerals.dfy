/** Numbers in text: printing them, and reading them as `strtoull` does. */
module Numerals {
  import opened Bits
  import opened Results

  /** The bases in use: decimal and hexadecimal. */
  type Base = b: nat | b == 10 || b == 16 witness 10

  function Times(v: nat, base: Base): nat {
    if base == 10 then 10 * v else 16 * v
  }

  function Over(v: nat, base: Base): nat {
    if base == 10 then v / 10 else v / 16
  }

  function Low(v: nat, base: Base): (d: nat)
    ensures d < base && v == Times(Over(v, base), base) + d
  {
    if base == 10 then v % 10 else v % 16
  }

  /** Value of a digit or letter; 36 for any other character. */
  function DigitVal(c: char): nat {
    if '0' <= c <= '9' then c as int - '0' as int
    else if 'a' <= c <= 'z' then c as int - 'a' as int + 10
    else if 'A' <= c <= 'Z' then c as int - 'A' as int + 10
    else 36
  }

  function DigitChar(d: nat): (c: char)
    requires d < 16
    ensures DigitVal(c) == d
  {
    if d < 10 then (d + '0' as int) as char else (d - 10 + 'a' as int) as char
  }

  /** The digits are the usual ones, in either case when read. */
  lemma Alphabet(c: char, d: nat)
    requires d < 16
    ensures DigitChar(d) == "0123456789abcdef"[d]
    ensures DigitVal(c) == d <==> c == "0123456789abcdef"[d] || c == "0123456789ABCDEF"[d]
  {
  }

  /** The base is 10 or 16, and the arithmetic is in it. */
  lemma InBase(v: nat, base: Base)
    ensures Times(v, 10) == 10 * v && Over(v, 10) == v / 10 && Low(v, 10) == v % 10
    ensures Times(v, 16) == 16 * v && Over(v, 16) == v / 16 && Low(v, 16) == v % 16
    ensures base == 10 || base == 16
  {
  }

  ghost predicate AllDigits(s: string, base: Base) {
    forall i :: 0 <= i < |s| ==> DigitVal(s[i]) < base
  }

  /** `printf` of an unsigned number with `%u` (base 10) or `%x` (base 16). */
  function Digits(v: nat, base: Base): (s: string)
    ensures s != "" && AllDigits(s, base)
    decreases v
  {
    if v < base then [DigitChar(v)] else Digits(Over(v, base), base) + [DigitChar(Low(v, base))]
  }

  function Value(s: string, base: Base): nat {
    if s == "" then 0 else Times(Value(s[..|s| - 1], base), base) + DigitVal(s[|s| - 1])
  }

  lemma ValueAppend(s: string, c: char, base: Base)
    ensures Value(s + [c], base) == Times(Value(s, base), base) + DigitVal(c)
  {
    assert (s + [c])[..|s|] == s;
  }

  lemma {:induction false} ValueOfDigits(v: nat, base: Base)
    ensures Value(Digits(v, base), base) == v
  {
    hide Value;
    if v < base {
      ValueAppend("", DigitChar(v), base);
      assert "" + [DigitChar(v)] == [DigitChar(v)];
      ValueOfNothing(base);
    } else {
      ValueOfDigits(Over(v, base), base);
      ValueAppend(Digits(Over(v, base), base), DigitChar(Low(v, base)), base);
    }
  }

  lemma ValueOfNothing(base: Base)
    ensures Times(Value("", base), base) == 0
  {
  }

  function Power(base: Base, n: nat): nat {
    if n == 0 then 1 else Times(Power(base, n - 1), base)
  }

  lemma {:induction false} DigitsLength(v: nat, base: Base, n: nat)
    requires n >= 1 && v < Power(base, n)
    ensures |Digits(v, base)| <= n
    decreases n
  {
    if v >= base {
      assert n > 1;
      DigitsLength(Over(v, base), base, n - 1);
    }
  }

  predicate IsSpace(c: char) {
    c == ' ' || '\t' <= c <= '\r'
  }

  /** Length of the leading white space. */
  function Spaces(s: string): (n: nat)
    ensures n <= |s|
  {
    if s != "" && IsSpace(s[0]) then 1 + Spaces(s[1..]) else 0
  }

  /** Length of the leading run of digits. */
  function Span(s: string, base: Base): (n: nat)
    ensures n <= |s| && forall i :: 0 <= i < n ==> DigitVal(s[i]) < base
    ensures n < |s| ==> DigitVal(s[n]) >= base
  {
    if s != "" && DigitVal(s[0]) < base then 1 + Span(s[1..], base) else 0
  }

  predicate HexPrefix(s: string) {
    |s| >= 2 && s[0] == '0' && (s[1] == 'x' || s[1] == 'X')
  }

  datatype Scan = Scan(value: Word, end: nat)

  /** `strtoull` in base 10 or 16: white space, a sign, an optional hexadecimal prefix, digits. Values that
      do not fit are cut to the largest one; a minus sign wraps. Without digits the end is the start. */
  function StrToUll(s: string, base: Base): (r: Scan)
    ensures r.end <= |s|
  {
    var a := Spaces(s);
    var b := if a < |s| && (s[a] == '-' || s[a] == '+') then a + 1 else a;
    var prefixed := base == 16 && HexPrefix(s[b..]) && b + 2 < |s| && DigitVal(s[b + 2]) < 16;
    var c := if prefixed then b + 2 else b;
    var n := Span(s[c..], base);
    if n == 0 then Scan(0, 0)
    else
      var v := Value(s[c..c + n], base);
      var signed := if v >= WORD_LIMIT then WORD_LIMIT - 1
                    else if a < b && s[a] == '-' then (WORD_LIMIT - v) % WORD_LIMIT
                    else v;
      Scan(signed, c + n)
  }

  /** `strtouint64`: the number must fill the string up to its end or a line feed. */
  function StrToUint64(s: string, base: Base): Option<Word> {
    var hex := HexPrefix(s);
    var digits := if hex then s[2..] else s;
    var r := StrToUll(digits, if hex then 16 as Base else base);
    if digits != "" && (r.end == |digits| || digits[r.end] == '\n') then Some(r.value) else None
  }

  /** A printed number reads back, at the end of the text or of the line. */
  lemma PrintedReadsBack(v: Word, base: Base, tail: string)
    requires tail == "" || tail == "\n"
    ensures StrToUint64(Digits(v, base) + tail, base) == Some(v)
  {
    var d := Digits(v, base);
    var s := d + tail;
    ValueOfDigits(v, base);
    hide Digits, Value, StrToUll;
    NoPrefix(s, d, base);
    ScanPrinted(d, tail, base);
  }

  lemma ScanPrinted(d: string, tail: string, base: Base)
    requires d != "" && AllDigits(d, base) && (tail == "" || tail == "\n")
    requires Value(d, base) < WORD_LIMIT
    ensures StrToUll(d + tail, base) == Scan(Value(d, base), |d|)
  {
    hide Value, Span, Spaces, DigitVal, HexPrefix;
    var s := d + tail;
    NoPrefix(s, d, base);
    assert s[0..] == s;
    SpanPrinted(d, tail, base);
    assert s[0..0 + |d|] == d;
  }

  lemma SpanPrinted(d: string, tail: string, base: Base)
    requires AllDigits(d, base) && (tail == "" || tail == "\n")
    ensures Span(d + tail, base) == |d|
  {
    hide Value, Span;
    assert DigitVal('\n') == 36;
    hide DigitVal;
    var s := d + tail;
    assert forall i :: 0 <= i < |d| ==> s[i] == d[i] && DigitVal(s[i]) < base;
    assert tail != "" ==> s[|d|] == '\n';
  }

  lemma NoPrefix(s: string, d: string, base: Base)
    requires d != "" && AllDigits(d, base) && (s == d || s == d + "\n")
    ensures !HexPrefix(s) && Spaces(s) == 0 && s[0] != '-' && s[0] != '+'
  {
    assert s[0] == d[0];
    assert DigitVal(s[0]) < 16;
    if |s| >= 2 {
      assert s[1] == '\n' || DigitVal(s[1]) < 16;
    }
  }

  /** What is left of the text after the optional prefix, and the base it is then read in. */
  function Unprefixed(s: string): string {
    if HexPrefix(s) then s[2..] else s
  }

  function BaseFor(s: string, base: Base): Base {
    if HexPrefix(s) then 16 else base
  }

  /** After white space and a sign no digit follows. */
  predicate NoDigit(s: string, base: Base) {
    var a := Spaces(s);
    var b := if a < |s| && (s[a] == '-' || s[a] == '+') then a + 1 else a;
    Span(s[b..], base) == 0
  }

  /** Text without a number is accepted, as 0, if and only if a line feed comes first after the optional prefix,
      whatever follows it; every other accepted text has a number that ends it or its first line. */
  lemma AcceptedWithoutDigits(s: string, base: Base)
    requires NoDigit(Unprefixed(s), BaseFor(s, base))
    ensures var rest := Unprefixed(s);
      if rest != "" && rest[0] == '\n' then StrToUint64(s, base) == Some(0) else StrToUint64(s, base) == None
  {
    var rest := Unprefixed(s);
    var a := Spaces(rest);
    var b := if a < |rest| && (rest[a] == '-' || rest[a] == '+') then a + 1 else a;
    if HexPrefix(rest[b..]) {
      assert rest[b..][0] == '0';
    }
  }

  lemma NoDigitThere()
    ensures NoDigit("", 10) && NoDigit("\n", 10) && NoDigit("\n", 16) && NoDigit("\nzz", 10)
  {
    assert "\n"[1..] == "" && "\nzz"[1..] == "zz";
    assert Spaces("") == 0 && Spaces("zz") == 0;
    assert Spaces("\n") == 1 && Spaces("\nzz") == 1;
  }

  /** The shortest such text, one with more behind the line feed, and one with a prefix. */
  lemma LineFeedIsZero()
    ensures StrToUint64("\n", 10) == StrToUint64("\nzz", 10) == StrToUint64("0x\n", 10) == Some(0)
    ensures StrToUint64("", 10) == None
  {
    hide StrToUint64, StrToUll, NoDigit;
    NoDigitThere();
    assert "0x\n"[2..] == "\n";
    AcceptedWithoutDigits("", 10);
    AcceptedWithoutDigits("\n", 10);
    AcceptedWithoutDigits("\nzz", 10);
    AcceptedWithoutDigits("0x\n", 10);
  }

  // ----- any number -----

  lemma {:induction false} SpacesBefore(sp: string, rest: string)
    requires (forall i :: 0 <= i < |sp| ==> IsSpace(sp[i])) && rest != "" && !IsSpace(rest[0])
    ensures Spaces(sp + rest) == |sp|
  {
    if sp == "" {
      assert sp + rest == rest;
    } else {
      assert (sp + rest)[0] == sp[0] && (sp + rest)[1..] == sp[1..] + rest;
      SpacesBefore(sp[1..], rest);
    }
  }

  lemma SpanBefore(d: string, tail: string, base: Base)
    requires AllDigits(d, base) && (tail == "" || DigitVal(tail[0]) >= base)
    ensures Span(d + tail, base) == |d|
  {
    hide Span, DigitVal;
    var s := d + tail;
    assert forall i :: 0 <= i < |d| ==> s[i] == d[i];
    assert tail != "" ==> s[|d|] == tail[0];
  }

  /** White space, a sign or none, and digits up to the end or a line feed: the number, cut to the largest 64-bit one,
      taken from 2^64 after a minus sign. Anything else behind the digits is refused. */
  lemma NumberReads(sp: string, sign: string, d: string, tail: string, base: Base)
    requires forall i :: 0 <= i < |sp| ==> sp[i] == ' ' || 9 <= sp[i] as int <= 13
    requires sign == "" || sign == "+" || sign == "-"
    requires d != "" && AllDigits(d, base)
    requires tail == "" || (DigitVal(tail[0]) >= base && tail[0] != 'x' && tail[0] != 'X')
    ensures
      var v := Value(d, base);
      StrToUint64(sp + sign + d + tail, base) ==
        if tail != "" && tail[0] != '\n' then None
        else if v >= 0x1_0000_0000_0000_0000 then Some(0xFFFF_FFFF_FFFF_FFFF)
        else if sign == "-" && v > 0 then Some(0x1_0000_0000_0000_0000 - v)
        else Some(v)
  {
    hide Value, Span, Spaces, StrToUll;
    var s := sp + sign + d + tail;
    NoHex(sp, sign, d, tail, base);
    ScanNumber(sp, sign, d, tail, base);
    var n := |sp| + |sign| + |d|;
    assert tail != "" ==> s[n] == tail[0];
  }

  lemma NoHex(sp: string, sign: string, d: string, tail: string, base: Base)
    requires forall i :: 0 <= i < |sp| ==> sp[i] == ' ' || 9 <= sp[i] as int <= 13
    requires sign == "" || sign == "+" || sign == "-"
    requires d != "" && AllDigits(d, base) && (tail == "" || (tail[0] != 'x' && tail[0] != 'X'))
    ensures !HexPrefix(sp + sign + d + tail) && !HexPrefix(d + tail)
    ensures !IsSpace(d[0]) && d[0] != '-' && d[0] != '+'
  {
    var s, r := sp + sign + d + tail, d + tail;
    assert DigitVal(d[0]) < 16 && r[0] == d[0];
    if |r| >= 2 {
      assert r[1] == if |d| > 1 then d[1] else tail[0];
    }
    if sp != "" {
      assert s[0] == sp[0];
    } else if sign != "" {
      assert s[0] == sign[0];
    } else {
      assert s == r;
    }
  }

  lemma ScanNumber(sp: string, sign: string, d: string, tail: string, base: Base)
    requires forall i :: 0 <= i < |sp| ==> sp[i] == ' ' || 9 <= sp[i] as int <= 13
    requires sign == "" || sign == "+" || sign == "-"
    requires d != "" && AllDigits(d, base)
    requires tail == "" || (DigitVal(tail[0]) >= base && tail[0] != 'x' && tail[0] != 'X')
    ensures
      var v := Value(d, base);
      StrToUll(sp + sign + d + tail, base) ==
        Scan(if v >= WORD_LIMIT then WORD_LIMIT - 1 else if sign == "-" && v > 0 then WORD_LIMIT - v else v,
          |sp| + |sign| + |d|)
  {
    hide Value, Span, Spaces, DigitVal, HexPrefix, StrToUll, IsSpace;
    var s := sp + sign + d + tail;
    var a, b := |sp|, |sp| + |sign|;
    NoHex(sp, sign, d, tail, base);
    NumberParts(sp, sign, d, tail);
    SpacesOnly(sp);
    SpacesBefore(sp, sign + d + tail);
    SpanBefore(d, tail, base);
    ScanParts(s, a, b, d, tail, base);
    assert sign == "-" <==> a < b && s[a] == '-';
  }

  lemma SpacesOnly(sp: string)
    requires forall i :: 0 <= i < |sp| ==> sp[i] == ' ' || 9 <= sp[i] as int <= 13
    ensures forall i :: 0 <= i < |sp| ==> IsSpace(sp[i])
    ensures !IsSpace('-') && !IsSpace('+')
  {
  }

  lemma NumberParts(sp: string, sign: string, d: string, tail: string)
    requires (sign == "" || sign == "+" || sign == "-") && d != ""
    ensures
      var s := sp + sign + d + tail;
      && s == sp + (sign + d + tail) && sign + d + tail != ""
      && (sign + d + tail)[0] == s[|sp|] == (if sign == "" then d[0] else sign[0])
      && s[|sp| + |sign|..] == d + tail && s[|sp| + |sign|..|sp| + |sign| + |d|] == d
      && |s| == |sp| + |sign| + |d| + |tail|
  {
  }

  lemma ScanParts(s: string, a: nat, b: nat, d: string, tail: string, base: Base)
    requires a <= b <= a + 1 && b + |d| <= |s| && Spaces(s) == a && s[b..] == d + tail && s[b..b + |d|] == d && d != ""
    requires b == a + 1 <==> s[a] == '-' || s[a] == '+'
    requires !HexPrefix(d + tail) && Span(d + tail, base) == |d|
    ensures
      var v := Value(d, base);
      StrToUll(s, base) ==
        Scan(
          if v >= WORD_LIMIT then WORD_LIMIT - 1 else if a < b && s[a] == '-' && v > 0 then WORD_LIMIT - v else v,
          b + |d|)
  {
    hide Value, Span, Spaces, DigitVal, HexPrefix;
  }

  /** In front of anything but another prefix, 0x makes the rest hexadecimal. */
  lemma PrefixReads(s: string, base: Base)
    requires !HexPrefix(s)
    ensures StrToUint64("0x" + s, base) == StrToUint64("0X" + s, base) == StrToUint64(s, 16)
  {
    hide StrToUll;
    assert ("0x" + s)[2..] == s && ("0X" + s)[2..] == s;
  }
}
