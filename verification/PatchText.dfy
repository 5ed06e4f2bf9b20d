/**
 * The text form of a patch database (src/exterminator/src/patcher/patch_db.h
 * and patch_db.cpp): lines are printed with 0x%x and %d and read back with the
 * extraction operators of an input stream.  Sites and counts have 32 bits.
 */
module PatchText {

  const WORD_LIMIT: int := 0x1_0000_0000
  const INT_LIMIT: int := 0x8000_0000

  /** The conversions between int and unsigned int. */
  function Signed(n: nat): int {
    if n < INT_LIMIT then n else n - WORD_LIMIT
  }

  function Unsigned(i: int): (n: nat)
    requires -INT_LIMIT <= i < INT_LIMIT
    ensures n < WORD_LIMIT
  {
    if i >= 0 then i else i + WORD_LIMIT
  }

  datatype Line =
    | Overflow(site: nat, delta: nat)
    | Dangle(allocSite: nat, freeSite: nat, td: int)
    | Stat(allocSite: nat, freeSite: nat, heads: nat, tails: nat)

  predicate LineOk(l: Line) {
    match l
    case Overflow(site, delta) => site < WORD_LIMIT && delta < WORD_LIMIT
    case Dangle(a, f, td) => a < WORD_LIMIT && f < WORD_LIMIT && -INT_LIMIT <= td < INT_LIMIT
    case Stat(a, f, h, t) => a < WORD_LIMIT && f < WORD_LIMIT && h < WORD_LIMIT && t < WORD_LIMIT
  }

  // ---------------------------------------------------------------------
  // Printing
  // ---------------------------------------------------------------------

  predicate IsSpace(c: char) {
    c in " \n\t\r"
  }

  function DigitChar(d: nat): (c: char)
    requires d < 16
    ensures DigitValue(c, 16) == d && (d < 10 ==> DigitValue(c, 10) == d)
    ensures c !in " \n\t-+xX"
  {
    "0123456789abcdef"[d]
  }

  /** The value of a digit in the given base, or the base itself for any other character. */
  function DigitValue(c: char, base: nat): (v: nat)
    ensures v <= base
  {
    var v := if '0' <= c <= '9' then c as int - '0' as int
             else if 'a' <= c <= 'f' then c as int - 'a' as int + 10
             else if 'A' <= c <= 'F' then c as int - 'A' as int + 10
             else base;
    if v < base then v else base
  }

  predicate IsBase(base: nat) {
    base == 10 || base == 16
  }

  function Digits(n: nat, base: nat): (s: string)
    requires IsBase(base)
    ensures |s| > 0
  {
    if n < base then [DigitChar(n)] else Digits(n / base, base) + [DigitChar(n % base)]
  }

  function Hex(n: nat): string {
    "0x" + Digits(n, 16)
  }

  function Dec(i: int): string {
    if i < 0 then "-" + Digits(-i, 10) else Digits(i, 10)
  }

  function HexField(n: nat): (s: string)
    ensures s != "" && s[0] == ' '
  {
    " " + Hex(n)
  }

  function DecField(i: int): (s: string)
    ensures s != "" && s[0] == ' '
  {
    " " + Dec(i)
  }

  function Kind(l: Line): (s: string)
    ensures s != "" && forall i :: 0 <= i < |s| ==> !IsSpace(s[i])
  {
    match l
    case Overflow(_, _) => "overflow"
    case Dangle(_, _, _) => "dangle"
    case Stat(_, _, _, _) => "stat"
  }

  function FirstSite(l: Line): nat {
    if l.Overflow? then l.site else l.allocSite
  }

  /** What follows the first site in a printed line, up to the newline. */
  function Body(l: Line): (s: string)
    ensures s != "" && s[0] == ' '
  {
    match l
    case Overflow(_, delta) => DecField(Signed(delta))
    case Dangle(_, f, td) => HexField(f) + DecField(td)
    case Stat(_, f, h, t) => HexField(f) + (DecField(Signed(h)) + DecField(Signed(t)))
  }

  function Format(l: Line): string {
    Kind(l) + (HexField(FirstSite(l)) + (Body(l) + "\n"))
  }

  function FormatAll(lines: seq<Line>): string {
    if lines == [] then "" else Format(lines[0]) + FormatAll(lines[1..])
  }

  lemma TwoDigits(n: nat, base: nat, s: string)
    requires IsBase(base) && base <= n < base * base && s == [DigitChar(n / base), DigitChar(n % base)]
    ensures Digits(n, base) == s
  {
    assert Digits(n / base, base) == [DigitChar(n / base)];
  }

  /** What a printed overflow looks like. */
  lemma OverflowSample()
    ensures Format(Overflow(31, 5)) == "overflow 0x1f 5\n"
  {
    TwoDigits(31, 16, "1f");
    assert Hex(31) == "0x1f" && Dec(Signed(5)) == "5";
  }

  lemma DangleSampleFields()
    ensures Body(Dangle(10, 255, -7)) == " 0xff -7"
  {
    TwoDigits(255, 16, "ff");
    assert Hex(255) == "0xff" && Dec(-7) == "-7";
  }

  /** What a printed dangle looks like. */
  lemma DangleSample()
    ensures Format(Dangle(10, 255, -7)) == "dangle 0xa 0xff -7\n"
  {
    DangleSampleFields();
    assert HexField(10) == " 0xa";
  }

  lemma StatSampleFields()
    ensures Body(Stat(1, 16, 2, 0xFFFF_FFFF)) == " 0x10 2 -1"
  {
    TwoDigits(16, 16, "10");
    assert Hex(16) == "0x10" && Dec(Signed(2)) == "2" && Dec(Signed(0xFFFF_FFFF)) == "-1";
    assert DecField(2) + DecField(-1) == " 2 -1";
  }

  /** What a printed count looks like; a count above the largest int is printed as a negative number. */
  lemma StatSample()
    ensures Format(Stat(1, 16, 2, 0xFFFF_FFFF)) == "stat 0x1 0x10 2 -1\n"
  {
    StatSampleFields();
    assert HexField(1) == " 0x1";
  }

  // ---------------------------------------------------------------------
  // Reading
  // ---------------------------------------------------------------------

  /** An input stream: what is left of the text, and whether no extraction has failed. */
  datatype Stream = Stream(rest: string, ok: bool)

  function SkipSpace(s: string): (r: string)
    ensures |r| <= |s| && (r != "" ==> !IsSpace(r[0]))
  {
    if s != "" && IsSpace(s[0]) then SkipSpace(s[1..]) else s
  }

  function WordLength(s: string): (n: nat)
    ensures n <= |s|
  {
    if s == "" || IsSpace(s[0]) then 0 else 1 + WordLength(s[1..])
  }

  /** in >> string */
  function ReadWord(s: Stream): (r: (Stream, string))
    ensures |r.0.rest| <= |s.rest| && (r.0.ok ==> s.ok && |r.0.rest| < |s.rest|)
  {
    var t := SkipSpace(s.rest);
    var n := WordLength(t);
    if !s.ok || n == 0 then (Stream(t, false), "") else (Stream(t[n..], true), t[..n])
  }

  /** How many of the leading characters are digits. */
  function DigitCount(s: string, base: nat): (n: nat)
    ensures n <= |s|
  {
    if s == "" || DigitValue(s[0], base) == base then 0 else 1 + DigitCount(s[1..], base)
  }

  function Value(s: string, base: nat): nat {
    if s == "" then 0 else Value(s[..|s| - 1], base) * base + DigitValue(s[|s| - 1], base)
  }

  /** A sign, for base sixteen a prefix 0x, and digits; None is a failed extraction. */
  datatype Number = NotANumber(rest: string) | Number(rest: string, negative: bool, magnitude: nat)

  function Unprefixed(s: string, base: nat): (r: string)
    ensures |r| <= |s|
  {
    if base == 16 && |s| >= 2 && s[0] == '0' && s[1] in "xX" then s[2..] else s
  }

  function ReadMagnitude(s: string, base: nat, negative: bool): (r: Number)
    ensures |r.rest| <= |s|
  {
    var n := DigitCount(s, base);
    if n == 0 then NotANumber(s) else Number(s[n..], negative, Value(s[..n], base))
  }

  function ReadNumber(s: string, base: nat): (r: Number)
    ensures |r.rest| <= |s|
  {
    var t := SkipSpace(s);
    if t != "" && t[0] in "+-" then ReadMagnitude(Unprefixed(t[1..], base), base, t[0] == '-')
    else ReadMagnitude(Unprefixed(t, base), base, false)
  }

  /** in >> unsigned: a minus sign wraps around; too large a value fails. */
  function ReadUnsigned(s: Stream, base: nat): (r: (Stream, nat))
    ensures |r.0.rest| <= |s.rest| && (r.0.ok ==> s.ok) && r.1 < WORD_LIMIT
  {
    var x := ReadNumber(s.rest, base);
    if !s.ok || x.NotANumber? then (Stream(x.rest, false), 0)
    else if x.magnitude >= WORD_LIMIT then (Stream(x.rest, false), WORD_LIMIT - 1)
    else (Stream(x.rest, true), if x.negative && x.magnitude > 0 then WORD_LIMIT - x.magnitude else x.magnitude)
  }

  /** in >> int */
  function ReadInt(s: Stream): (r: (Stream, int))
    ensures |r.0.rest| <= |s.rest| && (r.0.ok ==> s.ok) && -INT_LIMIT <= r.1 < INT_LIMIT
  {
    var x := ReadNumber(s.rest, 10);
    if !s.ok || x.NotANumber? then (Stream(x.rest, false), 0)
    else if x.negative then
      if x.magnitude > INT_LIMIT then (Stream(x.rest, false), -INT_LIMIT) else (Stream(x.rest, true), 0 - x.magnitude)
    else if x.magnitude >= INT_LIMIT then (Stream(x.rest, false), INT_LIMIT - 1)
    else (Stream(x.rest, true), x.magnitude)
  }

  /** The type and the first site of a line, which the loop reads ahead. */
  datatype Header = Header(input: Stream, kind: string, site: nat)

  function ReadHeader(s: Stream): (h: Header)
    ensures |h.input.rest| <= |s.rest| && h.site < WORD_LIMIT
    ensures h.input.ok ==> s.ok && |h.input.rest| < |s.rest|
  {
    var (s1, kind) := ReadWord(s);
    var (s2, site) := ReadUnsigned(s1, 16);
    Header(s2, kind, site)
  }

  /** The rest of a line: nothing for an unknown type. */
  function ReadBody(h: Header): (r: (Stream, seq<Line>))
    requires h.site < WORD_LIMIT
    ensures |r.0.rest| <= |h.input.rest| && (r.0.ok ==> h.input.ok)
    ensures forall l | l in r.1 :: LineOk(l)
  {
    if h.kind == "overflow" then
      var (s, padding) := ReadInt(h.input);
      (s, [Overflow(h.site, Unsigned(padding))])
    else if h.kind == "dangle" then
      var (s1, freeSite) := ReadUnsigned(h.input, 16);
      var (s2, td) := ReadInt(s1);
      (s2, [Dangle(h.site, freeSite, td)])
    else if h.kind == "stat" then
      var (s1, freeSite) := ReadUnsigned(h.input, 16);
      var (s2, heads) := ReadUnsigned(s1, 10);
      var (s3, tails) := ReadUnsigned(s2, 10);
      (s3, [Stat(h.site, freeSite, heads, tails)])
    else (h.input, [])
  }

  /** The lines that reading adds to the database, from a header already read. */
  function ParseFrom(h: Header): (lines: seq<Line>)
    requires h.site < WORD_LIMIT
    ensures forall l | l in lines :: LineOk(l)
    decreases |h.input.rest|
  {
    if !h.input.ok then []
    else
      var (s, lines) := ReadBody(h);
      var next := ReadHeader(s);
      lines + if s.ok && next.input.ok then ParseFrom(next) else []
  }

  function Parse(text: string): seq<Line> {
    ParseFrom(ReadHeader(Stream(text, true)))
  }

  // ---------------------------------------------------------------------
  // Reading undoes printing
  // ---------------------------------------------------------------------

  /** A text at which a number or a word ends. */
  predicate Ends(s: string) {
    s == "" || IsSpace(s[0])
  }

  lemma {:induction false} DigitsValue(n: nat, base: nat)
    requires IsBase(base)
    ensures Value(Digits(n, base), base) == n
  {
    if n < base {
      assert Digits(n, base)[..0] == "";
    } else {
      DigitsValue(n / base, base);
      assert Digits(n, base)[..|Digits(n, base)| - 1] == Digits(n / base, base);
    }
  }

  lemma {:induction false} DigitsAreDigits(n: nat, base: nat)
    requires IsBase(base)
    ensures forall i :: 0 <= i < |Digits(n, base)| ==>
              DigitValue(Digits(n, base)[i], base) < base && Digits(n, base)[i] !in " \n\t\r-+xX"
  {
    if n >= base { DigitsAreDigits(n / base, base); }
  }

  lemma {:induction false} CountDigits(a: string, tail: string, base: nat)
    requires IsBase(base) && Ends(tail)
    requires forall i :: 0 <= i < |a| ==> DigitValue(a[i], base) < base
    ensures DigitCount(a + tail, base) == |a|
  {
    if a == "" {
      assert a + tail == tail;
    } else {
      assert (a + tail)[1..] == a[1..] + tail;
      CountDigits(a[1..], tail, base);
    }
  }

  /** Digits up to the next space are read back exactly. */
  lemma ReadDigits(n: nat, base: nat, tail: string, negative: bool)
    requires IsBase(base) && Ends(tail)
    ensures ReadMagnitude(Digits(n, base) + tail, base, negative) == Number(tail, negative, n)
  {
    DigitsValue(n, base);
    DigitsAreDigits(n, base);
    CountDigits(Digits(n, base), tail, base);
    var s := Digits(n, base) + tail;
    assert s[..|Digits(n, base)|] == Digits(n, base) && s[|Digits(n, base)|..] == tail;
  }

  lemma FirstDigit(n: nat, base: nat, tail: string)
    requires IsBase(base)
    ensures (Digits(n, base) + tail)[0] !in " \n\t\r+-"
  {
    DigitsAreDigits(n, base);
    assert (Digits(n, base) + tail)[0] == Digits(n, base)[0];
  }

  lemma SkipOne(s: string)
    requires s != "" && !IsSpace(s[0])
    ensures SkipSpace(" " + s) == s
  {
    assert (" " + s)[1..] == s;
    assert SkipSpace(s) == s;
  }

  lemma ReadHex(n: nat, tail: string)
    requires n < WORD_LIMIT && Ends(tail)
    ensures ReadUnsigned(Stream(HexField(n) + tail, true), 16) == (Stream(tail, true), n)
  {
    var s := "0x" + (Digits(n, 16) + tail);
    assert HexField(n) + tail == " " + s;
    SkipOne(s);
    SkipPrefix(Digits(n, 16) + tail);
    ReadDigits(n, 16, tail, false);
  }

  lemma SkipPrefix(s: string)
    ensures Unprefixed("0x" + s, 16) == s && ("0x" + s)[0] == '0'
  {
    assert ("0x" + s)[2..] == s;
  }

  lemma ReadPositive(n: nat, tail: string)
    requires Ends(tail)
    ensures ReadNumber(" " + Digits(n, 10) + tail, 10) == Number(tail, false, n)
  {
    var d := Digits(n, 10) + tail;
    assert " " + Digits(n, 10) + tail == " " + d;
    FirstDigit(n, 10, tail);
    SkipOne(d);
    ReadDigits(n, 10, tail, false);
  }

  lemma ReadNegative(n: nat, tail: string)
    requires Ends(tail)
    ensures ReadNumber(" " + ("-" + Digits(n, 10)) + tail, 10) == Number(tail, true, n)
  {
    var d := Digits(n, 10) + tail;
    assert " " + ("-" + Digits(n, 10)) + tail == " " + ("-" + d);
    SkipOne("-" + d);
    assert ("-" + d)[1..] == d;
    ReadDigits(n, 10, tail, true);
  }

  lemma ReadDec(i: int, tail: string)
    requires Ends(tail)
    ensures ReadNumber(DecField(i) + tail, 10) == Number(tail, i < 0, if i < 0 then -i else i)
  {
    if i < 0 {
      assert DecField(i) == " " + ("-" + Digits(-i, 10));
      ReadNegative(-i, tail);
    } else {
      assert DecField(i) == " " + Digits(i, 10);
      ReadPositive(i, tail);
    }
  }

  lemma ReadSigned(i: int, tail: string)
    requires -INT_LIMIT <= i < INT_LIMIT && Ends(tail)
    ensures ReadInt(Stream(DecField(i) + tail, true)) == (Stream(tail, true), i)
  {
    ReadDec(i, tail);
  }

  /** A count of 2^31 or more is printed with a minus sign and read back all the same. */
  lemma ReadCount(n: nat, tail: string)
    requires n < WORD_LIMIT && Ends(tail)
    ensures ReadUnsigned(Stream(DecField(Signed(n)) + tail, true), 10) == (Stream(tail, true), n)
  {
    ReadDec(Signed(n), tail);
  }

  lemma {:induction false} CountWord(w: string, tail: string)
    requires Ends(tail) && forall i :: 0 <= i < |w| ==> !IsSpace(w[i])
    ensures WordLength(w + tail) == |w|
  {
    if w == "" {
      assert w + tail == tail;
    } else {
      assert (w + tail)[1..] == w[1..] + tail;
      CountWord(w[1..], tail);
    }
  }

  lemma ReadKind(w: string, tail: string)
    requires w != "" && Ends(tail) && forall i :: 0 <= i < |w| ==> !IsSpace(w[i])
    ensures ReadWord(Stream(w + tail, true)) == (Stream(tail, true), w)
  {
    CountWord(w, tail);
    assert SkipSpace(w + tail) == w + tail;
    assert (w + tail)[..|w|] == w && (w + tail)[|w|..] == tail;
  }

  /** The newline left over from the line before does not matter. */
  lemma ReadKindNextLine(w: string, tail: string)
    requires w != "" && Ends(tail) && forall i :: 0 <= i < |w| ==> !IsSpace(w[i])
    ensures ReadWord(Stream("\n" + (w + tail), true)) == (Stream(tail, true), w)
  {
    ReadKind(w, tail);
    assert ("\n" + (w + tail))[1..] == w + tail;
  }

  lemma Regroup(a: string, b: string, c: string)
    ensures (a + b) + c == a + (b + c)
  {
  }

  lemma FormatParts(l: Line, tail: string)
    ensures Format(l) + tail == Kind(l) + (HexField(FirstSite(l)) + (Body(l) + ("\n" + tail)))
  {
    Regroup(Kind(l), HexField(FirstSite(l)) + (Body(l) + "\n"), tail);
    Regroup(HexField(FirstSite(l)), Body(l) + "\n", tail);
    Regroup(Body(l), "\n", tail);
  }

  lemma BodyIsRead(l: Line, input: Stream, tail: string)
    requires LineOk(l) && Ends(tail) && input == Stream(Body(l) + tail, true)
    ensures ReadBody(Header(input, Kind(l), FirstSite(l))) == (Stream(tail, true), [l])
  {
    match l
    case Overflow(_, delta) =>
      ReadSigned(Signed(delta), tail);
    case Dangle(_, _, _) => DangleIsRead(l, input, tail);
    case Stat(_, _, _, _) => StatIsRead(l, input, tail);
  }

  lemma DangleIsRead(l: Line, input: Stream, tail: string)
    requires LineOk(l) && l.Dangle? && Ends(tail) && input == Stream(Body(l) + tail, true)
    ensures ReadBody(Header(input, Kind(l), FirstSite(l))) == (Stream(tail, true), [l])
  {
    Regroup(HexField(l.freeSite), DecField(l.td), tail);
    ReadHex(l.freeSite, DecField(l.td) + tail);
    ReadSigned(l.td, tail);
  }

  lemma StatIsRead(l: Line, input: Stream, tail: string)
    requires LineOk(l) && l.Stat? && Ends(tail) && input == Stream(Body(l) + tail, true)
    ensures ReadBody(Header(input, Kind(l), FirstSite(l))) == (Stream(tail, true), [l])
  {
    var heads, tails := DecField(Signed(l.heads)), DecField(Signed(l.tails));
    Regroup(HexField(l.freeSite), heads + tails, tail);
    Regroup(heads, tails, tail);
    ReadHex(l.freeSite, heads + (tails + tail));
    ReadCount(l.heads, tails + tail);
    ReadCount(l.tails, tail);
  }

  /** The text of some lines, as it is met after the newline of the line before. */
  lemma HeaderIsRead(l: Line, tail: string, newline: bool)
    requires LineOk(l)
    ensures var text := Format(l) + tail;
            ReadHeader(Stream(if newline then "\n" + text else text, true))
            == Header(Stream(Body(l) + ("\n" + tail), true), Kind(l), FirstSite(l))
  {
    FormatParts(l, tail);
    var rest := Body(l) + ("\n" + tail);
    var after := HexField(FirstSite(l)) + rest;
    if newline { ReadKindNextLine(Kind(l), after); } else { ReadKind(Kind(l), after); }
    ReadHex(FirstSite(l), rest);
  }

  /** One turn of the reading loop, on a line that was printed. */
  lemma LineIsRead(l: Line, tail: string, newline: bool)
    requires LineOk(l)
    ensures var next := ReadHeader(Stream("\n" + tail, true));
            ParseFrom(ReadHeader(Stream(if newline then "\n" + (Format(l) + tail) else Format(l) + tail, true)))
            == [l] + if next.input.ok then ParseFrom(next) else []
  {
    HeaderIsRead(l, tail, newline);
    BodyIsRead(l, Stream(Body(l) + ("\n" + tail), true), "\n" + tail);
  }

  lemma NothingLeft(newline: bool)
    ensures !ReadHeader(Stream(if newline then "\n" + "" else "", true)).input.ok
  {
    if newline { assert ("\n" + "")[1..] == ""; }
  }

  /** Reading what was printed gives back the lines: every line, in order, and nothing else. */
  lemma {:induction false} ReadUndoesPrint(lines: seq<Line>, newline: bool)
    requires forall l | l in lines :: LineOk(l)
    ensures var text := FormatAll(lines);
            ParseFrom(ReadHeader(Stream(if newline then "\n" + text else text, true))) == lines
    decreases |lines|
  {
    if lines == [] {
      NothingLeft(newline);
    } else {
      LineIsRead(lines[0], FormatAll(lines[1..]), newline);
      ReadUndoesPrint(lines[1..], true);
      assert lines == [lines[0]] + lines[1..];
    }
  }

  lemma ParseFormat(lines: seq<Line>)
    requires forall l | l in lines :: LineOk(l)
    ensures Parse(FormatAll(lines)) == lines
  {
    ReadUndoesPrint(lines, false);
  }
}
