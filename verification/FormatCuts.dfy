/** The conversions of a format and what a pass finds in them, as functions; the same said by the text alone:
    a format is literal text between spelled conversions, a specification says what its conversion spells. */
module FormatCuts {
  import opened CString
  import opened PrintfSpec
  import opened FormatParser
  import opened Received

  // --------------------------------------------------------------- functions

  /** What the counting pass reports from `i` on. */
  datatype Count = Count(err: Error, params: nat, args: nat)

  predicate IsConversionStart(fmt: seq<char>, i: nat) {
    At(fmt, i) == '%' && At(fmt, i + 1) != '%'
  }

  /** Where the passes go on from a character that starts no conversion. */
  function AfterLiteral(fmt: seq<char>, i: nat): (j: nat)
    requires i < |fmt| && !IsConversionStart(fmt, i)
    ensures i < j <= |fmt|
  {
    if fmt[i] != '%' then i + 1 else i + 2
  }

  function Stars(fmt: seq<char>, i: nat): nat
    requires i < |fmt|
  {
    (if WidthValue(fmt, i) == DYNAMIC then 1 else 0) + (if PrecisionValue(fmt, i) == DYNAMIC then 1 else 0)
  }

  function CountFrom(fmt: seq<char>, i: nat): Count
    requires i <= |fmt|
    decreases |fmt| - i
  {
    if i == |fmt| then Count(NoError, 0, 0)
    else if !IsConversionStart(fmt, i) then CountFrom(fmt, AfterLiteral(fmt, i))
    else if ConversionError(fmt, i) != NoError then Count(ConversionError(fmt, i), 0, 0)
    else
      var rest := CountFrom(fmt, ConversionEnd(fmt, i));
      Count(rest.err, rest.params + 1, rest.args + 1 + Stars(fmt, i))
  }

  /** A signed 16-bit field. */
  function Trunc16(v: int): int16 {
    var u := v % 0x1_0000;
    if u >= 0x8000 then u - 0x1_0000 else u
  }

  /** The 16-bit length code: first character low, second high. */
  function LengthCode(s: seq<char>): nat
    requires |s| <= 2
  {
    if s == [] then 0 else if |s| == 1 then s[0] as int else s[0] as int + 256 * (s[1] as int)
  }

  /** The type tables. An unsupported combination leaves the type at NONE. */
  function TypeOf(typ: char, length: nat): FmtType {
    if typ == 'd' || typ == 'i' then
      (if length == 0 then INT else if length == LengthCode("hh") then CHAR else if length == LengthCode("h") then SHORT
       else if length == LengthCode("l") then LONG else if length == LengthCode("ll") then LONGLONG
       else if length == LengthCode("j") then LONGLONG else if length == LengthCode("z") then SIZE
       else if length == LengthCode("t") then PTRDIFF else NONE)
    else if typ == 'u' || typ == 'o' || typ == 'x' || typ == 'X' then
      (if length == 0 then UINT else if length == LengthCode("hh") then UCHAR else if length == LengthCode("h") then USHORT
       else if length == LengthCode("l") then ULONG else if length == LengthCode("ll") then ULONGLONG
       else if length == LengthCode("j") then ULONGLONG else if length == LengthCode("z") then SIZE
       else if length == LengthCode("t") then PTRDIFF else NONE)
    else if typ == 'f' || typ == 'F' || typ == 'e' || typ == 'E' || typ == 'g' || typ == 'G' || typ == 'a' || typ == 'A' then
      (if length == 0 then DOUBLE else if length == LengthCode("L") then LONG_DOUBLE else NONE)
    else if typ == 'c' then (if length == 0 then CHAR else NONE)
    else if typ == 's' then (if length == 0 then STR else NONE)
    else if typ == 'p' then (if length == 0 then PTR else NONE)
    else NONE
  }

  function FlagSet(fmt: seq<char>, i: nat, j: nat): set<char>
    requires i <= j <= |fmt|
  {
    set k | i <= k < j :: fmt[k]
  }

  /** The specification filled for the conversion at `i`; positions are kept in 16 bits. */
  function SpecAt(fmt: seq<char>, i: nat): Spec
    requires i < |fmt| && ConversionError(fmt, i) == NoError
  {
    var length := LengthCode(fmt[PrecisionEnd(fmt, i)..LengthEnd(fmt, i)]);
    var typ := fmt[LengthEnd(fmt, i)];
    Spec(i % 0x1_0000, ConversionEnd(fmt, i) % 0x1_0000, Trunc16(WidthValue(fmt, i)), Trunc16(PrecisionValue(fmt, i)),
         length, FlagSet(fmt, i + 1, WidthAt(fmt, i)), typ, TypeOf(typ, length))
  }

  datatype Filled = Filled(err: Error, specs: seq<Spec>)

  /** What the filling pass produces from `i` on with room for `n` more specifications. */
  function FillFrom(fmt: seq<char>, i: nat, n: nat): Filled
    requires i <= |fmt|
    decreases |fmt| - i
  {
    if i == |fmt| then Filled(NoError, [])
    else if !IsConversionStart(fmt, i) then FillFrom(fmt, AfterLiteral(fmt, i), n)
    else if n == 0 then Filled(NoError, [])
    else if ConversionError(fmt, i) != NoError then Filled(ConversionError(fmt, i), [])
    else
      var rest := FillFrom(fmt, ConversionEnd(fmt, i), n - 1);
      Filled(rest.err, [SpecAt(fmt, i)] + rest.specs)
  }

  // ------------------------------------------------ what a conversion means

  function TenTo(n: nat): nat {
    if n == 0 then 1 else 10 * TenTo(n - 1)
  }

  /** The number that decimal digits write: each digit by its power of ten. */
  function DecimalOf(digits: seq<char>): int {
    if digits == [] then 0
    else (digits[0] as int - '0' as int) * TenTo(|digits| - 1) + DecimalOf(digits[1..])
  }

  /** A field of 16 signed bits holds the width or precision written as `text`. */
  predicate Holds(field: int16, text: seq<char>) {
    if text == "*" then field == -1
    else -0x8000 <= field < 0x8000 && (DecimalOf(text) - field) % 0x1_0000 == 0
  }

  /** An integer type with the values from `low` to below `high`. */
  predicate Ranges(t: FmtType, low: int, high: int) {
    IsInteger(t) && Low(t) == low && High(t) == high
  }

  /** The type of the argument, by the type character and the length before it. */
  predicate Takes(typ: char, length: seq<char>, t: FmtType) {
    if typ in "di" then
      (if length == "hh" then Ranges(t, -0x80, 0x80)
       else if length == "h" then Ranges(t, -0x8000, 0x8000)
       else if length == "" then Ranges(t, -0x8000_0000, 0x8000_0000)
       else if length == "l" || length == "ll" || length == "j" || length == "t" then
         Ranges(t, -0x8000_0000_0000_0000, 0x8000_0000_0000_0000)
       else if length == "z" then Ranges(t, 0, 0x1_0000_0000_0000_0000)
       else t == NONE)
    else if typ in "uoxX" then
      (if length == "hh" then Ranges(t, 0, 0x100)
       else if length == "h" then Ranges(t, 0, 0x1_0000)
       else if length == "" then Ranges(t, 0, 0x1_0000_0000)
       else if length == "l" || length == "ll" || length == "j" || length == "z" then
         Ranges(t, 0, 0x1_0000_0000_0000_0000)
       else if length == "t" then Ranges(t, -0x8000_0000_0000_0000, 0x8000_0000_0000_0000)
       else t == NONE)
    else if typ in "fFeEgGaA" then
      t == (if length == "" then DOUBLE else if length == "L" then LONG_DOUBLE else NONE)
    else if typ == 'c' && length == "" then Ranges(t, -0x80, 0x80)
    else t == (if typ == 's' && length == "" then STR else if typ == 'p' && length == "" then PTR else NONE)
  }

  /** A conversion in a format: where it stands and what it spells. */
  datatype Mark = Mark(begin: nat, end: nat, parts: Parts)

  /** The specification says what the conversion spells; positions are kept in 16 bits. */
  predicate Describes(spec: Spec, m: Mark) {
    var p := m.parts;
    && spec.posBegin == m.begin % 0x1_0000 && spec.posEnd == m.end % 0x1_0000
    && (forall c :: c in spec.flags <==> c in p.flags)
    && Holds(spec.width, p.width)
    && (if p.precision == "" then spec.precision == 0 else Holds(spec.precision, p.precision[1..]))
    && spec.length == (if p.length == "" then 0 else if |p.length| == 1 then p.length[0] as int
                       else p.length[0] as int + 0x100 * (p.length[1] as int))
    && spec.typ == p.typ && Takes(p.typ, p.length, spec.fmtType)
  }

  predicate DescribesAll(specs: seq<Spec>, marks: seq<Mark>) {
    |specs| == |marks| && forall k :: 0 <= k < |specs| ==> Describes(specs[k], marks[k])
  }

  /** Arguments asked for beside the converted ones. */
  function Asked(marks: seq<Mark>): nat {
    if marks == [] then 0
    else
      var p := marks[0].parts;
      (if p.width == "*" then 1 else 0) + (if p.precision == ".*" then 1 else 0) + Asked(marks[1..])
  }

  /** Text without an unescaped '%': no '%' but in pairs. */
  predicate IsLiteral(t: seq<char>) {
    t == [] || (if t[0] != '%' then IsLiteral(t[1..]) else |t| >= 2 && t[1] == '%' && IsLiteral(t[2..]))
  }

  /** The marks cut the format, from `pos` on, into literal text and conversions: ordered, disjoint, and
      covering every unescaped '%'. */
  predicate Cuts(fmt: seq<char>, marks: seq<Mark>, pos: nat) {
    if marks == [] then pos <= |fmt| && IsLiteral(fmt[pos..])
    else
      var m := marks[0];
      && pos <= m.begin <= m.end <= |fmt| && IsLiteral(fmt[pos..m.begin])
      && WellFormed(m.parts) && fmt[m.begin..m.end] == Spell(m.parts)
      && Cuts(fmt, marks[1..], m.end)
  }

  // ------------------------------------------------------ one specification

  lemma {:induction false} DecimalPush(s: seq<char>, c: char)
    ensures DecimalOf(s + [c]) == 10 * DecimalOf(s) + (c as int - '0' as int)
  {
    if s == [] {
      assert [c][1..] == [];
    } else {
      assert (s + [c])[1..] == s[1..] + [c];
      DecimalPush(s[1..], c);
    }
  }

  lemma {:induction false} DecimalIs(fmt: seq<char>, i: nat, j: nat)
    requires i <= j <= |fmt| && forall k :: i <= k < j ==> IsDigit(fmt[k])
    ensures Decimal(fmt, i, j) == DecimalOf(fmt[i..j])
    decreases j
  {
    if i < j {
      DecimalIs(fmt, i, j - 1);
      DecimalPush(fmt[i..j - 1], fmt[j - 1]);
      assert fmt[i..j] == fmt[i..j - 1] + [fmt[j - 1]];
    }
  }

  lemma {:induction false} NumberHeld(fmt: seq<char>, a: nat)
    requires a <= |fmt|
    ensures Holds(Trunc16(NumValue(fmt, a)), fmt[a..NumEnd(fmt, a)])
    ensures NumValue(fmt, a) == DYNAMIC <==> fmt[a..NumEnd(fmt, a)] == "*"
  {
    var text := fmt[a..NumEnd(fmt, a)];
    if At(fmt, a) == '*' {
      assert text == "*";
    } else {
      assert text != "*" by {
        assert text != [] ==> text[0] == fmt[a];
      }
      DecimalIs(fmt, a, NumEnd(fmt, a));
    }
  }

  /** The length code tells the lengths apart. */
  lemma {:induction false} LengthCodeInjective(a: seq<char>, b: seq<char>)
    requires |a| <= 2 && (forall k :: 0 <= k < |a| ==> IsLength(a[k]))
    requires |b| <= 2 && (forall k :: 0 <= k < |b| ==> IsLength(b[k]))
    ensures LengthCode(a) == LengthCode(b) <==> a == b
  {
    if LengthCode(a) == LengthCode(b) {
      assert |a| == |b|;
      assert forall k :: 0 <= k < |a| ==> a[k] == b[k];
    }
  }

  lemma {:induction false} CodeOfNone()
    ensures LengthCode("") == 0
  {
  }

  lemma {:induction false} LengthCoded(s: seq<char>)
    requires |s| <= 2
    ensures LengthCode(s) == if s == "" then 0 else if |s| == 1 then s[0] as int else s[0] as int + 0x100 * (s[1] as int)
  {
  }

  lemma {:induction false} IntegerTaken(typ: char, length: seq<char>)
    requires |length| <= 2 && (forall k :: 0 <= k < |length| ==> IsLength(length[k])) && typ in "diuoxX"
    ensures Takes(typ, length, TypeOf(typ, LengthCode(length)))
  {
    LengthCodeInjective(length, "");
    LengthCodeInjective(length, "hh");
    LengthCodeInjective(length, "h");
    LengthCodeInjective(length, "l");
    LengthCodeInjective(length, "ll");
    LengthCodeInjective(length, "j");
    LengthCodeInjective(length, "z");
    LengthCodeInjective(length, "t");
    hide LengthCode;
    CodeOfNone();
  }

  lemma {:induction false} TypeTaken(typ: char, length: seq<char>)
    requires |length| <= 2 && (forall k :: 0 <= k < |length| ==> IsLength(length[k]))
    ensures Takes(typ, length, TypeOf(typ, LengthCode(length)))
  {
    if typ in "diuoxX" {
      IntegerTaken(typ, length);
    } else {
      LengthCodeInjective(length, "");
      LengthCodeInjective(length, "L");
      hide LengthCode;
      CodeOfNone();
    }
  }

  function MarkAt(fmt: seq<char>, i: nat): Mark
    requires i < |fmt| && ConversionError(fmt, i) == NoError
  {
    Mark(i, ConversionEnd(fmt, i), PartsAt(fmt, i))
  }

  /** The specification filled for an accepted conversion says what the conversion spells. */
  lemma {:induction false} SpecDescribes(fmt: seq<char>, i: nat)
    requires i < |fmt| && fmt[i] == '%' && ConversionError(fmt, i) == NoError
    ensures Describes(SpecAt(fmt, i), MarkAt(fmt, i))
    ensures Stars(fmt, i) == Asked([MarkAt(fmt, i)])
  {
    hide Takes, Holds, Trunc16, LengthCode, TypeOf, NumValue, NumEnd, SkipFlags, SkipLengths;
    var p := PartsAt(fmt, i);
    PartsScannable(fmt, i);
    TypeTaken(p.typ, p.length);
    LengthCoded(p.length);
    NumberHeld(fmt, WidthAt(fmt, i));
    PrecisionHeld(fmt, i);
    assert [MarkAt(fmt, i)][1..] == [];
  }

  lemma {:induction false} PrecisionHeld(fmt: seq<char>, i: nat)
    requires i < |fmt| && ConversionError(fmt, i) == NoError
    ensures var q := PartsAt(fmt, i).precision;
      && (if q == "" then Trunc16(PrecisionValue(fmt, i)) == 0 else Holds(Trunc16(PrecisionValue(fmt, i)), q[1..]))
      && (PrecisionValue(fmt, i) == DYNAMIC <==> q == ".*")
  {
    hide Holds, NumValue, NumEnd, SkipFlags, SkipLengths;
    if HasPrecision(fmt, i) {
      var a := WidthEnd(fmt, i);
      var q := PartsAt(fmt, i).precision;
      NumberHeld(fmt, a + 1);
      assert q == ['.'] + fmt[a + 1..PrecisionEnd(fmt, i)];
      assert q[1..] == fmt[a + 1..PrecisionEnd(fmt, i)];
      assert ".*"[1..] == "*";
      assert q[1..] == "*" ==> q == ".*";
    }
  }

  /** For every conversion standing in a format: it is accepted, and filled as it is spelled. */
  lemma {:induction false} SpelledDescribed(fmt: seq<char>, i: nat, e: nat, p: Parts)
    requires i <= e <= |fmt| && WellFormed(p) && fmt[i..e] == Spell(p)
    ensures IsConversionStart(fmt, i) && ConversionError(fmt, i) == NoError && MarkAt(fmt, i) == Mark(i, e, p)
    ensures Describes(SpecAt(fmt, i), Mark(i, e, p))
  {
    hide Spell, WellFormed, Describes;
    ConversionComplete(fmt, i, e, p);
    SpecDescribes(fmt, i);
    NotEscaped(fmt, i);
  }

  lemma {:induction false} NotEscaped(fmt: seq<char>, i: nat)
    requires i < |fmt| && fmt[i] == '%'
    ensures ConversionError(fmt, i) == NoError ==> IsConversionStart(fmt, i)
  {
    if At(fmt, i + 1) == '%' {
      assert SkipFlags(fmt, i + 1) == i + 1 && SkipDigits(fmt, i + 1) == i + 1 && SkipLengths(fmt, i + 1) == i + 1;
    }
  }

  // ------------------------------------------------------- the whole format

  /** The conversions that the passes find. */
  function MarksFrom(fmt: seq<char>, i: nat): seq<Mark>
    requires i <= |fmt| && CountFrom(fmt, i).err == NoError
    decreases |fmt| - i
  {
    if i == |fmt| then []
    else if !IsConversionStart(fmt, i) then MarksFrom(fmt, AfterLiteral(fmt, i))
    else [MarkAt(fmt, i)] + MarksFrom(fmt, ConversionEnd(fmt, i))
  }

  lemma {:induction false} LiteralFirst(fmt: seq<char>, i: nat, b: nat)
    requires i < b <= |fmt|
    ensures IsLiteral(fmt[i..b]) <==>
      !IsConversionStart(fmt, i) && AfterLiteral(fmt, i) <= b && IsLiteral(fmt[AfterLiteral(fmt, i)..b])
  {
    var t := fmt[i..b];
    if fmt[i] != '%' {
      assert t[1..] == fmt[i + 1..b];
    } else if i + 2 <= b {
      assert t[2..] == fmt[i + 2..b];
    }
  }

  /** Literal text before what is cut. */
  lemma {:induction false} CutsLiteral(fmt: seq<char>, marks: seq<Mark>, i: nat)
    requires i < |fmt| && !IsConversionStart(fmt, i)
    ensures Cuts(fmt, marks, i) <==> Cuts(fmt, marks, AfterLiteral(fmt, i))
  {
    hide Spell, WellFormed, IsLiteral;
    assert fmt[i..] == fmt[i..|fmt|] && forall j :: 0 <= j <= |fmt| ==> fmt[j..] == fmt[j..|fmt|];
    if marks == [] {
      LiteralFirst(fmt, i, |fmt|);
    } else if i < marks[0].begin <= |fmt| {
      LiteralFirst(fmt, i, marks[0].begin);
    } else if marks[0].begin == i <= marks[0].end <= |fmt| && WellFormed(marks[0].parts) &&
              fmt[i..marks[0].end] == Spell(marks[0].parts) {
      SpelledDescribed(fmt, i, marks[0].end, marks[0].parts);
    }
  }

  lemma {:induction false} EmptyLiteral(fmt: seq<char>, i: nat)
    requires i <= |fmt|
    ensures IsLiteral(fmt[i..i])
  {
  }

  /** A cut at a conversion begins with it. */
  lemma {:induction false} CutsConversion(fmt: seq<char>, marks: seq<Mark>, i: nat)
    requires i < |fmt| && IsConversionStart(fmt, i)
    ensures Cuts(fmt, marks, i) <==>
      ConversionError(fmt, i) == NoError && marks != [] && marks[0] == MarkAt(fmt, i) &&
      Cuts(fmt, marks[1..], ConversionEnd(fmt, i))
  {
    hide Spell, WellFormed, IsLiteral, ConversionError, ConversionEnd, PartsAt;
    EmptyLiteral(fmt, i);
    if Cuts(fmt, marks, i) {
      assert fmt[i..] == fmt[i..|fmt|];
      LiteralFirst(fmt, i, if marks == [] || marks[0].begin == i then |fmt| else marks[0].begin);
      SpelledDescribed(fmt, i, marks[0].end, marks[0].parts);
    } else if ConversionError(fmt, i) == NoError {
      ConversionSound(fmt, i);
    }
  }

  /** A format is counted without error exactly when it can be cut, and there is one way. */
  lemma {:induction false} CutsIff(fmt: seq<char>, marks: seq<Mark>, i: nat)
    requires i <= |fmt|
    ensures Cuts(fmt, marks, i) <==> CountFrom(fmt, i).err == NoError && marks == MarksFrom(fmt, i)
    decreases |fmt| - i
  {
    hide Spell, WellFormed, IsLiteral, ConversionError, ConversionEnd, SpecAt, Stars, PartsAt, Cuts;
    if i == |fmt| {
      CutsEnd(fmt, marks);
    } else if !IsConversionStart(fmt, i) {
      CutsLiteral(fmt, marks, i);
      CutsIff(fmt, marks, AfterLiteral(fmt, i));
    } else {
      CutsConversion(fmt, marks, i);
      if ConversionError(fmt, i) == NoError && marks != [] {
        CutsIff(fmt, marks[1..], ConversionEnd(fmt, i));
      }
    }
  }

  lemma {:induction false} CutsEnd(fmt: seq<char>, marks: seq<Mark>)
    ensures Cuts(fmt, marks, |fmt|) <==> marks == []
  {
    hide WellFormed;
  }

  lemma {:induction false} FilledDescribed(fmt: seq<char>, i: nat)
    requires i <= |fmt| && CountFrom(fmt, i).err == NoError
    ensures var c, marks := CountFrom(fmt, i), MarksFrom(fmt, i);
      && c.params == |marks| && c.args == |marks| + Asked(marks)
      && DescribesAll(FillFrom(fmt, i, |marks|).specs, marks) && FillFrom(fmt, i, |marks|).err == NoError
    decreases |fmt| - i
  {
    hide Describes, ConversionError, ConversionEnd, SpecAt, Stars, PartsAt;
    if i == |fmt| {
    } else if !IsConversionStart(fmt, i) {
      FilledDescribed(fmt, AfterLiteral(fmt, i));
    } else {
      FilledDescribed(fmt, ConversionEnd(fmt, i));
      SpecDescribes(fmt, i);
      assert MarksFrom(fmt, i)[1..] == MarksFrom(fmt, ConversionEnd(fmt, i));
    }
  }

  /** A format cut into literal text and conversions is counted and filled as it is spelled: one specification a
      conversion, one argument each and one more for every '*'. */
  lemma {:induction false} CutsFilled(fmt: seq<char>, marks: seq<Mark>)
    requires Cuts(fmt, marks, 0)
    ensures CountFrom(fmt, 0) == Count(NoError, |marks|, |marks| + Asked(marks))
    ensures FillFrom(fmt, 0, |marks|).err == NoError && DescribesAll(FillFrom(fmt, 0, |marks|).specs, marks)
  {
    hide CountFrom, FillFrom, Cuts, MarksFrom, DescribesAll, Asked;
    CutsIff(fmt, marks, 0);
    FilledDescribed(fmt, 0);
  }

  /** The formats that are counted without error are those that can be cut. */
  lemma {:induction false} CountedIff(fmt: seq<char>)
    ensures CountFrom(fmt, 0).err == NoError <==> exists marks :: Cuts(fmt, marks, 0)
  {
    hide CountFrom, Cuts, MarksFrom;
    if CountFrom(fmt, 0).err == NoError {
      CutsIff(fmt, MarksFrom(fmt, 0), 0);
    }
    forall marks | Cuts(fmt, marks, 0) ensures CountFrom(fmt, 0).err == NoError {
      CutsIff(fmt, marks, 0);
    }
  }
}
