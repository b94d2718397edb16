/** The bytes of a record: fixed-size arguments, string table and header, as
    `haclog_printf_primitive_serialize` writes them and `haclog_printf_primitive_format` reads them. */
module Codec {
  import opened Bytes
  import opened PrintfSpec

  const MAX_STR_CACHE: nat := 128

  /** "(haclog str cache full)", copied in place of every string after the first 128. */
  const STR_CACHE_FULL: seq<byte> :=
    [40, 104, 97, 99, 108, 111, 103, 32, 115, 116, 114, 32, 99, 97, 99, 104, 101, 32, 102, 117, 108, 108, 41]

  /** The rounding macro with 8: add 7 and clear the three low bits. */
  function RoundUp8(value: nat): nat {
    value + 7 - (value + 7) % 8
  }

  /** Bytes a copied string of `n` bytes takes in the string chunk, its NUL included. */
  function SlotSize(n: nat): nat {
    RoundUp8(n + 1)
  }

  /** The slot is the least multiple of 8 that holds the string and its NUL. */
  lemma {:induction false} SlotIsLeast(n: nat, m: nat)
    ensures SlotSize(n) % 8 == 0 && n + 1 <= SlotSize(n)
    ensures m % 8 == 0 && m >= n + 1 ==> SlotSize(n) <= m
  {
  }

  /** How far the serializer is: strings seen and bytes of the string chunk handed out. */
  datatype Cursor = Cursor(nStr: nat, extra: nat)

  /** The precision of one argument as the `unsigned long` the copy loop compares with. */
  function PrecisionBits(spec: Spec, a: Arg): nat {
    if spec.precision == DYNAMIC then a.precision % P64 else spec.precision % P64
  }

  function CutString(spec: Spec, a: Arg): (s: seq<byte>)
    requires a.val.Str?
  {
    var s := a.val.s;
    if spec.precision == 0 || |s| <= PrecisionBits(spec, a) then s else s[..PrecisionBits(spec, a)]
  }

  /** The string that is copied for a `%s` that `nStr` others precede. */
  function Copied(spec: Spec, a: Arg, nStr: nat): (s: seq<byte>)
    requires WellTyped(spec, a) && spec.fmtType.STR?
    ensures NoNul(s)
  {
    if nStr >= MAX_STR_CACHE then STR_CACHE_FULL else CutString(spec, a)
  }

  function IntCells(u: nat, n: nat): (c: seq<Cell>)
    requires n <= 8
    ensures |c| == 8
  {
    Vals(LE(u, n)) + Pads(8 - n)
  }

  function WidthCells(spec: Spec, a: Arg): seq<Cell> {
    if spec.width == DYNAMIC then IntCells(a.width % P32, 4) else []
  }

  function PrecisionCells(spec: Spec, a: Arg): seq<Cell> {
    if spec.precision == DYNAMIC then IntCells(a.precision % P64, 8) else []
  }

  function ValueCells(spec: Spec, a: Arg, c: Cursor): seq<Cell>
    requires WellTyped(spec, a)
  {
    var t := spec.fmtType;
    if t.NONE? then []
    else if t.STR? then IntCells(c.extra, 8)
    else if t.DOUBLE? || t.LONG_DOUBLE? then Vals(a.val.bits)
    else IntCells(a.val.v % Pow256(IntSize(t)), IntSize(t))
  }

  function ArgCells(spec: Spec, a: Arg, c: Cursor): (cells: seq<Cell>)
    requires WellTyped(spec, a)
    ensures |cells| == Distance(spec)
  {
    WidthCells(spec, a) + PrecisionCells(spec, a) + ValueCells(spec, a, c)
  }

  function Advance(spec: Spec, a: Arg, c: Cursor): Cursor
    requires WellTyped(spec, a)
  {
    if spec.fmtType.STR? then Cursor(c.nStr + 1, c.extra + SlotSize(|Copied(spec, a, c.nStr)|)) else c
  }

  /** The fixed-size chunk. */
  function ConstCells(specs: seq<Spec>, args: seq<Arg>, c: Cursor): (cells: seq<Cell>)
    requires WellTypedAll(specs, args)
    ensures |cells| == Distances(specs)
  {
    if specs == [] then [] else
      ArgCells(specs[0], args[0], c) + ConstCells(specs[1..], args[1..], Advance(specs[0], args[0], c))
  }

  /** The strings to copy, in order. */
  function Strings(specs: seq<Spec>, args: seq<Arg>, nStr: nat): (ss: seq<seq<byte>>)
    requires WellTypedAll(specs, args)
  {
    if specs == [] then []
    else if specs[0].fmtType.STR? then
      [Copied(specs[0], args[0], nStr)] + Strings(specs[1..], args[1..], nStr + 1)
    else
      Strings(specs[1..], args[1..], nStr)
  }

  function Slot(s: seq<byte>): (c: seq<Cell>)
    ensures |c| == SlotSize(|s|)
  {
    Vals(s) + [Val(0)] + Pads(SlotSize(|s|) - |s| - 1)
  }

  /** The string chunk. */
  function StrCells(ss: seq<seq<byte>>): (c: seq<Cell>)
    ensures |c| == SlotSizes(ss)
  {
    if ss == [] then [] else Slot(ss[0]) + StrCells(ss[1..])
  }

  function SlotSizes(ss: seq<seq<byte>>): nat {
    if ss == [] then 0 else SlotSize(|ss[0]|) + SlotSizes(ss[1..])
  }

  lemma {:induction false} SlotsAligned(ss: seq<seq<byte>>)
    ensures SlotSizes(ss) % 8 == 0
  {
    if ss != [] {
      SlotsAligned(ss[1..]);
    }
  }

  function ExtraLen(specs: seq<Spec>, args: seq<Arg>): nat
    requires WellTypedAll(specs, args)
  {
    SlotSizes(Strings(specs, args, 0))
  }

  /** How far one specification moves the cursor, writing or reading. */
  function Distance(spec: Spec): nat {
    (if spec.width == DYNAMIC then 8 else 0) +
    (if spec.precision == DYNAMIC then 8 else 0) +
    (if spec.fmtType.NONE? then 0 else if spec.fmtType.LONG_DOUBLE? then 16 else 8)
  }

  function Distances(specs: seq<Spec>): nat {
    if specs == [] then 0 else Distance(specs[0]) + Distances(specs[1..])
  }

  /** The string and argument cursor after `i` specifications. */
  ghost function CursorAt(specs: seq<Spec>, args: seq<Arg>, i: nat): Cursor
    requires WellTypedAll(specs, args) && i <= |specs|
  {
    if i == 0 then Cursor(0, 0) else Advance(specs[i - 1], args[i - 1], CursorAt(specs, args, i - 1))
  }

  function DistanceTo(specs: seq<Spec>, i: nat): nat
    requires i <= |specs|
  {
    if i == 0 then 0 else DistanceTo(specs, i - 1) + Distance(specs[i - 1])
  }

  /** Both cursors move by the summed parameter size, or stay short of it by 8 bytes for every
      unsupported type. */
  lemma {:induction false} DistanceIsParamSize(specs: seq<Spec>)
    ensures Distances(specs) + 8 * Unsupported(specs) == ParamSizes(specs)
  {
    if specs != [] {
      DistanceIsParamSize(specs[1..]);
    }
  }

  function Unsupported(specs: seq<Spec>): nat {
    if specs == [] then 0 else (if specs[0].fmtType.NONE? then 1 else 0) + Unsupported(specs[1..])
  }

  // ---------------------------------------------------------------- reading

  /** What a conversion gets: the dynamic width and precision (0 when static) and the value. */
  datatype Decoded = Decoded(width: int, precision: int, val: Value)

  /** The C string at `i`. */
  function CString(mem: seq<byte>, i: nat): (s: seq<byte>)
    decreases |mem| - i
  {
    if i < |mem| && mem[i] != 0 then [mem[i]] + CString(mem, i + 1) else []
  }

  function ReadInt32(mem: seq<byte>, p: nat): int
    requires p + 4 <= |mem|
  {
    ToSigned(FromLE(mem[p..p + 4]), 4)
  }

  function DecodeWidth(mem: seq<byte>, p: nat, spec: Spec): int
    requires p + Distance(spec) <= |mem|
  {
    if spec.width == DYNAMIC then ReadInt32(mem, p) else 0
  }

  function AfterWidth(p: nat, spec: Spec): nat {
    if spec.width == DYNAMIC then p + 8 else p
  }

  function DecodePrecision(mem: seq<byte>, p: nat, spec: Spec): int
    requires p + Distance(spec) <= |mem|
  {
    if spec.precision == DYNAMIC then ReadInt32(mem, AfterWidth(p, spec)) else 0
  }

  function AfterPrecision(p: nat, spec: Spec): nat {
    if spec.precision == DYNAMIC then AfterWidth(p, spec) + 8 else AfterWidth(p, spec)
  }

  function DecodeValue(mem: seq<byte>, p: nat, spec: Spec, posStr: nat): Value
    requires p + Distance(spec) <= |mem|
  {
    var q := AfterPrecision(p, spec);
    var t := spec.fmtType;
    if t.NONE? then Num(0)
    else if t.STR? then Str(CString(mem, posStr + FromLE(mem[q..q + 8])))
    else if t.DOUBLE? then Raw(mem[q..q + 8])
    else if t.LONG_DOUBLE? then Raw(mem[q..q + 16])
    else
      var u := FromLE(mem[q..q + IntSize(t)]);
      Num(if Signed(t) then ToSigned(u, IntSize(t)) else u)
  }

  /** Reads one specification's arguments at `p`; the cursor then stands at `p + Distance(spec)`. */
  function DecodeArg(mem: seq<byte>, p: nat, spec: Spec, posStr: nat): Decoded
    requires p + Distance(spec) <= |mem|
  {
    Decoded(DecodeWidth(mem, p, spec), DecodePrecision(mem, p, spec), DecodeValue(mem, p, spec, posStr))
  }

  function DecodeAll(mem: seq<byte>, p: nat, specs: seq<Spec>, posStr: nat): (ds: seq<Decoded>)
    requires p + Distances(specs) <= |mem|
    decreases |specs|
  {
    if specs == [] then [] else
      [DecodeArg(mem, p, specs[0], posStr)] + DecodeAll(mem, p + Distance(specs[0]), specs[1..], posStr)
  }

  /** What the caller passed, as the reader should see it. */
  function Seen(spec: Spec, a: Arg, nStr: nat): Decoded
    requires WellTyped(spec, a)
  {
    Decoded(
      if spec.width == DYNAMIC then a.width else 0,
      if spec.precision == DYNAMIC then a.precision else 0,
      var t := spec.fmtType;
      if t.NONE? then Num(0)
      else if t.STR? then Str(Copied(spec, a, nStr))
      else if t.DOUBLE? || t.LONG_DOUBLE? then a.val
      else Num(Wrap(t, a.val.v)))
  }

  function SeenAll(specs: seq<Spec>, args: seq<Arg>, nStr: nat): (ds: seq<Decoded>)
    requires WellTypedAll(specs, args)
    ensures |ds| == |specs|
  {
    if specs == [] then [] else
      [Seen(specs[0], args[0], nStr)] +
      SeenAll(specs[1..], args[1..], if specs[0].fmtType.STR? then nStr + 1 else nStr)
  }

  /** Both chunks of the remaining arguments can be read: fixed part at `p`, strings after the
      `c.extra` bytes of the string chunk at `posStr` that are already taken. */
  ghost predicate ArgsAt(mem: seq<byte>, p: nat, posStr: nat, specs: seq<Spec>, args: seq<Arg>, c: Cursor)
    requires WellTypedAll(specs, args)
  {
    && Covers(mem, p, ConstCells(specs, args, c))
    && Covers(mem, posStr + c.extra, StrCells(Strings(specs, args, c.nStr)))
  }

  lemma {:induction false} ReadCString(mem: seq<byte>, i: nat, s: seq<byte>)
    requires NoNul(s) && Covers(mem, i, Vals(s) + [Val(0)])
    ensures CString(mem, i) == s
    decreases |s|
  {
    var c := Vals(s) + [Val(0)];
    assert c[0].Val? && mem[i + 0] == c[0].b;
    if s != [] {
      forall k | 0 <= k < |s|
        ensures (Vals(s[1..]) + [Val(0)])[k] == c[k + 1] && c[k + 1].Val? && mem[i + (k + 1)] == c[k + 1].b
      {
      }
      ReadCString(mem, i + 1, s[1..]);
    }
  }

  lemma {:induction false} ReadSigned32(mem: seq<byte>, p: nat, v: int)
    requires IsInt32(v) && p + 4 <= |mem|
    requires FromLE(mem[p..p + 4]) == v % P32
    ensures ReadInt32(mem, p) == v
  {
    Pows();
    WrapInRange(INT, v);
  }

  lemma {:induction false} PrecisionMod(v: int)
    ensures (v % P64) % P32 == v % P32
  {
  }

  lemma {:induction false} DecodeWidthOk(mem: seq<byte>, p: nat, spec: Spec, a: Arg, rest: seq<Cell>)
    requires WellTyped(spec, a) && p + Distance(spec) <= |mem|
    requires Covers(mem, p, WidthCells(spec, a) + rest)
    ensures spec.width == DYNAMIC ==> DecodeWidth(mem, p, spec) == a.width
    ensures Covers(mem, AfterWidth(p, spec), rest)
  {
    CoversSplit(mem, p, WidthCells(spec, a), rest);
    if spec.width == DYNAMIC {
      var u := a.width % P32;
      CoversSplit(mem, p, Vals(LE(u, 4)), Pads(4));
      ReadLE(mem, p, u, 4);
      Pows();
      ReadSigned32(mem, p, a.width);
    }
  }

  lemma {:induction false} DecodePrecisionOk(mem: seq<byte>, p: nat, spec: Spec, a: Arg, rest: seq<Cell>)
    requires WellTyped(spec, a) && p + Distance(spec) <= |mem|
    requires Covers(mem, AfterWidth(p, spec), PrecisionCells(spec, a) + rest)
    ensures spec.precision == DYNAMIC ==> DecodePrecision(mem, p, spec) == a.precision
    ensures Covers(mem, AfterPrecision(p, spec), rest)
  {
    var q := AfterWidth(p, spec);
    CoversSplit(mem, q, PrecisionCells(spec, a), rest);
    if spec.precision == DYNAMIC {
      var u := a.precision % P64;
      CoversSplit(mem, q, Vals(LE(u, 8)), Pads(0));
      ReadLENarrow(mem, q, u);
      PrecisionMod(a.precision);
      ReadSigned32(mem, q, a.precision);
    }
  }

  lemma {:induction false} DecodeStringOk(mem: seq<byte>, q: nat, posStr: nat, extra: nat, s: seq<byte>)
    requires extra < P64 && NoNul(s)
    requires Covers(mem, q, IntCells(extra, 8)) && Covers(mem, posStr + extra, Slot(s))
    ensures CString(mem, posStr + FromLE(mem[q..q + 8])) == s
  {
    hide LE, FromLE, CString;
    Pows();
    DecodeIntOk(mem, q, extra, 8);
    CoversSplit(mem, posStr + extra, Vals(s) + [Val(0)], Pads(SlotSize(|s|) - |s| - 1));
    ReadCString(mem, posStr + extra, s);
  }

  lemma {:induction false} DecodeIntOk(mem: seq<byte>, q: nat, u: nat, n: nat)
    requires n <= 8 && u < Pow256(n) && Covers(mem, q, IntCells(u, n))
    ensures FromLE(mem[q..q + n]) == u
  {
    CoversSplit(mem, q, Vals(LE(u, n)), Pads(8 - n));
    ReadLE(mem, q, u, n);
  }

  lemma {:induction false} DecodeValueOk(mem: seq<byte>, p: nat, spec: Spec, a: Arg, c: Cursor, posStr: nat)
    requires WellTyped(spec, a) && p + Distance(spec) <= |mem| && c.extra < P64
    requires Covers(mem, AfterPrecision(p, spec), ValueCells(spec, a, c))
    requires spec.fmtType.STR? ==> Covers(mem, posStr + c.extra, Slot(Copied(spec, a, c.nStr)))
    ensures DecodeValue(mem, p, spec, posStr) == Seen(spec, a, c.nStr).val
  {
    var q := AfterPrecision(p, spec);
    if spec.fmtType.STR? {
      DecodeStringOk(mem, q, posStr, c.extra, Copied(spec, a, c.nStr));
    } else if spec.fmtType.DOUBLE? || spec.fmtType.LONG_DOUBLE? {
      CoversVals(mem, q, a.val.bits);
    } else if IsInteger(spec.fmtType) {
      DecodeIntOk(mem, q, a.val.v % Pow256(IntSize(spec.fmtType)), IntSize(spec.fmtType));
    }
  }

  lemma {:induction false} DecodeArgOk(mem: seq<byte>, p: nat, spec: Spec, a: Arg, c: Cursor, posStr: nat)
    requires WellTyped(spec, a) && c.extra < P64
    requires Covers(mem, p, ArgCells(spec, a, c))
    requires spec.fmtType.STR? ==> Covers(mem, posStr + c.extra, Slot(Copied(spec, a, c.nStr)))
    ensures DecodeArg(mem, p, spec, posStr) == Seen(spec, a, c.nStr)
  {
    var tail := PrecisionCells(spec, a) + ValueCells(spec, a, c);
    assert ArgCells(spec, a, c) == WidthCells(spec, a) + tail;
    DecodeWidthOk(mem, p, spec, a, tail);
    DecodePrecisionOk(mem, p, spec, a, ValueCells(spec, a, c));
    DecodeValueOk(mem, p, spec, a, c, posStr);
  }

  /** The string chunk of the remaining arguments, after one specification. */
  lemma {:induction false} StringsStep(mem: seq<byte>, posStr: nat, specs: seq<Spec>, args: seq<Arg>, c: Cursor)
    requires WellTypedAll(specs, args) && specs != []
    requires Covers(mem, posStr + c.extra, StrCells(Strings(specs, args, c.nStr)))
    ensures specs[0].fmtType.STR? ==> Covers(mem, posStr + c.extra, Slot(Copied(specs[0], args[0], c.nStr)))
    ensures var d := Advance(specs[0], args[0], c);
      Covers(mem, posStr + d.extra, StrCells(Strings(specs[1..], args[1..], d.nStr)))
  {
    if specs[0].fmtType.STR? {
      var s, ss := Copied(specs[0], args[0], c.nStr), Strings(specs[1..], args[1..], c.nStr + 1);
      assert ([s] + ss)[1..] == ss;
      CoversSplit(mem, posStr + c.extra, Slot(s), StrCells(ss));
    }
  }

  /** One step of the reader returns what was passed for one specification and leaves the rest readable. */
  lemma {:induction false} DecodeStep(mem: seq<byte>, p: nat, posStr: nat, specs: seq<Spec>, args: seq<Arg>, c: Cursor)
    requires WellTypedAll(specs, args) && specs != [] && c.extra < P64
    requires ArgsAt(mem, p, posStr, specs, args, c)
    ensures p + Distance(specs[0]) <= |mem|
    ensures DecodeArg(mem, p, specs[0], posStr) == Seen(specs[0], args[0], c.nStr)
    ensures ArgsAt(mem, p + Distance(specs[0]), posStr, specs[1..], args[1..], Advance(specs[0], args[0], c))
  {
    hide ArgCells, DecodeArg, Seen, Copied, StrCells, Slot, Distance, Strings;
    var spec, a := specs[0], args[0];
    CoversSplit(mem, p, ArgCells(spec, a, c), ConstCells(specs[1..], args[1..], Advance(spec, a, c)));
    StringsStep(mem, posStr, specs, args, c);
    DecodeArgOk(mem, p, spec, a, c, posStr);
  }

  /** The bytes of the string chunk still to come, after one specification. */
  lemma {:induction false} ExtraStep(specs: seq<Spec>, args: seq<Arg>, c: Cursor)
    requires WellTypedAll(specs, args) && specs != []
    ensures var d := Advance(specs[0], args[0], c);
      c.extra + SlotSizes(Strings(specs, args, c.nStr)) == d.extra + SlotSizes(Strings(specs[1..], args[1..], d.nStr))
  {
    if specs[0].fmtType.STR? {
      var s, ss := Copied(specs[0], args[0], c.nStr), Strings(specs[1..], args[1..], c.nStr + 1);
      assert ([s] + ss)[1..] == ss;
    }
  }

  /** Decoding the two chunks returns exactly the arguments, for every list of specifications. */
  lemma {:induction false} RoundTrip(mem: seq<byte>, p: nat, posStr: nat, specs: seq<Spec>, args: seq<Arg>, c: Cursor)
    requires WellTypedAll(specs, args) && c.extra + SlotSizes(Strings(specs, args, c.nStr)) < P64
    requires ArgsAt(mem, p, posStr, specs, args, c)
    ensures DecodeAll(mem, p, specs, posStr) == SeenAll(specs, args, c.nStr)
    decreases |specs|
  {
    hide Covers, FromLE, CString, LE, Seen, DecodeArg;
    if specs != [] {
      DecodeStep(mem, p, posStr, specs, args, c);
      ExtraStep(specs, args, c);
      RoundTrip(mem, p + Distance(specs[0]), posStr, specs[1..], args[1..], Advance(specs[0], args[0], c));
    }
  }
}
