/** What a conversion gets for its arguments, said in the terms of C: ranges of the integer types as numbers, cut
    lengths of strings, width and precision as passed. */
module Received {
  import opened Bytes
  import opened PrintfSpec
  import opened Codec

  /** The least value of an integer type, and the first one behind the greatest. */
  function Low(t: FmtType): int {
    if t.CHAR? || t.BYTE? then -0x80
    else if t.SHORT? then -0x8000
    else if t.INT? then -0x8000_0000
    else if t.LONG? || t.LONGLONG? || t.PTRDIFF? then -0x8000_0000_0000_0000
    else 0
  }

  function High(t: FmtType): int {
    if t.CHAR? || t.BYTE? then 0x80
    else if t.UCHAR? || t.UBYTE? then 0x100
    else if t.SHORT? then 0x8000
    else if t.USHORT? then 0x1_0000
    else if t.INT? then 0x8000_0000
    else if t.UINT? then 0x1_0000_0000
    else if t.LONG? || t.LONGLONG? || t.PTRDIFF? then 0x8000_0000_0000_0000
    else 0x1_0000_0000_0000_0000
  }

  /** `got` is the value of the type that is congruent to `v`: `v` itself when it is one. */
  predicate GotNumber(t: FmtType, v: int, got: int) {
    && Low(t) <= got < High(t) && (got - v) % (High(t) - Low(t)) == 0
    && (Low(t) <= v < High(t) ==> got == v)
  }

  function Least(a: int, b: int): int {
    if a < b then a else b
  }

  /** Characters copied of a string of `n`: all without a precision, otherwise as many as the precision says; a
      negative one is taken as a 64-bit unsigned number. */
  function CutLength(spec: Spec, a: Arg, n: nat): int {
    var p := if spec.precision == -1 then a.precision else spec.precision;
    if spec.precision == 0 then n
    else if p >= 0 then Least(n, p)
    else Least(n, 0x1_0000_0000_0000_0000 + p)
  }

  /** `got` is what is left of the string argument when `ahead` strings precede it. */
  predicate GotString(spec: Spec, a: Arg, ahead: nat, got: seq<byte>)
    requires a.val.Str?
  {
    if ahead < 128 then got <= a.val.s && |got| == CutLength(spec, a, |a.val.s|)
    else
      var text := "(haclog str cache full)";
      |got| == |text| && forall k :: 0 <= k < |text| ==> got[k] == text[k] as int
  }

  /** How many of the first `i` specifications are strings. */
  function StringsAhead(specs: seq<Spec>, i: nat): nat
    requires i <= |specs|
  {
    if i == 0 then 0 else StringsAhead(specs, i - 1) + (if specs[i - 1].fmtType == STR then 1 else 0)
  }

  /** `d` is what the conversion gets for the argument, with `ahead` strings before it. */
  predicate Got(spec: Spec, a: Arg, ahead: nat, d: Decoded)
    requires WellTyped(spec, a)
  {
    var t := spec.fmtType;
    && d.width == (if spec.width == -1 then a.width else 0)
    && d.precision == (if spec.precision == -1 then a.precision else 0)
    && (if t == NONE then d.val == Num(0)
        else if t == STR then d.val.Str? && GotString(spec, a, ahead, d.val.s)
        else if t == DOUBLE || t == LONG_DOUBLE then d.val == a.val
        else d.val.Num? && GotNumber(t, a.val.v, d.val.v))
  }

  predicate GotAll(specs: seq<Spec>, args: seq<Arg>, ds: seq<Decoded>)
    requires WellTypedAll(specs, args)
  {
    |ds| == |specs| && forall i :: 0 <= i < |specs| ==> Got(specs[i], args[i], StringsAhead(specs, i), ds[i])
  }

  // ---------------------------------------------------------------- proofs

  lemma {:induction false} RangeIs(t: FmtType)
    requires IsInteger(t)
    ensures High(t) - Low(t) == Pow256(IntSize(t))
    ensures if Signed(t) then -2 * Low(t) == High(t) - Low(t) else Low(t) == 0
  {
    Pows();
  }

  lemma {:induction false} Congruent(v: int, m: int)
    requires m > 0
    ensures (v % m - v) % m == 0 && (v % m - m - v) % m == 0
  {
    var k := v / m;
    assert v == m * k + v % m;
    DivModUnique(v % m - v, m, -k, 0);
    assert m * (-k - 1) == m * -k - m;
    DivModUnique(v % m - m - v, m, -k - 1, 0);
  }

  lemma {:induction false} ResidueMeans(v: int, m: int, signed: bool)
    requires m > 0
    ensures
      var u := v % m;
      var w := if signed && 2 * u >= m then u - m else u;
      && (w - v) % m == 0
      && (if signed then -m <= 2 * w < m else 0 <= w < m)
      && ((if signed then -m <= 2 * v < m else 0 <= v < m) ==> w == v)
  {
    Congruent(v, m);
    if v < 0 && -m <= v {
      DivModUnique(v, m, -1, v + m);
    } else if 0 <= v < m {
      DivModUnique(v, m, 0, v);
    }
  }

  lemma {:induction false} WrapMeans(t: FmtType, v: int)
    requires IsInteger(t)
    ensures GotNumber(t, v, Wrap(t, v))
  {
    RangeIs(t);
    hide Pow256, IntSize, Signed, Low, High;
    ResidueMeans(v, Pow256(IntSize(t)), Signed(t));
  }

  lemma {:induction false} CutMeans(spec: Spec, a: Arg)
    requires WellTyped(spec, a) && spec.fmtType.STR?
    ensures CutString(spec, a) <= a.val.s && |CutString(spec, a)| == CutLength(spec, a, |a.val.s|)
  {
    var p := if spec.precision == DYNAMIC then a.precision else spec.precision;
    if p >= 0 {
      DivModUnique(p, P64, 0, p);
    } else {
      DivModUnique(p, P64, -1, p + P64);
    }
  }

  lemma {:induction false} FullTextMeans()
    ensures var text := "(haclog str cache full)";
      |STR_CACHE_FULL| == |text| && forall k :: 0 <= k < |text| ==> STR_CACHE_FULL[k] == text[k] as int
  {
  }

  lemma {:induction false} SeenMeans(spec: Spec, a: Arg, n: nat)
    requires WellTyped(spec, a)
    ensures Got(spec, a, n, Seen(spec, a, n))
  {
    hide Wrap, GotNumber, CutString, CutLength;
    if spec.fmtType.STR? {
      CutMeans(spec, a);
      FullTextMeans();
    } else if IsInteger(spec.fmtType) {
      WrapMeans(spec.fmtType, a.val.v);
    }
  }

  lemma {:induction false} StringsAheadOfRest(specs: seq<Spec>, i: nat)
    requires 0 < i <= |specs|
    ensures StringsAhead(specs, i) == (if specs[0].fmtType == STR then 1 else 0) + StringsAhead(specs[1..], i - 1)
  {
    if i > 1 {
      StringsAheadOfRest(specs, i - 1);
    } else {
      assert StringsAhead(specs, 0) == 0 && StringsAhead(specs[1..], 0) == 0;
    }
  }

  lemma {:induction false} SeenAllAt(specs: seq<Spec>, args: seq<Arg>, n: nat, i: nat)
    requires WellTypedAll(specs, args) && i < |specs|
    ensures SeenAll(specs, args, n)[i] == Seen(specs[i], args[i], n + StringsAhead(specs, i))
  {
    hide Seen;
    if i > 0 {
      SeenAllAt(specs[1..], args[1..], if specs[0].fmtType.STR? then n + 1 else n, i - 1);
      StringsAheadOfRest(specs, i);
    }
  }

  lemma {:induction false} SeenAllMeans(specs: seq<Spec>, args: seq<Arg>)
    requires WellTypedAll(specs, args)
    ensures GotAll(specs, args, SeenAll(specs, args, 0))
  {
    hide Got, Seen, SeenAll, WellTyped;
    forall i | 0 <= i < |specs| ensures Got(specs[i], args[i], StringsAhead(specs, i), SeenAll(specs, args, 0)[i]) {
      SeenAllAt(specs, args, 0, i);
      SeenMeans(specs[i], args[i], StringsAhead(specs, i));
    }
  }

  /** Decoding the two chunks of a record gives every conversion what was passed for it: width and precision where
      they are dynamic, a number as its type holds it, a floating-point value whole, a string cut as it should be. */
  lemma {:induction false} ReceivedAsPassed(mem: seq<byte>, p: nat, posStr: nat, specs: seq<Spec>, args: seq<Arg>)
    requires WellTypedAll(specs, args) && ExtraLen(specs, args) < P64
    requires ArgsAt(mem, p, posStr, specs, args, Cursor(0, 0))
    ensures p + Distances(specs) <= |mem| && GotAll(specs, args, DecodeAll(mem, p, specs, posStr))
  {
    hide GotAll, SeenAll, DecodeAll, ExtraLen, Strings, StrCells, ConstCells;
    assert SlotSizes(Strings(specs, args, 0)) == ExtraLen(specs, args) by { ExtraIs(specs, args); }
    RoundTrip(mem, p, posStr, specs, args, Cursor(0, 0));
    SeenAllMeans(specs, args);
  }

  lemma {:induction false} ExtraIs(specs: seq<Spec>, args: seq<Arg>)
    requires WellTypedAll(specs, args)
    ensures SlotSizes(Strings(specs, args, 0)) == ExtraLen(specs, args)
  {
  }
}
