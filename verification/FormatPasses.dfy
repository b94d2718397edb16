/** The counting pass (`haclog_printf_num_params`), the filling pass (`haclog_printf_spec_fillup`) and
    `haclog_printf_primitive_gen`, as loops over the format, and what they agree on. */
module FormatPasses {
  import opened CString
  import opened PrintfSpec
  import opened FormatParser
  import opened FormatCuts
  import Formatter

  // --------------------------------------------------------------- the passes

  /** `haclog_printf_get_num` */
  method GetNum(fmt: seq<char>, i: nat) returns (v: int, j: nat)
    requires i <= |fmt|
    ensures v == NumValue(fmt, i) && j == NumEnd(fmt, i)
  {
    v, j := 0, i;
    if At(fmt, j) == '*' {
      v, j := DYNAMIC, j + 1;
    } else {
      while IsDigit(At(fmt, j))
        invariant i <= j <= |fmt| && SkipDigits(fmt, j) == SkipDigits(fmt, i)
        invariant v == Decimal(fmt, i, j)
        decreases |fmt| - j
      {
        v, j := 10 * v + DigitValue(fmt[j]), j + 1;
      }
    }
  }

  /** The loop over flag characters. */
  method GetFlags(fmt: seq<char>, i: nat) returns (flags: set<char>, j: nat)
    requires i <= |fmt|
    ensures j == SkipFlags(fmt, i) && flags == FlagSet(fmt, i, j)
  {
    flags, j := {}, i;
    while IsFlag(At(fmt, j))
      invariant i <= j <= |fmt| && SkipFlags(fmt, j) == SkipFlags(fmt, i)
      invariant flags == FlagSet(fmt, i, j)
      decreases |fmt| - j
    {
      flags, j := flags + {fmt[j]}, j + 1;
    }
  }

  /** The loop over length characters, which both passes share: a third one is an error. */
  method GetLength(fmt: seq<char>, i: nat) returns (ok: bool, length: nat, j: nat)
    requires i <= |fmt|
    ensures ok <==> SkipLengths(fmt, i) - i <= 2
    ensures ok ==> j == SkipLengths(fmt, i) && length == LengthCode(fmt[i..j])
  {
    length, j := 0, i;
    while IsLength(At(fmt, j))
      invariant i <= j <= |fmt| && j <= i + 2 && SkipLengths(fmt, j) == SkipLengths(fmt, i)
      invariant length == LengthCode(fmt[i..j])
      invariant forall k :: i <= k < j ==> IsLength(fmt[k])
      decreases |fmt| - j
    {
      if length > 256 {
        return false, length, j;
      }
      if length == 0 {
        length := fmt[j] as int;
      } else {
        length := length + 256 * (fmt[j] as int);
      }
      j := j + 1;
    }
    ok := true;
  }

  /** One conversion in the counting pass, from its '%' at `i`. */
  method CountConversion(fmt: seq<char>, i: nat) returns (err: Error, args: nat, j: nat)
    requires i < |fmt| && IsConversionStart(fmt, i)
    ensures err == ConversionError(fmt, i)
    ensures err == NoError ==> args == 1 + Stars(fmt, i) && j == ConversionEnd(fmt, i)
  {
    hide SkipFlags, SkipLengths, NumValue, NumEnd, LengthCode;
    args := 0;
    var v, flags, ok, length;
    flags, j := GetFlags(fmt, i + 1);
    v, j := GetNum(fmt, j);
    if v == DYNAMIC {
      args := args + 1;
    }
    if At(fmt, j) == '.' {
      v, j := GetNum(fmt, j + 1);
      if v == DYNAMIC {
        args := args + 1;
      }
    }
    ok, length, j := GetLength(fmt, j);
    if !ok {
      return LengthError, args, j;
    }
    if !IsType(At(fmt, j)) {
      return TypeError, args, j;
    }
    args, j := args + 1, j + 1;
    err := NoError;
  }

  lemma {:induction false} AllCounted(fmt: seq<char>)
    ensures forall marks :: Cuts(fmt, marks, 0) ==> CountFrom(fmt, 0) == Count(NoError, |marks|, |marks| + Asked(marks))
  {
    hide Cuts, Asked, CountFrom;
    forall marks | Cuts(fmt, marks, 0)
      ensures CountFrom(fmt, 0) == Count(NoError, |marks|, |marks| + Asked(marks))
    {
      CutsFilled(fmt, marks);
    }
  }

  /** `haclog_printf_num_params` */
  method NumParams(fmt: seq<char>) returns (err: Error, numParams: nat, numArgs: nat)
    requires IsCString(fmt)
    ensures err == CountFrom(fmt, 0).err
    ensures err == NoError ==> numParams == CountFrom(fmt, 0).params && numArgs == CountFrom(fmt, 0).args
    ensures err == NoError <==> exists marks :: Cuts(fmt, marks, 0)
    ensures forall marks :: Cuts(fmt, marks, 0) ==> numParams == |marks| && numArgs == |marks| + Asked(marks)
  {
    hide Cuts, Asked;
    CountedIff(fmt);
    AllCounted(fmt);
    numParams, numArgs, err := 0, 0, NoError;
    var i := 0;
    while At(fmt, i) != '\0'
      invariant 0 <= i <= |fmt| && err == NoError
      invariant CountFrom(fmt, 0).err == CountFrom(fmt, i).err
      invariant CountFrom(fmt, 0).params == numParams + CountFrom(fmt, i).params
      invariant CountFrom(fmt, 0).args == numArgs + CountFrom(fmt, i).args
      decreases |fmt| - i
    {
      if At(fmt, i) != '%' {
        i := i + 1;
      } else if At(fmt, i + 1) == '%' {
        i := i + 2;
      } else {
        var args, j;
        err, args, j := CountConversion(fmt, i);
        if err != NoError {
          return;
        }
        numParams, numArgs, i := numParams + 1, numArgs + args, j;
      }
    }
  }

  /** Any conversion that stands at `i` is accepted with its own end and filled as it is spelled. */
  ghost predicate AsSpelled(fmt: seq<char>, i: nat, err: Error, spec: Spec, j: nat) {
    forall e: nat, p: Parts :: i <= e <= |fmt| && WellFormed(p) && fmt[i..e] == Spell(p) ==>
      err == NoError && j == e && Describes(spec, Mark(i, e, p))
  }

  lemma {:induction false} AllDescribed(fmt: seq<char>, i: nat)
    requires i < |fmt|
    ensures forall err, spec, j ::
      err == ConversionError(fmt, i) && (err == NoError ==> spec == SpecAt(fmt, i) && j == ConversionEnd(fmt, i)) ==>
        AsSpelled(fmt, i, err, spec, j)
  {
    hide WellFormed, Spell, Describes, ConversionError, ConversionEnd, SpecAt;
    forall e: nat, p: Parts | i <= e <= |fmt| && WellFormed(p) && fmt[i..e] == Spell(p)
      ensures ConversionError(fmt, i) == NoError && ConversionEnd(fmt, i) == e && Describes(SpecAt(fmt, i), Mark(i, e, p))
    {
      SpelledDescribed(fmt, i, e, p);
    }
  }

  /** One conversion in the filling pass, from its '%' at `i`. */
  method FillConversion(fmt: seq<char>, i: nat) returns (err: Error, spec: Spec, j: nat)
    requires i < |fmt| && IsConversionStart(fmt, i)
    ensures err == ConversionError(fmt, i)
    ensures err == NoError ==> spec == SpecAt(fmt, i) && j == ConversionEnd(fmt, i)
    ensures AsSpelled(fmt, i, err, spec, j)
  {
    hide AsSpelled, SkipFlags, SkipLengths, NumValue, NumEnd, LengthCode, TypeOf, Trunc16, FlagSet;
    AllDescribed(fmt, i);
    NoPrecisionField();
    spec := Spec(0, 0, 0, 0, 0, {}, '\0', NONE);
    var v, flags, ok, length;
    flags, j := GetFlags(fmt, i + 1);
    v, j := GetNum(fmt, j);
    var width, precision := Trunc16(v), 0;
    if At(fmt, j) == '.' {
      v, j := GetNum(fmt, j + 1);
      precision := Trunc16(v);
    }
    assert j == PrecisionEnd(fmt, i) && precision == Trunc16(PrecisionValue(fmt, i));
    hide WidthEnd, HasPrecision, PrecisionValue, PrecisionEnd;
    ok, length, j := GetLength(fmt, j);
    if !ok {
      return LengthError, spec, j;
    }
    if !IsType(At(fmt, j)) {
      return TypeError, spec, j;
    }
    var typ := fmt[j];
    j := j + 1;
    spec := Spec(i % 0x1_0000, j % 0x1_0000, width, precision, length, flags, typ, TypeOf(typ, length));
    err := NoError;
  }

  lemma {:induction false} NoPrecisionField()
    ensures Trunc16(0) == 0
  {
  }

  lemma {:induction false} FillStep(fmt: seq<char>, i: nat, n: nat)
    requires i < |fmt|
    ensures fmt[i] != '%' ==> FillFrom(fmt, i, n) == FillFrom(fmt, i + 1, n)
    ensures fmt[i] == '%' && At(fmt, i + 1) == '%' ==> FillFrom(fmt, i, n) == FillFrom(fmt, i + 2, n)
    ensures IsConversionStart(fmt, i) ==>
      && (n == 0 ==> FillFrom(fmt, i, n) == Filled(NoError, []))
      && (n > 0 && ConversionError(fmt, i) != NoError ==> FillFrom(fmt, i, n) == Filled(ConversionError(fmt, i), []))
      && (n > 0 && ConversionError(fmt, i) == NoError ==>
            FillFrom(fmt, i, n).err == FillFrom(fmt, ConversionEnd(fmt, i), n - 1).err &&
            FillFrom(fmt, i, n).specs == [SpecAt(fmt, i)] + FillFrom(fmt, ConversionEnd(fmt, i), n - 1).specs)
  {
    hide SpecAt, ConversionError, ConversionEnd;
  }

  lemma {:induction false} FillEnd(fmt: seq<char>, n: nat)
    ensures FillFrom(fmt, |fmt|, n) == Filled(NoError, [])
  {
  }

  lemma {:induction false} Shift(a: seq<Spec>, x: Spec, b: seq<Spec>)
    ensures a + ([x] + b) == a + [x] + b
  {
  }

  /** A format with `n` conversions is filled without error, as it is spelled. */
  ghost predicate AllAsSpelled(fmt: seq<char>, n: nat, err: Error, specs: seq<Spec>) {
    forall marks :: Cuts(fmt, marks, 0) && |marks| == n ==> err == NoError && DescribesAll(specs, marks)
  }

  lemma {:induction false} AllFilled(fmt: seq<char>, n: nat)
    ensures var f := FillFrom(fmt, 0, n);
      forall err, specs :: err == f.err && (err == NoError ==> specs == f.specs) ==> AllAsSpelled(fmt, n, err, specs)
  {
    hide Cuts, DescribesAll, FillFrom;
    forall marks | Cuts(fmt, marks, 0) && |marks| == n
      ensures FillFrom(fmt, 0, n).err == NoError && DescribesAll(FillFrom(fmt, 0, n).specs, marks)
    {
      CutsFilled(fmt, marks);
    }
  }

  /** `haclog_printf_spec_fillup`: fills the array from its start. */
  method SpecFillup(fmt: seq<char>, specs: array<Spec>) returns (err: Error, filled: nat)
    requires IsCString(fmt)
    modifies specs
    ensures err == FillFrom(fmt, 0, specs.Length).err
    ensures filled <= specs.Length && (err == NoError ==> specs[..filled] == FillFrom(fmt, 0, specs.Length).specs)
    ensures AllAsSpelled(fmt, specs.Length, err, specs[..filled])
  {
    hide AllAsSpelled, FillFrom, SpecAt, ConversionError, ConversionEnd;
    AllFilled(fmt, specs.Length);
    err, filled := NoError, 0;
    var i := 0;
    ghost var all := FillFrom(fmt, 0, specs.Length);
    FillEnd(fmt, specs.Length);
    while At(fmt, i) != '\0'
      invariant 0 <= i <= |fmt| && 0 <= filled <= specs.Length && err == NoError
      invariant all.err == FillFrom(fmt, i, specs.Length - filled).err
      invariant all.specs == specs[..filled] + FillFrom(fmt, i, specs.Length - filled).specs
      decreases |fmt| - i
    {
      FillStep(fmt, i, specs.Length - filled);
      if At(fmt, i) != '%' {
        i := i + 1;
      } else if At(fmt, i + 1) == '%' {
        i := i + 2;
      } else {
        if filled >= specs.Length {
          assert specs[..filled] + [] == specs[..filled];
          return;
        }
        var spec, j;
        err, spec, j := FillConversion(fmt, i);
        if err != NoError {
          return;
        }
        ghost var before := specs[..filled];
        specs[filled] := spec;
        assert specs[..filled + 1] == before + [spec];
        Shift(before, spec, FillFrom(fmt, j, specs.Length - filled - 1).specs);
        i, filled := j, filled + 1;
      }
    }
    FillEnd(fmt, specs.Length - filled);
    assert specs[..filled] + [] == specs[..filled];
  }

  // --------------------------------------------------------------- agreement

  /** Whatever the format, a successful count is what the filling pass then fills, without error; and with
      room to spare the filling pass fails exactly where counting fails. */
  lemma {:induction false} PassesAgree(fmt: seq<char>, i: nat, n: nat)
    requires i <= |fmt|
    ensures var c, f := CountFrom(fmt, i), FillFrom(fmt, i, n);
      && (c.err == NoError ==> FillFrom(fmt, i, c.params).err == NoError && |FillFrom(fmt, i, c.params).specs| == c.params)
      && (n > |fmt| - i ==> f.err == c.err)
      && |f.specs| <= n
    decreases |fmt| - i
  {
    hide SpecAt;
    if i == |fmt| {
    } else if !IsConversionStart(fmt, i) {
      PassesAgree(fmt, AfterLiteral(fmt, i), n);
    } else if ConversionError(fmt, i) == NoError {
      PassesAgree(fmt, ConversionEnd(fmt, i), if n == 0 then 0 else n - 1);
    }
  }

  lemma {:induction false} MarksRanged(fmt: seq<char>, specs: seq<Spec>, marks: seq<Mark>, pos: nat)
    requires |fmt| < 0x1_0000 && Cuts(fmt, marks, pos) && DescribesAll(specs, marks)
    ensures Formatter.Ranged(fmt, specs, pos)
    decreases |specs|
  {
    hide WellFormed, IsLiteral, Takes, Holds;
    if specs != [] {
      assert Describes(specs[0], marks[0]);
      MarksRanged(fmt, specs[1..], marks[1..], marks[0].end);
    }
  }

  function DynamicFields(specs: seq<Spec>): nat {
    if specs == [] then 0 else
      (if specs[0].width == DYNAMIC then 1 else 0) + (if specs[0].precision == DYNAMIC then 1 else 0) + DynamicFields(specs[1..])
  }

  /** A static width or precision that the 16-bit field turns into the dynamic mark. */
  predicate Misread(v: int) {
    v >= 0 && v % 0x1_0000 == 0xffff
  }

  predicate AnyMisread(fmt: seq<char>, i: nat)
    requires i <= |fmt|
    decreases |fmt| - i
  {
    if i == |fmt| then false
    else if !IsConversionStart(fmt, i) then AnyMisread(fmt, AfterLiteral(fmt, i))
    else if ConversionError(fmt, i) != NoError then false
    else Misread(WidthValue(fmt, i)) || Misread(PrecisionValue(fmt, i)) || AnyMisread(fmt, ConversionEnd(fmt, i))
  }

  /** The counted arguments are one per conversion and one per dynamic field of the filled specifications,
      if and only if no static width or precision is 65535 modulo 65536. */
  lemma {:induction false} ArgsCountedIff(fmt: seq<char>, i: nat)
    requires i <= |fmt| && CountFrom(fmt, i).err == NoError
    ensures var c := CountFrom(fmt, i);
      var d := DynamicFields(FillFrom(fmt, i, c.params).specs);
      && c.args <= c.params + d
      && (c.args == c.params + d <==> !AnyMisread(fmt, i))
    decreases |fmt| - i
  {
    hide TypeOf, ConversionError, ConversionEnd, WidthAt, WidthEnd, PrecisionEnd, LengthEnd, Decimal;
    if i == |fmt| {
    } else if !IsConversionStart(fmt, i) {
      ArgsCountedIff(fmt, AfterLiteral(fmt, i));
    } else {
      var e := ConversionEnd(fmt, i);
      ArgsCountedIff(fmt, e);
      var specs := FillFrom(fmt, i, CountFrom(fmt, i).params).specs;
      assert specs == [SpecAt(fmt, i)] + FillFrom(fmt, e, CountFrom(fmt, e).params).specs;
      assert specs[1..] == FillFrom(fmt, e, CountFrom(fmt, e).params).specs;
      TruncDynamic(WidthValue(fmt, i));
      TruncDynamic(PrecisionValue(fmt, i));
    }
  }

  /** "%65535d" is such a format: one argument is counted, but the specification also asks for a width. */
  lemma {:induction false} MisreadHappens()
    ensures var f := "%65535d";
      && CountFrom(f, 0) == Count(NoError, 1, 1) && AnyMisread(f, 0)
      && DynamicFields(FillFrom(f, 0, 1).specs) == 1
  {
    hide WidthAt, WidthEnd, PrecisionEnd, LengthEnd, WidthValue, PrecisionValue;
    var f := "%65535d";
    MisreadParts();
    assert ConversionEnd(f, 0) == 7 && CountFrom(f, 7) == Count(NoError, 0, 0);
    var specs := FillFrom(f, 0, 1).specs;
    assert specs == [SpecAt(f, 0)] + FillFrom(f, 7, 0).specs && FillFrom(f, 7, 0).specs == [];
    assert specs[1..] == [];
    TruncDynamic(65535);
  }

  lemma {:induction false} MisreadParts()
    ensures var f := "%65535d";
      && IsConversionStart(f, 0) && WidthAt(f, 0) == 1 && PrecisionEnd(f, 0) == 6 && LengthEnd(f, 0) == 6
      && WidthValue(f, 0) == 65535 && PrecisionValue(f, 0) == 0
  {
    var f := "%65535d";
    assert SkipFlags(f, 1) == 1;
    assert SkipDigits(f, 6) == 6 && SkipDigits(f, 5) == 6 && SkipDigits(f, 4) == 6 && SkipDigits(f, 3) == 6;
    assert SkipDigits(f, 2) == 6 && SkipDigits(f, 1) == 6;
    assert Decimal(f, 1, 1) == 0 && Decimal(f, 1, 2) == 6 && Decimal(f, 1, 3) == 65 && Decimal(f, 1, 4) == 655;
    assert Decimal(f, 1, 5) == 6553 && Decimal(f, 1, 6) == 65535;
    assert SkipLengths(f, 6) == 6;
  }

  lemma {:induction false} TruncDynamic(v: int)
    requires v >= DYNAMIC
    ensures Trunc16(v) == DYNAMIC <==> v == DYNAMIC || Misread(v)
  {
  }

  /** The length characters a type is known with. */
  function KnownLengths(typ: char): set<seq<char>> {
    if typ in {'d', 'i', 'u', 'o', 'x', 'X'} then {"", "hh", "h", "l", "ll", "j", "z", "t"}
    else if typ in {'f', 'F', 'e', 'E', 'g', 'G', 'a', 'A'} then {"", "L"}
    else if typ in {'c', 's', 'p'} then {""}
    else {}
  }

  lemma {:induction false} TypeKnownIff(typ: char, length: seq<char>)
    requires |length| <= 2 && (forall k :: 0 <= k < |length| ==> IsLength(length[k]))
    ensures TypeOf(typ, LengthCode(length)) == NONE <==> length !in KnownLengths(typ)
  {
    LengthCodeInjective(length, "");
    LengthCodeInjective(length, "hh");
    LengthCodeInjective(length, "h");
    LengthCodeInjective(length, "l");
    LengthCodeInjective(length, "ll");
    LengthCodeInjective(length, "j");
    LengthCodeInjective(length, "z");
    LengthCodeInjective(length, "t");
    LengthCodeInjective(length, "L");
    hide LengthCode;
    CodeOfNone();
  }

  /** No combination is refused: an accepted conversion is filled with no type exactly when its length is not one
      its type is known with. */
  lemma {:induction false} UntypedIff(fmt: seq<char>, i: nat)
    requires i < |fmt| && fmt[i] == '%' && ConversionError(fmt, i) == NoError
    ensures SpecAt(fmt, i).fmtType == NONE <==> PartsAt(fmt, i).length !in KnownLengths(PartsAt(fmt, i).typ)
  {
    hide TypeOf, LengthCode, KnownLengths, WidthAt, WidthEnd;
    PartsScannable(fmt, i);
    TypeKnownIff(PartsAt(fmt, i).typ, PartsAt(fmt, i).length);
  }

  lemma {:induction false} LongDoubleParts()
    ensures var f := "%lf";
      && IsConversionStart(f, 0) && WidthAt(f, 0) == 1 && PrecisionEnd(f, 0) == 1 && LengthEnd(f, 0) == 2
      && WidthValue(f, 0) == 0 && PrecisionValue(f, 0) == 0
  {
    var f := "%lf";
    assert SkipFlags(f, 1) == 1 && SkipDigits(f, 1) == 1;
    assert SkipLengths(f, 2) == 2;
  }

  /** `%lf` is one of them: the result of the type table is not looked at, and the conversion is kept. */
  lemma {:induction false} LongDoubleFormatKept()
    ensures CountFrom("%lf", 0) == Count(NoError, 1, 1)
    ensures FillFrom("%lf", 0, 1).err == NoError && FillFrom("%lf", 0, 1).specs[0].fmtType == NONE
  {
    hide WidthAt, WidthEnd, PrecisionEnd, LengthEnd, WidthValue, PrecisionValue, KnownLengths;
    var f := "%lf";
    LongDoubleParts();
    UntypedIff(f, 0);
    LongUnknown();
    assert PartsAt(f, 0).length == "l" && PartsAt(f, 0).typ == 'f';
    assert ConversionEnd(f, 0) == 3 && CountFrom(f, 3) == Count(NoError, 0, 0);
  }

  lemma {:induction false} LongUnknown()
    ensures "l" !in KnownLengths('f')
  {
    assert "l"[0] != "L"[0];
  }

  // --------------------------------------------------------------- generation

  /** `haclog_printf_primitive_gen`: both passes, then the summed parameter size. */
  method Generate(fmt: seq<char>, level: int) returns (ok: bool, prim: Primitive)
    requires IsCString(fmt)
    ensures ok <==> exists marks :: Cuts(fmt, marks, 0)
    ensures forall marks :: Cuts(fmt, marks, 0) ==> DescribesAll(prim.specs, marks)
    ensures ok ==> prim.fmt == fmt && prim.level == level && prim.paramSize == ParamSizes(prim.specs)
    ensures ok && |fmt| < 0x1_0000 ==> Formatter.Ranged(fmt, prim.specs, 0)
  {
    hide Cuts, Describes, Asked, FillFrom, CountFrom;
    prim := Primitive(fmt, [], 0, level);
    var err, numParams, numArgs := NumParams(fmt);
    if err != NoError {
      return false, prim;
    }
    ghost var marks :| Cuts(fmt, marks, 0);
    var specs := new Spec[numParams](_ => Spec(0, 0, 0, 0, 0, {}, '\0', NONE));
    var filled;
    err, filled := SpecFillup(fmt, specs);
    if err != NoError {
      return false, prim;
    }
    assert specs[..] == specs[..filled];
    var paramSize, i := 0, 0;
    while i < numParams
      invariant 0 <= i <= numParams
      invariant paramSize + ParamSizes(specs[i..]) == ParamSizes(specs[..])
    {
      assert specs[i..][1..] == specs[i + 1..];
      paramSize := paramSize + ParamSize(specs[i]);
      i := i + 1;
    }
    prim := Primitive(fmt, specs[..], paramSize, level);
    ok := true;
    if |fmt| < 0x1_0000 {
      MarksRanged(fmt, prim.specs, marks, 0);
    }
  }
}
