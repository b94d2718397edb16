/** The parsed conversion specifications of one log call and the values they carry
    (haclog_vsprintf.h, and the type tables of haclog_vsprintf.c). Sizes are those of LP64. */
module PrintfSpec {
  import opened Bytes

  /** Width or precision taken from the argument list. */
  const DYNAMIC: int := -1

  datatype FmtType =
    | NONE | STR | DOUBLE | LONG_DOUBLE | SIZE | PTR | PTRDIFF
    | CHAR | UCHAR | UBYTE | BYTE | USHORT | SHORT | UINT | INT
    | ULONG | LONG | LONGLONG | ULONGLONG

  /** The bit-fields for width and precision. */
  type int16 = x: int | -0x8000 <= x < 0x8000

  datatype Spec = Spec(posBegin: nat, posEnd: nat, width: int16, precision: int16,
                       length: nat, flags: set<char>, typ: char, fmtType: FmtType)

  /** The parsed form of a call site. `level` is the level of the call. */
  datatype Primitive = Primitive(fmt: seq<char>, specs: seq<Spec>, paramSize: nat, level: int)

  datatype Value = Num(v: int) | Raw(bits: seq<byte>) | Str(s: seq<byte>)

  /** The arguments one specification takes: width and precision matter only where it asks for them. */
  datatype Arg = Arg(width: int, precision: int, val: Value)

  predicate IsInteger(t: FmtType) {
    !t.NONE? && !t.STR? && !t.DOUBLE? && !t.LONG_DOUBLE?
  }

  /** Bytes of an integer argument that are stored (`sizeof` its type). */
  function IntSize(t: FmtType): nat {
    if t.CHAR? || t.UCHAR? || t.UBYTE? || t.BYTE? then 1
    else if t.USHORT? || t.SHORT? then 2
    else if t.UINT? || t.INT? then 4
    else 8
  }

  predicate Signed(t: FmtType) {
    t.CHAR? || t.BYTE? || t.SHORT? || t.INT? || t.LONG? || t.LONGLONG? || t.PTRDIFF?
  }

  /** Two's complement: the signed integer whose `n`-byte representation is `u`. */
  function ToSigned(u: nat, n: nat): int {
    if 2 * u >= Pow256(n) then u - Pow256(n) else u
  }

  /** `v` converted to the C type `t`. */
  function Wrap(t: FmtType, v: int): int {
    var u := v % Pow256(IntSize(t));
    if Signed(t) then ToSigned(u, IntSize(t)) else u
  }

  /** `v` is a value of the C type `t`. */
  predicate InRange(t: FmtType, v: int) {
    if Signed(t) then -Pow256(IntSize(t)) <= 2 * v < Pow256(IntSize(t)) else 0 <= v < Pow256(IntSize(t))
  }

  lemma {:induction false} WrapInRange(t: FmtType, v: int)
    requires InRange(t, v)
    ensures Wrap(t, v) == v
  {
    var p := Pow256(IntSize(t));
    if v < 0 {
      DivModUnique(v, p, -1, v + p);
    } else {
      DivModUnique(v, p, 0, v);
    }
  }

  /** A `char const *` argument is its bytes up to the terminating NUL. */
  predicate NoNul(s: seq<byte>) {
    forall i :: 0 <= i < |s| ==> s[i] != 0
  }

  predicate IsInt32(v: int) {
    -0x8000_0000 <= v < 0x8000_0000
  }

  predicate WellTyped(spec: Spec, a: Arg) {
    && IsInt32(a.width) && IsInt32(a.precision)
    && (spec.fmtType.STR? ==> a.val.Str? && NoNul(a.val.s))
    && (spec.fmtType.DOUBLE? ==> a.val.Raw? && |a.val.bits| == 8)
    && (spec.fmtType.LONG_DOUBLE? ==> a.val.Raw? && |a.val.bits| == 16)
    && (IsInteger(spec.fmtType) ==> a.val.Num?)
  }

  predicate WellTypedAll(specs: seq<Spec>, args: seq<Arg>) {
    |args| == |specs| && forall i :: 0 <= i < |specs| ==> WellTyped(specs[i], args[i])
  }

  /** `haclog_printf_spec_param_size`: bytes set aside for one specification. */
  function ParamSize(spec: Spec): (n: nat)
    ensures n >= 8 && n % 8 == 0
  {
    (if spec.fmtType.LONG_DOUBLE? then 16 else 8) +
    (if spec.width == DYNAMIC then 8 else 0) +
    (if spec.precision == DYNAMIC then 8 else 0)
  }

  function ParamSizes(specs: seq<Spec>): nat {
    if specs == [] then 0 else ParamSize(specs[0]) + ParamSizes(specs[1..])
  }

  lemma {:induction false} ParamSizesAligned(specs: seq<Spec>)
    ensures ParamSizes(specs) % 8 == 0
  {
    if specs != [] {
      ParamSizesAligned(specs[1..]);
    }
  }
}
