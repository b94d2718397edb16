/** The two passes over a format string (haclog_vsprintf.c): one counts conversions and arguments, the other
    fills one specification per conversion. The grammar is that of section 7.21.6.1 of ISO/IEC 9899:2011,
    with the differences of the code: `%%` is left in the literal text, at most two length characters are
    read and any two are accepted, and a static precision of 0 means none. */
module FormatParser {
  import opened CString
  import opened PrintfSpec

  datatype Error = NoError | LengthError | TypeError

  predicate IsFlag(c: char) { c == '-' || c == '+' || c == ' ' || c == '#' || c == '0' }

  predicate IsDigit(c: char) { '0' <= c <= '9' }

  function DigitValue(c: char): nat
    requires IsDigit(c)
  {
    c as int - '0' as int
  }

  predicate IsLength(c: char) { c == 'h' || c == 'l' || c == 'j' || c == 'z' || c == 't' || c == 'L' }

  predicate IsType(c: char) {
    c == 'd' || c == 'i' || c == 'u' || c == 'o' || c == 'x' || c == 'X' || c == 'f' || c == 'F' || c == 'e' ||
    c == 'E' || c == 'g' || c == 'G' || c == 'a' || c == 'A' || c == 'c' || c == 's' || c == 'p' || c == 'n'
  }

  // --------------------------------------------------------- one conversion

  function SkipFlags(fmt: seq<char>, i: nat): (j: nat)
    requires i <= |fmt|
    ensures i <= j <= |fmt| && (forall k :: i <= k < j ==> IsFlag(fmt[k])) && !IsFlag(At(fmt, j))
    decreases |fmt| - i
  {
    if IsFlag(At(fmt, i)) then SkipFlags(fmt, i + 1) else i
  }

  function SkipDigits(fmt: seq<char>, i: nat): (j: nat)
    requires i <= |fmt|
    ensures i <= j <= |fmt| && (forall k :: i <= k < j ==> IsDigit(fmt[k])) && !IsDigit(At(fmt, j))
    decreases |fmt| - i
  {
    if IsDigit(At(fmt, i)) then SkipDigits(fmt, i + 1) else i
  }

  function SkipLengths(fmt: seq<char>, i: nat): (j: nat)
    requires i <= |fmt|
    ensures i <= j <= |fmt| && (forall k :: i <= k < j ==> IsLength(fmt[k])) && !IsLength(At(fmt, j))
    decreases |fmt| - i
  {
    if IsLength(At(fmt, i)) then SkipLengths(fmt, i + 1) else i
  }

  /** The end of a width or precision at `i`. */
  function NumEnd(fmt: seq<char>, i: nat): (j: nat)
    requires i <= |fmt|
    ensures i <= j <= |fmt|
  {
    if At(fmt, i) == '*' then i + 1 else SkipDigits(fmt, i)
  }

  function Decimal(fmt: seq<char>, i: nat, j: nat): nat
    requires i <= j <= |fmt| && forall k :: i <= k < j ==> IsDigit(fmt[k])
  {
    if i == j then 0 else 10 * Decimal(fmt, i, j - 1) + DigitValue(fmt[j - 1])
  }

  function NumValue(fmt: seq<char>, i: nat): int
    requires i <= |fmt|
  {
    if At(fmt, i) == '*' then DYNAMIC else Decimal(fmt, i, SkipDigits(fmt, i))
  }

  function WidthAt(fmt: seq<char>, i: nat): nat
    requires i < |fmt|
  {
    SkipFlags(fmt, i + 1)
  }

  function WidthEnd(fmt: seq<char>, i: nat): nat
    requires i < |fmt|
  {
    NumEnd(fmt, WidthAt(fmt, i))
  }

  function HasPrecision(fmt: seq<char>, i: nat): bool
    requires i < |fmt|
  {
    At(fmt, WidthEnd(fmt, i)) == '.'
  }

  function PrecisionEnd(fmt: seq<char>, i: nat): (j: nat)
    requires i < |fmt|
    ensures i < j <= |fmt|
  {
    if HasPrecision(fmt, i) then NumEnd(fmt, WidthEnd(fmt, i) + 1) else WidthEnd(fmt, i)
  }

  function LengthEnd(fmt: seq<char>, i: nat): (j: nat)
    requires i < |fmt|
    ensures i < j <= |fmt|
  {
    SkipLengths(fmt, PrecisionEnd(fmt, i))
  }

  function WidthValue(fmt: seq<char>, i: nat): int
    requires i < |fmt|
  {
    NumValue(fmt, WidthAt(fmt, i))
  }

  function PrecisionValue(fmt: seq<char>, i: nat): int
    requires i < |fmt|
  {
    if HasPrecision(fmt, i) then NumValue(fmt, WidthEnd(fmt, i) + 1) else 0
  }

  /** What a pass finds wrong with the conversion whose '%' is at `i`. */
  function ConversionError(fmt: seq<char>, i: nat): Error
    requires i < |fmt|
  {
    if LengthEnd(fmt, i) - PrecisionEnd(fmt, i) > 2 then LengthError
    else if !IsType(At(fmt, LengthEnd(fmt, i))) then TypeError
    else NoError
  }

  /** The end of a conversion without error. */
  function ConversionEnd(fmt: seq<char>, i: nat): (j: nat)
    requires i < |fmt| && ConversionError(fmt, i) == NoError
    ensures i + 1 < j <= |fmt|
  {
    LengthEnd(fmt, i) + 1
  }

  // ---------------------------------------------- what a conversion looks like

  /** flags, width, precision (with its '.'), length */
  datatype Parts = Parts(flags: seq<char>, width: seq<char>, precision: seq<char>, length: seq<char>, typ: char)

  predicate OnlyOf(s: seq<char>, alphabet: string) {
    forall k :: 0 <= k < |s| ==> s[k] in alphabet
  }

  predicate WellFormed(p: Parts) {
    var digits := "0123456789";
    && OnlyOf(p.flags, "-+ #0")
    && (p.width == "*" || (OnlyOf(p.width, digits) && (p.width != "" ==> p.width[0] != '0')))
    && (p.precision == "" || (p.precision[0] == '.' && (p.precision[1..] == "*" || OnlyOf(p.precision[1..], digits))))
    && |p.length| <= 2 && OnlyOf(p.length, "hljztL")
    && p.typ in "diuoxXfFeEgGaAcspn"
  }

  /** A conversion is '%', its parts in order, and nothing else. */
  function Spell(p: Parts): seq<char> {
    "%" + p.flags + p.width + p.precision + p.length + [p.typ]
  }

  predicate IsNumber(s: seq<char>) {
    s == "*" || forall k :: 0 <= k < |s| ==> IsDigit(s[k])
  }

  /** The same in the terms of the scanning loops. */
  predicate Scannable(p: Parts) {
    && (forall k :: 0 <= k < |p.flags| ==> IsFlag(p.flags[k]))
    && IsNumber(p.width) && (p.width != [] ==> p.width[0] != '0')
    && (p.precision == [] || (p.precision[0] == '.' && IsNumber(p.precision[1..])))
    && |p.length| <= 2 && (forall k :: 0 <= k < |p.length| ==> IsLength(p.length[k]))
    && IsType(p.typ)
  }

  lemma {:induction false} Alphabets(c: char)
    ensures IsFlag(c) <==> c in "-+ #0"
    ensures IsDigit(c) <==> c in "0123456789"
    ensures IsLength(c) <==> c in "hljztL"
    ensures IsType(c) <==> c in "diuoxXfFeEgGaAcspn"
  {
  }

  lemma {:induction false} NumberIs(s: seq<char>)
    ensures IsNumber(s) <==> s == "*" || OnlyOf(s, "0123456789")
  {
    hide IsDigit;
    forall c: char ensures IsDigit(c) <==> c in "0123456789" {
      Alphabets(c);
    }
  }

  lemma {:induction false} ScannableIff(p: Parts)
    ensures Scannable(p) <==> WellFormed(p)
  {
    hide IsFlag, IsLength, IsType, IsNumber;
    forall c: char ensures (IsFlag(c) <==> c in "-+ #0") && (IsLength(c) <==> c in "hljztL") {
      Alphabets(c);
    }
    Alphabets(p.typ);
    NumberIs(p.width);
    if p.precision != [] {
      NumberIs(p.precision[1..]);
    }
  }

  function PartsAt(fmt: seq<char>, i: nat): Parts
    requires i < |fmt| && ConversionError(fmt, i) == NoError
  {
    Parts(fmt[i + 1..WidthAt(fmt, i)], fmt[WidthAt(fmt, i)..WidthEnd(fmt, i)], fmt[WidthEnd(fmt, i)..PrecisionEnd(fmt, i)],
          fmt[PrecisionEnd(fmt, i)..LengthEnd(fmt, i)], fmt[LengthEnd(fmt, i)])
  }

  lemma {:induction false} Join(fmt: seq<char>, a: nat, b: nat, c: nat)
    requires a <= b <= c <= |fmt|
    ensures fmt[a..b] + fmt[b..c] == fmt[a..c]
  {
  }

  /** What the passes accept is a conversion. */
  lemma {:induction false} ConversionSound(fmt: seq<char>, i: nat)
    requires i < |fmt| && fmt[i] == '%' && ConversionError(fmt, i) == NoError
    ensures WellFormed(PartsAt(fmt, i)) && Spell(PartsAt(fmt, i)) == fmt[i..ConversionEnd(fmt, i)]
  {
    PartsScannable(fmt, i);
    ScannableIff(PartsAt(fmt, i));
    hide WidthAt, WidthEnd, PrecisionEnd, LengthEnd, WellFormed, Scannable;
    var a, b, c, d, e := i + 1, WidthAt(fmt, i), WidthEnd(fmt, i), PrecisionEnd(fmt, i), LengthEnd(fmt, i);
    assert a <= b <= c <= d <= e < |fmt| by { PartsOrdered(fmt, i); }
    assert fmt[i..a] == "%" && fmt[e..e + 1] == [fmt[e]];
    Join(fmt, i, a, b);
    Join(fmt, i, b, c);
    Join(fmt, i, c, d);
    Join(fmt, i, d, e);
    Join(fmt, i, e, e + 1);
  }

  lemma {:induction false} PartsOrdered(fmt: seq<char>, i: nat)
    requires i < |fmt| && ConversionError(fmt, i) == NoError
    ensures i + 1 <= WidthAt(fmt, i) <= WidthEnd(fmt, i) <= PrecisionEnd(fmt, i) <= LengthEnd(fmt, i) < |fmt|
  {
  }

  lemma {:induction false} NumberWellFormed(fmt: seq<char>, a: nat)
    requires a <= |fmt|
    ensures IsNumber(fmt[a..NumEnd(fmt, a)])
  {
    if At(fmt, a) == '*' {
      assert fmt[a..a + 1] == "*";
    }
  }

  lemma {:induction false} PartsScannable(fmt: seq<char>, i: nat)
    requires i < |fmt| && ConversionError(fmt, i) == NoError
    ensures Scannable(PartsAt(fmt, i))
  {
    hide IsNumber, SkipFlags, SkipLengths, NumEnd, SkipDigits;
    PartsOrdered(fmt, i);
    NumberWellFormed(fmt, WidthAt(fmt, i));
    var w, q := WidthAt(fmt, i), WidthEnd(fmt, i);
    if HasPrecision(fmt, i) {
      NumberWellFormed(fmt, q + 1);
      assert fmt[q..PrecisionEnd(fmt, i)][1..] == fmt[q + 1..PrecisionEnd(fmt, i)];
    }
    assert w < q ==> fmt[w..q][0] == At(fmt, w) != '0';
  }

  lemma {:induction false} FlagsEnd(fmt: seq<char>, a: nat, b: nat)
    requires a <= b <= |fmt| && (forall k :: a <= k < b ==> IsFlag(fmt[k])) && !IsFlag(At(fmt, b))
    ensures SkipFlags(fmt, a) == b
  {
    var j := SkipFlags(fmt, a);
    assert At(fmt, j) == At(fmt, j) && At(fmt, b) == At(fmt, b);
  }

  lemma {:induction false} NumberEnd(fmt: seq<char>, a: nat, b: nat)
    requires a <= b <= |fmt| && IsNumber(fmt[a..b]) && !IsDigit(At(fmt, b)) && (a == b ==> At(fmt, b) != '*')
    ensures NumEnd(fmt, a) == b
  {
    if a < b && fmt[a] == '*' {
      assert fmt[a..b][0] == '*';
      assert !IsDigit('*');
    } else {
      assert forall k :: a <= k < b ==> fmt[k] == fmt[a..b][k - a];
      assert a < b ==> fmt[a..b] != "*" by { assert a < b ==> fmt[a..b][0] == fmt[a]; }
      var j := SkipDigits(fmt, a);
    }
  }

  lemma {:induction false} LengthsEnd(fmt: seq<char>, a: nat, b: nat)
    requires a <= b <= |fmt| && (forall k :: a <= k < b ==> IsLength(fmt[k])) && !IsLength(At(fmt, b))
    ensures SkipLengths(fmt, a) == b
  {
    var j := SkipLengths(fmt, a);
    assert At(fmt, j) == At(fmt, j) && At(fmt, b) == At(fmt, b);
  }

  /** Where the parts of a conversion stand. */
  predicate PartsStand(fmt: seq<char>, p: Parts, i: nat, a: nat, b: nat, c: nat, d: nat, l: nat) {
    && i + 1 == a <= b <= c <= d <= l < |fmt|
    && fmt[i] == '%' && fmt[a..b] == p.flags && fmt[b..c] == p.width && fmt[c..d] == p.precision
    && fmt[d..l] == p.length && fmt[l] == p.typ
  }

  lemma {:induction false} Middle(s: seq<char>, x: seq<char>, y: seq<char>, z: seq<char>)
    requires s == x + y + z
    ensures s[|x|..|x| + |y|] == y
  {
  }

  lemma {:induction false} SliceOfSlice(fmt: seq<char>, i: nat, e: nat, m: nat, n: nat)
    requires i <= e <= |fmt| && m <= n <= e - i
    ensures fmt[i..e][m..n] == fmt[i + m..i + n]
  {
    var s := fmt[i..e];
    assert forall k :: 0 <= k < n - m ==> s[m..n][k] == s[m + k] == fmt[i + (m + k)];
  }

  /** The part `y` of the spelling, and where it stands in the format. */
  lemma {:induction false} PartStands(fmt: seq<char>, i: nat, e: nat, x: seq<char>, y: seq<char>, z: seq<char>)
    requires i <= e <= |fmt| && fmt[i..e] == x + y + z
    ensures i + |x| + |y| <= e && fmt[i + |x|..i + |x| + |y|] == y
  {
    Middle(fmt[i..e], x, y, z);
    SliceOfSlice(fmt, i, e, |x|, |x| + |y|);
  }

  lemma {:induction false} SpellSplits(p: Parts)
    ensures var s, f, w, q, l, t := Spell(p), p.flags, p.width, p.precision, p.length, [p.typ];
      && s == [] + "%" + (f + w + q + l + t) && s == "%" + f + (w + q + l + t)
      && s == ("%" + f) + w + (q + l + t) && s == ("%" + f + w) + q + (l + t)
      && s == ("%" + f + w + q) + l + t && s == ("%" + f + w + q + l) + t + []
  {
  }

  lemma {:induction false} Pieces(fmt: seq<char>, i: nat, e: nat, p: Parts)
    requires i <= e <= |fmt| && fmt[i..e] == Spell(p)
    ensures var a := i + 1;
      var b := a + |p.flags|;
      var c := b + |p.width|;
      var d := c + |p.precision|;
      var l := d + |p.length|;
      e == l + 1 && PartsStand(fmt, p, i, a, b, c, d, l)
  {
    SpellSplits(p);
    var f, w, q, l, t := p.flags, p.width, p.precision, p.length, [p.typ];
    PartStands(fmt, i, e, [], "%", f + w + q + l + t);
    PartStands(fmt, i, e, "%", f, w + q + l + t);
    PartStands(fmt, i, e, "%" + f, w, q + l + t);
    PartStands(fmt, i, e, "%" + f + w, q, l + t);
    PartStands(fmt, i, e, "%" + f + w + q, l, t);
    PartStands(fmt, i, e, "%" + f + w + q + l, t, []);
    var m := i + 1 + |f| + |w| + |q| + |l|;
    assert |fmt[i..e]| == |Spell(p)| == 2 + |f| + |w| + |q| + |l|;
    assert fmt[i..i + 1][0] == fmt[i] && fmt[m..m + 1][0] == fmt[m];
  }

  /** The character after each part cannot continue it. */
  lemma {:induction false} Followers(fmt: seq<char>, p: Parts, i: nat, a: nat, b: nat, c: nat, d: nat, l: nat)
    requires Scannable(p) && PartsStand(fmt, p, i, a, b, c, d, l)
    ensures IsType(At(fmt, l)) && (IsType(At(fmt, d)) || IsLength(At(fmt, d)))
    ensures At(fmt, c) == '.' || IsType(At(fmt, c)) || IsLength(At(fmt, c))
    ensures c > b ==> At(fmt, b) == '*' || (IsDigit(At(fmt, b)) && At(fmt, b) != '0')
    ensures c == b ==> At(fmt, b) == At(fmt, c)
    ensures (d > c <==> At(fmt, c) == '.') && (d > c ==> IsNumber(fmt[c + 1..d]))
  {
    assert l > d ==> fmt[d] == fmt[d..l][0];
    assert d > c ==> fmt[c] == fmt[c..d][0];
    assert c > b ==> fmt[b] == fmt[b..c][0];
    assert d > c ==> fmt[c + 1..d] == fmt[c..d][1..];
  }

  lemma {:induction false} FlagsPart(fmt: seq<char>, p: Parts, i: nat, a: nat, b: nat, c: nat, d: nat, l: nat)
    requires Scannable(p) && PartsStand(fmt, p, i, a, b, c, d, l)
    ensures WidthAt(fmt, i) == b
  {
    hide IsNumber, SkipFlags;
    Followers(fmt, p, i, a, b, c, d, l);
    assert forall k :: a <= k < b ==> fmt[k] == fmt[a..b][k - a];
    FlagsEnd(fmt, a, b);
  }

  lemma {:induction false} NumberParts(fmt: seq<char>, p: Parts, i: nat, a: nat, b: nat, c: nat, d: nat, l: nat)
    requires Scannable(p) && PartsStand(fmt, p, i, a, b, c, d, l) && WidthAt(fmt, i) == b
    ensures WidthEnd(fmt, i) == c && PrecisionEnd(fmt, i) == d
  {
    hide IsNumber, SkipFlags, NumEnd, WidthAt;
    Followers(fmt, p, i, a, b, c, d, l);
    NumberEnd(fmt, b, c);
    if d > c {
      NumberEnd(fmt, c + 1, d);
    }
  }

  lemma {:induction false} LengthPart(fmt: seq<char>, p: Parts, i: nat, a: nat, b: nat, c: nat, d: nat, l: nat)
    requires Scannable(p) && PartsStand(fmt, p, i, a, b, c, d, l) && PrecisionEnd(fmt, i) == d
    ensures LengthEnd(fmt, i) == l
  {
    hide IsNumber, SkipLengths, PrecisionEnd;
    Followers(fmt, p, i, a, b, c, d, l);
    assert forall k :: d <= k < l ==> fmt[k] == fmt[d..l][k - d];
    LengthsEnd(fmt, d, l);
  }

  /** Every conversion in the format is accepted, and only as itself: its end is determined. */
  lemma {:induction false} ConversionComplete(fmt: seq<char>, i: nat, e: nat, p: Parts)
    requires i <= e <= |fmt| && WellFormed(p) && fmt[i..e] == Spell(p)
    ensures i < |fmt| && fmt[i] == '%' && ConversionError(fmt, i) == NoError && ConversionEnd(fmt, i) == e
    ensures PartsAt(fmt, i) == p
  {
    hide Spell, WidthAt, WidthEnd, PrecisionEnd, LengthEnd, WellFormed;
    ScannableIff(p);
    var a := i + 1;
    var b := a + |p.flags|;
    var c := b + |p.width|;
    var d := c + |p.precision|;
    var l := d + |p.length|;
    Pieces(fmt, i, e, p);
    FlagsPart(fmt, p, i, a, b, c, d, l);
    NumberParts(fmt, p, i, a, b, c, d, l);
    LengthPart(fmt, p, i, a, b, c, d, l);
  }

  /** Counting and filling accept a conversion at `i` exactly when one stands there. */
  lemma {:induction false} AcceptedIff(fmt: seq<char>, i: nat)
    requires i < |fmt| && fmt[i] == '%'
    ensures ConversionError(fmt, i) == NoError <==>
      exists e: nat, p: Parts :: i <= e <= |fmt| && WellFormed(p) && fmt[i..e] == Spell(p)
  {
    hide Spell, WellFormed;
    if ConversionError(fmt, i) == NoError {
      ConversionSound(fmt, i);
    }
    forall e: nat, p: Parts | i <= e <= |fmt| && WellFormed(p) && fmt[i..e] == Spell(p)
      ensures ConversionError(fmt, i) == NoError
    {
      ConversionComplete(fmt, i, e, p);
    }
  }
}
