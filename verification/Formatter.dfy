/** The text of a record: `haclog_printf_primitive_format` copies literal pieces of the format and lets
    `snprintf` render each conversion into what is left of the output buffer. */
module Formatter {
  import opened PrintfSpec
  import opened Codec

  /** What `snprintf` would print for one conversion, given enough room. */
  type Render = (Spec, Decoded) -> seq<char>

  /** Characters counted so far and the position reached in the format. */
  datatype State = State(out: seq<char>, pos: nat)

  /** The specifications cover disjoint, ordered, nonempty ranges of the format from `pos` on. */
  predicate Ranged(fmt: seq<char>, specs: seq<Spec>, pos: nat) {
    if specs == [] then pos <= |fmt|
    else pos <= specs[0].posBegin < specs[0].posEnd && Ranged(fmt, specs[1..], specs[0].posEnd)
  }

  lemma {:induction false} RangedBound(fmt: seq<char>, specs: seq<Spec>, pos: nat)
    requires Ranged(fmt, specs, pos)
    ensures pos <= |fmt|
    decreases |specs|
  {
    if specs != [] {
      RangedBound(fmt, specs[1..], specs[0].posEnd);
    }
  }

  function Min(a: int, b: int): int {
    if a < b then a else b
  }

  /** Copies literal text into a buffer that can count `cap` characters. */
  function PutLiteral(out: seq<char>, text: seq<char>, cap: nat): (r: seq<char>)
    requires |out| <= cap
    ensures |r| <= cap
  {
    out + text[..Min(|text|, cap - |out|)]
  }

  /** `snprintf` with `cap - |out|` bytes, whose result is clipped to that number: a conversion that
      does not leave a byte to spare loses its last characters and counts its NUL. */
  function PutConversion(out: seq<char>, text: seq<char>, cap: nat): (r: seq<char>)
    requires |out| <= cap
    ensures |r| <= cap
  {
    var remain := cap - |out|;
    if |text| < remain then out + text
    else if remain == 0 then out
    else out + text[..remain - 1] + ['\0']
  }

  function Text(spec: Spec, d: Decoded, render: Render): seq<char> {
    if spec.fmtType.NONE? then [] else render(spec, d)
  }

  /** One turn of the loop over the specifications. */
  function Step(fmt: seq<char>, spec: Spec, d: Decoded, render: Render, cap: nat, st: State): (r: State)
    requires |st.out| <= cap && st.pos <= spec.posBegin <= spec.posEnd <= |fmt|
    ensures |r.out| <= cap
  {
    State(PutConversion(PutLiteral(st.out, fmt[st.pos..spec.posBegin], cap), Text(spec, d, render), cap), spec.posEnd)
  }

  /** The loop, left early when the buffer is full. */
  function Loop(fmt: seq<char>, specs: seq<Spec>, ds: seq<Decoded>, render: Render, cap: nat, st: State): (r: State)
    requires |ds| == |specs| && |st.out| <= cap && Ranged(fmt, specs, st.pos)
    ensures |r.out| <= cap && r.pos <= |fmt|
    decreases |specs|
  {
    RangedBound(fmt, specs, st.pos);
    if specs == [] then st else
      RangedBound(fmt, specs[1..], specs[0].posEnd);
      var st' := Step(fmt, specs[0], ds[0], render, cap, st);
      if |st'.out| >= cap then st' else Loop(fmt, specs[1..], ds[1..], render, cap, st')
  }

  /** The text after the last specification. */
  function Finish(fmt: seq<char>, cap: nat, st: State): (out: seq<char>)
    requires |st.out| <= cap && st.pos <= |fmt|
    ensures |out| <= cap
  {
    if st.pos != |fmt| then PutLiteral(st.out, fmt[st.pos..], cap) else st.out
  }

  /** The characters counted for a buffer of `bufsize` bytes; the byte after them is NUL. */
  function Format(fmt: seq<char>, specs: seq<Spec>, ds: seq<Decoded>, render: Render, bufsize: nat): (out: seq<char>)
    requires bufsize >= 1 && |ds| == |specs| && Ranged(fmt, specs, 0)
    ensures |out| <= bufsize - 1
  {
    Finish(fmt, bufsize - 1, Loop(fmt, specs, ds, render, bufsize - 1, State([], 0)))
  }

  // ------------------------------------------------------- the text that is meant

  /** The format with each specification replaced by its rendering. */
  function Full(fmt: seq<char>, specs: seq<Spec>, ds: seq<Decoded>, render: Render, pos: nat): seq<char>
    requires |ds| == |specs| && Ranged(fmt, specs, pos)
    decreases |specs|
  {
    RangedBound(fmt, specs, pos);
    if specs == [] then fmt[pos..] else
      RangedBound(fmt, specs[1..], specs[0].posEnd);
      fmt[pos..specs[0].posBegin] + (Text(specs[0], ds[0], render) + Full(fmt, specs[1..], ds[1..], render, specs[0].posEnd))
  }

  /** What each conversion prints. */
  function Pieces(specs: seq<Spec>, ds: seq<Decoded>, render: Render): (ps: seq<seq<char>>)
    requires |ds| == |specs|
    ensures |ps| == |specs|
  {
    seq(|specs|, i requires 0 <= i < |specs| => if specs[i].fmtType == NONE then [] else render(specs[i], ds[i]))
  }

  /** The format from `pos` on with piece `i` in place of range `i`. */
  function Interleave(fmt: seq<char>, specs: seq<Spec>, pieces: seq<seq<char>>, pos: nat): seq<char>
    requires |pieces| == |specs| && Ranged(fmt, specs, pos)
    decreases |specs|
  {
    RangedBound(fmt, specs, pos);
    if specs == [] then fmt[pos..] else
      RangedBound(fmt, specs[1..], specs[0].posEnd);
      fmt[pos..specs[0].posBegin] + (pieces[0] + Interleave(fmt, specs[1..], pieces[1..], specs[0].posEnd))
  }

  /** Every conversion is replaced by what `snprintf` prints for its own specification and its own values. */
  lemma {:induction false} FullInterleaves(fmt: seq<char>, specs: seq<Spec>, ds: seq<Decoded>, render: Render, pos: nat)
    requires |ds| == |specs| && Ranged(fmt, specs, pos)
    ensures Full(fmt, specs, ds, render, pos) == Interleave(fmt, specs, Pieces(specs, ds, render), pos)
    decreases |specs|
  {
    RangedBound(fmt, specs, pos);
    if specs != [] {
      RangedBound(fmt, specs[1..], specs[0].posEnd);
      FullInterleaves(fmt, specs[1..], ds[1..], render, specs[0].posEnd);
      assert Pieces(specs, ds, render)[1..] == Pieces(specs[1..], ds[1..], render);
    }
  }

  function Repeat(b: bool, n: nat): (s: seq<bool>)
    ensures |s| == n
  {
    seq(n, i => b)
  }

  /** Which characters of the full text come from a conversion. */
  function Converted(fmt: seq<char>, specs: seq<Spec>, ds: seq<Decoded>, render: Render, pos: nat): (m: seq<bool>)
    requires |ds| == |specs| && Ranged(fmt, specs, pos)
    ensures |m| == |Full(fmt, specs, ds, render, pos)|
    decreases |specs|
  {
    RangedBound(fmt, specs, pos);
    if specs == [] then Repeat(false, |fmt| - pos) else
      RangedBound(fmt, specs[1..], specs[0].posEnd);
      Repeat(false, specs[0].posBegin - pos) +
      (Repeat(true, |Text(specs[0], ds[0], render)|) + Converted(fmt, specs[1..], ds[1..], render, specs[0].posEnd))
  }

  /** The first `cap` characters of `full`, except that the last of them is NUL when it belongs to a
      conversion (which is then cut, or just fills the buffer). */
  function Cut(full: seq<char>, conv: seq<bool>, cap: nat): (r: seq<char>)
    requires |conv| == |full|
    ensures |r| == Min(|full|, cap)
  {
    seq(Min(|full|, cap), k requires 0 <= k < Min(|full|, cap) => if k == cap - 1 && conv[k] then '\0' else full[k])
  }

  lemma {:induction false} CutLiteral(a: seq<char>, full: seq<char>, conv: seq<bool>, cap: nat)
    requires |conv| == |full|
    ensures Cut(a + full, Repeat(false, |a|) + conv, cap) ==
            a[..Min(|a|, cap)] + Cut(full, conv, cap - Min(|a|, cap))
  {
  }

  lemma {:induction false} CutConversion(a: seq<char>, full: seq<char>, conv: seq<bool>, cap: nat)
    requires |conv| == |full|
    ensures |a| < cap ==> Cut(a + full, Repeat(true, |a|) + conv, cap) == a + Cut(full, conv, cap - |a|)
    ensures |a| >= cap > 0 ==> Cut(a + full, Repeat(true, |a|) + conv, cap) == a[..cap - 1] + ['\0']
  {
  }

  /** One turn: literal `lit`, then a conversion `text`, with `full` still to come. */
  lemma {:induction false} StepIsCut(out: seq<char>, lit: seq<char>, text: seq<char>, full: seq<char>, conv: seq<bool>, cap: nat)
    requires |conv| == |full| && |out| <= cap
    ensures var out' := PutConversion(PutLiteral(out, lit, cap), text, cap);
      out + Cut(lit + (text + full), Repeat(false, |lit|) + (Repeat(true, |text|) + conv), cap - |out|) ==
      out' + (if |out'| < cap then Cut(full, conv, cap - |out'|) else [])
  {
    hide Cut, PutConversion, PutLiteral;
    var room := cap - |out|;
    var n := Min(|lit|, room);
    var o1 := PutLiteral(out, lit, cap);
    var out' := PutConversion(o1, text, cap);
    var c1 := Cut(text + full, Repeat(true, |text|) + conv, room - n);
    CutLiteral(lit, text + full, Repeat(true, |text|) + conv, room);
    assert o1 == out + lit[..n] by { PutLiteralIs(out, lit, cap); }
    assert out + (lit[..n] + c1) == o1 + c1;
    CutTurn(o1, text, full, conv, cap);
  }

  lemma {:induction false} PutLiteralIs(out: seq<char>, lit: seq<char>, cap: nat)
    requires |out| <= cap
    ensures PutLiteral(out, lit, cap) == out + lit[..Min(|lit|, cap - |out|)]
  {
  }

  lemma {:induction false} CutTurn(out: seq<char>, text: seq<char>, full: seq<char>, conv: seq<bool>, cap: nat)
    requires |conv| == |full| && |out| <= cap
    ensures var out' := PutConversion(out, text, cap);
      out + Cut(text + full, Repeat(true, |text|) + conv, cap - |out|) ==
      out' + (if |out'| < cap then Cut(full, conv, cap - |out'|) else [])
  {
    var room := cap - |out|;
    CutConversion(text, full, conv, room);
    if |text| < room {
      assert out + (text + Cut(full, conv, room - |text|)) == (out + text) + Cut(full, conv, room - |text|);
    } else if room > 0 {
      assert out + (text[..room - 1] + ['\0']) == out + text[..room - 1] + ['\0'];
    }
  }

  lemma {:induction false} FinishIsCut(fmt: seq<char>, cap: nat, st: State)
    requires |st.out| <= cap && st.pos <= |fmt|
    ensures Finish(fmt, cap, st) == st.out + Cut(fmt[st.pos..], Repeat(false, |fmt| - st.pos), cap - |st.out|)
  {
    var tail := fmt[st.pos..];
    CutLiteral(tail, [], [], cap - |st.out|);
    assert tail + [] == tail;
    assert Repeat(false, |tail|) + [] == Repeat(false, |tail|);
    assert tail[..Min(|tail|, cap - |st.out|)] + [] == tail[..Min(|tail|, cap - |st.out|)];
  }

  lemma {:induction false} FinishFull(fmt: seq<char>, cap: nat, st: State)
    requires |st.out| == cap && st.pos <= |fmt|
    ensures Finish(fmt, cap, st) == st.out
  {
  }

  /** From any state of the loop, what is added is the cut of the text still to come. */
  lemma {:induction false} LoopIsCut(fmt: seq<char>, specs: seq<Spec>, ds: seq<Decoded>, render: Render, cap: nat, st: State)
    requires |ds| == |specs| && |st.out| <= cap && Ranged(fmt, specs, st.pos)
    ensures Finish(fmt, cap, Loop(fmt, specs, ds, render, cap, st)) ==
            st.out + Cut(Full(fmt, specs, ds, render, st.pos), Converted(fmt, specs, ds, render, st.pos), cap - |st.out|)
    decreases |specs|
  {
    hide Cut, PutConversion, PutLiteral;
    RangedBound(fmt, specs, st.pos);
    if specs == [] {
      FinishIsCut(fmt, cap, st);
    } else {
      RangedBound(fmt, specs[1..], specs[0].posEnd);
      StepIsCut(st.out, fmt[st.pos..specs[0].posBegin], Text(specs[0], ds[0], render),
        Full(fmt, specs[1..], ds[1..], render, specs[0].posEnd),
        Converted(fmt, specs[1..], ds[1..], render, specs[0].posEnd), cap);
      var st' := Step(fmt, specs[0], ds[0], render, cap, st);
      if |st'.out| < cap {
        LoopIsCut(fmt, specs[1..], ds[1..], render, cap, st');
      } else {
        FinishFull(fmt, cap, st');
      }
    }
  }

  /** The output, exactly, for every format, value and buffer size. */
  lemma {:induction false} FormatIsCut(fmt: seq<char>, specs: seq<Spec>, ds: seq<Decoded>, render: Render, bufsize: nat)
    requires bufsize >= 1 && |ds| == |specs| && Ranged(fmt, specs, 0)
    ensures Format(fmt, specs, ds, render, bufsize) ==
            Cut(Full(fmt, specs, ds, render, 0), Converted(fmt, specs, ds, render, 0), bufsize - 1)
  {
    LoopIsCut(fmt, specs, ds, render, bufsize - 1, State([], 0));
  }

  /** Nothing is lost exactly when the text leaves a byte to spare, or fills the buffer with literal text last
      (or with a conversion whose own last character is NUL). */
  lemma {:induction false} FormatExactIff(fmt: seq<char>, specs: seq<Spec>, ds: seq<Decoded>, render: Render, bufsize: nat)
    requires bufsize >= 1 && |ds| == |specs| && Ranged(fmt, specs, 0)
    ensures var full := Full(fmt, specs, ds, render, 0);
      Format(fmt, specs, ds, render, bufsize) == full <==>
        || |full| + 2 <= bufsize
        || (|full| + 1 == bufsize &&
            (full == [] || !Converted(fmt, specs, ds, render, 0)[|full| - 1] || full[|full| - 1] == '\0'))
  {
    hide Cut, Full, Converted;
    FormatIsCut(fmt, specs, ds, render, bufsize);
    CutExactIff(Full(fmt, specs, ds, render, 0), Converted(fmt, specs, ds, render, 0), bufsize - 1);
  }

  lemma {:induction false} CutExactIff(full: seq<char>, conv: seq<bool>, cap: nat)
    requires |conv| == |full|
    ensures Cut(full, conv, cap) == full <==>
      |full| < cap || (|full| == cap && (full == [] || !conv[|full| - 1] || full[|full| - 1] == '\0'))
  {
    var out := Cut(full, conv, cap);
    if |full| <= cap {
      assert forall k :: 0 <= k < |full| - 1 ==> out[k] == full[k];
    }
  }
}
