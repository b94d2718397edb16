/** `haclog_printf_primitive_format` as it runs: it folds the reader position, walks the specifications
    moving a byte cursor, prints into a buffer in place, and moves the reader past the record. */
module Deserializer {
  import opened Bytes
  import opened BytesBuffer
  import opened Header
  import opened PrintfSpec
  import opened Codec
  import Formatter

  const NOTHING_TO_READ: int := -2

  /** `snprintf` into the `room` bytes at `at`: as much of `text` as leaves a byte for the NUL, and the NUL;
      the result is the length of the whole text. */
  method Snprintf(buf: array<char>, at: nat, room: nat, text: seq<char>) returns (n: nat)
    requires at + room <= buf.Length
    modifies buf
    ensures n == |text|
    ensures buf[..at] == old(buf[..at]) && buf[at + room..] == old(buf[at + room..])
    ensures |text| < room ==> buf[at..at + |text|] == text && buf[at + |text|] == '\0'
    ensures 0 < room <= |text| ==> buf[at..at + room - 1] == text[..room - 1] && buf[at + room - 1] == '\0'
  {
    n := |text|;
    if room > 0 {
      var m := if |text| < room then |text| else room - 1;
      CopyChars(buf, at, text[..m]);
      buf[at + m] := '\0';
    }
  }

  method CopyChars(buf: array<char>, at: nat, text: seq<char>)
    requires at + |text| <= buf.Length
    modifies buf
    ensures buf[at..at + |text|] == text
    ensures buf[..at] == old(buf[..at]) && buf[at + |text|..] == old(buf[at + |text|..])
  {
    var i := 0;
    while i < |text|
      invariant 0 <= i <= |text|
      invariant forall k :: 0 <= k < buf.Length ==> buf[k] == if at <= k < at + i then text[k - at] else old(buf[k])
    {
      buf[at + i] := text[i];
      i := i + 1;
    }
  }

  /** Literal text, clipped to the room left. */
  method PutLiteral(buf: array<char>, total: nat, remain: nat, text: seq<char>) returns (total': nat, remain': nat)
    requires total + remain < buf.Length
    modifies buf
    ensures total' + remain' == total + remain
    ensures buf[..total'] == Formatter.PutLiteral(old(buf[..total]), text, total + remain)
    ensures total' == |Formatter.PutLiteral(old(buf[..total]), text, total + remain)|
  {
    var n := |text|;
    if n > remain {
      n := remain;
    }
    CopyChars(buf, total, text[..n]);
    total', remain' := total + n, remain - n;
    assert buf[..total'] == buf[..total] + buf[total..total + n];
  }

  /** One conversion, with the result of `snprintf` clipped to the room left. */
  method PutConversion(buf: array<char>, total: nat, remain: nat, text: seq<char>) returns (total': nat, remain': nat)
    requires total + remain < buf.Length
    modifies buf
    ensures total' + remain' == total + remain
    ensures buf[..total'] == Formatter.PutConversion(old(buf[..total]), text, total + remain)
    ensures total' == |Formatter.PutConversion(old(buf[..total]), text, total + remain)|
  {
    var n := Snprintf(buf, total, remain, text);
    if n > remain {
      n := remain;
    }
    total', remain' := total + n, remain - n;
    if |text| < remain {
      assert buf[..total'] == buf[..total] + buf[total..total + n];
    } else if remain > 0 {
      assert buf[..total'] == buf[..total] + buf[total..total + remain - 1] + [buf[total + remain - 1]];
    }
  }

  /** Reads the arguments of one specification, moving the cursor. */
  method GetArg(mem: array<byte>, p: nat, spec: Spec, posStr: nat) returns (d: Decoded, p': nat)
    requires p + Distance(spec) <= mem.Length
    ensures d == DecodeArg(mem[..], p, spec, posStr)
    ensures p' == p + Distance(spec)
  {
    hide FromLE, CString, ToSigned;
    p' := p;
    var width := 0;
    if spec.width == DYNAMIC {
      width := ReadInt32(mem[..], p');
      p' := p' + 8;
    }
    var precision := 0;
    if spec.precision == DYNAMIC {
      precision := ReadInt32(mem[..], p');
      p' := p' + 8;
    }
    var v := Num(0);
    var t := spec.fmtType;
    if t.STR? {
      v := Str(CString(mem[..], posStr + FromLE(mem[p'..p' + 8])));
      p' := p' + 8;
    } else if t.DOUBLE? {
      v := Raw(mem[p'..p' + 8]);
      p' := p' + 8;
    } else if t.LONG_DOUBLE? {
      v := Raw(mem[p'..p' + 16]);
      p' := p' + 16;
    } else if !t.NONE? {
      var u := FromLE(mem[p'..p' + IntSize(t)]);
      v := Num(if Signed(t) then ToSigned(u, IntSize(t)) else u);
      p' := p' + 8;
    }
    d := Decoded(width, precision, v);
  }

  /** A whole record with a known primitive can be read at `r`. */
  ghost predicate Readable(mem: seq<byte>, r: int, prims: map<nat, Primitive>) {
    && |mem| >= HDR_SIZE && 0 <= r < |mem|
    && var h := HeaderAt(mem, r);
    && h.prim in prims && h.posEnd <= |mem|
    && Formatter.Ranged(prims[h.prim].fmt, prims[h.prim].specs, 0)
    && h.posConst + Distances(prims[h.prim].specs) <= |mem|
  }

  function HeaderAt(mem: seq<byte>, r: int): Header
    requires |mem| >= HDR_SIZE && 0 <= r < |mem|
  {
    var off := PlaceOff(|mem|, r, HDR_SIZE);
    Decode(mem[off..off + HDR_SIZE])
  }

  /** The text of the record at `r`. */
  ghost function TextAt(mem: seq<byte>, r: int, prims: map<nat, Primitive>, render: Formatter.Render, bufsize: nat): seq<char>
    requires Readable(mem, r, prims) && bufsize >= 1
  {
    var h := HeaderAt(mem, r);
    var prim := prims[h.prim];
    DecodeAllLength(mem, h.posConst, prim.specs, h.posStr);
    Formatter.Format(prim.fmt, prim.specs, DecodeAll(mem, h.posConst, prim.specs, h.posStr), render, bufsize)
  }

  lemma {:induction false} DecodeAllLength(mem: seq<byte>, p: nat, specs: seq<Spec>, posStr: nat)
    requires p + Distances(specs) <= |mem|
    ensures |DecodeAll(mem, p, specs, posStr)| == |specs|
    decreases |specs|
  {
    if specs != [] {
      DecodeAllLength(mem, p + Distance(specs[0]), specs[1..], posStr);
    }
  }

  /** What the loop still has to do from specification `i` on, with the cursor at `p`. */
  ghost predicate Remaining(mem: seq<byte>, prim: Primitive, i: nat, p: nat, posStr: nat, render: Formatter.Render,
                            cap: nat, st: Formatter.State, text: seq<char>)
  {
    && i <= |prim.specs| && |st.out| <= cap
    && p + Distances(prim.specs[i..]) <= |mem|
    && Formatter.Ranged(prim.fmt, prim.specs[i..], st.pos)
    && |DecodeAll(mem, p, prim.specs[i..], posStr)| == |prim.specs[i..]|
    && Formatter.Finish(prim.fmt, cap,
         Formatter.Loop(prim.fmt, prim.specs[i..], DecodeAll(mem, p, prim.specs[i..], posStr), render, cap, st)) == text
  }

  lemma {:induction false} RemainingBounds(mem: seq<byte>, prim: Primitive, i: nat, p: nat, posStr: nat, render: Formatter.Render,
                                           cap: nat, st: Formatter.State, text: seq<char>)
    requires Remaining(mem, prim, i, p, posStr, render, cap, st, text)
    ensures st.pos <= |prim.fmt| && |st.out| <= cap && i <= |prim.specs|
    ensures i == |prim.specs| ==> Formatter.Finish(prim.fmt, cap, st) == text
    ensures i < |prim.specs| ==>
      var spec := prim.specs[i];
      st.pos <= spec.posBegin <= spec.posEnd <= |prim.fmt| && p + Distance(spec) <= |mem|
  {
    hide DecodeArg, Formatter.Step, Formatter.Finish, Distance;
    Formatter.RangedBound(prim.fmt, prim.specs[i..], st.pos);
    if i < |prim.specs| {
      Formatter.RangedBound(prim.fmt, prim.specs[i..][1..], prim.specs[i].posEnd);
    }
  }

  lemma {:induction false} RemainingNext(mem: seq<byte>, prim: Primitive, i: nat, p: nat, posStr: nat, render: Formatter.Render,
                                         cap: nat, st: Formatter.State, text: seq<char>)
    requires Remaining(mem, prim, i, p, posStr, render, cap, st, text) && i < |prim.specs|
    requires st.pos <= prim.specs[i].posBegin <= prim.specs[i].posEnd <= |prim.fmt| && p + Distance(prim.specs[i]) <= |mem|
    ensures var st' := Formatter.Step(prim.fmt, prim.specs[i], DecodeArg(mem, p, prim.specs[i], posStr), render, cap, st);
      && (|st'.out| < cap ==> Remaining(mem, prim, i + 1, p + Distance(prim.specs[i]), posStr, render, cap, st', text))
      && (|st'.out| >= cap ==> Formatter.Finish(prim.fmt, cap, st') == text)
  {
    hide DecodeArg, Formatter.PutConversion, Formatter.PutLiteral, Formatter.Finish, Distance;
    var specs := prim.specs;
    var rest := DecodeAll(mem, p + Distance(specs[i]), specs[i + 1..], posStr);
    assert specs[i..] == [specs[i]] + specs[i + 1..] && specs[i..][1..] == specs[i + 1..];
    assert DecodeAll(mem, p, specs[i..], posStr) == [DecodeArg(mem, p, specs[i], posStr)] + rest;
    assert ([DecodeArg(mem, p, specs[i], posStr)] + rest)[1..] == rest;
    Formatter.RangedBound(prim.fmt, specs[i + 1..], specs[i].posEnd);
  }

  /** Formats the record at the reader position, if the reader is not yet at `w`, and releases it. Nothing is
      written past the buffer, and the result counts the characters before the final NUL. */
  method Format(ring: BytesBuffer, prims: map<nat, Primitive>, render: Formatter.Render, w: int, buf: array<char>)
    returns (n: int, sec: nat, nsec: nat, prim: nat)
    requires ring.Valid()
    requires ring.r != w ==> Readable(ring.buffer[..], ring.r, prims)
    modifies ring`r, buf
    ensures ring.Valid()
    ensures buf.Length < 1 ==> n == LIMIT_ERROR && ring.r == old(ring.r)
    ensures buf.Length >= 1 && old(ring.r) == w ==> n == NOTHING_TO_READ && ring.r == old(ring.r) && buf[..] == old(buf[..])
    ensures buf.Length >= 1 && old(ring.r) != w ==>
      var h := HeaderAt(ring.buffer[..], old(ring.r));
      && 0 <= n < buf.Length
      && buf[..n] == TextAt(ring.buffer[..], old(ring.r), prims, render, buf.Length) && buf[n] == '\0'
      && ring.r == Fold(ring.capacity, h.posEnd)
      && (sec, nsec, prim) == (h.sec, h.nsec, h.prim)
  {
    n, sec, nsec, prim := LIMIT_ERROR, 0, 0, 0;
    if buf.Length < 1 {
      return;
    }
    if ring.r == w {
      n := NOTHING_TO_READ;
      return;
    }
    ghost var r0 := ring.r;
    hide Decode, DecodeAll, Formatter.Format, Formatter.Ranged, Distances;
    if ring.capacity - ring.r < HDR_SIZE {
      ring.r := 0;
    }
    var mem := ring.buffer;
    var h := Decode(mem[ring.r..ring.r + HDR_SIZE]);
    assert h == HeaderAt(mem[..], r0) by { assert mem[ring.r..ring.r + HDR_SIZE] == mem[..][ring.r..ring.r + HDR_SIZE]; }
    var pr := prims[h.prim];
    DecodeAllLength(mem[..], h.posConst, pr.specs, h.posStr);
    n := FormatRecord(mem, h, pr, render, buf, TextAt(mem[..], r0, prims, render, buf.Length));
    sec, nsec, prim := h.sec, h.nsec, h.prim;
    var _ := ring.RMove(h.posEnd);
  }

  method FormatRecord(mem: array<byte>, h: Header, prim: Primitive, render: Formatter.Render, buf: array<char>, ghost text: seq<char>)
    returns (n: nat)
    requires buf.Length >= 1 && Formatter.Ranged(prim.fmt, prim.specs, 0)
    requires h.posConst + Distances(prim.specs) <= mem.Length
    requires |DecodeAll(mem[..], h.posConst, prim.specs, h.posStr)| == |prim.specs|
    requires text == Formatter.Format(prim.fmt, prim.specs, DecodeAll(mem[..], h.posConst, prim.specs, h.posStr), render, buf.Length)
    modifies buf
    ensures n < buf.Length && buf[..n] == text && buf[n] == '\0'
  {
    hide DecodeAll, DecodeArg, Formatter.PutLiteral, Formatter.PutConversion, Formatter.Ranged;
    ghost var cap := buf.Length - 1;
    ghost var st := Formatter.State([], 0);
    ghost var full := false;
    var total: nat, remain: nat := 0, buf.Length - 1;
    var fmtPos, p, i := 0, h.posConst, 0;
    assert prim.specs[0..] == prim.specs;
    assert Remaining(mem[..], prim, 0, p, h.posStr, render, cap, st, text);
    hide Remaining, Formatter.Finish, Formatter.Loop, Distances;
    while i < |prim.specs|
      invariant 0 <= i <= |prim.specs| && total + remain == cap
      invariant buf[..total] == st.out && total == |st.out| && fmtPos == st.pos
      invariant !full && Remaining(mem[..], prim, i, p, h.posStr, render, cap, st, text)
    {
      var spec := prim.specs[i];
      RemainingBounds(mem[..], prim, i, p, h.posStr, render, cap, st, text);
      RemainingNext(mem[..], prim, i, p, h.posStr, render, cap, st, text);
      st := Formatter.Step(prim.fmt, spec, DecodeArg(mem[..], p, spec, h.posStr), render, cap, st);
      total, remain := PutLiteral(buf, total, remain, prim.fmt[fmtPos..spec.posBegin]);
      fmtPos := spec.posEnd;
      var d;
      d, p := GetArg(mem, p, spec, h.posStr);
      total, remain := PutConversion(buf, total, remain, Formatter.Text(spec, d, render));
      i := i + 1;
      if remain <= 0 {
        full := true;
        break;
      }
    }
    if !full {
      RemainingBounds(mem[..], prim, i, p, h.posStr, render, cap, st, text);
    }
    if fmtPos != |prim.fmt| {
      total, remain := PutLiteral(buf, total, remain, prim.fmt[fmtPos..]);
    }
    buf[total] := '\0';
    n := total;
  }
}
