/** `haclog_printf_primitive_serialize` and `haclog_printf_primitive_format` as they run: loops that move a
    byte cursor over the ring and fill arrays in place. Each is proved against the functions of Codec and
    Formatter. While one of them runs, what the other thread does is given by the reader positions that
    are loaded (`loads`), and the bytes between reader and writer do not change. */
module Serializer {
  import opened Bytes
  import opened BytesBuffer
  import opened Header
  import opened PrintfSpec
  import opened Codec
  import opened RecordChunks
  import Formatter

  // ------------------------------------------------------------- one fetch

  /** The answer of a fetch, the reader position it was given for, and the positions not yet loaded. */
  datatype Grant = Grant(ret: int, seen: int, rest: seq<int>)

  /** A fetch by a writer at `w` that remembers the reader at `r` and would next load the positions `loads`:
      the answer for the first position that does not make it wait. When they run out it is still waiting. */
  function Fetched(cap: int, n: int, r: int, w: int, loads: seq<int>): Grant
    decreases |loads|
  {
    if WFc(cap, n, r, w) == WAIT_READER && loads != [] then Fetched(cap, n, loads[0], w, loads[1..])
    else Grant(WFc(cap, n, r, w), r, loads)
  }

  /** The loop around `WFc`: gives up on -1, reloads the reader position on -2. */
  method FetchW(cap: int, n: int, r: int, w: int, loads: seq<int>) returns (ret: int, r': int, rest: seq<int>)
    ensures Grant(ret, r', rest) == Fetched(cap, n, r, w, loads)
  {
    r', rest := r, loads;
    ret := WFc(cap, n, r', w);
    while ret == WAIT_READER && rest != []
      invariant ret == WFc(cap, n, r', w) && Fetched(cap, n, r', w, rest) == Fetched(cap, n, r, w, loads)
      decreases |rest|
    {
      r', rest := rest[0], rest[1..];
      ret := WFc(cap, n, r', w);
    }
  }

  /** Every answer but the last was to wait, the last is the answer for the position returned, and only an
      exhausted list of loads ends with waiting. */
  lemma {:induction false} FetchedIs(cap: int, n: int, r: int, w: int, loads: seq<int>)
    ensures var g := Fetched(cap, n, r, w, loads);
      && g.ret == WFc(cap, n, g.seen, w) && (g.ret == WAIT_READER ==> g.rest == [])
      && |g.rest| <= |loads| && loads[|loads| - |g.rest|..] == g.rest
      && g.seen == (if |g.rest| == |loads| then r else loads[|loads| - |g.rest| - 1])
      && (|g.rest| < |loads| ==> WFc(cap, n, r, w) == WAIT_READER)
      && forall k :: 0 <= k < |loads| - |g.rest| - 1 ==> WFc(cap, n, loads[k], w) == WAIT_READER
    decreases |loads|
  {
    hide WFc;
    if WFc(cap, n, r, w) == WAIT_READER && loads != [] {
      FetchedIs(cap, n, loads[0], w, loads[1..]);
      var g := Fetched(cap, n, loads[0], w, loads[1..]);
      var k := |loads| - |g.rest|;
      assert loads[1..][k - 1..] == loads[k..];
      assert forall j :: 0 < j < k - 1 ==> loads[j] == loads[1..][j - 1];
    }
  }

  // ------------------------------------------------------------ memory copies

  /** `memcpy` of `s` to `p`. */
  method Copy(buf: array<byte>, p: nat, s: seq<byte>)
    requires p + |s| <= buf.Length
    modifies buf
    ensures buf[..] == Overlay(old(buf[..]), p, Vals(s))
  {
    var i := 0;
    while i < |s|
      invariant 0 <= i <= |s|
      invariant forall k :: 0 <= k < buf.Length ==> buf[k] == if p <= k < p + i then s[k - p] else old(buf[k])
    {
      buf[p + i] := s[i];
      i := i + 1;
    }
    assert forall k :: 0 <= k < |s| ==> Vals(s)[k] == Val(s[k]);
  }

  lemma {:induction false} OverlayOverlay(mem: seq<byte>, pos: nat, a: seq<Cell>, b: seq<Cell>)
    requires pos + |a| + |b| <= |mem|
    ensures Overlay(Overlay(mem, pos, a), pos + |a|, b) == Overlay(mem, pos, a + b)
  {
    hide Overlay, Covers;
    var m1, m2, m3 := Overlay(mem, pos, a), Overlay(Overlay(mem, pos, a), pos + |a|, b), Overlay(mem, pos, a + b);
    forall k | 0 <= k < |mem|
      ensures m2[k] == m3[k]
    {
      OverlayAt(mem, pos, a, k);
      OverlayAt(m1, pos + |a|, b, k);
      OverlayAt(mem, pos, a + b, k);
    }
  }

  lemma {:induction false} OverlayPads(mem: seq<byte>, pos: nat, n: nat)
    requires pos + n <= |mem|
    ensures Overlay(mem, pos, Pads(n)) == mem
  {
  }

  /** Stores the low `n` bytes of `v` in an 8-byte place. */
  method PutInt(buf: array<byte>, p: nat, v: nat, n: nat)
    requires n <= 8 && p + 8 <= buf.Length
    modifies buf
    ensures buf[..] == Overlay(old(buf[..]), p, IntCells(v, n))
  {
    ghost var before := buf[..];
    Copy(buf, p, LE(v, n));
    hide LE, Overlay;
    OverlayOverlay(before, p, Vals(LE(v, n)), Pads(8 - n));
    OverlayPads(buf[..], p + n, 8 - n);
  }

  // --------------------------------------------------------- the string cache

  datatype StrCache = StrCache(s: seq<byte>, slen: nat, copySlen: nat)

  predicate Caches(e: StrCache, s: seq<byte>) {
    e.copySlen == |s| <= |e.s| && e.s[..e.copySlen] == s && e.slen == SlotSize(|s|)
  }

  /** The cache describes the strings `ss`: one entry each for the first 128, the last entry for all others. */
  ghost predicate CacheHolds(c: seq<StrCache>, ss: seq<seq<byte>>) {
    && |c| == MAX_STR_CACHE + 1
    && (forall j :: 0 <= j < |ss| && j < MAX_STR_CACHE ==> Caches(c[j], ss[j]))
    && (|ss| > MAX_STR_CACHE ==> Caches(c[MAX_STR_CACHE], STR_CACHE_FULL))
    && (forall j :: MAX_STR_CACHE <= j < |ss| ==> ss[j] == STR_CACHE_FULL)
  }

  /** Characters of `s` to copy when the precision says `precision`. */
  method CopyLength(s: seq<byte>, precision: nat) returns (n: nat)
    ensures n == if |s| <= precision then |s| else precision
  {
    n := 0;
    while n < |s|
      invariant n <= |s| && n <= precision
    {
      if n >= precision {
        break;
      }
      n := n + 1;
    }
  }

  /** A `%s`: its offset in the string chunk goes to `p`, the string itself to the cache. */
  method PutString(buf: array<byte>, p: nat, spec: Spec, a: Arg, precision: nat, cache: array<StrCache>,
                   nStrIdx: nat, nStr: nat, extra: nat, ghost ss: seq<seq<byte>>) returns (nStrIdx': nat, extra': nat)
    requires p + 8 <= buf.Length && WellTyped(spec, a) && spec.fmtType.STR?
    requires precision == PrecisionBits(spec, a)
    requires CacheHolds(cache[..], ss) && |ss| == nStr && nStrIdx == Formatter.Min(nStr, MAX_STR_CACHE)
    modifies buf, cache
    ensures buf[..] == Overlay(old(buf[..]), p, IntCells(extra, 8))
    ensures CacheHolds(cache[..], ss + [Copied(spec, a, nStr)])
    ensures nStrIdx' == Formatter.Min(nStr + 1, MAX_STR_CACHE)
    ensures extra' == extra + SlotSize(|Copied(spec, a, nStr)|)
  {
    if nStrIdx == MAX_STR_CACHE {
      cache[nStrIdx] := StrCache(STR_CACHE_FULL, SlotSize(|STR_CACHE_FULL|), |STR_CACHE_FULL|);
      PutInt(buf, p, extra, 8);
      nStrIdx', extra' := nStrIdx, extra + cache[nStrIdx].slen;
    } else {
      var s := a.val.s;
      var copySlen := |s|;
      if spec.precision != 0 {
        copySlen := CopyLength(s, precision);
      }
      cache[nStrIdx] := StrCache(s, SlotSize(copySlen), copySlen);
      PutInt(buf, p, extra, 8);
      nStrIdx', extra' := nStrIdx + 1, extra + SlotSize(copySlen);
    }
  }

  /** The width and the precision of one specification; `precision` is what bounds a string. */
  method PutWidthPrecision(buf: array<byte>, p: nat, spec: Spec, a: Arg) returns (p': nat, precision: nat)
    requires p + Distance(spec) <= buf.Length && WellTyped(spec, a)
    modifies buf
    ensures buf[..] == Overlay(old(buf[..]), p, WidthCells(spec, a) + PrecisionCells(spec, a))
    ensures p' == p + |WidthCells(spec, a) + PrecisionCells(spec, a)| == AfterPrecision(p, spec)
    ensures precision == PrecisionBits(spec, a)
  {
    hide IntCells, Overlay;
    ghost var before := buf[..];
    OverlayPads(before, p, 0);
    p' := p;
    if spec.width == DYNAMIC {
      PutInt(buf, p', a.width % P32, 4);
      p' := p' + 8;
    }
    assert buf[..] == Overlay(before, p, WidthCells(spec, a)) by { assert Pads(0) == []; }
    precision := spec.precision % P64;
    if spec.precision == DYNAMIC {
      precision := a.precision % P64;
      PutInt(buf, p', precision, 8);
      p' := p' + 8;
    } else {
      OverlayPads(buf[..], p', 0);
      assert Pads(0) == [];
    }
    OverlayOverlay(before, p, WidthCells(spec, a), PrecisionCells(spec, a));
  }

  /** The value of one specification. */
  method PutValue(buf: array<byte>, p: nat, spec: Spec, a: Arg, precision: nat, cache: array<StrCache>,
                  nStrIdx: nat, nStr: nat, extra: nat, ghost ss: seq<seq<byte>>)
    returns (p': nat, nStrIdx': nat, nStr': nat, extra': nat)
    requires WellTyped(spec, a) && precision == PrecisionBits(spec, a)
    requires p + |ValueCells(spec, a, Cursor(nStr, extra))| <= buf.Length
    requires CacheHolds(cache[..], ss) && |ss| == nStr && nStrIdx == Formatter.Min(nStr, MAX_STR_CACHE)
    modifies buf, cache
    ensures buf[..] == Overlay(old(buf[..]), p, ValueCells(spec, a, Cursor(nStr, extra)))
    ensures p' == p + |ValueCells(spec, a, Cursor(nStr, extra))|
    ensures Cursor(nStr', extra') == Advance(spec, a, Cursor(nStr, extra))
    ensures nStrIdx' == Formatter.Min(nStr', MAX_STR_CACHE)
    ensures CacheHolds(cache[..], if spec.fmtType.STR? then ss + [Copied(spec, a, nStr)] else ss)
  {
    hide Overlay, CacheHolds, Copied, SlotSize, PrecisionBits;
    p', nStrIdx', nStr', extra' := p, nStrIdx, nStr, extra;
    var t := spec.fmtType;
    if t.STR? {
      nStrIdx', extra' := PutString(buf, p, spec, a, precision, cache, nStrIdx, nStr, extra, ss);
      nStr', p' := nStr + 1, p + 8;
    } else if t.DOUBLE? {
      Copy(buf, p, a.val.bits);
      p' := p + 8;
    } else if t.LONG_DOUBLE? {
      Copy(buf, p, a.val.bits);
      p' := p + 16;
    } else if !t.NONE? {
      PutInt(buf, p, a.val.v % Pow256(IntSize(t)), IntSize(t));
      p' := p + 8;
    } else {
      OverlayPads(buf[..], p, 0);
      assert Pads(0) == [];
    }
  }

  /** The arguments of one specification. */
  method PutArg(buf: array<byte>, p: nat, spec: Spec, a: Arg, cache: array<StrCache>,
                nStrIdx: nat, nStr: nat, extra: nat, ghost ss: seq<seq<byte>>)
    returns (p': nat, nStrIdx': nat, nStr': nat, extra': nat)
    requires p + Distance(spec) <= buf.Length && WellTyped(spec, a)
    requires CacheHolds(cache[..], ss) && |ss| == nStr && nStrIdx == Formatter.Min(nStr, MAX_STR_CACHE)
    modifies buf, cache
    ensures buf[..] == Overlay(old(buf[..]), p, ArgCells(spec, a, Cursor(nStr, extra)))
    ensures p' == p + Distance(spec)
    ensures Cursor(nStr', extra') == Advance(spec, a, Cursor(nStr, extra))
    ensures nStrIdx' == Formatter.Min(nStr', MAX_STR_CACHE)
    ensures CacheHolds(cache[..], if spec.fmtType.STR? then ss + [Copied(spec, a, nStr)] else ss)
  {
    hide Overlay, CacheHolds, Copied, SlotSize, PrecisionBits, WidthCells, PrecisionCells, Advance;
    ghost var before := buf[..];
    ghost var wp, v := WidthCells(spec, a) + PrecisionCells(spec, a), ValueCells(spec, a, Cursor(nStr, extra));
    assert ArgCells(spec, a, Cursor(nStr, extra)) == wp + v;
    hide ArgCells, ValueCells, Distance;
    var precision;
    p', precision := PutWidthPrecision(buf, p, spec, a);
    p', nStrIdx', nStr', extra' := PutValue(buf, p', spec, a, precision, cache, nStrIdx, nStr, extra, ss);
    OverlayOverlay(before, p, wp, v);
  }

  lemma {:induction false} SlotSizesAppend(a: seq<seq<byte>>, b: seq<seq<byte>>)
    ensures SlotSizes(a + b) == SlotSizes(a) + SlotSizes(b)
  {
    hide SlotSize;
    if a == [] {
      assert a + b == b;
    } else {
      SlotSizesAppend(a[1..], b);
      assert (a + b)[1..] == a[1..] + b;
    }
  }

  lemma {:induction false} StrCellsHead(ss: seq<seq<byte>>)
    ensures StrCells(ss) == if ss == [] then [] else Slot(ss[0]) + StrCells(ss[1..])
  {
  }

  lemma {:induction false} SlotsNone()
    ensures SlotSizes([]) == 0
  {
  }

  lemma {:induction false} Assoc<T>(a: seq<T>, b: seq<T>, c: seq<T>)
    ensures a + (b + c) == (a + b) + c
  {
  }

  lemma {:induction false} StrCellsAppend(a: seq<seq<byte>>, b: seq<seq<byte>>)
    ensures StrCells(a + b) == StrCells(a) + StrCells(b)
  {
    hide Slot, StrCells, SlotSizes;
    StrCellsHead(a);
    if a == [] {
      assert a + b == b;
    } else {
      StrCellsAppend(a[1..], b);
      assert (a + b)[1..] == a[1..] + b;
      StrCellsHead(a + b);
      Assoc(Slot(a[0]), StrCells(a[1..]), StrCells(b));
    }
  }

  /** The first specification, split off the fixed-size chunk and the strings. */
  lemma {:induction false} ConstStep(specs: seq<Spec>, args: seq<Arg>, i: nat, c: Cursor)
    requires WellTypedAll(specs, args) && i < |specs|
    ensures var d := Advance(specs[i], args[i], c);
      && ConstCells(specs[i..], args[i..], c) == ArgCells(specs[i], args[i], c) + ConstCells(specs[i + 1..], args[i + 1..], d)
      && Strings(specs[i..], args[i..], c.nStr) ==
           (if specs[i].fmtType.STR? then [Copied(specs[i], args[i], c.nStr)] else []) + Strings(specs[i + 1..], args[i + 1..], d.nStr)
      && Distances(specs[i..]) == Distance(specs[i]) + Distances(specs[i + 1..])
      && d.extra == c.extra + (if specs[i].fmtType.STR? then SlotSizes([Copied(specs[i], args[i], c.nStr)]) else 0)
  {
    hide ArgCells, Copied, SlotSize, Distance;
    assert specs[i..][1..] == specs[i + 1..] && args[i..][1..] == args[i + 1..];
  }

  /** After `i` specifications: `cells` are stored from `pos` to `p`, `ss` are the strings so far. */
  ghost predicate ConstSoFar(before: seq<byte>, now: seq<byte>, pos: nat, specs: seq<Spec>, args: seq<Arg>, i: nat,
                             p: nat, nStr: nat, extra: nat, cells: seq<Cell>, ss: seq<seq<byte>>)
  {
    && WellTypedAll(specs, args) && i <= |specs|
    && cells + ConstCells(specs[i..], args[i..], Cursor(nStr, extra)) == ConstCells(specs, args, Cursor(0, 0))
    && ss + Strings(specs[i..], args[i..], nStr) == Strings(specs, args, 0)
    && p == pos + |cells| && p + Distances(specs[i..]) <= |before|
    && now == Overlay(before, pos, cells)
    && |ss| == nStr && extra == SlotSizes(ss)
  }

  lemma {:induction false} ConstFirst(before: seq<byte>, pos: nat, specs: seq<Spec>, args: seq<Arg>)
    requires WellTypedAll(specs, args) && pos + Distances(specs) <= |before|
    ensures ConstSoFar(before, before, pos, specs, args, 0, pos, 0, 0, [], [])
  {
    hide ConstCells, Strings;
    OverlayPads(before, pos, 0);
    assert specs[0..] == specs && args[0..] == args && Pads(0) == [];
  }

  lemma {:induction false} ConstNext(before: seq<byte>, now: seq<byte>, now': seq<byte>, pos: nat, specs: seq<Spec>, args: seq<Arg>, i: nat,
                                     p: nat, c: Cursor, cells: seq<Cell>, ss: seq<seq<byte>>, ss': seq<seq<byte>>)
    requires ConstSoFar(before, now, pos, specs, args, i, p, c.nStr, c.extra, cells, ss) && i < |specs|
    requires p + Distance(specs[i]) <= |now|
    requires now' == Overlay(now, p, ArgCells(specs[i], args[i], c))
    requires ss' == if specs[i].fmtType.STR? then ss + [Copied(specs[i], args[i], c.nStr)] else ss
    ensures var d := Advance(specs[i], args[i], c);
      ConstSoFar(before, now', pos, specs, args, i + 1, p + Distance(specs[i]), d.nStr, d.extra,
                 cells + ArgCells(specs[i], args[i], c), ss')
  {
    hide Overlay, ArgCells, Copied, SlotSize, SlotSizes, ConstCells, Strings, Distance, Distances, WellTyped;
    ConstStep(specs, args, i, c);
    SlotsNone();
    var d := Advance(specs[i], args[i], c);
    var added: seq<seq<byte>> := if specs[i].fmtType.STR? then [Copied(specs[i], args[i], c.nStr)] else [];
    assert ss' == ss + added;
    SlotSizesAppend(ss, added);
    Assoc(ss, added, Strings(specs[i + 1..], args[i + 1..], d.nStr));
    Assoc(cells, ArgCells(specs[i], args[i], c), ConstCells(specs[i + 1..], args[i + 1..], d));
    OverlayOverlay(before, pos, cells, ArgCells(specs[i], args[i], c));
  }

  lemma {:induction false} ConstLast(before: seq<byte>, now: seq<byte>, pos: nat, specs: seq<Spec>, args: seq<Arg>,
                                     p: nat, nStr: nat, extra: nat, cells: seq<Cell>, ss: seq<seq<byte>>)
    requires ConstSoFar(before, now, pos, specs, args, |specs|, p, nStr, extra, cells, ss)
    ensures cells == ConstCells(specs, args, Cursor(0, 0)) && ss == Strings(specs, args, 0)
  {
    assert specs[|specs|..] == [] && args[|specs|..] == [];
    assert cells + [] == cells && ss + [] == ss;
  }

  /** One turn of the loop over the specifications. */
  method ConstTurn(buf: array<byte>, ghost pos: nat, specs: seq<Spec>, args: seq<Arg>, i: nat, cache: array<StrCache>,
                   p: nat, nStrIdx: nat, nStr: nat, extra: nat,
                   ghost before: seq<byte>, ghost cells: seq<Cell>, ghost ss: seq<seq<byte>>)
    returns (p': nat, nStrIdx': nat, nStr': nat, extra': nat, ghost cells': seq<Cell>, ghost ss': seq<seq<byte>>)
    requires WellTypedAll(specs, args) && i < |specs|
    requires ConstSoFar(before, buf[..], pos, specs, args, i, p, nStr, extra, cells, ss)
    requires CacheHolds(cache[..], ss) && |ss| == nStr && nStrIdx == Formatter.Min(nStr, MAX_STR_CACHE)
    modifies buf, cache
    ensures ConstSoFar(before, buf[..], pos, specs, args, i + 1, p', nStr', extra', cells', ss')
    ensures CacheHolds(cache[..], ss') && |ss'| == nStr' && nStrIdx' == Formatter.Min(nStr', MAX_STR_CACHE)
  {
    hide Overlay, ArgCells, Copied, SlotSize, ConstCells, Strings, StrCells, Distance, CacheHolds, Advance, ConstSoFar, WellTyped;
    var spec, a := specs[i], args[i];
    ghost var now, c := buf[..], Cursor(nStr, extra);
    ConstRoom(before, now, pos, specs, args, i, p, nStr, extra, cells, ss);
    p', nStrIdx', nStr', extra' := PutArg(buf, p, spec, a, cache, nStrIdx, nStr, extra, ss);
    ss' := if spec.fmtType.STR? then ss + [Copied(spec, a, nStr)] else ss;
    cells' := cells + ArgCells(spec, a, c);
    ConstNext(before, now, buf[..], pos, specs, args, i, p, c, cells, ss, ss');
    ConstCount(before, buf[..], pos, specs, args, i + 1, p', nStr', extra', cells', ss');
  }

  /** The loop over the specifications fills the fixed-size chunk, for any number of strings. */
  method SerializeConst(buf: array<byte>, pos: nat, specs: seq<Spec>, args: seq<Arg>, cache: array<StrCache>)
    returns (nStrIdx: nat, nStr: nat, extra: nat)
    requires WellTypedAll(specs, args) && pos + Distances(specs) <= buf.Length
    requires cache.Length == MAX_STR_CACHE + 1
    modifies buf, cache
    ensures buf[..] == Overlay(old(buf[..]), pos, ConstCells(specs, args, Cursor(0, 0)))
    ensures nStr == |Strings(specs, args, 0)| && nStrIdx == Formatter.Min(nStr, MAX_STR_CACHE)
    ensures CacheHolds(cache[..], Strings(specs, args, 0))
    ensures extra == ExtraLen(specs, args)
  {
    ghost var before := buf[..];
    ghost var cells: seq<Cell>, ss: seq<seq<byte>> := [], [];
    var i, p := 0, pos;
    nStrIdx, nStr, extra := 0, 0, 0;
    ConstFirst(before, pos, specs, args);
    assert CacheHolds(cache[..], ss);
    hide Overlay, ConstCells, Strings, CacheHolds, ConstSoFar, WellTyped, Distances;
    while i < |specs|
      invariant 0 <= i <= |specs| && |ss| == nStr && nStrIdx == Formatter.Min(nStr, MAX_STR_CACHE)
      invariant ConstSoFar(before, buf[..], pos, specs, args, i, p, nStr, extra, cells, ss)
      invariant CacheHolds(cache[..], ss)
    {
      p, nStrIdx, nStr, extra, cells, ss :=
        ConstTurn(buf, pos, specs, args, i, cache, p, nStrIdx, nStr, extra, before, cells, ss);
      i := i + 1;
    }
    ConstLast(before, buf[..], pos, specs, args, p, nStr, extra, cells, ss);
    ConstWhole(before, buf[..], pos, specs, args, p, nStr, extra, cells, ss);
  }

  lemma {:induction false} ConstRoom(before: seq<byte>, now: seq<byte>, pos: nat, specs: seq<Spec>, args: seq<Arg>, i: nat,
                                     p: nat, nStr: nat, extra: nat, cells: seq<Cell>, ss: seq<seq<byte>>)
    requires ConstSoFar(before, now, pos, specs, args, i, p, nStr, extra, cells, ss) && i < |specs|
    ensures p + Distance(specs[i]) <= |now|
  {
    hide ConstCells, Strings, Overlay;
  }

  lemma {:induction false} ConstCount(before: seq<byte>, now: seq<byte>, pos: nat, specs: seq<Spec>, args: seq<Arg>, i: nat,
                                      p: nat, nStr: nat, extra: nat, cells: seq<Cell>, ss: seq<seq<byte>>)
    requires ConstSoFar(before, now, pos, specs, args, i, p, nStr, extra, cells, ss)
    ensures |ss| == nStr
  {
    hide ConstCells, Strings, Overlay;
  }

  lemma {:induction false} ConstWhole(before: seq<byte>, now: seq<byte>, pos: nat, specs: seq<Spec>, args: seq<Arg>,
                                      p: nat, nStr: nat, extra: nat, cells: seq<Cell>, ss: seq<seq<byte>>)
    requires ConstSoFar(before, now, pos, specs, args, |specs|, p, nStr, extra, cells, ss)
    requires ss == Strings(specs, args, 0)
    ensures extra == ExtraLen(specs, args) && pos + |cells| <= |before| && now == Overlay(before, pos, cells)
  {
    hide ConstCells, Overlay, Strings;
  }

  /** The first `i` strings are in their slots from `pos` to `p`. */
  ghost predicate SlotsSoFar(before: seq<byte>, now: seq<byte>, pos: nat, ss: seq<seq<byte>>, i: nat, p: nat) {
    && i <= |ss| && p == pos + SlotSizes(ss[..i]) && p + SlotSizes(ss[i..]) <= |before|
    && now == Overlay(before, pos, StrCells(ss[..i]))
  }

  /** The two copy loops fill the string chunk. */
  method SerializeStrings(buf: array<byte>, pos: nat, cache: array<StrCache>, nStrIdx: nat, nStr: nat, ghost ss: seq<seq<byte>>)
    requires CacheHolds(cache[..], ss) && |ss| == nStr && nStrIdx == Formatter.Min(nStr, MAX_STR_CACHE)
    requires pos + SlotSizes(ss) <= buf.Length
    modifies buf
    ensures buf[..] == Overlay(old(buf[..]), pos, StrCells(ss))
  {
    ghost var before := buf[..];
    var p, i := pos, 0;
    OverlayPads(before, pos, 0);
    assert ss[..0] == [] && Pads(0) == [] && ss[0..] == ss;
    assert SlotsSoFar(before, buf[..], pos, ss, 0, p);
    SlotsEnd(before, pos, ss);
    hide SlotsSoFar, Overlay, StrCells, SlotSizes;
    while i < nStrIdx
      invariant 0 <= i <= nStrIdx && SlotsSoFar(before, buf[..], pos, ss, i, p)
    {
      p := CopyEntry(buf, pos, p, cache[i], before, ss, i);
      i := i + 1;
    }
    while i < nStr
      invariant nStrIdx <= i <= nStr && SlotsSoFar(before, buf[..], pos, ss, i, p)
    {
      p := CopyEntry(buf, pos, p, cache[MAX_STR_CACHE], before, ss, i);
      i := i + 1;
    }
  }

  lemma {:induction false} SlotsEnd(before: seq<byte>, pos: nat, ss: seq<seq<byte>>)
    requires pos + SlotSizes(ss) <= |before|
    ensures forall now, p :: SlotsSoFar(before, now, pos, ss, |ss|, p) ==> now == Overlay(before, pos, StrCells(ss))
  {
    assert ss[..|ss|] == ss;
  }

  method CopyEntry(buf: array<byte>, ghost pos: nat, p: nat, e: StrCache, ghost before: seq<byte>, ghost ss: seq<seq<byte>>, ghost i: nat)
    returns (p': nat)
    requires i < |ss| && Caches(e, ss[i]) && SlotsSoFar(before, buf[..], pos, ss, i, p)
    modifies buf
    ensures SlotsSoFar(before, buf[..], pos, ss, i + 1, p')
  {
    hide Overlay, StrCells, SlotSizes, SlotSize, Slot;
    SlotsStep(ss, i);
    CopySlot(buf, p, e, ss[i]);
    OverlayOverlay(before, pos, StrCells(ss[..i]), Slot(ss[i]));
    p' := p + e.slen;
  }

  lemma {:induction false} SlotsStep(ss: seq<seq<byte>>, i: nat)
    requires i < |ss|
    ensures SlotSizes(ss[..i + 1]) == SlotSizes(ss[..i]) + SlotSize(|ss[i]|)
    ensures SlotSizes(ss[i..]) == SlotSize(|ss[i]|) + SlotSizes(ss[i + 1..])
    ensures StrCells(ss[..i + 1]) == StrCells(ss[..i]) + Slot(ss[i])
  {
    hide Slot, SlotSize;
    assert ss[..i + 1] == ss[..i] + [ss[i]];
    assert ss[i..][1..] == ss[i + 1..];
    SlotSizesAppend(ss[..i], [ss[i]]);
    StrCellsAppend(ss[..i], [ss[i]]);
    SingleSlot(ss[i]);
  }

  /** One string, its NUL, and the rest of its slot left as it was. */
  method CopySlot(buf: array<byte>, p: nat, e: StrCache, ghost s: seq<byte>)
    requires Caches(e, s) && p + SlotSize(|s|) <= buf.Length
    modifies buf
    ensures buf[..] == Overlay(old(buf[..]), p, Slot(s))
  {
    ghost var m := buf[..];
    Copy(buf, p, e.s[..e.copySlen]);
    ghost var m1 := buf[..];
    buf[p + e.copySlen] := 0;
    hide Overlay;
    OneByte(m1, buf[..], p + e.copySlen);
    OverlayOverlay(m, p, Vals(s), [Val(0)]);
    OverlayPads(buf[..], p + |s| + 1, SlotSize(|s|) - |s| - 1);
    OverlayOverlay(m, p, Vals(s) + [Val(0)], Pads(SlotSize(|s|) - |s| - 1));
  }

  lemma {:induction false} OneByte(m: seq<byte>, m': seq<byte>, p: nat)
    requires p < |m| && m' == m[p := 0]
    ensures m' == Overlay(m, p, [Val(0)])
  {
  }

  lemma {:induction false} SingleSlot(s: seq<byte>)
    ensures StrCells([s]) == Slot(s)
  {
    var rest: seq<seq<byte>> := [s][1..];
    assert rest == [];
  }

  // ------------------------------------------------------------ serialize

  const PUBLISHED: int := 0

  /** Memory after a call to which `granted` chunks were granted: with two it has stored the arguments `c`, with
      three also the strings `s`, with four also the header `h`. */
  ghost function Written(mem: seq<byte>, granted: nat, at: Chunks, c: seq<Cell>, s: seq<Cell>, h: Header): seq<byte>
    requires granted >= 2 ==> at.cst + |c| <= |mem|
    requires granted >= 3 ==> at.str + |s| <= |mem|
    requires granted >= 4 ==> at.hdr + HDR_SIZE <= |mem|
  {
    if granted < 2 then mem
    else if granted == 2 then Overlay(mem, at.cst, c)
    else if granted == 3 then Overlay(Overlay(mem, at.cst, c), at.str, s)
    else Overlay(Overlay(Overlay(mem, at.cst, c), at.str, s), at.hdr, Vals(Encode(h)))
  }

  /** Every chunk respects the limit of `WFc`. */
  predicate WithinLimit(cap: int, c: nat, e: nat) {
    var limit := cap / 2 - CACHE_INTERVAL;
    HDR_SIZE <= limit && c <= limit && e <= limit && CACHE_INTERVAL <= limit
  }

  /** The first `granted` chunks follow one another from `w` in a ring of `cap` bytes. */
  predicate ChunksFrom(cap: int, w: int, c: nat, e: nat, granted: nat, at: Chunks) {
    && (granted >= 1 ==> at.hdr == PlaceOff(cap, w, HDR_SIZE) && at.hdr + HDR_SIZE <= cap)
    && (granted >= 2 ==> at.cst == PlaceOff(cap, at.hdr + HDR_SIZE, c) && at.cst + c <= cap)
    && (granted >= 3 ==> at.str == PlaceOff(cap, at.cst + c, e) && at.str + e <= cap)
    && (granted >= 4 ==> at.tail == PlaceOff(cap, at.str + e, CACHE_INTERVAL) && at.tail + CACHE_INTERVAL <= cap)
  }

  predicate InRange(cap: int, loads: seq<int>) {
    forall k :: 0 <= k < |loads| ==> 0 <= loads[k] < cap
  }

  lemma {:induction false} FetchedInRange(cap: int, n: nat, r: int, w: int, loads: seq<int>)
    requires 0 <= r < cap && 0 <= w <= cap && InRange(cap, loads)
    ensures var g := Fetched(cap, n, r, w, loads);
      && 0 <= g.seen < cap && InRange(cap, g.rest)
      && (g.ret >= 0 ==> g.ret == PlaceOff(cap, w, n) && g.ret + n <= cap && n <= cap / 2 - CACHE_INTERVAL)
      && (g.ret < 0 ==> g.ret == LIMIT_ERROR || g.ret == WAIT_READER)
      && (g.ret == LIMIT_ERROR <==> n > cap / 2 - CACHE_INTERVAL)
    decreases |loads|
  {
    if WFc(cap, n, r, w) == WAIT_READER && loads != [] {
      FetchedInRange(cap, n, loads[0], w, loads[1..]);
    } else if WFc(cap, n, r, w) >= 0 {
      GrantOff(cap, n, r, w);
    }
  }

  /** A fetch from a position in the buffer: granted where the sizes alone put it. */
  method FetchAt(cap: int, n: nat, r: int, w: int, loads: seq<int>) returns (ret: int, r': int, rest: seq<int>)
    requires 0 <= r < cap && 0 <= w <= cap && InRange(cap, loads)
    ensures Grant(ret, r', rest) == Fetched(cap, n, r, w, loads)
    ensures 0 <= r' < cap && InRange(cap, rest)
    ensures ret >= 0 ==> ret == PlaceOff(cap, w, n) && ret + n <= cap && n <= cap / 2 - CACHE_INTERVAL
    ensures ret < 0 ==> ret == LIMIT_ERROR || ret == WAIT_READER
    ensures ret == LIMIT_ERROR <==> n > cap / 2 - CACHE_INTERVAL
  {
    ret, r', rest := FetchW(cap, n, r, w, loads);
    FetchedInRange(cap, n, r, w, loads);
  }

  /** How a call ends: status, remembered reader position, number of chunks granted, and where they are. */
  datatype Outcome = Outcome(status: int, seen: int, granted: nat, at: Chunks)

  /** The fetches for strings and interval, after those for header and arguments. */
  function LastTwo(cap: int, hdr: nat, cst: nat, c: nat, e: nat, seen: int, loads: seq<int>): Outcome {
    var g3 := Fetched(cap, e, seen, cst + c, loads);
    if g3.ret < 0 then Outcome(g3.ret, g3.seen, 2, Chunks(hdr, cst, 0, 0)) else
    var g4 := Fetched(cap, CACHE_INTERVAL, g3.seen, g3.ret + e, g3.rest);
    if g4.ret < 0 then Outcome(g4.ret, g4.seen, 3, Chunks(hdr, cst, g3.ret, 0))
    else Outcome(PUBLISHED, g4.seen, 4, Chunks(hdr, cst, g3.ret, g4.ret))
  }

  /** The four fetches in turn, the first one that is not granted ends the call. */
  function Placement(cap: int, w: int, c: nat, e: nat, seen: int, loads: seq<int>): Outcome {
    var g1 := Fetched(cap, HDR_SIZE, seen, w, loads);
    if g1.ret < 0 then Outcome(g1.ret, g1.seen, 0, Chunks(0, 0, 0, 0)) else
    var g2 := Fetched(cap, c, g1.seen, g1.ret + HDR_SIZE, g1.rest);
    if g2.ret < 0 then Outcome(g2.ret, g2.seen, 1, Chunks(g1.ret, 0, 0, 0))
    else LastTwo(cap, g1.ret, g2.ret, c, e, g2.seen, g2.rest)
  }

  /** The reader position a caller holds after `|loads| - |rest|` loads. */
  predicate Loaded(loads: seq<int>, rest: seq<int>, seen: int, r: int) {
    && |rest| <= |loads| && loads[|loads| - |rest|..] == rest
    && r == if |rest| == |loads| then seen else loads[|loads| - |rest| - 1]
  }

  lemma {:induction false} NoneLoaded(loads: seq<int>, seen: int)
    ensures Loaded(loads, loads, seen, seen)
  {
  }

  /** A fetch uses up some of the loads, and all of them if it waits; room at the remembered position is taken. */
  lemma {:induction false} FetchedLoads(cap: int, n: int, r: int, w: int, loads: seq<int>, all: seq<int>, seen: int)
    requires Loaded(all, loads, seen, r)
    ensures var g := Fetched(cap, n, r, w, loads);
      && Loaded(all, g.rest, seen, g.seen) && g.ret == WFc(cap, n, g.seen, w)
      && (g.ret == WAIT_READER ==> g.seen == if all == [] then seen else all[|all| - 1])
      && (WFc(cap, n, r, w) >= 0 ==> g == Grant(WFc(cap, n, r, w), r, loads))
    decreases |loads|
  {
    hide WFc;
    if WFc(cap, n, r, w) == WAIT_READER && loads != [] {
      assert all[|all| - |loads|] == loads[0] && all[|all| - |loads[1..]|..] == loads[1..];
      FetchedLoads(cap, n, loads[0], w, loads[1..], all, seen);
    }
  }

  /** The call waits only when the last position it could load leaves no room for its next chunk. */
  predicate WaitsForRoom(cap: int, w: int, c: nat, e: nat, seen: int, loads: seq<int>, o: Outcome) {
    o.status == WAIT_READER ==>
      && o.granted < 4 && o.seen == (if loads == [] then seen else loads[|loads| - 1])
      && WFc(cap, NextSize(o.granted, c, e), o.seen, NextFrom(o.granted, w, c, e, o.at)) == WAIT_READER
  }

  lemma {:induction false} LastTwoWaits(cap: int, w: int, hdr: nat, cst: nat, c: nat, e: nat, r: int, rest: seq<int>,
                                        seen: int, loads: seq<int>)
    requires Loaded(loads, rest, seen, r)
    ensures WaitsForRoom(cap, w, c, e, seen, loads, LastTwo(cap, hdr, cst, c, e, r, rest))
  {
    hide WFc, Fetched, Loaded;
    FetchedLoads(cap, e, r, cst + c, rest, loads, seen);
    var g3 := Fetched(cap, e, r, cst + c, rest);
    FetchedLoads(cap, CACHE_INTERVAL, g3.seen, g3.ret + e, g3.rest, loads, seen);
  }

  lemma {:induction false} PlacementWaits(cap: int, w: int, c: nat, e: nat, seen: int, loads: seq<int>)
    ensures WaitsForRoom(cap, w, c, e, seen, loads, Placement(cap, w, c, e, seen, loads))
  {
    hide WFc, Fetched, Loaded, LastTwo;
    NoneLoaded(loads, seen);
    FetchedLoads(cap, HDR_SIZE, seen, w, loads, loads, seen);
    var g1 := Fetched(cap, HDR_SIZE, seen, w, loads);
    if g1.ret >= 0 {
      FetchedLoads(cap, c, g1.seen, g1.ret + HDR_SIZE, g1.rest, loads, seen);
      var g2 := Fetched(cap, c, g1.seen, g1.ret + HDR_SIZE, g1.rest);
      if g2.ret >= 0 {
        LastTwoWaits(cap, w, g1.ret, g2.ret, c, e, g2.seen, g2.rest, seen, loads);
      }
    }
  }

  /** With room for the whole record the call is published at once. */
  predicate PublishedAtOnce(cap: int, w: int, c: nat, e: nat, seen: int, o: Outcome) {
    AllGranted(cap, seen, w, c, e) ==> o.status == PUBLISHED && o.seen == seen
  }

  lemma {:induction false} FetchedAtOnce(cap: int, n: int, r: int, w: int, loads: seq<int>)
    ensures WFc(cap, n, r, w) >= 0 ==> Fetched(cap, n, r, w, loads) == Grant(WFc(cap, n, r, w), r, loads)
  {
  }

  lemma {:induction false} PlacementAtOnce(cap: int, w: int, c: nat, e: nat, seen: int, loads: seq<int>)
    ensures PublishedAtOnce(cap, w, c, e, seen, Placement(cap, w, c, e, seen, loads))
  {
    hide WFc, Fetched;
    if AllGranted(cap, seen, w, c, e) {
      var v1 := WFc(cap, HDR_SIZE, seen, w);
      var v2 := WFc(cap, c, seen, v1 + HDR_SIZE);
      var v3 := WFc(cap, e, seen, v2 + c);
      FetchedAtOnce(cap, HDR_SIZE, seen, w, loads);
      FetchedAtOnce(cap, c, seen, v1 + HDR_SIZE, loads);
      FetchedAtOnce(cap, e, seen, v2 + c, loads);
      FetchedAtOnce(cap, CACHE_INTERVAL, seen, v3 + e, loads);
    }
  }

  /** The reader position after `k` loads. */
  function Position(seen: int, loads: seq<int>, k: nat): int
    requires k <= |loads|
  {
    if k == 0 then seen else loads[k - 1]
  }

  function ChunkAt(at: Chunks, j: nat): nat {
    if j == 0 then at.hdr else if j == 1 then at.cst else if j == 2 then at.str else at.tail
  }

  /** The fetch of chunk `j` makes the loads `k` to `k'`: it has to wait at every position but the last, where
      the answer is `ret`. */
  predicate Turn(cap: int, w: int, c: nat, e: nat, seen: int, loads: seq<int>, at: Chunks,
                 j: nat, k: nat, k': nat, ret: int) {
    && k <= k' <= |loads|
    && (forall i :: k <= i < k' ==>
          WFc(cap, NextSize(j, c, e), Position(seen, loads, i), NextFrom(j, w, c, e, at)) == WAIT_READER)
    && WFc(cap, NextSize(j, c, e), Position(seen, loads, k'), NextFrom(j, w, c, e, at)) == ret
    && (ret == WAIT_READER ==> k' == |loads|)
  }

  /** The call makes its fetches in turn: `ks[j]` loads are made when that of chunk `j` ends. All but the last of
      a call that is not published are granted. */
  predicate InTurn(cap: int, w: int, c: nat, e: nat, seen: int, loads: seq<int>, o: Outcome, ks: seq<nat>) {
    && |ks| == (if o.status == PUBLISHED then 4 else o.granted + 1) && o.granted <= 4
    && (forall j :: 0 <= j < |ks| ==> ks[j] <= |loads|)
    && (o.status == PUBLISHED <==> o.granted == 4) && o.status <= 0
    && (forall j :: 0 <= j < |ks| ==>
          Turn(cap, w, c, e, seen, loads, o.at, j, if j == 0 then 0 else ks[j - 1], ks[j],
               if j < o.granted then ChunkAt(o.at, j) else o.status))
    && o.seen == Position(seen, loads, ks[|ks| - 1])
  }

  /** One fetch: the loads it uses up, one after another. */
  lemma {:induction false} FetchedTurn(cap: int, n: int, r: int, w: int, rest: seq<int>, loads: seq<int>, seen: int)
    requires Loaded(loads, rest, seen, r)
    ensures var g := Fetched(cap, n, r, w, rest);
      var k, k' := |loads| - |rest|, |loads| - |g.rest|;
      && Loaded(loads, g.rest, seen, g.seen) && k <= k' <= |loads| && g.seen == Position(seen, loads, k')
      && (forall i :: k <= i < k' ==> WFc(cap, n, Position(seen, loads, i), w) == WAIT_READER)
      && WFc(cap, n, g.seen, w) == g.ret
      && (g.ret == WAIT_READER ==> g.rest == [])
    decreases |rest|
  {
    hide WFc;
    if WFc(cap, n, r, w) == WAIT_READER && rest != [] {
      assert loads[|loads| - |rest|] == rest[0] && loads[|loads| - |rest[1..]|..] == rest[1..];
      FetchedTurn(cap, n, rest[0], w, rest[1..], loads, seen);
    }
  }

  lemma {:induction false} TurnsTaken(cap: int, w: int, c: nat, e: nat, seen: int, loads: seq<int>,
                                      o: Outcome, ks: seq<nat>)
    requires |ks| == (if o.status == PUBLISHED then 4 else o.granted + 1) && o.granted <= 4
    requires (o.status == PUBLISHED <==> o.granted == 4) && o.status <= 0
    requires Turn(cap, w, c, e, seen, loads, o.at, 0, 0, ks[0], if 0 < o.granted then o.at.hdr else o.status)
    requires |ks| > 1 ==>
      Turn(cap, w, c, e, seen, loads, o.at, 1, ks[0], ks[1], if 1 < o.granted then o.at.cst else o.status)
    requires |ks| > 2 ==>
      Turn(cap, w, c, e, seen, loads, o.at, 2, ks[1], ks[2], if 2 < o.granted then o.at.str else o.status)
    requires |ks| > 3 ==>
      Turn(cap, w, c, e, seen, loads, o.at, 3, ks[2], ks[3], if 3 < o.granted then o.at.tail else o.status)
    requires ks[|ks| - 1] <= |loads| && o.seen == Position(seen, loads, ks[|ks| - 1])
    ensures InTurn(cap, w, c, e, seen, loads, o, ks)
  {
    forall j | 0 <= j < |ks|
      ensures ks[j] <= |loads| &&
        Turn(cap, w, c, e, seen, loads, o.at, j, if j == 0 then 0 else ks[j - 1], ks[j],
             if j < o.granted then ChunkAt(o.at, j) else o.status)
    {
      if j == 0 {
      } else if j == 1 {
      } else if j == 2 {
      } else {
        assert j == 3;
      }
    }
  }

  /** The outcome is that of the four fetches in turn, each going on with the position the one before ended with. */
  lemma {:induction false} PlacementInTurn(cap: int, w: int, c: nat, e: nat, seen: int, loads: seq<int>)
    ensures exists ks :: InTurn(cap, w, c, e, seen, loads, Placement(cap, w, c, e, seen, loads), ks)
  {
    hide WFc, Fetched, Loaded, LastTwo, InTurn;
    NoneLoaded(loads, seen);
    FetchedTurn(cap, HDR_SIZE, seen, w, loads, loads, seen);
    var g1 := Fetched(cap, HDR_SIZE, seen, w, loads);
    var o := Placement(cap, w, c, e, seen, loads);
    var k1 := |loads| - |g1.rest|;
    if g1.ret < 0 {
      TurnsTaken(cap, w, c, e, seen, loads, o, [k1]);
    } else {
      FetchedTurn(cap, c, g1.seen, g1.ret + HDR_SIZE, g1.rest, loads, seen);
      var g2 := Fetched(cap, c, g1.seen, g1.ret + HDR_SIZE, g1.rest);
      var k2 := |loads| - |g2.rest|;
      if g2.ret < 0 {
        TurnsTaken(cap, w, c, e, seen, loads, o, [k1, k2]);
      } else {
        LastTwoInTurn(cap, w, c, e, seen, loads, g1.ret, g2.ret, g2.seen, g2.rest, k1);
      }
    }
  }

  lemma {:induction false} LastTwoInTurn(cap: int, w: int, c: nat, e: nat, seen: int, loads: seq<int>,
                                         hdr: nat, cst: nat, r: int, rest: seq<int>, k1: nat)
    requires Loaded(loads, rest, seen, r) && k1 <= |loads| - |rest|
    requires forall at: Chunks :: at.hdr == hdr ==> Turn(cap, w, c, e, seen, loads, at, 0, 0, k1, hdr)
    requires forall at: Chunks :: at.hdr == hdr && at.cst == cst ==>
      Turn(cap, w, c, e, seen, loads, at, 1, k1, |loads| - |rest|, cst)
    ensures exists ks :: InTurn(cap, w, c, e, seen, loads, LastTwo(cap, hdr, cst, c, e, r, rest), ks)
  {
    hide WFc, Fetched, Loaded, InTurn;
    var o, k2 := LastTwo(cap, hdr, cst, c, e, r, rest), |loads| - |rest|;
    assert Turn(cap, w, c, e, seen, loads, o.at, 0, 0, k1, hdr) && Turn(cap, w, c, e, seen, loads, o.at, 1, k1, k2, cst);
    FetchedTurn(cap, e, r, cst + c, rest, loads, seen);
    var g3 := Fetched(cap, e, r, cst + c, rest);
    var k3 := |loads| - |g3.rest|;
    if g3.ret < 0 {
      assert Turn(cap, w, c, e, seen, loads, o.at, 2, k2, k3, o.status);
      TurnsTaken(cap, w, c, e, seen, loads, o, [k1, k2, k3]);
    } else {
      FetchedTurn(cap, CACHE_INTERVAL, g3.seen, g3.ret + e, g3.rest, loads, seen);
      var g4 := Fetched(cap, CACHE_INTERVAL, g3.seen, g3.ret + e, g3.rest);
      var k4 := |loads| - |g4.rest|;
      assert Turn(cap, w, c, e, seen, loads, o.at, 2, k2, k3, o.at.str);
      TurnsTaken(cap, w, c, e, seen, loads, o, [k1, k2, k3, k4]);
    }
  }

  /** One log call on a ring. `seen` is the thread-local reader position, kept in `seen'` for the next call.
      How the call ends is determined by the reader positions that are loaded. It has stored the chunks that
      were granted and nothing else. A call that gives up (-1), or still waits when `loads` ends (-2), has not
      moved the published position; one that returns normally has published the end of the fourth chunk. */
  method Serialize(ring: BytesBuffer, prim: Primitive, addr: nat, sec: nat, nsec: nat, args: seq<Arg>, seen: int, loads: seq<int>)
    returns (status: int, seen': int, granted: nat, at: Chunks)
    requires ring.Valid() && 0 <= seen < ring.capacity && InRange(ring.capacity, loads)
    requires WellTypedAll(prim.specs, args) && prim.paramSize == ParamSizes(prim.specs)
    modifies ring`w, ring.buffer
    ensures ring.Valid() && 0 <= seen' < ring.capacity
    ensures Outcome(status, seen', granted, at) ==
      Placement(ring.capacity, old(ring.w), prim.paramSize, ExtraLen(prim.specs, args), seen, loads)
    ensures status == PUBLISHED || status == LIMIT_ERROR || status == WAIT_READER
    ensures ring.w == if status == PUBLISHED then Fold(ring.capacity, at.tail + CACHE_INTERVAL) else old(ring.w)
    ensures status == LIMIT_ERROR ==> !WithinLimit(ring.capacity, prim.paramSize, ExtraLen(prim.specs, args))
    ensures
      var c, e, o := prim.paramSize, ExtraLen(prim.specs, args), Outcome(status, seen', granted, at);
      && WaitsForRoom(ring.capacity, old(ring.w), c, e, seen, loads, o)
      && PublishedAtOnce(ring.capacity, old(ring.w), c, e, seen, o)
    ensures status == PUBLISHED ==> WithinLimit(ring.capacity, prim.paramSize, ExtraLen(prim.specs, args)) && granted == 4
    ensures
      var c, e := prim.paramSize, ExtraLen(prim.specs, args);
      && Distances(prim.specs) <= c && ChunksFrom(ring.capacity, old(ring.w), c, e, granted, at)
      && ring.buffer[..] == Written(old(ring.buffer[..]), granted, at,
           ConstCells(prim.specs, args, Cursor(0, 0)), StrCells(Strings(prim.specs, args, 0)),
           Header(sec, nsec, at.cst, at.str, e, at.tail + CACHE_INTERVAL, addr))
  {
    hide Overlay, ConstCells, Strings, StrCells, WFc, SlotSizes, PlaceOff, Encode, CacheHolds,
      Distances, ParamSizes, Unsupported, WellTyped, Vals, Fetched, WaitsForRoom, PublishedAtOnce;
    var cap, w, buf, rest := ring.capacity, ring.w, ring.buffer, loads;
    var hdr, cst, str, tail;
    granted, at := 0, Chunks(0, 0, 0, 0);
    DistanceIsParamSize(prim.specs);
    PlacementWaits(cap, w, prim.paramSize, ExtraLen(prim.specs, args), seen, loads);
    PlacementAtOnce(cap, w, prim.paramSize, ExtraLen(prim.specs, args), seen, loads);

    hdr, seen', rest := FetchAt(cap, HDR_SIZE, seen, w, rest);
    if hdr < 0 {
      return hdr, seen', granted, at;
    }
    granted, at := 1, at.(hdr := hdr);
    cst, seen', rest := FetchAt(cap, prim.paramSize, seen', hdr + HDR_SIZE, rest);
    if cst < 0 {
      return cst, seen', granted, at;
    }
    granted, at := 2, at.(cst := cst);

    var cache := new StrCache[MAX_STR_CACHE + 1](_ => StrCache([], 0, 0));
    var nStrIdx, nStr, extra := SerializeConst(buf, cst, prim.specs, args, cache);

    str, seen', rest := FetchAt(cap, extra, seen', cst + prim.paramSize, rest);
    if str < 0 {
      return str, seen', granted, at;
    }
    granted, at := 3, at.(str := str);
    SerializeStrings(buf, str, cache, nStrIdx, nStr, Strings(prim.specs, args, 0));

    tail, seen', rest := FetchAt(cap, CACHE_INTERVAL, seen', str + extra, rest);
    if tail < 0 {
      return tail, seen', granted, at;
    }
    granted, at := 4, at.(tail := tail);

    Copy(buf, hdr, Encode(Header(sec, nsec, cst, str, extra, tail + CACHE_INTERVAL, addr)));
    status := ring.WMove(tail + CACHE_INTERVAL);
  }
}
