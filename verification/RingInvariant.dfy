/** The invariant of every run of the ring protocol, and its proof step by step. */
module RingInvariant {
  import opened Bytes
  import opened BytesBuffer
  import opened Header
  import opened PrintfSpec
  import opened Codec
  import opened RingProtocol
  import Formatter

  // ------------------------------------------------------------ positions

  /** The writer `b` is ahead of the reader `a` by less than a lap, so that comparing offsets decides
      which of the two is ahead in the buffer, and equal offsets mean that nothing lies between them. */
  predicate Window(cap: int, a: Pos, b: Pos) {
    || (b.lap == a.lap && a.off <= b.off <= cap && (b.off == cap ==> a.off > 0))
    || (b.lap == a.lap + 1 && 0 <= b.off < a.off)
  }

  /** Closer pairs inside a window are windows: a fresher reader, an earlier writer position. */
  lemma {:induction false} WindowShrink(cap: int, a: Pos, b: Pos, c: Pos, d: Pos)
    requires Window(cap, a, d) && Le(a, b) && Le(b, c) && Le(c, d)
    requires 0 <= a.off < cap && 0 <= b.off < cap && 0 <= c.off <= cap
    ensures Window(cap, b, c)
  {
  }

  lemma {:induction false} FoldWindow(cap: int, a: Pos, b: Pos)
    requires Window(cap, a, b) && 0 <= a.off < cap && 0 <= b.off
    ensures Window(cap, a, FoldPos(cap, b)) && Le(b, FoldPos(cap, b)) && 0 <= FoldPos(cap, b).off < cap
  {
  }

  /** A granted chunk follows the writer, lies in the buffer and keeps the window. */
  lemma {:induction false} GrantWindow(cap: int, n: int, seen: Pos, w: Pos)
    requires Window(cap, seen, w) && 0 <= seen.off < cap && 0 <= w.off && 0 <= n
    requires WFc(cap, n, seen.off, w.off) >= 0
    ensures var p := GrantPos(w, WFc(cap, n, seen.off, w.off));
      && Le(w, p) && 0 <= p.off && p.off + n <= cap
      && Window(cap, seen, After(p, n))
      && p == Place(cap, w, n)
  {
  }

  /** An earlier chunk `a` and a later chunk `b` within a window that starts at or before `a` do not overlap. */
  lemma {:induction false} ChunksApart(cap: int, base: Pos, a: Pos, na: int, b: Pos, nb: int)
    requires 0 <= base.off < cap && 0 <= a.off && 0 <= na && a.off + na <= cap && 0 <= b.off && 0 <= nb
    requires Le(base, a) && Le(After(a, na), b) && Window(cap, base, After(b, nb))
    ensures a.off + na <= b.off || b.off + nb <= a.off
  {
  }

  // ------------------------------------------------------------ placed records

  /** The first `k` chunks follow one another from `start`, each whole inside the buffer:
      a chunk goes where the one before it ends, or to 0 when it would not fit there. */
  ghost predicate Chain(cfg: Config, rec: Record, l: Layout, k: int)
    requires ValidRecord(cfg, rec)
  {
    && 0 <= l.start.off < cfg.cap
    && (k >= 1 ==> l.hdr == HeaderPos(cfg.cap, l.start) && l.hdr.off + HDR_SIZE <= cfg.cap)
    && (k >= 2 ==> l.cst == Place(cfg.cap, After(l.hdr, HDR_SIZE), ConstSize(cfg, rec))
                   && l.cst.off + ConstSize(cfg, rec) <= cfg.cap)
    && (k >= 3 ==> l.str == Place(cfg.cap, After(l.cst, ConstSize(cfg, rec)), ExtraSize(cfg, rec))
                   && l.str.off + ExtraSize(cfg, rec) <= cfg.cap)
    && (k >= 4 ==> l.tail == Place(cfg.cap, After(l.str, ExtraSize(cfg, rec)), CACHE_INTERVAL) && l.tail.off + CACHE_INTERVAL <= cfg.cap
                   && l.tail.lap <= l.start.lap + 1)
  }

  /** How many chunks have been granted at each step of the producer. */
  function Granted(pc: ProducerPc): int {
    match pc
    case Idle => 0
    case FetchHdr => 0
    case FetchConst => 1
    case WriteConst(_) => 2
    case FetchStr => 2
    case WriteStr(_) => 3
    case FetchTail => 3
    case WriteHdr(_) => 4
    case Publish => 4
  }

  /** The writer position after the first `k` chunks. */
  ghost function Reached(cfg: Config, rec: Record, l: Layout, k: int): Pos
    requires ValidRecord(cfg, rec)
  {
    if k <= 0 then l.start
    else if k == 1 then After(l.hdr, HDR_SIZE)
    else if k == 2 then After(l.cst, ConstSize(cfg, rec))
    else if k == 3 then After(l.str, ExtraSize(cfg, rec))
    else End(l)
  }

  /** All that a reader needs of a record is in memory at its place. */
  ghost predicate RecordAt(cfg: Config, mem: seq<byte>, p: Placed) {
    && ValidRecord(cfg, p.rec)
    && Chain(cfg, p.rec, p.at, 4)
    && Covers(mem, p.at.hdr.off, HdrCells(cfg, p.rec, p.at))
    && Covers(mem, p.at.cst.off, ConstOf(cfg, p.rec))
    && Covers(mem, p.at.str.off, StrOf(cfg, p.rec))
  }

  /** The first `n` cells are in memory. */
  ghost predicate Partly(mem: seq<byte>, pos: int, c: seq<Cell>, n: nat) {
    n <= |c| && forall i :: 0 <= i < n && c[i].Val? ==> 0 <= pos + i < |mem| && mem[pos + i] == c[i].b
  }

  ghost function ConstDone(cfg: Config, p: Producer): nat
    requires ValidRecord(cfg, p.rec)
  {
    if p.pc.WriteConst? then p.pc.n else if Granted(p.pc) >= 2 then |ConstOf(cfg, p.rec)| else 0
  }

  ghost function StrDone(cfg: Config, p: Producer): nat
    requires ValidRecord(cfg, p.rec)
  {
    if p.pc.WriteStr? then p.pc.n else if Granted(p.pc) >= 3 then |StrOf(cfg, p.rec)| else 0
  }

  ghost function HdrDone(p: Producer): nat {
    if p.pc.WriteHdr? then p.pc.n else if p.pc.Publish? then HDR_SIZE else 0
  }

  // ------------------------------------------------------------ the invariant

  /** The start of unread record `k`, or the published position when `k` counts them all. */
  function StartOf(s: State, k: nat): Pos {
    if k < |s.pubs| then s.pubs[k].at.start else s.w
  }

  /** The writer's most advanced position. */
  function Front(s: State): Pos {
    if s.prod.pc == Idle then s.w else s.prod.w
  }

  /** stale reader <= reader <= published writer <= private writer, all within one window. */
  ghost predicate Order(cfg: Config, s: State) {
    && |s.mem| == cfg.cap
    && 0 <= s.w.off < cfg.cap && 0 <= s.r.off < cfg.cap && 0 <= s.prod.seen.off < cfg.cap
    && 0 <= Front(s).off <= cfg.cap
    && Le(s.prod.seen, s.r) && Le(s.r, s.w) && Le(s.w, Front(s))
    && Window(cfg.cap, s.prod.seen, Front(s))
  }

  ghost predicate Queue(cfg: Config, s: State) {
    && s.taken <= |s.pubs|
    && (forall k :: 0 <= k < |s.pubs| ==> ValidRecord(cfg, s.pubs[k].rec))
    && (forall k :: s.taken <= k < |s.pubs| ==> RecordAt(cfg, s.mem, s.pubs[k]))
    && (forall k :: s.taken <= k < |s.pubs| ==>
          && Next(cfg.cap, s.pubs[k].at) == StartOf(s, k + 1)
          && Le(s.r, s.pubs[k].at.hdr) && Le(Next(cfg.cap, s.pubs[k].at), s.w))
    && (forall a, b :: s.taken <= a < b < |s.pubs| ==> Le(Next(cfg.cap, s.pubs[a].at), s.pubs[b].at.start))
  }

  ghost predicate Producing(cfg: Config, s: State) {
    var p := s.prod;
    p.pc != Idle ==>
      && ValidRecord(cfg, p.rec)
      && p.at.start == s.w
      && Chain(cfg, p.rec, p.at, Granted(p.pc))
      && p.w == Reached(cfg, p.rec, p.at, Granted(p.pc))
      && Partly(s.mem, p.at.cst.off, ConstOf(cfg, p.rec), ConstDone(cfg, p))
      && Partly(s.mem, p.at.str.off, StrOf(cfg, p.rec), StrDone(cfg, p))
      && Partly(s.mem, p.at.hdr.off, HdrCells(cfg, p.rec, p.at), HdrDone(p))
  }

  /** What remains to be formatted from state `st` on gives the text of the record. */
  ghost predicate OnTrack(cfg: Config, rec: Record, i: nat, st: Formatter.State)
    requires ValidConfig(cfg) && ValidRecord(cfg, rec)
  {
    var fmt, specs, args, cap := Fmt(cfg, rec), Specs(cfg, rec), rec.args, cfg.bufsize - 1;
    && i <= |specs| && |st.out| <= cap
    && Formatter.Ranged(fmt, specs[i..], st.pos)
    && Formatter.Finish(fmt, cap,
         Formatter.Loop(fmt, specs[i..], SeenAll(specs[i..], args[i..], CursorAt(specs, args, i).nStr), cfg.render, cap, st))
       == TextOf(cfg, rec)
  }

  ghost predicate Consuming(cfg: Config, s: State)
    requires ValidConfig(cfg)
  {
    var c := s.cons;
    match c.pc
    case Rest => s.r == StartOf(s, s.taken)
    case Check =>
      && s.taken <= c.upto <= |s.pubs| && c.snap == StartOf(s, c.upto).off
      && s.r == StartOf(s, s.taken)
    case ReadHdr =>
      && s.taken < c.upto <= |s.pubs| && c.snap == StartOf(s, c.upto).off
      && s.r == s.pubs[s.taken].at.hdr
    case ReadArgs(h, i, p, st) =>
      && s.taken < c.upto <= |s.pubs| && c.snap == StartOf(s, c.upto).off
      && s.r == s.pubs[s.taken].at.hdr
      && RecordAt(cfg, s.mem, s.pubs[s.taken])
      && h == HeaderOf(cfg, s.pubs[s.taken].rec, s.pubs[s.taken].at)
      && OnTrack(cfg, s.pubs[s.taken].rec, i, st)
      && p == s.pubs[s.taken].at.cst.off + DistanceTo(Specs(cfg, s.pubs[s.taken].rec), i)
    case Release(h, text) =>
      && s.taken < c.upto <= |s.pubs| && c.snap == StartOf(s, c.upto).off
      && s.r == s.pubs[s.taken].at.hdr
      && RecordAt(cfg, s.mem, s.pubs[s.taken])
      && h == HeaderOf(cfg, s.pubs[s.taken].rec, s.pubs[s.taken].at)
      && text == TextOf(cfg, s.pubs[s.taken].rec)
  }

  /** What the consumer has returned is what was published, from the first record on. */
  ghost predicate Output(cfg: Config, s: State)
    requires ValidConfig(cfg)
  {
    && |s.out| == s.taken <= |s.pubs|
    && forall k :: 0 <= k < s.taken ==> ValidRecord(cfg, s.pubs[k].rec) && s.out[k] == MessageOf(cfg, s.pubs[k].rec)
  }

  ghost predicate Inv(cfg: Config, s: State) {
    ValidConfig(cfg) && Order(cfg, s) && Queue(cfg, s) && Producing(cfg, s) && Consuming(cfg, s) && Output(cfg, s)
  }

  lemma {:induction false} InitInv(cfg: Config, s: State)
    requires ValidConfig(cfg) && Init(cfg, s)
    ensures Inv(cfg, s)
  {
  }

  // ------------------------------------------------------------ storing a byte

  /** `x` lies outside the `n` bytes at `p`. */
  predicate Outside(x: int, p: Pos, n: int) {
    x < p.off || p.off + n <= x
  }

  lemma {:induction false} CoversKept(mem: seq<byte>, x: int, c: Cell, pos: int, cells: seq<Cell>)
    requires Covers(mem, pos, cells) && (x < pos || pos + |cells| <= x)
    ensures Covers(Store(mem, x, c), pos, cells)
  {
  }

  lemma {:induction false} PartlyKept(mem: seq<byte>, x: int, c: Cell, pos: int, cells: seq<Cell>, n: nat)
    requires Partly(mem, pos, cells, n) && (x < pos || pos + |cells| <= x)
    ensures Partly(Store(mem, x, c), pos, cells, n)
  {
  }

  lemma {:induction false} PartlyGrows(mem: seq<byte>, pos: int, cells: seq<Cell>, n: nat)
    requires Partly(mem, pos, cells, n) && n < |cells| && 0 <= pos && pos + |cells| <= |mem|
    ensures Partly(Store(mem, pos + n, cells[n]), pos, cells, n + 1)
  {
  }

  lemma {:induction false} PartlyWhole(mem: seq<byte>, pos: int, cells: seq<Cell>)
    requires Partly(mem, pos, cells, |cells|) && 0 <= pos && pos + |cells| <= |mem|
    ensures Covers(mem, pos, cells)
  {
  }

  /** The fixed-size cells never exceed the space that is fetched for them. */
  lemma {:induction false} ConstFits(cfg: Config, rec: Record)
    requires ValidConfig(cfg) && ValidRecord(cfg, rec)
    ensures |ConstOf(cfg, rec)| <= ConstSize(cfg, rec) && |StrOf(cfg, rec)| == ExtraSize(cfg, rec)
  {
    hide ConstCells, StrCells;
    DistanceIsParamSize(Specs(cfg, rec));
  }

  /** `x` is in the chunk the producer is filling: `n` bytes at `b`, granted after the published position. */
  ghost predicate InChunk(cfg: Config, s: State, b: Pos, n: int, x: int) {
    && 0 <= n && 0 <= b.off && b.off + n <= cfg.cap && b.off <= x < b.off + n
    && Le(s.w, b) && Le(After(b, n), Front(s))
  }

  /** The chunks of an unread record lie, in order, between the reader and the published position. */
  lemma {:induction false} UnreadChunks(cfg: Config, s: State, k: nat)
    requires Inv(cfg, s) && s.taken <= k < |s.pubs|
    ensures ValidRecord(cfg, s.pubs[k].rec)
    ensures var l, c, e := s.pubs[k].at, ConstSize(cfg, s.pubs[k].rec), ExtraSize(cfg, s.pubs[k].rec);
      && 0 <= l.hdr.off && l.hdr.off + HDR_SIZE <= cfg.cap && 0 <= l.cst.off && l.cst.off + c <= cfg.cap
      && 0 <= l.str.off && l.str.off + e <= cfg.cap && 0 <= l.tail.off && l.tail.off + CACHE_INTERVAL <= cfg.cap
      && Le(s.r, l.hdr) && Le(After(l.hdr, HDR_SIZE), l.cst) && Le(After(l.cst, c), l.str)
      && Le(After(l.str, e), l.tail) && Le(End(l), s.w)
  {
    hide Covers, ConstOf, StrOf, HdrCells, Consuming, Producing, Output, ExtraLen, ValidConfig, Window;
    assert RecordAt(cfg, s.mem, s.pubs[k]);
    assert Le(End(s.pubs[k].at), Next(cfg.cap, s.pubs[k].at));
  }

  /** Such a byte belongs to no chunk of an unread record. */
  lemma {:induction false} MissesUnread(cfg: Config, s: State, b: Pos, n: int, x: int, k: nat)
    requires Inv(cfg, s) && InChunk(cfg, s, b, n, x) && s.taken <= k < |s.pubs|
    ensures ValidRecord(cfg, s.pubs[k].rec)
    ensures var p := s.pubs[k];
      && Outside(x, p.at.hdr, HDR_SIZE) && Outside(x, p.at.cst, ConstSize(cfg, p.rec))
      && Outside(x, p.at.str, ExtraSize(cfg, p.rec)) && Outside(x, p.at.tail, CACHE_INTERVAL)
  {
    hide Queue, Consuming, Producing, Output, ExtraLen, ValidConfig, WellTypedAll;
    UnreadChunks(cfg, s, k);
    WindowShrink(cfg.cap, s.prod.seen, s.r, After(b, n), Front(s));
    hide Window, Order;
    var l := s.pubs[k].at;
    ChunksApart(cfg.cap, s.r, l.hdr, HDR_SIZE, b, n);
    ChunksApart(cfg.cap, s.r, l.cst, ConstSize(cfg, s.pubs[k].rec), b, n);
    ChunksApart(cfg.cap, s.r, l.str, ExtraSize(cfg, s.pubs[k].rec), b, n);
    ChunksApart(cfg.cap, s.r, l.tail, CACHE_INTERVAL, b, n);
  }
}
