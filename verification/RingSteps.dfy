/** Every step of producer and consumer keeps the invariant. */
module RingSteps {
  import opened Bytes
  import opened BytesBuffer
  import opened Header
  import opened Codec
  import opened RingProtocol
  import opened RingInvariant

  // --------------------------------------------------------------- producer

  /** Producer steps that leave every unread record readable keep the rest of the invariant. */
  lemma {:induction false} OnlyProducer(cfg: Config, s: State, s': State)
    requires Inv(cfg, s) && s' == s.(prod := s'.prod, mem := s'.mem)
    requires forall k :: s.taken <= k < |s.pubs| ==> RecordAt(cfg, s'.mem, s.pubs[k])
    ensures Queue(cfg, s') && Consuming(cfg, s') && Output(cfg, s')
  {
    hide *;
    QueueKept(cfg, s, s');
    ConsumingKept(cfg, s, s');
    OutputKept(cfg, s, s');
  }

  lemma {:induction false} QueueKept(cfg: Config, s: State, s': State)
    requires Inv(cfg, s) && s' == s.(prod := s'.prod, mem := s'.mem)
    requires forall k :: s.taken <= k < |s.pubs| ==> RecordAt(cfg, s'.mem, s.pubs[k])
    ensures Queue(cfg, s')
  {
    hide RecordAt, Consuming, Output, Order, Producing, Le, ValidRecord;
    assert forall k: nat :: k <= |s.pubs| ==> StartOf(s', k) == StartOf(s, k);
  }

  lemma {:induction false} ConsumingKept(cfg: Config, s: State, s': State)
    requires Inv(cfg, s) && s' == s.(prod := s'.prod, mem := s'.mem)
    requires forall k :: s.taken <= k < |s.pubs| ==> RecordAt(cfg, s'.mem, s.pubs[k])
    ensures Consuming(cfg, s')
  {
    hide RecordAt, Queue, Output, Order, Producing, OnTrack, TextOf, HeaderOf, ValidRecord, DistanceTo;
    assert forall k: nat :: k <= |s.pubs| ==> StartOf(s', k) == StartOf(s, k);
  }

  lemma {:induction false} OutputKept(cfg: Config, s: State, s': State)
    requires Inv(cfg, s) && s'.out == s.out && s'.taken == s.taken && s'.pubs == s.pubs
    ensures Output(cfg, s')
  {
    hide Queue, Consuming, Order, Producing, MessageOf;
  }

  lemma {:induction false} UnreadReadable(cfg: Config, s: State)
    requires Queue(cfg, s)
    ensures forall k :: s.taken <= k < |s.pubs| ==> RecordAt(cfg, s.mem, s.pubs[k])
  {
  }

  lemma {:induction false} StartInv(cfg: Config, s: State, rec: Record)
    requires Inv(cfg, s) && s.prod.pc == Idle && ValidRecord(cfg, rec)
    ensures Inv(cfg, Start(s, rec))
  {
    hide RecordAt, OnTrack, Queue, Consuming, Output, ExtraLen, ConstCells, StrCells, Covers;
    UnreadReadable(cfg, s);
    OnlyProducer(cfg, s, Start(s, rec));
  }

  /** What a turn of a fetch loop does to the positions. */
  lemma {:induction false} FetchOrder(cfg: Config, s: State, n: int, pc: ProducerPc, at: Pos -> Layout)
    requires Inv(cfg, s) && s.prod.pc != Idle && pc != Idle && 0 <= n
    ensures var s' := Fetch(cfg, s, n, pc, at);
      && Order(cfg, s')
      && (s'.prod.pc == Idle || s'.prod == s.prod.(seen := s.r) ||
          (&& WFc(cfg.cap, n, s.prod.seen.off, s.prod.w.off) >= 0
           && var b := GrantPos(s.prod.w, WFc(cfg.cap, n, s.prod.seen.off, s.prod.w.off));
           && s'.prod == s.prod.(pc := pc, w := After(b, n), at := at(b))
           && Le(s.prod.w, b) && 0 <= b.off && b.off + n <= cfg.cap
           && b == Place(cfg.cap, s.prod.w, n)
           && After(b, n).lap <= s.w.lap + 1))
  {
    hide Queue, Consuming, Output, Producing;
    var p := s.prod;
    var v := WFc(cfg.cap, n, p.seen.off, p.w.off);
    if v >= 0 {
      GrantWindow(cfg.cap, n, p.seen, p.w);
    } else if v == LIMIT_ERROR {
      WindowShrink(cfg.cap, p.seen, p.seen, s.w, p.w);
    } else {
      WindowShrink(cfg.cap, p.seen, s.r, p.w, p.w);
    }
  }

  /** A turn of a fetch loop, given that a grant for it continues the record. */
  lemma {:induction false} FetchRest(cfg: Config, s: State, s': State)
    requires Inv(cfg, s) && s.prod.pc != Idle && s' == s.(prod := s'.prod)
    requires Order(cfg, s') && (s'.prod.pc == Idle || s'.prod == s.prod.(seen := s.r) || Producing(cfg, s'))
    ensures Inv(cfg, s')
  {
    hide Queue, Consuming, Output, Order, RecordAt, Chain, Reached, Partly;
    UnreadReadable(cfg, s);
    OnlyProducer(cfg, s, s');
  }

  lemma {:induction false} FetchHdrInv(cfg: Config, s: State)
    requires Inv(cfg, s) && s.prod.pc.FetchHdr?
    ensures Inv(cfg, ProducerStep(cfg, s))
  {
    hide Queue, Consuming, Output, Order, ExtraLen, ConstCells, StrCells, Strings, Window, WFc;
    FetchOrder(cfg, s, HDR_SIZE, FetchConst, v => s.prod.at.(hdr := v));
    FetchRest(cfg, s, ProducerStep(cfg, s));
  }

  lemma {:induction false} FetchConstInv(cfg: Config, s: State)
    requires Inv(cfg, s) && s.prod.pc.FetchConst?
    ensures Inv(cfg, ProducerStep(cfg, s))
  {
    hide Queue, Consuming, Output, Order, ExtraLen, ConstCells, StrCells, Strings, Window, WFc;
    FetchOrder(cfg, s, ConstSize(cfg, s.prod.rec), WriteConst(0), v => s.prod.at.(cst := v));
    FetchRest(cfg, s, ProducerStep(cfg, s));
  }

  lemma {:induction false} FetchStrInv(cfg: Config, s: State)
    requires Inv(cfg, s) && s.prod.pc.FetchStr?
    ensures Inv(cfg, ProducerStep(cfg, s))
  {
    hide Queue, Consuming, Output, Order, ExtraLen, ConstCells, StrCells, Strings, Window, WFc;
    FetchOrder(cfg, s, ExtraSize(cfg, s.prod.rec), WriteStr(0), v => s.prod.at.(str := v));
    FetchRest(cfg, s, ProducerStep(cfg, s));
  }

  lemma {:induction false} FetchTailInv(cfg: Config, s: State)
    requires Inv(cfg, s) && s.prod.pc.FetchTail?
    ensures Inv(cfg, ProducerStep(cfg, s))
  {
    hide Queue, Consuming, Output, Order, ExtraLen, ConstCells, StrCells, Strings, Window, WFc;
    FetchOrder(cfg, s, CACHE_INTERVAL, WriteHdr(0), v => s.prod.at.(tail := v));
    FetchRest(cfg, s, ProducerStep(cfg, s));
  }

  /** A byte stored in the chunk being filled leaves every unread record readable. */
  lemma {:induction false} StoreKeepsRecords(cfg: Config, s: State, b: Pos, n: int, x: int, c: Cell)
    requires Inv(cfg, s) && InChunk(cfg, s, b, n, x)
    ensures forall k :: s.taken <= k < |s.pubs| ==> RecordAt(cfg, Store(s.mem, x, c), s.pubs[k])
  {
    hide Consuming, Producing, Output, Order, Covers, Chain, ConstCells, StrCells, ExtraLen, HdrCells;
    forall k | s.taken <= k < |s.pubs|
      ensures RecordAt(cfg, Store(s.mem, x, c), s.pubs[k])
    {
      var p := s.pubs[k];
      assert RecordAt(cfg, s.mem, p);
      MissesUnread(cfg, s, b, n, x, k);
      ConstFits(cfg, p.rec);
      CoversKept(s.mem, x, c, p.at.hdr.off, HdrCells(cfg, p.rec, p.at));
      CoversKept(s.mem, x, c, p.at.cst.off, ConstOf(cfg, p.rec));
      CoversKept(s.mem, x, c, p.at.str.off, StrOf(cfg, p.rec));
    }
  }

  /** The newest chunk `b`, at stage `k` of the record under way, overlaps none of the chunks before it. */
  lemma {:induction false} NewestApart(cfg: Config, s: State, a: Pos, na: int, b: Pos, nb: int)
    requires Inv(cfg, s) && s.prod.pc != Idle
    requires 0 <= a.off && 0 <= na && a.off + na <= cfg.cap && 0 <= b.off && 0 <= nb && b.off + nb <= cfg.cap
    requires Le(s.w, a) && Le(After(a, na), b) && Le(After(b, nb), s.prod.w)
    ensures a.off + na <= b.off || b.off + nb <= a.off
  {
    hide Queue, Consuming, Output, Producing;
    WindowShrink(cfg.cap, s.prod.seen, s.prod.seen, After(b, nb), s.prod.w);
    ChunksApart(cfg.cap, s.prod.seen, a, na, b, nb);
  }

  /** The producer's own chunks do not overlap. */
  lemma {:induction false} OwnChunksApart(cfg: Config, s: State)
    requires Inv(cfg, s) && s.prod.pc != Idle
    ensures var l, c, e := s.prod.at, ConstSize(cfg, s.prod.rec), ExtraSize(cfg, s.prod.rec);
      && (Granted(s.prod.pc) >= 2 ==> l.hdr.off + HDR_SIZE <= l.cst.off || l.cst.off + c <= l.hdr.off)
      && (Granted(s.prod.pc) >= 3 ==> l.hdr.off + HDR_SIZE <= l.str.off || l.str.off + e <= l.hdr.off)
      && (Granted(s.prod.pc) >= 3 ==> l.cst.off + c <= l.str.off || l.str.off + e <= l.cst.off)
      && (Granted(s.prod.pc) >= 4 ==> l.hdr.off + HDR_SIZE <= l.tail.off || l.tail.off + CACHE_INTERVAL <= l.hdr.off)
      && (Granted(s.prod.pc) >= 4 ==> l.cst.off + c <= l.tail.off || l.tail.off + CACHE_INTERVAL <= l.cst.off)
      && (Granted(s.prod.pc) >= 4 ==> l.str.off + e <= l.tail.off || l.tail.off + CACHE_INTERVAL <= l.str.off)
  {
    hide Queue, Consuming, Output, Order, Window, ExtraLen, ConstCells, StrCells, Covers, Partly;
    var l, c, e := s.prod.at, ConstSize(cfg, s.prod.rec), ExtraSize(cfg, s.prod.rec);
    var k := Granted(s.prod.pc);
    if k >= 2 {
      NewestApart(cfg, s, l.hdr, HDR_SIZE, l.cst, c);
    }
    if k >= 3 {
      NewestApart(cfg, s, l.hdr, HDR_SIZE, l.str, e);
      NewestApart(cfg, s, l.cst, c, l.str, e);
    }
    if k >= 4 {
      NewestApart(cfg, s, l.hdr, HDR_SIZE, l.tail, CACHE_INTERVAL);
      NewestApart(cfg, s, l.cst, c, l.tail, CACHE_INTERVAL);
      NewestApart(cfg, s, l.str, e, l.tail, CACHE_INTERVAL);
    }
  }

  /** The byte the producer is about to store, when it is about to store one. */
  ghost predicate Storing(cfg: Config, s: State)
    requires s.prod.pc != Idle ==> ValidRecord(cfg, s.prod.rec)
  {
    || (s.prod.pc.WriteConst? && s.prod.pc.n < |ConstOf(cfg, s.prod.rec)|)
    || (s.prod.pc.WriteStr? && s.prod.pc.n < |StrOf(cfg, s.prod.rec)|)
    || (s.prod.pc.WriteHdr? && s.prod.pc.n < HDR_SIZE)
  }

  function ChunkPos(p: Producer): Pos
    requires p.pc.WriteConst? || p.pc.WriteStr? || p.pc.WriteHdr?
  {
    if p.pc.WriteConst? then p.at.cst else if p.pc.WriteStr? then p.at.str else p.at.hdr
  }

  ghost function ChunkSize(cfg: Config, p: Producer): int
    requires ValidRecord(cfg, p.rec)
    requires p.pc.WriteConst? || p.pc.WriteStr? || p.pc.WriteHdr?
  {
    if p.pc.WriteConst? then ConstSize(cfg, p.rec) else if p.pc.WriteStr? then ExtraSize(cfg, p.rec) else HDR_SIZE
  }

  /** It lies in a chunk granted for this record. */
  lemma {:induction false} StoringInChunk(cfg: Config, s: State)
    requires Inv(cfg, s) && s.prod.pc != Idle && Storing(cfg, s)
    ensures InChunk(cfg, s, ChunkPos(s.prod), ChunkSize(cfg, s.prod), ChunkPos(s.prod).off + s.prod.pc.n)
  {
    hide Queue, Consuming, Output, ExtraLen, ConstCells, StrCells, Covers, Partly, Strings;
    ConstFits(cfg, s.prod.rec);
  }

  /** What has been written of the record under way is still there, and one cell more. */
  lemma {:induction false} StoreProducing(cfg: Config, s: State)
    requires Inv(cfg, s) && s.prod.pc != Idle && Storing(cfg, s)
    ensures Producing(cfg, ProducerStep(cfg, s))
  {
    hide Queue, Consuming, Output, Order, Chain, Reached, ExtraLen, ConstCells, StrCells, Covers, Strings, Partly, Store, Encode;
    if s.prod.pc.WriteConst? {
      StoreConst(cfg, s);
    } else if s.prod.pc.WriteStr? {
      StoreStr(cfg, s);
    } else {
      StoreHdr(cfg, s);
    }
  }

  /** The three chunks the producer fills do not overlap and hold their cells. */
  lemma {:induction false} ChunkRoom(cfg: Config, s: State)
    requires Inv(cfg, s) && s.prod.pc != Idle
    ensures var rec, l := s.prod.rec, s.prod.at;
      var cst, str := |ConstOf(cfg, rec)|, |StrOf(cfg, rec)|;
      && (Granted(s.prod.pc) >= 2 ==> 0 <= l.cst.off && l.cst.off + cst <= |s.mem|)
      && (Granted(s.prod.pc) >= 3 ==>
            && 0 <= l.str.off && l.str.off + str <= |s.mem|
            && (l.cst.off + cst <= l.str.off || l.str.off + str <= l.cst.off))
      && (Granted(s.prod.pc) >= 4 ==>
            && 0 <= l.hdr.off && l.hdr.off + HDR_SIZE <= |s.mem|
            && (l.hdr.off + HDR_SIZE <= l.cst.off || l.cst.off + cst <= l.hdr.off)
            && (l.hdr.off + HDR_SIZE <= l.str.off || l.str.off + str <= l.hdr.off))
  {
    hide Queue, Consuming, Output, ExtraLen, ConstCells, StrCells, Covers, Strings, Partly, Window, Le;
    OwnChunksApart(cfg, s);
    ConstFits(cfg, s.prod.rec);
  }

  lemma {:induction false} StoreConst(cfg: Config, s: State)
    requires Inv(cfg, s) && s.prod.pc.WriteConst? && Storing(cfg, s)
    ensures Producing(cfg, ProducerStep(cfg, s))
  {
    hide Queue, Consuming, Output, Order, Chain, Reached, ExtraLen, ConstOf, StrOf, HdrCells, Partly, Store;
    var rec, l, n := s.prod.rec, s.prod.at, s.prod.pc.n;
    ChunkRoom(cfg, s);
    PartlyGrows(s.mem, l.cst.off, ConstOf(cfg, rec), n);
    PartlyNone(ProducerStep(cfg, s).mem, l.str.off, StrOf(cfg, rec));
    PartlyNone(ProducerStep(cfg, s).mem, l.hdr.off, HdrCells(cfg, rec, l));
  }

  lemma {:induction false} StoreStr(cfg: Config, s: State)
    requires Inv(cfg, s) && s.prod.pc.WriteStr? && Storing(cfg, s)
    ensures Producing(cfg, ProducerStep(cfg, s))
  {
    hide Queue, Consuming, Output, Order, Chain, Reached, ExtraLen, ConstOf, StrOf, HdrCells, Partly, Store;
    var rec, l, n := s.prod.rec, s.prod.at, s.prod.pc.n;
    ChunkRoom(cfg, s);
    PartlyKept(s.mem, l.str.off + n, StrOf(cfg, rec)[n], l.cst.off, ConstOf(cfg, rec), |ConstOf(cfg, rec)|);
    PartlyGrows(s.mem, l.str.off, StrOf(cfg, rec), n);
    PartlyNone(ProducerStep(cfg, s).mem, l.hdr.off, HdrCells(cfg, rec, l));
  }

  lemma {:induction false} StoreHdr(cfg: Config, s: State)
    requires Inv(cfg, s) && s.prod.pc.WriteHdr? && Storing(cfg, s)
    ensures Producing(cfg, ProducerStep(cfg, s))
  {
    hide Queue, Consuming, Output, Order, Chain, Reached, ExtraLen, ConstOf, StrOf, HdrCells, Partly, Store;
    var rec, l, n := s.prod.rec, s.prod.at, s.prod.pc.n;
    ChunkRoom(cfg, s);
    PartlyKept(s.mem, l.hdr.off + n, HdrCells(cfg, rec, l)[n], l.cst.off, ConstOf(cfg, rec), |ConstOf(cfg, rec)|);
    PartlyKept(s.mem, l.hdr.off + n, HdrCells(cfg, rec, l)[n], l.str.off, StrOf(cfg, rec), |StrOf(cfg, rec)|);
    PartlyGrows(s.mem, l.hdr.off, HdrCells(cfg, rec, l), n);
  }

  lemma {:induction false} PartlyNone(mem: seq<byte>, pos: int, c: seq<Cell>)
    ensures Partly(mem, pos, c, 0)
  {
  }

  /** A store of one byte. */
  lemma {:induction false} StoreInv(cfg: Config, s: State)
    requires Inv(cfg, s) && s.prod.pc != Idle && Storing(cfg, s)
    ensures Inv(cfg, ProducerStep(cfg, s))
  {
    hide Queue, Consuming, Output, Producing, RecordAt, ExtraLen, ConstCells, StrCells, Covers, Strings, Window, Encode;
    assert ValidRecord(cfg, s.prod.rec) && Chain(cfg, s.prod.rec, s.prod.at, Granted(s.prod.pc)) by { ProducingChain(cfg, s); }
    StoreProducing(cfg, s);
    StoringInChunk(cfg, s);
    var s' := ProducerStep(cfg, s);
    var x := ChunkPos(s.prod).off + s.prod.pc.n;
    var c :=
      if s.prod.pc.WriteConst? then ConstOf(cfg, s.prod.rec)[s.prod.pc.n]
      else if s.prod.pc.WriteStr? then StrOf(cfg, s.prod.rec)[s.prod.pc.n]
      else HdrCells(cfg, s.prod.rec, s.prod.at)[s.prod.pc.n];
    assert s'.mem == Store(s.mem, x, c);
    StoreKeepsRecords(cfg, s, ChunkPos(s.prod), ChunkSize(cfg, s.prod), x, c);
    OnlyProducer(cfg, s, s');
  }

  lemma {:induction false} ProducingChain(cfg: Config, s: State)
    requires Producing(cfg, s) && s.prod.pc != Idle
    ensures ValidRecord(cfg, s.prod.rec) && Chain(cfg, s.prod.rec, s.prod.at, Granted(s.prod.pc))
  {
  }

  /** A chunk has been written to its end. */
  lemma {:induction false} ChunkDoneInv(cfg: Config, s: State)
    requires Inv(cfg, s) && !Storing(cfg, s)
    requires s.prod.pc.WriteConst? || s.prod.pc.WriteStr? || s.prod.pc.WriteHdr?
    ensures Inv(cfg, ProducerStep(cfg, s))
  {
    hide Queue, Consuming, Output, RecordAt, Chain, Reached, Partly, ConstOf, StrOf, HdrCells, Window, Le, ExtraLen;
    assert s.prod.pc.n <= |if s.prod.pc.WriteConst? then ConstOf(cfg, s.prod.rec)
                           else if s.prod.pc.WriteStr? then StrOf(cfg, s.prod.rec)
                           else HdrCells(cfg, s.prod.rec, s.prod.at)| by { ChunkBound(cfg, s); }
    UnreadReadable(cfg, s);
    OnlyProducer(cfg, s, ProducerStep(cfg, s));
  }

  lemma {:induction false} ChunkBound(cfg: Config, s: State)
    requires Producing(cfg, s)
    requires s.prod.pc.WriteConst? || s.prod.pc.WriteStr? || s.prod.pc.WriteHdr?
    ensures s.prod.pc.n <= |if s.prod.pc.WriteConst? then ConstOf(cfg, s.prod.rec)
                            else if s.prod.pc.WriteStr? then StrOf(cfg, s.prod.rec)
                            else HdrCells(cfg, s.prod.rec, s.prod.at)|
  {
    hide Chain, Reached, ConstOf, StrOf, HdrCells;
  }
}
