/** The two models of a log call agree: on a ring whose reader stands still, the producer of the ring protocol
    ends a call where and with the bytes that `Serializer` says. */
module RingSerialize {
  import opened Bytes
  import opened BytesBuffer
  import opened Header
  import opened Codec
  import opened RecordChunks
  import opened RingProtocol
  import opened RingInvariant
  import opened RingProgress
  import opened RingCall
  import Serializer

  /** Every load answers `r`. */
  predicate Still(loads: seq<int>, r: int) {
    forall k :: 0 <= k < |loads| ==> loads[k] == r
  }

  lemma {:induction false} AnswerIs(cap: int, n: int, r: int, w: int)
    ensures WFc(cap, n, r, w) == LIMIT_ERROR || WFc(cap, n, r, w) == WAIT_READER || WFc(cap, n, r, w) == w || WFc(cap, n, r, w) == 0
  {
  }

  lemma {:induction false} WaitsOn(cap: int, n: int, r: int, w: int, loads: seq<int>)
    requires Still(loads, r) && WFc(cap, n, r, w) == WAIT_READER
    ensures Serializer.Fetched(cap, n, r, w, loads).ret == WAIT_READER && Serializer.Fetched(cap, n, r, w, loads).seen == r
    decreases |loads|
  {
    hide WFc;
    if loads != [] {
      WaitsOn(cap, n, r, w, loads[1..]);
    }
  }

  /** A reader that stands still is loaded at most once for a grant. */
  lemma {:induction false} FetchedStill(cap: int, n: int, seen: int, r: int, w: int, loads: seq<int>)
    requires Still(loads, r) && loads != [] && 0 <= w
    ensures
      var g := Serializer.Fetched(cap, n, seen, w, loads);
      && (g.ret >= 0 || g.ret == LIMIT_ERROR || g.ret == WAIT_READER)
      && (g.ret != WAIT_READER ==> |g.rest| + 1 >= |loads| && Still(g.rest, r))
      && (g.ret == WAIT_READER ==>
            WFc(cap, n, seen, w) == WAIT_READER && WFc(cap, n, r, w) == WAIT_READER && g.seen == r)
      && (WFc(cap, n, seen, w) != WAIT_READER ==> g == Serializer.Grant(WFc(cap, n, seen, w), seen, loads))
      && (WFc(cap, n, seen, w) == WAIT_READER && g.ret != WAIT_READER ==>
            g == Serializer.Grant(WFc(cap, n, r, w), r, loads[1..]))
  {
    AnswerIs(cap, n, seen, w);
    AnswerIs(cap, n, r, w);
    hide WFc;
    if WFc(cap, n, seen, w) == WAIT_READER && WFc(cap, n, r, w) == WAIT_READER {
      WaitsOn(cap, n, r, w, loads[1..]);
    }
  }

  /** One fetch of the protocol against one fetch with loads: granted at the same place with the same reader
      position remembered, given up, or left waiting. */
  lemma {:induction false} FetchStage(cfg: Config, run: seq<State>, loads: seq<int>) returns (longer: seq<State>)
    requires Live(cfg, run) && Fetching(Last(run).prod) && ValidRecord(cfg, Last(run).prod.rec)
    requires Still(loads, Last(run).r.off) && loads != []
    ensures var s := Last(run);
      var g := Serializer.Fetched(cfg.cap, Asked(cfg, s.prod), s.prod.seen.off, s.prod.w.off, loads);
      && (g.ret >= 0 || g.ret == LIMIT_ERROR || g.ret == WAIT_READER)
      && (g.ret != WAIT_READER ==> |g.rest| + 1 >= |loads| && Still(g.rest, s.r.off))
      && (g.ret >= 0 ==>
            && GoesOn(cfg, run, longer) && Last(longer) == s.(prod := Served(cfg, s))
            && Served(cfg, s).seen.off == g.seen && Place(cfg.cap, s.prod.w, Asked(cfg, s.prod)).off == g.ret)
      && (g.ret == LIMIT_ERROR ==>
            GoesOn(cfg, run, longer) && Last(longer) == s.(prod := s.prod.(pc := Idle)) && g.seen == s.prod.seen.off)
      && (g.ret == WAIT_READER ==>
            && GoesOn(cfg, run, longer) && Last(longer) == s.(prod := s.prod.(seen := s.r)) && g.seen == s.r.off
            && WFc(cfg.cap, Asked(cfg, s.prod), s.r.off, s.prod.w.off) == WAIT_READER)
  {
    hide Run, Inv, WFc, ValidRecord, ProducerStep, Place, SetChunk, Serializer.Fetched, Still;
    var s := Last(run);
    var n := Asked(cfg, s.prod);
    longer := run;
    WriterInside(cfg, s);
    FetchedStill(cfg.cap, n, s.prod.seen.off, s.r.off, s.prod.w.off, loads);
    var g := Serializer.Fetched(cfg.cap, n, s.prod.seen.off, s.prod.w.off, loads);
    if g.ret >= 0 {
      longer := FetchTurns(cfg, run);
      GrantOff(cfg.cap, n, g.seen, s.prod.w.off);
    } else if g.ret == LIMIT_ERROR {
      LimitAnywhere(cfg.cap, n, s.r.off, s.prod.seen.off, s.prod.w.off);
      GiveUpIs(cfg, s);
      longer := ProducerTurn(cfg, run);
    } else {
      ReloadIs(cfg, s);
      longer := ProducerTurn(cfg, run);
    }
  }

  lemma {:induction false} WriterInside(cfg: Config, s: State)
    requires Inv(cfg, s) && s.prod.pc != Idle
    ensures 0 <= s.prod.w.off <= cfg.cap && 0 <= s.prod.seen.off < cfg.cap && 0 <= s.r.off < cfg.cap
  {
    hide Queue, Producing, Consuming, Output, ValidConfig;
  }

  /** The limit does not depend on the reader. */
  lemma {:induction false} LimitAnywhere(cap: int, n: int, r: int, r': int, w: int)
    ensures 0 <= r < cap && 0 <= r' < cap && 0 <= w <= cap && WFc(cap, n, r, w) == LIMIT_ERROR ==>
      WFc(cap, n, r', w) == LIMIT_ERROR
  {
  }

  lemma {:induction false} GiveUpIs(cfg: Config, s: State)
    requires Fetching(s.prod) && ValidRecord(cfg, s.prod.rec)
    requires WFc(cfg.cap, Asked(cfg, s.prod), s.prod.seen.off, s.prod.w.off) == LIMIT_ERROR
    ensures ProducerStep(cfg, s) == s.(prod := s.prod.(pc := Idle))
  {
    hide WFc, ExtraLen, ConstOf, StrOf, HdrCells;
  }

  /** The offsets of a layout. */
  predicate AtOffsets(l: Layout, granted: nat, at: Chunks) {
    && (granted >= 1 ==> l.hdr.off == at.hdr) && (granted >= 2 ==> l.cst.off == at.cst)
    && (granted >= 3 ==> l.str.off == at.str) && (granted >= 4 ==> l.tail.off == at.tail)
  }

  /** How a call of `rec` on state `s` ends, with a reader that stands still. */
  ghost function Ending(cfg: Config, s: State, rec: Record): Serializer.Outcome
    requires ValidRecord(cfg, rec)
  {
    var r := s.r.off;
    Serializer.Placement(cfg.cap, s.w.off, ConstSize(cfg, rec), ExtraSize(cfg, rec), s.prod.seen.off, [r, r, r, r, r])
  }

  /** The fetch after the first `granted` chunks. */
  function FetchAfter(granted: nat): ProducerPc {
    if granted == 0 then FetchHdr else if granted == 1 then FetchConst else if granted == 2 then FetchStr else FetchTail
  }

  /** A call of `rec` that began in `s` has come to `s'` as `o` says: it is published, has given up, or stands at the
      fetch for which there is no room; the same reader position is remembered, the chunks are at the same places,
      and the bytes are the same. */
  ghost predicate EndsAs(cfg: Config, s: State, s': State, rec: Record, o: Serializer.Outcome)
    requires ValidRecord(cfg, rec)
  {
    && s'.prod.seen.off == o.seen && AtOffsets(s'.prod.at, o.granted, o.at)
    && (if o.status == WAIT_READER then
          && s'.prod.pc == FetchAfter(o.granted) && s'.prod.rec == rec && s'.prod.seen == s.r
          && WFc(cfg.cap, Asked(cfg, s'.prod), s.r.off, s'.prod.w.off) == WAIT_READER
        else s'.prod.pc == Idle)
    && s'.r == s.r && s'.taken == s.taken && s'.out == s.out && s'.cons == s.cons
    && s'.pubs == (if o.status == Serializer.PUBLISHED then s.pubs + [Placed(rec, s'.prod.at)] else s.pubs)
    && s'.w.off == (if o.status == Serializer.PUBLISHED then Fold(cfg.cap, o.at.tail + CACHE_INTERVAL) else s.w.off)
    && (o.granted >= 2 ==> o.at.cst + |ConstOf(cfg, rec)| <= |s.mem|)
    && (o.granted >= 3 ==> o.at.str + |StrOf(cfg, rec)| <= |s.mem|)
    && (o.granted >= 4 ==> o.at.hdr + HDR_SIZE <= |s.mem|)
    && s'.mem == Serializer.Written(s.mem, o.granted, o.at, ConstOf(cfg, rec), StrOf(cfg, rec),
         Header(rec.sec, rec.nsec, o.at.cst, o.at.str, ExtraSize(cfg, rec), o.at.tail + CACHE_INTERVAL, rec.prim))
  }

  /** The arguments are written; strings, interval, header and publication are left. */
  lemma {:induction false} FromStrings(cfg: Config, run: seq<State>, s: State, rec: Record, hdr: nat, cst: nat, loads: seq<int>)
    returns (longer: seq<State>)
    requires Live(cfg, run) && ValidRecord(cfg, rec) && Still(loads, s.r.off) && |loads| >= 2
    requires cst + |ConstOf(cfg, rec)| <= |s.mem|
    requires var p := Last(run).prod;
      && Last(run) == s.(prod := p, mem := Overlay(s.mem, cst, ConstOf(cfg, rec)))
      && p.pc == FetchStr && p.rec == rec && p.at.hdr.off == hdr && p.at.cst.off == cst
      && p.w.off == cst + ConstSize(cfg, rec)
    ensures GoesOn(cfg, run, longer)
    ensures var o := Serializer.LastTwo(cfg.cap, hdr, cst, ConstSize(cfg, rec), ExtraSize(cfg, rec), Last(run).prod.seen.off, loads);
      EndsAs(cfg, s, Last(longer), rec, o)
  {
    hide Run, Inv, WFc, ValidRecord, Serializer.Fetched, Still, Place, ConstOf, StrOf, Overlay, Encode, ExtraLen, HdrCells;
    ValidPrim(cfg, rec);
    var g3 := Serializer.Fetched(cfg.cap, ExtraSize(cfg, rec), Last(run).prod.seen.off, cst + ConstSize(cfg, rec), loads);
    longer := FetchStage(cfg, run, loads);
    if g3.ret >= 0 {
      longer := WriteChunk(cfg, longer);
      longer := FetchStage(cfg, longer, g3.rest);
      if Last(longer).prod.pc.WriteHdr? {
        longer := WriteChunk(cfg, longer);
        HeaderCellsAre(cfg, Last(longer));
        longer := ProducerTurn(cfg, longer);
      }
    }
  }

  lemma {:induction false} HeaderCellsAre(cfg: Config, s: State)
    requires Inv(cfg, s) && s.prod.pc.Publish?
    ensures ValidRecord(cfg, s.prod.rec)
    ensures var rec, l := s.prod.rec, s.prod.at;
      && l.cst.off >= 0 && l.str.off >= 0 && l.tail.off >= 0
      && HdrCells(cfg, rec, l) == Vals(Encode(
           Header(rec.sec, rec.nsec, l.cst.off, l.str.off, ExtraSize(cfg, rec), l.tail.off + CACHE_INTERVAL, rec.prim)))
      && s.prod.w.off == l.tail.off + CACHE_INTERVAL
  {
    hide Queue, Consuming, Output, Order, Partly, ConstOf, StrOf, ExtraLen, Encode;
  }

  /** A call of the protocol's producer alone, with the reader standing still, ends as the call on one ring does. */
  lemma {:induction false} CallIsSerialize(cfg: Config, run: seq<State>, rec: Record) returns (longer: seq<State>)
    requires Live(cfg, run) && Last(run).prod.pc == Idle && ValidRecord(cfg, rec)
    ensures GoesOn(cfg, run, longer) && EndsAs(cfg, Last(run), Last(longer), rec, Ending(cfg, Last(run), rec))
  {
    hide Run, Inv, WFc, ValidRecord, Serializer.Fetched, Serializer.LastTwo, Still, Place, ConstOf, StrOf, Overlay, ExtraLen;
    ValidPrim(cfg, rec);
    var s, r := Last(run), Last(run).r.off;
    var loads := [r, r, r, r, r];
    StillFive(r);
    var r1 := StartTurn(cfg, run, rec);
    var g1 := Serializer.Fetched(cfg.cap, HDR_SIZE, s.prod.seen.off, s.w.off, loads);
    longer := FetchStage(cfg, r1, loads);
    if g1.ret >= 0 {
      var g2 := Serializer.Fetched(cfg.cap, ConstSize(cfg, rec), g1.seen, g1.ret + HDR_SIZE, g1.rest);
      longer := FetchStage(cfg, longer, g1.rest);
      if g2.ret >= 0 {
        longer := WriteChunk(cfg, longer);
        longer := FromStrings(cfg, longer, s, rec, g1.ret, g2.ret, g2.rest);
      }
    }
  }

  /** With room for the whole record behind the present reader position, the producer alone publishes it. */
  lemma {:induction false} StillCallPublishes(cfg: Config, run: seq<State>, rec: Record) returns (longer: seq<State>)
    requires Live(cfg, run) && Last(run).prod.pc == Idle && ValidRecord(cfg, rec)
    requires AllGranted(cfg.cap, Last(run).r.off, Last(run).w.off, ConstSize(cfg, rec), ExtraSize(cfg, rec))
    ensures GoesOn(cfg, run, longer) && Last(longer).prod.pc == Idle && Last(longer).r == Last(run).r
    ensures Last(longer).pubs == Last(run).pubs + [Placed(rec, Last(longer).prod.at)]
  {
    hide Run, Inv, ValidRecord, AllGranted, Ending, AtOffsets, Serializer.Written, ExtraLen;
    RoomEnds(cfg, Last(run), rec);
    longer := CallIsSerialize(cfg, run, rec);
  }

  lemma {:induction false} RoomEnds(cfg: Config, s: State, rec: Record)
    requires Inv(cfg, s) && ValidRecord(cfg, rec)
    requires AllGranted(cfg.cap, s.r.off, s.w.off, ConstSize(cfg, rec), ExtraSize(cfg, rec))
    ensures Ending(cfg, s, rec).status == Serializer.PUBLISHED
  {
    hide Inv, ExtraLen, ValidRecord, WFc, Serializer.Fetched, Still;
    ValidPrim(cfg, rec);
    ReaderInside(cfg, s);
    var cap, c, e, r, loads := cfg.cap, ConstSize(cfg, rec), ExtraSize(cfg, rec), s.r.off, [s.r.off, s.r.off, s.r.off, s.r.off, s.r.off];
    StillFive(r);
    var v1 := WFc(cap, HDR_SIZE, r, s.w.off);
    var v2 := WFc(cap, c, r, v1 + HDR_SIZE);
    var v3 := WFc(cap, e, r, v2 + c);
    var g1 := RoomFetched(cap, HDR_SIZE, s.prod.seen.off, r, s.w.off, loads);
    var g2 := RoomFetched(cap, c, g1.seen, r, v1 + HDR_SIZE, g1.rest);
    var g3 := RoomFetched(cap, e, g2.seen, r, v2 + c, g2.rest);
    var g4 := RoomFetched(cap, CACHE_INTERVAL, g3.seen, r, v3 + e, g3.rest);
  }

  /** A fetch that the present reader position grants is granted there, whatever position was remembered. */
  lemma {:induction false} RoomFetched(cap: int, n: nat, seen: int, r: int, w: int, loads: seq<int>)
    returns (g: Serializer.Grant)
    requires 0 <= seen < cap && 0 <= r < cap && 0 <= w <= cap && Still(loads, r) && |loads| >= 2
    requires WFc(cap, n, r, w) >= 0
    ensures g == Serializer.Fetched(cap, n, seen, w, loads) && g.ret == WFc(cap, n, r, w) && g.ret + n <= cap
    ensures 0 <= g.seen < cap && Still(g.rest, r) && |g.rest| + 1 >= |loads|
  {
    g := Serializer.Fetched(cap, n, seen, w, loads);
    FetchedStill(cap, n, seen, r, w, loads);
    GrantOff(cap, n, r, w);
    LimitAnywhere(cap, n, seen, r, w);
    if WFc(cap, n, seen, w) >= 0 {
      GrantOff(cap, n, seen, w);
    }
  }

  lemma {:induction false} StillFive(r: int)
    ensures Still([r, r, r, r, r], r)
  {
  }
}
