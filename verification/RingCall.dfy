/** A whole log call as steps of the ring protocol: how a run with a call under way goes on until the record is
    published, and that it ends as the call on one ring of `Serializer` does. */
module RingCall {
  import opened Bytes
  import opened BytesBuffer
  import opened Header
  import opened Codec
  import opened RecordChunks
  import opened RingProtocol
  import opened RingInvariant
  import opened RingSteps
  import opened RingReader
  import opened RingTheorems
  import opened RingProgress

  function Last(run: seq<State>): State
    requires run != []
  {
    run[|run| - 1]
  }

  /** A run; its last state satisfies the invariant. */
  ghost predicate Live(cfg: Config, run: seq<State>) {
    run != [] && Run(cfg, run) && Inv(cfg, Last(run))
  }

  /** `longer` is a run that goes on from `run`. */
  ghost predicate GoesOn(cfg: Config, run: seq<State>, longer: seq<State>) {
    run <= longer && Live(cfg, run) && Live(cfg, longer)
  }

  lemma {:induction false} RunIsLive(cfg: Config, run: seq<State>)
    requires Run(cfg, run)
    ensures Live(cfg, run)
  {
    hide Inv;
    RunInv(cfg, run, |run| - 1);
  }

  lemma {:induction false} Extend(cfg: Config, run: seq<State>, s': State)
    requires Live(cfg, run) && Step(cfg, Last(run), s')
    ensures GoesOn(cfg, run, run + [s']) && Last(run + [s']) == s'
  {
    hide Step, Init, ValidConfig, Inv;
    var longer := run + [s'];
    forall i | 0 < i < |longer| ensures Step(cfg, longer[i - 1], longer[i]) {
      if i < |run| {
        assert Step(cfg, run[i - 1], run[i]);
      }
    }
    StepInv(cfg, Last(run), s');
  }

  /** One step of the producer behind a run. */
  lemma {:induction false} ProducerTurn(cfg: Config, run: seq<State>) returns (longer: seq<State>)
    requires Live(cfg, run) && Last(run).prod.pc != Idle && ValidRecord(cfg, Last(run).prod.rec)
    ensures GoesOn(cfg, run, longer) && Last(longer) == ProducerStep(cfg, Last(run))
  {
    hide Run, ProducerStep, ValidRecord, Inv;
    var s' := ProducerStep(cfg, Last(run));
    assert ProducerNext(cfg, Last(run), s');
    Extend(cfg, run, s');
    longer := run + [s'];
  }

  /** The start of a log call behind a run. */
  lemma {:induction false} StartTurn(cfg: Config, run: seq<State>, rec: Record) returns (longer: seq<State>)
    requires Live(cfg, run) && Last(run).prod.pc == Idle && ValidRecord(cfg, rec)
    ensures GoesOn(cfg, run, longer) && Last(longer) == Start(Last(run), rec)
  {
    hide Run, Inv, ValidRecord;
    var s' := Start(Last(run), rec);
    assert ProducerNext(cfg, Last(run), s');
    Extend(cfg, run, s');
    longer := run + [s'];
  }

  lemma {:induction false} ValidPrim(cfg: Config, rec: Record)
    requires ValidRecord(cfg, rec)
    ensures rec.prim in cfg.prims
  {
  }

  /** The consumer alone releases everything published. */
  lemma {:induction false} DrainRun(cfg: Config, run: seq<State>) returns (longer: seq<State>)
    requires Live(cfg, run)
    ensures GoesOn(cfg, run, longer)
    ensures var s, d := Last(run), Last(longer);
      d.taken == |d.pubs| && d.prod == s.prod && d.pubs == s.pubs && d.w == s.w && d.r == d.w
    decreases UnreadCount(Last(run)), if Last(run).taken < |Last(run).pubs| then Rank(cfg, Last(run)) else 0
  {
    hide Run, Inv, Rank, ConsumerStep, ConsumerCan;
    var s := Last(run);
    assert s.taken <= |s.pubs| by { CountBound(cfg, s); }
    if s.taken == |s.pubs| {
      longer := run;
      NothingToRead(cfg, s);
    } else {
      ConsumerAdvances(cfg, s);
      var s' := ConsumerStep(cfg, s);
      assert ConsumerNext(cfg, s, s');
      Extend(cfg, run, s');
      CountBound(cfg, s');
      longer := DrainRun(cfg, run + [s']);
    }
  }

  lemma {:induction false} CountBound(cfg: Config, s: State)
    requires Inv(cfg, s)
    ensures s.taken <= |s.pubs|
  {
    QueueCount(cfg, s);
  }

  // ------------------------------------------------------------------ a fetch

  function AfterFetch(pc: ProducerPc): ProducerPc {
    if pc.FetchHdr? then FetchConst else if pc.FetchConst? then WriteConst(0)
    else if pc.FetchStr? then WriteStr(0) else WriteHdr(0)
  }

  /** The layout with the chunk of fetch `pc` at `b`. */
  function SetChunk(l: Layout, pc: ProducerPc, b: Pos): Layout {
    if pc.FetchHdr? then l.(hdr := b) else if pc.FetchConst? then l.(cst := b)
    else if pc.FetchStr? then l.(str := b) else l.(tail := b)
  }

  /** The fetch is granted for the remembered reader position, or for the present one after a reload. */
  ghost predicate Grantable(cfg: Config, s: State)
    requires Fetching(s.prod) && ValidRecord(cfg, s.prod.rec)
  {
    var n := Asked(cfg, s.prod);
    || WFc(cfg.cap, n, s.prod.seen.off, s.prod.w.off) >= 0
    || (WFc(cfg.cap, n, s.prod.seen.off, s.prod.w.off) == WAIT_READER && WFc(cfg.cap, n, s.r.off, s.prod.w.off) >= 0)
  }

  /** The producer after a granted fetch. */
  ghost function Served(cfg: Config, s: State): Producer
    requires Fetching(s.prod) && ValidRecord(cfg, s.prod.rec)
  {
    var p, n := s.prod, Asked(cfg, s.prod);
    var b := Place(cfg.cap, p.w, n);
    p.(pc := AfterFetch(p.pc), w := After(b, n), at := SetChunk(p.at, p.pc, b),
       seen := if WFc(cfg.cap, n, p.seen.off, p.w.off) >= 0 then p.seen else s.r)
  }

  lemma {:induction false} FetchStepIs(cfg: Config, s: State)
    requires Inv(cfg, s) && Fetching(s.prod) && ValidRecord(cfg, s.prod.rec)
    requires WFc(cfg.cap, Asked(cfg, s.prod), s.prod.seen.off, s.prod.w.off) >= 0
    ensures ProducerStep(cfg, s) == s.(prod := Served(cfg, s))
  {
    hide Queue, Consuming, Output, Producing, ExtraLen, ConstOf, StrOf, HdrCells, ValidRecord;
    GrantWindow(cfg.cap, Asked(cfg, s.prod), s.prod.seen, s.prod.w);
  }

  lemma {:induction false} ReloadIs(cfg: Config, s: State)
    requires Fetching(s.prod) && ValidRecord(cfg, s.prod.rec)
    requires WFc(cfg.cap, Asked(cfg, s.prod), s.prod.seen.off, s.prod.w.off) == WAIT_READER
    ensures ProducerStep(cfg, s) == s.(prod := s.prod.(seen := s.r))
  {
    hide WFc, ExtraLen, ConstOf, StrOf, HdrCells;
  }

  lemma {:induction false} FetchTurns(cfg: Config, run: seq<State>) returns (longer: seq<State>)
    requires Live(cfg, run)
    requires Fetching(Last(run).prod) && ValidRecord(cfg, Last(run).prod.rec) && Grantable(cfg, Last(run))
    ensures GoesOn(cfg, run, longer)
    ensures Last(longer) == Last(run).(prod := Served(cfg, Last(run)))
  {
    hide Run, Inv, WFc, ValidRecord, ProducerStep, Place, SetChunk;
    var s := Last(run);
    if WFc(cfg.cap, Asked(cfg, s.prod), s.prod.seen.off, s.prod.w.off) >= 0 {
      FetchStepIs(cfg, s);
      longer := ProducerTurn(cfg, run);
    } else {
      ReloadIs(cfg, s);
      var next := ProducerTurn(cfg, run);
      FetchStepIs(cfg, Last(next));
      longer := ProducerTurn(cfg, next);
    }
  }

  // ---------------------------------------------------------- writing a chunk

  predicate Writing(pc: ProducerPc) {
    pc.WriteConst? || pc.WriteStr? || pc.WriteHdr?
  }

  function AfterWrite(pc: ProducerPc): ProducerPc {
    if pc.WriteConst? then FetchStr else if pc.WriteStr? then FetchTail else Publish
  }

  /** The cells of the chunk being written. */
  ghost function ChunkCells(cfg: Config, p: Producer): seq<Cell>
    requires Writing(p.pc) && ValidRecord(cfg, p.rec)
  {
    if p.pc.WriteConst? then ConstOf(cfg, p.rec)
    else if p.pc.WriteStr? then StrOf(cfg, p.rec) else HdrCells(cfg, p.rec, p.at)
  }

  lemma {:induction false} ChunkFits(cfg: Config, s: State)
    requires Inv(cfg, s) && Writing(s.prod.pc)
    ensures ValidRecord(cfg, s.prod.rec)
    ensures 0 <= ChunkPos(s.prod).off && ChunkPos(s.prod).off + |ChunkCells(cfg, s.prod)| <= |s.mem|
    ensures s.prod.pc.n <= |ChunkCells(cfg, s.prod)|
  {
    hide Queue, Consuming, Output, Order, ConstOf, StrOf, HdrCells, Chain, Reached;
    ChunkRoom(cfg, s);
    ChunkBound(cfg, s);
  }

  lemma {:induction false} WriteStepIs(cfg: Config, s: State)
    requires Writing(s.prod.pc) && ValidRecord(cfg, s.prod.rec)
    ensures var c, n, s' := ChunkCells(cfg, s.prod), s.prod.pc.n, ProducerStep(cfg, s);
      if n < |c| then
        && Writing(s'.prod.pc) && s'.prod == s.prod.(pc := s'.prod.pc) && s'.prod.pc.n == n + 1
        && AfterWrite(s'.prod.pc) == AfterWrite(s.prod.pc)
        && ChunkPos(s'.prod) == ChunkPos(s.prod) && ChunkCells(cfg, s'.prod) == c
        && s' == s.(prod := s'.prod, mem := Store(s.mem, ChunkPos(s.prod).off + n, c[n]))
      else s' == s.(prod := s.prod.(pc := AfterWrite(s.prod.pc)))
  {
    hide ConstOf, StrOf, HdrCells, Store, ValidRecord;
  }

  lemma {:induction false} OverlayStore(mem: seq<byte>, pos: nat, c: seq<Cell>, n: nat)
    requires pos + |c| <= |mem| && n < |c|
    ensures Store(Overlay(mem, pos, c[..n]), pos + n, c[n]) == Overlay(mem, pos, c[..n + 1])
  {
    hide Overlay, Covers;
    var a, b := Store(Overlay(mem, pos, c[..n]), pos + n, c[n]), Overlay(mem, pos, c[..n + 1]);
    forall k | 0 <= k < |mem| ensures a[k] == b[k] {
      OverlayAt(mem, pos, c[..n], k);
      OverlayAt(mem, pos, c[..n + 1], k);
    }
  }

  /** From a state where the first `n` cells are stored over `before`, the producer stores the rest. */
  lemma {:induction false} WriteTurns(cfg: Config, run: seq<State>, before: seq<byte>) returns (longer: seq<State>)
    requires Live(cfg, run) && Writing(Last(run).prod.pc) && ValidRecord(cfg, Last(run).prod.rec)
    requires ChunkPos(Last(run).prod).off >= 0
    requires ChunkPos(Last(run).prod).off + |ChunkCells(cfg, Last(run).prod)| <= |before|
    requires Last(run).prod.pc.n <= |ChunkCells(cfg, Last(run).prod)|
    requires Last(run).mem == Overlay(before, ChunkPos(Last(run).prod).off, ChunkCells(cfg, Last(run).prod)[..Last(run).prod.pc.n])
    ensures GoesOn(cfg, run, longer)
    ensures var s := Last(run);
      Last(longer) == s.(prod := s.prod.(pc := AfterWrite(s.prod.pc)),
                         mem := Overlay(before, ChunkPos(s.prod).off, ChunkCells(cfg, s.prod)))
    decreases |ChunkCells(cfg, Last(run).prod)| - Last(run).prod.pc.n
  {
    hide Run, Inv, ChunkCells, ChunkPos, Store, Overlay, ProducerStep, ValidRecord;
    var s := Last(run);
    var c, n := ChunkCells(cfg, s.prod), s.prod.pc.n;
    WriteStepIs(cfg, s);
    longer := ProducerTurn(cfg, run);
    if n < |c| {
      OverlayStore(before, ChunkPos(s.prod).off, c, n);
      longer := WriteTurns(cfg, longer, before);
    } else {
      assert c[..n] == c;
    }
  }

  lemma {:induction false} PartlyOverlay(mem: seq<byte>, pos: nat, c: seq<Cell>, n: nat)
    requires Partly(mem, pos, c, n) && pos + |c| <= |mem|
    ensures Overlay(mem, pos, c[..n]) == mem
  {
    hide Overlay, Covers;
    var m := Overlay(mem, pos, c[..n]);
    forall k | 0 <= k < |mem| ensures m[k] == mem[k] {
      OverlayAt(mem, pos, c[..n], k);
    }
  }

  lemma {:induction false} ChunkSoFar(cfg: Config, s: State)
    requires Inv(cfg, s) && Writing(s.prod.pc)
    ensures ValidRecord(cfg, s.prod.rec)
    ensures Partly(s.mem, ChunkPos(s.prod).off, ChunkCells(cfg, s.prod), s.prod.pc.n)
  {
    hide Queue, Consuming, Output, Order, ConstOf, StrOf, HdrCells, Chain, Reached, Partly;
  }

  /** The rest of the chunk under way. */
  lemma {:induction false} WriteChunk(cfg: Config, run: seq<State>) returns (longer: seq<State>)
    requires Live(cfg, run) && Writing(Last(run).prod.pc)
    ensures GoesOn(cfg, run, longer) && ValidRecord(cfg, Last(run).prod.rec)
    ensures var s := Last(run);
      && 0 <= ChunkPos(s.prod).off && ChunkPos(s.prod).off + |ChunkCells(cfg, s.prod)| <= |s.mem|
      && Last(longer) == s.(prod := s.prod.(pc := AfterWrite(s.prod.pc)),
                            mem := Overlay(s.mem, ChunkPos(s.prod).off, ChunkCells(cfg, s.prod)))
  {
    hide Run, Inv, ChunkCells, ChunkPos, Partly, Overlay;
    var s := Last(run);
    ChunkFits(cfg, s);
    ChunkSoFar(cfg, s);
    PartlyOverlay(s.mem, ChunkPos(s.prod).off, ChunkCells(cfg, s.prod), s.prod.pc.n);
    longer := WriteTurns(cfg, run, s.mem);
  }

  // ------------------------------------------------------------ a whole call

  /** The published offset after a record that starts at `w`. */
  function NextOff(cap: int, w: int, c: nat, e: nat): int {
    var k := PlaceOff(cap, w, HDR_SIZE) + HDR_SIZE;
    var m := PlaceOff(cap, k, c) + c;
    var t := PlaceOff(cap, m, e) + e;
    Fold(cap, PlaceOff(cap, t, CACHE_INTERVAL) + CACHE_INTERVAL)
  }

  lemma {:induction false} PublishIs(cfg: Config, s: State)
    requires Inv(cfg, s) && s.prod.pc.Publish?
    ensures ValidRecord(cfg, s.prod.rec)
    ensures var s' := ProducerStep(cfg, s);
      && s' == s.(w := s'.w, prod := s.prod.(pc := Idle), pubs := s.pubs + [Placed(s.prod.rec, s.prod.at)])
      && s'.w.off == NextOff(cfg.cap, s.w.off, ConstSize(cfg, s.prod.rec), ExtraSize(cfg, s.prod.rec))
  {
    hide Queue, Consuming, Output, Order, Partly, ExtraLen, ConstOf, StrOf, HdrCells, PlaceOff, ValidConfig;
  }

  function Stage(pc: ProducerPc): nat {
    match pc
    case Idle => 8
    case FetchHdr => 7
    case FetchConst => 6
    case WriteConst(_) => 5
    case FetchStr => 4
    case WriteStr(_) => 3
    case FetchTail => 2
    case WriteHdr(_) => 1
    case Publish => 0
  }

  lemma {:induction false} GrantableNow(cfg: Config, s: State)
    requires Fetching(s.prod) && ValidRecord(cfg, s.prod.rec)
    requires WFc(cfg.cap, Asked(cfg, s.prod), s.r.off, s.prod.w.off) >= 0
    ensures Grantable(cfg, s)
  {
    hide ExtraLen, ValidRecord;
  }

  /** On a drained ring the producer alone finishes a call that is granted from there. */
  lemma {:induction false} FinishCall(cfg: Config, run: seq<State>) returns (longer: seq<State>)
    requires Live(cfg, run) && Last(run).taken == |Last(run).pubs| && Last(run).prod.pc != Idle
    requires ValidRecord(cfg, Last(run).prod.rec)
    requires AllGranted(cfg.cap, Last(run).r.off, Last(run).r.off,
                        ConstSize(cfg, Last(run).prod.rec), ExtraSize(cfg, Last(run).prod.rec))
    ensures GoesOn(cfg, run, longer)
    ensures var s, s' := Last(run), Last(longer);
      && s'.prod.pc == Idle && s'.taken == s.taken && |s'.pubs| == |s.pubs| + 1
      && s'.pubs[..|s.pubs|] == s.pubs && s'.pubs[|s.pubs|].rec == s.prod.rec
      && s'.w.off == NextOff(cfg.cap, s.w.off, ConstSize(cfg, s.prod.rec), ExtraSize(cfg, s.prod.rec))
    decreases Stage(Last(run).prod.pc)
  {
    hide Run, Inv, ChunkCells, ChunkPos, ValidRecord, AllGranted, NextOff, ProducerStep, Overlay, WFc, Place, SetChunk, Grantable;
    var s := Last(run);
    if s.prod.pc.Publish? {
      PublishIs(cfg, s);
      longer := ProducerTurn(cfg, run);
    } else {
      var next;
      if Fetching(s.prod) {
        FetchSucceeds(cfg, s);
        GrantableNow(cfg, s);
        next := FetchTurns(cfg, run);
      } else {
        next := WriteChunk(cfg, run);
      }
      longer := FinishCall(cfg, next);
    }
  }

  /** No log call of a record that meets the size condition is stuck: every run with such a call under way goes
      on, by steps of the consumer and of that producer, to one in which the record is published. */
  lemma {:induction false} CallCompletes(cfg: Config, run: seq<State>) returns (longer: seq<State>)
    requires Run(cfg, run) && run != [] && Last(run).prod.pc != Idle
    requires ValidRecord(cfg, Last(run).prod.rec) && SmallRecord(cfg, Last(run).prod.rec)
    ensures run <= longer && longer != [] && Run(cfg, longer)
    ensures var s, s' := Last(run), Last(longer);
      && s'.prod.pc == Idle && |s'.pubs| == |s.pubs| + 1
      && s'.pubs[..|s.pubs|] == s.pubs && s'.pubs[|s.pubs|].rec == s.prod.rec
  {
    hide Run, Inv, ExtraLen, AllGranted, NextOff, SmallEnough, Landing;
    RunIsLive(cfg, run);
    var drained := DrainRun(cfg, run);
    var d := Last(drained);
    ReaderLanding(cfg, drained, |drained| - 1);
    ReaderInside(cfg, d);
    SizesAligned(cfg, d.prod.rec);
    SmallIsGranted(cfg.cap, d.r.off, ConstSize(cfg, d.prod.rec), ExtraSize(cfg, d.prod.rec));
    longer := FinishCall(cfg, drained);
  }

  lemma {:induction false} ReaderInside(cfg: Config, s: State)
    requires Inv(cfg, s)
    ensures 0 <= s.r.off < cfg.cap && 0 <= s.w.off < cfg.cap && 0 <= s.prod.seen.off < cfg.cap
    ensures |s.mem| == cfg.cap && ValidConfig(cfg)
  {
    hide Queue, Producing, Consuming, Output, ValidConfig;
  }
}
