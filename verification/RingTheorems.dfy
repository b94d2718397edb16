/** What the ring protocol promises, over every run. */
module RingTheorems {
  import opened Bytes
  import opened BytesBuffer
  import opened Header
  import opened PrintfSpec
  import opened Codec
  import opened RingProtocol
  import opened RingInvariant
  import opened RingSteps
  import opened RingReader
  import Formatter

  /** The messages of the first `n` published records. */
  ghost function MessagesOf(cfg: Config, pubs: seq<Placed>, n: nat): (ms: seq<Message>)
    requires ValidConfig(cfg) && n <= |pubs|
    requires forall k :: 0 <= k < n ==> ValidRecord(cfg, pubs[k].rec)
    ensures |ms| == n
  {
    seq(n, k requires 0 <= k < n => MessageOf(cfg, pubs[k].rec))
  }

  /** In every state of every run, what the consumer has returned is exactly the messages of the first
      published records, in order, each once: time stamp, primitive and formatted text. */
  lemma {:induction false} ReturnedIsPrefix(cfg: Config, run: seq<State>, i: nat)
    requires Run(cfg, run) && i < |run|
    ensures var s := run[i];
      && s.taken <= |s.pubs|
      && (forall k :: 0 <= k < |s.pubs| ==> ValidRecord(cfg, s.pubs[k].rec))
      && s.out == MessagesOf(cfg, s.pubs, s.taken)
  {
    hide Order, Producing, Consuming, Run, RecordAt, Next, MessageOf, ValidRecord;
    RunInv(cfg, run, i);
    var s := run[i];
    assert forall k :: 0 <= k < |s.out| ==> s.out[k] == MessagesOf(cfg, s.pubs, s.taken)[k];
  }

  /** A step publishes one record, releases one, or does neither. */
  lemma {:induction false} StepShape(cfg: Config, s: State, s': State)
    requires Step(cfg, s, s')
    ensures
      || (s'.pubs == s.pubs && s'.taken == s.taken && s'.out == s.out && s'.w == s.w)
      || (&& s.prod.pc.Publish? && s'.pubs == s.pubs + [Placed(s.prod.rec, s.prod.at)]
          && s'.taken == s.taken && s'.out == s.out && s'.w == FoldPos(cfg.cap, s.prod.w))
      || (s.cons.pc.Release? && s'.pubs == s.pubs && s'.taken == s.taken + 1 && s.out <= s'.out && s'.w == s.w)
  {
    hide Init, ValidConfig, ValidRecord, Formatter.Step, DecodeArg, ConstOf, StrOf, HdrCells, WFc;
  }

  /** Published records stay published and returned messages stay returned. */
  lemma {:induction false} HistoryGrows(cfg: Config, run: seq<State>, i: nat, j: nat)
    requires Run(cfg, run) && i <= j < |run|
    ensures run[i].pubs <= run[j].pubs && run[i].out <= run[j].out && run[i].taken <= run[j].taken
  {
    hide Init, ValidConfig, Step;
    if i < j {
      HistoryGrows(cfg, run, i, j - 1);
      StepShape(cfg, run[j - 1], run[j]);
    }
  }

  /** The ring is empty to an observer of the two offsets exactly when every published record has been
      released; a full ring never looks empty. So `haclog_bytes_buffer_join` returns only when drained. */
  lemma {:induction false} EmptyIffDrained(cfg: Config, run: seq<State>, i: nat)
    requires Run(cfg, run) && i < |run|
    ensures run[i].r.off == run[i].w.off <==> run[i].taken == |run[i].pubs|
  {
    hide Run, Output, Producing, ValidConfig;
    RunInv(cfg, run, i);
    EmptyIffDrainedInv(cfg, run[i]);
  }

  lemma {:induction false} EmptyIffDrainedInv(cfg: Config, s: State)
    requires Inv(cfg, s)
    ensures s.r.off == s.w.off <==> s.taken == |s.pubs|
  {
    hide Output, Producing, ValidConfig, Queue;
    QueueCount(cfg, s);
    WindowShrink(cfg.cap, s.prod.seen, s.r, s.w, Front(s));
    if s.taken < |s.pubs| {
      UnreadBetween(cfg, s, s.taken);
    } else {
      NothingToRead(cfg, s);
    }
  }

  lemma {:induction false} NothingToRead(cfg: Config, s: State)
    requires Inv(cfg, s) && s.taken == |s.pubs|
    ensures s.r == s.w && (s.cons.pc.Rest? || s.cons.pc.Check?)
  {
    hide Output, Producing, ValidConfig, Queue, Order;
  }

  /** Between taking records the consumer never passes the writer position it loaded: it has released at
      most the records counted then, and meets that position exactly when it has released all of them. */
  lemma {:induction false} SnapshotReached(cfg: Config, run: seq<State>, i: nat)
    requires Run(cfg, run) && i < |run| && !run[i].cons.pc.Rest?
    ensures run[i].taken <= run[i].cons.upto <= |run[i].pubs|
    ensures run[i].cons.pc.Check? ==> (run[i].r.off == run[i].cons.snap <==> run[i].taken == run[i].cons.upto)
  {
    hide Run, Output, Producing, ValidConfig, Queue;
    RunInv(cfg, run, i);
    var s := run[i];
    QueueCount(cfg, s);
    if s.cons.pc.Check? && s.taken < s.cons.upto {
      SnapshotAhead(cfg, s, s.cons.upto);
    }
  }

  /** The start of a later record, or the published position, differs in offset from the reader's. */
  lemma {:induction false} SnapshotAhead(cfg: Config, s: State, m: nat)
    requires Inv(cfg, s) && s.taken < m <= |s.pubs|
    ensures s.r.off != StartOf(s, m).off
  {
    hide Output, Producing, ValidConfig, Consuming, RecordAt, ValidRecord;
    UnreadBetween(cfg, s, m - 1);
    var q := StartOf(s, m);
    assert q == Next(cfg.cap, s.pubs[m - 1].at);
    WindowShrink(cfg.cap, s.prod.seen, s.r, q, Front(s));
  }

  /** Reader and writer agree on the place of every header, whatever reader position the writer used. */
  lemma {:induction false} HeaderAgreed(cfg: Config, run: seq<State>, i: nat)
    requires Run(cfg, run) && i < |run| && run[i].cons.pc.ReadHdr?
    ensures var s := run[i];
      && s.taken < |s.pubs|
      && var rec, l := s.pubs[s.taken].rec, s.pubs[s.taken].at;
      && s.r.off == l.hdr.off == (if cfg.cap - l.start.off < HDR_SIZE then 0 else l.start.off)
      && 0 <= s.r.off && s.r.off + HDR_SIZE <= cfg.cap == |s.mem|
      && l.cst.off >= 0 && l.str.off >= 0 && l.tail.off >= 0 && ValidRecord(cfg, rec)
      && Decode(s.mem[s.r.off..s.r.off + HDR_SIZE]) == HeaderOf(cfg, rec, l)
  {
    hide Run, Inv, RecordAt, Encode, Decode, ExtraLen, Covers, Next, ConstOf, StrOf;
    RunInv(cfg, run, i);
    ReaderAtHeader(cfg, run[i]);
    UnreadBetween(cfg, run[i], run[i].taken);
    HeaderDecoded(cfg, run[i].mem, run[i].pubs[run[i].taken]);
  }

  lemma {:induction false} ReaderAtHeader(cfg: Config, s: State)
    requires Inv(cfg, s) && s.cons.pc.ReadHdr?
    ensures s.taken < |s.pubs| && s.r == s.pubs[s.taken].at.hdr && RecordAt(cfg, s.mem, s.pubs[s.taken]) && ValidConfig(cfg)
  {
    hide Order, Producing, Output, RecordAt, ValidConfig;
  }

  /** `x` is a byte of one of the four chunks of a placed record. */
  ghost predicate InRecord(cfg: Config, p: Placed, x: int)
    requires ValidRecord(cfg, p.rec)
  {
    !(&& Outside(x, p.at.hdr, HDR_SIZE) && Outside(x, p.at.cst, ConstSize(cfg, p.rec))
      && Outside(x, p.at.str, ExtraSize(cfg, p.rec)) && Outside(x, p.at.tail, CACHE_INTERVAL))
  }

  /** Every store of the producer, also of a call that later gives up, is inside the buffer and inside a chunk
      granted to the record under way. */
  lemma {:induction false} StoresInside(cfg: Config, run: seq<State>, i: nat)
    requires Run(cfg, run) && i < |run| && run[i].prod.pc != Idle
    ensures var s := run[i];
      && ValidRecord(cfg, s.prod.rec) && |s.mem| == cfg.cap
      && (Storing(cfg, s) ==>
            && var x := ChunkPos(s.prod).off + s.prod.pc.n;
            && 0 <= x < cfg.cap
            && InChunk(cfg, s, ChunkPos(s.prod), ChunkSize(cfg, s.prod), x))
  {
    hide Run, Queue, Consuming, Output, Producing, ConstOf, StrOf, ExtraLen;
    RunInv(cfg, run, i);
    ProducingChain(cfg, run[i]);
    if Storing(cfg, run[i]) {
      StoringInChunk(cfg, run[i]);
    }
  }

  /** No step of the producer, in any interleaving, changes a byte of a published record that has not been
      released. */
  lemma {:induction false} NoOverwrite(cfg: Config, run: seq<State>, i: nat, k: nat, x: int)
    requires Run(cfg, run) && i + 1 < |run| && ProducerNext(cfg, run[i], run[i + 1])
    requires run[i].taken <= k < |run[i].pubs|
    requires ValidRecord(cfg, run[i].pubs[k].rec) && InRecord(cfg, run[i].pubs[k], x)
    ensures 0 <= x < |run[i].mem| == |run[i + 1].mem| && run[i + 1].mem[x] == run[i].mem[x]
  {
    hide Run, Output, Consuming, Queue, Covers, ConstOf, StrOf, HdrCells, ExtraLen;
    RunInv(cfg, run, i);
    NoOverwriteInv(cfg, run[i], run[i + 1], k, x);
  }

  lemma {:induction false} NoOverwriteInv(cfg: Config, s: State, s': State, k: nat, x: int)
    requires Inv(cfg, s) && ProducerNext(cfg, s, s') && s.taken <= k < |s.pubs|
    requires ValidRecord(cfg, s.pubs[k].rec) && InRecord(cfg, s.pubs[k], x)
    ensures 0 <= x < |s.mem| == |s'.mem| && s'.mem[x] == s.mem[x]
  {
    hide Output, Consuming, Queue, Order, Producing, ConstOf, StrOf, HdrCells, ExtraLen, WFc, ValidConfig;
    UnreadInBuffer(cfg, s, k, x);
    if s.prod.pc != Idle && Storing(cfg, s) {
      StoringInChunk(cfg, s);
      MissesUnread(cfg, s, ChunkPos(s.prod), ChunkSize(cfg, s.prod), ChunkPos(s.prod).off + s.prod.pc.n, k);
    }
  }

  lemma {:induction false} UnreadInBuffer(cfg: Config, s: State, k: nat, x: int)
    requires Inv(cfg, s) && s.taken <= k < |s.pubs|
    requires ValidRecord(cfg, s.pubs[k].rec) && InRecord(cfg, s.pubs[k], x)
    ensures 0 <= x < |s.mem|
  {
    hide Output, Consuming, Producing, ConstOf, StrOf, HdrCells, ExtraLen, Covers, ValidConfig;
    assert RecordAt(cfg, s.mem, s.pubs[k]);
  }

  /** Everything the reader can see, apart from bytes outside unread records. */
  ghost predicate SameForReader(cfg: Config, s: State, s': State) {
    && s'.w == s.w && s'.r == s.r && s'.cons == s.cons
    && s'.pubs == s.pubs && s'.taken == s.taken && s'.out == s.out
    && forall k :: s.taken <= k < |s.pubs| ==> RecordAt(cfg, s'.mem, s.pubs[k])
  }

  /** Only the last step of a serialize is visible to the reader. In particular a serialize that gives up
      at a fetch, after whatever stores it made, leaves the reader-visible state as it found it. */
  lemma {:induction false} OnlyPublishVisible(cfg: Config, run: seq<State>, i: nat)
    requires Run(cfg, run) && i + 1 < |run| && ProducerNext(cfg, run[i], run[i + 1])
    requires !run[i].prod.pc.Publish?
    ensures SameForReader(cfg, run[i], run[i + 1])
  {
    hide Run, Output, Consuming, Order, Producing, RecordAt, ConstOf, StrOf, HdrCells, ExtraLen, WFc, ValidConfig;
    RunInv(cfg, run, i);
    ProducerInv(cfg, run[i], run[i + 1]);
  }

  /** The four chunks of the record under way are inside the buffer and pairwise disjoint, and the record
      wraps at most once. */
  lemma {:induction false} RecordWhole(cfg: Config, run: seq<State>, i: nat)
    requires Run(cfg, run) && i < |run| && run[i].prod.pc.Publish?
    ensures ValidRecord(cfg, run[i].prod.rec)
    ensures var l, c, e := run[i].prod.at, ConstSize(cfg, run[i].prod.rec), ExtraSize(cfg, run[i].prod.rec);
      && 0 <= l.hdr.off && l.hdr.off + HDR_SIZE <= cfg.cap && 0 <= l.cst.off && l.cst.off + c <= cfg.cap
      && 0 <= l.str.off && l.str.off + e <= cfg.cap && 0 <= l.tail.off && l.tail.off + CACHE_INTERVAL <= cfg.cap
      && (l.hdr.off + HDR_SIZE <= l.cst.off || l.cst.off + c <= l.hdr.off)
      && (l.hdr.off + HDR_SIZE <= l.str.off || l.str.off + e <= l.hdr.off)
      && (l.cst.off + c <= l.str.off || l.str.off + e <= l.cst.off)
      && (l.hdr.off + HDR_SIZE <= l.tail.off || l.tail.off + CACHE_INTERVAL <= l.hdr.off)
      && (l.cst.off + c <= l.tail.off || l.tail.off + CACHE_INTERVAL <= l.cst.off)
      && (l.str.off + e <= l.tail.off || l.tail.off + CACHE_INTERVAL <= l.str.off)
      && l.start.lap <= l.hdr.lap <= l.cst.lap <= l.str.lap <= l.tail.lap <= l.start.lap + 1
  {
    hide Run, Output, Consuming, Queue, Order, Covers, ConstOf, StrOf, HdrCells, ExtraLen, ValidConfig, Partly;
    RunInv(cfg, run, i);
    OwnChunksApart(cfg, run[i]);
  }

  /** Positions the reader can stand at: multiples of 8, at the start of the buffer or past a whole interval. */
  predicate Landing(off: int) {
    off % 8 == 0 && (off == 0 || off >= CACHE_INTERVAL)
  }

  /** Every record starts at such a position. */
  ghost predicate StartsLand(s: State) {
    Landing(s.w.off) && forall k :: 0 <= k < |s.pubs| ==> Landing(s.pubs[k].at.start.off)
  }

  lemma {:induction false} SizesAligned(cfg: Config, rec: Record)
    requires ValidConfig(cfg) && ValidRecord(cfg, rec)
    ensures ConstSize(cfg, rec) % 8 == 0 && ExtraSize(cfg, rec) % 8 == 0
  {
    ParamSizesAligned(Specs(cfg, rec));
    SlotsAligned(Strings(Specs(cfg, rec), rec.args, 0));
  }

  /** The chunks keep the alignment of the writer position they start from. */
  lemma {:induction false} ChainLands(cfg: Config, rec: Record, l: Layout)
    requires ValidConfig(cfg) && ValidRecord(cfg, rec) && Chain(cfg, rec, l, 4) && Landing(l.start.off)
    ensures Landing(Next(cfg.cap, l).off)
  {
    hide ExtraLen, ValidConfig, ValidRecord;
    SizesAligned(cfg, rec);
  }

  lemma {:induction false} StartsLandStep(cfg: Config, s: State, s': State)
    requires Inv(cfg, s) && Step(cfg, s, s') && StartsLand(s)
    ensures StartsLand(s')
  {
    hide Order, Queue, Consuming, Output, ValidConfig, ValidRecord, Step, Landing, Partly, Chain, Next, FoldPos;
    StepShape(cfg, s, s');
    if s.prod.pc.Publish? {
      ProducingChain(cfg, s);
      ChainLands(cfg, s.prod.rec, s.prod.at);
      NextIsWriter(cfg, s);
    }
  }

  lemma {:induction false} NextIsWriter(cfg: Config, s: State)
    requires Producing(cfg, s) && s.prod.pc.Publish?
    ensures s.prod.at.start == s.w && Next(cfg.cap, s.prod.at) == FoldPos(cfg.cap, s.prod.w)
  {
    hide Chain, Partly, ConstOf, StrOf, HdrCells;
  }

  /** In every run the reader's offset, and the writer's, is a multiple of 8, and 0 or at least 128. */
  lemma {:induction false} ReaderLanding(cfg: Config, run: seq<State>, i: nat)
    requires Run(cfg, run) && i < |run|
    ensures Landing(run[i].r.off) && StartsLand(run[i])
  {
    hide Inv, Step;
    if i > 0 {
      ReaderLanding(cfg, run, i - 1);
      RunInv(cfg, run, i - 1);
      StartsLandStep(cfg, run[i - 1], run[i]);
      RunInv(cfg, run, i);
      ReaderAtStart(cfg, run[i]);
    }
  }

  lemma {:induction false} ReaderAtStart(cfg: Config, s: State)
    requires Inv(cfg, s) && StartsLand(s)
    ensures Landing(s.r.off)
  {
    hide Order, Queue, Producing, Output, RecordAt, OnTrack, TextOf, HeaderOf, ValidConfig, ValidRecord, Next, Chain;
    QueueCount(cfg, s);
    if s.taken < |s.pubs| {
      UnreadBetween(cfg, s, s.taken);
    }
  }
}
