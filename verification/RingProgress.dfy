/** When the producer can always go on: the exact record size, and why the limit on single chunks is not
    enough. */
module RingProgress {
  import opened BytesBuffer
  import opened Header
  import opened RecordChunks
  import opened Codec
  import opened RingProtocol
  import opened RingInvariant
  import opened RingReader
  import opened RingTheorems
  import Formatter

  function Max(a: int, b: int): int {
    if a > b then a else b
  }

  /** A condition on the sizes alone, which a caller can check before logging. */
  predicate SmallEnough(cap: int, c: nat, e: nat) {
    && cap >= 4 * CACHE_INTERVAL
    && HDR_SIZE + c + e + CACHE_INTERVAL + Max(CACHE_INTERVAL, Max(c, e)) + (CACHE_INTERVAL - 8) <= cap - cap % 8
  }

  lemma {:induction false} SmallIsGranted(cap: int, x: int, c: nat, e: nat)
    requires SmallEnough(cap, c, e) && c % 8 == 0 && e % 8 == 0 && 0 <= x < cap && Landing(x)
    ensures AllGranted(cap, x, x, c, e)
  {
    hide AllGranted;
    GrantedFrom(cap, cap - cap % 8, x, c, e);
  }

  /** `even` is the capacity without its last bytes: an aligned end behind the capacity is eight bytes behind `even`. */
  lemma {:induction false} GrantedFrom(cap: int, even: int, x: int, c: nat, e: nat)
    requires 0 <= x < cap && even <= cap < even + 8 && cap >= 4 * CACHE_INTERVAL
    requires HDR_SIZE + c + e + CACHE_INTERVAL + Max(CACHE_INTERVAL, Max(c, e)) + (CACHE_INTERVAL - 8) <= even
    requires x + HDR_SIZE <= cap || x + HDR_SIZE >= even + 8
    requires x + HDR_SIZE + c <= cap || x + HDR_SIZE + c >= even + 8
    requires x + HDR_SIZE + c + e <= cap || x + HDR_SIZE + c + e >= even + 8
    requires x + HDR_SIZE + c + e + CACHE_INTERVAL <= cap || x + HDR_SIZE + c + e + CACHE_INTERVAL >= even + 8
    ensures AllGranted(cap, x, x, c, e)
  {
  }

  lemma {:induction false} LargeIsRefused(cap: int, c: nat, e: nat)
    requires cap >= 2 * CACHE_INTERVAL && c % 8 == 0 && e % 8 == 0 && !SmallEnough(cap, c, e)
    ensures exists x :: 0 <= x < cap && Landing(x) && !AllGranted(cap, x, x, c, e)
  {
    // the end of the largest chunk of an unwrapped record: the writer stands eight bytes too far for it
    var sum :=
      if CACHE_INTERVAL >= c && CACHE_INTERVAL >= e then HDR_SIZE + c + e + CACHE_INTERVAL
      else if c >= e then HDR_SIZE + c
      else HDR_SIZE + c + e;
    var x := Max(CACHE_INTERVAL, cap - cap % 8 - sum + 8);
    assert Landing(x) && !AllGranted(cap, x, x, c, e);
  }

  /** From a drained ring, wherever reader and writer of a run can stand in it, all four fetches of a record of
      aligned sizes succeed if and only if the sizes meet the condition. */
  lemma {:induction false} DrainedGrantsIff(cap: int, c: nat, e: nat)
    requires cap >= 2 * CACHE_INTERVAL && c % 8 == 0 && e % 8 == 0
    ensures SmallEnough(cap, c, e) <==> forall x :: 0 <= x < cap && Landing(x) ==> AllGranted(cap, x, x, c, e)
  {
    hide AllGranted, Landing, SmallEnough;
    if SmallEnough(cap, c, e) {
      forall x | 0 <= x < cap && Landing(x)
        ensures AllGranted(cap, x, x, c, e)
      {
        SmallIsGranted(cap, x, c, e);
      }
    } else {
      LargeIsRefused(cap, c, e);
    }
  }

  /** Twice the record and one more interval always suffice, at any offset and for any sizes. */
  lemma {:induction false} TwiceIsEnough(cap: int, c: nat, e: nat)
    requires cap >= 4 * CACHE_INTERVAL && 2 * (HDR_SIZE + c + e + CACHE_INTERVAL) + CACHE_INTERVAL <= cap
    ensures forall x :: 0 <= x < cap ==> AllGranted(cap, x, x, c, e)
  {
  }

  /** Each chunk may be within the limit of `WFc` and the record still not fit: with the default capacity, a
      drained ring at 524384 and 524160 bytes of strings, the strings wrap to 0 and leave the interval too little
      room before the reader, although there is nothing left to read. `RingWait` shows a run that gets there. */
  lemma {:induction false} ChunkLimitNotEnough()
    ensures var cap, x, c, e := 1048576, 524384, 8, 524160;
      && HDR_SIZE <= cap / 2 - CACHE_INTERVAL && c <= cap / 2 - CACHE_INTERVAL
      && e <= cap / 2 - CACHE_INTERVAL && CACHE_INTERVAL <= cap / 2 - CACHE_INTERVAL
      && WFc(cap, HDR_SIZE, x, x) == x && WFc(cap, c, x, x + HDR_SIZE) == x + HDR_SIZE
      && WFc(cap, e, x, x + HDR_SIZE + c) == 0
      && WFc(cap, CACHE_INTERVAL, x, e) == WAIT_READER
      && !AllGranted(cap, x, x, c, e) && !SmallEnough(cap, c, e)
  {
  }

  // ------------------------------------------------------------ in a run

  ghost predicate SmallRecord(cfg: Config, rec: Record)
    requires ValidRecord(cfg, rec)
  {
    SmallEnough(cfg.cap, ConstSize(cfg, rec), ExtraSize(cfg, rec))
  }

  predicate Fetching(p: Producer) {
    p.pc.FetchHdr? || p.pc.FetchConst? || p.pc.FetchStr? || p.pc.FetchTail?
  }

  /** The number of bytes asked for. */
  ghost function Asked(cfg: Config, p: Producer): int
    requires Fetching(p) && ValidRecord(cfg, p.rec)
  {
    if p.pc.FetchHdr? then HDR_SIZE
    else if p.pc.FetchConst? then ConstSize(cfg, p.rec)
    else if p.pc.FetchStr? then ExtraSize(cfg, p.rec)
    else CACHE_INTERVAL
  }

  /** When everything published has been released, a fetch with the current reader position succeeds for a
      record that is granted from there. */
  lemma {:induction false} FetchSucceeds(cfg: Config, s: State)
    requires Inv(cfg, s) && s.taken == |s.pubs| && Fetching(s.prod) && ValidRecord(cfg, s.prod.rec)
    requires AllGranted(cfg.cap, s.r.off, s.r.off, ConstSize(cfg, s.prod.rec), ExtraSize(cfg, s.prod.rec))
    ensures WFc(cfg.cap, Asked(cfg, s.prod), s.r.off, s.prod.w.off) >= 0
  {
    hide Queue, Consuming, Output, ExtraLen, ConstOf, StrOf, HdrCells, Partly, Window, Le, WFc, PlaceOff;
    NothingToRead(cfg, s);
    var l, c, e, x := s.prod.at, ConstSize(cfg, s.prod.rec), ExtraSize(cfg, s.prod.rec), s.r.off;
    GrantOff(cfg.cap, HDR_SIZE, x, l.start.off);
    if Granted(s.prod.pc) >= 1 {
      GrantOff(cfg.cap, c, x, After(l.hdr, HDR_SIZE).off);
    }
    if Granted(s.prod.pc) >= 2 {
      GrantOff(cfg.cap, e, x, After(l.cst, c).off);
    }
  }

  function UnreadCount(s: State): int {
    |s.pubs| - s.taken
  }

  /** Steps the consumer still needs before it releases the next record, at most. */
  ghost function Rank(cfg: Config, s: State): int
    requires Inv(cfg, s) && s.taken < |s.pubs|
  {
    var n := |Specs(cfg, s.pubs[s.taken].rec)|;
    match s.cons.pc
    case Rest => n + 5
    case Check => if s.r.off == s.cons.snap then n + 6 else n + 4
    case ReadHdr => n + 3
    case ReadArgs(_, i, _, _) => n + 2 - i
    case Release(_, _) => 1
  }

  /** While a record is unread, every consumer step brings its release nearer. */
  lemma {:induction false} ConsumerAdvances(cfg: Config, s: State)
    requires Inv(cfg, s) && s.taken < |s.pubs|
    ensures ConsumerCan(cfg, s)
    ensures var s' := ConsumerStep(cfg, s);
      && Inv(cfg, s') && s'.prod == s.prod && s'.pubs == s.pubs && s'.w == s.w && Rank(cfg, s) >= 1
      && (UnreadCount(s') == UnreadCount(s) - 1 ||
          (UnreadCount(s') == UnreadCount(s) && Rank(cfg, s') < Rank(cfg, s)))
  {
    hide Inv, RecordAt, ValidConfig, TextOf, Decode, DecodeArg, Formatter.Step, Formatter.Finish, Specs, ValidRecord;
    ConsumerNeverStuck(cfg, s);
    ConsumerInv(cfg, s);
    EmptyIffDrainedInv(cfg, s);
    FirstUnread(cfg, s);
  }

  /** The consumer formats with the specifications of the first unread record. */
  lemma {:induction false} FirstUnread(cfg: Config, s: State)
    requires Inv(cfg, s) && s.taken < |s.pubs|
    ensures s.pubs[s.taken].rec.prim in cfg.prims
    ensures s.cons.pc.ReadArgs? ==>
      s.cons.pc.h.prim == s.pubs[s.taken].rec.prim && s.cons.pc.i <= |Specs(cfg, s.pubs[s.taken].rec)|
  {
    hide Order, Producing, Output, RecordAt, ExtraLen, ValidConfig, OnTrack, TextOf;
    RecordValid(cfg, s.mem, s.pubs[s.taken]);
    if s.cons.pc.ReadArgs? {
      OnTrackBounds(cfg, s.pubs[s.taken].rec, s.cons.pc.i, s.cons.pc.st);
    }
  }

  /** The state after the consumer, running alone, has released everything published. */
  ghost function Drained(cfg: Config, s: State): (d: State)
    requires Inv(cfg, s)
    ensures Inv(cfg, d) && d.taken == |d.pubs| && d.prod == s.prod && d.pubs == s.pubs && d.w == s.w
    decreases UnreadCount(s), if s.taken < |s.pubs| then Rank(cfg, s) else 0
  {
    assert s.taken <= |s.pubs| by { QueueCount(cfg, s); }
    if s.taken == |s.pubs| then s else
      ConsumerAdvances(cfg, s);
      Drained(cfg, ConsumerStep(cfg, s))
  }

  /** No run gets stuck: in every reachable state the consumer can take its next step, and a producer in a
      fetch for a record that meets the size condition is served, after the consumer has released what is
      published, by at most one reload of the reader position. */
  lemma {:induction false} NeverStuck(cfg: Config, run: seq<State>, i: nat)
    requires Run(cfg, run) && i < |run| && Fetching(run[i].prod)
    requires ValidRecord(cfg, run[i].prod.rec) && SmallRecord(cfg, run[i].prod.rec)
    ensures Inv(cfg, run[i]) && ConsumerCan(cfg, run[i])
    ensures var d := Drained(cfg, run[i]);
      var d1 := ProducerStep(cfg, d);
      || Granted(d1.prod.pc) == Granted(d.prod.pc) + 1
      || (d1 == d.(prod := d.prod.(seen := d.r)) && Granted(ProducerStep(cfg, d1).prod.pc) == Granted(d.prod.pc) + 1)
  {
    RunInv(cfg, run, i);
    ConsumerNeverStuck(cfg, run[i]);
    var d := Drained(cfg, run[i]);
    DrainedAt(cfg, run, i);
    SizesAligned(cfg, run[i].prod.rec);
    SmallIsGranted(cfg.cap, d.r.off, ConstSize(cfg, d.prod.rec), ExtraSize(cfg, d.prod.rec));
    FetchSucceeds(cfg, d);
    ServedSoon(cfg, d);
  }

  /** A drained ring stands where the published position was. */
  lemma {:induction false} DrainedAt(cfg: Config, run: seq<State>, i: nat)
    requires Run(cfg, run) && i < |run| && Inv(cfg, run[i])
    ensures var d := Drained(cfg, run[i]);
      0 <= d.r.off < cfg.cap && Landing(d.r.off) && d.r == d.w == run[i].w
  {
    hide Run, Drained, Queue, Producing, Consuming, Output;
    var d := Drained(cfg, run[i]);
    ReaderLanding(cfg, run, i);
    NothingToRead(cfg, d);
  }

  lemma {:induction false} ServedSoon(cfg: Config, d: State)
    requires Fetching(d.prod) && ValidRecord(cfg, d.prod.rec)
    requires WFc(cfg.cap, Asked(cfg, d.prod), d.r.off, d.prod.w.off) >= 0
    ensures var d1 := ProducerStep(cfg, d);
      || Granted(d1.prod.pc) == Granted(d.prod.pc) + 1
      || (d1 == d.(prod := d.prod.(seen := d.r)) && Granted(ProducerStep(cfg, d1).prod.pc) == Granted(d.prod.pc) + 1)
  {
    hide ExtraLen, ConstOf, StrOf, HdrCells;
  }
}
