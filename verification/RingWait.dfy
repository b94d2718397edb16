/** A log call that waits for ever: what such a state is, and a run from an empty ring of the default capacity that
    gets there with records whose chunks are all within the limit. */
module RingWait {
  import opened Bytes
  import opened BytesBuffer
  import opened PrintfSpec
  import opened Codec
  import opened RecordChunks
  import opened RingProtocol
  import opened RingInvariant
  import opened RingReader
  import opened RingTheorems
  import opened RingProgress
  import opened RingCall

  // ------------------------------------------------------- waiting for ever

  /** The producer knows the present reader position, everything is read, and still it is told to wait. */
  ghost predicate Waiting(cfg: Config, s: State) {
    && Fetching(s.prod) && ValidRecord(cfg, s.prod.rec) && s.taken == |s.pubs| && s.prod.seen == s.r
    && WFc(cfg.cap, Asked(cfg, s.prod), s.r.off, s.prod.w.off) == WAIT_READER
  }

  lemma {:induction false} WaitStep(cfg: Config, s: State, s': State)
    requires Inv(cfg, s) && Waiting(cfg, s) && Step(cfg, s, s')
    ensures s' == s.(cons := s'.cons)
  {
    hide Inv, WFc, ExtraLen, ConstOf, StrOf, HdrCells, ValidConfig;
    if ProducerNext(cfg, s, s') {
      ReloadIs(cfg, s);
    } else {
      NothingToRead(cfg, s);
      CheckEnds(cfg, s);
    }
  }

  lemma {:induction false} CheckEnds(cfg: Config, s: State)
    requires Inv(cfg, s) && s.taken == |s.pubs|
    ensures s.cons.pc.Check? ==> s.r.off == s.cons.snap
  {
    hide Order, Producing, Output, ValidConfig, RecordAt;
    NothingToRead(cfg, s);
  }

  /** Such a wait never ends: in every continuation the producer, its record, the reader and everything published
      and released stay as they are. */
  lemma {:induction false} WaitNeverEnds(cfg: Config, run: seq<State>, i: nat, j: nat)
    requires Run(cfg, run) && i <= j < |run| && Waiting(cfg, run[i])
    ensures run[j] == run[i].(cons := run[j].cons)
  {
    hide Inv, Init, ValidConfig, Step, Waiting;
    if i < j {
      WaitNeverEnds(cfg, run, i, j - 1);
      RunInv(cfg, run, j - 1);
      StaysWaiting(cfg, run[i], run[j - 1]);
      WaitStep(cfg, run[j - 1], run[j]);
    }
  }

  lemma {:induction false} StaysWaiting(cfg: Config, s: State, s': State)
    requires Waiting(cfg, s) && s' == s.(cons := s'.cons)
    ensures Waiting(cfg, s')
  {
  }

  // ------------------------------------------------------------- getting there

  /** One log call from a drained ring, published and released. */
  lemma {:induction false} LogAndDrain(cfg: Config, run: seq<State>, rec: Record) returns (longer: seq<State>)
    requires Live(cfg, run) && Last(run).prod.pc == Idle && Last(run).taken == |Last(run).pubs| && ValidRecord(cfg, rec)
    requires AllGranted(cfg.cap, Last(run).r.off, Last(run).r.off, ConstSize(cfg, rec), ExtraSize(cfg, rec))
    ensures GoesOn(cfg, run, longer)
    ensures var s, s' := Last(run), Last(longer);
      && s'.prod.pc == Idle && s'.taken == |s'.pubs| && s'.r == s'.w
      && s'.w.off == NextOff(cfg.cap, s.w.off, ConstSize(cfg, rec), ExtraSize(cfg, rec))
  {
    hide Run, Inv, AllGranted, NextOff, ValidRecord;
    ValidPrim(cfg, rec);
    longer := StartTurn(cfg, run, rec);
    longer := FinishCall(cfg, longer);
    longer := DrainRun(cfg, longer);
  }

  /** The default capacity, and one call site with the format "%s". */
  function Site(): Config {
    Config(1048576, map[0 := Primitive("%s", [Spec(0, 2, 0, 0, 0, {}, 's', STR)], 8, 0)], (s, d) => [], 2048)
  }

  /** A call at that site with a string of `n` characters. */
  function Call(n: nat): Record {
    Record(0, 0, 0, [Arg(0, 0, Str(seq(n, i => 120)))])
  }

  lemma {:induction false} SiteValid()
    ensures ValidConfig(Site())
  {
    var specs := Site().prims[0].specs;
    assert specs[1..] == [];
  }

  lemma {:induction false} CallSizes(n: nat)
    requires n < 1000000
    ensures ValidRecord(Site(), Call(n)) && ConstSize(Site(), Call(n)) == 8 && ExtraSize(Site(), Call(n)) == SlotSize(n)
  {
    var specs, args := Specs(Site(), Call(n)), Call(n).args;
    assert specs[1..] == [] && args[1..] == [];
    assert WellTyped(specs[0], args[0]) && Copied(specs[0], args[0], 0) == args[0].val.s;
    var ss := Strings(specs, args, 0);
    assert Strings(specs[1..], args[1..], 1) == [];
    assert ss == [args[0].val.s] + Strings(specs[1..], args[1..], 1);
    assert ss == [args[0].val.s];
    assert ss[1..] == [];
    assert SlotSizes(ss) == SlotSize(n) && SlotSize(n) < 1000010;
  }

  /** An empty ring, with nothing left over. */
  function Empty(): State {
    State(seq(1048576, i => 0), Pos(0, 0), Pos(0, 0),
          Producer(Idle, Pos(0, 0), Pos(0, 0), Call(0), Layout(Pos(0, 0), Pos(0, 0), Pos(0, 0), Pos(0, 0), Pos(0, 0))),
          Consumer(Rest, 0, 0), [], 0, [])
  }

  lemma {:induction false} EmptyLive()
    ensures Live(Site(), [Empty()])
  {
    hide Inv;
    SiteValid();
    RunIsLive(Site(), [Empty()]);
  }

  /** Two calls leave the drained ring at 524384; a third one, whose chunks are as much within the limit, waits there
      for room behind its strings. */
  lemma {:induction false} RecordCanWait() returns (run: seq<State>)
    ensures Run(Site(), run) && run != [] && Waiting(Site(), Last(run))
    ensures var s := Last(run);
      && s.r.off == s.w.off == 524384 && s.prod.pc == FetchTail && s.prod.rec == Call(524159)
      && ConstSize(Site(), s.prod.rec) == 8 && ExtraSize(Site(), s.prod.rec) == 524160 == Site().cap / 2 - CACHE_INTERVAL
  {
    hide Run, Inv, ValidRecord, Site, Call, WFc, AllGranted, NextOff, SlotSize;
    EmptyLive();
    run := [Empty()];
    Sizes();
    run := LogAndDrain(Site(), run, Call(524007));
    run := LogAndDrain(Site(), run, Call(0));
    run := StartTurn(Site(), run, Call(524159));
    run := ToTail(run);
  }

  /** The third call, up to the fetch it cannot get through. */
  lemma {:induction false} ToTail(run: seq<State>) returns (longer: seq<State>)
    requires Live(Site(), run) && Last(run).prod.pc == FetchHdr && Last(run).prod.rec == Call(524159)
    requires Last(run).taken == |Last(run).pubs| && Last(run).r == Last(run).w == Last(run).prod.w && Last(run).r.off == 524384
    ensures GoesOn(Site(), run, longer) && Waiting(Site(), Last(longer)) && Last(longer).prod.pc == FetchTail
    ensures Last(longer).r == Last(run).r && Last(longer).w == Last(run).w && Last(longer).prod.rec == Last(run).prod.rec
  {
    hide Run, Inv, ValidRecord, Site, Call, ExtraLen, ConstOf, StrOf, HdrCells, Overlay, ProducerStep;
    Sizes();
    longer := run;
    GrantableNow(Site(), Last(longer));
    longer := FetchTurns(Site(), longer);
    GrantableNow(Site(), Last(longer));
    longer := FetchTurns(Site(), longer);
    longer := WriteChunk(Site(), longer);
    GrantableNow(Site(), Last(longer));
    longer := FetchTurns(Site(), longer);
    longer := WriteChunk(Site(), longer);
    var t := Last(longer);
    SeenHere(Site(), t);
    ReloadIs(Site(), t);
    longer := ProducerTurn(Site(), longer);
  }

  /** A producer one lap ahead of the reader remembers a position in the reader's lap. */
  lemma {:induction false} SeenHere(cfg: Config, s: State)
    requires Inv(cfg, s) && s.prod.pc != Idle && s.prod.w.lap == s.r.lap + 1
    ensures s.prod.w.off < s.prod.seen.off <= s.r.off
  {
    hide Queue, Producing, Consuming, Output, ValidConfig;
  }

  lemma {:induction false} Sizes()
    ensures Site().cap == 1048576
    ensures forall n :: 0 <= n < 1000000 ==> ValidRecord(Site(), Call(n)) && ConstSize(Site(), Call(n)) == 8
    ensures ExtraSize(Site(), Call(524007)) == 524008 && ExtraSize(Site(), Call(0)) == 8
    ensures ExtraSize(Site(), Call(524159)) == 524160
    ensures AllGranted(1048576, 0, 0, 8, 524008) && NextOff(1048576, 0, 8, 524008) == 524192
    ensures AllGranted(1048576, 524192, 524192, 8, 8) && NextOff(1048576, 524192, 8, 8) == 524384
  {
    forall n: nat | 0 <= n < 1000000 ensures ValidRecord(Site(), Call(n)) && ConstSize(Site(), Call(n)) == 8 {
      CallSizes(n);
    }
    CallSizes(524007);
    CallSizes(0);
    CallSizes(524159);
  }
}
