/** Publication and the consumer's steps keep the invariant; with RingSteps, every run does. */
module RingReader {
  import opened Bytes
  import opened Header
  import opened PrintfSpec
  import opened Codec
  import opened RingProtocol
  import opened RingInvariant
  import opened RingSteps
  import Formatter

  // ---------------------------------------------------------------- publish

  lemma {:induction false} PublishedReadable(cfg: Config, s: State)
    requires Inv(cfg, s) && s.prod.pc.Publish?
    ensures RecordAt(cfg, s.mem, Placed(s.prod.rec, s.prod.at))
  {
    hide Queue, Consuming, Output, Covers, Partly, ConstCells, StrCells, Encode, ExtraLen, Window;
    var rec, l := s.prod.rec, s.prod.at;
    ConstFits(cfg, rec);
    PartlyWhole(s.mem, l.hdr.off, HdrCells(cfg, rec, l));
    PartlyWhole(s.mem, l.cst.off, ConstOf(cfg, rec));
    PartlyWhole(s.mem, l.str.off, StrOf(cfg, rec));
  }

  lemma {:induction false} PublishOrder(cfg: Config, s: State)
    requires Inv(cfg, s) && s.prod.pc.Publish?
    ensures Order(cfg, ProducerStep(cfg, s))
    ensures Next(cfg.cap, s.prod.at) == ProducerStep(cfg, s).w
    ensures s.prod.at.start == s.w && Le(s.r, s.prod.at.hdr) && Le(s.w, ProducerStep(cfg, s).w)
  {
    hide Queue, Consuming, Output, Partly, ConstCells, StrCells, ExtraLen;
    FoldWindow(cfg.cap, s.prod.seen, s.prod.w);
  }

  lemma {:induction false} PublishQueue(cfg: Config, s: State)
    requires Inv(cfg, s) && s.prod.pc.Publish?
    ensures Queue(cfg, ProducerStep(cfg, s))
  {
    hide Consuming, Output, RecordAt, Producing, Order, Next;
    PublishOrder(cfg, s);
    PublishedReadable(cfg, s);
    ProducingChain(cfg, s);
    var s' := ProducerStep(cfg, s);
    assert forall k :: 0 <= k < |s.pubs| ==> s'.pubs[k] == s.pubs[k];
    assert forall k: nat :: k <= |s.pubs| ==> StartOf(s', k) == StartOf(s, k);
  }

  lemma {:induction false} PublishInv(cfg: Config, s: State)
    requires Inv(cfg, s) && s.prod.pc.Publish?
    ensures Inv(cfg, ProducerStep(cfg, s))
  {
    hide Queue, RecordAt, Order, OnTrack, TextOf, HeaderOf, MessageOf, Chain, Partly, DistanceTo;
    PublishOrder(cfg, s);
    PublishQueue(cfg, s);
    var s' := ProducerStep(cfg, s);
    assert forall k :: 0 <= k < |s.pubs| ==> s'.pubs[k] == s.pubs[k];
    assert forall k: nat :: k <= |s.pubs| ==> StartOf(s', k) == StartOf(s, k);
  }

  /** Every producer step, the start of a call included. */
  lemma {:induction false} ProducerInv(cfg: Config, s: State, s': State)
    requires Inv(cfg, s) && ProducerNext(cfg, s, s')
    ensures Inv(cfg, s')
  {
    hide Queue, Order, Producing, Consuming, Output, ProducerStep, Start, ValidConfig, ValidRecord, ConstOf, StrOf;
    if s.prod.pc == Idle {
      var rec :| ValidRecord(cfg, rec) && s' == Start(s, rec);
      StartInv(cfg, s, rec);
    } else {
      var pc := s.prod.pc;
      if pc.FetchHdr? {
        FetchHdrInv(cfg, s);
      } else if pc.FetchConst? {
        FetchConstInv(cfg, s);
      } else if pc.FetchStr? {
        FetchStrInv(cfg, s);
      } else if pc.FetchTail? {
        FetchTailInv(cfg, s);
      } else if pc.Publish? {
        PublishInv(cfg, s);
      } else if Storing(cfg, s) {
        StoreInv(cfg, s);
      } else {
        ChunkDoneInv(cfg, s);
      }
    }
  }

  // --------------------------------------------------------------- consumer

  /** Only the consumer moves and nothing it has taken or sees of the queue changes. */
  lemma {:induction false} OnlyConsumer(cfg: Config, s: State, s': State)
    requires Inv(cfg, s) && s' == s.(cons := s'.cons)
    ensures Order(cfg, s') && Queue(cfg, s') && Producing(cfg, s') && Output(cfg, s')
  {
    hide RecordAt, MessageOf, Chain, Partly, Window, Le;
    assert forall k: nat :: k <= |s.pubs| ==> StartOf(s', k) == StartOf(s, k);
  }

  /** Header, chunks and end of an unread record lie between the reader and the published position. */
  lemma {:induction false} UnreadBetween(cfg: Config, s: State, k: nat)
    requires Inv(cfg, s) && s.taken <= k < |s.pubs|
    ensures var l := s.pubs[k].at;
      && ValidRecord(cfg, s.pubs[k].rec) && Chain(cfg, s.pubs[k].rec, l, 4)
      && Le(l.start, l.hdr) && l.hdr == HeaderPos(cfg.cap, l.start)
      && Le(After(l.hdr, HDR_SIZE), End(l)) && Le(After(l.hdr, HDR_SIZE), Next(cfg.cap, l))
      && Le(s.r, l.hdr) && Le(Next(cfg.cap, l), s.w) && 0 <= Next(cfg.cap, l).off < cfg.cap
      && 0 <= l.hdr.off && l.hdr.off + HDR_SIZE <= cfg.cap && |s.mem| == cfg.cap
  {
    hide Consuming, Output, Producing, Covers, ExtraLen, ConstOf, StrOf;
    assert RecordAt(cfg, s.mem, s.pubs[k]);
  }

  /** Reader positions before the header of the first unread record. */
  lemma {:induction false} CheckInv(cfg: Config, s: State)
    requires Inv(cfg, s) && s.cons.pc.Check?
    ensures Inv(cfg, ConsumerStep(cfg, s))
  {
    hide Queue, Output, Producing, Order;
    var s' := ConsumerStep(cfg, s);
    if s.r.off == s.cons.snap {
      OnlyConsumer(cfg, s, s');
      assert StartOf(s', s.taken) == StartOf(s, s.taken);
    } else {
      assert s.taken < |s.pubs| by { assert StartOf(s, s.taken) != StartOf(s, s.cons.upto); }
      UnreadBetween(cfg, s, s.taken);
      HeaderReached(cfg, s, s');
      assert StartOf(s', s.cons.upto) == StartOf(s, s.cons.upto);
    }
  }

  lemma {:induction false} HeaderReached(cfg: Config, s: State, s': State)
    requires Inv(cfg, s) && s.taken < |s.pubs| && s.r == s.pubs[s.taken].at.start
    requires s' == s.(r := HeaderPos(cfg.cap, s.r), cons := s'.cons)
    ensures Order(cfg, s') && Queue(cfg, s') && Producing(cfg, s') && Output(cfg, s')
  {
    hide RecordAt, MessageOf, Chain, Partly, Consuming, ValidRecord, Next;
    var t := s.taken;
    UnreadBetween(cfg, s, t);
    assert forall k: nat :: k <= |s.pubs| ==> StartOf(s', k) == StartOf(s, k);
    forall k | t <= k < |s.pubs|
      ensures Le(s'.r, s.pubs[k].at.hdr)
    {
      UnreadBetween(cfg, s, k);
    }
  }

  lemma {:induction false} RestInv(cfg: Config, s: State)
    requires Inv(cfg, s) && s.cons.pc.Rest?
    ensures Inv(cfg, ConsumerStep(cfg, s))
  {
    hide Queue, Output, Producing, Order, RecordAt;
    var s' := ConsumerStep(cfg, s);
    OnlyConsumer(cfg, s, s');
    assert StartOf(s', s.taken) == StartOf(s, s.taken);
    assert s.taken <= |s.pubs| by { QueueCount(cfg, s); }
  }

  lemma {:induction false} QueueCount(cfg: Config, s: State)
    requires Queue(cfg, s)
    ensures s.taken <= |s.pubs|
  {
  }

  /** The header bytes decode to what the producer filled in. */
  lemma {:induction false} HeaderDecoded(cfg: Config, mem: seq<byte>, p: Placed)
    requires ValidConfig(cfg) && RecordAt(cfg, mem, p) && |mem| == cfg.cap
    ensures Decode(mem[p.at.hdr.off..p.at.hdr.off + HDR_SIZE]) == HeaderOf(cfg, p.rec, p.at)
  {
    hide ExtraLen, ConstOf, StrOf, Encode, Decode;
    var h := HeaderOf(cfg, p.rec, p.at);
    CoversVals(mem, p.at.hdr.off, Encode(h));
    HeaderRoundTrip(h);
  }

  lemma {:induction false} OnTrackAtStart(cfg: Config, rec: Record)
    requires ValidConfig(cfg) && ValidRecord(cfg, rec)
    ensures OnTrack(cfg, rec, 0, Formatter.State([], 0))
  {
    hide Formatter.Loop, Formatter.Finish, SeenAll;
    assert Specs(cfg, rec)[0..] == Specs(cfg, rec) && rec.args[0..] == rec.args;
  }

  lemma {:induction false} ReadHdrInv(cfg: Config, s: State)
    requires Inv(cfg, s) && s.cons.pc.ReadHdr?
    ensures ConsumerCan(cfg, s) && Inv(cfg, ConsumerStep(cfg, s))
  {
    hide Output, Producing, Order, Queue, RecordAt, Decode, Encode, OnTrack, ExtraLen, Chain, End, Le, Next;
    var p := s.pubs[s.taken];
    UnreadReadable(cfg, s);
    RecordValid(cfg, s.mem, p);
    UnreadBetween(cfg, s, s.taken);
    HeaderDecoded(cfg, s.mem, p);
    OnTrackAtStart(cfg, p.rec);
    var s' := ConsumerStep(cfg, s);
    OnlyConsumer(cfg, s, s');
    assert StartOf(s', s.cons.upto) == StartOf(s, s.cons.upto);
  }

  /** The arguments of a readable record can be read specification by specification. */
  lemma {:induction false} ArgsAtIndex(mem: seq<byte>, p: nat, posStr: nat, specs: seq<Spec>, args: seq<Arg>, i: nat)
    requires WellTypedAll(specs, args) && i <= |specs| && SlotSizes(Strings(specs, args, 0)) < P64
    requires ArgsAt(mem, p, posStr, specs, args, Cursor(0, 0))
    ensures ArgsAt(mem, p + DistanceTo(specs, i), posStr, specs[i..], args[i..], CursorAt(specs, args, i))
    ensures CursorAt(specs, args, i).extra + SlotSizes(Strings(specs[i..], args[i..], CursorAt(specs, args, i).nStr))
            == SlotSizes(Strings(specs, args, 0))
  {
    hide Covers, Strings, SlotSizes, ConstCells, StrCells, ArgsAt, DecodeArg, Seen;
    if i == 0 {
      assert specs[0..] == specs && args[0..] == args;
    } else {
      ArgsAtIndex(mem, p, posStr, specs, args, i - 1);
      var c := CursorAt(specs, args, i - 1);
      DecodeStep(mem, p + DistanceTo(specs, i - 1), posStr, specs[i - 1..], args[i - 1..], c);
      ExtraStep(specs[i - 1..], args[i - 1..], c);
      assert specs[i - 1..][1..] == specs[i..] && args[i - 1..][1..] == args[i..];
    }
  }

  /** What the consumer decodes for specification `i` is what was passed for it. */
  lemma {:induction false} ArgDecoded(cfg: Config, mem: seq<byte>, p: Placed, i: nat)
    requires RecordAt(cfg, mem, p) && i < |Specs(cfg, p.rec)|
    ensures var specs, q := Specs(cfg, p.rec), p.at.cst.off + DistanceTo(Specs(cfg, p.rec), i);
      && q + Distance(specs[i]) <= |mem|
      && DecodeArg(mem, q, specs[i], p.at.str.off) == Seen(specs[i], p.rec.args[i], CursorAt(specs, p.rec.args, i).nStr)
  {
    hide Covers, Strings, SlotSizes, ConstCells, StrCells, DecodeArg, Seen, HdrCells;
    var specs, args := Specs(cfg, p.rec), p.rec.args;
    ArgsAtIndex(mem, p.at.cst.off, p.at.str.off, specs, args, i);
    DecodeStep(mem, p.at.cst.off + DistanceTo(specs, i), p.at.str.off, specs[i..], args[i..], CursorAt(specs, args, i));
  }

  /** The shape of what remains to be formatted. */
  lemma {:induction false} OnTrackBounds(cfg: Config, rec: Record, i: nat, st: Formatter.State)
    requires ValidConfig(cfg) && ValidRecord(cfg, rec) && OnTrack(cfg, rec, i, st)
    ensures var fmt, specs := Fmt(cfg, rec), Specs(cfg, rec);
      && i <= |specs| && |st.out| < cfg.bufsize && st.pos <= |fmt|
      && (i < |specs| ==> st.pos <= specs[i].posBegin <= specs[i].posEnd <= |fmt|)
      && (i == |specs| ==> Formatter.Finish(fmt, cfg.bufsize - 1, st) == TextOf(cfg, rec))
  {
    hide Formatter.Step, Formatter.Finish, Seen, TextOf, ExtraLen;
    var fmt, specs := Fmt(cfg, rec), Specs(cfg, rec);
    Formatter.RangedBound(fmt, specs[i..], st.pos);
    if i < |specs| {
      Formatter.RangedBound(fmt, specs[i..][1..], specs[i].posEnd);
    }
  }

  /** Formatting specification `i` with what was passed for it keeps on track, or ends at the text. */
  lemma {:induction false} OnTrackStep(cfg: Config, rec: Record, i: nat, st: Formatter.State)
    requires ValidConfig(cfg) && ValidRecord(cfg, rec) && OnTrack(cfg, rec, i, st) && i < |Specs(cfg, rec)|
    requires |st.out| < cfg.bufsize && st.pos <= Specs(cfg, rec)[i].posBegin <= Specs(cfg, rec)[i].posEnd <= |Fmt(cfg, rec)|
    ensures var fmt, specs := Fmt(cfg, rec), Specs(cfg, rec);
      var d := Seen(specs[i], rec.args[i], CursorAt(specs, rec.args, i).nStr);
      var st' := Formatter.Step(fmt, specs[i], d, cfg.render, cfg.bufsize - 1, st);
      && (|st'.out| < cfg.bufsize - 1 ==> OnTrack(cfg, rec, i + 1, st'))
      && (|st'.out| >= cfg.bufsize - 1 ==> Formatter.Finish(fmt, cfg.bufsize - 1, st') == TextOf(cfg, rec))
  {
    hide Formatter.Finish, Formatter.PutConversion, Formatter.PutLiteral, Seen, TextOf, ExtraLen;
    var fmt, specs, args, cap := Fmt(cfg, rec), Specs(cfg, rec), rec.args, cfg.bufsize - 1;
    var c, c' := CursorAt(specs, args, i), CursorAt(specs, args, i + 1);
    var rest, seen := specs[i + 1..], SeenAll(specs[i + 1..], args[i + 1..], c'.nStr);
    assert specs[i..] == [specs[i]] + rest && specs[i..][1..] == rest && args[i..][1..] == args[i + 1..];
    assert SeenAll(specs[i..], args[i..], c.nStr) == [Seen(specs[i], args[i], c.nStr)] + seen;
    assert ([Seen(specs[i], args[i], c.nStr)] + seen)[1..] == seen;
    Formatter.RangedBound(fmt, rest, specs[i].posEnd);
  }

  lemma {:induction false} ReadArgsInv(cfg: Config, s: State)
    requires Inv(cfg, s) && s.cons.pc.ReadArgs?
    ensures ConsumerCan(cfg, s) && Inv(cfg, ConsumerStep(cfg, s))
  {
    hide Output, Producing, Queue, RecordAt, OnTrack, DecodeArg, Seen, TextOf, Formatter.Step, Formatter.Finish, ExtraLen;
    var p := s.pubs[s.taken];
    RecordValid(cfg, s.mem, p);
    OnTrackBounds(cfg, p.rec, s.cons.pc.i, s.cons.pc.st);
    if s.cons.pc.i < |Specs(cfg, p.rec)| {
      ArgDecoded(cfg, s.mem, p, s.cons.pc.i);
      OnTrackStep(cfg, p.rec, s.cons.pc.i, s.cons.pc.st);
    }
    var s' := ConsumerStep(cfg, s);
    OnlyConsumer(cfg, s, s');
    assert StartOf(s', s.cons.upto) == StartOf(s, s.cons.upto);
  }

  lemma {:induction false} RecordValid(cfg: Config, mem: seq<byte>, p: Placed)
    requires RecordAt(cfg, mem, p)
    ensures ValidRecord(cfg, p.rec)
  {
  }

  /** Releasing a record puts the reader at its end, in the same lap exactly when the offset grows. */
  lemma {:induction false} ReleasedIsNext(cfg: Config, s: State)
    requires Inv(cfg, s) && s.taken < |s.pubs| && s.r == s.pubs[s.taken].at.hdr
    ensures Released(cfg.cap, s.r, End(s.pubs[s.taken].at).off) == Next(cfg.cap, s.pubs[s.taken].at)
    ensures End(s.pubs[s.taken].at).off <= cfg.cap
  {
    hide Consuming, Output, Producing, Queue, ValidRecord, ValidConfig;
    UnreadBetween(cfg, s, s.taken);
    WindowShrink(cfg.cap, s.prod.seen, s.r, Next(cfg.cap, s.pubs[s.taken].at), Front(s));
  }

  lemma {:induction false} ReleaseInv(cfg: Config, s: State)
    requires Inv(cfg, s) && s.cons.pc.Release?
    ensures ConsumerCan(cfg, s) && Inv(cfg, ConsumerStep(cfg, s))
  {
    hide RecordAt, Producing, TextOf, ValidRecord, Next, End, Chain, Window;
    var t := s.taken;
    assert ValidRecord(cfg, s.pubs[t].rec);
    UnreadBetween(cfg, s, t);
    ReleasedIsNext(cfg, s);
    var s' := ConsumerStep(cfg, s);
    assert forall k: nat :: k <= |s.pubs| ==> StartOf(s', k) == StartOf(s, k);
    ReleaseQueue(cfg, s, s');
    assert Producing(cfg, s') by { ProducingKept(cfg, s, s'); }
  }

  lemma {:induction false} ProducingKept(cfg: Config, s: State, s': State)
    requires Producing(cfg, s) && s'.prod == s.prod && s'.mem == s.mem && s'.w == s.w
    ensures Producing(cfg, s')
  {
    hide Chain, Reached, Partly;
  }

  lemma {:induction false} ReleaseQueue(cfg: Config, s: State, s': State)
    requires Inv(cfg, s) && s.taken < |s.pubs| && s.r == s.pubs[s.taken].at.hdr
    requires s' == s.(r := Next(cfg.cap, s.pubs[s.taken].at), cons := s'.cons, taken := s.taken + 1, out := s'.out)
    ensures Order(cfg, s') && Queue(cfg, s')
  {
    hide RecordAt, Consuming, Output, Producing, ValidRecord, ValidConfig, Next, Window;
    var t := s.taken;
    UnreadBetween(cfg, s, t);
    assert forall k: nat :: k <= |s.pubs| ==> StartOf(s', k) == StartOf(s, k);
    forall k | t < k < |s.pubs|
      ensures Le(s'.r, s.pubs[k].at.hdr)
    {
      UnreadBetween(cfg, s, k);
    }
  }

  /** The consumer is never stuck: its next read is inside the buffer and the primitive is known. */
  lemma {:induction false} ConsumerNeverStuck(cfg: Config, s: State)
    requires Inv(cfg, s)
    ensures ConsumerCan(cfg, s)
  {
    match s.cons.pc
    case Rest =>
    case Check =>
    case ReadHdr => ReadHdrInv(cfg, s);
    case ReadArgs(_, _, _, _) => ReadArgsInv(cfg, s);
    case Release(_, _) => ReleaseInv(cfg, s);
  }

  lemma {:induction false} ConsumerInv(cfg: Config, s: State)
    requires Inv(cfg, s) && ConsumerCan(cfg, s)
    ensures Inv(cfg, ConsumerStep(cfg, s))
  {
    hide Inv, ConsumerStep, ConsumerCan;
    match s.cons.pc
    case Rest => RestInv(cfg, s);
    case Check => CheckInv(cfg, s);
    case ReadHdr => ReadHdrInv(cfg, s);
    case ReadArgs(_, _, _, _) => ReadArgsInv(cfg, s);
    case Release(_, _) => ReleaseInv(cfg, s);
  }

  /** Every state of every run. */
  lemma {:induction false} RunInv(cfg: Config, run: seq<State>, i: nat)
    requires Run(cfg, run) && i < |run|
    ensures Inv(cfg, run[i])
  {
    hide Inv, Init, ValidConfig, ProducerNext, ConsumerNext;
    if i == 0 {
      InitInv(cfg, run[0]);
    } else {
      RunInv(cfg, run, i - 1);
      StepInv(cfg, run[i - 1], run[i]);
    }
  }

  lemma {:induction false} StepInv(cfg: Config, s: State, s': State)
    requires Inv(cfg, s) && Step(cfg, s, s')
    ensures Inv(cfg, s')
  {
    hide Inv, ConsumerStep, ConsumerCan, ProducerNext;
    if ProducerNext(cfg, s, s') {
      ProducerInv(cfg, s, s');
    } else {
      ConsumerInv(cfg, s);
    }
  }
}
