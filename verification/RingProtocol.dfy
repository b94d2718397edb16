/** One producer thread and the backend on one byte ring, as interleaved atomic steps.

    The producer serializes a record in four chunks (header, fixed-size arguments, strings, interval)
    at positions granted by `WFc`, from a private writer position and a remembered reader position
    `seen` that may be arbitrarily old; only the last step publishes. The consumer loads the published
    position once and then takes records until it reaches that snapshot.

    A position carries the number of its lap beside its offset. Laps are bookkeeping for the proofs:
    every decision below is taken on offsets alone, as in the program. */
module RingProtocol {
  import opened Bytes
  import opened BytesBuffer
  import opened Header
  import opened PrintfSpec
  import opened Codec
  import Formatter

  datatype Pos = Pos(lap: int, off: int)

  predicate Le(a: Pos, b: Pos) {
    a.lap < b.lap || (a.lap == b.lap && a.off <= b.off)
  }

  /** `n` bytes further, within the lap. */
  function After(p: Pos, n: int): Pos {
    Pos(p.lap, p.off + n)
  }

  function FoldPos(cap: int, p: Pos): Pos {
    if p.off == cap then Pos(p.lap + 1, 0) else p
  }

  /** Where `n` contiguous bytes go after `w`: the offset is that of `PlaceOff`. */
  function Place(cap: int, w: Pos, n: int): (p: Pos)
    ensures p.off == PlaceOff(cap, w.off, n)
  {
    if Wraps(cap, w.off, n) then Pos(w.lap + 1, 0) else w
  }

  function HeaderPos(cap: int, start: Pos): Pos {
    Place(cap, start, HDR_SIZE)
  }

  /** One log call: time stamp, address of its primitive, arguments. */
  datatype Record = Record(sec: nat, nsec: nat, prim: nat, args: seq<Arg>)

  datatype Message = Message(sec: nat, nsec: nat, prim: nat, text: seq<char>)

  /** What never changes: capacity, primitives by address, `snprintf`, size of the output buffer. */
  datatype Config = Config(cap: int, prims: map<nat, Primitive>, render: Formatter.Render, bufsize: nat)

  const INT_MAX: int := 0x7fff_ffff

  ghost predicate ValidConfig(cfg: Config) {
    && 2 * CACHE_INTERVAL <= cfg.cap <= INT_MAX && cfg.bufsize >= 1
    && forall a :: a in cfg.prims ==>
         && a < P64
         && cfg.prims[a].paramSize == ParamSizes(cfg.prims[a].specs)
         && Formatter.Ranged(cfg.prims[a].fmt, cfg.prims[a].specs, 0)
  }

  ghost predicate ValidRecord(cfg: Config, rec: Record) {
    && rec.prim in cfg.prims && rec.sec < P64 && rec.nsec < P64
    && WellTypedAll(cfg.prims[rec.prim].specs, rec.args)
    && cfg.prims[rec.prim].paramSize <= INT_MAX
    && ExtraLen(cfg.prims[rec.prim].specs, rec.args) <= INT_MAX
  }

  function Specs(cfg: Config, rec: Record): seq<Spec>
    requires rec.prim in cfg.prims
  {
    cfg.prims[rec.prim].specs
  }

  function Fmt(cfg: Config, rec: Record): seq<char>
    requires rec.prim in cfg.prims
  {
    cfg.prims[rec.prim].fmt
  }

  function ConstSize(cfg: Config, rec: Record): nat
    requires rec.prim in cfg.prims
  {
    cfg.prims[rec.prim].paramSize
  }

  ghost function ExtraSize(cfg: Config, rec: Record): nat
    requires ValidRecord(cfg, rec)
  {
    ExtraLen(Specs(cfg, rec), rec.args)
  }

  ghost function ConstOf(cfg: Config, rec: Record): seq<Cell>
    requires ValidRecord(cfg, rec)
  {
    ConstCells(Specs(cfg, rec), rec.args, Cursor(0, 0))
  }

  ghost function StrOf(cfg: Config, rec: Record): seq<Cell>
    requires ValidRecord(cfg, rec)
  {
    StrCells(Strings(Specs(cfg, rec), rec.args, 0))
  }

  /** The text a reader of the record should get. */
  ghost function TextOf(cfg: Config, rec: Record): seq<char>
    requires ValidConfig(cfg) && ValidRecord(cfg, rec)
  {
    Formatter.Format(Fmt(cfg, rec), Specs(cfg, rec), SeenAll(Specs(cfg, rec), rec.args, 0), cfg.render, cfg.bufsize)
  }

  ghost function MessageOf(cfg: Config, rec: Record): Message
    requires ValidConfig(cfg) && ValidRecord(cfg, rec)
  {
    Message(rec.sec, rec.nsec, rec.prim, TextOf(cfg, rec))
  }

  /** Where a record was placed: writer position at its start, and its four chunks. */
  datatype Layout = Layout(start: Pos, hdr: Pos, cst: Pos, str: Pos, tail: Pos)

  datatype Placed = Placed(rec: Record, at: Layout)

  function End(l: Layout): Pos {
    After(l.tail, CACHE_INTERVAL)
  }

  function Next(cap: int, l: Layout): Pos {
    FoldPos(cap, End(l))
  }

  ghost function HeaderOf(cfg: Config, rec: Record, l: Layout): Header
    requires ValidRecord(cfg, rec)
    requires l.cst.off >= 0 && l.str.off >= 0 && l.tail.off >= 0
  {
    Header(rec.sec, rec.nsec, l.cst.off, l.str.off, ExtraSize(cfg, rec), End(l).off, rec.prim)
  }

  /** The header chunk; the positions are granted before it is written. */
  ghost function HdrCells(cfg: Config, rec: Record, l: Layout): (c: seq<Cell>)
    requires ValidRecord(cfg, rec)
    ensures |c| == HDR_SIZE
  {
    if l.cst.off >= 0 && l.str.off >= 0 && l.tail.off >= 0 then Vals(Encode(HeaderOf(cfg, rec, l))) else Pads(HDR_SIZE)
  }

  // ------------------------------------------------------------------ states

  datatype ProducerPc =
    | Idle | FetchHdr | FetchConst | WriteConst(n: nat) | FetchStr | WriteStr(n: nat)
    | FetchTail | WriteHdr(n: nat) | Publish

  /** `seen` is the thread-local reader position, `w` the private writer position. */
  datatype Producer = Producer(pc: ProducerPc, seen: Pos, w: Pos, rec: Record, at: Layout)

  datatype ConsumerPc =
    | Rest | Check | ReadHdr
    | ReadArgs(h: Header, i: nat, p: nat, st: Formatter.State)
    | Release(hdr: Header, text: seq<char>)

  /** `snap` is the loaded writer position; `upto` counts the records published when it was loaded. */
  datatype Consumer = Consumer(pc: ConsumerPc, snap: int, upto: nat)

  /** `mem`, `w.off` and `r.off` are shared. `pubs` lists every record ever published with its place,
      `taken` of which the consumer has released; `out` is what it has returned. */
  datatype State = State(mem: seq<byte>, w: Pos, r: Pos, prod: Producer, cons: Consumer,
                         pubs: seq<Placed>, taken: nat, out: seq<Message>)

  /** An empty ring; the thread-local reader position is a leftover below the capacity. */
  ghost predicate Init(cfg: Config, s: State) {
    && |s.mem| == cfg.cap
    && s.w == Pos(0, 0) && s.r == Pos(0, 0)
    && 0 <= s.prod.seen.off < cfg.cap
    && s.prod.seen.lap == (if s.prod.seen.off == 0 then 0 else -1)
    && s.prod.pc == Idle && s.cons.pc == Rest
    && s.pubs == [] && s.taken == 0 && s.out == []
  }

  // --------------------------------------------------------------- producer

  /** The start of the chunk that `WFc` answered with offset `v`. */
  function GrantPos(w: Pos, v: int): Pos {
    if v == w.off then w else Pos(w.lap + 1, v)
  }

  /** One turn of the fetch loop: give up, reload the reader position, or go on to `pc`. */
  function Fetch(cfg: Config, s: State, n: int, pc: ProducerPc, at: Pos -> Layout): State {
    var p := s.prod;
    var v := WFc(cfg.cap, n, p.seen.off, p.w.off);
    if v >= 0 then
      s.(prod := p.(pc := pc, w := After(GrantPos(p.w, v), n), at := at(GrantPos(p.w, v))))
    else if v == LIMIT_ERROR then
      s.(prod := p.(pc := Idle))
    else
      s.(prod := p.(seen := s.r))
  }

  /** Stores one cell at `off`, or leaves the byte alone. */
  function Store(mem: seq<byte>, off: int, c: Cell): seq<byte> {
    if c.Val? && 0 <= off < |mem| then mem[off := c.b] else mem
  }

  /** A log call begins: the private writer starts at the published one. */
  function Start(s: State, rec: Record): State {
    s.(prod := s.prod.(pc := FetchHdr, w := s.w, rec := rec, at := s.prod.at.(start := s.w)))
  }

  ghost function ProducerStep(cfg: Config, s: State): State
    requires s.prod.pc != Idle && ValidRecord(cfg, s.prod.rec)
  {
    var p := s.prod;
    var rec, at := p.rec, p.at;
    match p.pc
    case FetchHdr => Fetch(cfg, s, HDR_SIZE, FetchConst, v => at.(hdr := v))
    case FetchConst => Fetch(cfg, s, ConstSize(cfg, rec), WriteConst(0), v => at.(cst := v))
    case WriteConst(n) =>
      var c := ConstOf(cfg, rec);
      if n < |c| then s.(mem := Store(s.mem, at.cst.off + n, c[n]), prod := p.(pc := WriteConst(n + 1)))
      else s.(prod := p.(pc := FetchStr))
    case FetchStr => Fetch(cfg, s, ExtraSize(cfg, rec), WriteStr(0), v => at.(str := v))
    case WriteStr(n) =>
      var c := StrOf(cfg, rec);
      if n < |c| then s.(mem := Store(s.mem, at.str.off + n, c[n]), prod := p.(pc := WriteStr(n + 1)))
      else s.(prod := p.(pc := FetchTail))
    case FetchTail => Fetch(cfg, s, CACHE_INTERVAL, WriteHdr(0), v => at.(tail := v))
    case WriteHdr(n) =>
      var c := HdrCells(cfg, rec, at);
      if n < |c| then s.(mem := Store(s.mem, at.hdr.off + n, c[n]), prod := p.(pc := WriteHdr(n + 1)))
      else s.(prod := p.(pc := Publish))
    case Publish =>
      s.(w := FoldPos(cfg.cap, p.w), prod := p.(pc := Idle), pubs := s.pubs + [Placed(rec, at)])
  }

  ghost predicate ProducerNext(cfg: Config, s: State, s': State) {
    || (s.prod.pc == Idle && exists rec :: ValidRecord(cfg, rec) && s' == Start(s, rec))
    || (s.prod.pc != Idle && ValidRecord(cfg, s.prod.rec) && s' == ProducerStep(cfg, s))
  }

  // --------------------------------------------------------------- consumer

  /** `r_move` to offset `off` (at most the capacity). */
  function Released(cap: int, r: Pos, off: int): Pos {
    var o := Fold(cap, off);
    if o > r.off then Pos(r.lap, o) else Pos(r.lap + 1, o)
  }

  /** The step the consumer is about to take stays inside the buffer and the primitive. */
  ghost predicate ConsumerCan(cfg: Config, s: State) {
    match s.cons.pc
    case Rest => true
    case Check => true
    case ReadHdr => 0 <= s.r.off && s.r.off + HDR_SIZE <= |s.mem|
    case ReadArgs(h, i, p, st) =>
      && cfg.bufsize >= 1 && h.prim in cfg.prims
      && var fmt, specs := cfg.prims[h.prim].fmt, cfg.prims[h.prim].specs;
      && i <= |specs| && |st.out| < cfg.bufsize && st.pos <= |fmt|
      && (i < |specs| ==> st.pos <= specs[i].posBegin <= specs[i].posEnd <= |fmt| && p + Distance(specs[i]) <= |s.mem|)
    case Release(h, _) => h.posEnd <= cfg.cap
  }

  ghost function ConsumerStep(cfg: Config, s: State): State
    requires ConsumerCan(cfg, s)
  {
    var c := s.cons;
    match c.pc
    case Rest => s.(cons := Consumer(Check, s.w.off, |s.pubs|))
    case Check =>
      if s.r.off == c.snap then s.(cons := c.(pc := Rest))
      else s.(r := HeaderPos(cfg.cap, s.r), cons := c.(pc := ReadHdr))
    case ReadHdr =>
      var h := Decode(s.mem[s.r.off..s.r.off + HDR_SIZE]);
      s.(cons := c.(pc := ReadArgs(h, 0, h.posConst, Formatter.State([], 0))))
    case ReadArgs(h, i, p, st) =>
      var fmt, specs := cfg.prims[h.prim].fmt, cfg.prims[h.prim].specs;
      if i < |specs| then
        var d := DecodeArg(s.mem, p, specs[i], h.posStr);
        var st' := Formatter.Step(fmt, specs[i], d, cfg.render, cfg.bufsize - 1, st);
        if |st'.out| >= cfg.bufsize - 1 then
          s.(cons := c.(pc := Release(h, Formatter.Finish(fmt, cfg.bufsize - 1, st'))))
        else
          s.(cons := c.(pc := ReadArgs(h, i + 1, p + Distance(specs[i]), st')))
      else
        s.(cons := c.(pc := Release(h, Formatter.Finish(fmt, cfg.bufsize - 1, st))))
    case Release(h, text) =>
      s.(r := Released(cfg.cap, s.r, h.posEnd), cons := c.(pc := Check), taken := s.taken + 1,
         out := s.out + [Message(h.sec, h.nsec, h.prim, text)])
  }

  ghost predicate ConsumerNext(cfg: Config, s: State, s': State) {
    ConsumerCan(cfg, s) && s' == ConsumerStep(cfg, s)
  }

  ghost predicate Step(cfg: Config, s: State, s': State) {
    ProducerNext(cfg, s, s') || ConsumerNext(cfg, s, s')
  }

  /** Every state of a run from an empty ring, in order. */
  ghost predicate Run(cfg: Config, run: seq<State>) {
    && ValidConfig(cfg) && run != [] && Init(cfg, run[0])
    && forall i :: 0 < i < |run| ==> Step(cfg, run[i - 1], run[i])
  }
}
