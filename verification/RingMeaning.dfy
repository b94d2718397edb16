/** What a returned message says, in terms of the log call: nothing of the bytes in between is mentioned. */
module RingMeaning {
  import opened PrintfSpec
  import opened Codec
  import opened RingProtocol
  import opened RingTheorems
  import Formatter
  import Received

  /** Each message has the time stamp and the primitive of its call, and its text is the format with every conversion
      replaced by what is printed for the values that were passed; cut only when it does not fit. */
  lemma {:induction false} ReturnedMeans(cfg: Config, run: seq<State>, i: nat, k: nat) returns (ds: seq<Decoded>)
    requires Run(cfg, run) && i < |run| && k < run[i].taken
    ensures k < |run[i].pubs| && k < |run[i].out| && ValidRecord(cfg, run[i].pubs[k].rec) && ValidConfig(cfg)
    ensures
      var rec, m := run[i].pubs[k].rec, run[i].out[k];
      var fmt, specs := cfg.prims[rec.prim].fmt, cfg.prims[rec.prim].specs;
      && m.sec == rec.sec && m.nsec == rec.nsec && m.prim == rec.prim
      && Received.GotAll(specs, rec.args, ds)
      && Formatter.Ranged(fmt, specs, 0)
      && var full := Formatter.Interleave(fmt, specs, Formatter.Pieces(specs, ds, cfg.render), 0);
      && |full| == |Formatter.Converted(fmt, specs, ds, cfg.render, 0)|
      && m.text == Formatter.Cut(full, Formatter.Converted(fmt, specs, ds, cfg.render, 0), cfg.bufsize - 1)
      && (|full| + 2 <= cfg.bufsize ==> m.text == full)
  {
    hide Run, Formatter.Format, Formatter.Full, Formatter.Interleave, Formatter.Cut, Formatter.Converted, ExtraLen,
      SeenAll, Formatter.Ranged, WellTyped;
    ReturnedIsPrefix(cfg, run, i);
    RunConfig(cfg, run);
    var rec := run[i].pubs[k].rec;
    var fmt, specs := cfg.prims[rec.prim].fmt, cfg.prims[rec.prim].specs;
    ds := SeenAll(specs, rec.args, 0);
    assert run[i].out[k] == MessagesOf(cfg, run[i].pubs, run[i].taken)[k] == MessageOf(cfg, rec);
    Received.SeenAllMeans(specs, rec.args);
    Formatter.FullInterleaves(fmt, specs, ds, cfg.render, 0);
    Formatter.FormatIsCut(fmt, specs, ds, cfg.render, cfg.bufsize);
    Formatter.FormatExactIff(fmt, specs, ds, cfg.render, cfg.bufsize);
  }

  lemma {:induction false} RunConfig(cfg: Config, run: seq<State>)
    requires Run(cfg, run)
    ensures ValidConfig(cfg)
  {
  }
}
