/** The ring as other parts see it: a queue of messages. This is what `Lifecycle` uses in its place. */
module RingFifo {
  import opened RingProtocol
  import opened RingTheorems

  /** All messages ever published, and how many of them the consumer has taken. */
  datatype Fifo = Fifo(msgs: seq<Message>, taken: nat)

  ghost predicate AllValid(cfg: Config, s: State) {
    ValidConfig(cfg) && forall k :: 0 <= k < |s.pubs| ==> ValidRecord(cfg, s.pubs[k].rec)
  }

  ghost function FifoOf(cfg: Config, s: State): Fifo
    requires AllValid(cfg, s)
  {
    Fifo(MessagesOf(cfg, s.pubs, |s.pubs|), s.taken)
  }

  /** Every step of the byte-level protocol is a step of a queue: it appends the message of the record
      being published, or hands out the oldest message that was not taken, or changes nothing. */
  lemma {:induction false} RefinesFifo(cfg: Config, run: seq<State>, i: nat)
    requires Run(cfg, run) && i + 1 < |run|
    ensures AllValid(cfg, run[i]) && AllValid(cfg, run[i + 1])
    ensures
      var s, s' := run[i], run[i + 1];
      var q, q' := FifoOf(cfg, s), FifoOf(cfg, s');
      || (q' == q && s'.out == s.out)
      || (&& s.prod.pc.Publish? && ValidRecord(cfg, s.prod.rec)
          && q' == Fifo(q.msgs + [MessageOf(cfg, s.prod.rec)], q.taken) && s'.out == s.out)
      || (q.taken < |q.msgs| && q' == Fifo(q.msgs, q.taken + 1) && s'.out == s.out + [q.msgs[q.taken]])
  {
    hide Run, Step, Init, ValidRecord, MessageOf;
    ReturnedIsPrefix(cfg, run, i);
    ReturnedIsPrefix(cfg, run, i + 1);
    RunFacts(cfg, run, i);
    var s, s' := run[i], run[i + 1];
    StepShape(cfg, s, s');
    var q, q' := FifoOf(cfg, s), FifoOf(cfg, s');
    if |s'.pubs| > |s.pubs| {
      assert s'.pubs[|s.pubs|].rec == s.prod.rec;
      assert q'.msgs == q.msgs + [MessageOf(cfg, s.prod.rec)];
    } else if s'.taken > s.taken {
      assert s'.out == s.out + [q.msgs[q.taken]];
    }
  }

  lemma {:induction false} RunFacts(cfg: Config, run: seq<State>, i: nat)
    requires Run(cfg, run) && i + 1 < |run|
    ensures ValidConfig(cfg) && Step(cfg, run[i], run[i + 1])
  {
    assert Step(cfg, run[i + 1 - 1], run[i + 1]);
  }
}
