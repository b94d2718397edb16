/** Log levels and the level filter (haclog_handler.c, `haclog_context_add_handler`). */
module Handlers {
  const FATAL: int := 1280
  const MAX_HANDLERS: nat := 8

  predicate ShouldWrite(handlerLevel: int, level: int) {
    !(level < handlerLevel)
  }

  /** The context's level after handlers with these levels were added, first one first. */
  function ContextLevel(levels: seq<int>): int {
    if levels == [] then FATAL
    else
      var before, l := ContextLevel(levels[..|levels| - 1]), levels[|levels| - 1];
      if l < before then l else before
  }

  /** The context's level is the least of the handlers' levels and FATAL. */
  lemma {:induction false} ContextLevelIsLeast(levels: seq<int>)
    ensures ContextLevel(levels) == FATAL || ContextLevel(levels) in levels
    ensures ContextLevel(levels) <= FATAL
    ensures forall i :: 0 <= i < |levels| ==> ContextLevel(levels) <= levels[i]
  {
    if levels != [] {
      ContextLevelIsLeast(levels[..|levels| - 1]);
    }
  }

  /** A log call: its level and its text as formatted by the backend. */
  datatype Call = Call(level: int, text: seq<char>)

  /** The calls a filter at level `min` lets through, in order. */
  function Admitted(min: int, calls: seq<Call>): seq<Call> {
    if calls == [] then []
    else
      var l := calls[|calls| - 1];
      Admitted(min, calls[..|calls| - 1]) + (if ShouldWrite(min, l.level) then [l] else [])
  }

  lemma {:induction false} AdmittedPush(min: int, calls: seq<Call>, c: Call)
    ensures Admitted(min, calls + [c]) == Admitted(min, calls) + (if ShouldWrite(min, c.level) then [c] else [])
  {
    assert (calls + [c])[..|calls|] == calls;
  }

  lemma {:induction false} AdmittedPrefix(min: int, calls: seq<Call>, n: nat)
    requires n <= |calls|
    ensures Admitted(min, calls[..n]) <= Admitted(min, calls)
    decreases |calls| - n
  {
    if n < |calls| {
      assert calls[..n + 1][..n] == calls[..n];
      AdmittedPrefix(min, calls, n + 1);
    } else {
      assert calls[..n] == calls;
    }
  }

  /** Filtering first at the context's level loses nothing a handler wants. */
  lemma {:induction false} AdmittedTwice(min: int, level: int, calls: seq<Call>)
    requires min <= level
    ensures Admitted(level, Admitted(min, calls)) == Admitted(level, calls)
  {
    if calls != [] {
      var front, l := calls[..|calls| - 1], calls[|calls| - 1];
      AdmittedTwice(min, level, front);
      if ShouldWrite(min, l.level) {
        AdmittedPush(level, Admitted(min, front), l);
      } else {
        assert Admitted(min, front) + [] == Admitted(min, front);
      }
    }
  }
}
