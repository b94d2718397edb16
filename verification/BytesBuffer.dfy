/** The byte ring of one thread (haclog_bytes_buffer.c): where the writer may put a chunk, and how
    the two indices move. `WFc` reads only its arguments, so it is a function; the object's indices
    and bytes are updated in place. */
module BytesBuffer {
  import opened Bytes

  const CACHE_INTERVAL: int := 128

  const LIMIT_ERROR: int := -1
  const WAIT_READER: int := -2

  /** Where `n` contiguous bytes may be written by a writer at `w` that last saw the reader at `r`. */
  function WFc(cap: int, n: int, r: int, w: int): int {
    if n > cap / 2 - CACHE_INTERVAL then
      LIMIT_ERROR
    else if w >= r then
      var cw := cap - w;
      if cw > n then
        w
      else if cw < n then
        if r - CACHE_INTERVAL < n then WAIT_READER else 0
      else if r == 0 then
        WAIT_READER
      else
        w
    else
      var cw := r - w - CACHE_INTERVAL;
      if cw < n then WAIT_READER else w
  }

  /** `n` contiguous bytes do not fit between offset `w` and the end. */
  predicate Wraps(cap: int, w: int, n: int) {
    cap - w < n
  }

  /** Where `n` contiguous bytes go after offset `w`: there, or at 0 when they do not fit before the end. */
  function PlaceOff(cap: int, w: int, n: int): int {
    if Wraps(cap, w, n) then 0 else w
  }

  /** A grant is at the place that the sizes alone determine. */
  lemma {:induction false} GrantOff(cap: int, n: nat, r: int, w: int)
    requires 0 <= r < cap && 0 <= w <= cap && WFc(cap, n, r, w) >= 0
    ensures WFc(cap, n, r, w) == PlaceOff(cap, w, n) >= 0 && PlaceOff(cap, w, n) + n <= cap
  {
  }

  /** A position equal to the capacity is position 0. */
  function Fold(cap: int, pos: int): int {
    if pos == cap then 0 else pos
  }

  /** Byte `x` holds data that a reader at `r` has not passed, for a writer at `w`. */
  predicate Unread(r: int, w: int, x: int) {
    if w >= r then r <= x < w else r <= x || x < w
  }

  lemma {:induction false} GrantedByte(cap: int, n: int, r: int, w: int, x: int)
    requires 0 <= r < cap && 0 <= w <= cap && 0 <= n
    requires WFc(cap, n, r, w) >= 0
    ensures var v := WFc(cap, n, r, w);
      && (v <= x < v + n ==> !Unread(r, w, x))
      && (0 <= x < cap ==>
            (Unread(r, Fold(cap, v + n), x) <==> Unread(r, w, x) || v <= x < v + n || (v != w && w <= x)))
  {
  }

  /** A granted chunk lies in the buffer, misses every unread byte, keeps the interval to a reader
      ahead of it, and the advanced writer never folds onto that reader: the grown unread range is the
      old one, the chunk, and the tail skipped by a wrap. */
  lemma {:induction false} WFcGrant(cap: int, n: int, r: int, w: int)
    requires 0 <= r < cap && 0 <= w <= cap && 0 <= n
    requires WFc(cap, n, r, w) >= 0
    ensures var v := WFc(cap, n, r, w);
      && (v == w || (v == 0 && w >= r > 0 && cap - w < n))
      && v + n <= cap
      && (forall x :: v <= x < v + n ==> !Unread(r, w, x))
      && (v < r ==> v + n + CACHE_INTERVAL <= r)
      && (v + n == cap ==> r > 0)
      && (Fold(cap, v + n) == r ==> n == 0 && w == r)
      && (forall x :: 0 <= x < cap ==>
            (Unread(r, Fold(cap, v + n), x) <==>
              Unread(r, w, x) || v <= x < v + n || (v != w && w <= x)))
  {
    hide Unread;
    forall x
      ensures
        var v := WFc(cap, n, r, w);
        && (v <= x < v + n ==> !Unread(r, w, x))
        && (0 <= x < cap ==>
              (Unread(r, Fold(cap, v + n), x) <==> Unread(r, w, x) || v <= x < v + n || (v != w && w <= x)))
    {
      GrantedByte(cap, n, r, w, x);
    }
  }

  /** The grant is refused only for the stated reasons, so the answer is determined by the free space. */
  lemma {:induction false} WFcRefusal(cap: int, n: int, r: int, w: int)
    requires 0 <= r < cap && 0 <= w <= cap && 0 <= n
    ensures WFc(cap, n, r, w) == LIMIT_ERROR <==> 2 * n > cap - cap % 2 - 2 * CACHE_INTERVAL
    ensures WFc(cap, n, r, w) == WAIT_READER <==>
      && 2 * n <= cap - cap % 2 - 2 * CACHE_INTERVAL
      // neither at the writer ...
      && !(w + n <= cap && (w < r ==> w + n + CACHE_INTERVAL <= r) && (w + n == cap ==> r != 0))
      // ... nor, once the tail is too short, at the start
      && !(w >= r && cap - w < n && n + CACHE_INTERVAL <= r)
  {
  }

  class BytesBuffer {
    const capacity: int
    const buffer: array<byte>
    var w: int
    var r: int

    ghost predicate Valid()
      reads this
    {
      buffer.Length == capacity && capacity >= 2 * CACHE_INTERVAL && 0 <= w < capacity && 0 <= r < capacity
    }

    constructor (capacity: int)
      requires capacity >= 2 * CACHE_INTERVAL
      ensures Valid() && this.capacity == capacity && w == 0 && r == 0 && fresh(buffer)
    {
      this.capacity := capacity;
      this.buffer := new byte[capacity](_ => 0);
      this.w, this.r := 0, 0;
    }

    /** Publishes position `pos`; the end of the buffer is published as its start. */
    method WMove(pos: int) returns (ret: int)
      requires Valid()
      modifies this`w
      ensures Valid()
      ensures 0 <= pos <= capacity ==> ret == 0 && w == Fold(capacity, pos)
      ensures !(0 <= pos <= capacity) ==> ret == LIMIT_ERROR && w == old(w)
    {
      var p := pos;
      if p < 0 || p >= capacity {
        if p == capacity {
          p := 0;
        } else {
          return LIMIT_ERROR;
        }
      }
      w := p;
      ret := 0;
    }

    method RMove(pos: int) returns (ret: int)
      requires Valid()
      modifies this`r
      ensures Valid()
      ensures 0 <= pos <= capacity ==> ret == 0 && r == Fold(capacity, pos)
      ensures !(0 <= pos <= capacity) ==> ret == LIMIT_ERROR && r == old(r)
    {
      var p := pos;
      if p < 0 || p >= capacity {
        if p == capacity {
          p := 0;
        } else {
          return LIMIT_ERROR;
        }
      }
      r := p;
      ret := 0;
    }
  }

  /** `haclog_bytes_buffer_new`: a capacity below two intervals gives no buffer. */
  method New(capacity: int) returns (b: BytesBuffer?)
    ensures b == null <==> capacity < 2 * CACHE_INTERVAL
    ensures b != null ==> fresh(b) && b.Valid() && b.capacity == capacity && b.w == 0 && b.r == 0
  {
    if capacity < 2 * CACHE_INTERVAL {
      return null;
    }
    b := new BytesBuffer(capacity);
  }
}
