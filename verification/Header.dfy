/** The record header (`haclog_serialize_hdr_t` on LP64) and its bytes. */
module Header {
  import opened Bytes

  /** `sizeof(haclog_serialize_hdr_t)` */
  const HDR_SIZE: int := 48

  /** `sec` and `nsec` are the time stamp, `prim` the address of the primitive. */
  datatype Header = Header(sec: nat, nsec: nat, posConst: nat, posStr: nat, extraLen: nat, posEnd: nat, prim: nat)

  predicate Fits(h: Header) {
    && h.sec < P64 && h.nsec < P64 && h.posConst < P32 && h.posStr < P32
    && h.extraLen < P64 && h.posEnd < P64 && h.prim < P64
  }

  function Encode(h: Header): (s: seq<byte>)
    ensures |s| == HDR_SIZE
  {
    LE(h.sec, 8) + LE(h.nsec, 8) + LE(h.posConst, 4) + LE(h.posStr, 4) +
    LE(h.extraLen, 8) + LE(h.posEnd, 8) + LE(h.prim, 8)
  }

  function Decode(s: seq<byte>): Header
    requires |s| == HDR_SIZE
  {
    Header(FromLE(s[0..8]), FromLE(s[8..16]), FromLE(s[16..20]), FromLE(s[20..24]),
           FromLE(s[24..32]), FromLE(s[32..40]), FromLE(s[40..48]))
  }

  lemma {:induction false} FieldRoundTrip(v: nat, n: nat)
    requires v < Pow256(n)
    ensures FromLE(LE(v, n)) == v
  {
    LERoundTrip(v, n);
    DivModUnique(v, Pow256(n), 0, v);
  }

  lemma {:induction false} Slices(h: Header)
    ensures var s := Encode(h);
      && s[0..8] == LE(h.sec, 8) && s[8..16] == LE(h.nsec, 8)
      && s[16..20] == LE(h.posConst, 4) && s[20..24] == LE(h.posStr, 4)
      && s[24..32] == LE(h.extraLen, 8) && s[32..40] == LE(h.posEnd, 8) && s[40..48] == LE(h.prim, 8)
  {
    hide LE;
  }

  lemma {:induction false} HeaderRoundTrip(h: Header)
    requires Fits(h)
    ensures Decode(Encode(h)) == h
  {
    hide LE, FromLE, Encode;
    Slices(h);
    Pows();
    FieldRoundTrip(h.sec, 8);
    FieldRoundTrip(h.nsec, 8);
    FieldRoundTrip(h.posConst, 4);
    FieldRoundTrip(h.posStr, 4);
    FieldRoundTrip(h.extraLen, 8);
    FieldRoundTrip(h.posEnd, 8);
    FieldRoundTrip(h.prim, 8);
  }
}
