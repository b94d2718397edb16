/** The four chunks of a record, seen from the free space of the ring. */
module RecordChunks {
  import opened BytesBuffer
  import opened Header

  /** The four chunks of a record with `c` bytes of arguments and `e` of strings are granted one after
      another to a writer at `w` while the reader stays at `r`. */
  predicate AllGranted(cap: int, r: int, w: int, c: nat, e: nat) {
    var v1 := WFc(cap, HDR_SIZE, r, w);
    && v1 >= 0
    && var v2 := WFc(cap, c, r, v1 + HDR_SIZE);
    && v2 >= 0
    && var v3 := WFc(cap, e, r, v2 + c);
    && v3 >= 0
    && WFc(cap, CACHE_INTERVAL, r, v3 + e) >= 0
  }

  /** Where the chunks of a record start. */
  datatype Chunks = Chunks(hdr: nat, cst: nat, str: nat, tail: nat)

  /** The size of the chunk that follows the first `granted` ones, and the writer position behind those. */
  function NextSize(granted: nat, c: nat, e: nat): nat {
    if granted == 0 then HDR_SIZE else if granted == 1 then c else if granted == 2 then e else CACHE_INTERVAL
  }

  function NextFrom(granted: nat, w: int, c: nat, e: nat, at: Chunks): int {
    if granted == 0 then w
    else if granted == 1 then at.hdr + HDR_SIZE
    else if granted == 2 then at.cst + c
    else at.str + e
  }
}
