/** Bytes, little-endian integers, and memory seen through cells that a writer may leave untouched. */
module Bytes {

  type byte = x: int | 0 <= x < 256

  const P32: int := 0x1_0000_0000
  const P64: int := 0x1_0000_0000_0000_0000

  function Pow256(n: nat): (p: int)
    ensures p >= 1
  {
    if n == 0 then 1 else 256 * Pow256(n - 1)
  }

  /** The `n` low-order bytes of `v`, least significant first. */
  function LE(v: nat, n: nat): (s: seq<byte>)
    ensures |s| == n
  {
    if n == 0 then [] else [v % 256] + LE(v / 256, n - 1)
  }

  function FromLE(s: seq<byte>): nat {
    if s == [] then 0 else s[0] + 256 * FromLE(s[1..])
  }

  lemma {:induction false} ModStep(v: nat, p: int)
    requires p >= 1
    ensures v % 256 + 256 * ((v / 256) % p) == v % (256 * p)
  {
    var q := v / 256;
    var k := q / p;
    assert q == p * k + q % p;
    var rest := v % 256 + 256 * (q % p);
    assert v == (256 * p) * k + rest by {
      assert 256 * (p * k) == (256 * p) * k;
    }
    assert 0 <= rest < 256 * p;
    DivModUnique(v, 256 * p, k, rest);
  }

  lemma {:induction false} DivModUnique(v: int, d: int, k: int, rest: int)
    requires d >= 1 && 0 <= rest < d && v == d * k + rest
    ensures v % d == rest
  {
    var k2, r2 := v / d, v % d;
    assert d * (k - k2) == r2 - rest;
    MulAtLeast(d, k - k2);
  }

  lemma {:induction false} MulAtLeast(d: int, k: int)
    requires d >= 1
    ensures k >= 1 ==> d * k >= d
    ensures k <= -1 ==> d * k <= -d
  {
  }

  /** Reading back what was written keeps exactly the low-order part. */
  lemma {:induction false} LERoundTrip(v: nat, n: nat)
    ensures FromLE(LE(v, n)) == v % Pow256(n)
  {
    if n == 0 {
    } else {
      LERoundTrip(v / 256, n - 1);
      assert LE(v, n)[1..] == LE(v / 256, n - 1);
      ModStep(v, Pow256(n - 1));
    }
  }

  /** On a little-endian machine the first bytes of a wide integer are the narrow integer. */
  lemma {:induction false} LEPrefix(v: nat, n: nat, m: nat)
    requires m <= n
    ensures LE(v, n)[..m] == LE(v, m)
  {
    if m == 0 {
    } else {
      LEPrefix(v / 256, n - 1, m - 1);
      assert LE(v, n)[..m] == [v % 256] + LE(v / 256, n - 1)[..m - 1];
    }
  }

  lemma {:induction false} Pows()
    ensures Pow256(1) == 0x100 && Pow256(2) == 0x1_0000 && Pow256(4) == P32 && Pow256(8) == P64
  {
    assert Pow256(2) == 256 * Pow256(1);
    assert Pow256(3) == 256 * Pow256(2);
    assert Pow256(4) == 256 * Pow256(3);
    assert Pow256(5) == 256 * Pow256(4);
    assert Pow256(6) == 256 * Pow256(5);
    assert Pow256(7) == 256 * Pow256(6);
  }

  /** What a copy does to one byte of memory: store a value, or leave the byte as it was. */
  datatype Cell = Val(b: byte) | Pad

  function Vals(s: seq<byte>): (c: seq<Cell>)
    ensures |c| == |s|
  {
    seq(|s|, i requires 0 <= i < |s| => Val(s[i]))
  }

  function Pads(n: nat): (c: seq<Cell>)
    ensures |c| == n
  {
    seq(n, i => Pad)
  }

  /** The cells `c` can be read in `mem` at `pos`. */
  ghost predicate Covers(mem: seq<byte>, pos: int, c: seq<Cell>) {
    0 <= pos && pos + |c| <= |mem| &&
    forall i :: 0 <= i < |c| && c[i].Val? ==> mem[pos + i] == c[i].b
  }

  /** Memory after the cells `c` are stored at `pos`. */
  function Overlay(mem: seq<byte>, pos: nat, c: seq<Cell>): (m: seq<byte>)
    requires pos + |c| <= |mem|
    ensures |m| == |mem|
    ensures Covers(m, pos, c)
    ensures m[..pos] == mem[..pos] && m[pos + |c|..] == mem[pos + |c|..]
  {
    seq(|mem|, i requires 0 <= i < |mem| =>
      if pos <= i < pos + |c| && c[i - pos].Val? then c[i - pos].b else mem[i])
  }

  lemma {:induction false} OverlayAt(mem: seq<byte>, pos: nat, c: seq<Cell>, k: nat)
    requires pos + |c| <= |mem| && k < |mem|
    ensures Overlay(mem, pos, c)[k] == if pos <= k < pos + |c| && c[k - pos].Val? then c[k - pos].b else mem[k]
  {
    hide Covers;
  }

  lemma {:induction false} CoversSplit(mem: seq<byte>, pos: int, a: seq<Cell>, b: seq<Cell>)
    requires Covers(mem, pos, a + b)
    ensures Covers(mem, pos, a) && Covers(mem, pos + |a|, b)
  {
    forall i | 0 <= i < |a| && a[i].Val?
      ensures mem[pos + i] == a[i].b
    {
      assert (a + b)[i] == a[i];
    }
    forall i | 0 <= i < |b| && b[i].Val?
      ensures mem[pos + |a| + i] == b[i].b
    {
      assert (a + b)[|a| + i] == b[i];
    }
  }

  lemma {:induction false} CoversVals(mem: seq<byte>, pos: int, s: seq<byte>)
    requires Covers(mem, pos, Vals(s))
    ensures mem[pos..pos + |s|] == s
  {
    forall i | 0 <= i < |s|
      ensures mem[pos..pos + |s|][i] == s[i]
    {
      assert Vals(s)[i] == Val(s[i]);
    }
  }

  /** An integer below 256^n that memory covers in `n` bytes is read back whole. */
  lemma {:induction false} ReadLE(mem: seq<byte>, pos: int, v: nat, n: nat)
    requires Covers(mem, pos, Vals(LE(v, n))) && v < Pow256(n)
    ensures FromLE(mem[pos..pos + n]) == v
  {
    CoversVals(mem, pos, LE(v, n));
    LERoundTrip(v, n);
    DivModUnique(v, Pow256(n), 0, v);
  }

  /** An integer stored in 8 bytes and read back from the first 4. */
  lemma {:induction false} ReadLENarrow(mem: seq<byte>, pos: int, v: nat)
    requires Covers(mem, pos, Vals(LE(v, 8)))
    ensures FromLE(mem[pos..pos + 4]) == v % P32
  {
    CoversVals(mem, pos, LE(v, 8));
    assert mem[pos..pos + 4] == mem[pos..pos + 8][..4];
    LEPrefix(v, 8, 4);
    LERoundTrip(v, 4);
    Pows();
  }
}
