/** Little-endian numbers in a byte buffer. */
module Bytes {

  type Byte = b: nat | b < 256

  function Pow256(n: nat): (p: nat)
    ensures p >= 1
  {
    if n == 0 then 1 else 256 * Pow256(n - 1)
  }

  /** The n-byte little-endian number at `off`. */
  function Le(buf: seq<Byte>, off: nat, n: nat): (v: nat)
    requires off + n <= |buf|
    ensures v < Pow256(n)
    decreases n
  {
    if n == 0 then 0 else buf[off] + 256 * Le(buf, off + 1, n - 1)
  }

  /** The buffer with the n low bytes of `v` stored at `off`. */
  function PutLe(buf: seq<Byte>, off: nat, n: nat, v: nat): (r: seq<Byte>)
    requires off + n <= |buf|
    ensures |r| == |buf|
    ensures forall i :: 0 <= i < |buf| && !(off <= i < off + n) ==> r[i] == buf[i]
    decreases n
  {
    if n == 0 then buf else PutLe(buf[off := v % 256], off + 1, n - 1, v / 256)
  }

  /** A number reads the same from buffers that agree on its bytes. */
  lemma {:induction false} LeSame(a: seq<Byte>, b: seq<Byte>, off: nat, n: nat)
    requires off + n <= |a| && off + n <= |b|
    requires forall i :: off <= i < off + n ==> a[i] == b[i]
    ensures Le(a, off, n) == Le(b, off, n)
    decreases n
  {
    if n > 0 {
      LeSame(a, b, off + 1, n - 1);
    }
  }

  /** What is stored is what is read back. */
  lemma {:induction false} LePut(buf: seq<Byte>, off: nat, n: nat, v: nat)
    requires off + n <= |buf| && v < Pow256(n)
    ensures Le(PutLe(buf, off, n, v), off, n) == v
    decreases n
  {
    if n > 0 {
      LePut(buf[off := v % 256], off + 1, n - 1, v / 256);
    }
  }

  /** Stores elsewhere do not change a number. */
  lemma {:induction false} LePutOther(buf: seq<Byte>, off: nat, n: nat, v: nat, at: nat, m: nat)
    requires off + n <= |buf| && at + m <= |buf|
    requires at + m <= off || off + n <= at
    ensures Le(PutLe(buf, off, n, v), at, m) == Le(buf, at, m)
  {
    LeSame(PutLe(buf, off, n, v), buf, at, m);
  }

  /** cpu_to_le16/32/64 and a store through a pointer. */
  method StoreLe(a: array<Byte>, off: nat, n: nat, v: nat)
    requires off + n <= a.Length
    modifies a
    ensures a[..] == PutLe(old(a[..]), off, n, v)
  {
    var i, rest := 0, v;
    while i < n
      invariant 0 <= i <= n
      invariant PutLe(a[..], off + i, n - i, rest) == PutLe(old(a[..]), off, n, v)
    {
      ghost var before := a[..];
      a[off + i] := rest % 256;
      assert a[..] == before[off + i := rest % 256];
      rest := rest / 256;
      i := i + 1;
    }
  }
}
