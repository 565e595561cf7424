/** Flat byte memories and the address lists that scatter-gather tables denote.

    Guest-physical memory is a sequence of bytes; frame `pfn` occupies the
    4096 bytes from `pfn * 4096`.  Backend memory (device memory and
    pinned host buffers, which CUDA keeps in one address space) is another such
    sequence. */
module Memory {

  type byte = x: int | 0 <= x < 256

  const U32: nat := 0x1_0000_0000
  const U64: nat := 0x1_0000_0000_0000_0000

  /** uint64_t arithmetic keeps the low 64 bits. */
  function Wrap64(x: nat): (r: nat)
    ensures r < U64 && (x < U64 ==> r == x) && (U64 <= x < 2 * U64 ==> r == x - U64)
  {
    x % 0x1_0000_0000_0000_0000
  }

  /** A contiguous piece of guest-physical memory: one virtqueue descriptor. */
  datatype Iov = Iov(base: nat, len: nat)

  /** A guest memory that the driver, the CPU and the host all write to. */
  class Phys {
    var bytes: seq<byte>

    constructor (contents: seq<byte>)
      ensures bytes == contents
    {
      bytes := contents;
    }
  }

  function Range(base: nat, n: nat): (r: seq<nat>)
    ensures |r| == n
    ensures forall i | 0 <= i < n :: r[i] == base + i
  {
    seq(n, i => base + i)
  }

  /** The addresses a descriptor list denotes, in transfer order. */
  function Addrs(sg: seq<Iov>): seq<nat> {
    if sg == [] then [] else Addrs(sg[..|sg| - 1]) + Range(sg[|sg| - 1].base, sg[|sg| - 1].len)
  }

  predicate InBounds(mem: seq<byte>, addrs: seq<nat>) {
    forall i | 0 <= i < |addrs| :: addrs[i] < |mem|
  }

  /** Reading a list of addresses. */
  function Gather(mem: seq<byte>, addrs: seq<nat>): (r: seq<byte>)
    requires InBounds(mem, addrs)
    ensures |r| == |addrs|
    ensures forall i | 0 <= i < |addrs| :: r[i] == mem[addrs[i]]
  {
    seq(|addrs|, i requires 0 <= i < |addrs| => mem[addrs[i]])
  }

  /** Writing `data[i]` to `addrs[i]`, in order. */
  function Scatter(mem: seq<byte>, addrs: seq<nat>, data: seq<byte>): (r: seq<byte>)
    requires InBounds(mem, addrs) && |addrs| == |data|
    ensures |r| == |mem|
  {
    if addrs == [] then mem
    else
      var n := |addrs| - 1;
      Scatter(mem, addrs[..n], data[..n])[addrs[n] := data[n]]
  }

  /** One contiguous copy into `mem` at `at`. */
  function Splice(mem: seq<byte>, at: nat, data: seq<byte>): (r: seq<byte>)
    requires at + |data| <= |mem|
    ensures |r| == |mem|
    ensures forall a | 0 <= a < |mem| :: r[a] == if at <= a < at + |data| then data[a - at] else mem[a]
  {
    mem[..at] + data + mem[at + |data|..]
  }

  function Read(mem: seq<byte>, at: nat, n: nat): (r: seq<byte>)
    requires at + n <= |mem|
    ensures |r| == n
  {
    mem[at..at + n]
  }

  lemma ReadAppend(mem: seq<byte>, at: nat, m: nat, n: nat)
    requires at + m + n <= |mem|
    ensures Read(mem, at, m + n) == Read(mem, at, m) + Read(mem, at + m, n)
  {
  }

  lemma ReadIsGather(mem: seq<byte>, at: nat, n: nat)
    requires at + n <= |mem|
    ensures InBounds(mem, Range(at, n)) && Read(mem, at, n) == Gather(mem, Range(at, n))
  {
  }

  lemma SpliceAppend(mem: seq<byte>, at: nat, x: seq<byte>, y: seq<byte>)
    requires at + |x| + |y| <= |mem|
    ensures Splice(Splice(mem, at, x), at + |x|, y) == Splice(mem, at, x + y)
  {
  }

  lemma {:induction false} AddrsSnoc(sg: seq<Iov>, e: Iov)
    ensures Addrs(sg + [e]) == Addrs(sg) + Range(e.base, e.len)
  {
    assert (sg + [e])[..|sg|] == sg;
  }

  /** Entry `j` owns exactly its own stretch of the denoted addresses. */
  lemma {:induction false} AddrsSlice(sg: seq<Iov>, j: nat)
    requires j < |sg|
    ensures Addrs(sg[..j + 1]) == Addrs(sg[..j]) + Range(sg[j].base, sg[j].len)
    ensures Addrs(sg[..j + 1]) <= Addrs(sg)
    decreases |sg|
  {
    assert sg[..j + 1][..j] == sg[..j];
    if j + 1 == |sg| {
      assert sg[..j + 1] == sg;
    } else {
      var pre := sg[..|sg| - 1];
      AddrsSlice(pre, j);
      assert pre[..j + 1] == sg[..j + 1];
    }
  }

  lemma {:induction false} ScatterAppend(mem: seq<byte>, a: seq<nat>, x: seq<byte>, b: seq<nat>, y: seq<byte>)
    requires |a| == |x| && |b| == |y| && InBounds(mem, a) && InBounds(mem, b)
    ensures InBounds(mem, a + b)
    ensures Scatter(Scatter(mem, a, x), b, y) == Scatter(mem, a + b, x + y)
    decreases |b|
  {
    if b == [] {
      assert a + b == a && x + y == x;
    } else {
      var n := |b| - 1;
      ScatterAppend(mem, a, x, b[..n], y[..n]);
      assert (a + b)[..|a| + n] == a + b[..n] && (x + y)[..|a| + n] == x + y[..n];
    }
  }

  /** A contiguous copy is the scatter over its address range. */
  lemma {:induction false} ScatterRange(mem: seq<byte>, base: nat, data: seq<byte>)
    requires base + |data| <= |mem|
    ensures InBounds(mem, Range(base, |data|))
    ensures Scatter(mem, Range(base, |data|), data) == Splice(mem, base, data)
    decreases |data|
  {
    if data == [] {
      assert Splice(mem, base, data) == mem;
    } else {
      var n := |data| - 1;
      ScatterRange(mem, base, data[..n]);
      assert Range(base, |data|)[..n] == Range(base, n);
      assert Splice(mem, base, data) == Splice(mem, base, data[..n])[base + n := data[n]];
    }
  }

  ghost predicate Injective(addrs: seq<nat>) {
    forall i, j | 0 <= i < j < |addrs| :: addrs[i] != addrs[j]
  }

  /** Scatter to distinct addresses is undone by gather, and touches nothing else. */
  lemma {:induction false} ScatterGather(mem: seq<byte>, addrs: seq<nat>, data: seq<byte>)
    requires InBounds(mem, addrs) && |addrs| == |data|
    ensures forall a | 0 <= a < |mem| && a !in addrs :: Scatter(mem, addrs, data)[a] == mem[a]
    ensures Injective(addrs) ==> Gather(Scatter(mem, addrs, data), addrs) == data
    decreases |addrs|
  {
    if addrs != [] {
      var n := |addrs| - 1;
      ScatterGather(mem, addrs[..n], data[..n]);
      if Injective(addrs) {
        assert Injective(addrs[..n]);
        var g := Gather(Scatter(mem, addrs[..n], data[..n]), addrs[..n]);
        forall i | 0 <= i < |addrs|
          ensures Scatter(mem, addrs, data)[addrs[i]] == data[i]
        {
          if i < n {
            assert g[i] == data[..n][i];
          }
        }
      }
    }
  }

  /** The bytes a scatter leaves at an address depend on the old memory only there. */
  lemma {:induction false} ScatterAgree(m1: seq<byte>, m2: seq<byte>, addrs: seq<nat>, data: seq<byte>, a: nat)
    requires |m1| == |m2| && InBounds(m1, addrs) && |addrs| == |data| && a < |m1|
    requires m1[a] == m2[a]
    ensures Scatter(m1, addrs, data)[a] == Scatter(m2, addrs, data)[a]
    decreases |addrs|
  {
    if addrs != [] {
      var n := |addrs| - 1;
      ScatterAgree(m1, m2, addrs[..n], data[..n], a);
    }
  }

  /* ---- little-endian words ---- */

  function Pow256(n: nat): (p: nat)
    ensures p > 0
  {
    if n == 0 then 1 else 256 * Pow256(n - 1)
  }

  function Decode(b: seq<byte>): (v: nat)
    ensures v < Pow256(|b|)
  {
    if b == [] then 0 else b[0] + 256 * Decode(b[1..])
  }

  function Encode(v: nat, n: nat): (b: seq<byte>)
    ensures |b| == n
  {
    if n == 0 then [] else [v % 256] + Encode(v / 256, n - 1)
  }

  lemma {:induction false} DecodeEncode(v: nat, n: nat)
    requires v < Pow256(n)
    ensures Decode(Encode(v, n)) == v
    decreases n
  {
    if n > 0 {
      DecodeEncode(v / 256, n - 1);
      assert Encode(v, n)[1..] == Encode(v / 256, n - 1);
    }
  }

  /** The number with these four bytes, the least significant first. */
  function FourBytes(w: int, x: int, y: int, z: int): int {
    w + 0x100 * x + 0x1_0000 * y + 0x100_0000 * z
  }

  /** Words are little-endian. */
  lemma LittleEndian4(b: seq<byte>)
    requires |b| == 4
    ensures Decode(b) == FourBytes(b[0], b[1], b[2], b[3])
  {
    DecodeFour(b);
    assert Decode(b[4..]) == 0;
  }

  lemma DecodeFour(b: seq<byte>)
    requires |b| >= 4
    ensures Decode(b) == FourBytes(b[0], b[1], b[2], b[3]) + 0x1_0000_0000 * Decode(b[4..])
  {
    var x := b[1..];
    var y := x[1..];
    var z := y[1..];
    assert z[1..] == b[4..] && x[0] == b[1] && y[0] == b[2] && z[0] == b[3];
    assert Decode(z) == b[3] + 256 * Decode(b[4..]);
    assert Decode(y) == b[2] + 256 * Decode(z) && Decode(x) == b[1] + 256 * Decode(y);
  }

  lemma LittleEndian8(b: seq<byte>)
    requires |b| == 8
    ensures Decode(b) == FourBytes(b[0], b[1], b[2], b[3]) + 0x1_0000_0000 * FourBytes(b[4], b[5], b[6], b[7])
  {
    DecodeFour(b);
    LittleEndian4(b[4..]);
  }

  lemma LowByte(low: byte, high: nat)
    ensures (low + 256 * high) % 256 == low && (low + 256 * high) / 256 == high
  {
  }

  lemma {:induction false} EncodeDecode(b: seq<byte>)
    ensures Encode(Decode(b), |b|) == b
    decreases |b|
  {
    if b != [] {
      EncodeDecode(b[1..]);
      LowByte(b[0], Decode(b[1..]));
      assert b == [b[0]] + b[1..];
    }
  }

  lemma WordBounds()
    ensures Pow256(4) == U32 && Pow256(8) == U64
  {
    assert Pow256(2) == 0x1_0000;
    assert Pow256(4) == 0x1_0000_0000;
    assert Pow256(6) == 0x1_0000_0000_0000;
  }
}
