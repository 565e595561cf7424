/** What one batch of a copy adds to the batches before it, as facts about memories
    (driver/virtio_hmcuda_main.c:196-332 with the host loops it drives). */
module Driver {
  import opened Memory
  import opened Resources
  import opened ScatterList
  import opened Chunks
  import Patching
  import opened Vhost

  /** `m` and `m0` differ at most inside the response buffer. */
  ghost predicate SameOutside(m: seq<byte>, m0: seq<byte>, resp: Iov) {
    |m| == |m0| && forall a | 0 <= a < |m| && !(resp.base <= a < resp.base + resp.len) :: m[a] == m0[a]
  }

  /** The user's resident pages are real memory, and the response buffer is not among them. */
  ghost predicate RespApart(pt: map<nat, nat>, va: nat, n: nat, resp: Iov, size: nat) {
    forall a | va <= a < va + n && Resident(pt, a) ::
      Translate(pt, a) < size && !(resp.base <= Translate(pt, a) < resp.base + resp.len)
  }

  ghost predicate Clear(addrs: seq<nat>, resp: Iov) {
    forall i | 0 <= i < |addrs| :: !(resp.base <= addrs[i] < resp.base + resp.len)
  }

  lemma UserInBounds(pt: map<nat, nat>, va: nat, n: nat, from: nat, k: nat, resp: Iov, m: seq<byte>)
    requires RespApart(pt, va, n, resp, |m|) && from + k <= n && Mapped(pt, va + from, k)
    ensures InBounds(m, UserAddrs(pt, va + from, k)) && Clear(UserAddrs(pt, va + from, k), resp)
  {
    var u := UserAddrs(pt, va + from, k);
    forall i | 0 <= i < |u|
      ensures u[i] < |m| && !(resp.base <= u[i] < resp.base + resp.len)
    {
      assert Resident(pt, va + from + i);
    }
  }

  /** Responses never change what the user range holds. */
  lemma UserBytesKept(pt: map<nat, nat>, va: nat, n: nat, from: nat, k: nat, resp: Iov, m: seq<byte>, m0: seq<byte>)
    requires RespApart(pt, va, n, resp, |m|) && from + k <= n && Mapped(pt, va + from, k) && SameOutside(m, m0, resp)
    ensures InBounds(m, UserAddrs(pt, va + from, k)) && InBounds(m0, UserAddrs(pt, va + from, k))
    ensures Gather(m, UserAddrs(pt, va + from, k)) == Gather(m0, UserAddrs(pt, va + from, k))
  {
    UserInBounds(pt, va, n, from, k, resp, m);
    UserInBounds(pt, va, n, from, k, resp, m0);
    var u := UserAddrs(pt, va + from, k);
    forall i | 0 <= i < k ensures m[u[i]] == m0[u[i]] {
      assert !(resp.base <= u[i] < resp.base + resp.len);
    }
  }

  lemma UserPrefix(pt: map<nat, nat>, va: nat, n: nat, k: nat)
    requires Mapped(pt, va, n) && k <= n
    ensures Mapped(pt, va, k) && UserAddrs(pt, va, n)[..k] == UserAddrs(pt, va, k)
  {
  }

  /** `chunks` are these user bytes, cut on page boundaries, and are at the destination. */
  ghost predicate SentAs(va: nat, user: seq<byte>, b0: seq<byte>, start: nat, list: seq<Resource>, pinned: bool,
                         chunks: seq<seq<byte>>, backend: seq<byte>)
    requires start + |user| <= |b0|
  {
    && PageChunks(va, chunks) && Patching.Concat(chunks) == user
    && backend == Splice(b0, start, Images(list, pinned, chunks))
  }

  ghost predicate SentInChunks(va: nat, user: seq<byte>, b0: seq<byte>, start: nat, list: seq<Resource>, pinned: bool,
                               backend: seq<byte>)
    requires start + |user| <= |b0|
  {
    exists chunks :: SentAs(va, user, b0, start, list, pinned, chunks, backend)
  }

  /** The chunks of a list whose entries end on page boundaries do so, too. */
  lemma SendsOnPages(va: nat, mem: seq<byte>, sg: seq<Iov>, count: nat, chunks: seq<seq<byte>>)
    requires InBounds(mem, Addrs(sg)) && Sends(mem, sg, count, chunks) && PageEnds(va % 4096, sg)
    ensures PageChunks(va, chunks)
  {
    forall j | 0 <= j < |chunks| - 1 ensures PageChunk(va, chunks, j) {
      assert WholeChunk(sg, chunks, j) && PageEntry(va % 4096, sg, j);
    }
  }

  lemma MappedJoin(pt: map<nat, nat>, va: nat, k: nat, c: nat)
    requires Mapped(pt, va, k) && Mapped(pt, va + k, c)
    ensures Mapped(pt, va, k + c)
  {
  }

  /** The first `c` bytes of a batch at `k` follow the first `k` bytes of the range. */
  lemma UserJoin(pt: map<nat, nat>, va: nat, n: nat, k: nat, batch: nat, c: nat, resp: Iov, m: seq<byte>)
    requires RespApart(pt, va, n, resp, |m|) && k + batch <= n && c <= batch
    requires Mapped(pt, va, k) && Mapped(pt, va + k, batch)
    ensures Mapped(pt, va + k, c) && UserAddrs(pt, va + k, batch)[..c] == UserAddrs(pt, va + k, c)
    ensures Mapped(pt, va, k + c) && UserAddrs(pt, va, k + c) == UserAddrs(pt, va, k) + UserAddrs(pt, va + k, c)
    ensures InBounds(m, UserAddrs(pt, va, k)) && InBounds(m, UserAddrs(pt, va, k + c))
    ensures InBounds(m, UserAddrs(pt, va + k, c)) && InBounds(m, UserAddrs(pt, va + k, batch))
  {
    UserPrefix(pt, va + k, batch, c);
    MappedJoin(pt, va, k, c);
    UserAddrsSplit(pt, va, k, c);
    UserInBounds(pt, va, n, 0, k, resp, m);
    UserInBounds(pt, va, n, 0, k + c, resp, m);
    UserInBounds(pt, va, n, k, c, resp, m);
    UserInBounds(pt, va, n, k, batch, resp, m);
  }

  lemma SpliceNothing(b0: seq<byte>, at: nat, data: seq<byte>)
    requires data == [] && at <= |b0|
    ensures Splice(b0, at, data) == b0
  {
  }

  lemma SpliceTwo(b0: seq<byte>, start: nat, k: nat, x: seq<byte>, y: seq<byte>, z: seq<byte>)
    requires z == x + y && k == |x| && start + |z| <= |b0|
    ensures Splice(Splice(b0, start, x), start + k, y) == Splice(b0, start, z)
  {
    SpliceAppend(b0, start, x, y);
  }

  lemma ImagesFollow(b0: seq<byte>, start: nat, list: seq<Resource>, pinned: bool, a: seq<seq<byte>>,
                     more: seq<seq<byte>>, k: nat, x: seq<byte>, y: seq<byte>)
    requires x == Images(list, pinned, a) && y == Images(list, pinned, more) && k == |x| && start + k + |y| <= |b0|
    ensures |Images(list, pinned, a + more)| == k + |y|
    ensures Splice(Splice(b0, start, x), start + k, y) == Splice(b0, start, Images(list, pinned, a + more))
  {
    ImagesAppend(list, pinned, a, more);
    SpliceTwo(b0, start, k, x, y, Images(list, pinned, a + more));
  }

  /** Chunks that follow what was sent; before the first byte there is nothing to follow. */
  lemma ChunksFollow(va: nat, user: seq<byte>, b0: seq<byte>, start: nat, list: seq<Resource>, pinned: bool,
                     backend: seq<byte>, more: seq<seq<byte>>, all: seq<byte>)
    requires all == user + Patching.Concat(more) && start + |all| <= |b0|
    requires SentInChunks(va, user, b0, start, list, pinned, backend) && PageChunks(va + |user|, more)
    requires user == [] || (va + |user|) % 4096 == 0
    ensures SentInChunks(va, all, b0, start, list, pinned, Splice(backend, start + |user|, Images(list, pinned, more)))
  {
    var a :| SentAs(va, user, b0, start, list, pinned, a, backend);
    var backend' := Splice(backend, start + |user|, Images(list, pinned, more));
    if user == [] {
      SpliceNothing(b0, start, Images(list, pinned, a));
      assert SentAs(va, all, b0, start, list, pinned, more, backend');
    } else {
      PageChunksAppend(va, a, more);
      ConcatAppend(a, more);
      ImagesFollow(b0, start, list, pinned, a, more, |user|, Images(list, pinned, a), Images(list, pinned, more));
      assert SentAs(va, all, b0, start, list, pinned, a + more, backend');
    }
  }

  /** The first `c` bytes of a batch follow those of the batches before it, whatever the responses. */
  lemma BytesFollow(pt: map<nat, nat>, va: nat, n: nat, k: nat, batch: nat, c: nat, resp: Iov, m: seq<byte>,
                    m0: seq<byte>)
    requires RespApart(pt, va, n, resp, |m|) && SameOutside(m, m0, resp) && k + batch <= n && c <= batch
    requires Mapped(pt, va, k) && Mapped(pt, va + k, batch)
    requires InBounds(m0, UserAddrs(pt, va, k)) && InBounds(m, UserAddrs(pt, va + k, batch))
    ensures Mapped(pt, va, k + c) && InBounds(m0, UserAddrs(pt, va, k + c))
    ensures Gather(m0, UserAddrs(pt, va, k + c))
      == Gather(m0, UserAddrs(pt, va, k)) + Gather(m, UserAddrs(pt, va + k, batch)[..c])
  {
    UserJoin(pt, va, n, k, batch, c, resp, m);
    UserJoin(pt, va, n, k, batch, c, resp, m0);
    UserBytesKept(pt, va, n, k, c, resp, m, m0);
    GatherAppend(m0, UserAddrs(pt, va, k), UserAddrs(pt, va + k, c));
  }

  lemma ScatterTwo(m0: seq<byte>, u: seq<nat>, v: seq<nat>, x: seq<byte>, y: seq<byte>, z: seq<byte>)
    requires InBounds(m0, u) && InBounds(m0, v) && |x| == |u| && |y| == |v| && z == x + y
    ensures InBounds(m0, u + v) && Scatter(Scatter(m0, u, x), v, y) == Scatter(m0, u + v, z)
  {
    ScatterAppend(m0, u, x, v, y);
  }

  lemma AppendScatter(m0: seq<byte>, u: seq<nat>, v: seq<nat>, backend: seq<byte>, start: nat)
    requires InBounds(m0, u) && InBounds(m0, v) && start + |u| + |v| <= |backend|
    ensures InBounds(m0, u + v)
    ensures Scatter(Scatter(m0, u, Read(backend, start, |u|)), v, Read(backend, start + |u|, |v|))
            == Scatter(m0, u + v, Read(backend, start, |u| + |v|))
  {
    ReadAppend(backend, start, |u|, |v|);
    ScatterTwo(m0, u, v, Read(backend, start, |u|), Read(backend, start + |u|, |v|), Read(backend, start, |u| + |v|));
  }

  /** A batch that received its first `c` bytes extends what the batches before it received. */
  lemma OutStep(pt: map<nat, nat>, va: nat, n: nat, k: nat, batch: nat, c: nat, resp: Iov, m: seq<byte>, m0: seq<byte>,
                backend: seq<byte>, start: nat)
    requires RespApart(pt, va, n, resp, |m0|) && k + batch <= n && c <= batch && start + n <= |backend|
    requires Mapped(pt, va, k) && Mapped(pt, va + k, batch)
    requires InBounds(m0, UserAddrs(pt, va, k))
    requires SameOutside(m, Scatter(m0, UserAddrs(pt, va, k), Read(backend, start, k)), resp)
    ensures Mapped(pt, va, k + c) && InBounds(m0, UserAddrs(pt, va, k + c))
    ensures InBounds(m, UserAddrs(pt, va + k, batch))
    ensures SameOutside(Scatter(m, UserAddrs(pt, va + k, batch)[..c], Read(backend, start + k, c)),
                        Scatter(m0, UserAddrs(pt, va, k + c), Read(backend, start, k + c)), resp)
  {
    UserJoin(pt, va, n, k, batch, c, resp, m0);
    var u := UserAddrs(pt, va + k, c);
    AppendScatter(m0, UserAddrs(pt, va, k), u, backend, start);
    ScatterSame(m, Scatter(m0, UserAddrs(pt, va, k), Read(backend, start, k)), u, Read(backend, start + k, c), resp);
  }

  lemma ScatterSame(m: seq<byte>, s: seq<byte>, u: seq<nat>, d: seq<byte>, resp: Iov)
    requires SameOutside(m, s, resp) && InBounds(m, u) && |u| == |d|
    ensures SameOutside(Scatter(m, u, d), Scatter(s, u, d), resp)
  {
    forall a | 0 <= a < |m| && !(resp.base <= a < resp.base + resp.len)
      ensures Scatter(m, u, d)[a] == Scatter(s, u, d)[a]
    {
      ScatterAgree(m, s, u, d, a);
    }
  }

  /** Writing the response keeps everything outside its buffer. */
  lemma RespStep(m: seq<byte>, m0: seq<byte>, resp: Iov, cmd: nat, err: nat)
    requires SameOutside(m, m0, resp) && ResponseFits(resp, |m|)
    ensures SameOutside(Splice(m, resp.base, ResponseBytes(cmd, err)), m0, resp)
  {
  }

  function ResponseError(m: seq<byte>, resp: Iov): nat
    requires ResponseFits(resp, |m|)
  {
    Decode(Read(m, resp.base + 4, 4))
  }

  /** The driver reads back the error the host wrote. */
  lemma ResponseRoundTrip(m: seq<byte>, resp: Iov, cmd: nat, err: nat)
    requires ResponseFits(resp, |m|) && err < 0x1_0000_0000
    ensures ResponseError(Splice(m, resp.base, ResponseBytes(cmd, err)), resp) == err
  {
    WordBounds();
    DecodeEncode(err, 4);
    assert Read(Splice(m, resp.base, ResponseBytes(cmd, err)), resp.base + 4, 4) == Encode(err, 4);
  }
}
