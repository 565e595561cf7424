/** What a user of the copy ioctl gets: whole copies in each direction, the round trip, and
    pinned allocation (driver/virtio_hmcuda_main.c:376-420 down to host/vhost/cmd_driver.c). */
module EndToEnd {
  import opened Memory
  import opened Resources
  import opened Patching
  import opened Chunks
  import opened ScatterList
  import opened Vhost
  import opened Driver
  import opened Copy
  import Batches

  /** What the caller provides: a user range that wraps neither itself nor the page count, a
      kernel buffer for the response that is no user page, and a driver between ioctls. */
  ghost predicate Callable(d: GuestDriver, pt: map<nat, nat>, va: nat, count: nat, resp: Iov)
    reads d, d.host, d.host.guest
  {
    && va + count <= U64 && Batches.Countable(va, count) && !d.locked
    && ResponseFits(resp, |d.Phys()|) && RespApart(pt, va, count, resp, |d.Phys()|)
  }

  /** `dev .. dev + count` lies inside the allocation `r` of a table, which no newer entry overlaps. */
  ghost predicate InsideAllocation(list: seq<Resource>, r: Resource, dev: nat, count: nat, size: nat) {
    && AllSound(list) && Rules(list, r)
    && r.handle <= dev && dev + count <= r.handle + r.size && r.realPtr + r.size <= size
  }

  ghost predicate Succeeded(d: GuestDriver, ret: Errno, count: nat, resp: Iov)
    reads d, d.host, d.host.guest
  {
    ret == 0 && (count == 0 || (ResponseFits(resp, |d.Phys()|) && ResponseError(d.Phys(), resp) == 0))
  }

  /** Nothing fails: CUDA, the pins, the queue; and the user's pages are there. */
  ghost predicate NoFailure(d: GuestDriver, pt: map<nat, nat>, va: nat, count: nat) {
    Healthy(d.host.cuda) && Smooth(d.kernel) && Mapped(pt, va, count)
  }

  /** The user's bytes. */
  ghost function UserBytes(pt: map<nat, nat>, va: nat, n: nat, phys: seq<byte>): seq<byte>
    requires Mapped(pt, va, n) && InBounds(phys, UserAddrs(pt, va, n))
  {
    Gather(phys, UserAddrs(pt, va, n))
  }

  ghost predicate Readable(pt: map<nat, nat>, va: nat, n: nat, phys: seq<byte>) {
    Mapped(pt, va, n) && InBounds(phys, UserAddrs(pt, va, n))
  }

  function BeforeCopy(s: State, start: nat, pinned: bool): Before {
    Before(s.phys, s.backend, s.mem, s.hostMem, s.allocs, s.copied, start, pinned)
  }

  lemma {:induction false} NothingMoved(pt: map<nat, nat>, job: Job, b: Before, resp: Iov, s: State)
    requires Fixed(pt, job, b, resp) && b == BeforeCopy(s, b.start, b.pinned)
    requires job.PinnedAlloc? ==> b.start == s.nextPinned
    ensures Between(pt, job, b, resp, 0, s)
  {
    assert UserAddrs(pt, job.va, 0) == [];
    var none: seq<seq<byte>> := [];
    assert Concat(none) == [] && Images(b.hostMem, b.pinned, none) == [];
    SpliceNothing(b.backend, b.start, []);
    assert SentAs(job.va, [], b.backend, b.start, b.hostMem, b.pinned, none, b.backend);
  }

  /** Without patching the chunks do not show. */
  lemma PlainSent(va: nat, user: seq<byte>, b0: seq<byte>, start: nat, list: seq<Resource>, backend: seq<byte>)
    requires start + |user| <= |b0| && SentInChunks(va, user, b0, start, list, false, backend)
    ensures backend == Splice(b0, start, user)
  {
    var chunks :| SentAs(va, user, b0, start, list, false, chunks, backend);
    ImagesAre(list, false, chunks);
  }

  /** `backend` holds the bytes patched chunk by chunk, with the chunks cut on page boundaries. */
  ghost predicate PatchedInChunks(va: nat, user: seq<byte>, b0: seq<byte>, start: nat, list: seq<Resource>,
                                  backend: seq<byte>) {
    exists chunks :: PatchedAs(va, user, b0, start, list, chunks, backend)
  }

  ghost predicate PatchedAs(va: nat, user: seq<byte>, b0: seq<byte>, start: nat, list: seq<Resource>,
                            chunks: seq<seq<byte>>, backend: seq<byte>) {
    && PageChunks(va, chunks) && Concat(chunks) == user
    && start + |PatchChunks(list, chunks)| <= |b0| && backend == Splice(b0, start, PatchChunks(list, chunks))
  }

  /** From a word-aligned address the chunks do not show either. */
  lemma PatchedSent(va: nat, user: seq<byte>, b0: seq<byte>, start: nat, list: seq<Resource>, backend: seq<byte>)
    requires start + |user| <= |b0| && SentInChunks(va, user, b0, start, list, true, backend)
    ensures PatchedInChunks(va, user, b0, start, list, backend)
    ensures va % 8 == 0 ==> backend == Splice(b0, start, Patch(list, user))
  {
    var chunks :| SentAs(va, user, b0, start, list, true, chunks, backend);
    ImagesAre(list, true, chunks);
    assert PatchedAs(va, user, b0, start, list, chunks, backend);
    if va % 8 == 0 {
      PageChunksAreWords(va, chunks);
      ChunksPatchAlike(list, chunks);
    }
  }

  /** Kind 1 copies exactly the user's bytes to the device range, or the first `k` of them when
      it fails, and changes nothing else there; the guest's memory changes in the response
      buffer only. */
  method CopyToDevice(d: GuestDriver, pt: map<nat, nat>, runtime: bool, va: nat, count: nat, dev: nat,
                      ghost r: Resource, reqIov: Iov, resp: Iov)
    returns (ret: Errno, ghost k: nat)
    requires Callable(d, pt, va, count, resp) && InsideAllocation(d.host.ListOf(MEM), r, dev, count, |d.host.backend|)
    requires reqIov.len == RequestLen(Memcpy(runtime, dev, va, count, 1))
    modifies d, d.host, d.host.guest, d.host.ctx
    ensures !d.locked && d.pinned == old(d.pinned) && SameOutside(d.Phys(), old(d.Phys()), resp)
    ensures d.host.ListOf(MEM) == old(d.host.ListOf(MEM)) && d.host.ListOf(HOST_MEM) == old(d.host.ListOf(HOST_MEM))
    ensures NoFailure(d, pt, va, count) ==> Succeeded(d, ret, count, resp)
    ensures k <= count && (Succeeded(d, ret, count, resp) ==> k == count) && Readable(pt, va, k, old(d.Phys()))
    ensures d.host.backend
      == Splice(old(d.host.backend), r.realPtr + (dev - r.handle), UserBytes(pt, va, k, old(d.Phys())))
  {
    var job := ParseArgs(Memcpy(runtime, dev, va, count, 1));
    ghost var b := BeforeCopy(d.Now(), r.realPtr + (dev - r.handle), false);
    InsideOneAllocation(b.mem, b.hostMem, runtime, dev, count, r);
    NothingMoved(pt, job, b, resp, d.Now());
    var batchNum;
    ret, batchNum, k := d.DoMemcpyGup(pt, job, b, reqIov, resp);
    PlainSent(va, UserBytes(pt, va, k, b.phys), b.backend, b.start, b.hostMem, d.host.backend);
  }

  /** `dev .. dev + count` lies inside the pinned buffer `r`, and no device allocation overlaps it. */
  ghost predicate InsidePinned(mem: seq<Resource>, hostMem: seq<Resource>, r: Resource, dev: nat, count: nat, size: nat)
  {
    && InsideAllocation(hostMem, r, dev, count, size)
    && AllSound(mem) && forall m | m in mem :: Apart(m, r)
  }

  /** Kind 1 to a pinned buffer patches each chunk on its own, and the chunks end on page
      boundaries of the user range.  When that range starts on a word, the patched whole, or
      the patched prefix of a copy that fails, arrives. */
  method CopyToPinned(d: GuestDriver, pt: map<nat, nat>, va: nat, count: nat, dev: nat, ghost r: Resource, reqIov: Iov,
                      resp: Iov)
    returns (ret: Errno, ghost k: nat)
    requires Callable(d, pt, va, count, resp)
    requires InsidePinned(d.host.ListOf(MEM), d.host.ListOf(HOST_MEM), r, dev, count, |d.host.backend|)
    requires reqIov.len == RequestLen(Memcpy(false, dev, va, count, 1))
    modifies d, d.host, d.host.guest, d.host.ctx
    ensures !d.locked && d.pinned == old(d.pinned) && SameOutside(d.Phys(), old(d.Phys()), resp)
    ensures d.host.ListOf(MEM) == old(d.host.ListOf(MEM)) && d.host.ListOf(HOST_MEM) == old(d.host.ListOf(HOST_MEM))
    ensures NoFailure(d, pt, va, count) ==> Succeeded(d, ret, count, resp)
    ensures k <= count && (Succeeded(d, ret, count, resp) ==> k == count) && Readable(pt, va, k, old(d.Phys()))
    ensures PatchedInChunks(va, UserBytes(pt, va, k, old(d.Phys())), old(d.host.backend), r.realPtr + (dev - r.handle),
                            old(d.host.ListOf(HOST_MEM)), d.host.backend)
    ensures va % 8 != 0 ||
      d.host.backend == Splice(old(d.host.backend), r.realPtr + (dev - r.handle),
                               Patch(old(d.host.ListOf(HOST_MEM)), UserBytes(pt, va, k, old(d.Phys()))))
  {
    var job := ParseArgs(Memcpy(false, dev, va, count, 1));
    ghost var b := BeforeCopy(d.Now(), r.realPtr + (dev - r.handle), true);
    InsideOnePinnedBuffer(b.mem, b.hostMem, dev, count, r);
    NothingMoved(pt, job, b, resp, d.Now());
    var batchNum;
    ret, batchNum, k := d.DoMemcpyGup(pt, job, b, reqIov, resp);
    PatchedSent(va, UserBytes(pt, va, k, b.phys), b.backend, b.start, b.hostMem, d.host.backend);
  }

  /** The first `k` bytes of the user range hold `data`, if they lie at distinct addresses, and
      nothing but them and the response buffer has changed. */
  ghost predicate Received(pt: map<nat, nat>, va: nat, k: nat, data: seq<byte>, resp: Iov, phys0: seq<byte>,
                           phys: seq<byte>)
  {
    && |phys| == |phys0| && Readable(pt, va, k, phys)
    && (Injective(UserAddrs(pt, va, k)) ==> UserBytes(pt, va, k, phys) == data)
    && forall a | 0 <= a < |phys| && a !in UserAddrs(pt, va, k) && !(resp.base <= a < resp.base + resp.len) ::
         phys[a] == phys0[a]
  }

  /** Kind 2 fills the user's range with exactly the device's bytes, or its first `k` when it fails. */
  method CopyFromDevice(d: GuestDriver, pt: map<nat, nat>, runtime: bool, va: nat, count: nat, dev: nat,
                        ghost r: Resource, reqIov: Iov, resp: Iov)
    returns (ret: Errno, ghost k: nat)
    requires Callable(d, pt, va, count, resp) && InsideAllocation(d.host.ListOf(MEM), r, dev, count, |d.host.backend|)
    requires reqIov.len == RequestLen(Memcpy(runtime, va, dev, count, 2))
    modifies d, d.host, d.host.guest, d.host.ctx
    ensures !d.locked && d.pinned == old(d.pinned) && d.host.backend == old(d.host.backend)
    ensures d.host.ListOf(MEM) == old(d.host.ListOf(MEM)) && d.host.ListOf(HOST_MEM) == old(d.host.ListOf(HOST_MEM))
    ensures NoFailure(d, pt, va, count) ==> Succeeded(d, ret, count, resp)
    ensures k <= count && (Succeeded(d, ret, count, resp) ==> k == count)
    ensures Received(pt, va, k, Read(d.host.backend, r.realPtr + (dev - r.handle), k), resp, old(d.Phys()), d.Phys())
  {
    var job := ParseArgs(Memcpy(runtime, va, dev, count, 2));
    ghost var b := BeforeCopy(d.Now(), r.realPtr + (dev - r.handle), false);
    InsideOneAllocation(b.mem, b.hostMem, runtime, dev, count, r);
    NothingMoved(pt, job, b, resp, d.Now());
    var batchNum;
    ret, batchNum, k := d.DoMemcpyGup(pt, job, b, reqIov, resp);
    DeliveredBy(pt, job, b, resp, k, d.Now());
  }

  /** Kind 2 out of a pinned buffer: the host patches nothing on this way, wherever the
      user's range starts. */
  method CopyFromPinned(d: GuestDriver, pt: map<nat, nat>, va: nat, count: nat, dev: nat, ghost r: Resource,
                        reqIov: Iov, resp: Iov)
    returns (ret: Errno, ghost k: nat)
    requires Callable(d, pt, va, count, resp)
    requires InsidePinned(d.host.ListOf(MEM), d.host.ListOf(HOST_MEM), r, dev, count, |d.host.backend|)
    requires reqIov.len == RequestLen(Memcpy(false, va, dev, count, 2))
    modifies d, d.host, d.host.guest, d.host.ctx
    ensures !d.locked && d.pinned == old(d.pinned) && d.host.backend == old(d.host.backend)
    ensures d.host.ListOf(MEM) == old(d.host.ListOf(MEM)) && d.host.ListOf(HOST_MEM) == old(d.host.ListOf(HOST_MEM))
    ensures NoFailure(d, pt, va, count) ==> Succeeded(d, ret, count, resp)
    ensures k <= count && (Succeeded(d, ret, count, resp) ==> k == count)
    ensures Received(pt, va, k, Read(d.host.backend, r.realPtr + (dev - r.handle), k), resp, old(d.Phys()), d.Phys())
  {
    var job := ParseArgs(Memcpy(false, va, dev, count, 2));
    ghost var b := BeforeCopy(d.Now(), r.realPtr + (dev - r.handle), true);
    InsideOnePinnedBuffer(b.mem, b.hostMem, dev, count, r);
    NothingMoved(pt, job, b, resp, d.Now());
    var batchNum;
    ret, batchNum, k := d.DoMemcpyGup(pt, job, b, reqIov, resp);
    DeliveredBy(pt, job, b, resp, k, d.Now());
  }

  /** Data survives the responses, and distinct frames keep what was stored to them. */
  lemma Delivered(pt: map<nat, nat>, job: Job, b: Before, resp: Iov, k: nat, phys: seq<byte>)
    requires Fixed(pt, job, b, resp) && OutState(pt, job, b, resp, k, b.backend, phys)
    ensures b.start + k <= |b.backend| && Received(pt, job.va, k, Read(b.backend, b.start, k), resp, b.phys, phys)
  {
    var u, data := UserAddrs(pt, job.va, k), Read(b.backend, b.start, k);
    ScatterGather(b.phys, u, data);
    UserBytesKept(pt, job.va, job.count, 0, k, resp, phys, Scatter(b.phys, u, data));
  }

  lemma DeliveredBy(pt: map<nat, nat>, job: Job, b: Before, resp: Iov, k: nat, s: State)
    requires job.FromDevice? && Fixed(pt, job, b, resp) && Moved(pt, job, b, resp, k, s)
    ensures b.start + k <= |b.backend| && s.backend == b.backend && s.mem == b.mem && s.hostMem == b.hostMem
    ensures Received(pt, job.va, k, Read(b.backend, b.start, k), resp, b.phys, s.phys)
  {
    Delivered(pt, job, b, resp, k, s.phys);
  }

  /** No two pages of the range share a frame. */
  ghost predicate DistinctFrames(pt: map<nat, nat>, va: nat, n: nat) {
    forall a, c | va <= a < va + n && va <= c < va + n && Resident(pt, a) && Resident(pt, c) ::
      a / 4096 == c / 4096 || pt[a / 4096] != pt[c / 4096]
  }

  /** Pages in distinct frames hold every user byte at its own address. */
  lemma DistinctFramesInjective(pt: map<nat, nat>, va: nat, n: nat)
    requires DistinctFrames(pt, va, n) && Mapped(pt, va, n)
    ensures Injective(UserAddrs(pt, va, n))
  {
    var u := UserAddrs(pt, va, n);
    forall i, j | 0 <= i < j < n ensures u[i] != u[j] {
      assert Resident(pt, va + i) && Resident(pt, va + j);
      OneAddressEach(pt, va, n, va + i, va + j);
    }
  }

  lemma OneAddressEach(pt: map<nat, nat>, va: nat, n: nat, a: nat, c: nat)
    requires DistinctFrames(pt, va, n) && va <= a < va + n && va <= c < va + n && Resident(pt, a) && Resident(pt, c)
      && a != c
    ensures Translate(pt, a) != Translate(pt, c)
  {
    assert Translate(pt, a) / 4096 == pt[a / 4096] && Translate(pt, a) % 4096 == a % 4096;
    assert Translate(pt, c) / 4096 == pt[c / 4096] && Translate(pt, c) % 4096 == c % 4096;
  }

  /** A buffer copied to the device and back arrives unchanged, whatever the alignments,
      the length, and the frames behind either buffer. */
  method RoundTrip(d: GuestDriver, ptIn: map<nat, nat>, from: nat, ptOut: map<nat, nat>, to: nat, runtime: bool,
                   count: nat, dev: nat, ghost r: Resource, reqIov: Iov, resp: Iov)
    returns (ok: bool)
    requires Callable(d, ptIn, from, count, resp) && Callable(d, ptOut, to, count, resp)
      && DistinctFrames(ptOut, to, count)
    requires InsideAllocation(d.host.ListOf(MEM), r, dev, count, |d.host.backend|)
    requires reqIov.len == RequestLen(Memcpy(runtime, dev, from, count, 1))
    modifies d, d.host, d.host.guest, d.host.ctx
    ensures !d.locked && d.pinned == old(d.pinned)
    ensures NoFailure(d, ptIn, from, count) && NoFailure(d, ptOut, to, count) ==> ok
    ensures ok ==>
      && Readable(ptIn, from, count, old(d.Phys())) && Readable(ptOut, to, count, d.Phys())
      && UserBytes(ptOut, to, count, d.Phys()) == UserBytes(ptIn, from, count, old(d.Phys()))
  {
    ghost var k;
    var ret;
    ok := false;
    ret, k := CopyToDevice(d, ptIn, runtime, from, count, dev, r, reqIov, resp);
    if ret == 0 && (count == 0 || ResponseError(d.Phys(), resp) == 0) {
      ghost var at, data := r.realPtr + (dev - r.handle), UserBytes(ptIn, from, count, old(d.Phys()));
      assert Read(d.host.backend, at, count) == data;
      ret, k := CopyFromDevice(d, ptOut, runtime, to, count, dev, r, reqIov, resp);
      if ret == 0 && (count == 0 || ResponseError(d.Phys(), resp) == 0) {
        DistinctFramesInjective(ptOut, to, count);
        ok := true;
      }
    }
  }

  /** Patching the bytes of a range where they are leaves the memory as it is exactly when no
      whole word of them lies in a pinned range. */
  lemma PatchInPlaceIff(list: seq<Resource>, backend: seq<byte>, at: nat, n: nat)
    requires AllSound(list) && BackendApart(list) && at + n <= |backend|
    ensures Splice(backend, at, Patch(list, Read(backend, at, n))) == backend
      <==> !NeedsPatch(list, Read(backend, at, n))
  {
    var data := Read(backend, at, n);
    PatchFixpointIff(list, data);
    if Splice(backend, at, Patch(list, data)) == backend {
      assert Read(Splice(backend, at, Patch(list, data)), at, n) == Patch(list, data);
    } else {
      assert Splice(backend, at, data) == backend;
    }
  }

  /** Bytes as some push left them. */
  ghost predicate OncePushed(list: seq<Resource>, data: seq<byte>) {
    exists x :: data == Patch(list, x)
  }

  lemma PushedStays(list: seq<Resource>, data: seq<byte>)
    requires AllSound(list) && BackendApart(list)
    ensures OncePushed(list, data) ==> !NeedsPatch(list, data)
  {
    if x :| data == Patch(list, x) {
      PatchIdempotent(list, x);
      PatchFixpointIff(list, data);
    }
  }

  /** Bytes of a pinned buffer pulled to the user and pushed back arrive patched.  With a
      word-aligned user range the buffer is unchanged exactly when no whole word of it is a
      guest pointer; so bytes once pushed come back as they are. */
  method PullThenPush(d: GuestDriver, pt: map<nat, nat>, va: nat, count: nat, dev: nat, ghost r: Resource, reqIov: Iov,
                      resp: Iov)
    returns (ok: bool)
    requires Callable(d, pt, va, count, resp) && DistinctFrames(pt, va, count)
    requires InsidePinned(d.host.ListOf(MEM), d.host.ListOf(HOST_MEM), r, dev, count, |d.host.backend|)
    requires reqIov.len == RequestLen(Memcpy(false, dev, va, count, 1))
    modifies d, d.host, d.host.guest, d.host.ctx
    ensures !d.locked && d.pinned == old(d.pinned)
    ensures NoFailure(d, pt, va, count) ==> ok
    ensures !ok ||
      PatchedInChunks(va, Read(old(d.host.backend), r.realPtr + (dev - r.handle), count), old(d.host.backend),
                      r.realPtr + (dev - r.handle), old(d.host.ListOf(HOST_MEM)), d.host.backend)
    ensures !ok || va % 8 != 0 ||
      d.host.backend == Splice(old(d.host.backend), r.realPtr + (dev - r.handle),
                               Patch(old(d.host.ListOf(HOST_MEM)),
                                 Read(old(d.host.backend), r.realPtr + (dev - r.handle), count)))
    ensures !ok || va % 8 != 0 || !BackendApart(old(d.host.ListOf(HOST_MEM))) ||
      (d.host.backend == old(d.host.backend)
       <==> !NeedsPatch(old(d.host.ListOf(HOST_MEM)), Read(old(d.host.backend), r.realPtr + (dev - r.handle), count)))
    ensures !ok || va % 8 != 0 || !BackendApart(old(d.host.ListOf(HOST_MEM))) ||
      !OncePushed(old(d.host.ListOf(HOST_MEM)), Read(old(d.host.backend), r.realPtr + (dev - r.handle), count)) ||
      d.host.backend == old(d.host.backend)
  {
    ok := false;
    ghost var at := r.realPtr + (dev - r.handle);
    ghost var list, b0, user := d.host.ListOf(HOST_MEM), d.host.backend, Read(d.host.backend, at, count);
    if BackendApart(list) {
      PatchInPlaceIff(list, b0, at, count);
      PushedStays(list, user);
    }
    ghost var k;
    var ret;
    ret, k := CopyFromPinned(d, pt, va, count, dev, r, reqIov, resp);
    if ret == 0 && (count == 0 || ResponseError(d.Phys(), resp) == 0) {
      DistinctFramesInjective(pt, va, count);
      assert UserBytes(pt, va, count, d.Phys()) == user && d.host.backend == b0 && d.host.ListOf(HOST_MEM) == list;
      ret, k := CopyToPinned(d, pt, va, count, dev, r, reqIov, resp);
      ok := ret == 0 && (count == 0 || ResponseError(d.Phys(), resp) == 0);
    }
  }

  /** A non-empty pinned allocation that succeeds made one backend allocation, whatever the
      number of batches and chunks, and its memory holds exactly the user's bytes, each stored
      once: as many bytes are stored as the buffer has.  One that fails leaves an entry behind
      exactly when some bytes were already moved. */
  method AllocPinned(d: GuestDriver, pt: map<nat, nat>, va: nat, bytesize: nat, ghost start: nat, reqIov: Iov,
                     resp: Iov)
    returns (ret: Errno, ghost k: nat)
    requires Callable(d, pt, va, bytesize, resp) && va + bytesize < U64
    requires 0 < start == d.host.cuda.pinnedAt(d.host.calls) && start + bytesize <= |d.host.backend| < U64
    requires reqIov.len == RequestLen(HostAlloc(bytesize, va, 0))
    modifies d, d.host, d.host.guest, d.host.ctx
    ensures !d.locked && d.pinned == old(d.pinned) && SameOutside(d.Phys(), old(d.Phys()), resp) && k <= bytesize
    ensures d.host.ListOf(MEM) == old(d.host.ListOf(MEM))
    ensures d.host.ListOf(HOST_MEM)
      == (if k > 0 then [Resource(va, start, bytesize)] else []) + old(d.host.ListOf(HOST_MEM))
    ensures d.host.pinnedAllocs == old(d.host.pinnedAllocs) + (if k > 0 then 1 else 0)
      && d.host.copied == old(d.host.copied) + k
    ensures Readable(pt, va, k, old(d.Phys()))
      && d.host.backend == Splice(old(d.host.backend), start, UserBytes(pt, va, k, old(d.Phys())))
    ensures Succeeded(d, ret, bytesize, resp) ==> k == bytesize
    ensures NoFailure(d, pt, va, bytesize) && d.host.ctx != null ==> Succeeded(d, ret, bytesize, resp)
  {
    var job := ParseArgs(HostAlloc(bytesize, va, 0));
    ghost var b := BeforeCopy(d.Now(), start, false);
    NothingMoved(pt, job, b, resp, d.Now());
    var batchNum;
    ret, batchNum, k := d.DoMemcpyGup(pt, job, b, reqIov, resp);
    PlainSent(va, UserBytes(pt, va, k, b.phys), b.backend, start, b.hostMem, d.host.backend);
  }
}
