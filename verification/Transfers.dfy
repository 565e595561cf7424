/** The pushes and pulls of the registry protocol as copies that the driver runs
    (guest/transport/hmcuda_transport.cpp:264-283, guest/intercept/hmcuda_driver.cpp:369-384):
    whatever fails, each leaves guest memory and backend in the state that module Coherence
    gives for the bytes that got across. */
module Transfers {
  import opened Memory
  import opened Resources
  import opened EndToEnd
  import ScatterList
  import Patching
  import Driver
  import Copy
  import Vhost
  import Coherence

  /** The two copies of buffer `va` are where the machine has them: the guest copy in the pages
      of the user range, the backing copy in the backend range of the buffer's entry. */
  ghost predicate Mirrors(t: Coherence.Twin, pt: map<nat, nat>, va: nat, r: Resource, phys: seq<byte>,
                          backend: seq<byte>, hostMem: seq<Resource>) {
    && Coherence.Ok(t) && va in t.reg && t.table == hostMem
    && Rules(hostMem, r) && r.handle == va && r.size == t.reg[va].size && r.realPtr + r.size <= |backend|
    && Readable(pt, va, r.size, phys) && t.guest[va] == UserBytes(pt, va, r.size, phys)
    && t.backing[va] == Read(backend, r.realPtr, r.size)
  }

  /** What the copies ask for: the buffer apart from device memory, on word-aligned pages of its own. */
  ghost predicate Ready(d: Copy.GuestDriver, pt: map<nat, nat>, va: nat, n: nat, r: Resource, reqIov: Iov, resp: Iov)
    reads d, d.host, d.host.guest, d.host.ctx
  {
    && Callable(d, pt, va, n, resp) && va % 8 == 0 && DistinctFrames(pt, va, n)
    && InsidePinned(d.host.ListOf(MEM), d.host.ListOf(HOST_MEM), r, va, n, |d.host.backend|)
    && reqIov.len == Vhost.RequestLen(Vhost.Memcpy(false, va, va, n, 1))
  }

  /** A prefix stored to the backend range overwrites the front of the buffer. */
  lemma SpliceOverwrites(backend: seq<byte>, at: nat, size: nat, data: seq<byte>)
    requires at + size <= |backend| && |data| <= size
    ensures Read(Splice(backend, at, data), at, size) == Coherence.Overwrite(Read(backend, at, size), data)
  {
  }

  lemma PushMirrors(t: Coherence.Twin, pt: map<nat, nat>, va: nat, r: Resource, resp: Iov, phys: seq<byte>,
                    phys': seq<byte>, backend: seq<byte>, backend': seq<byte>, hostMem: seq<Resource>, k: nat)
    requires Mirrors(t, pt, va, r, phys, backend, hostMem) && Coherence.Clean(t, va) && k <= r.size
    requires Driver.RespApart(pt, va, r.size, resp, |phys'|) && Driver.SameOutside(phys', phys, resp)
    requires Readable(pt, va, k, phys)
      && backend' == Splice(backend, r.realPtr, Patching.Patch(hostMem, UserBytes(pt, va, k, phys)))
    ensures Mirrors(Coherence.Push(t, va, k), pt, va, r, phys', backend', hostMem)
  {
    Driver.UserBytesKept(pt, va, r.size, 0, r.size, resp, phys', phys);
    Driver.UserPrefix(pt, va, r.size, k);
    assert t.guest[va][..k] == UserBytes(pt, va, k, phys);
    SpliceOverwrites(backend, r.realPtr, r.size, Patching.Patch(hostMem, t.guest[va][..k]));
  }

  /** sync_host_mem_arg of a clean buffer: `k` bytes get across, and that is a push of `k` bytes. */
  method PushBuffer(d: Copy.GuestDriver, pt: map<nat, nat>, va: nat, n: nat, ghost r: Resource, ghost t: Coherence.Twin,
                    reqIov: Iov, resp: Iov)
    returns (ret: Copy.Errno, ghost k: nat)
    requires Ready(d, pt, va, n, r, reqIov, resp) && n == r.size && Coherence.Clean(t, va)
    requires Mirrors(t, pt, va, r, d.Phys(), d.host.backend, d.host.ListOf(HOST_MEM))
    modifies d, d.host, d.host.guest, d.host.ctx
    ensures k <= n && (NoFailure(d, pt, va, n) ==> k == n)
    ensures Mirrors(Coherence.Push(t, va, k), pt, va, r, d.Phys(), d.host.backend, d.host.ListOf(HOST_MEM))
  {
    ghost var phys, backend, hostMem := d.Phys(), d.host.backend, d.host.ListOf(HOST_MEM);
    ret, k := CopyToPinned(d, pt, va, n, va, r, reqIov, resp);
    PushMirrors(t, pt, va, r, resp, phys, d.Phys(), backend, d.host.backend, hostMem, k);
  }

  lemma PrefixInjective(a: seq<nat>, k: nat)
    requires Injective(a) && k <= |a|
    ensures Injective(a[..k]) && forall j | k <= j < |a| :: a[j] !in a[..k]
  {
  }

  lemma PullMirrors(t: Coherence.Twin, pt: map<nat, nat>, va: nat, r: Resource, resp: Iov, phys: seq<byte>,
                    phys': seq<byte>, backend: seq<byte>, hostMem: seq<Resource>, k: nat, ok: bool)
    requires Mirrors(t, pt, va, r, phys, backend, hostMem) && Coherence.Dirty(t, va) && k <= r.size
    requires Driver.RespApart(pt, va, r.size, resp, |phys'|) && Injective(ScatterList.UserAddrs(pt, va, r.size))
    requires Received(pt, va, k, Read(backend, r.realPtr, k), resp, phys, phys')
    ensures Mirrors(Coherence.Pull(t, va, k, ok), pt, va, r, phys', backend, hostMem)
  {
    var u, data := ScatterList.UserAddrs(pt, va, r.size), Read(backend, r.realPtr, k);
    Driver.UserPrefix(pt, va, r.size, k);
    Driver.UserInBounds(pt, va, r.size, 0, r.size, resp, phys');
    PrefixInjective(u, k);
    assert t.backing[va][..k] == data;
    var before, after := UserBytes(pt, va, r.size, phys), UserBytes(pt, va, r.size, phys');
    assert after[..k] == UserBytes(pt, va, k, phys') == data;
    forall j | k <= j < r.size ensures after[j] == before[j] {
      assert u[j] !in u[..k] && !(resp.base <= u[j] < resp.base + resp.len);
    }
    assert after == Coherence.Overwrite(before, data);
  }

  /** hmcuda_sync_dirty_host_src_to_guest of the first `n` bytes of a dirty buffer: `k` bytes
      arrive, and that is a pull of `k` bytes, which clears the bit exactly when it succeeds. */
  method PullBuffer(d: Copy.GuestDriver, pt: map<nat, nat>, va: nat, n: nat, ghost r: Resource, ghost t: Coherence.Twin,
                    reqIov: Iov, resp: Iov)
    returns (ok: bool, ghost k: nat)
    requires Ready(d, pt, va, r.size, r, reqIov, resp) && n <= r.size && Coherence.Dirty(t, va)
    requires Mirrors(t, pt, va, r, d.Phys(), d.host.backend, d.host.ListOf(HOST_MEM))
    modifies d, d.host, d.host.guest, d.host.ctx
    ensures k <= n && (ok ==> k == n) && (NoFailure(d, pt, va, n) ==> ok)
    ensures Mirrors(Coherence.Pull(t, va, k, ok), pt, va, r, d.Phys(), d.host.backend, d.host.ListOf(HOST_MEM))
  {
    ghost var phys, backend, hostMem := d.Phys(), d.host.backend, d.host.ListOf(HOST_MEM);
    DistinctFramesInjective(pt, va, r.size);
    var ret;
    ret, k := CopyFromPinned(d, pt, va, n, va, r, reqIov, resp);
    ok := ret == 0 && (n == 0 || Driver.ResponseError(d.Phys(), resp) == 0);
    PullMirrors(t, pt, va, r, resp, phys, d.Phys(), backend, hostMem, k, ok);
  }

  /* ---- copies from a device, and to one ---- */

  /** The addresses of a part of a range of distinct frames, within those of the whole. */
  lemma PartOf(pt: map<nat, nat>, va: nat, size: nat, off: nat, k: nat, j: nat)
    requires ScatterList.Mapped(pt, va, size) && Injective(ScatterList.UserAddrs(pt, va, size))
    requires off + k <= size && j < size
    ensures ScatterList.Mapped(pt, va + off, k) && Injective(ScatterList.UserAddrs(pt, va + off, k))
    ensures
      var u, part := ScatterList.UserAddrs(pt, va, size), ScatterList.UserAddrs(pt, va + off, k);
      if off <= j < off + k then part[j - off] == u[j] else u[j] !in part
  {
    var u, part := ScatterList.UserAddrs(pt, va, size), ScatterList.UserAddrs(pt, va + off, k);
    assert forall i | 0 <= i < k :: part[i] == u[off + i];
  }

  /** Bytes received into a part of the range. */
  lemma FillBytes(pt: map<nat, nat>, va: nat, size: nat, resp: Iov, phys: seq<byte>, phys': seq<byte>, off: nat, k: nat,
                  data: seq<byte>)
    requires Readable(pt, va, size, phys) && off + k <= size && |data| == k && DistinctFrames(pt, va, size)
    requires Driver.RespApart(pt, va, size, resp, |phys|) && Received(pt, va + off, k, data, resp, phys, phys')
    ensures Readable(pt, va, size, phys')
    ensures UserBytes(pt, va, size, phys') == Splice(UserBytes(pt, va, size, phys), off, data)
  {
    DistinctFramesInjective(pt, va, size);
    Driver.UserInBounds(pt, va, size, 0, size, resp, phys');
    var u := ScatterList.UserAddrs(pt, va, size);
    var before, after := UserBytes(pt, va, size, phys), UserBytes(pt, va, size, phys');
    forall j | 0 <= j < size ensures after[j] == if off <= j < off + k then data[j - off] else before[j] {
      PartOf(pt, va, size, off, k, j);
      if off <= j < off + k {
        assert UserBytes(pt, va + off, k, phys')[j - off] == data[j - off];
      } else {
        assert !(resp.base <= u[j] < resp.base + resp.len);
      }
    }
    assert after == Splice(before, off, data);
  }

  lemma FillMirrors(t: Coherence.Twin, pt: map<nat, nat>, va: nat, r: Resource, resp: Iov, phys: seq<byte>,
                    phys': seq<byte>, backend: seq<byte>, hostMem: seq<Resource>, off: nat, n: nat, k: nat,
                    data: seq<byte>, route: Coherence.Route)
    requires Mirrors(t, pt, va, r, phys, backend, hostMem) && route != Coherence.Direct
    requires Coherence.InBuffer(t, va, off, n) && k <= n && k == |data|
    requires Driver.RespApart(pt, va, r.size, resp, |phys|) && DistinctFrames(pt, va, r.size)
    requires Received(pt, va + off, k, data, resp, phys, phys')
    ensures Mirrors(Coherence.Step(t, Coherence.FromDevice(va, off, data, route)), pt, va, r, phys', backend, hostMem)
  {
    FillBytes(pt, va, r.size, resp, phys, phys', off, k, data);
  }

  /** What a copy from a device into a buffer asks for: the device range inside an allocation. */
  ghost predicate ReadyToFill(d: Copy.GuestDriver, pt: map<nat, nat>, va: nat, size: nat, off: nat, n: nat, dev: nat,
                              q: Resource, resp: Iov)
    reads d, d.host, d.host.guest, d.host.ctx
  {
    && Callable(d, pt, va, size, resp) && Callable(d, pt, va + off, n, resp) && DistinctFrames(pt, va, size)
    && InsideAllocation(d.host.ListOf(MEM), q, dev, n, |d.host.backend|)
  }

  /** A copy from a device to `off` bytes into a buffer: what arrives fills the guest copy, and
      the backing copy stays as it is, whether the buffer is dirty or not. */
  method FillBuffer(d: Copy.GuestDriver, pt: map<nat, nat>, runtime: bool, va: nat, off: nat, n: nat, dev: nat,
                    ghost r: Resource, ghost q: Resource, ghost t: Coherence.Twin, ghost route: Coherence.Route,
                    reqIov: Iov, resp: Iov)
    returns (ok: bool, ghost data: seq<byte>)
    requires ReadyToFill(d, pt, va, r.size, off, n, dev, q, resp) && Coherence.InBuffer(t, va, off, n)
    requires reqIov.len == Vhost.RequestLen(Vhost.Memcpy(runtime, va + off, dev, n, 2))
    requires Mirrors(t, pt, va, r, d.Phys(), d.host.backend, d.host.ListOf(HOST_MEM)) && route != Coherence.Direct
    modifies d, d.host, d.host.guest, d.host.ctx
    ensures |data| <= n && (ok ==> |data| == n) && (NoFailure(d, pt, va + off, n) ==> ok)
    ensures data == Read(old(d.host.backend), q.realPtr + (dev - q.handle), |data|)
    ensures d.host.backend == old(d.host.backend) && d.host.ListOf(HOST_MEM) == old(d.host.ListOf(HOST_MEM))
    ensures Mirrors(Coherence.Step(t, Coherence.FromDevice(va, off, data, route)), pt, va, r, d.Phys(),
                    old(d.host.backend), old(d.host.ListOf(HOST_MEM)))
  {
    ghost var phys, backend, hostMem := d.Phys(), d.host.backend, d.host.ListOf(HOST_MEM);
    assert Driver.RespApart(pt, va, r.size, resp, |phys|);
    ghost var k;
    ok, k, data := Fetch(d, pt, runtime, va + off, n, dev, q, reqIov, resp);
    FillMirrors(t, pt, va, r, resp, phys, d.Phys(), backend, hostMem, off, n, k, data, route);
  }

  /** The copy, with the bytes that arrive. */
  method Fetch(d: Copy.GuestDriver, pt: map<nat, nat>, runtime: bool, at: nat, n: nat, dev: nat, ghost q: Resource,
               reqIov: Iov, resp: Iov)
    returns (ok: bool, ghost k: nat, ghost data: seq<byte>)
    requires Callable(d, pt, at, n, resp) && InsideAllocation(d.host.ListOf(MEM), q, dev, n, |d.host.backend|)
    requires reqIov.len == Vhost.RequestLen(Vhost.Memcpy(runtime, at, dev, n, 2))
    modifies d, d.host, d.host.guest, d.host.ctx
    ensures k == |data| <= n && (ok ==> k == n) && (NoFailure(d, pt, at, n) ==> ok)
    ensures data == Read(old(d.host.backend), q.realPtr + (dev - q.handle), k)
    ensures Received(pt, at, k, data, resp, old(d.Phys()), d.Phys())
    ensures d.host.backend == old(d.host.backend) && d.host.ListOf(HOST_MEM) == old(d.host.ListOf(HOST_MEM))
  {
    var ret;
    ret, k := CopyFromDevice(d, pt, runtime, at, n, dev, q, reqIov, resp);
    ok := ret == 0 && (n == 0 || Driver.ResponseError(d.Phys(), resp) == 0);
    data := Read(d.host.backend, q.realPtr + (dev - q.handle), k);
  }

  /* ---- allocation ---- */

  /** A buffer allocated whole is there twice, and the host's table has its entry before all others. */
  lemma AllocMirrors(t: Coherence.Twin, pt: map<nat, nat>, va: nat, size: nat, start: nat, resp: Iov, phys: seq<byte>,
                     phys': seq<byte>, backend: seq<byte>, hostMem: seq<Resource>)
    requires Coherence.Ok(t) && t.table == hostMem && va > 0 && va !in t.reg && size > 0 && start + size <= |backend|
    requires Driver.RespApart(pt, va, size, resp, |phys'|) && Driver.SameOutside(phys', phys, resp)
    requires Readable(pt, va, size, phys)
    ensures
      var data := UserBytes(pt, va, size, phys);
      Mirrors(Coherence.Step(t, Coherence.Alloc(va, data, start)), pt, va, Resource(va, start, size), phys',
              Splice(backend, start, data), [Resource(va, start, size)] + hostMem)
  {
    var data, r := UserBytes(pt, va, size, phys), Resource(va, start, size);
    Driver.UserBytesKept(pt, va, size, 0, size, resp, phys', phys);
    RulesAdded(hostMem, r, r);
    assert Read(Splice(backend, start, data), start, size) == data;
  }

  /** cuMemHostAlloc of a non-empty buffer: it is there twice, with the bytes that malloc's
      memory held, or the host's table says what moved before the failure. */
  method AllocBuffer(d: Copy.GuestDriver, pt: map<nat, nat>, va: nat, size: nat, ghost start: nat,
                     ghost t: Coherence.Twin, reqIov: Iov, resp: Iov)
    returns (ok: bool, ghost t': Coherence.Twin)
    requires Callable(d, pt, va, size, resp) && va + size < U64 && 0 < size && 0 < va && va !in t.reg
    requires 0 < start == d.host.cuda.pinnedAt(d.host.calls) && start + size <= |d.host.backend| < U64
    requires reqIov.len == Vhost.RequestLen(Vhost.HostAlloc(size, va, 0))
    requires Coherence.Ok(t) && t.table == d.host.ListOf(HOST_MEM)
    modifies d, d.host, d.host.guest, d.host.ctx
    ensures ok ==>
      && Readable(pt, va, size, old(d.Phys()))
      && t' == Coherence.Step(t, Coherence.Alloc(va, UserBytes(pt, va, size, old(d.Phys())), start))
      && Mirrors(t', pt, va, Resource(va, start, size), d.Phys(), d.host.backend, d.host.ListOf(HOST_MEM))
    ensures ok || ((t' == t || t' == Coherence.Step(t, Coherence.FailedAlloc(va, size, start)))
                   && t'.table == d.host.ListOf(HOST_MEM))
    ensures NoFailure(d, pt, va, size) && d.host.ctx != null ==> ok
  {
    ghost var phys, backend, hostMem := d.Phys(), d.host.backend, d.host.ListOf(HOST_MEM);
    var ret;
    ghost var k;
    ret, k := AllocPinned(d, pt, va, size, start, reqIov, resp);
    ok := ret == 0 && Driver.ResponseError(d.Phys(), resp) == 0;
    if ok {
      AllocMirrors(t, pt, va, size, start, resp, phys, d.Phys(), backend, hostMem);
      t' := Coherence.Step(t, Coherence.Alloc(va, UserBytes(pt, va, size, phys), start));
    } else {
      t' := if k > 0 then Coherence.Step(t, Coherence.FailedAlloc(va, size, start)) else t;
    }
  }
}
