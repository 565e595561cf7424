/** The vhost-user backend's copy handlers and the response placement of its queue loop
    (host/vhost/cmd_driver.c, cmd_runtime.c, core_driver.c, vhost_user_hmcuda.c). */
module Vhost {
  import opened Api
  import opened Memory
  import opened Resources
  import opened Patching
  import opened ScatterList
  import opened Chunks

  const CMD_MEMCPY: nat := 0x3
  const CMD_CU_MEM_HOST_ALLOC: nat := 0x1001A
  const CMD_CU_MEMCPY: nat := 0x1001F

  /** The request structure at the front of the first readable descriptor. */
  datatype Request =
    | Memcpy(runtime: bool, dst: nat, src: nat, count: nat, kind: nat)
    | HostAlloc(bytesize: nat, guestVa: nat, byteOffset: nat)

  function CmdType(req: Request): nat {
    match req
    case Memcpy(runtime, _, _, _, _) => if runtime then CMD_MEMCPY else CMD_CU_MEMCPY
    case HostAlloc(_, _, _) => CMD_CU_MEM_HOST_ALLOC
  }

  /** Request header plus request structure, in bytes. */
  function RequestLen(req: Request): nat {
    if req.Memcpy? then HEADER_LEN + 40 else HEADER_LEN + 32
  }

  /** A popped chain: device-readable descriptors, device-writable descriptors, and the
      request that the first readable one holds. */
  datatype VqElement = VqElement(outSg: seq<Iov>, inSg: seq<Iov>, req: Request)

  function ResponseBytes(cmd: nat, err: nat): (r: seq<byte>)
    ensures |r| == HEADER_LEN
  {
    Encode(cmd, 4) + Encode(err, 4)
  }

  /** What CUDA answers; every call of a run consumes the next index. */
  datatype Cuda = Cuda(
    result: nat -> uint32,       // outcome of the n-th call, 0 for success
    pinnedAt: nat -> nat,        // address cuMemHostAlloc would return at the n-th call
    deviceView: nat -> nat,      // address cuMemHostGetDevicePointer would return
    mallocFails: nat -> bool)    // no memory for the patch buffer

  /** CUDA never fails. */
  ghost predicate Healthy(cuda: Cuda) {
    && (forall n :: cuda.result(n) == 0)
    && (forall n :: !cuda.mallocFails(n))
  }

  /** The calls `from .. to` succeeded, except that the last one may have failed with `err`. */
  ghost predicate FirstFailure(cuda: Cuda, from: nat, to: nat, err: nat) {
    && from <= to && (forall n | from <= n < to - 1 :: cuda.result(n) == 0)
    && err == if to == from then 0 else cuda.result(to - 1)
  }

  /** The error of a run of chunks at target `t`: 0, that of the missing context or target, that
      of the first CUDA call to fail, or (pinned memory, which makes no call, and only when it
      is `patched`) that of the missing patch buffer. */
  ghost predicate Told(cuda: Cuda, live: bool, t: Target, patched: bool, from: nat, to: nat, err: nat) {
    match t
    case Nowhere => to == from && (err == 0 || err == if live then 1 else 3)
    case At(_, pinned) =>
      if pinned then to == from && (err == 0 || (patched && err == 2)) else FirstFailure(cuda, from, to, err)
  }

  /** The runtime's copies end with a CUDA call. */
  lemma SyncTold(cuda: Cuda, live: bool, t: Target, from: nat, mid: nat, to: nat, err: nat)
    requires Told(cuda, live, t, false, from, mid, 0) && to == mid + 1 && err == cuda.result(mid)
    requires t.At? && !t.pinned
    ensures Told(cuda, live, t, false, from, to, err)
  {
  }

  lemma ToldOn(cuda: Cuda, live: bool, t: Target, patched: bool, from: nat, mid: nat, to: nat, err: nat)
    requires Told(cuda, live, t, patched, from, mid, 0) && Told(cuda, live, t, patched, mid, to, err) && to <= mid + 1
    ensures Told(cuda, live, t, patched, from, to, err)
  {
  }

  /** Where a handle leads: device memory first, then (driver API only) pinned memory. */
  datatype Target = Nowhere | At(p: nat, pinned: bool)

  function TargetOf(mem: seq<Resource>, hostMem: seq<Resource>, runtime: bool, h: nat): Target {
    var d := Lookup(mem, MEM, h);
    if d != 0 then At(d, false)
    else
      var p := if runtime then 0 else Lookup(hostMem, HOST_MEM, h);
      if p != 0 then At(p, true) else Nowhere
  }

  /** The handles `h .. h + n` lead to consecutive backend bytes from `start`. */
  ghost predicate Backed(mem: seq<Resource>, hostMem: seq<Resource>, runtime: bool, h: nat, n: nat, start: nat,
                         pinned: bool) {
    forall k | h <= k < h + n :: TargetOf(mem, hostMem, runtime, k) == At(start + (k - h), pinned)
  }

  /** Where a copy of `n` bytes at handle `h` goes: into one backed stretch, or nowhere. */
  ghost predicate ReachesIn(mem: seq<Resource>, hostMem: seq<Resource>, runtime: bool, h: nat, n: nat, start: nat,
                            pinned: bool) {
    && h + n <= U64
    && (Backed(mem, hostMem, runtime, h, n, start, pinned) || (n > 0 && TargetOf(mem, hostMem, runtime, h) == Nowhere))
  }

  /** A range inside one allocation that no newer entry overlaps is backed by that allocation. */
  lemma InsideOneAllocation(mem: seq<Resource>, hostMem: seq<Resource>, runtime: bool, h: nat, n: nat, r: Resource)
    requires AllSound(mem) && Rules(mem, r) && r.handle <= h && h + n <= r.handle + r.size
    ensures h + n < U64 && Backed(mem, hostMem, runtime, h, n, r.realPtr + (h - r.handle), false)
  {
    RulerListed(mem, r);
    forall k | h <= k < h + n
      ensures TargetOf(mem, hostMem, runtime, k) == At(r.realPtr + (h - r.handle) + (k - h), false)
    {
      RulerResolves(mem, MEM, r, k);
    }
  }

  lemma InsideOnePinnedBuffer(mem: seq<Resource>, hostMem: seq<Resource>, h: nat, n: nat, r: Resource)
    requires AllSound(hostMem) && Rules(hostMem, r) && r.handle <= h && h + n <= r.handle + r.size
    requires AllSound(mem) && forall m | m in mem :: Apart(m, r)
    ensures h + n < U64 && Backed(mem, hostMem, false, h, n, r.realPtr + (h - r.handle), true)
  {
    RulerListed(hostMem, r);
    forall k | h <= k < h + n
      ensures TargetOf(mem, hostMem, false, k) == At(r.realPtr + (h - r.handle) + (k - h), true)
    {
      NoneResolves(mem, MEM, k);
      RulerResolves(hostMem, HOST_MEM, r, k);
    }
  }

  /** The runtime's copies know device memory only. */
  lemma RuntimeKnowsDeviceOnly(mem: seq<Resource>, hostMem: seq<Resource>, h: nat)
    requires AllSound(mem) && forall m | m in mem :: !Inside(m, h)
    ensures TargetOf(mem, hostMem, true, h) == Nowhere
  {
    NoneResolves(mem, MEM, h);
  }

  /** A lookup checks the first address only.  From anywhere inside an allocation with no live
      range right behind it, it succeeds for every length, but the bytes are backed exactly
      when the copy ends inside the allocation. */
  lemma LookupChecksStartOnly(mem: seq<Resource>, hostMem: seq<Resource>, runtime: bool, h: nat, n: nat, r: Resource)
    requires AllSound(mem) && Disjoint(mem) && AllSound(hostMem) && Disjoint(hostMem)
    requires r in mem && Inside(r, h)
    requires forall q | q in mem || q in hostMem :: !Inside(q, r.handle + r.size)
    ensures TargetOf(mem, hostMem, runtime, h) == At(r.realPtr + (h - r.handle), false)
    ensures Backed(mem, hostMem, runtime, h, n, r.realPtr + (h - r.handle), false) <==> h + n <= r.handle + r.size
  {
    LookupIsIntervalMap(mem, MEM, h);
    if h + n <= r.handle + r.size {
      DisjointRules(mem, r);
      InsideOneAllocation(mem, hostMem, runtime, h, n, r);
    } else {
      var past := r.handle + r.size;
      LookupIsIntervalMap(mem, MEM, past);
      LookupIsIntervalMap(hostMem, HOST_MEM, past);
      assert TargetOf(mem, hostMem, runtime, past) == Nowhere;
    }
  }

  function PinnedEntries(hostMem0: seq<Resource>, req: Request, start: nat, present: bool): seq<Resource>
    requires req.HostAlloc?
  {
    (if present then [Resource(req.guestVa, start, req.bytesize)] else []) + hostMem0
  }

  ghost predicate Fillable(req: Request, phys: seq<byte>, addrs: seq<nat>, size: nat, start: nat) {
    && req.HostAlloc? && InBounds(phys, addrs) && req.byteOffset + |addrs| <= req.bytesize
    && 0 < start && start + req.bytesize <= size && size < U64 && req.guestVa + req.bytesize < U64
  }

  /** What a pinned allocation changes of the host. */
  datatype Store = Store(backend: seq<byte>, mem: seq<Resource>, hostMem: seq<Resource>, allocs: nat, copied: nat)

  /** `k` bytes of this batch are in the pinned buffer over the state `s0`; the table has
      its entry if and only if a byte of the buffer was copied. */
  ghost predicate Filled(s0: Store, hostMem0: seq<Resource>, req: Request, phys: seq<byte>, addrs: seq<nat>, start: nat,
                         k: nat, s: Store)
    requires Fillable(req, phys, addrs, |s0.backend|, start)
  {
    && k <= |addrs|
    && s.hostMem == PinnedEntries(hostMem0, req, start, req.byteOffset + k > 0) && s.mem == s0.mem
    && s.allocs == s0.allocs + (if req.byteOffset == 0 && k > 0 then 1 else 0) && s.copied == s0.copied + k
    && s.backend == Splice(s0.backend, start + req.byteOffset, Gather(phys, addrs[..k]))
  }

  /** What one more chunk of `n` bytes from `base` makes of the state. */
  function StoreChunk(s: Store, hostMem0: seq<Resource>, req: Request, phys: seq<byte>, start: nat, offset: nat,
                      base: nat, n: nat): Store
    requires req.HostAlloc? && base + n <= |phys| && start + offset + n <= |s.backend|
  {
    Store(Splice(s.backend, start + offset, Read(phys, base, n)), s.mem, PinnedEntries(hostMem0, req, start, true),
          s.allocs + (if offset == 0 then 1 else 0), s.copied + n)
  }

  lemma FilledOn(s0: Store, hostMem0: seq<Resource>, req: Request, phys: seq<byte>, addrs: seq<nat>, start: nat, k: nat,
                 s: Store, base: nat, chunk: nat)
    requires Fillable(req, phys, addrs, |s0.backend|, start) && 0 < chunk && k + chunk <= |addrs|
      && base + chunk <= |phys|
    requires addrs[..k + chunk] == addrs[..k] + Range(base, chunk)
    requires Filled(s0, hostMem0, req, phys, addrs, start, k, s)
    ensures Filled(s0, hostMem0, req, phys, addrs, start, k + chunk,
                   StoreChunk(s, hostMem0, req, phys, start, req.byteOffset + k, base, chunk))
  {
    FillStep(s0.backend, start, req.byteOffset, phys, addrs, k, base, chunk);
  }

  /** The newest entry of a list is found by its base address. */
  lemma EntryResolves(hostMem0: seq<Resource>, req: Request, start: nat)
    requires req.HostAlloc? && 0 < start && start + req.bytesize < U64 && req.guestVa + req.bytesize < U64
      && req.bytesize > 0
    ensures Lookup(PinnedEntries(hostMem0, req, start, true), HOST_MEM, req.guestVa) == start
  {
    var r := Resource(req.guestVa, start, req.bytesize);
    assert PinnedEntries(hostMem0, req, start, true)[0] == r;
    assert Wrap64(r.handle + r.size) == r.handle + r.size;
  }

  /* ---- the chunk loops ---- */

  /** The first `chunk` bytes of entry `j` follow the addresses of the entries before it. */
  lemma ChunkAt(sg: seq<Iov>, j: nat, chunk: nat)
    requires j < |sg| && chunk <= sg[j].len
    ensures |Addrs(sg[..j])| + chunk <= |Addrs(sg)|
    ensures Addrs(sg)[..|Addrs(sg[..j])|] == Addrs(sg[..j])
    ensures Addrs(sg)[..|Addrs(sg[..j])| + chunk] == Addrs(sg[..j]) + Range(sg[j].base, chunk)
    ensures |Addrs(sg[..j + 1])| == |Addrs(sg[..j])| + sg[j].len
  {
    AddrsSlice(sg, j);
    assert Range(sg[j].base, sg[j].len)[..chunk] == Range(sg[j].base, chunk);
  }

  /** Bytes of entry `j` that the loop still copies, `offset` bytes into the request. */
  function ChunkLen(sg: seq<Iov>, j: nat, offset: nat, count: nat): nat
    requires j < |sg| && offset <= count
  {
    if offset + sg[j].len > count then count - offset else sg[j].len
  }

  /** Before entry `j` the loop has copied exactly the entries before it, or all it wants. */
  ghost predicate AtEntry(sg: seq<Iov>, j: nat, offset: nat, count: nat) {
    && j <= |sg| && offset <= count <= |Addrs(sg)|
    && offset == (if |Addrs(sg[..j])| < count then |Addrs(sg[..j])| else count)
  }

  lemma NextEntry(sg: seq<Iov>, j: nat, offset: nat, count: nat)
    requires j < |sg| && AtEntry(sg, j, offset, count) && offset < count && NoEmptyEntry(sg)
    ensures
      var chunk := ChunkLen(sg, j, offset, count);
      && 0 < chunk <= sg[j].len && AtEntry(sg, j + 1, offset + chunk, count)
      && Addrs(sg)[..offset + chunk] == Addrs(sg)[..offset] + Range(sg[j].base, chunk)
  {
    ChunkAt(sg, j, ChunkLen(sg, j, offset, count));
  }

  lemma FirstEntry(sg: seq<Iov>, count: nat)
    requires count <= |Addrs(sg)|
    ensures AtEntry(sg, 0, 0, count)
  {
    assert sg[..0] == [];
  }

  lemma LastEntry(sg: seq<Iov>, offset: nat, count: nat)
    requires AtEntry(sg, |sg|, offset, count)
    ensures offset == count
  {
    assert sg[..|sg|] == sg;
  }

  lemma GatherAppend(mem: seq<byte>, a: seq<nat>, b: seq<nat>)
    requires InBounds(mem, a) && InBounds(mem, b)
    ensures InBounds(mem, a + b) && Gather(mem, a + b) == Gather(mem, a) + Gather(mem, b)
  {
  }

  ghost predicate WholeChunk(sg: seq<Iov>, chunks: seq<seq<byte>>, j: nat)
    requires j < |chunks| <= |sg|
  {
    |chunks[j]| == sg[j].len
  }

  /** `chunks` are the first bytes of the list, one chunk an entry; only the chunk that
      reaches `count` may be shorter than its entry. */
  ghost predicate Sends(mem: seq<byte>, sg: seq<Iov>, count: nat, chunks: seq<seq<byte>>)
    requires InBounds(mem, Addrs(sg))
  {
    && |chunks| <= |sg| && |Concat(chunks)| <= count && |Concat(chunks)| <= |Addrs(sg)|
    && Concat(chunks) == Gather(mem, Addrs(sg)[..|Concat(chunks)|])
    && forall j | 0 <= j < |chunks| :: WholeChunk(sg, chunks, j) || (j + 1 == |chunks| && |Concat(chunks)| == count)
  }

  lemma NothingSent(b0: seq<byte>, start: nat, mem: seq<byte>, sg: seq<Iov>, count: nat, list: seq<Resource>,
                    pinned: bool)
    requires InBounds(mem, Addrs(sg)) && start <= |b0|
    ensures Concat([]) == [] && Sends(mem, sg, count, []) && Splice(b0, start, Images(list, pinned, [])) == b0
  {
    assert |Images(list, pinned, [])| == 0;
  }

  lemma RangeInBounds(mem: seq<byte>, addrs: seq<nat>, k: nat, base: nat, chunk: nat)
    requires InBounds(mem, addrs) && 0 < chunk && k + chunk <= |addrs|
    requires addrs[..k + chunk] == addrs[..k] + Range(base, chunk)
    ensures base + chunk <= |mem|
  {
    assert addrs[..k + chunk][k + chunk - 1] == base + chunk - 1;
    assert addrs[k + chunk - 1] < |mem|;
  }

  /** The next chunk follows those before it ... */
  lemma SendsOn(mem: seq<byte>, sg: seq<Iov>, count: nat, chunks: seq<seq<byte>>, chunk: nat)
    requires InBounds(mem, Addrs(sg)) && Sends(mem, sg, count, chunks) && NoEmptyEntry(sg)
    requires |chunks| < |sg| && |Concat(chunks)| < count && AtEntry(sg, |chunks|, |Concat(chunks)|, count)
    requires chunk == ChunkLen(sg, |chunks|, |Concat(chunks)|, count)
    ensures sg[|chunks|].base + chunk <= |mem|
    ensures
      var next := chunks + [Read(mem, sg[|chunks|].base, chunk)];
      Sends(mem, sg, count, next) && |Concat(next)| == |Concat(chunks)| + chunk
  {
    var j, k := |chunks|, |Concat(chunks)|;
    NextEntry(sg, j, k, count);
    EntryInBounds(mem, sg, j);
    ReadIsGather(mem, sg[j].base, chunk);
    GatherAppend(mem, Addrs(sg)[..k], Range(sg[j].base, chunk));
    var next := chunks + [Read(mem, sg[j].base, chunk)];
    ConcatSnoc(chunks, Read(mem, sg[j].base, chunk));
    forall i | 0 <= i < |next| ensures WholeChunk(sg, next, i) || (i + 1 == |next| && |Concat(next)| == count) {
      assert i < j ==> WholeChunk(sg, chunks, i);
    }
  }

  lemma ImagesOn(b0: seq<byte>, start: nat, list: seq<Resource>, pinned: bool, chunks: seq<seq<byte>>, data: seq<byte>)
    requires start + |Concat(chunks)| + |data| <= |b0|
    ensures |Concat(chunks + [data])| == |Concat(chunks)| + |data|
    ensures Splice(Splice(b0, start, Images(list, pinned, chunks)), start + |Concat(chunks)|, Image(list, pinned, data))
            == Splice(b0, start, Images(list, pinned, chunks + [data]))
  {
    ConcatSnoc(chunks, data);
    ImagesAppend(list, pinned, chunks, [data]);
    OneImage(list, pinned, data);
    SpliceAppend(b0, start, Images(list, pinned, chunks), Image(list, pinned, data));
  }

  /** `chunks`, the first bytes of the list, are in place over the memory `b0`. */
  ghost predicate Placed(b0: seq<byte>, mem: seq<byte>, sg: seq<Iov>, count: nat, start: nat, list: seq<Resource>,
                         pinned: bool, chunks: seq<seq<byte>>, backend: seq<byte>) {
    && InBounds(mem, Addrs(sg)) && start + count <= |b0|
    && Sends(mem, sg, count, chunks) && backend == Splice(b0, start, Images(list, pinned, chunks))
  }

  /** A non-empty entry is real memory when all addresses of the list are. */
  lemma EntryInBounds(mem: seq<byte>, sg: seq<Iov>, j: nat)
    requires InBounds(mem, Addrs(sg)) && j < |sg| && sg[j].len > 0
    ensures sg[j].base + sg[j].len <= |mem|
  {
    AddrsSlice(sg, j);
    var last := |Addrs(sg[..j])| + sg[j].len - 1;
    assert Addrs(sg)[last] == Addrs(sg[..j + 1])[last] == sg[j].base + sg[j].len - 1;
  }

  /** ... at the destination, too. */
  lemma PlacedOn(b0: seq<byte>, mem: seq<byte>, sg: seq<Iov>, count: nat, start: nat, list: seq<Resource>, pinned: bool,
                 chunks: seq<seq<byte>>, backend: seq<byte>, j: nat, offset: nat, chunk: nat, data: seq<byte>,
                 sent: seq<byte>)
    requires Placed(b0, mem, sg, count, start, list, pinned, chunks, backend) && NoEmptyEntry(sg)
    requires j == |chunks| < |sg| && offset == |Concat(chunks)| < count && AtEntry(sg, j, offset, count)
    requires chunk == ChunkLen(sg, j, offset, count) && sg[j].base + chunk <= |mem|
      && data == Read(mem, sg[j].base, chunk)
    requires offset + chunk <= count && sent == Splice(backend, start + offset, Image(list, pinned, data))
    ensures |Concat(chunks + [data])| == offset + chunk
    ensures Placed(b0, mem, sg, count, start, list, pinned, chunks + [data], sent)
  {
    SendsOn(mem, sg, count, chunks, chunk);
    ImagesOn(b0, start, list, pinned, chunks, data);
  }

  /** Filling the next chunk extends what was received. */
  lemma ReceiveStep(m0: seq<byte>, addrs: seq<nat>, backend: seq<byte>, start: nat, k: nat, base: nat, chunk: nat)
    requires InBounds(m0, addrs) && k + chunk <= |addrs| && start + k + chunk <= |backend|
    requires addrs[..k + chunk] == addrs[..k] + Range(base, chunk) && base + chunk <= |m0|
    ensures Splice(Scatter(m0, addrs[..k], Read(backend, start, k)), base, Read(backend, start + k, chunk))
            == Scatter(m0, addrs[..k + chunk], Read(backend, start, k + chunk))
  {
    var m1 := Scatter(m0, addrs[..k], Read(backend, start, k));
    ScatterRange(m1, base, Read(backend, start + k, chunk));
    ScatterAppend(m0, addrs[..k], Read(backend, start, k), Range(base, chunk), Read(backend, start + k, chunk));
    ReadAppend(backend, start, k, chunk);
  }

  /** The guest memory after `k` bytes have been delivered to `addrs` and the answer written. */
  function Replied(m: seq<byte>, addrs: seq<nat>, backend: seq<byte>, start: nat, k: nat, resp: Iov, cmd: nat,
                   err: nat): seq<byte>
    requires InBounds(m, addrs) && k <= |addrs| && start + k <= |backend| && ResponseFits(resp, |m|)
  {
    Splice(Scatter(m, addrs[..k], Read(backend, start, k)), resp.base, ResponseBytes(cmd, err))
  }

  ghost predicate Replies(m: seq<byte>, data: seq<Iov>, backend: seq<byte>, start: nat, k: nat, resp: Iov, cmd: nat,
                          err: nat, m': seq<byte>) {
    && InBounds(m, Addrs(data)) && k <= |Addrs(data)| && start + k <= |backend| && ResponseFits(resp, |m|)
    && m' == Replied(m, Addrs(data), backend, start, k, resp, cmd, err)
  }

  /** The first `k` bytes of the source are at the first `k` addresses, over the memory `m0`. */
  ghost predicate Landed(m0: seq<byte>, addrs: seq<nat>, backend: seq<byte>, start: nat, k: nat, m: seq<byte>) {
    && InBounds(m0, addrs) && k <= |addrs| && start + k <= |backend|
    && m == Scatter(m0, addrs[..k], Read(backend, start, k))
  }

  lemma LandedOn(m0: seq<byte>, addrs: seq<nat>, backend: seq<byte>, start: nat, k: nat, m: seq<byte>, base: nat,
                 chunk: nat, m': seq<byte>)
    requires Landed(m0, addrs, backend, start, k, m) && k + chunk <= |addrs| && start + k + chunk <= |backend|
    requires addrs[..k + chunk] == addrs[..k] + Range(base, chunk) && base + chunk <= |m0|
    requires m' == Splice(m, base, Read(backend, start + k, chunk))
    ensures Landed(m0, addrs, backend, start, k + chunk, m')
  {
    ReceiveStep(m0, addrs, backend, start, k, base, chunk);
  }

  class Host {
    const guest: Phys
    const ctx: Context?          // what hmcuda_ctx_get finds for this session and machine
    const cuda: Cuda
    var backend: seq<byte>       // device memory and pinned buffers
    var calls: nat               // CUDA calls so far
    var pinnedAllocs: nat        // successful cuMemHostAlloc calls
    var copied: nat              // bytes stored to freshly allocated pinned buffers

    constructor (guest: Phys, ctx: Context?, cuda: Cuda, backend: seq<byte>)
      ensures this.guest == guest && this.ctx == ctx && this.cuda == cuda && this.backend == backend
      ensures calls == 0 && pinnedAllocs == 0 && copied == 0
    {
      this.guest, this.ctx, this.cuda, this.backend := guest, ctx, cuda, backend;
      calls, pinnedAllocs, copied := 0, 0, 0;
    }

    function ListOf(t: ResourceType): seq<Resource>
      reads ctx
    {
      if ctx == null then [] else ctx.List(t)
    }

    function Find(runtime: bool, h: nat): Target
      reads ctx
    {
      TargetOf(ListOf(MEM), ListOf(HOST_MEM), runtime, h)
    }

    method Call() returns (err: nat)
      modifies this`calls
      ensures err == cuda.result(old(calls)) && calls == old(calls) + 1
    {
      err := cuda.result(calls);
      calls := calls + 1;
    }

    method Resolve(runtime: bool, h: nat) returns (t: Target)
      requires ctx != null
      ensures t == Find(runtime, h)
    {
      var p := ctx.Get(MEM, h);
      if p != 0 {
        return At(p, false);
      }
      if !runtime {
        p := ctx.Get(HOST_MEM, h);
      }
      t := if p != 0 then At(p, true) else Nowhere;
    }

    /** The bytes of a pinned transfer, translated through a private buffer when the scan says so. */
    method Translate(data: seq<byte>) returns (ok: bool, out: seq<byte>)
      requires ctx != null
      ensures ok ==> out == Patch(ListOf(HOST_MEM), data)
      ensures !ok <==> NeedsPatch(ListOf(HOST_MEM), data) && cuda.mallocFails(calls)
    {
      var list := ctx.List(HOST_MEM);
      var buf := new byte[|data|](i requires 0 <= i < |data| => data[i]);
      assert buf[..] == data;
      var needs := BufferNeedsPatch(list, buf);
      if needs {
        if cuda.mallocFails(calls) {
          return false, data;
        }
        PatchEmbedded(list, buf);
        return true, buf[..];
      }
      PatchSkippable(list, data);
      return true, data;
    }

    /** One chunk to the device: hmcuda_core_cu_memcpy_htod_vq, and the runtime variant
        that knows device memory only. */
    method HtodVq(runtime: bool, dst: nat, base: nat, n: nat) returns (err: nat)
      requires base + n <= |guest.bytes|
      requires Find(runtime, dst).At? ==> Find(runtime, dst).p + n <= |backend|
      modifies this`backend, this`calls
      ensures err < 0x1_0000_0000
      ensures ctx == null ==> err == CUDA_ERROR_NOT_INITIALIZED
      ensures ctx != null && Find(runtime, dst) == Nowhere ==> err == CUDA_ERROR_INVALID_VALUE
      ensures calls == old(calls)
        + if ctx != null && Find(runtime, dst).At? && !Find(runtime, dst).pinned then 1 else 0
      ensures ctx != null && Find(runtime, dst).At? ==>
        err == if !Find(runtime, dst).pinned then cuda.result(old(calls))
               else if NeedsPatch(ListOf(HOST_MEM), Read(guest.bytes, base, n)) && cuda.mallocFails(old(calls)) then 2
               else 0
      ensures err != 0 ==> backend == old(backend)
      ensures err == 0 ==>
        var t := Find(runtime, dst);
        backend == Splice(old(backend), t.p, Image(ListOf(HOST_MEM), t.pinned, Read(guest.bytes, base, n)))
    {
      if ctx == null {
        return CUDA_ERROR_NOT_INITIALIZED;
      }
      var t := Resolve(runtime, dst);
      if t == Nowhere {
        return CUDA_ERROR_INVALID_VALUE;
      }
      var data := Read(guest.bytes, base, n);
      if t.pinned {
        var ok, out := Translate(data);
        if !ok {
          return CUDA_ERROR_OUT_OF_MEMORY;
        }
        backend := Splice(backend, t.p, out);
        return 0;
      }
      err := Call();
      if err == 0 {
        backend := Splice(backend, t.p, data);
      }
    }

    /** One chunk from the device: hmcuda_core_cu_memcpy_dtoh_vq and hmcuda_core_memcpy. */
    method DtohVq(runtime: bool, src: nat, base: nat, n: nat) returns (err: nat)
      requires base + n <= |guest.bytes|
      requires Find(runtime, src).At? ==> Find(runtime, src).p + n <= |backend|
      modifies guest, this`calls
      ensures err < 0x1_0000_0000
      ensures ctx == null ==> err == CUDA_ERROR_NOT_INITIALIZED
      ensures ctx != null && Find(runtime, src) == Nowhere ==> err == CUDA_ERROR_INVALID_VALUE
      ensures calls == old(calls)
        + if ctx != null && Find(runtime, src).At? && !Find(runtime, src).pinned then 1 else 0
      ensures ctx != null && Find(runtime, src).At? ==>
        err == if Find(runtime, src).pinned then 0 else cuda.result(old(calls))
      ensures err != 0 ==> guest.bytes == old(guest.bytes)
      ensures err == 0 ==>
        guest.bytes == Splice(old(guest.bytes), base, Read(backend, Find(runtime, src).p, n))
    {
      if ctx == null {
        return CUDA_ERROR_NOT_INITIALIZED;
      }
      var t := Resolve(runtime, src);
      if t == Nowhere {
        return CUDA_ERROR_INVALID_VALUE;
      }
      err := 0;
      if !t.pinned {
        err := Call();
      }
      if err == 0 {
        guest.bytes := Splice(guest.bytes, base, Read(backend, t.p, n));
      }
    }

    ghost predicate Reaches(runtime: bool, h: nat, n: nat, start: nat, pinned: bool)
      reads ctx
    {
      ReachesIn(ListOf(MEM), ListOf(HOST_MEM), runtime, h, n, start, pinned)
    }

    /** The data descriptors and the destination of an H2D request fit each other. */
    ghost predicate CanSend(req: Request, data: seq<Iov>, size: nat, start: nat, pinned: bool)
      reads guest, ctx
    {
      && req.Memcpy? && NoEmptyEntry(data) && InBounds(guest.bytes, Addrs(data))
      && Reaches(req.runtime, req.dst, req.count, start, pinned) && start + req.count <= size
    }

    /** `chunks` are in place over the memory `b0`, and nothing else has changed. */
    ghost predicate SentSoFar(b0: seq<byte>, req: Request, data: seq<Iov>, start: nat, pinned: bool,
                              chunks: seq<seq<byte>>)
      requires CanSend(req, data, |b0|, start, pinned)
      reads this`backend, guest, ctx
    {
      Placed(b0, guest.bytes, data, req.count, start, ListOf(HOST_MEM), pinned, chunks, backend)
    }

    /** The error of a copy in, unless the data is too short for it. */
    ghost predicate InTold(req: Request, data: seq<Iov>, from: nat, err: nat)
      requires req.Memcpy?
      reads this`calls, ctx
    {
      |Addrs(data)| < req.count || Told(cuda, ctx != null, Find(req.runtime, req.dst), true, from, calls, err)
    }

    /** ... and of a copy out that has something to copy. */
    ghost predicate OutTold(req: Request, data: seq<Iov>, from: nat, err: nat)
      requires req.Memcpy?
      reads this`calls, ctx
    {
      || |Addrs(data)| < req.count || req.count == 0
      || Told(cuda, ctx != null, Find(req.runtime, req.src), false, from, calls, err)
    }

    /** The H2D loop of handle_cu_memcpy and handle_memcpy over the data descriptors
        `out_sg[1..]`: each is copied to the destination resolved afresh at `dst + offset`. */
    method CopyIn(req: Request, data: seq<Iov>, totalOut: nat, ghost start: nat, ghost pinned: bool)
      returns (err: nat, ghost chunks: seq<seq<byte>>)
      requires CanSend(req, data, |backend|, start, pinned) && totalOut == RequestLen(req) + |Addrs(data)|
      modifies this`backend, this`calls
      ensures err < 0x1_0000_0000
      ensures SentSoFar(old(backend), req, data, start, pinned, chunks)
      ensures Concat(chunks) != [] ==> Find(req.runtime, req.dst) != Nowhere
      ensures err == 0 ==> |Concat(chunks)| == req.count
      ensures |Addrs(data)| < req.count ==> err == CUDA_ERROR_INVALID_VALUE && chunks == [] && calls == old(calls)
      ensures InTold(req, data, old(calls), err)
      ensures Healthy(cuda) && |Addrs(data)| >= req.count && Find(req.runtime, req.dst) != Nowhere ==> err == 0
    {
      NothingSent(backend, start, guest.bytes, data, req.count, ListOf(HOST_MEM), pinned);
      var avail := totalOut - RequestLen(req);
      if avail < req.count {
        return CUDA_ERROR_INVALID_VALUE, [];
      }
      err, chunks := CopyInLoop(req, data, start, pinned);
    }

    method CopyInLoop(req: Request, data: seq<Iov>, ghost start: nat, ghost pinned: bool)
      returns (err: nat, ghost chunks: seq<seq<byte>>)
      requires CanSend(req, data, |backend|, start, pinned) && SentSoFar(backend, req, data, start, pinned, [])
      requires req.count <= |Addrs(data)|
      modifies this`backend, this`calls
      ensures err < 0x1_0000_0000
      ensures SentSoFar(old(backend), req, data, start, pinned, chunks)
      ensures Concat(chunks) != [] ==> Find(req.runtime, req.dst) != Nowhere
      ensures err == 0 ==> |Concat(chunks)| == req.count
      ensures Told(cuda, ctx != null, Find(req.runtime, req.dst), true, old(calls), calls, err)
      ensures Healthy(cuda) && Find(req.runtime, req.dst) != Nowhere ==> err == 0
    {
      ghost var b0 := backend;
      FirstEntry(data, req.count);
      var offset: nat, i := 0, 0;
      chunks := [];
      while i < |data| && offset < req.count
        invariant AtEntry(data, i, offset, req.count) && |Concat(chunks)| == offset && |chunks| == i
        invariant SentSoFar(b0, req, data, start, pinned, chunks)
        invariant offset > 0 ==> Find(req.runtime, req.dst) != Nowhere
        invariant Told(cuda, ctx != null, Find(req.runtime, req.dst), true, old(calls), calls, 0)
      {
        var chunk;
        err, chunk, chunks := CopyEntryIn(b0, req, data, i, offset, start, pinned, chunks, old(calls));
        if err != 0 {
          return err, chunks;
        }
        offset := offset + chunk;
        i := i + 1;
      }
      if i == |data| {
        LastEntry(data, offset, req.count);
      }
      return 0, chunks;
    }

    /** One turn of that loop; `b0` is the memory before the loop. */
    method CopyEntryIn(ghost b0: seq<byte>, req: Request, data: seq<Iov>, i: nat, offset: nat, ghost start: nat,
                       ghost pinned: bool, ghost chunks: seq<seq<byte>>, ghost from: nat)
      returns (err: nat, chunk: nat, ghost next: seq<seq<byte>>)
      requires CanSend(req, data, |b0|, start, pinned) && SentSoFar(b0, req, data, start, pinned, chunks)
      requires i == |chunks| < |data| && offset == |Concat(chunks)| < req.count && AtEntry(data, i, offset, req.count)
      requires offset > 0 ==> Find(req.runtime, req.dst) != Nowhere
      requires Told(cuda, ctx != null, Find(req.runtime, req.dst), true, from, calls, 0)
      modifies this`backend, this`calls
      ensures err < 0x1_0000_0000 && (err == 0 ==> Find(req.runtime, req.dst) != Nowhere)
      ensures Told(cuda, ctx != null, Find(req.runtime, req.dst), true, from, calls, err)
      ensures Healthy(cuda) && Find(req.runtime, req.dst) != Nowhere ==> err == 0
      ensures err == 0 || (next == chunks && SentSoFar(b0, req, data, start, pinned, next))
      ensures err != 0 || SentSoFar(b0, req, data, start, pinned, next)
      ensures err != 0
        || (|Concat(next)| == offset + chunk && |next| == i + 1 && AtEntry(data, i + 1, offset + chunk, req.count))
    {
      chunk := data[i].len;
      if offset + chunk > req.count {
        chunk := req.count - offset;
      }
      NextEntry(data, i, offset, req.count);
      EntryInBounds(guest.bytes, data, i);
      ghost var b1, bytes := backend, Read(guest.bytes, data[i].base, chunk);
      next := chunks;
      ghost var mid := calls;
      err := SendChunk(req, offset, data[i].base, chunk, start, pinned);
      ToldOn(cuda, ctx != null, Find(req.runtime, req.dst), true, from, mid, calls, err);
      if err == 0 {
        next := chunks + [bytes];
        PlacedOn(b0, guest.bytes, data, req.count, start, ListOf(HOST_MEM), pinned, chunks, b1, i, offset, chunk, bytes,
          backend);
      }
    }

    /** One chunk, to the destination resolved afresh. */
    method SendChunk(req: Request, offset: nat, base: nat, chunk: nat, ghost start: nat, ghost pinned: bool)
      returns (err: nat)
      requires req.Memcpy? && 0 < chunk && offset + chunk <= req.count && base + chunk <= |guest.bytes|
      requires Reaches(req.runtime, req.dst, req.count, start, pinned) && start + req.count <= |backend|
      requires offset > 0 ==> Find(req.runtime, req.dst) != Nowhere
      modifies this`backend, this`calls
      ensures err < 0x1_0000_0000 && calls <= old(calls) + 1
      ensures err != 0 ==> backend == old(backend)
      ensures Told(cuda, ctx != null, Find(req.runtime, req.dst), true, old(calls), calls, err)
      ensures Healthy(cuda) && Find(req.runtime, req.dst) != Nowhere ==> err == 0
      ensures err == 0 ==> Find(req.runtime, req.dst) != Nowhere
      ensures err == 0 ==>
        backend == Splice(old(backend), start + offset, Image(ListOf(HOST_MEM), pinned, Read(guest.bytes, base, chunk)))
    {
      assert Find(req.runtime, req.dst + offset) == At(start + offset, pinned)
        || (offset == 0 && Find(req.runtime, req.dst) == Nowhere);
      err := HtodVq(req.runtime, Wrap64(req.dst + offset), base, chunk);
    }

    /* ---- device to host ---- */

    ghost predicate CanReceive(req: Request, data: seq<Iov>, memory: seq<byte>, start: nat, pinned: bool)
      reads this`backend, ctx
    {
      && req.Memcpy? && NoEmptyEntry(data) && InBounds(memory, Addrs(data))
      && Reaches(req.runtime, req.src, req.count, start, pinned) && start + req.count <= |backend|
    }

    /** `k` bytes of the source have landed over the guest memory `m0`, and nothing else has changed. */
    ghost predicate ReceivedSoFar(m0: seq<byte>, req: Request, data: seq<Iov>, start: nat, pinned: bool, k: nat)
      requires CanReceive(req, data, m0, start, pinned)
      reads this`backend, guest, ctx
    {
      k <= req.count && Landed(m0, Addrs(data), backend, start, k, guest.bytes)
    }

    /** The D2H loop of both handlers over the data descriptors `in_sg[0..in_num - 1]`;
        the runtime handler then synchronizes the stream. */
    method CopyOut(req: Request, data: seq<Iov>, ghost start: nat, ghost pinned: bool)
      returns (err: nat, ghost k: nat)
      requires CanReceive(req, data, guest.bytes, start, pinned)
      modifies guest, this`calls
      ensures err < 0x1_0000_0000
      ensures ReceivedSoFar(old(guest.bytes), req, data, start, pinned, k)
      ensures k > 0 ==> Find(req.runtime, req.src) != Nowhere
      ensures err == 0 ==> k == req.count
      ensures |Addrs(data)| < req.count ==> err == CUDA_ERROR_INVALID_VALUE && k == 0 && calls == old(calls)
      ensures OutTold(req, data, old(calls), err)
      ensures Healthy(cuda) && |Addrs(data)| >= req.count && Find(req.runtime, req.src) != Nowhere ==> err == 0
    {
      k := 0;
      err := 0;
      assert Scatter(guest.bytes, Addrs(data)[..0], Read(backend, start, 0)) == guest.bytes;
      var capacity := Capacity(data);
      if capacity < req.count {
        return CUDA_ERROR_INVALID_VALUE, 0;
      }
      err, k := CopyOutLoop(req, data, start, pinned);
      if err == 0 && req.runtime {
        ghost var mid := calls;
        err := Call();
        if req.count > 0 {
          SyncTold(cuda, ctx != null, Find(true, req.src), old(calls), mid, calls, err);
        }
      }
    }

    method CopyOutLoop(req: Request, data: seq<Iov>, ghost start: nat, ghost pinned: bool)
      returns (err: nat, ghost k: nat)
      requires CanReceive(req, data, guest.bytes, start, pinned)
        && ReceivedSoFar(guest.bytes, req, data, start, pinned, 0)
      requires req.count <= |Addrs(data)|
      modifies guest, this`calls
      ensures err < 0x1_0000_0000
      ensures OutOver(old(guest.bytes), req, data, start, pinned, old(calls), k, err)
      ensures Healthy(cuda) && Find(req.runtime, req.src) != Nowhere ==> err == 0
    {
      ghost var m0 := guest.bytes;
      FirstEntry(data, req.count);
      var offset: nat, i := 0, 0;
      while i < |data| && offset < req.count
        invariant OutAt(m0, req, data, i, offset, start, pinned, old(calls))
      {
        var chunk;
        err, chunk := CopyEntryOut(m0, req, data, i, offset, start, pinned, old(calls));
        if err != 0 {
          return err, offset;
        }
        offset := offset + chunk;
        i := i + 1;
      }
      AllOut(m0, req, data, i, offset, start, pinned, old(calls));
      return 0, offset;
    }

    /** The loop is over, with `k` bytes received. */
    ghost predicate OutOver(m0: seq<byte>, req: Request, data: seq<Iov>, start: nat, pinned: bool, from: nat, k: nat,
                            err: nat)
      requires CanReceive(req, data, m0, start, pinned)
      reads this`backend, this`calls, guest, ctx
    {
      && ReceivedSoFar(m0, req, data, start, pinned, k) && (err == 0 ==> k == req.count)
      && (k > 0 ==> Find(req.runtime, req.src) != Nowhere)
      && Told(cuda, ctx != null, Find(req.runtime, req.src), false, from, calls, err)
    }

    lemma AllOut(m0: seq<byte>, req: Request, data: seq<Iov>, i: nat, offset: nat, start: nat, pinned: bool, from: nat)
      requires CanReceive(req, data, m0, start, pinned) && OutAt(m0, req, data, i, offset, start, pinned, from)
      requires i == |data| || offset == req.count
      ensures OutOver(m0, req, data, start, pinned, from, offset, 0)
    {
      if i == |data| {
        LastEntry(data, offset, req.count);
      }
    }

    /** Before entry `i` of that loop, whose first call had number `from`. */
    ghost predicate OutAt(m0: seq<byte>, req: Request, data: seq<Iov>, i: nat, offset: nat, start: nat, pinned: bool,
                          from: nat)
      requires CanReceive(req, data, m0, start, pinned)
      reads this`backend, this`calls, guest, ctx
    {
      && AtEntry(data, i, offset, req.count) && ReceivedSoFar(m0, req, data, start, pinned, offset)
      && (offset > 0 ==> Find(req.runtime, req.src) != Nowhere)
      && Told(cuda, ctx != null, Find(req.runtime, req.src), false, from, calls, 0)
    }

    method CopyEntryOut(ghost m0: seq<byte>, req: Request, data: seq<Iov>, i: nat, offset: nat, ghost start: nat,
                        ghost pinned: bool, ghost from: nat) returns (err: nat, chunk: nat)
      requires CanReceive(req, data, m0, start, pinned) && i < |data| && offset < req.count
      requires OutAt(m0, req, data, i, offset, start, pinned, from)
      modifies guest, this`calls
      ensures err < 0x1_0000_0000
      ensures Healthy(cuda) && Find(req.runtime, req.src) != Nowhere ==> err == 0
      ensures err == 0 || OutOver(m0, req, data, start, pinned, from, offset, err)
      ensures err != 0 || OutAt(m0, req, data, i + 1, offset + chunk, start, pinned, from)
    {
      NextEntry(data, i, offset, req.count);
      chunk := data[i].len;
      if offset + chunk > req.count {
        chunk := req.count - offset;
      }
      EntryInBounds(m0, data, i);
      ghost var m, mid := guest.bytes, calls;
      err := ReceiveChunk(req, offset, data[i].base, chunk, start, pinned);
      ToldOn(cuda, ctx != null, Find(req.runtime, req.src), false, from, mid, calls, err);
      if err == 0 {
        LandedOn(m0, Addrs(data), backend, start, offset, m, data[i].base, chunk, guest.bytes);
      }
    }

    /** One chunk, from the source resolved afresh. */
    method ReceiveChunk(req: Request, offset: nat, base: nat, chunk: nat, ghost start: nat, ghost pinned: bool)
      returns (err: nat)
      requires req.Memcpy? && 0 < chunk && offset + chunk <= req.count && base + chunk <= |guest.bytes|
      requires Reaches(req.runtime, req.src, req.count, start, pinned) && start + req.count <= |backend|
      requires offset > 0 ==> Find(req.runtime, req.src) != Nowhere
      modifies guest, this`calls
      ensures err < 0x1_0000_0000 && calls <= old(calls) + 1
      ensures err != 0 ==> guest.bytes == old(guest.bytes)
      ensures Told(cuda, ctx != null, Find(req.runtime, req.src), false, old(calls), calls, err)
      ensures Healthy(cuda) && Find(req.runtime, req.src) != Nowhere ==> err == 0
      ensures err == 0 ==> Find(req.runtime, req.src) != Nowhere
      ensures err == 0 ==> guest.bytes == Splice(old(guest.bytes), base, Read(backend, start + offset, chunk))
    {
      assert Find(req.runtime, req.src + offset) == At(start + offset, pinned)
        || (offset == 0 && Find(req.runtime, req.src) == Nowhere);
      err := DtohVq(req.runtime, Wrap64(req.src + offset), base, chunk);
    }

    /* ---- pinned allocation ---- */

    /** The pinned list before and after the one allocation of a buffer. */
    predicate PinnedList(hostMem0: seq<Resource>, req: Request, start: nat, present: bool)
      requires req.HostAlloc?
      reads ctx
    {
      ListOf(HOST_MEM) == PinnedEntries(hostMem0, req, start, present)
    }

    /** The allocating half of hmcuda_core_cu_mem_host_alloc_vq. */
    method AllocPinned(req: Request, ghost start: nat) returns (err: nat)
      requires req.HostAlloc? && ctx != null && start == cuda.pinnedAt(calls)
      modifies this`calls, this`pinnedAllocs, ctx
      ensures err < 0x1_0000_0000
      ensures err == 0 ==> ctx.List(HOST_MEM) == [Resource(req.guestVa, start, req.bytesize)] + old(ctx.List(HOST_MEM))
      ensures err != 0 ==> ctx.List(HOST_MEM) == old(ctx.List(HOST_MEM))
      ensures err == cuda.result(old(calls)) && calls == old(calls) + if err == 0 then 2 else 1
      ensures ctx.List(HOST_DEV_PTR) ==
        if err == 0 && cuda.result(old(calls) + 1) == 0
        then [Resource(req.guestVa, cuda.deviceView(old(calls) + 1), req.bytesize)] + old(ctx.List(HOST_DEV_PTR))
        else old(ctx.List(HOST_DEV_PTR))
      ensures ctx.List(MEM) == old(ctx.List(MEM))
      ensures forall t | t != HOST_MEM && t != HOST_DEV_PTR :: ctx.List(t) == old(ctx.List(t))
      ensures pinnedAllocs == old(pinnedAllocs) + if err == 0 then 1 else 0
    {
      var realPtr := cuda.pinnedAt(calls);
      err := Call();
      if err != 0 {
        return;
      }
      pinnedAllocs := pinnedAllocs + 1;
      var _ := ctx.AddWithHandle(HOST_MEM, realPtr, req.bytesize, req.guestVa);
      var view := cuda.deviceView(calls);
      var res := Call();
      if res == 0 {
        var _ := ctx.AddWithHandle(HOST_DEV_PTR, view, req.bytesize, req.guestVa);
      }
    }

    method AllocFirst(req: Request, ghost hostMem0: seq<Resource>, byteOffset: nat, ghost start: nat)
      returns (err: nat)
      requires req.HostAlloc? && ctx != null && PinnedList(hostMem0, req, start, byteOffset > 0)
      requires byteOffset == 0 ==> start == cuda.pinnedAt(calls)
      modifies this`calls, this`pinnedAllocs, ctx
      ensures err < 0x1_0000_0000 && err == if byteOffset == 0 then cuda.result(old(calls)) else 0
      ensures Stored() ==
        if err == 0 then
          old(Stored()).(hostMem := PinnedEntries(hostMem0, req, start, true),
                         allocs := old(pinnedAllocs) + if byteOffset == 0 then 1 else 0)
        else old(Stored())
    {
      err := 0;
      if byteOffset == 0 {
        err := AllocPinned(req, start);
      }
    }

    /** hmcuda_core_cu_mem_host_alloc_vq: the chunk at offset 0 allocates, every chunk copies. */
    method HostAllocVq(req: Request, ghost hostMem0: seq<Resource>, byteOffset: nat, base: nat, n: nat,
                       ghost start: nat)
      returns (err: nat)
      requires req.HostAlloc? && 0 < n && byteOffset + n <= req.bytesize && base + n <= |guest.bytes|
      requires 0 < start && start + req.bytesize <= |backend| < U64 && req.guestVa + req.bytesize < U64
      requires byteOffset == 0 ==> start == cuda.pinnedAt(calls)
      requires PinnedList(hostMem0, req, start, byteOffset > 0)
      modifies this`backend, this`calls, this`pinnedAllocs, this`copied, ctx
      ensures err < 0x1_0000_0000
      ensures Stored() ==
        if err == 0 then StoreChunk(old(Stored()), hostMem0, req, guest.bytes, start, byteOffset, base, n)
        else old(Stored())
      ensures err == if ctx == null then 3 else if byteOffset == 0 then cuda.result(old(calls)) else 0
    {
      if ctx == null {
        return CUDA_ERROR_NOT_INITIALIZED;
      }
      err := AllocFirst(req, hostMem0, byteOffset, start);
      if err != 0 {
        return;
      }
      EntryResolves(hostMem0, req, start);
      var p := ctx.Get(HOST_MEM, req.guestVa);
      if p == 0 {
        return CUDA_ERROR_INVALID_VALUE;
      }
      backend := Splice(backend, p + byteOffset, Read(guest.bytes, base, n));
      copied := copied + n;
      err := 0;
    }

    ghost predicate CanFill(req: Request, addrs: seq<nat>, size: nat, start: nat)
      reads guest
    {
      Fillable(req, guest.bytes, addrs, size, start)
    }

    ghost function Stored(): Store
      reads this, ctx
    {
      Store(backend, ListOf(MEM), ListOf(HOST_MEM), pinnedAllocs, copied)
    }

    ghost predicate FilledSoFar(s0: Store, hostMem0: seq<Resource>, req: Request, addrs: seq<nat>, start: nat, k: nat)
      requires CanFill(req, addrs, |s0.backend|, start)
      reads this, guest, ctx
    {
      && Filled(s0, hostMem0, req, guest.bytes, addrs, start, k, Stored())
      && (req.byteOffset + k == 0 ==> start == cuda.pinnedAt(calls))
    }

    /** handle_cu_mem_host_alloc */
    method FillPinned(req: Request, data: seq<Iov>, totalOut: nat, ghost hostMem0: seq<Resource>, ghost start: nat)
      returns (err: nat, ghost k: nat)
      requires NoEmptyEntry(data) && CanFill(req, Addrs(data), |backend|, start)
      requires totalOut == RequestLen(req) + |Addrs(data)|
      requires FilledSoFar(Stored(), hostMem0, req, Addrs(data), start, 0)
      modifies this`backend, this`calls, this`pinnedAllocs, this`copied, ctx
      ensures err < 0x1_0000_0000 && (err == 0 ==> k == |Addrs(data)|) && (ctx != null && Healthy(cuda) ==> err == 0)
      ensures Filled(old(Stored()), hostMem0, req, guest.bytes, Addrs(data), start, k, Stored())
    {
      ghost var s0 := Stored();
      var batchSize := totalOut - RequestLen(req);
      FirstEntry(data, batchSize);
      var offset: nat, i := 0, 0;
      while i < |data| && offset < batchSize
        invariant AtEntry(data, i, offset, batchSize)
        invariant FilledSoFar(s0, hostMem0, req, Addrs(data), start, offset)
      {
        err := FillEntry(s0, hostMem0, req, data, i, offset, start);
        if err != 0 {
          return err, offset;
        }
        offset := offset + data[i].len;
        i := i + 1;
      }
      if i == |data| {
        LastEntry(data, offset, batchSize);
      }
      return 0, offset;
    }

    method FillEntry(ghost s0: Store, ghost hostMem0: seq<Resource>, req: Request, data: seq<Iov>, i: nat, offset: nat,
                     ghost start: nat)
      returns (err: nat)
      requires NoEmptyEntry(data) && CanFill(req, Addrs(data), |s0.backend|, start) && i < |data|
        && offset < |Addrs(data)|
      requires AtEntry(data, i, offset, |Addrs(data)|)
      requires FilledSoFar(s0, hostMem0, req, Addrs(data), start, offset)
      modifies this`backend, this`calls, this`pinnedAllocs, this`copied, ctx
      ensures err < 0x1_0000_0000 && (ctx != null && Healthy(cuda) ==> err == 0)
      ensures err != 0 || AtEntry(data, i + 1, offset + data[i].len, |Addrs(data)|)
      ensures err == 0 || Filled(s0, hostMem0, req, guest.bytes, Addrs(data), start, offset, Stored())
      ensures err != 0 || FilledSoFar(s0, hostMem0, req, Addrs(data), start, offset + data[i].len)
    {
      NextEntry(data, i, offset, |Addrs(data)|);
      WholeEntry(data, i, offset);
      err := FillChunk(s0, hostMem0, req, Addrs(data), offset, data[i].base, data[i].len, start);
    }

    method FillChunk(ghost s0: Store, ghost hostMem0: seq<Resource>, req: Request, ghost addrs: seq<nat>, offset: nat,
                     base: nat, chunk: nat, ghost start: nat) returns (err: nat)
      requires CanFill(req, addrs, |s0.backend|, start) && 0 < chunk && offset + chunk <= |addrs|
      requires addrs[..offset + chunk] == addrs[..offset] + Range(base, chunk)
      requires FilledSoFar(s0, hostMem0, req, addrs, start, offset)
      modifies this`backend, this`calls, this`pinnedAllocs, this`copied, ctx
      ensures err < 0x1_0000_0000 && (ctx != null && Healthy(cuda) ==> err == 0)
      ensures err == 0 || Filled(s0, hostMem0, req, guest.bytes, addrs, start, offset, Stored())
      ensures err != 0 || FilledSoFar(s0, hostMem0, req, addrs, start, offset + chunk)
    {
      RangeInBounds(guest.bytes, addrs, offset, base, chunk);
      FilledOn(s0, hostMem0, req, guest.bytes, addrs, start, offset, Stored(), base, chunk);
      err := HostAllocVq(req, hostMem0, req.byteOffset + offset, base, chunk, start);
    }

    /* ---- the queue loop: one popped chain ---- */

    /** buf_to_iov: fill the descriptors from `buf`, in order, until either runs out. */
    method BufToIov(sg: seq<Iov>, buf: seq<byte>, ghost n: nat)
      requires NoEmptyEntry(sg) && InBounds(guest.bytes, Addrs(sg))
      requires n == if |buf| < |Addrs(sg)| then |buf| else |Addrs(sg)|
      modifies guest
      ensures guest.bytes == Scatter(old(guest.bytes), Addrs(sg)[..n], Read(buf, 0, n))
    {
      assert Scatter(guest.bytes, Addrs(sg)[..0], Read(buf, 0, 0)) == guest.bytes;
      FirstEntry(sg, n);
      var offset: nat, i := 0, 0;
      while i < |sg| && offset < |buf|
        invariant AtEntry(sg, i, offset, n)
        invariant guest.bytes == Scatter(old(guest.bytes), Addrs(sg)[..offset], Read(buf, 0, offset))
      {
        var copy := WriteEntry(old(guest.bytes), sg, i, buf, offset, n);
        offset := offset + copy;
        i := i + 1;
      }
      if i == |sg| {
        LastEntry(sg, offset, n);
      }
    }

    method WriteEntry(ghost m0: seq<byte>, sg: seq<Iov>, i: nat, buf: seq<byte>, offset: nat, ghost n: nat)
      returns (copy: nat)
      requires i < |sg| && NoEmptyEntry(sg) && InBounds(m0, Addrs(sg)) && offset < |buf|
      requires n == if |buf| < |Addrs(sg)| then |buf| else |Addrs(sg)|
      requires AtEntry(sg, i, offset, n)
      requires guest.bytes == Scatter(m0, Addrs(sg)[..offset], Read(buf, 0, offset))
      modifies guest
      ensures AtEntry(sg, i + 1, offset + copy, n)
      ensures guest.bytes == Scatter(m0, Addrs(sg)[..offset + copy], Read(buf, 0, offset + copy))
    {
      CopyLen(sg, i, offset, n, |buf|);
      NextEntry(sg, i, offset, n);
      copy := |buf| - offset;
      if copy > sg[i].len {
        copy := sg[i].len;
      }
      WriteChunk(m0, Addrs(sg), buf, offset, sg[i].base, copy);
    }

    method WriteChunk(ghost m0: seq<byte>, ghost addrs: seq<nat>, buf: seq<byte>, offset: nat, base: nat, copy: nat)
      requires InBounds(m0, addrs) && 0 < copy && offset + copy <= |buf| && offset + copy <= |addrs|
      requires addrs[..offset + copy] == addrs[..offset] + Range(base, copy)
      requires guest.bytes == Scatter(m0, addrs[..offset], Read(buf, 0, offset))
      modifies guest
      ensures guest.bytes == Scatter(m0, addrs[..offset + copy], Read(buf, 0, offset + copy))
    {
      RangeInBounds(m0, addrs, offset, base, copy);
      guest.bytes := Splice(guest.bytes, base, Read(buf, offset, copy));
      ReceiveStep(m0, addrs, buf, 0, offset, base, copy);
    }

    /** Where the response goes: behind the data of a D2H chain, else from the first
        writable descriptor on. */
    method PlaceResponse(inSg: seq<Iov>, d2h: bool, response: seq<byte>)
      requires inSg != [] && |response| == HEADER_LEN && ResponseFits(inSg[|inSg| - 1], |guest.bytes|)
      requires d2h <==> |inSg| >= 2
      modifies guest
      ensures guest.bytes == Splice(old(guest.bytes), inSg[|inSg| - 1].base, response)
    {
      if d2h && |inSg| >= 2 {
        var iov := inSg[|inSg| - 1];
        var copy := if |response| < iov.len then |response| else iov.len;
        guest.bytes := Splice(guest.bytes, iov.base, response[..copy]);
        assert response[..copy] == response;
      } else {
        SingleRange(inSg);
        BufToIov(inSg, response, HEADER_LEN);
        FirstBytes(old(guest.bytes), inSg[0], response);
      }
    }

    /** A chain with readable descriptors `[request] + data` and the response alone to write. */
    ghost predicate InLayout(elem: VqElement, data: seq<Iov>, resp: Iov)
      reads guest
    {
      && data != [] && |elem.outSg| == 1 + |data| && elem.outSg[0].len == RequestLen(elem.req)
      && elem.outSg[1..] == data && elem.inSg == [resp] && ResponseFits(resp, |guest.bytes|)
    }

    /** A chain with the request alone to read and writable descriptors `data + [response]`. */
    ghost predicate OutLayout(elem: VqElement, data: seq<Iov>, resp: Iov)
      reads guest
    {
      && data != [] && |elem.outSg| == 1 && elem.outSg[0].len == RequestLen(elem.req)
      && elem.inSg == data + [resp] && ResponseFits(resp, |guest.bytes|)
    }

    /** The header of every popped chain is gathered first; a chain too short for one is dropped. */
    method ReadHeader(elem: VqElement) returns (ok: bool, totalOut: nat)
      ensures totalOut == |Addrs(elem.outSg)| && (ok <==> totalOut >= HEADER_LEN)
    {
      totalOut := Capacity(elem.outSg);
      ok := totalOut >= HEADER_LEN;
    }

    /** hmcuda_process_vq on a host-to-device copy. */
    method ServeIn(elem: VqElement, ghost data: seq<Iov>, ghost resp: Iov, ghost start: nat, ghost pinned: bool)
      returns (pushed: bool, ghost err: nat, ghost chunks: seq<seq<byte>>)
      requires InLayout(elem, data, resp) && CanSend(elem.req, data, |backend|, start, pinned)
      requires elem.req.kind == 1 && (elem.req.runtime ==> elem.req.src == 0)
      modifies this`backend, this`calls, guest
      ensures pushed && err < 0x1_0000_0000 && (err == 0 ==> |Concat(chunks)| == elem.req.count)
      ensures InTold(elem.req, data, old(calls), err)
      ensures Concat(chunks) != [] ==> Find(elem.req.runtime, elem.req.dst) != Nowhere
      ensures Healthy(cuda) && |Addrs(data)| >= elem.req.count && Find(elem.req.runtime, elem.req.dst) != Nowhere ==>
        err == 0
      ensures Placed(old(backend), old(guest.bytes), data, elem.req.count, start, ListOf(HOST_MEM), pinned, chunks,
        backend)
      ensures guest.bytes == Splice(old(guest.bytes), resp.base, ResponseBytes(CmdType(elem.req), err))
    {
      FrontIov(elem.outSg);
      var totalOut;
      pushed, totalOut := ReadHeader(elem);
      var e;
      e, chunks := CopyIn(elem.req, elem.outSg[1..], totalOut, start, pinned);
      err := e;
      PlaceResponse(elem.inSg, false, ResponseBytes(CmdType(elem.req), e));
    }

    /** hmcuda_process_vq on a device-to-host copy. */
    method ServeOut(elem: VqElement, ghost data: seq<Iov>, ghost resp: Iov, ghost start: nat, ghost pinned: bool)
      returns (pushed: bool, ghost err: nat, ghost k: nat)
      requires OutLayout(elem, data, resp) && CanReceive(elem.req, data, guest.bytes, start, pinned)
      requires elem.req.kind == 2 && (elem.req.runtime ==> elem.req.dst == 0)
      modifies this`calls, guest
      ensures pushed && err < 0x1_0000_0000 && (err == 0 ==> k == elem.req.count) && k <= elem.req.count
        && k <= |Addrs(data)|
      ensures OutTold(elem.req, data, old(calls), err)
      ensures k > 0 ==> Find(elem.req.runtime, elem.req.src) != Nowhere
      ensures Healthy(cuda) && |Addrs(data)| >= elem.req.count && Find(elem.req.runtime, elem.req.src) != Nowhere ==>
        err == 0
      ensures Replies(old(guest.bytes), data, backend, start, k, resp, CmdType(elem.req), err, guest.bytes)
    {
      FrontIov(elem.outSg);
      var totalOut;
      pushed, totalOut := ReadHeader(elem);
      assert elem.inSg[..|elem.inSg| - 1] == data;
      var e;
      e, k := CopyOut(elem.req, elem.inSg[..|elem.inSg| - 1], start, pinned);
      err := e;
      PlaceResponse(elem.inSg, true, ResponseBytes(CmdType(elem.req), e));
    }

    /** hmcuda_process_vq on a pinned allocation. */
    method ServeAlloc(elem: VqElement, ghost data: seq<Iov>, ghost resp: Iov, ghost hostMem0: seq<Resource>,
                      ghost start: nat)
      returns (pushed: bool, ghost err: nat, ghost k: nat)
      requires InLayout(elem, data, resp) && NoEmptyEntry(data) && CanFill(elem.req, Addrs(data), |backend|, start)
      requires PinnedList(hostMem0, elem.req, start, elem.req.byteOffset > 0)
      requires elem.req.byteOffset == 0 ==> start == cuda.pinnedAt(calls)
      modifies this`backend, this`calls, this`pinnedAllocs, this`copied, guest, ctx
      ensures pushed && err < 0x1_0000_0000 && k <= |Addrs(data)| && (err == 0 ==> k == |Addrs(data)|)
      ensures ctx != null && Healthy(cuda) ==> err == 0
      ensures Filled(old(Stored()), hostMem0, elem.req, old(guest.bytes), Addrs(data), start, k, Stored())
      ensures guest.bytes == Splice(old(guest.bytes), resp.base, ResponseBytes(CmdType(elem.req), err))
    {
      FrontIov(elem.outSg);
      var totalOut;
      pushed, totalOut := ReadHeader(elem);
      var e;
      assert FilledSoFar(Stored(), hostMem0, elem.req, Addrs(data), start, 0) by {
        assert Gather(guest.bytes, Addrs(data)[..0]) == [];
        assert Splice(backend, start + elem.req.byteOffset, []) == backend;
      }
      e, k := FillPinned(elem.req, elem.outSg[1..], totalOut, hostMem0, start);
      err := e;
      PlaceResponse(elem.inSg, false, ResponseBytes(CmdType(elem.req), e));
    }
  }

  predicate ResponseFits(iov: Iov, size: nat) {
    iov.len >= HEADER_LEN && iov.base + iov.len <= size
  }

  /** buf_to_iov takes the same number of bytes from an entry whether it stops for lack of
      data or for lack of room. */
  lemma CopyLen(sg: seq<Iov>, j: nat, offset: nat, n: nat, len: nat)
    requires j < |sg| && AtEntry(sg, j, offset, n) && offset < len
    requires n == if len < |Addrs(sg)| then len else |Addrs(sg)|
    requires NoEmptyEntry(sg)
    ensures offset < n
    ensures ChunkLen(sg, j, offset, n) == if len - offset > sg[j].len then sg[j].len else len - offset
  {
    ChunkAt(sg, j, sg[j].len);
  }

  lemma FirstBytes(m0: seq<byte>, iov: Iov, data: seq<byte>)
    requires |data| <= iov.len && iov.base + iov.len <= |m0|
    ensures InBounds(m0, Range(iov.base, iov.len)[..|data|])
    ensures Scatter(m0, Range(iov.base, iov.len)[..|data|], Read(data, 0, |data|)) == Splice(m0, iov.base, data)
  {
    assert Range(iov.base, iov.len)[..|data|] == Range(iov.base, |data|);
    assert Read(data, 0, |data|) == data;
    ScatterRange(m0, iov.base, data);
  }

  lemma SingleRange(sg: seq<Iov>)
    requires |sg| == 1
    ensures Addrs(sg) == Range(sg[0].base, sg[0].len)
  {
    assert sg[..0] == [];
  }

  lemma AppendAssoc(a: seq<nat>, b: seq<nat>, c: seq<nat>)
    ensures (a + b) + c == a + (b + c)
  {
  }

  lemma {:induction false} FrontIov(sg: seq<Iov>)
    requires sg != []
    ensures Addrs(sg) == Range(sg[0].base, sg[0].len) + Addrs(sg[1..])
    decreases |sg|
  {
    if |sg| == 1 {
      SingleRange(sg);
    } else {
      var pre, last := sg[..|sg| - 1], sg[|sg| - 1];
      FrontIov(pre);
      assert sg == pre + [last] && sg[1..] == pre[1..] + [last];
      AddrsSnoc(pre, last);
      AddrsSnoc(pre[1..], last);
      AppendAssoc(Range(sg[0].base, sg[0].len), Addrs(pre[1..]), Range(last.base, last.len));
    }
  }

  /** When the loop wants every byte, it takes every entry whole. */
  lemma WholeEntry(sg: seq<Iov>, j: nat, offset: nat)
    requires j < |sg| && AtEntry(sg, j, offset, |Addrs(sg)|) && offset < |Addrs(sg)|
    ensures ChunkLen(sg, j, offset, |Addrs(sg)|) == sg[j].len
  {
    ChunkAt(sg, j, sg[j].len);
  }

  lemma FillStep(b0: seq<byte>, start: nat, bo: nat, mem: seq<byte>, addrs: seq<nat>, k: nat, base: nat, chunk: nat)
    requires InBounds(mem, addrs) && k + chunk <= |addrs| && start + bo + k + chunk <= |b0|
    requires addrs[..k + chunk] == addrs[..k] + Range(base, chunk) && base + chunk <= |mem|
    ensures Splice(Splice(b0, start + bo, Gather(mem, addrs[..k])), start + (bo + k), Read(mem, base, chunk))
            == Splice(b0, start + bo, Gather(mem, addrs[..k + chunk]))
  {
    ReadIsGather(mem, base, chunk);
    GatherAppend(mem, addrs[..k], Range(base, chunk));
    SpliceAppend(b0, start + bo, Gather(mem, addrs[..k]), Read(mem, base, chunk));
    assert start + (bo + k) == start + bo + k;
  }

  /** Sum of the descriptor lengths. */
  method Capacity(sg: seq<Iov>) returns (n: nat)
    ensures n == |Addrs(sg)|
  {
    n := 0;
    assert sg[..0] == [];
    for i := 0 to |sg|
      invariant n == |Addrs(sg[..i])|
    {
      AddrsSlice(sg, i);
      n := n + sg[i].len;
    }
    assert sg[..|sg|] == sg;
  }
}
