/** The copy ioctl as the driver runs it: pin, coalesce, rewrite the request, submit,
    wait, unpin, batch by batch (driver/virtio_hmcuda_main.c:191-340), against the host
    handlers of module Vhost. */
module Copy {
  import Api
  import opened Memory
  import opened Resources
  import opened Patching
  import opened Chunks
  import opened ScatterList
  import opened Batches
  import opened Vhost
  import opened Driver

  /** The arguments parsed from a memcpy-family request; a pinned allocation is always kind 1. */
  datatype Job =
    | ToDevice(runtime: bool, va: nat, count: nat, dev: nat)
    | FromDevice(runtime: bool, va: nat, count: nat, dev: nat)
    | PinnedAlloc(va: nat, count: nat)

  /** hmcuda_parse_memcpy_args, for the kinds that take this path. */
  function ParseArgs(req: Request): (job: Job)
    requires req.Memcpy? ==> req.kind == 1 || req.kind == 2
  {
    match req
    case HostAlloc(bytesize, guestVa, _) => PinnedAlloc(guestVa, bytesize)
    case Memcpy(runtime, dst, src, count, kind) =>
      if kind == 1 then ToDevice(runtime, src, count, dst) else FromDevice(runtime, dst, count, src)
  }

  /** The request as rewritten for the batch at `offset`: the address the host must not see is zero. */
  function BatchRequest(job: Job, offset: nat, count: nat): Request {
    match job
    case ToDevice(runtime, _, _, dev) => Memcpy(runtime, dev + offset, 0, count, 1)
    case FromDevice(runtime, _, _, dev) => Memcpy(runtime, 0, dev + offset, count, 2)
    case PinnedAlloc(va, total) => HostAlloc(total, va, offset)
  }

  /** The state a copy starts from, and where its bytes go on the backend. */
  datatype Before = Before(phys: seq<byte>, backend: seq<byte>, mem: seq<Resource>, hostMem: seq<Resource>, allocs: nat,
                           copied: nat,
                           start: nat, pinned: bool)

  type Errno = x: int | x <= 0

  /** Kernel answers: how many pages a pin attempt gets (negative: an error), and what
      virtqueue_add_sgs returns. */
  datatype Kernel = Kernel(pinLimit: nat -> int, addSgs: nat -> Errno)

  /** Pins succeed and the queue has room. */
  ghost predicate Smooth(kernel: Kernel) {
    && (forall n :: kernel.pinLimit(n) >= 512)
    && (forall n :: kernel.addSgs(n) == 0)
  }

  /* ---- one batch, on values ---- */

  ghost predicate Fixed(pt: map<nat, nat>, job: Job, b: Before, resp: Iov) {
    && job.va + job.count <= U64 && Countable(job.va, job.count) && b.start + job.count <= |b.backend|
    && ResponseFits(resp, |b.phys|) && RespApart(pt, job.va, job.count, resp, |b.phys|)
    && Aimed(job, b)
  }

  /** The destination or source of the job on the backend. */
  ghost predicate Aimed(job: Job, b: Before) {
    if job.PinnedAlloc? then 0 < b.start && |b.backend| < U64 && job.va + job.count < U64 && !b.pinned
    else ReachesIn(b.mem, b.hostMem, job.runtime, job.dev, job.count, b.start, b.pinned)
  }

  ghost predicate Prefix(pt: map<nat, nat>, job: Job, b: Before, k: nat) {
    && k <= job.count && Mapped(pt, job.va, k) && InBounds(b.phys, UserAddrs(pt, job.va, k))
    && b.start + job.count <= |b.backend|
  }

  /** The first `k` user bytes are at the destination, cut into chunks at page ends; the guest
      changed in the response buffer only. */
  ghost predicate InState(pt: map<nat, nat>, job: Job, b: Before, resp: Iov, k: nat, backend: seq<byte>,
                          phys: seq<byte>) {
    && Prefix(pt, job, b, k)
    && SentInChunks(job.va, Gather(b.phys, UserAddrs(pt, job.va, k)), b.backend, b.start, b.hostMem, b.pinned, backend)
    && SameOutside(phys, b.phys, resp)
  }

  /** The first `k` source bytes are in the user range; else the guest changed in the response buffer only. */
  ghost predicate OutState(pt: map<nat, nat>, job: Job, b: Before, resp: Iov, k: nat, backend: seq<byte>,
                           phys: seq<byte>) {
    && Prefix(pt, job, b, k)
    && backend == b.backend
    && SameOutside(phys, Scatter(b.phys, UserAddrs(pt, job.va, k), Read(b.backend, b.start, k)), resp)
  }

  /** The first `k` bytes are where the job takes them, and nothing else has changed except
      the response buffer. */
  ghost predicate Carried(pt: map<nat, nat>, job: Job, b: Before, resp: Iov, k: nat, backend: seq<byte>,
                          phys: seq<byte>) {
    || (job.FromDevice? && OutState(pt, job, b, resp, k, backend, phys))
    || (!job.FromDevice? && InState(pt, job, b, resp, k, backend, phys))
  }

  ghost predicate Answered(phys: seq<byte>, resp: Iov, err: nat) {
    err < 0x1_0000_0000 && ResponseFits(resp, |phys|) && ResponseError(phys, resp) == err
  }

  ghost predicate Slice(pt: map<nat, nat>, job: Job, bo: nat, c: nat) {
    && 0 < c && bo + c <= job.count && Mapped(pt, job.va + bo, c)
    && (bo == 0 || (job.va + bo) % 4096 == 0)
  }

  lemma SliceInBounds(pt: map<nat, nat>, job: Job, b: Before, resp: Iov, bo: nat, c: nat, phys: seq<byte>)
    requires Fixed(pt, job, b, resp) && Slice(pt, job, bo, c) && |phys| == |b.phys|
    ensures InBounds(phys, UserAddrs(pt, job.va + bo, c))
  {
    UserInBounds(pt, job.va, job.count, bo, c, resp, phys);
  }

  lemma SentOn(job: Job, b: Before, bo: nat, d: nat, user: seq<byte>, more: seq<seq<byte>>, all: seq<byte>,
               backend: seq<byte>, backend': seq<byte>)
    requires |user| == bo && all == user + Concat(more) && |all| == bo + d && b.start + bo + d <= |b.backend|
    requires SentInChunks(job.va, user, b.backend, b.start, b.hostMem, b.pinned, backend)
      && PageChunks(job.va + bo, more)
    requires bo == 0 || (job.va + bo) % 4096 == 0
    requires backend' == Splice(backend, b.start + bo, Images(b.hostMem, b.pinned, more))
    ensures SentInChunks(job.va, all, b.backend, b.start, b.hostMem, b.pinned, backend')
  {
    ChunksFollow(job.va, user, b.backend, b.start, b.hostMem, b.pinned, backend, more, all);
  }

  lemma PrefixOn(pt: map<nat, nat>, job: Job, b: Before, resp: Iov, bo: nat, c: nat, d: nat, phys: seq<byte>)
    requires Fixed(pt, job, b, resp) && Slice(pt, job, bo, c) && d <= c && Prefix(pt, job, b, bo)
    requires SameOutside(phys, b.phys, resp) && InBounds(phys, UserAddrs(pt, job.va + bo, c))
    ensures Prefix(pt, job, b, bo + d)
    ensures Gather(b.phys, UserAddrs(pt, job.va, bo + d))
      == Gather(b.phys, UserAddrs(pt, job.va, bo)) + Gather(phys, UserAddrs(pt, job.va + bo, c)[..d])
  {
    BytesFollow(pt, job.va, job.count, bo, c, d, resp, phys, b.phys);
  }

  /** The host sent the first `d` bytes of the batch as `more`. */
  lemma InSent(pt: map<nat, nat>, job: Job, b: Before, resp: Iov, bo: nat, c: nat, d: nat, backend: seq<byte>,
               phys: seq<byte>, more: seq<seq<byte>>, backend': seq<byte>)
    requires Fixed(pt, job, b, resp) && Slice(pt, job, bo, c) && |Concat(more)| == d <= c
    requires InState(pt, job, b, resp, bo, backend, phys) && InBounds(phys, UserAddrs(pt, job.va + bo, c))
    requires PageChunks(job.va + bo, more) && Concat(more) == Gather(phys, UserAddrs(pt, job.va + bo, c)[..d])
    requires backend' == Splice(backend, b.start + bo, Images(b.hostMem, b.pinned, more))
    ensures InState(pt, job, b, resp, bo + d, backend', phys)
  {
    PrefixOn(pt, job, b, resp, bo, c, d, phys);
    var user, all := Gather(b.phys, UserAddrs(pt, job.va, bo)), Gather(b.phys, UserAddrs(pt, job.va, bo + d));
    SentOn(job, b, bo, d, user, more, all, backend, backend');
  }

  /** ... and answered. */
  lemma InDone(pt: map<nat, nat>, job: Job, b: Before, resp: Iov, k: nat, backend: seq<byte>, phys: seq<byte>, cmd: nat,
               err: nat, phys': seq<byte>)
    requires Fixed(pt, job, b, resp) && InState(pt, job, b, resp, k, backend, phys) && err < 0x1_0000_0000
    requires phys' == Splice(phys, resp.base, ResponseBytes(cmd, err))
    ensures InState(pt, job, b, resp, k, backend, phys') && Answered(phys', resp, err)
  {
    RespStep(phys, b.phys, resp, cmd, err);
    ResponseRoundTrip(phys, resp, cmd, err);
  }

  /** A served list of descriptors extends the prefix in place by what was sent of it. */
  lemma InServed(pt: map<nat, nat>, job: Job, b: Before, resp: Iov, bo: nat, c: nat, d: nat, more: seq<seq<byte>>,
                 addrs: seq<nat>, backend: seq<byte>, phys: seq<byte>, cmd: nat, err: nat, backend': seq<byte>,
                 phys': seq<byte>)
    requires Fixed(pt, job, b, resp) && Slice(pt, job, bo, c) && |Concat(more)| == d <= c
    requires (err == 0 ==> d == c) && err < 0x1_0000_0000
    requires !job.FromDevice? && Carried(pt, job, b, resp, bo, backend, phys)
    requires addrs == UserAddrs(pt, job.va + bo, c) && InBounds(phys, addrs)
    requires PageChunks(job.va + bo, more) && Concat(more) == Gather(phys, addrs[..d])
    requires backend' == Splice(backend, b.start + bo, Images(b.hostMem, b.pinned, more))
    requires phys' == Splice(phys, resp.base, ResponseBytes(cmd, err))
    ensures KickDone(pt, job, b, resp, bo, c, d, err, backend', phys')
  {
    InSent(pt, job, b, resp, bo, c, d, backend, phys, more, backend');
    InDone(pt, job, b, resp, bo + d, backend', phys, cmd, err, phys');
  }

  /** What is in place is the first bytes of the list, cut at page ends. */
  lemma PlacedChunks(va: nat, sg: seq<Iov>, c: nat, start: nat, list: seq<Resource>, pinned: bool,
                     chunks: seq<seq<byte>>, d: nat, addrs: seq<nat>, b0: seq<byte>, mem: seq<byte>, backend: seq<byte>)
    requires Placed(b0, mem, sg, c, start, list, pinned, chunks, backend) && PageEnds(va % 4096, sg)
    requires addrs == Addrs(sg) && d == |Concat(chunks)|
    ensures PageChunks(va, chunks) && d <= c && d <= |addrs| && InBounds(mem, addrs)
    ensures Concat(chunks) == Gather(mem, addrs[..d])
    ensures start + c <= |b0| && backend == Splice(b0, start, Images(list, pinned, chunks))
  {
    SendsOnPages(va, mem, sg, c, chunks);
  }

  lemma InPlaced(pt: map<nat, nat>, job: Job, b: Before, resp: Iov, bo: nat, c: nat, sg: seq<Iov>,
                 chunks: seq<seq<byte>>, d: nat, backend: seq<byte>, phys: seq<byte>, cmd: nat, err: nat,
                 backend': seq<byte>, phys': seq<byte>)
    requires Fixed(pt, job, b, resp) && Coalesced(pt, job, bo, c, sg) && err < 0x1_0000_0000
    requires !job.FromDevice? && Carried(pt, job, b, resp, bo, backend, phys) && d == |Concat(chunks)|
    requires Placed(backend, phys, sg, c, b.start + bo, b.hostMem, b.pinned, chunks, backend')
    requires err == 0 ==> d == c
    requires phys' == Splice(phys, resp.base, ResponseBytes(cmd, err))
    ensures KickDone(pt, job, b, resp, bo, c, d, err, backend', phys')
  {
    var addrs := Addrs(sg);
    PlacedChunks(job.va + bo, sg, c, b.start + bo, b.hostMem, b.pinned, chunks, d, addrs, backend, phys, backend');
    InServed(pt, job, b, resp, bo, c, d, chunks, addrs, backend, phys, cmd, err, backend', phys');
  }

  /** The bytes of one allocation batch count as one chunk. */
  lemma OneChunk(b: Before, resp: Iov, va: nat, data: seq<byte>)
    requires !b.pinned
    ensures PageChunks(va, [data]) && Concat([data]) == data && Images(b.hostMem, b.pinned, [data]) == data
  {
    OneImage(b.hostMem, b.pinned, data);
  }

  /** The host delivered the first `d` bytes of the batch. */
  lemma OutReceived(pt: map<nat, nat>, job: Job, b: Before, resp: Iov, bo: nat, c: nat, d: nat, addrs: seq<nat>,
                    phys: seq<byte>, m: seq<byte>)
    requires Fixed(pt, job, b, resp) && Slice(pt, job, bo, c) && d <= c
    requires OutState(pt, job, b, resp, bo, b.backend, phys)
    requires addrs == UserAddrs(pt, job.va + bo, c) && InBounds(phys, addrs)
    requires m == Scatter(phys, addrs[..d], Read(b.backend, b.start + bo, d))
    ensures OutState(pt, job, b, resp, bo + d, b.backend, m)
  {
    OutStep(pt, job.va, job.count, bo, c, d, resp, phys, b.phys, b.backend, b.start);
  }

  /** A delivered prefix of the batch extends the prefix in place. */
  lemma OutDone(pt: map<nat, nat>, job: Job, b: Before, resp: Iov, bo: nat, c: nat, d: nat, addrs: seq<nat>,
                backend: seq<byte>, phys: seq<byte>, cmd: nat, err: nat, phys': seq<byte>)
    requires Fixed(pt, job, b, resp) && Slice(pt, job, bo, c) && d <= c && (err == 0 ==> d == c) && err < 0x1_0000_0000
    requires job.FromDevice? && backend == b.backend && Carried(pt, job, b, resp, bo, backend, phys)
    requires addrs == UserAddrs(pt, job.va + bo, c) && InBounds(phys, addrs)
    requires phys' == Replied(phys, addrs, backend, b.start + bo, d, resp, cmd, err)
    ensures KickDone(pt, job, b, resp, bo, c, d, err, backend, phys')
  {
    var m := Scatter(phys, addrs[..d], Read(b.backend, b.start + bo, d));
    OutReceived(pt, job, b, resp, bo, c, d, addrs, phys, m);
    RespStep(m, Scatter(b.phys, UserAddrs(pt, job.va, bo + d), Read(b.backend, b.start, bo + d)), resp, cmd, err);
    ResponseRoundTrip(m, resp, cmd, err);
  }

  /** A batch of a copy from the device, coalesced into `sg`, before it is kicked. */
  ghost predicate OutBatch(pt: map<nat, nat>, job: Job, b: Before, resp: Iov, bo: nat, c: nat, sg: seq<Iov>,
                           backend: seq<byte>, phys: seq<byte>) {
    && Fixed(pt, job, b, resp) && Slice(pt, job, bo, c) && Addrs(sg) == UserAddrs(pt, job.va + bo, c)
    && job.FromDevice? && backend == b.backend && Carried(pt, job, b, resp, bo, backend, phys)
  }

  lemma OutReplied(pt: map<nat, nat>, job: Job, b: Before, resp: Iov, bo: nat, c: nat, d: nat, sg: seq<Iov>,
                   backend: seq<byte>, phys: seq<byte>, cmd: nat, err: nat, phys': seq<byte>)
    requires OutBatch(pt, job, b, resp, bo, c, sg, backend, phys)
    requires d <= c && (err == 0 ==> d == c) && err < 0x1_0000_0000
    requires Replies(phys, sg, backend, b.start + bo, d, resp, cmd, err, phys')
    ensures KickDone(pt, job, b, resp, bo, c, d, err, backend, phys')
  {
    OutDone(pt, job, b, resp, bo, c, d, Addrs(sg), backend, phys, cmd, err, phys');
  }

  /** What the host makes of a kicked batch: everything moved, or some of it and an error. */
  ghost predicate KickDone(pt: map<nat, nat>, job: Job, b: Before, resp: Iov, bo: nat, c: nat, d: nat, err: nat,
                           backend: seq<byte>, phys: seq<byte>) {
    || (err == 0 && d == c && Carried(pt, job, b, resp, bo + d, backend, phys) && Answered(phys, resp, 0))
    || (err != 0 && d <= c && Carried(pt, job, b, resp, bo + d, backend, phys) && Answered(phys, resp, err))
  }

  /** What a copy can read or change: backend memory, guest memory, the two tables, the
      allocations made, the bytes stored to new pinned buffers, and the address CUDA answers next. */
  datatype State = State(backend: seq<byte>, phys: seq<byte>, mem: seq<Resource>, hostMem: seq<Resource>, allocs: nat,
                         copied: nat, nextPinned: nat)

  /** The tables after `k` bytes: bytes moved imply a destination, or for a new buffer its one allocation. */
  ghost predicate Tables(job: Job, b: Before, k: nat, s: State) {
    && s.mem == b.mem
    && if job.PinnedAlloc? then
      && s.hostMem == (if k > 0 then [Resource(job.va, b.start, job.count)] else []) + b.hostMem
      && s.allocs == b.allocs + (if k > 0 then 1 else 0) && s.copied == b.copied + k
    else
      && s.hostMem == b.hostMem
      && (k > 0 ==> TargetOf(b.mem, b.hostMem, job.runtime, job.dev) != Nowhere)
  }

  /** The first `k` bytes of the job have been moved, and nothing else has changed except
      the response buffer. */
  ghost predicate Moved(pt: map<nat, nat>, job: Job, b: Before, resp: Iov, k: nat, s: State) {
    Tables(job, b, k, s) && Carried(pt, job, b, resp, k, s.backend, s.phys)
  }

  /** What holds between batches: `bo` bytes done, the rest starts on a page, and a buffer
      still to be allocated gets the address that CUDA answers next. */
  ghost predicate Between(pt: map<nat, nat>, job: Job, b: Before, resp: Iov, bo: nat, s: State) {
    && Fixed(pt, job, b, resp) && Moved(pt, job, b, resp, bo, s)
    && (job.PinnedAlloc? && bo == 0 ==> b.start == s.nextPinned)
    && (0 < bo < job.count ==> (job.va + bo) % 4096 == 0)
  }

  /** The pages of one batch of `c` bytes at `bo`, coalesced into `sg`. */
  ghost predicate Coalesced(pt: map<nat, nat>, job: Job, bo: nat, c: nat, sg: seq<Iov>) {
    && Slice(pt, job, bo, c)
    && sg != [] && NoEmptyEntry(sg) && Addrs(sg) == UserAddrs(pt, job.va + bo, c)
    && PageEnds((job.va + bo) % 4096, sg)
  }

  /** What the host made of a batch: `k` bytes of the job are moved, all of the batch or some
      of it and an error. */
  ghost predicate BatchDone(pt: map<nat, nat>, job: Job, b: Before, resp: Iov, bo: nat, c: nat, k: nat, err: nat,
                            s: State) {
    || (err == 0 && k == bo + c && Moved(pt, job, b, resp, k, s) && Answered(s.phys, resp, 0))
    || (err != 0 && bo <= k <= bo + c && Moved(pt, job, b, resp, k, s) && Answered(s.phys, resp, err))
  }

  /** A kicked copy batch, with the tables untouched. */
  lemma BatchMoved(pt: map<nat, nat>, job: Job, b: Before, resp: Iov, bo: nat, c: nat, d: nat, err: nat, k: nat,
                   s0: State, backend: seq<byte>, phys: seq<byte>, s: State)
    requires !job.PinnedAlloc? && Moved(pt, job, b, resp, bo, s0) && k == bo + d
    requires KickDone(pt, job, b, resp, bo, c, d, err, backend, phys) && s.backend == backend && s.phys == phys
    requires s.mem == s0.mem && s.hostMem == s0.hostMem
    requires d > 0 ==> TargetOf(s0.mem, s0.hostMem, job.runtime, job.dev + bo) != Nowhere
    ensures BatchDone(pt, job, b, resp, bo, c, k, err, s)
  {
    if d > 0 && bo == 0 {
      assert job.dev + bo == job.dev;
    }
  }

  /** A kicked allocation batch, with the one entry that its first byte brings. */
  lemma AllocMoved(pt: map<nat, nat>, job: Job, b: Before, resp: Iov, bo: nat, c: nat, d: nat, err: nat, k: nat,
                   s0: State, backend: seq<byte>, phys: seq<byte>, s: State)
    requires job.PinnedAlloc? && Moved(pt, job, b, resp, bo, s0) && k == bo + d
    requires KickDone(pt, job, b, resp, bo, c, d, err, backend, phys) && s.backend == backend && s.phys == phys
    requires s.hostMem == PinnedEntries(b.hostMem, BatchRequest(job, bo, c), b.start, k > 0) && s.mem == s0.mem
    requires s.allocs == s0.allocs + (if bo == 0 && d > 0 then 1 else 0) && s.copied == s0.copied + d
    ensures BatchDone(pt, job, b, resp, bo, c, k, err, s)
  {
  }

  /** A kernel error moved nothing, otherwise the host made something of the batch. */
  ghost predicate Outcome(pt: map<nat, nat>, job: Job, b: Before, resp: Iov, bo: nat, c: nat, k: nat, err: nat,
                          ret: Errno, s: State) {
    || (ret == 0 && BatchDone(pt, job, b, resp, bo, c, k, err, s))
    || (ret < 0 && k == bo && Moved(pt, job, b, resp, k, s))
  }

  /** Batches of the whole job. */
  ghost function Total(job: Job): nat {
    BatchCount(job.va, job.count)
  }

  /** How a copy ends after `k` bytes: a kernel error leaves whole batches behind, and without
      one everything is moved or the response says why not. */
  ghost predicate Closing(job: Job, k: nat, ret: Errno, batchNum: nat, err: nat) {
    && k <= job.count
    && (ret < 0 ==> k < job.count && (k > 0 ==> (job.va + k) % 4096 == 0))
    && (ret == 0 && k < job.count ==> err != 0)
    && batchNum <= Total(job) && (k == job.count ==> batchNum == Total(job))
  }

  ghost predicate Ended(pt: map<nat, nat>, job: Job, b: Before, resp: Iov, k: nat, ret: Errno, batchNum: nat, s: State)
  {
    && Moved(pt, job, b, resp, k, s) && ResponseFits(resp, |s.phys|)
    && Closing(job, k, ret, batchNum, ResponseError(s.phys, resp))
  }

  /** The loop is through, or stands before the batch at `bo`. */
  ghost predicate AtBatch(job: Job, bo: nat, batchNum: nat) {
    || (bo == job.count && batchNum == Total(job))
    || (bo < job.count && (0 < bo ==> (job.va + bo) % 4096 == 0) &&
        batchNum + BatchesFrom(job.va, job.count, bo) == Total(job))
  }

  ghost predicate LoopState(pt: map<nat, nat>, job: Job, b: Before, resp: Iov, bo: nat, batchNum: nat, s: State) {
    && Between(pt, job, b, resp, bo, s) && (bo > 0 ==> Answered(s.phys, resp, 0)) && AtBatch(job, bo, batchNum)
  }

  /** After a batch without error the next one starts on a page boundary, and one fewer remains. */
  lemma Continue(job: Job, bo: nat, c: nat, batchNum: nat)
    requires Countable(job.va, job.count) && AtBatch(job, bo, batchNum)
    requires bo < job.count && c == BatchBytes(job.va + bo, job.count - bo)
    ensures c > 0 && bo + c <= job.count && AtBatch(job, bo + c, batchNum + 1)
  {
    OneBatchLess(job.va, job.count, bo);
  }

  lemma Started(pt: map<nat, nat>, job: Job, b: Before, resp: Iov, s: State)
    requires Between(pt, job, b, resp, 0, s)
    ensures LoopState(pt, job, b, resp, 0, 0, s)
  {
  }

  /** After some turns: ended with `k` bytes moved, or before the batch at `bo`. */
  ghost predicate Progress(pt: map<nat, nat>, job: Job, b: Before, resp: Iov, bo: nat, batchNum: nat, k: nat,
                           ret: Errno, stop: bool, s: State) {
    || (stop && Ended(pt, job, b, resp, k, ret, batchNum, s))
    || (!stop && ret == 0 && LoopState(pt, job, b, resp, bo, batchNum, s))
  }

  /** The copy is over, and if nothing stood in its way (`well`) it succeeded. */
  ghost predicate Finished(pt: map<nat, nat>, job: Job, b: Before, resp: Iov, k: nat, ret: Errno, batchNum: nat,
                           well: bool, s: State) {
    && Ended(pt, job, b, resp, k, ret, batchNum, s)
    && (well ==> ret == 0 && k == job.count && (job.count > 0 ==> Answered(s.phys, resp, 0)))
  }

  lemma Completed(pt: map<nat, nat>, job: Job, b: Before, resp: Iov, bo: nat, batchNum: nat, k: nat, ret: Errno,
                  stop: bool, well: bool, s: State)
    requires Progress(pt, job, b, resp, bo, batchNum, k, ret, stop, s) && (stop || bo == job.count) && (well ==> !stop)
    ensures Finished(pt, job, b, resp, if stop then k else bo, ret, batchNum, well, s)
  {
  }

  /** After an error the batch counts as made. */
  lemma Stopped(job: Job, bo: nat, c: nat, err: nat, k: nat, ret: Errno, batchNum: nat)
    requires Countable(job.va, job.count) && AtBatch(job, bo, batchNum)
    requires bo < job.count && c == BatchBytes(job.va + bo, job.count - bo)
    requires if ret < 0 then k == bo else bo <= k <= bo + c && err != 0
    ensures Closing(job, k, ret, batchNum + 1, err)
  {
    OneBatchLess(job.va, job.count, bo);
  }

  lemma GoesOn(pt: map<nat, nat>, job: Job, b: Before, resp: Iov, bo: nat, c: nat, k: nat, batchNum: nat, s0: State,
               s: State)
    requires LoopState(pt, job, b, resp, bo, batchNum, s0) && AtBatch(job, bo + c, batchNum + 1) && c > 0
    requires BatchDone(pt, job, b, resp, bo, c, k, 0, s)
    ensures Progress(pt, job, b, resp, bo + c, batchNum + 1, k, 0, false, s)
  {
  }

  lemma Stops(pt: map<nat, nat>, job: Job, b: Before, resp: Iov, k: nat, ret: Errno, batchNum: nat, s: State)
    requires Moved(pt, job, b, resp, k, s) && ResponseFits(resp, |s.phys|)
    requires Closing(job, k, ret, batchNum, ResponseError(s.phys, resp))
    ensures Ended(pt, job, b, resp, k, ret, batchNum, s)
  {
  }

  lemma MovedFits(pt: map<nat, nat>, job: Job, b: Before, resp: Iov, k: nat, s: State)
    requires Fixed(pt, job, b, resp) && Moved(pt, job, b, resp, k, s)
    ensures ResponseFits(resp, |s.phys|)
  {
  }

  lemma AfterBad(pt: map<nat, nat>, job: Job, b: Before, resp: Iov, bo: nat, c: nat, err: nat, k: nat, ret: Errno,
                 batchNum: nat, s: State)
    requires Fixed(pt, job, b, resp) && AtBatch(job, bo, batchNum)
    requires bo < job.count && c == BatchBytes(job.va + bo, job.count - bo)
    requires Outcome(pt, job, b, resp, bo, c, k, err, ret, s) && (ret < 0 || err != 0)
    ensures Ended(pt, job, b, resp, k, ret, batchNum + 1, s)
  {
    MovedFits(pt, job, b, resp, k, s);
    Stopped(job, bo, c, ResponseError(s.phys, resp), k, ret, batchNum);
    Stops(pt, job, b, resp, k, ret, batchNum + 1, s);
  }

  /** What the driver reads in the response decides how the loop goes on. */
  lemma AfterBatch(pt: map<nat, nat>, job: Job, b: Before, resp: Iov, bo: nat, c: nat, err: nat, k: nat, ret: Errno,
                   batchNum: nat, s0: State, s: State)
    requires LoopState(pt, job, b, resp, bo, batchNum, s0) && bo < job.count
      && c == BatchBytes(job.va + bo, job.count - bo)
    requires Outcome(pt, job, b, resp, bo, c, k, err, ret, s)
    ensures ret < 0 || (ResponseFits(resp, |s.phys|) && ResponseError(s.phys, resp) == err)
    ensures
      var stop := ret < 0 || err != 0;
      && (stop || c > 0) && bo + c <= job.count
      && Progress(pt, job, b, resp, if stop then bo else bo + c, batchNum + 1, k, ret, stop, s)
  {
    if ret == 0 && err == 0 {
      Continue(job, bo, c, batchNum);
      GoesOn(pt, job, b, resp, bo, c, k, batchNum, s0, s);
    } else {
      AfterBad(pt, job, b, resp, bo, c, err, k, ret, batchNum, s);
    }
  }

  /** `n` pages hold the batch of `c` bytes at `bo`, which starts on a page unless it is the first. */
  ghost predicate BatchFits(job: Job, bo: nat, n: nat, c: nat) {
    && Fits((job.va + bo) % 4096, c, n) && n <= 512 && bo + c <= job.count
    && (bo == 0 || (job.va + bo) % 4096 == 0)
  }

  lemma BatchAligned(job: Job, bo: nat)
    requires Countable(job.va, job.count) && bo < job.count && (0 < bo ==> (job.va + bo) % 4096 == 0)
    ensures BatchFits(job, bo, BatchPages(job.va + bo, job.count - bo), BatchBytes(job.va + bo, job.count - bo))
  {
    RestCountable(job.va, job.count, bo);
    BatchShape(job.va + bo, job.count - bo);
  }

  /** Once its pages are pinned, a batch is a slice of the user range, and its coalesced list
      denotes it, entry by entry up to page ends. */
  lemma Pinned(pt: map<nat, nat>, job: Job, bo: nat, c: nat, pages: seq<nat>)
    requires BatchFits(job, bo, |pages|, c) && PagesOf(pt, (job.va + bo) / 4096, pages)
    ensures Coalesced(pt, job, bo, c, BatchList(pages, (job.va + bo) % 4096, c))
  {
    BatchDenotesUserBytes(pt, job.va + bo, c, pages);
  }

  predicate PagesPresent(pt: map<nat, nat>, vpn: nat, n: nat) {
    n == 0 || (vpn + (n - 1) in pt && PagesPresent(pt, vpn, n - 1))
  }

  lemma {:induction false} PageThere(pt: map<nat, nat>, vpn: nat, n: nat, i: nat)
    requires PagesPresent(pt, vpn, n) && i < n
    ensures vpn + i in pt
    decreases n
  {
    if i < n - 1 {
      PageThere(pt, vpn, n - 1, i);
    }
  }

  /** Every page of a batch holds a byte of the user range. */
  lemma {:induction false} PagesMapped(pt: map<nat, nat>, va: nat, c: nat, n: nat, k: nat)
    requires Fits(va % 4096, c, n) && Mapped(pt, va, c) && k <= n
    ensures PagesPresent(pt, va / 4096, k)
    decreases k
  {
    if k > 0 {
      var a := if k == 1 then va else (va / 4096 + (k - 1)) * 4096;
      assert va <= a < va + c && a / 4096 == va / 4096 + (k - 1);
      assert Resident(pt, a);
      PagesMapped(pt, va, c, n, k - 1);
    }
  }

  lemma BatchPresent(pt: map<nat, nat>, job: Job, bo: nat, n: nat, c: nat)
    requires BatchFits(job, bo, n, c)
    ensures Mapped(pt, job.va, job.count) ==> PagesPresent(pt, (job.va + bo) / 4096, n)
  {
    if Mapped(pt, job.va, job.count) {
      PagesMapped(pt, job.va + bo, c, n, n);
    }
  }

  lemma OnePage(pt: map<nat, nat>, vpn: nat, pages: seq<nat>, frame: nat)
    requires PagesOf(pt, vpn, pages) && FrameAt(pt, vpn + |pages|, frame)
    ensures PagesOf(pt, vpn, pages + [frame])
    ensures multiset(pages + [frame]) == multiset(pages) + multiset{frame}
  {
  }

  lemma {:induction false} AllThere(pt: map<nat, nat>, vpn: nat, pages: seq<nat>)
    requires PagesOf(pt, vpn, pages)
    ensures PagesPresent(pt, vpn, |pages|)
    decreases |pages|
  {
    if pages != [] {
      var n := |pages| - 1;
      assert FrameAt(pt, vpn + n, pages[n]);
      forall i | 0 <= i < n ensures FrameAt(pt, vpn + i, pages[..n][i]) {
        assert FrameAt(pt, vpn + i, pages[i]);
      }
      AllThere(pt, vpn, pages[..n]);
    }
  }

  /** The kernel pins all `n` pages at this call. */
  predicate Pinnable(kernel: Kernel, at: nat, pt: map<nat, nat>, vpn: nat, n: nat) {
    n <= kernel.pinLimit(at) && PagesPresent(pt, vpn, n)
  }

  /** The kernel error of a batch whose first kernel call has number `at`: that of the pin, which
      is a fault when it falls short, or else that of the queue. */
  function BatchErrno(kernel: Kernel, at: nat, pt: map<nat, nat>, vpn: nat, n: nat): Errno {
    if kernel.pinLimit(at) < 0 then kernel.pinLimit(at)
    else if !Pinnable(kernel, at, pt, vpn, n) then -14
    else kernel.addSgs(at + 1)
  }

  class GuestDriver {
    const host: Host
    const kernel: Kernel
    var pinned: multiset<nat>      // pinned frames, with multiplicity
    var locked: bool               // the device mutex
    var asked: nat                 // kernel calls so far

    constructor (host: Host, kernel: Kernel)
      ensures this.host == host && this.kernel == kernel
      ensures pinned == multiset{} && !locked
    {
      this.host, this.kernel := host, kernel;
      pinned, locked, asked := multiset{}, false, 0;
    }

    /** pin_user_pages_fast: a prefix of the pages, or a negative error. */
    method PinUserPages(pt: map<nat, nat>, vpn: nat, n: nat, pages: array<nat>) returns (got: int)
      requires n <= pages.Length
      modifies pages, this`pinned, this`asked
      ensures got <= n
      ensures got < 0 ==> pinned == old(pinned)
      ensures got >= 0 ==> PagesOf(pt, vpn, pages[..got]) && pinned == old(pinned) + multiset(pages[..got])
      ensures asked == old(asked) + 1
      ensures kernel.pinLimit(old(asked)) < 0 ==> got == kernel.pinLimit(old(asked))
      ensures kernel.pinLimit(old(asked)) >= 0 ==>
        0 <= got <= kernel.pinLimit(old(asked)) && (got == n <==> Pinnable(kernel, old(asked), pt, vpn, n))
    {
      var limit := kernel.pinLimit(asked);
      asked := asked + 1;
      if limit < 0 {
        return limit;
      }
      ghost var pinned0 := pinned;
      var i := 0;
      while i < n && i < limit && vpn + i in pt
        invariant 0 <= i <= n && i <= limit && asked == old(asked) + 1
        invariant PagesOf(pt, vpn, pages[..i]) && pinned == pinned0 + multiset(pages[..i])
      {
        PinPage(pt, vpn, i, pages, pinned0);
        i := i + 1;
      }
      got := i;
      AllThere(pt, vpn, pages[..i]);
      assert |pages[..i]| == i;
      if PagesPresent(pt, vpn, n) && i < n {
        PageThere(pt, vpn, n, i);
      }
    }

    method PinPage(pt: map<nat, nat>, vpn: nat, i: nat, pages: array<nat>, ghost pinned0: multiset<nat>)
      requires i < pages.Length && vpn + i in pt
      requires PagesOf(pt, vpn, pages[..i]) && pinned == pinned0 + multiset(pages[..i])
      modifies pages, this`pinned
      ensures PagesOf(pt, vpn, pages[..i + 1]) && pinned == pinned0 + multiset(pages[..i + 1])
    {
      ghost var before := pages[..i];
      OnePage(pt, vpn, before, pt[vpn + i]);
      pages[i] := pt[vpn + i];
      pinned := pinned + multiset{pages[i]};
      assert pages[..i + 1] == before + [pt[vpn + i]];
    }

    /** unpin_user_pages */
    method UnpinUserPages(pages: array<nat>, n: nat)
      requires n <= pages.Length
      modifies this`pinned
      ensures pinned == old(pinned) - multiset(pages[..n])
    {
      var i := 0;
      while i < n
        invariant 0 <= i <= n && pinned == old(pinned) - multiset(pages[..i])
      {
        pinned := pinned - multiset{pages[i]};
        assert pages[..i + 1] == pages[..i] + [pages[i]];
        i := i + 1;
      }
    }

    method AddSgs() returns (ret: Errno)
      modifies this`asked
      ensures ret == kernel.addSgs(old(asked)) && asked == old(asked) + 1
    {
      ret := kernel.addSgs(asked);
      asked := asked + 1;
    }

    function Phys(): seq<byte>
      reads host.guest
    {
      host.guest.bytes
    }

    /** What a copy can read or change of the machine. */
    function Now(): State
      reads host, host.guest, host.ctx
    {
      State(host.backend, host.guest.bytes, host.ListOf(MEM), host.ListOf(HOST_MEM), host.pinnedAllocs, host.copied,
        host.cuda.pinnedAt(host.calls))
    }

    /** Nothing stands in the way of the job on the host. */
    ghost predicate HostWell(job: Job, b: Before) {
      && Healthy(host.cuda)
      && if job.PinnedAlloc? then host.ctx != null else TargetOf(b.mem, b.hostMem, job.runtime, job.dev) != Nowhere
    }

    /** Nothing stands in the way of the job anywhere. */
    ghost predicate AllWell(pt: map<nat, nat>, job: Job, b: Before) {
      HostWell(job, b) && Smooth(kernel) && Mapped(pt, job.va, job.count)
    }

    /** Kick and wait, host-to-device. */
    method KickIn(elem: VqElement, ghost pt: map<nat, nat>, ghost job: Job, ghost b: Before, ghost bo: nat,
                  ghost c: nat, ghost sg: seq<Iov>, ghost resp: Iov)
      returns (ghost err: nat, ghost sent: nat)
      requires host.InLayout(elem, sg, resp) && host.CanSend(elem.req, sg, |host.backend|, b.start + bo, b.pinned)
      requires elem.req.kind == 1 && elem.req.src == 0 && elem.req.count == c
      requires Fixed(pt, job, b, resp) && Coalesced(pt, job, bo, c, sg)
      requires job.ToDevice? && Carried(pt, job, b, resp, bo, host.backend, Phys())
        && host.ListOf(HOST_MEM) == b.hostMem
      modifies host`backend, host`calls, host.guest
      ensures sent > 0 ==> host.Find(elem.req.runtime, elem.req.dst) != Nowhere
      ensures Healthy(host.cuda) && host.Find(elem.req.runtime, elem.req.dst) != Nowhere ==> err == 0
      ensures KickDone(pt, job, b, resp, bo, c, sent, err, host.backend, Phys())
    {
      ghost var m, b1 := Phys(), host.backend;
      ghost var chunks;
      var pushed;
      pushed, err, chunks := host.ServeIn(elem, sg, resp, b.start + bo, b.pinned);
      sent := |Concat(chunks)|;
      InPlaced(pt, job, b, resp, bo, c, sg, chunks, sent, b1, m, CmdType(elem.req), err, host.backend, Phys());
    }

    method SubmitIn(pt: map<nat, nat>, job: Job, ghost b: Before, bo: nat, c: nat, sg: seq<Iov>, reqIov: Iov, resp: Iov)
      returns (ghost err: nat, ghost k: nat)
      requires job.ToDevice? && Between(pt, job, b, resp, bo, Now()) && Coalesced(pt, job, bo, c, sg)
      requires reqIov.len == RequestLen(BatchRequest(job, bo, c))
      modifies host`backend, host`calls, host.guest
      ensures BatchDone(pt, job, b, resp, bo, c, k, err, Now())
      ensures HostWell(job, b) ==> err == 0
    {
      var elem := VqElement([reqIov] + sg, [resp], BatchRequest(job, bo, c));
      SliceInBounds(pt, job, b, resp, bo, c, Phys());
      InReady(pt, job, b, resp, bo, c, sg, elem);
      ghost var s := Now();
      ghost var sent;
      err, sent := KickIn(elem, pt, job, b, bo, c, sg, resp);
      k := bo + sent;
      BatchMoved(pt, job, b, resp, bo, c, sent, err, k, s, host.backend, Phys(), Now());
    }

    lemma InReady(pt: map<nat, nat>, job: Job, b: Before, resp: Iov, bo: nat, c: nat, sg: seq<Iov>, elem: VqElement)
      requires job.ToDevice? && Between(pt, job, b, resp, bo, Now()) && Coalesced(pt, job, bo, c, sg)
        && InBounds(Phys(), Addrs(sg))
      requires elem.req == BatchRequest(job, bo, c) && elem.inSg == [resp]
      requires |elem.outSg| == 1 + |sg| && elem.outSg[1..] == sg && elem.outSg[0].len == RequestLen(elem.req)
      ensures host.InLayout(elem, sg, resp) && host.CanSend(elem.req, sg, |host.backend|, b.start + bo, b.pinned)
      ensures HostWell(job, b) ==> host.Find(job.runtime, job.dev + bo) != Nowhere
    {
    }

    /** Kick and wait, device-to-host. */
    method KickOut(elem: VqElement, ghost pt: map<nat, nat>, ghost job: Job, ghost b: Before, ghost bo: nat,
                   ghost c: nat, ghost sg: seq<Iov>, ghost resp: Iov)
      returns (ghost err: nat, ghost sent: nat)
      requires host.OutLayout(elem, sg, resp) && host.CanReceive(elem.req, sg, Phys(), b.start + bo, b.pinned)
      requires elem.req.kind == 2 && elem.req.dst == 0 && elem.req.count == c
      requires OutBatch(pt, job, b, resp, bo, c, sg, host.backend, Phys())
      modifies host`calls, host.guest
      ensures sent > 0 ==> host.Find(elem.req.runtime, elem.req.src) != Nowhere
      ensures Healthy(host.cuda) && host.Find(elem.req.runtime, elem.req.src) != Nowhere ==> err == 0
      ensures KickDone(pt, job, b, resp, bo, c, sent, err, host.backend, Phys())
    {
      ghost var m, source := Phys(), host.backend;
      var pushed;
      pushed, err, sent := host.ServeOut(elem, sg, resp, b.start + bo, b.pinned);
      OutReplied(pt, job, b, resp, bo, c, sent, sg, source, m, CmdType(elem.req), err, Phys());
    }

    method SubmitOut(pt: map<nat, nat>, job: Job, ghost b: Before, bo: nat, c: nat, sg: seq<Iov>, reqIov: Iov,
                     resp: Iov)
      returns (ghost err: nat, ghost k: nat)
      requires job.FromDevice? && Between(pt, job, b, resp, bo, Now()) && Coalesced(pt, job, bo, c, sg)
      requires reqIov.len == RequestLen(BatchRequest(job, bo, c))
      modifies host`calls, host.guest
      ensures BatchDone(pt, job, b, resp, bo, c, k, err, Now())
      ensures HostWell(job, b) ==> err == 0
    {
      var elem := VqElement([reqIov], sg + [resp], BatchRequest(job, bo, c));
      SliceInBounds(pt, job, b, resp, bo, c, Phys());
      OutReady(pt, job, b, resp, bo, c, sg, elem);
      ghost var s := Now();
      ghost var sent;
      err, sent := KickOut(elem, pt, job, b, bo, c, sg, resp);
      k := bo + sent;
      BatchMoved(pt, job, b, resp, bo, c, sent, err, k, s, host.backend, Phys(), Now());
    }

    lemma OutReady(pt: map<nat, nat>, job: Job, b: Before, resp: Iov, bo: nat, c: nat, sg: seq<Iov>, elem: VqElement)
      requires job.FromDevice? && Between(pt, job, b, resp, bo, Now()) && Coalesced(pt, job, bo, c, sg)
        && InBounds(Phys(), Addrs(sg))
      requires elem.req == BatchRequest(job, bo, c) && elem.inSg == sg + [resp]
      requires |elem.outSg| == 1 && elem.outSg[0].len == RequestLen(elem.req)
      ensures host.OutLayout(elem, sg, resp) && host.CanReceive(elem.req, sg, Phys(), b.start + bo, b.pinned)
      ensures HostWell(job, b) ==> host.Find(job.runtime, job.dev + bo) != Nowhere
    {
    }

    /** Kick and wait, pinned allocation. */
    method KickAlloc(elem: VqElement, ghost pt: map<nat, nat>, ghost job: Job, ghost b: Before, ghost bo: nat,
                     ghost c: nat, ghost sg: seq<Iov>, ghost resp: Iov)
      returns (ghost err: nat, ghost sent: nat)
      requires host.InLayout(elem, sg, resp) && NoEmptyEntry(sg)
        && host.CanFill(elem.req, Addrs(sg), |host.backend|, b.start)
      requires elem.req.byteOffset == bo && !b.pinned
      requires host.PinnedList(b.hostMem, elem.req, b.start, bo > 0)
        && (bo == 0 ==> b.start == host.cuda.pinnedAt(host.calls))
      requires Fixed(pt, job, b, resp) && Slice(pt, job, bo, c) && Addrs(sg) == UserAddrs(pt, job.va + bo, c)
      requires job.PinnedAlloc? && Carried(pt, job, b, resp, bo, host.backend, Phys())
      modifies host`backend, host`calls, host`pinnedAllocs, host`copied, host.guest, host.ctx
      ensures host.PinnedList(b.hostMem, elem.req, b.start, bo + sent > 0) && host.ListOf(MEM) == old(host.ListOf(MEM))
      ensures host.ctx != null && Healthy(host.cuda) ==> err == 0
      ensures host.pinnedAllocs == old(host.pinnedAllocs) + (if bo == 0 && sent > 0 then 1 else 0)
        && host.copied == old(host.copied) + sent
      ensures KickDone(pt, job, b, resp, bo, c, sent, err, host.backend, Phys())
    {
      ghost var m, b1 := Phys(), host.backend;
      var pushed;
      pushed, err, sent := host.ServeAlloc(elem, sg, resp, b.hostMem, b.start);
      ghost var data := Gather(m, Addrs(sg)[..sent]);
      OneChunk(b, resp, job.va + bo, data);
      InServed(pt, job, b, resp, bo, c, sent, [data], Addrs(sg), b1, m, CmdType(elem.req), err, host.backend, Phys());
    }

    method SubmitAlloc(pt: map<nat, nat>, job: Job, ghost b: Before, bo: nat, c: nat, sg: seq<Iov>, reqIov: Iov,
                       resp: Iov)
      returns (ghost err: nat, ghost k: nat)
      requires job.PinnedAlloc? && Between(pt, job, b, resp, bo, Now()) && Coalesced(pt, job, bo, c, sg)
      requires reqIov.len == RequestLen(BatchRequest(job, bo, c))
      modifies host`backend, host`calls, host`pinnedAllocs, host`copied, host.guest, host.ctx
      ensures BatchDone(pt, job, b, resp, bo, c, k, err, Now())
      ensures HostWell(job, b) ==> err == 0
    {
      var elem := VqElement([reqIov] + sg, [resp], BatchRequest(job, bo, c));
      SliceInBounds(pt, job, b, resp, bo, c, Phys());
      AllocReady(pt, job, b, resp, bo, c, sg, elem);
      ghost var s := Now();
      ghost var sent;
      err, sent := KickAlloc(elem, pt, job, b, bo, c, sg, resp);
      k := bo + sent;
      AllocMoved(pt, job, b, resp, bo, c, sent, err, k, s, host.backend, Phys(), Now());
    }

    lemma AllocReady(pt: map<nat, nat>, job: Job, b: Before, resp: Iov, bo: nat, c: nat, sg: seq<Iov>, elem: VqElement)
      requires job.PinnedAlloc? && Between(pt, job, b, resp, bo, Now()) && Coalesced(pt, job, bo, c, sg)
        && InBounds(Phys(), Addrs(sg))
      requires elem.req == BatchRequest(job, bo, c) && elem.inSg == [resp]
      requires |elem.outSg| == 1 + |sg| && elem.outSg[1..] == sg && elem.outSg[0].len == RequestLen(elem.req)
      ensures host.InLayout(elem, sg, resp) && host.CanFill(elem.req, Addrs(sg), |host.backend|, b.start)
      ensures host.PinnedList(b.hostMem, elem.req, b.start, bo > 0)
  {
    }

    /** Submission of one batch under the device lock. */
    method Submit(pt: map<nat, nat>, job: Job, ghost b: Before, bo: nat, c: nat, sg: seq<Iov>, reqIov: Iov, resp: Iov)
      returns (ret: Errno, ghost err: nat, ghost k: nat)
      requires Between(pt, job, b, resp, bo, Now()) && Coalesced(pt, job, bo, c, sg) && !locked
      requires reqIov.len == RequestLen(BatchRequest(job, bo, c))
      modifies this`locked, this`asked, host, host.guest, host.ctx
      ensures !locked && ret == kernel.addSgs(old(asked))
      ensures Outcome(pt, job, b, resp, bo, c, k, err, ret, Now())
      ensures Smooth(kernel) && HostWell(job, b) ==> ret == 0 && err == 0
    {
      locked := true;
      ret := AddSgs();
      k, err := bo, 0;
      if ret == 0 {
        match job
        case ToDevice(_, _, _, _) => err, k := SubmitIn(pt, job, b, bo, c, sg, reqIov, resp);
        case FromDevice(_, _, _, _) => err, k := SubmitOut(pt, job, b, bo, c, sg, reqIov, resp);
        case PinnedAlloc(_, _) => err, k := SubmitAlloc(pt, job, b, bo, c, sg, reqIov, resp);
      }
      locked := false;
    }

    /** Pin all `n` pages of a batch, or none. */
    method PinBatch(pt: map<nat, nat>, vpn: nat, n: nat, pages: array<nat>) returns (ret: Errno)
      requires 0 < n <= pages.Length
      modifies pages, this`pinned, this`asked
      ensures ret < 0 ==> pinned == old(pinned)
      ensures ret == 0 ==> PagesOf(pt, vpn, pages[..n]) && pinned == old(pinned) + multiset(pages[..n])
      ensures asked == old(asked) + 1
      ensures ret == if kernel.pinLimit(old(asked)) < 0 then kernel.pinLimit(old(asked))
                     else if Pinnable(kernel, old(asked), pt, vpn, n) then 0 else -14
    {
      var got := PinUserPages(pt, vpn, n, pages);
      if got != n {
        if got > 0 {
          UnpinUserPages(pages, got);
        }
        return if got < 0 then got else -Api.EFAULT;
      }
      ret := 0;
    }

    /** Coalesce the pinned pages and submit the batch. */
    method Send(pt: map<nat, nat>, job: Job, ghost b: Before, bo: nat, c: nat, n: nat, reqIov: Iov, resp: Iov,
                pages: array<nat>, table: array<Iov>)
      returns (ret: Errno, ghost err: nat, ghost k: nat)
      requires Between(pt, job, b, resp, bo, Now()) && BatchFits(job, bo, n, c) && !locked
      requires n <= pages.Length == table.Length && PagesOf(pt, (job.va + bo) / 4096, pages[..n])
      requires reqIov.len == RequestLen(BatchRequest(job, bo, c))
      modifies this`locked, this`asked, host, host.guest, host.ctx, table
      ensures !locked && ret == kernel.addSgs(old(asked))
      ensures Outcome(pt, job, b, resp, bo, c, k, err, ret, Now())
      ensures Smooth(kernel) && HostWell(job, b) ==> ret == 0 && err == 0
    {
      Pinned(pt, job, bo, c, pages[..n]);
      var nrSge, _ := Coalesce(pages[..n], (job.va + bo) % 4096, c, table);
      ret, err, k := Submit(pt, job, b, bo, c, table[..nrSge], reqIov, resp);
    }

    /** Pages and bytes of the batch at `bo`. */
    method Measure(job: Job, bo: nat) returns (n: nat, c: nat)
      requires bo < job.count && job.va + job.count <= U64 && Countable(job.va, job.count)
        && (0 < bo ==> (job.va + bo) % 4096 == 0)
      ensures BatchFits(job, bo, n, c) && c == BatchBytes(job.va + bo, job.count - bo)
    {
      var userAddr := Wrap64(job.va + bo);
      n := BatchPages(userAddr, job.count - bo);
      c := BatchBytes(userAddr, job.count - bo);
      BatchAligned(job, bo);
    }

    /** Submit the pinned pages and give them back. */
    method SendAndUnpin(pt: map<nat, nat>, job: Job, ghost b: Before, bo: nat, c: nat, n: nat, reqIov: Iov, resp: Iov,
                        pages: array<nat>, table: array<Iov>)
      returns (ret: Errno, ghost err: nat, ghost k: nat)
      requires Between(pt, job, b, resp, bo, Now()) && BatchFits(job, bo, n, c) && !locked
      requires n <= pages.Length == table.Length && PagesOf(pt, (job.va + bo) / 4096, pages[..n])
      requires reqIov.len == RequestLen(BatchRequest(job, bo, c))
      modifies this, host, host.guest, host.ctx, table
      ensures !locked && pinned == old(pinned) - multiset(pages[..n]) && ret == kernel.addSgs(old(asked))
      ensures Outcome(pt, job, b, resp, bo, c, k, err, ret, Now())
      ensures Smooth(kernel) && HostWell(job, b) ==> ret == 0 && err == 0
    {
      ret, err, k := Send(pt, job, b, bo, c, n, reqIov, resp, pages, table);
      ghost var s := Now();
      UnpinUserPages(pages, n);
      assert Now() == s;
    }

    /** One batch: pin, coalesce, submit, unpin. */
    method Batch(pt: map<nat, nat>, job: Job, ghost b: Before, bo: nat, n: nat, c: nat, reqIov: Iov, resp: Iov,
                 pages: array<nat>, table: array<Iov>)
      returns (ret: Errno, ghost err: nat, ghost k: nat)
      requires Between(pt, job, b, resp, bo, Now()) && BatchFits(job, bo, n, c) && !locked
      requires reqIov.len == RequestLen(BatchRequest(job, 0, 0)) && pages.Length == table.Length == 512
      modifies this, host, host.guest, host.ctx, pages, table
      ensures !locked && pinned == old(pinned)
      ensures ret == BatchErrno(kernel, old(asked), pt, (job.va + bo) / 4096, n)
      ensures Outcome(pt, job, b, resp, bo, c, k, err, ret, Now())
      ensures AllWell(pt, job, b) ==> ret == 0 && err == 0
    {
      k, err := bo, 0;
      ghost var s := Now();
      BatchPresent(pt, job, bo, n, c);
      ret := PinBatch(pt, (job.va + bo) / 4096, n, pages);
      assert Now() == s;
      if ret == 0 {
        ret, err, k := SendAndUnpin(pt, job, b, bo, c, n, reqIov, resp, pages, table);
      }
    }

    /** One turn of the loop with its two early exits; the batch is number `batchNum`, from 0. */
    method Turn(pt: map<nat, nat>, job: Job, ghost b: Before, bo: nat, ghost batchNum: nat, reqIov: Iov, resp: Iov,
                pages: array<nat>, table: array<Iov>)
      returns (ret: Errno, stop: bool, next: nat, ghost k: nat)
      requires LoopState(pt, job, b, resp, bo, batchNum, Now()) && bo < job.count && !locked
      requires reqIov.len == RequestLen(BatchRequest(job, 0, 0)) && pages.Length == table.Length == 512
      modifies this, host, host.guest, host.ctx, pages, table
      ensures !locked && pinned == old(pinned) && (stop || bo < next <= job.count)
      ensures Progress(pt, job, b, resp, next, batchNum + 1, k, ret, stop, Now())
      ensures AllWell(pt, job, b) ==> !stop
    {
      ghost var s0, err := Now(), 0;
      var n, c := Measure(job, bo);
      ret, err, k := Batch(pt, job, b, bo, n, c, reqIov, resp, pages, table);
      AfterBatch(pt, job, b, resp, bo, c, err, k, ret, batchNum, s0, Now());
      stop := ret < 0 || ResponseError(Phys(), resp) != 0;
      next := if stop then bo else bo + c;
    }

    /** The loop over batches. */
    method CopyLoop(pt: map<nat, nat>, job: Job, ghost b: Before, reqIov: Iov, resp: Iov, pages: array<nat>,
                    table: array<Iov>)
      returns (ret: Errno, batchNum: nat, ghost k: nat)
      requires LoopState(pt, job, b, resp, 0, 0, Now()) && !locked
      requires reqIov.len == RequestLen(BatchRequest(job, 0, 0)) && pages.Length == table.Length == 512
      modifies this, host, host.guest, host.ctx, pages, table
      ensures !locked && pinned == old(pinned)
      ensures Finished(pt, job, b, resp, k, ret, batchNum, AllWell(pt, job, b), Now())
    {
      var byteOffset: nat, stop := 0, false;
      ret, batchNum, k := 0, 0, 0;
      ghost var pinned0 := pinned;
      while byteOffset < job.count && !stop
        invariant !locked && pinned == pinned0 && (stop || byteOffset <= job.count)
        invariant Progress(pt, job, b, resp, byteOffset, batchNum, k, ret, stop, Now())
        invariant AllWell(pt, job, b) ==> !stop
        decreases !stop, job.count - byteOffset
      {
        ret, stop, byteOffset, k := Turn(pt, job, b, byteOffset, batchNum, reqIov, resp, pages, table);
        batchNum := batchNum + 1;
      }
      Completed(pt, job, b, resp, byteOffset, batchNum, k, ret, stop, AllWell(pt, job, b), Now());
      if !stop {
        k := byteOffset;
      }
    }

    /** hmcuda_do_memcpy_gup */
    method DoMemcpyGup(pt: map<nat, nat>, job: Job, ghost b: Before, reqIov: Iov, resp: Iov)
      returns (ret: Errno, batchNum: nat, ghost k: nat)
      requires Between(pt, job, b, resp, 0, Now()) && !locked && reqIov.len == RequestLen(BatchRequest(job, 0, 0))
      modifies this, host, host.guest, host.ctx
      ensures !locked && pinned == old(pinned)
      ensures Finished(pt, job, b, resp, k, ret, batchNum, AllWell(pt, job, b), Now())
    {
      var pages, table := new nat[512], new Iov[512];
      Started(pt, job, b, resp, Now());
      ret, batchNum, k := CopyLoop(pt, job, b, reqIov, resp, pages, table);
    }
  }
}
