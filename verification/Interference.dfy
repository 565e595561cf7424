/** Copies while other threads' commands run between their batches, where the mutex is free
    (driver/virtio_hmcuda_main.c:223-332). */
module Interference {
  import opened Memory
  import opened Resources
  import opened ScatterList
  import opened Driver
  import opened Copy
  import Chunks
  import EndToEnd
  import Patching
  import Vhost

  /** Physical address `a` belongs to the user range of the job. */
  ghost predicate UserFrame(pt: map<nat, nat>, job: Job, a: nat) {
    exists v | job.va <= v < job.va + job.count && Resident(pt, v) :: Translate(pt, v) == a
  }

  /** Where the bytes of the job lead and how they are patched is the same in both states. */
  ghost predicate SameRoute(job: Job, pinned: bool, s: State, s': State)
    requires !job.PinnedAlloc?
  {
    && (forall h | job.dev <= h < job.dev + job.count || h == job.dev ::
          Vhost.TargetOf(s'.mem, s'.hostMem, job.runtime, h) == Vhost.TargetOf(s.mem, s.hostMem, job.runtime, h))
    && (pinned ==> s'.hostMem == s.hostMem)
  }

  /** Other commands leave alone what the job uses: its backend range, the user's frames, its
      response buffer, and the entries its addresses lead to. */
  ghost predicate Undisturbed(pt: map<nat, nat>, job: Job, start: nat, pinned: bool, resp: Iov, s: State, s': State)
    requires !job.PinnedAlloc?
  {
    && |s'.backend| == |s.backend| && |s'.phys| == |s.phys|
    && (forall a | start <= a < start + job.count && a < |s.backend| :: s'.backend[a] == s.backend[a])
    && (forall a | 0 <= a < |s.phys| && (UserFrame(pt, job, a) || resp.base <= a < resp.base + resp.len) ::
          s'.phys[a] == s.phys[a])
    && SameRoute(job, pinned, s, s')
  }

  /** The state from which a copy that nobody interferes with gets to `s`: everything as the
      others left it, but the job's backend range as it was before the copy. */
  function Rebased(job: Job, b: Before, s: State): Before
    requires b.start + job.count <= |b.backend| == |s.backend|
  {
    Before(s.phys, Splice(s.backend, b.start, Read(b.backend, b.start, job.count)), s.mem, s.hostMem, s.allocs,
      s.copied, b.start, b.pinned)
  }

  /** Copies from these two states are to do the same: the same bytes, to the same place. */
  ghost predicate SameCopy(pt: map<nat, nat>, job: Job, b0: Before, b: Before) {
    && b.start == b0.start && b.pinned == b0.pinned && b0.start + job.count <= |b0.backend| == |b.backend|
    && |b.phys| == |b0.phys| && Read(b.backend, b.start, job.count) == Read(b0.backend, b0.start, job.count)
    && (job.ToDevice? ==> forall a | 0 <= a < |b.phys| && UserFrame(pt, job, a) :: b.phys[a] == b0.phys[a])
    && (b.pinned ==> b.hostMem == b0.hostMem)
    && (!job.PinnedAlloc? ==> FirstTarget(job, b) == FirstTarget(job, b0))
  }

  function FirstTarget(job: Job, b: Before): Vhost.Target
    requires !job.PinnedAlloc?
  {
    Vhost.TargetOf(b.mem, b.hostMem, job.runtime, job.dev)
  }

  lemma UserFrames(pt: map<nat, nat>, job: Job, k: nat)
    requires k <= job.count && Mapped(pt, job.va, k)
    ensures forall i | 0 <= i < k :: UserFrame(pt, job, UserAddrs(pt, job.va, k)[i])
  {
    forall i | 0 <= i < k ensures UserFrame(pt, job, UserAddrs(pt, job.va, k)[i]) {
      assert Resident(pt, job.va + i);
    }
  }

  /** What a scatter leaves at its own addresses does not depend on the memory before. */
  lemma {:induction false} ScatterWins(m1: seq<byte>, m2: seq<byte>, addrs: seq<nat>, data: seq<byte>, a: nat)
    requires |m1| == |m2| && InBounds(m1, addrs) && |addrs| == |data| && a in addrs
    ensures a < |m1| && Scatter(m1, addrs, data)[a] == Scatter(m2, addrs, data)[a]
    decreases |addrs|
  {
    var n := |addrs| - 1;
    if addrs[n] != a {
      assert addrs == addrs[..n] + [addrs[n]];
      ScatterWins(m1, m2, addrs[..n], data[..n], a);
    }
  }

  /** Moving the image of a prefix into another memory. */
  lemma SpliceElsewhere(b0: seq<byte>, m: seq<byte>, m': seq<byte>, at: nat, n: nat, image: seq<byte>)
    requires at + n <= |b0| == |m'| && |image| <= n && m == Splice(b0, at, image)
    requires forall a | at <= a < at + n :: m'[a] == m[a]
    ensures m' == Splice(Splice(m', at, Read(b0, at, n)), at, image)
  {
    var base := Splice(m', at, Read(b0, at, n));
    forall a | 0 <= a < |m'| ensures m'[a] == Splice(base, at, image)[a] {
      if at <= a < at + n {
        assert m'[a] == m[a] && (a >= at + |image| ==> base[a] == b0[a] == m[a]);
      }
    }
  }

  lemma SentElsewhere(va: nat, user: seq<byte>, b0: seq<byte>, start: nat, n: nat, list: seq<Resource>,
                      list': seq<Resource>, pinned: bool, m: seq<byte>, m': seq<byte>)
    requires start + n <= |b0| == |m'| && |user| <= n && (pinned ==> list' == list)
    requires SentInChunks(va, user, b0, start, list, pinned, m)
    requires forall a | start <= a < start + n && a < |m| :: m'[a] == m[a]
    ensures SentInChunks(va, user, Splice(m', start, Read(b0, start, n)), start, list', pinned, m')
  {
    var chunks :| SentAs(va, user, b0, start, list, pinned, chunks, m);
    Chunks.ImagesAre(list, pinned, chunks);
    Chunks.ImagesAre(list', pinned, chunks);
    SpliceElsewhere(b0, m, m', start, n, Chunks.Images(list, pinned, chunks));
    assert SentAs(va, user, Splice(m', start, Read(b0, start, n)), start, list', pinned, chunks, m');
  }

  lemma InRebased(pt: map<nat, nat>, job: Job, b: Before, resp: Iov, k: nat, s: State, s': State)
    requires job.ToDevice? && Fixed(pt, job, b, resp) && |s.backend| == |b.backend|
    requires InState(pt, job, b, resp, k, s.backend, s.phys) && Undisturbed(pt, job, b.start, b.pinned, resp, s, s')
    requires s.hostMem == b.hostMem
    ensures InState(pt, job, Rebased(job, b, s'), resp, k, s'.backend, s'.phys)
  {
    var u := UserAddrs(pt, job.va, k);
    UserFrames(pt, job, k);
    UserInBounds(pt, job.va, job.count, 0, k, resp, b.phys);
    assert Gather(s'.phys, u) == Gather(b.phys, u) by {
      forall i | 0 <= i < k ensures s'.phys[u[i]] == b.phys[u[i]] {
        assert UserFrame(pt, job, u[i]) && !(resp.base <= u[i] < resp.base + resp.len);
      }
    }
    SentElsewhere(job.va, Gather(b.phys, u), b.backend, b.start, job.count, b.hostMem, s'.hostMem, b.pinned, s.backend,
      s'.backend);
  }

  lemma OutRebased(pt: map<nat, nat>, job: Job, b: Before, resp: Iov, k: nat, s: State, s': State)
    requires job.FromDevice? && Fixed(pt, job, b, resp) && |s.backend| == |b.backend|
    requires OutState(pt, job, b, resp, k, s.backend, s.phys) && Undisturbed(pt, job, b.start, b.pinned, resp, s, s')
    ensures OutState(pt, job, Rebased(job, b, s'), resp, k, s'.backend, s'.phys)
  {
    var u, data := UserAddrs(pt, job.va, k), Read(b.backend, b.start, k);
    UserFrames(pt, job, k);
    UserInBounds(pt, job.va, job.count, 0, k, resp, b.phys);
    assert Read(s'.backend, b.start, job.count) == Read(b.backend, b.start, job.count);
    assert Splice(s'.backend, b.start, Read(b.backend, b.start, job.count)) == s'.backend;
    assert Read(s'.backend, b.start, k) == data by {
      assert Read(s'.backend, b.start, job.count)[..k] == Read(s'.backend, b.start, k);
      assert Read(b.backend, b.start, job.count)[..k] == data;
    }
    forall a | 0 <= a < |s'.phys| && !(resp.base <= a < resp.base + resp.len)
      ensures s'.phys[a] == Scatter(s'.phys, u, data)[a]
    {
      if a in u {
        ScatterWins(s'.phys, b.phys, u, data, a);
        assert UserFrame(pt, job, a);
      } else {
        ScatterGather(s'.phys, u, data);
      }
    }
  }

  lemma FixedRebased(pt: map<nat, nat>, job: Job, b: Before, resp: Iov, k: nat, s: State, s': State)
    requires !job.PinnedAlloc? && Fixed(pt, job, b, resp) && Tables(job, b, k, s)
    requires |s.backend| == |b.backend| && |s.phys| == |b.phys| && Undisturbed(pt, job, b.start, b.pinned, resp, s, s')
    ensures Fixed(pt, job, Rebased(job, b, s'), resp) && Tables(job, Rebased(job, b, s'), k, s')
  {
    if Vhost.Backed(b.mem, b.hostMem, job.runtime, job.dev, job.count, b.start, b.pinned) {
      forall h | job.dev <= h < job.dev + job.count
        ensures Vhost.TargetOf(s'.mem, s'.hostMem, job.runtime, h) == Vhost.At(b.start + (h - job.dev), b.pinned)
      {
        assert Vhost.TargetOf(s.mem, s.hostMem, job.runtime, h) == Vhost.At(b.start + (h - job.dev), b.pinned);
      }
    }
  }

  lemma AnswerKept(pt: map<nat, nat>, job: Job, start: nat, pinned: bool, resp: Iov, s: State, s': State, err: nat)
    requires !job.PinnedAlloc? && Answered(s.phys, resp, err) && Undisturbed(pt, job, start, pinned, resp, s, s')
    ensures Answered(s'.phys, resp, err)
  {
    assert Read(s'.phys, resp.base + 4, 4) == Read(s.phys, resp.base + 4, 4);
  }

  /** What others do between two batches is as if they had done it before the copy. */
  lemma LoopRebased(pt: map<nat, nat>, job: Job, b: Before, resp: Iov, bo: nat, batchNum: nat, s: State, s': State)
    requires !job.PinnedAlloc? && LoopState(pt, job, b, resp, bo, batchNum, s)
    requires Undisturbed(pt, job, b.start, b.pinned, resp, s, s')
    ensures |s'.backend| == |b.backend| && LoopState(pt, job, Rebased(job, b, s'), resp, bo, batchNum, s')
  {
    FixedRebased(pt, job, b, resp, bo, s, s');
    if job.FromDevice? {
      OutRebased(pt, job, b, resp, bo, s, s');
    } else {
      InRebased(pt, job, b, resp, bo, s, s');
    }
    if bo > 0 {
      AnswerKept(pt, job, b.start, b.pinned, resp, s, s', 0);
    }
  }

  /** ... with the same bytes to copy to the same place. */
  lemma SameCopyRebased(pt: map<nat, nat>, job: Job, b0: Before, b: Before, resp: Iov, k: nat, s: State, s': State)
    requires !job.PinnedAlloc? && Fixed(pt, job, b, resp) && Moved(pt, job, b, resp, k, s) && SameCopy(pt, job, b0, b)
    requires Undisturbed(pt, job, b.start, b.pinned, resp, s, s')
    ensures |s'.backend| == |b.backend| && SameCopy(pt, job, b0, Rebased(job, b, s'))
  {
    if job.ToDevice? {
      forall a | 0 <= a < |s'.phys| && UserFrame(pt, job, a) ensures s'.phys[a] == b0.phys[a] {
        var v :| job.va <= v < job.va + job.count && Resident(pt, v) && Translate(pt, v) == a;
        assert !(resp.base <= a < resp.base + resp.len);
      }
    }
    var at := Read(b.backend, b.start, job.count);
    assert Read(Splice(s'.backend, b.start, at), b.start, job.count) == at;
  }

  /** Of the guest's memory a copy changes only its response, and a copy from a device its user range. */
  lemma CopyElsewhere(pt: map<nat, nat>, job: Job, b: Before, resp: Iov, k: nat, s: State, a: nat)
    requires !job.PinnedAlloc? && Fixed(pt, job, b, resp) && Moved(pt, job, b, resp, k, s)
    requires a < |b.phys| && !(resp.base <= a < resp.base + resp.len) && !UserFrame(pt, job, a)
    ensures |s.phys| == |b.phys| && s.phys[a] == b.phys[a]
  {
    if job.FromDevice? {
      var u := UserAddrs(pt, job.va, k);
      UserFrames(pt, job, k);
      ScatterGather(b.phys, u, Read(b.backend, b.start, k));
    }
  }

  /** Another copy, finished or failed, is such a command if its user range, its response and,
      where it writes the backend, its backend range are apart from those of the job. */
  lemma OtherCopy(pt: map<nat, nat>, job: Job, start: nat, pinned: bool, resp: Iov, pt2: map<nat, nat>, other: Job,
                  b: Before, resp2: Iov, k: nat, s: State, s': State)
    requires !job.PinnedAlloc? && !other.PinnedAlloc? && b == EndToEnd.BeforeCopy(s, b.start, b.pinned)
    requires Fixed(pt2, other, b, resp2) && Moved(pt2, other, b, resp2, k, s')
    requires other.ToDevice? ==> b.start + other.count <= start || start + job.count <= b.start
    requires forall a: nat | UserFrame(pt, job, a) || resp.base <= a < resp.base + resp.len ::
      !(resp2.base <= a < resp2.base + resp2.len) && !UserFrame(pt2, other, a)
    ensures Undisturbed(pt, job, start, pinned, resp, s, s')
  {
    if other.ToDevice? {
      var user := Gather(b.phys, UserAddrs(pt2, other.va, k));
      var chunks :| SentAs(other.va, user, b.backend, b.start, b.hostMem, b.pinned, chunks, s'.backend);
    }
    forall a | 0 <= a < |s.phys| && (UserFrame(pt, job, a) || resp.base <= a < resp.base + resp.len)
      ensures |s'.phys| == |s.phys| && s'.phys[a] == s.phys[a]
    {
      CopyElsewhere(pt2, other, b, resp2, k, s', a);
    }
    assert |s'.phys| == |s.phys| by {
      if other.FromDevice? {
        assert |Scatter(b.phys, UserAddrs(pt2, other.va, k), Read(b.backend, b.start, k))| == |b.phys|;
      }
    }
  }

  /** What the other threads' commands do in one pause. */
  method Act(d: GuestDriver, act: State -> State)
    requires d.host.ctx != null
    modifies d.host, d.host.guest, d.host.ctx
    ensures d.Now() == act(old(d.Now())).(nextPinned := d.Now().nextPinned)
  {
    var s := act(d.Now());
    d.host.backend, d.host.pinnedAllocs, d.host.copied := s.backend, s.allocs, s.copied;
    d.host.guest.bytes := s.phys;
    d.host.ctx.resources := d.host.ctx.resources[MEM := s.mem][HOST_MEM := s.hostMem];
  }

  /** None of these commands disturbs the job, whenever it runs. */
  ghost predicate Considerate(acts: nat -> State -> State, pt: map<nat, nat>, job: Job, start: nat, pinned: bool,
                              resp: Iov)
    requires !job.PinnedAlloc?
  {
    forall n: nat, s: State :: Undisturbed(pt, job, start, pinned, resp, s, acts(n)(s))
  }

  lemma PauseKeeps(pt: map<nat, nat>, job: Job, b0: Before, b: Before, resp: Iov, bo: nat, batchNum: nat, s: State,
                   s': State)
    requires !job.PinnedAlloc? && LoopState(pt, job, b, resp, bo, batchNum, s) && SameCopy(pt, job, b0, b)
    requires Undisturbed(pt, job, b.start, b.pinned, resp, s, s')
    ensures |s'.backend| == |b.backend| && b.start + job.count <= |b.backend|
    ensures LoopState(pt, job, Rebased(job, b, s'), resp, bo, batchNum, s')
      && SameCopy(pt, job, b0, Rebased(job, b, s'))
  {
    LoopRebased(pt, job, b, resp, bo, batchNum, s, s');
    SameCopyRebased(pt, job, b0, b, resp, bo, s, s');
  }

  /** After some turns and pauses the copy stands where one that nobody interferes with stands
      that had the same bytes to copy. */
  ghost predicate Among(pt: map<nat, nat>, job: Job, b0: Before, b: Before, resp: Iov, bo: nat, batchNum: nat, k: nat,
                        ret: Errno, stop: bool, well: bool, s: State) {
    || (stop && !well && SameCopy(pt, job, b0, b) && Ended(pt, job, b, resp, k, ret, batchNum, s))
    || (!stop && ret == 0 && SameCopy(pt, job, b0, b) && LoopState(pt, job, b, resp, bo, batchNum, s))
  }

  lemma TurnAmong(pt: map<nat, nat>, job: Job, b0: Before, b: Before, resp: Iov, bo: nat, batchNum: nat, k: nat,
                  ret: Errno, stop: bool, well: bool, s: State)
    requires SameCopy(pt, job, b0, b) && Progress(pt, job, b, resp, bo, batchNum, k, ret, stop, s) && (well ==> !stop)
    ensures Among(pt, job, b0, b, resp, bo, batchNum, k, ret, stop, well, s)
  {
  }

  lemma PauseAmong(pt: map<nat, nat>, job: Job, b0: Before, b: Before, resp: Iov, bo: nat, batchNum: nat, k: nat,
                   ret: Errno, well: bool, s: State, s': State)
    requires !job.PinnedAlloc? && Among(pt, job, b0, b, resp, bo, batchNum, k, ret, false, well, s)
    requires Undisturbed(pt, job, b0.start, b0.pinned, resp, s, s')
    ensures |s'.backend| == |b.backend| && b.start + job.count <= |b.backend|
    ensures Among(pt, job, b0, Rebased(job, b, s'), resp, bo, batchNum, k, ret, false, well, s')
  {
    PauseKeeps(pt, job, b0, b, resp, bo, batchNum, s, s');
  }

  lemma AmongOver(pt: map<nat, nat>, job: Job, b0: Before, b: Before, resp: Iov, bo: nat, batchNum: nat, k: nat,
                  ret: Errno, stop: bool, well: bool, s: State)
    requires Among(pt, job, b0, b, resp, bo, batchNum, k, ret, stop, well, s) && (stop || bo == job.count)
    ensures SameCopy(pt, job, b0, b) && Finished(pt, job, b, resp, if stop then k else bo, ret, batchNum, well, s)
  {
  }

  lemma AmongReady(d: GuestDriver, pt: map<nat, nat>, job: Job, b0: Before, b: Before, resp: Iov, bo: nat,
                   batchNum: nat, k: nat, ret: Errno, well: bool, s: State)
    requires !job.PinnedAlloc? && Among(pt, job, b0, b, resp, bo, batchNum, k, ret, false, well, s)
      && (well ==> d.AllWell(pt, job, b0))
    ensures LoopState(pt, job, b, resp, bo, batchNum, s) && SameCopy(pt, job, b0, b) && (well ==> d.AllWell(pt, job, b))
  {
  }

  method TurnOf(d: GuestDriver, pt: map<nat, nat>, job: Job, ghost b0: Before, ghost b: Before, bo: nat,
                ghost batchNum: nat, ghost well: bool, reqIov: Iov, resp: Iov, pages: array<nat>, table: array<Iov>)
    returns (ret: Errno, stop: bool, next: nat, ghost k: nat)
    requires !job.PinnedAlloc? && bo < job.count && !d.locked && pages.Length == table.Length == 512
    requires Among(pt, job, b0, b, resp, bo, batchNum, 0, 0, false, well, d.Now()) && (well ==> d.AllWell(pt, job, b0))
    requires reqIov.len == Vhost.RequestLen(BatchRequest(job, 0, 0))
    modifies d, d.host, d.host.guest, d.host.ctx, pages, table
    ensures !d.locked && d.pinned == old(d.pinned) && (stop || bo < next <= job.count)
    ensures Among(pt, job, b0, b, resp, next, batchNum + 1, k, ret, stop, well, d.Now())
  {
    AmongReady(d, pt, job, b0, b, resp, bo, batchNum, 0, 0, well, d.Now());
    ret, stop, next, k := d.Turn(pt, job, b, bo, batchNum, reqIov, resp, pages, table);
    TurnAmong(pt, job, b0, b, resp, next, batchNum + 1, k, ret, stop, well, d.Now());
  }

  /** The mutex is free: the others run, unless the copy is over. */
  method PauseOf(d: GuestDriver, acts: nat -> State -> State, pt: map<nat, nat>, job: Job, ghost b0: Before,
                 ghost b: Before, ghost bo: nat, batchNum: nat, ghost k: nat, ghost ret: Errno, stop: bool,
                 ghost well: bool, resp: Iov)
    returns (ghost b': Before)
    requires !job.PinnedAlloc? && d.host.ctx != null && Considerate(acts, pt, job, b0.start, b0.pinned, resp)
    requires Among(pt, job, b0, b, resp, bo, batchNum, k, ret, stop, well, d.Now())
    modifies d.host, d.host.guest, d.host.ctx
    ensures Among(pt, job, b0, b', resp, bo, batchNum, k, ret, stop, well, d.Now())
  {
    b' := b;
    if !stop {
      ghost var s := d.Now();
      Pause(d, acts, batchNum, pt, job, b0.start, b0.pinned, resp);
      PauseAmong(pt, job, b0, b, resp, bo, batchNum, k, ret, well, s, d.Now());
      b' := Rebased(job, b, d.Now());
    }
  }

  method Pause(d: GuestDriver, acts: nat -> State -> State, n: nat, pt: map<nat, nat>, job: Job, ghost start: nat,
               ghost pinned: bool, resp: Iov)
    requires !job.PinnedAlloc? && d.host.ctx != null && Considerate(acts, pt, job, start, pinned, resp)
    modifies d.host, d.host.guest, d.host.ctx
    ensures Undisturbed(pt, job, start, pinned, resp, old(d.Now()), d.Now())
  {
    assert Undisturbed(pt, job, start, pinned, resp, d.Now(), acts(n)(d.Now()));
    Act(d, acts(n));
  }

  /** hmcuda_do_memcpy_gup with other threads' commands in every pause: it ends as a copy that
      nobody interferes with, from a state `b` with the same bytes to copy. */
  method CopyAmongOthers(d: GuestDriver, acts: nat -> State -> State, pt: map<nat, nat>, job: Job, ghost b0: Before,
                         reqIov: Iov, resp: Iov)
    returns (ret: Errno, batchNum: nat, ghost k: nat, ghost b: Before)
    requires !job.PinnedAlloc? && d.host.ctx != null && Between(pt, job, b0, resp, 0, d.Now()) && !d.locked
    requires reqIov.len == Vhost.RequestLen(BatchRequest(job, 0, 0))
      && Considerate(acts, pt, job, b0.start, b0.pinned, resp)
    modifies d, d.host, d.host.guest, d.host.ctx
    ensures !d.locked && d.pinned == old(d.pinned) && SameCopy(pt, job, b0, b)
    ensures Finished(pt, job, b, resp, k, ret, batchNum, d.AllWell(pt, job, b0), d.Now())
  {
    var pages, table := new nat[512], new Iov[512];
    Started(pt, job, b0, resp, d.Now());
    ghost var well := d.AllWell(pt, job, b0);
    var byteOffset, stop;
    ret, stop, byteOffset, batchNum, k, b := LoopAmongOthers(d, acts, pt, job, b0, well, reqIov, resp, pages, table);
    AmongOver(pt, job, b0, b, resp, byteOffset, batchNum, k, ret, stop, well, d.Now());
    if !stop {
      k := byteOffset;
    }
  }

  method LoopAmongOthers(d: GuestDriver, acts: nat -> State -> State, pt: map<nat, nat>, job: Job, ghost b0: Before,
                         ghost well: bool, reqIov: Iov, resp: Iov, pages: array<nat>, table: array<Iov>)
    returns (ret: Errno, stop: bool, byteOffset: nat, batchNum: nat, ghost k: nat, ghost b: Before)
    requires !job.PinnedAlloc? && d.host.ctx != null && !d.locked && pages.Length == table.Length == 512
    requires LoopState(pt, job, b0, resp, 0, 0, d.Now()) && (well ==> d.AllWell(pt, job, b0))
    requires reqIov.len == Vhost.RequestLen(BatchRequest(job, 0, 0))
      && Considerate(acts, pt, job, b0.start, b0.pinned, resp)
    modifies d, d.host, d.host.guest, d.host.ctx, pages, table
    ensures !d.locked && d.pinned == old(d.pinned) && (stop || byteOffset == job.count)
    ensures Among(pt, job, b0, b, resp, byteOffset, batchNum, k, ret, stop, well, d.Now())
  {
    ret, stop, byteOffset, batchNum, k, b := 0, false, 0, 0, 0, b0;
    ghost var pinned0 := d.pinned;
    while byteOffset < job.count && !stop
      invariant !d.locked && d.pinned == pinned0 && (stop || byteOffset <= job.count)
      invariant Among(pt, job, b0, b, resp, byteOffset, batchNum, k, ret, stop, well, d.Now())
      decreases !stop, job.count - byteOffset
    {
      ret, stop, byteOffset, k := TurnOf(d, pt, job, b0, b, byteOffset, batchNum, well, reqIov, resp, pages, table);
      batchNum := batchNum + 1;
      b := PauseOf(d, acts, pt, job, b0, b, byteOffset, batchNum, k, ret, stop, well, resp);
    }
  }

  lemma ReadFront(mem: seq<byte>, at: nat, n: nat, k: nat)
    requires at + n <= |mem| && k <= n
    ensures Read(mem, at, n)[..k] == Read(mem, at, k)
  {
  }

  /** So what arrives is what the job was to copy: the user's bytes, patched in pinned memory,
      or the bytes of the backend range. */
  lemma StillArrives(pt: map<nat, nat>, job: Job, b0: Before, b: Before, resp: Iov, k: nat, s: State)
    requires !job.PinnedAlloc? && Fixed(pt, job, b, resp) && Moved(pt, job, b, resp, k, s) && SameCopy(pt, job, b0, b)
    ensures k <= job.count && Mapped(pt, job.va, k) && b0.start + k <= |s.backend| && |s.phys| == |b0.phys|
    ensures InBounds(b0.phys, UserAddrs(pt, job.va, k))
    ensures job.ToDevice? && !b0.pinned ==>
      Read(s.backend, b0.start, k) == Gather(b0.phys, UserAddrs(pt, job.va, k))
    ensures job.ToDevice? && b0.pinned && job.va % 8 == 0 ==>
      Read(s.backend, b0.start, k) == Patching.Patch(b0.hostMem, Gather(b0.phys, UserAddrs(pt, job.va, k)))
    ensures job.FromDevice? && Injective(UserAddrs(pt, job.va, k)) ==>
      Gather(s.phys, UserAddrs(pt, job.va, k)) == Read(b0.backend, b0.start, k)
  {
    var u := UserAddrs(pt, job.va, k);
    UserFrames(pt, job, k);
    UserInBounds(pt, job.va, job.count, 0, k, resp, b.phys);
    if job.ToDevice? {
      assert Gather(b.phys, u) == Gather(b0.phys, u) by {
        forall i | 0 <= i < k ensures b.phys[u[i]] == b0.phys[u[i]] {
          assert UserFrame(pt, job, u[i]);
        }
      }
      if b.pinned {
        EndToEnd.PatchedSent(job.va, Gather(b.phys, u), b.backend, b.start, b.hostMem, s.backend);
      } else {
        EndToEnd.PlainSent(job.va, Gather(b.phys, u), b.backend, b.start, b.hostMem, s.backend);
      }
    } else {
      EndToEnd.Delivered(pt, job, b, resp, k, s.phys);
      ReadFront(b.backend, b.start, job.count, k);
      ReadFront(b0.backend, b0.start, job.count, k);
    }
  }
}
