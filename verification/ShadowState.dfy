/** The guest's two indices against the host's table: g_device_handles
    (guest/intercept/hmcuda_driver.cpp:292-310, 600-626) holds the base handles of live
    driver-API device entries, and g_host_mem_map (guest/transport/hmcuda_transport.cpp:226-242)
    the live pinned buffers. */
module ShadowState {
  import Api
  import opened Memory
  import opened Resources
  import Driver
  import Copy
  import EndToEnd
  import Vhost

  /** Bases of the non-empty entries. */
  function Bases(list: seq<Resource>): set<nat> {
    if list == [] then {} else (if list[0].size > 0 then {list[0].handle} else {}) + Bases(list[1..])
  }

  /** Base and size of every non-empty entry. */
  function Sizes(list: seq<Resource>): map<nat, nat> {
    if list == [] then map[]
    else if list[0].size > 0 then Sizes(list[1..])[list[0].handle := list[0].size]
    else Sizes(list[1..])
  }

  /** Every device entry is its own handle, whoever created it. */
  ghost predicate Identity(list: seq<Resource>) {
    forall r | r in list :: r.handle == r.realPtr
  }

  /** Disjoint live ranges; only cudaMalloc(0) leaves an empty entry, at NULL. */
  ghost predicate Live(list: seq<Resource>) {
    AllSound(list) && Disjoint(list) && forall r | r in list :: r.size == 0 <==> r.handle == 0
  }

  function NonEmpty(m: map<nat, nat>): map<nat, nat> {
    map va | va in m && m[va] > 0 :: m[va]
  }

  lemma {:induction false} BasesMembers(list: seq<Resource>, h: nat)
    ensures h in Bases(list) <==> exists r | r in list :: r.size > 0 && r.handle == h
    ensures Sizes(list).Keys == Bases(list)
    decreases |list|
  {
    if list != [] {
      assert list == [list[0]] + list[1..];
      BasesMembers(list[1..], h);
      if h == list[0].handle && list[0].size > 0 {
        assert list[0] in list;
      }
    }
  }

  /** Device lookup is the identity on live addresses and fails elsewhere. */
  lemma {:induction false} LookupIdentity(list: seq<Resource>, h: nat)
    requires Live(list) && Identity(list)
    ensures Lookup(list, MEM, h) == if exists r | r in list :: Inside(r, h) then h else 0
  {
    LookupIsIntervalMap(list, MEM, h);
  }

  /** Removing a handle takes exactly that base out of the list. */
  lemma {:induction false} RemovedBases(list: seq<Resource>, h: nat)
    requires Live(list)
    ensures Live(Removed(list, h)) && (Identity(list) ==> Identity(Removed(list, h)))
    ensures Bases(Removed(list, h)) == Bases(list) - {h}
    decreases |list|
  {
    RemovedMembers(list, h);
    if list != [] {
      var rest := list[1..];
      assert list == [list[0]] + rest;
      if list[0].handle == h {
        NotInRest(list);
      } else {
        RemovedBases(rest, h);
        assert Removed(list, h)[1..] == Removed(rest, h);
      }
    }
  }

  /** ... with its size. */
  lemma {:induction false} RemovedSizes(list: seq<Resource>, h: nat)
    requires Live(list)
    ensures Sizes(Removed(list, h)) == Sizes(list) - {h}
    decreases |list|
  {
    if list != [] {
      var rest := list[1..];
      assert list == [list[0]] + rest;
      if list[0].handle == h {
        NotInRest(list);
        BasesMembers(rest, h);
        assert Sizes(list) - {h} == Sizes(rest);
      } else {
        RemovedSizes(rest, h);
        assert Removed(list, h)[1..] == Removed(rest, h);
        assert Sizes(Removed(list, h)) == Sizes(list) - {h};
      }
    }
  }

  lemma NotInRest(list: seq<Resource>)
    requires Live(list) && list != []
    ensures list[0].handle !in Bases(list[1..])
  {
    BasesMembers(list[1..], list[0].handle);
    assert list == [list[0]] + list[1..];
    forall r | r in list[1..] && r.size > 0 ensures r.handle != list[0].handle {
      assert r in list && list[0] in list && Apart(list[0], r);
    }
  }

  /** A base handle resolves; so freeing one finds its entry. */
  lemma BaseResolves(list: seq<Resource>, t: ResourceType, h: nat)
    requires Live(list) && Ranged(t) && h in Bases(list)
    ensures Lookup(list, t, h) != 0
  {
    BasesMembers(list, h);
    var r :| r in list && r.handle == h;
    LookupIsIntervalMap(list, t, h);
    assert Inside(r, h);
  }

  ghost predicate Fresh(list: seq<Resource>, r: Resource) {
    Sound(r) && r.size > 0 && r.handle > 0 && forall q | q in list :: Apart(r, q)
  }

  lemma AddedBases(list: seq<Resource>, r: Resource)
    requires Live(list) && Fresh(list, r)
    ensures Live([r] + list) && (Identity(list) && r.handle == r.realPtr ==> Identity([r] + list))
    ensures Bases([r] + list) == Bases(list) + {r.handle} && r.handle !in Bases(list)
    ensures Sizes([r] + list) == Sizes(list)[r.handle := r.size]
  {
    assert ([r] + list)[1..] == list;
    NotInRest([r] + list);
  }

  /** The entry of an empty allocation changes nothing. */
  lemma AddedNull(list: seq<Resource>)
    requires Live(list) && Identity(list)
    ensures Live([Resource(0, 0, 0)] + list) && Identity([Resource(0, 0, 0)] + list)
    ensures Bases([Resource(0, 0, 0)] + list) == Bases(list)
    ensures forall h :: Lookup([Resource(0, 0, 0)] + list, MEM, h) == Lookup(list, MEM, h)
  {
    assert ([Resource(0, 0, 0)] + list)[1..] == list;
  }

  /** The lookups of a table of own handles: live addresses are their own, all others nothing;
      `base` and `size` came, or `gone` went. */
  ghost predicate Gained(before: seq<Resource>, after: seq<Resource>, base: nat, size: nat) {
    forall h: nat :: Lookup(after, MEM, h) == if base <= h < base + size then h else Lookup(before, MEM, h)
  }

  ghost predicate Lost(before: seq<Resource>, after: seq<Resource>, gone: nat) {
    forall h: nat :: Lookup(after, MEM, h) ==
      if exists r | r in before :: r.handle == gone && Inside(r, h) then 0 else Lookup(before, MEM, h)
  }

  lemma AddedLookups(list: seq<Resource>, r: Resource)
    requires Sound(r) && r.handle == r.realPtr
    ensures Gained(list, [r] + list, r.handle, r.size)
  {
    forall h: nat
      ensures Lookup([r] + list, MEM, h) == if r.handle <= h < r.handle + r.size then h else Lookup(list, MEM, h)
    {
      assert ([r] + list)[1..] == list;
      assert Wrap64(r.handle + r.size) == r.handle + r.size;
    }
  }

  lemma RemovedLookups(list: seq<Resource>, gone: nat)
    requires Live(list) && Identity(list)
    ensures Lost(list, Removed(list, gone), gone)
  {
    forall h: nat
      ensures Lookup(Removed(list, gone), MEM, h) ==
        if exists r | r in list :: r.handle == gone && Inside(r, h) then 0 else Lookup(list, MEM, h)
    {
      RemovedLookup(list, gone, h);
    }
  }

  lemma {:induction false} RemovedLookup(list: seq<Resource>, gone: nat, h: nat)
    requires Live(list) && Identity(list)
    ensures Lookup(Removed(list, gone), MEM, h) ==
      if exists r | r in list :: r.handle == gone && Inside(r, h) then 0 else Lookup(list, MEM, h)
  {
    if r :| r in list && r.handle == gone && r.size > 0 {
      forall q | q in list && q.handle == gone ensures q == r {
        assert q.size > 0;
        OneOwner(list, r, q, gone);
      }
      RemovalIsLocal(list, MEM, r, h);
    } else {
      EmptyRemoved(list, gone, h);
    }
  }

  /** No other entry has this handle than empty ones, which no lookup finds. */
  lemma {:induction false} EmptyRemoved(list: seq<Resource>, gone: nat, h: nat)
    requires AllSound(list) && forall r | r in list && r.handle == gone :: r.size == 0
    ensures Lookup(Removed(list, gone), MEM, h) == Lookup(list, MEM, h)
    decreases |list|
  {
    if list != [] {
      assert list == [list[0]] + list[1..];
      if list[0].handle == gone {
        assert list[0].size == 0 && Sound(list[0]);
      } else {
        EmptyRemoved(list[1..], gone, h);
        assert Removed(list, gone)[1..] == Removed(list[1..], gone);
      }
    }
  }

  /** What an allocation brought, its free takes away again: every lookup is as it was. */
  lemma AllocFree(list: seq<Resource>, r: Resource)
    ensures Removed([r] + list, r.handle) == list
  {
    assert ([r] + list)[1..] == list;
  }

  /* ---- pinned buffers ---- */

  /** Every non-empty buffer the guest knows has an entry that no newer one overlaps. */
  ghost predicate Serving(list: seq<Resource>, m: map<nat, nat>) {
    && (forall r | r in list :: Sound(r) && r.size > 0 && r.handle > 0)
    && forall va | va in NonEmpty(m) :: HasEntry(list, va, m[va])
  }

  /** malloc gives out a block apart from the buffers the guest knows. */
  ghost predicate Unused(m: map<nat, nat>, r: Resource) {
    Sound(r) && r.size > 0 && r.handle > 0 && forall va | va in NonEmpty(m) :: Apart(r, Resource(va, 0, m[va]))
  }

  lemma {:induction false} SizesMember(list: seq<Resource>, r: Resource)
    requires Live(list) && r in list && r.size > 0
    ensures r.handle in Sizes(list) && Sizes(list)[r.handle] == r.size
    decreases |list|
  {
    assert list == [list[0]] + list[1..];
    if r != list[0] {
      SizesMember(list[1..], r);
      NotInRest(list);
      BasesMembers(list[1..], r.handle);
    }
  }

  lemma {:induction false} SizesEntry(list: seq<Resource>, va: nat)
    requires Live(list) && va in Sizes(list)
    ensures HasEntry(list, va, Sizes(list)[va])
  {
    BasesMembers(list, va);
    var r :| r in list && r.size > 0 && r.handle == va;
    SizesMember(list, r);
    DisjointRules(list, r);
    assert r == Resource(va, r.realPtr, Sizes(list)[va]);
  }

  /** Sides that know the same buffers serve each other. */
  lemma AgreeServes(list: seq<Resource>, m: map<nat, nat>)
    requires Live(list) && NonEmpty(m) == Sizes(list) && forall r | r in list :: r.size > 0
    ensures Serving(list, m)
  {
    forall va | va in NonEmpty(m) ensures HasEntry(list, va, m[va]) {
      SizesEntry(list, va);
      assert NonEmpty(m)[va] == m[va];
    }
  }

  lemma UnusedIsFresh(list: seq<Resource>, m: map<nat, nat>, r: Resource)
    requires Live(list) && NonEmpty(m) == Sizes(list) && Unused(m, r) && forall q | q in list :: q.size > 0
    ensures Fresh(list, r)
  {
    forall q | q in list ensures Apart(r, q) {
      SizesMember(list, q);
      assert q.handle in NonEmpty(m) && NonEmpty(m)[q.handle] == m[q.handle];
    }
  }

  /** An allocation, whether the guest hears of it or not, disturbs no buffer it knows. */
  lemma AllocServes(list: seq<Resource>, m: map<nat, nat>, r: Resource, known: bool)
    requires Serving(list, m) && Unused(m, r) && r.handle !in m
    ensures Serving([r] + list, if known then m[r.handle := r.size] else m)
  {
    var m' := if known then m[r.handle := r.size] else m;
    forall va | va in NonEmpty(m') ensures HasEntry([r] + list, va, m'[va]) {
      if va == r.handle {
        RulesAdded(list, r, r);
      } else {
        assert va in NonEmpty(m);
        AddKeepsEntry(list, r, va, m[va]);
      }
    }
  }

  lemma FreeServes(list: seq<Resource>, m: map<nat, nat>, va: nat)
    requires Serving(list, m)
    ensures Serving(list, m - {va}) && Serving(Removed(list, va), m - {va})
  {
    RemovedMembers(list, va);
    forall w | w in NonEmpty(m - {va}) ensures HasEntry(list, w, m[w]) && HasEntry(Removed(list, va), w, m[w]) {
      assert w in NonEmpty(m);
      RemoveKeepsEntry(list, va, w, m[w]);
    }
  }

  class Session {
    const ctx: Context
    var deviceHandles: set<nat>            // g_device_handles
    var hostMap: map<nat, nat>             // g_host_mem_map, without the dirty bits
    ghost var runtimeHandles: set<nat>     // live cudaMalloc results, which the guest does not index

    constructor (ctx: Context)
      requires ctx.List(MEM) == [] && ctx.List(HOST_MEM) == []
      ensures this.ctx == ctx && Good() && BuffersAgree()
    {
      this.ctx := ctx;
      deviceHandles, hostMap, runtimeHandles := {}, map[], {};
    }

    ghost predicate DevicesAgree()
      reads this, ctx
    {
      && Live(ctx.List(MEM)) && Identity(ctx.List(MEM))
      && deviceHandles + runtimeHandles == Bases(ctx.List(MEM)) && deviceHandles !! runtimeHandles
    }

    /** Both sides know the same pinned buffers ... */
    ghost predicate BuffersAgree()
      reads this, ctx
    {
      && Live(ctx.List(HOST_MEM)) && (forall r | r in ctx.List(HOST_MEM) :: r.size > 0)
      && NonEmpty(hostMap) == Sizes(ctx.List(HOST_MEM))
    }

    /** ... or the host at least all that the guest knows, behind no other. */
    ghost predicate BuffersServed()
      reads this, ctx
    {
      Serving(ctx.List(HOST_MEM), hostMap)
    }

    ghost predicate Good()
      reads this, ctx
    {
      DevicesAgree() && BuffersServed()
    }

    /** What the index is for: it tells the driver API's allocations, by their bases, from all
        other addresses, those inside an allocation and the runtime's included. */
    lemma IndexIs(h: nat)
      requires DevicesAgree()
      ensures h in deviceHandles <==>
        h !in runtimeHandles && exists r | r in ctx.List(MEM) :: r.size > 0 && r.handle == h
      ensures (exists r | r in ctx.List(MEM) :: Inside(r, h) && h != r.handle) ==> h !in deviceHandles
    {
      BasesMembers(ctx.List(MEM), h);
      if r :| r in ctx.List(MEM) && Inside(r, h) && h != r.handle {
        forall q | q in ctx.List(MEM) && q.size > 0 ensures q.handle != h {
          if q.handle == h {
            OneOwner(ctx.List(MEM), r, q, h);
          }
        }
      }
    }

    /** cuMemAlloc and cuMemAddressReserve, guest and host: `err` and `dptr` are CUDA's answer. */
    method Allocate(size: nat, err: nat, dptr: nat) returns (res: nat)
      requires Good() && (err == 0 ==> Fresh(ctx.List(MEM), Resource(dptr, dptr, size)))
      modifies this`deviceHandles, ctx
      ensures Good() && res == err && ctx.List(HOST_MEM) == old(ctx.List(HOST_MEM))
      ensures deviceHandles == if err == 0 then old(deviceHandles) + {dptr} else old(deviceHandles)
      ensures ctx.List(MEM) == (if err == 0 then [Resource(dptr, dptr, size)] else []) + old(ctx.List(MEM))
      ensures err == 0 ==> Gained(old(ctx.List(MEM)), ctx.List(MEM), dptr, size)
    {
      res := err;
      if err == 0 {
        AddedLookups(ctx.List(MEM), Resource(dptr, dptr, size));
        AddedBases(ctx.List(MEM), Resource(dptr, dptr, size));
        var handle := ctx.AddWithHandle(MEM, dptr, size, dptr);
        deviceHandles := deviceHandles + {handle};
      }
    }

    /** cudaMalloc; of no bytes it succeeds with NULL, and nothing resolves differently. */
    method RuntimeMalloc(size: nat, err: nat, dptr: nat) returns (res: nat)
      requires Good()
      requires err == 0 ==> if size == 0 then dptr == 0 else Fresh(ctx.List(MEM), Resource(dptr, dptr, size))
      modifies this`runtimeHandles, ctx
      ensures Good() && res == err && ctx.List(HOST_MEM) == old(ctx.List(HOST_MEM))
      ensures runtimeHandles == if err == 0 && size > 0 then old(runtimeHandles) + {dptr} else old(runtimeHandles)
      ensures ctx.List(MEM) == (if err == 0 then [Resource(dptr, dptr, size)] else []) + old(ctx.List(MEM))
      ensures err == 0 ==> Gained(old(ctx.List(MEM)), ctx.List(MEM), dptr, size)
      ensures err != 0 || size == 0 ==> forall h :: Lookup(ctx.List(MEM), MEM, h) == Lookup(old(ctx.List(MEM)), MEM, h)
    {
      res := err;
      if err == 0 {
        AddedLookups(ctx.List(MEM), Resource(dptr, dptr, size));
        if size == 0 {
          AddedNull(ctx.List(MEM));
        } else {
          AddedBases(ctx.List(MEM), Resource(dptr, dptr, size));
        }
        var handle := ctx.AddWithHandle(MEM, dptr, size, dptr);
        runtimeHandles := if size == 0 then runtimeHandles else runtimeHandles + {handle};
      }
    }

    /** The host half of every device free: any live address is accepted, but only a base
        address takes an entry out. */
    method HostFree(p: nat, cudaErr: nat) returns (res: nat)
      requires Live(ctx.List(MEM)) && Identity(ctx.List(MEM))
      modifies ctx
      ensures Live(ctx.List(MEM)) && Identity(ctx.List(MEM)) && Bases(ctx.List(MEM)) == Bases(old(ctx.List(MEM))) - {p}
      ensures Lost(old(ctx.List(MEM)), ctx.List(MEM), p)
      ensures ctx.List(MEM) == if exists r | r in old(ctx.List(MEM)) :: Inside(r, p) then Removed(old(ctx.List(MEM)), p)
                               else old(ctx.List(MEM))
      ensures ctx.List(HOST_MEM) == old(ctx.List(HOST_MEM))
      ensures res ==
        if exists r | r in old(ctx.List(MEM)) :: Inside(r, p) then cudaErr else Api.CUDA_ERROR_INVALID_VALUE
    {
      var realPtr := ctx.Get(MEM, p);
      LookupIsIntervalMap(ctx.List(MEM), MEM, p);
      if realPtr == 0 {
        if p in Bases(ctx.List(MEM)) {
          BaseResolves(ctx.List(MEM), MEM, p);
        }
        NothingLost(ctx.List(MEM), p);
        return Api.CUDA_ERROR_INVALID_VALUE;
      }
      RemovedBases(ctx.List(MEM), p);
      RemovedLookups(ctx.List(MEM), p);
      var _ := ctx.Remove(MEM, p);
      res := cudaErr;
    }

    /** cuMemFree and cuMemAddressFree: the index forgets `p` before the host is asked. */
    method Free(p: nat, cudaErr: nat) returns (res: nat)
      requires Good()
      modifies this`deviceHandles, this`runtimeHandles, ctx
      ensures Good() && deviceHandles == old(deviceHandles) - {p} && runtimeHandles == old(runtimeHandles) - {p}
      ensures Bases(ctx.List(MEM)) == Bases(old(ctx.List(MEM))) - {p}
      ensures Lost(old(ctx.List(MEM)), ctx.List(MEM), p)
      ensures ctx.List(MEM) == if exists r | r in old(ctx.List(MEM)) :: Inside(r, p) then Removed(old(ctx.List(MEM)), p)
                               else old(ctx.List(MEM))
      ensures ctx.List(HOST_MEM) == old(ctx.List(HOST_MEM))
      ensures res ==
        if exists r | r in old(ctx.List(MEM)) :: Inside(r, p) then cudaErr else Api.CUDA_ERROR_INVALID_VALUE
    {
      deviceHandles := deviceHandles - {p};
      res := HostFree(p, cudaErr);
      runtimeHandles := runtimeHandles - {p};
    }

    /** cudaFree does not touch the index: it stays right exactly when `p` is no driver-API handle. */
    method RuntimeFree(p: nat, cudaErr: nat) returns (res: nat)
      requires Good()
      modifies this`runtimeHandles, ctx
      ensures BuffersServed() && (DevicesAgree() <==> p !in deviceHandles)
      ensures Bases(ctx.List(MEM)) == Bases(old(ctx.List(MEM))) - {p} && runtimeHandles == old(runtimeHandles) - {p}
      ensures Lost(old(ctx.List(MEM)), ctx.List(MEM), p)
      ensures ctx.List(MEM) == if exists r | r in old(ctx.List(MEM)) :: Inside(r, p) then Removed(old(ctx.List(MEM)), p)
                               else old(ctx.List(MEM))
      ensures res ==
        if exists r | r in old(ctx.List(MEM)) :: Inside(r, p) then cudaErr else Api.CUDA_ERROR_INVALID_VALUE
      ensures ctx.List(HOST_MEM) == old(ctx.List(HOST_MEM))
    {
      res := HostFree(p, cudaErr);
      runtimeHandles := runtimeHandles - {p};
    }

    /** cuMemHostAlloc: malloc gave `va`, and the allocation ioctl of driver `d` moved `moved`
        bytes.  When it fails after the first byte, the host keeps an entry the guest does not
        know: the sides no longer agree, but every buffer the guest knows is still served, also
        when malloc gives the block out again. */
    method HostAlloc(d: Copy.GuestDriver, pt: map<nat, nat>, va: nat, size: nat, ghost start: nat, reqIov: Iov,
                     resp: Iov)
      returns (res: nat, ghost moved: nat)
      requires Good() && va !in hostMap && d.host.ctx == ctx && EndToEnd.Callable(d, pt, va, size, resp)
        && va + size < U64
      requires 0 < start == d.host.cuda.pinnedAt(d.host.calls) && start + size <= |d.host.backend| < U64
      requires size > 0 && va > 0 ==> Unused(hostMap, Resource(va, start, size))
      requires reqIov.len == Vhost.RequestLen(Vhost.HostAlloc(size, va, 0))
      modifies this`hostMap, d, d.host, d.host.guest, ctx
      ensures Good() && moved <= size && (res == 0 && va > 0 ==> moved == size)
      ensures va == 0 ==> res == Api.CUDA_ERROR_OUT_OF_MEMORY && moved == 0
      ensures va > 0 && EndToEnd.NoFailure(d, pt, va, size) ==> res == 0
      ensures old(BuffersAgree()) ==> (BuffersAgree() <==> res == 0 || moved == 0)
      ensures hostMap == if res == 0 then old(hostMap)[va := size] else old(hostMap)
      ensures ctx.List(HOST_MEM) ==
        (if moved > 0 then [Resource(va, start, size)] else []) + old(ctx.List(HOST_MEM))
      ensures va == 0 || size == 0 || res == 1
        || (Vhost.ResponseFits(resp, |d.Phys()|) && Driver.ResponseError(d.Phys(), resp) == res)
      ensures va == 0 || (EndToEnd.Readable(pt, va, moved, old(d.Phys())) &&
        d.host.backend == Splice(old(d.host.backend), start, EndToEnd.UserBytes(pt, va, moved, old(d.Phys()))))
    {
      if va == 0 {
        return Api.CUDA_ERROR_OUT_OF_MEMORY, 0;
      }
      ghost var list, before, agreed := ctx.List(HOST_MEM), hostMap, BuffersAgree();
      var ret;
      ret, moved := EndToEnd.AllocPinned(d, pt, va, size, start, reqIov, resp);
      res := if ret < 0 then 1 else if size == 0 then 0 else Driver.ResponseError(d.Phys(), resp);
      if res == 0 {
        hostMap := hostMap[va := size];
      }
      HeldAfterAlloc(list, before, va, size, start, moved, res == 0);
      if agreed {
        AllocAgrees(list, before, va, size, start, moved, res == 0);
      }
    }

    /** cuMemFreeHost: unknown and empty buffers are refused without asking the host.  A dispatch
        that does not reach the host leaves its entry behind. */
    method FreeHost(va: nat, reached: bool, cudaErr: nat) returns (res: nat)
      requires Good()
      modifies this`hostMap, ctx
      ensures Good()
      ensures old(BuffersAgree()) ==> (BuffersAgree() <==> reached || va !in NonEmpty(old(hostMap)))
      ensures hostMap == if va in NonEmpty(old(hostMap)) then old(hostMap) - {va} else old(hostMap)
      ensures ctx.List(HOST_MEM) ==
        if reached && va in NonEmpty(old(hostMap)) then Removed(old(ctx.List(HOST_MEM)), va)
        else old(ctx.List(HOST_MEM))
      ensures ctx.List(MEM) == old(ctx.List(MEM))
      ensures res == if va in NonEmpty(old(hostMap)) then cudaErr else Api.CUDA_ERROR_INVALID_VALUE
    {
      var size := if va in hostMap then hostMap[va] else 0;
      if size == 0 {
        return Api.CUDA_ERROR_INVALID_VALUE;
      }
      ghost var before, list := hostMap, ctx.List(HOST_MEM);
      FreeServes(list, before, va);
      FreeAgrees(list, before, va);
      hostMap := hostMap - {va};
      if reached {
        HostFreeHost(va);
      }
      res := cudaErr;
    }

    /** hmcuda_core_cu_mem_free_host of a buffer the guest knows. */
    method HostFreeHost(va: nat)
      requires AllSound(ctx.List(HOST_MEM)) && exists size :: size > 0 && HasEntry(ctx.List(HOST_MEM), va, size)
      modifies ctx
      ensures ctx.List(HOST_MEM) == Removed(old(ctx.List(HOST_MEM)), va) && ctx.List(MEM) == old(ctx.List(MEM))
      ensures ctx.List(HOST_DEV_PTR) == Removed(old(ctx.List(HOST_DEV_PTR)), va)
    {
      var p := ctx.Get(HOST_MEM, va);
      EntryFound(ctx.List(HOST_MEM), va);
      assert p != 0;
      var _ := ctx.Remove(HOST_MEM, va);
      var _ := ctx.Remove(HOST_DEV_PTR, va);
    }
  }

  lemma NothingLost(list: seq<Resource>, p: nat)
    requires forall r | r in list :: !Inside(r, p)
    ensures Lost(list, list, p)
  {
    forall h: nat
      ensures Lookup(list, MEM, h) ==
        if exists r | r in list :: r.handle == p && Inside(r, h) then 0 else Lookup(list, MEM, h)
    {
      forall r | r in list ensures !(r.handle == p && Inside(r, h)) {
        assert r.handle == p && Inside(r, h) ==> Inside(r, p);
      }
    }
  }

  lemma EntryFound(list: seq<Resource>, va: nat)
    requires AllSound(list) && exists size :: size > 0 && HasEntry(list, va, size)
    ensures Lookup(list, HOST_MEM, va) != 0
  {
    var size :| size > 0 && HasEntry(list, va, size);
    var p: nat :| Rules(list, Resource(va, p, size));
    RulerListed(list, Resource(va, p, size));
    RulerResolves(list, HOST_MEM, Resource(va, p, size), va);
  }

  /** The table and the registry after an allocation of which `moved` bytes got across. */
  lemma HeldAfterAlloc(list: seq<Resource>, m: map<nat, nat>, va: nat, size: nat, start: nat, moved: nat, ok: bool)
    requires Serving(list, m) && va !in m && moved <= size && (ok ==> moved == size)
    requires size > 0 ==> Unused(m, Resource(va, start, size))
    ensures Serving((if moved > 0 then [Resource(va, start, size)] else []) + list, if ok then m[va := size] else m)
  {
    Registered(m, va, size);
    if moved > 0 {
      AllocServes(list, m, Resource(va, start, size), ok);
    } else {
      assert [] + list == list;
    }
  }

  /** The two sides know the same buffers after an allocation if and only if it succeeded or
      moved nothing. */
  lemma AllocAgrees(list: seq<Resource>, m: map<nat, nat>, va: nat, size: nat, start: nat, moved: nat, ok: bool)
    requires Live(list) && (forall r | r in list :: r.size > 0) && NonEmpty(m) == Sizes(list)
    requires va !in m && moved <= size && (ok ==> moved == size)
    requires size > 0 ==> Unused(m, Resource(va, start, size))
    ensures
      var list' := (if moved > 0 then [Resource(va, start, size)] else []) + list;
      && Live(list') && (forall r | r in list' :: r.size > 0)
      && (NonEmpty(if ok then m[va := size] else m) == Sizes(list') <==> ok || moved == 0)
  {
    var r := Resource(va, start, size);
    Registered(m, va, size);
    if moved > 0 {
      UnusedIsFresh(list, m, r);
      AddedBases(list, r);
      assert va in Sizes([r] + list) && va !in NonEmpty(m);
    } else {
      assert [] + list == list;
    }
  }

  lemma FreeAgrees(list: seq<Resource>, m: map<nat, nat>, va: nat)
    requires va in NonEmpty(m)
    ensures Live(list) && (forall r | r in list :: r.size > 0) && NonEmpty(m) == Sizes(list) ==>
      && Live(Removed(list, va)) && (forall r | r in Removed(list, va) :: r.size > 0)
      && NonEmpty(m - {va}) == Sizes(Removed(list, va)) && NonEmpty(m - {va}) != Sizes(list)
  {
    assert NonEmpty(m - {va}) == NonEmpty(m) - {va};
    if Live(list) && (forall r | r in list :: r.size > 0) && NonEmpty(m) == Sizes(list) {
      RemovedMembers(list, va);
      RemovedBases(list, va);
      RemovedSizes(list, va);
    }
  }

  lemma Registered(m: map<nat, nat>, va: nat, size: nat)
    requires va !in m
    ensures NonEmpty(m[va := size]) == if size > 0 then NonEmpty(m)[va := size] else NonEmpty(m)
  {
  }
}
