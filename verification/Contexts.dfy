/** The host's context list and handle counter (host/vhost/resource.c:22-114), and the
    operations that create, reset and destroy contexts. */
module Contexts {
  import opened Memory
  import opened Resources
  import Api

  const FIRST_HANDLE: nat := 0x10000000

  type Table = map<ResourceType, seq<Resource>>

  /** A release call made for one table entry. */
  datatype Release =
    | CudaFree(realPtr: nat)
    | CudaStreamDestroy(realPtr: nat)
    | CudaEventDestroy(realPtr: nat)
    | CuMemFreeHost(realPtr: nat)
    | CuMemRelease(realPtr: nat)

  /** A list node given back to the allocator. */
  datatype Node = Node(kind: ResourceType, resource: Resource)

  /** The call for an entry; entries of the other types own nothing or are managed elsewhere. */
  function ReleaseOf(t: ResourceType, r: Resource): seq<Release> {
    if r.realPtr == 0 then []
    else
      match t
      case MEM => [CudaFree(r.realPtr)]
      case STREAM => [CudaStreamDestroy(r.realPtr)]
      case EVENT => [CudaEventDestroy(r.realPtr)]
      case HOST_MEM => [CuMemFreeHost(r.realPtr)]
      case GENERIC_ALLOC => [CuMemRelease(r.realPtr)]
      case _ => []
  }

  function ReleasesOf(t: ResourceType, list: seq<Resource>): seq<Release> {
    if list == [] then [] else ReleaseOf(t, list[0]) + ReleasesOf(t, list[1..])
  }

  /** The type whose entries the call releases. */
  function Released(r: Release): ResourceType {
    match r
    case CudaFree(_) => MEM
    case CudaStreamDestroy(_) => STREAM
    case CudaEventDestroy(_) => EVENT
    case CuMemFreeHost(_) => HOST_MEM
    case CuMemRelease(_) => GENERIC_ALLOC
  }

  function NodesOf(t: ResourceType, list: seq<Resource>): seq<Node> {
    if list == [] then [] else [Node(t, list[0])] + NodesOf(t, list[1..])
  }

  /** The enumeration order of the type tag. */
  const TYPES: seq<ResourceType> :=
    [MEM, STREAM, EVENT, MODULE, FUNCTION, CONTEXT, HOST_MEM, HOST_DEV_PTR, GENERIC_ALLOC]

  function Rank(t: ResourceType): (i: nat)
    ensures i < |TYPES| && TYPES[i] == t
  {
    match t
    case MEM => 0
    case STREAM => 1
    case EVENT => 2
    case MODULE => 3
    case FUNCTION => 4
    case CONTEXT => 5
    case HOST_MEM => 6
    case HOST_DEV_PTR => 7
    case GENERIC_ALLOC => 8
  }

  lemma RankExact(i: nat)
    requires i < |TYPES|
    ensures Rank(TYPES[i]) == i
  {
  }

  /** The calls for the first `n` types of a context's table, and the nodes in them. */
  function ReleasesUpTo(table: Table, n: nat): seq<Release>
    requires n <= |TYPES|
  {
    if n == 0 then []
    else ReleasesUpTo(table, n - 1) + ReleasesOf(TYPES[n - 1], ListIn(table, TYPES[n - 1]))
  }

  function NodesUpTo(table: Table, n: nat): seq<Node>
    requires n <= |TYPES|
  {
    if n == 0 then [] else NodesUpTo(table, n - 1) + NodesOf(TYPES[n - 1], ListIn(table, TYPES[n - 1]))
  }

  function Occurrences(list: seq<Resource>, p: nat): nat {
    if list == [] then 0 else (if list[0].realPtr == p then 1 else 0) + Occurrences(list[1..], p)
  }

  /** How often the table of a context holds an object under a type; NULL is no object. */
  function Held(table: Table, t: ResourceType, p: nat): nat {
    if p == 0 then 0 else Occurrences(ListIn(table, t), p)
  }

  /** Each entry that owns an object appears once per occurrence in its list, and no other call is made. */
  lemma {:induction false} ReleasedOnce(t: ResourceType, list: seq<Resource>, r: Release)
    ensures multiset(ReleasesOf(t, list))[r] ==
            if Released(r) == t && r.realPtr != 0 then Occurrences(list, r.realPtr) else 0
    decreases |list|
  {
    if list != [] {
      ReleasedOnce(t, list[1..], r);
      CountAppend(ReleaseOf(t, list[0]), ReleasesOf(t, list[1..]), r);
      OneRelease(t, list[0], r);
    }
  }

  lemma OneRelease(t: ResourceType, e: Resource, r: Release)
    ensures multiset(ReleaseOf(t, e))[r] ==
            if Released(r) == t && r.realPtr != 0 && e.realPtr == r.realPtr then 1 else 0
  {
  }

  lemma {:induction false} FreedOnce(t: ResourceType, list: seq<Resource>, k: ResourceType, r: Resource)
    ensures multiset(NodesOf(t, list))[Node(k, r)] == if k == t then multiset(list)[r] else 0
    decreases |list|
  {
    if list != [] {
      FreedOnce(t, list[1..], k, r);
      assert list == [list[0]] + list[1..];
    }
  }

  lemma CountAppend<T>(a: seq<T>, b: seq<T>, x: T)
    ensures multiset(a + b)[x] == multiset(a)[x] + multiset(b)[x]
  {
  }

  /** Over the first `n` types of a table. */
  lemma {:induction false} ReleasedUpToOnce(table: Table, n: nat, r: Release)
    requires n <= |TYPES|
    ensures multiset(ReleasesUpTo(table, n))[r] ==
            if Rank(Released(r)) < n then Held(table, Released(r), r.realPtr) else 0
    decreases n
  {
    if n > 0 {
      var t := TYPES[n - 1];
      RankExact(n - 1);
      ReleasedUpToOnce(table, n - 1, r);
      ReleasedOnce(t, ListIn(table, t), r);
      CountAppend(ReleasesUpTo(table, n - 1), ReleasesOf(t, ListIn(table, t)), r);
    }
  }

  lemma {:induction false} FreedUpToOnce(table: Table, n: nat, k: ResourceType, r: Resource)
    requires n <= |TYPES|
    ensures multiset(NodesUpTo(table, n))[Node(k, r)] == if Rank(k) < n then multiset(ListIn(table, k))[r] else 0
    decreases n
  {
    if n > 0 {
      var t := TYPES[n - 1];
      RankExact(n - 1);
      FreedUpToOnce(table, n - 1, k, r);
      FreedOnce(t, ListIn(table, t), k, r);
      var nodes := NodesUpTo(table, n);
      assert nodes == NodesUpTo(table, n - 1) + NodesOf(t, ListIn(table, t));
      CountAppend(NodesUpTo(table, n - 1), NodesOf(t, ListIn(table, t)), Node(k, r));
    }
  }

  /** Calls of `r` made between `before` and `after`. */
  ghost function Made(before: seq<Release>, after: seq<Release>, r: Release): int {
    multiset(after)[r] as int - multiset(before)[r]
  }

  /** Between `before` and `after` device memory, streams, events, pinned memory and generic
      allocations of the table were released, each object by its own call and once per
      occurrence, and nothing else was. */
  ghost predicate ReleasedExactly(before: seq<Release>, after: seq<Release>, table: Table) {
    forall p: nat ::
      && Made(before, after, CudaFree(p)) == Held(table, MEM, p)
      && Made(before, after, CudaStreamDestroy(p)) == Held(table, STREAM, p)
      && Made(before, after, CudaEventDestroy(p)) == Held(table, EVENT, p)
      && Made(before, after, CuMemFreeHost(p)) == Held(table, HOST_MEM, p)
      && Made(before, after, CuMemRelease(p)) == Held(table, GENERIC_ALLOC, p)
  }

  /** Between `before` and `after` every node of the table was freed once, and no other. */
  ghost predicate FreedExactly(before: seq<Node>, after: seq<Node>, table: Table) {
    forall k, r :: multiset(after)[Node(k, r)] == multiset(before)[Node(k, r)] + multiset(ListIn(table, k))[r]
  }

  lemma TableReleased(before: seq<Release>, after: seq<Release>, table: Table)
    requires after == before + ReleasesUpTo(table, |TYPES|)
    ensures ReleasedExactly(before, after, table)
  {
    forall r: Release ensures Made(before, after, r) == Held(table, Released(r), r.realPtr) {
      ReleasedUpToOnce(table, |TYPES|, r);
      CountAppend(before, ReleasesUpTo(table, |TYPES|), r);
    }
  }

  lemma TableFreed(before: seq<Node>, after: seq<Node>, table: Table)
    requires after == before + NodesUpTo(table, |TYPES|)
    ensures FreedExactly(before, after, table)
  {
    forall k, r ensures multiset(after)[Node(k, r)] == multiset(before)[Node(k, r)] + multiset(ListIn(table, k))[r] {
      FreedUpToOnce(table, |TYPES|, k, r);
      CountAppend(before, NodesUpTo(table, |TYPES|), Node(k, r));
    }
  }

  lemma WholeTableOnce(before: seq<Release>, freed: seq<Node>, table: Table)
    ensures ReleasedExactly(before, before + ReleasesUpTo(table, |TYPES|), table)
    ensures FreedExactly(freed, freed + NodesUpTo(table, |TYPES|), table)
  {
    TableReleased(before, before + ReleasesUpTo(table, |TYPES|), table);
    TableFreed(freed, freed + NodesUpTo(table, |TYPES|), table);
  }

  predicate Keyed(c: Context, sid: nat, vid: nat) {
    c.sessionId == sid && c.vmId == vid
  }

  function Find(list: seq<Context>, sid: nat, vid: nat): (c: Context?)
    ensures c != null ==> c in list && Keyed(c, sid, vid)
    ensures c == null <==> forall d | d in list :: !Keyed(d, sid, vid)
  {
    if list == [] then null
    else if Keyed(list[0], sid, vid) then list[0]
    else Find(list[1..], sid, vid)
  }

  /** At most one context per session and machine. */
  ghost predicate Unique(list: seq<Context>) {
    list == [] || (Unique(list[1..]) && forall d | d in list[1..] :: !Keyed(d, list[0].sessionId, list[0].vmId))
  }

  function Without(list: seq<Context>, c: Context): seq<Context> {
    if list == [] then [] else if list[0] == c then list[1..] else [list[0]] + Without(list[1..], c)
  }

  /** The contexts of everybody else, in list order. */
  function Others(list: seq<Context>, sid: nat, vid: nat): seq<Context> {
    if list == [] then []
    else (if Keyed(list[0], sid, vid) then [] else [list[0]]) + Others(list[1..], sid, vid)
  }

  /** One by one, in order. */
  lemma {:induction false} OthersAppend(a: seq<Context>, b: seq<Context>, sid: nat, vid: nat)
    ensures Others(a + b, sid, vid) == Others(a, sid, vid) + Others(b, sid, vid)
    ensures forall c: Context ::
      Others([c], sid, vid) == if c.sessionId == sid && c.vmId == vid then [] else [c]
    decreases |a|
  {
    if a == [] {
      assert a + b == b;
    } else {
      assert (a + b)[1..] == a[1..] + b;
      OthersAppend(a[1..], b, sid, vid);
    }
  }

  /** Unlinking the context of a key from a unique list leaves the key free and the others alone. */
  lemma {:induction false} WithoutIsLocal(list: seq<Context>, c: Context)
    requires Unique(list) && c in list
    ensures Unique(Without(list, c)) && forall d | d in Without(list, c) :: d in list
    ensures Find(Without(list, c), c.sessionId, c.vmId) == null
    ensures Others(Without(list, c), c.sessionId, c.vmId) == Others(list, c.sessionId, c.vmId)
    decreases |list|
  {
    assert list == [list[0]] + list[1..];
    if list[0] == c {
      assert Find(list[1..], c.sessionId, c.vmId) == null;
    } else {
      WithoutIsLocal(list[1..], c);
      assert Without(list, c)[1..] == Without(list[1..], c);
      assert !Keyed(c, list[0].sessionId, list[0].vmId);
    }
  }

  /** Handle issued from counter value `next`, and the counter afterwards (64-bit). */
  function IssuedHandle(next: nat): nat {
    Wrap64(next + 1)
  }

  function CounterAfter(next: nat, t: ResourceType, size: nat): nat {
    if t == MEM && size > 0 then Wrap64(Wrap64(next + 1) + size) else Wrap64(next + 1)
  }

  lemma NextType(released: seq<Release>, freed: seq<Node>, table: Table, n: nat)
    requires n < |TYPES|
    ensures (released + ReleasesUpTo(table, n)) + ReleasesOf(TYPES[n], ListIn(table, TYPES[n]))
      == released + ReleasesUpTo(table, n + 1)
    ensures (freed + NodesUpTo(table, n)) + NodesOf(TYPES[n], ListIn(table, TYPES[n]))
      == freed + NodesUpTo(table, n + 1)
  {
  }

  lemma NothingReleased(released: seq<Release>, freed: seq<Node>)
    ensures ReleasedExactly(released, released, map[]) && FreedExactly(freed, freed, map[])
  {
  }

  class Registry {
    var ctxList: seq<Context>
    var nextHandle: nat
    var released: seq<Release>
    var nodesFreed: seq<Node>

    constructor ()
      ensures ctxList == [] && nextHandle == FIRST_HANDLE && released == [] && nodesFreed == []
    {
      ctxList, nextHandle, released, nodesFreed := [], FIRST_HANDLE, [], [];
    }

    /** hmcuda_ctx_get */
    method CtxGet(sid: nat, vid: nat) returns (c: Context?)
      ensures c == Find(ctxList, sid, vid)
    {
      var cur := ctxList;
      while cur != []
        invariant Find(cur, sid, vid) == Find(ctxList, sid, vid)
        decreases |cur|
      {
        if cur[0].sessionId == sid && cur[0].vmId == vid {
          return cur[0];
        }
        cur := cur[1..];
      }
      c := null;
    }

    /** hmcuda_ctx_create */
    method CtxCreate(sid: nat, vid: nat) returns (c: Context)
      modifies this`ctxList
      ensures fresh(c) && Keyed(c, sid, vid) && forall t :: c.List(t) == []
      ensures ctxList == [c] + old(ctxList)
    {
      c := new Context(sid, vid);
      ctxList := [c] + ctxList;
    }

    /** free_resource_list: destructor by type for every entry with an object, then free the node. */
    method FreeResourceList(list: seq<Resource>, t: ResourceType)
      modifies this`released, this`nodesFreed
      ensures released == old(released) + ReleasesOf(t, list)
      ensures nodesFreed == old(nodesFreed) + NodesOf(t, list)
    {
      var cur := list;
      while cur != []
        invariant released + ReleasesOf(t, cur) == old(released) + ReleasesOf(t, list)
        invariant nodesFreed + NodesOf(t, cur) == old(nodesFreed) + NodesOf(t, list)
        decreases |cur|
      {
        FreeNode(cur[0], t, ReleasesOf(t, cur[1..]), NodesOf(t, cur[1..]));
        cur := cur[1..];
      }
    }

    /** One node of the list; `releases` and `nodes` are still to come. */
    method FreeNode(r: Resource, t: ResourceType, ghost releases: seq<Release>, ghost nodes: seq<Node>)
      modifies this`released, this`nodesFreed
      ensures released + releases == old(released) + (ReleaseOf(t, r) + releases)
      ensures nodesFreed + nodes == old(nodesFreed) + ([Node(t, r)] + nodes)
    {
      ghost var released0 := released;
      if r.realPtr != 0 {
        if t == MEM {
          released := released + [CudaFree(r.realPtr)];
        } else if t == STREAM {
          released := released + [CudaStreamDestroy(r.realPtr)];
        } else if t == EVENT {
          released := released + [CudaEventDestroy(r.realPtr)];
        } else if t == HOST_MEM {
          released := released + [CuMemFreeHost(r.realPtr)];
        } else if t == GENERIC_ALLOC {
          released := released + [CuMemRelease(r.realPtr)];
        }
      }
      assert released == released0 + ReleaseOf(t, r);
      nodesFreed := nodesFreed + [Node(t, r)];
    }

    /** The unlinking half of hmcuda_ctx_destroy. */
    method Unlink(ctx: Context)
      modifies this`ctxList
      ensures ctxList == Without(old(ctxList), ctx)
    {
      var list := ctxList;
      var i := 0;
      while i < |list| && list[i] != ctx
        invariant 0 <= i <= |list|
        invariant Without(list, ctx) == list[..i] + Without(list[i..], ctx)
      {
        assert list[i..][1..] == list[i + 1..] && list[..i + 1] == list[..i] + [list[i]];
        i := i + 1;
      }
      if i < |list| {
        assert list[i..][1..] == list[i + 1..];
        ctxList := list[..i] + list[i + 1..];
      } else {
        assert list[..i] == list;
      }
    }

    method FreeTable(table: Table)
      modifies this`released, this`nodesFreed
      ensures released == old(released) + ReleasesUpTo(table, |TYPES|)
      ensures nodesFreed == old(nodesFreed) + NodesUpTo(table, |TYPES|)
    {
      ghost var released0, freed0 := released, nodesFreed;
      for t := 0 to |TYPES|
        invariant released == released0 + ReleasesUpTo(table, t)
        invariant nodesFreed == freed0 + NodesUpTo(table, t)
      {
        NextType(released0, freed0, table, t);
        FreeResourceList(ListIn(table, TYPES[t]), TYPES[t]);
      }
    }

    /** hmcuda_ctx_destroy: unlink the context, then free its lists in type order. */
    method CtxDestroy(ctx: Context)
      modifies this`ctxList, this`released, this`nodesFreed
      ensures ctxList == Without(old(ctxList), ctx)
      ensures released == old(released) + ReleasesUpTo(ctx.resources, |TYPES|)
      ensures nodesFreed == old(nodesFreed) + NodesUpTo(ctx.resources, |TYPES|)
      ensures ReleasedExactly(old(released), released, ctx.resources)
      ensures FreedExactly(old(nodesFreed), nodesFreed, ctx.resources)
    {
      Unlink(ctx);
      WholeTableOnce(released, nodesFreed, ctx.resources);
      FreeTable(ctx.resources);
    }

    /** Create the context of a key that has none. */
    method CreateAnew(sid: nat, vid: nat) returns (c: Context)
      requires Unique(ctxList) && Find(ctxList, sid, vid) == null
      modifies this`ctxList
      ensures fresh(c) && forall t :: c.List(t) == []
      ensures Unique(ctxList) && Find(ctxList, sid, vid) == c
        && Others(ctxList, sid, vid) == Others(old(ctxList), sid, vid)
    {
      ghost var rest := ctxList;
      c := CtxCreate(sid, vid);
      assert ctxList[1..] == rest;
    }

    /** Destroy the live context of a key and put an empty one in its place. */
    method Recreate(ctx: Context) returns (c: Context)
      requires Unique(ctxList) && ctx in ctxList
      modifies this`ctxList, this`released, this`nodesFreed
      ensures fresh(c) && forall t :: c.List(t) == []
      ensures Unique(ctxList) && Find(ctxList, ctx.sessionId, ctx.vmId) == c
      ensures Others(ctxList, ctx.sessionId, ctx.vmId) == Others(old(ctxList), ctx.sessionId, ctx.vmId)
      ensures released == old(released) + ReleasesUpTo(ctx.resources, |TYPES|)
      ensures nodesFreed == old(nodesFreed) + NodesUpTo(ctx.resources, |TYPES|)
    {
      WithoutIsLocal(ctxList, ctx);
      CtxDestroy(ctx);
      c := CreateAnew(ctx.sessionId, ctx.vmId);
    }

    /** Recreate, with everything the old context held accounted for. */
    method Replace(ctx: Context) returns (c: Context)
      requires Unique(ctxList) && ctx in ctxList
      modifies this`ctxList, this`released, this`nodesFreed
      ensures fresh(c) && forall t :: c.List(t) == []
      ensures Unique(ctxList) && Find(ctxList, ctx.sessionId, ctx.vmId) == c
      ensures Others(ctxList, ctx.sessionId, ctx.vmId) == Others(old(ctxList), ctx.sessionId, ctx.vmId)
      ensures ReleasedExactly(old(released), released, ctx.resources)
      ensures FreedExactly(old(nodesFreed), nodesFreed, ctx.resources)
    {
      WholeTableOnce(released, nodesFreed, ctx.resources);
      c := Recreate(ctx);
    }

    /** The table that a reset of the key gives back: that of its context, if it has one. */
    ghost function TableOf(sid: nat, vid: nat): Table
      reads this`ctxList, ctxList
    {
      var c := Find(ctxList, sid, vid);
      if c == null then map[] else c.resources
    }

    /** hmcuda_core_init up to context creation: a second init replaces the context and
        releases everything the first one held, once. */
    method Init(sid: nat, vid: nat) returns (c: Context)
      requires Unique(ctxList)
      modifies this`ctxList, this`released, this`nodesFreed
      ensures Unique(ctxList) && Find(ctxList, sid, vid) == c && fresh(c) && forall t :: c.List(t) == []
      ensures Others(ctxList, sid, vid) == Others(old(ctxList), sid, vid)
      ensures ReleasedExactly(old(released), released, old(TableOf(sid, vid)))
      ensures FreedExactly(old(nodesFreed), nodesFreed, old(TableOf(sid, vid)))
    {
      var ctx := CtxGet(sid, vid);
      if ctx != null {
        c := Replace(ctx);
      } else {
        NothingReleased(released, nodesFreed);
        c := CreateAnew(sid, vid);
      }
    }

    /** hmcuda_core_cu_device_primary_ctx_retain: the CUDA results of the first and the
        second attempt are `first` and `retry`; a failed first attempt resets the table. */
    method PrimaryCtxRetain(sid: nat, vid: nat, device: nat, first: nat, retry: nat, pctx: nat)
      returns (err: nat, handle: nat, ghost ctx': Context?)
      requires Unique(ctxList)
      modifies this, ctxList
      ensures Unique(ctxList) && Others(ctxList, sid, vid) == Others(old(ctxList), sid, vid)
      ensures ctx' == Find(ctxList, sid, vid) && (ctx' == null <==> Find(old(ctxList), sid, vid) == null)
      ensures err == if ctx' == null then Api.CUDA_ERROR_NOT_INITIALIZED else if first == 0 then 0 else retry
      ensures ctx' != null && first != 0 ==> fresh(ctx') && forall t | t != CONTEXT :: ctx'.List(t) == []
      ensures ctx' != null && first == 0 ==>
        forall t | t != CONTEXT :: ctx'.List(t) == old(ListIn(TableOf(sid, vid), t))
      ensures ctx' != null && first == 0 ==>
        ctx'.List(CONTEXT) == [Resource(handle, pctx, device)] + old(ListIn(TableOf(sid, vid), CONTEXT))
      ensures ctx' != null && first != 0 ==>
        ctx'.List(CONTEXT) == if retry == 0 then [Resource(handle, pctx, device)] else []
      ensures handle == (if err == 0 then IssuedHandle(old(nextHandle)) else 0)
      ensures nextHandle == if err == 0 then CounterAfter(old(nextHandle), CONTEXT, device) else old(nextHandle)
      ensures first == 0 ==> ctxList == old(ctxList)
      ensures ReleasedExactly(old(released), released, if first != 0 then old(TableOf(sid, vid)) else map[])
      ensures FreedExactly(old(nodesFreed), nodesFreed, if first != 0 then old(TableOf(sid, vid)) else map[])
    {
      handle := 0;
      NothingReleased(released, nodesFreed);
      var ctx := CtxGet(sid, vid);
      ctx' := ctx;
      if ctx == null {
        return Api.CUDA_ERROR_NOT_INITIALIZED, 0, null;
      }
      err := first;
      if err != 0 {
        ctx := Replace(ctx);
        ctx' := ctx;
        err := retry;
        if err != 0 {
          return;
        }
      }
      handle := Add(ctx, CONTEXT, pctx, device);
    }

    /** hmcuda_res_add: device memory reserves a handle range as wide as the allocation. */
    method Add(ctx: Context, t: ResourceType, realPtr: nat, size: nat) returns (h: nat)
      modifies this`nextHandle, ctx
      ensures h == IssuedHandle(old(nextHandle))
      ensures nextHandle == CounterAfter(old(nextHandle), t, size)
      ensures ctx.List(t) == [Resource(h, realPtr, size)] + old(ctx.List(t))
      ensures forall u | u != t :: ctx.List(u) == old(ctx.List(u))
    {
      if t == MEM && size > 0 {
        nextHandle := Wrap64(nextHandle + 1);
        h := nextHandle;
        nextHandle := Wrap64(nextHandle + size);
      } else {
        nextHandle := Wrap64(nextHandle + 1);
        h := nextHandle;
      }
      h := ctx.AddWithHandle(t, realPtr, size, h);
    }

    ghost function StreamsOf(ctx: Context): Streams
      reads this`nextHandle, ctx
    {
      Streams(ctx.List(STREAM), nextHandle)
    }

    /** hmcuda_core_cu_stream_create and hmcuda_core_stream_create, when CUDA answers
        `cudaErr` and `realPtr`. */
    method StreamCreate(ctx: Context, cudaErr: nat, realPtr: nat) returns (err: nat, handle: nat)
      modifies this`nextHandle, ctx
      ensures err == cudaErr && (err == 0 ==> handle == IssuedHandle(old(nextHandle)))
      ensures StreamsOf(ctx) == if err == 0 then StreamStep(old(StreamsOf(ctx)), CreateStream(realPtr))
        else old(StreamsOf(ctx))
      ensures forall u | u != STREAM :: ctx.List(u) == old(ctx.List(u))
    {
      err, handle := cudaErr, 0;
      if err == 0 {
        handle := Add(ctx, STREAM, realPtr, 0);
      }
    }

    /** hmcuda_core_cu_stream_destroy: the entry goes whatever CUDA answers. */
    method StreamDestroy(ctx: Context, handle: nat, cudaErr: nat) returns (err: nat)
      modifies ctx
      ensures StreamsOf(ctx) == if Lookup(old(ctx.List(STREAM)), STREAM, handle) == 0 then old(StreamsOf(ctx))
                                else StreamStep(old(StreamsOf(ctx)), DestroyStream(handle))
      ensures err == if Lookup(old(ctx.List(STREAM)), STREAM, handle) == 0 then Api.CUDA_ERROR_INVALID_HANDLE
        else cudaErr
      ensures forall u | u != STREAM :: ctx.List(u) == old(ctx.List(u))
    {
      var stream := ctx.Get(STREAM, handle);
      if stream == 0 {
        return Api.CUDA_ERROR_INVALID_HANDLE;
      }
      var _ := ctx.Remove(STREAM, handle);
      err := cudaErr;
    }
  }

  /* ---- handles over a whole run ---- */

  /** One hmcuda_res_add call, by whatever context. */
  datatype AddCall = AddCall(kind: ResourceType, size: nat)

  function CounterAt(next: nat, calls: seq<AddCall>, i: nat): nat
    requires i <= |calls|
  {
    if i == 0 then next else CounterAfter(CounterAt(next, calls, i - 1), calls[i - 1].kind, calls[i - 1].size)
  }

  function HandleAt(next: nat, calls: seq<AddCall>, i: nat): nat
    requires i < |calls|
  {
    IssuedHandle(CounterAt(next, calls, i))
  }

  /** Address space a run of calls uses up. */
  function Consumed(calls: seq<AddCall>, i: nat): nat
    requires i <= |calls|
  {
    if i == 0 then 0
    else Consumed(calls, i - 1) + 1 + (if calls[i - 1].kind == MEM then calls[i - 1].size else 0)
  }

  lemma {:induction false} CounterExact(next: nat, calls: seq<AddCall>, i: nat)
    requires i <= |calls| && next + Consumed(calls, i) < U64
    ensures CounterAt(next, calls, i) == next + Consumed(calls, i)
    decreases i
  {
    if i > 0 {
      CounterExact(next, calls, i - 1);
    }
  }

  lemma {:induction false} ConsumedGrows(calls: seq<AddCall>, i: nat, j: nat)
    requires i < j <= |calls|
    ensures Consumed(calls, i) + 1 + (if calls[i].kind == MEM then calls[i].size else 0) <= Consumed(calls, j)
    decreases j
  {
    if i + 1 < j {
      ConsumedGrows(calls, i, j - 1);
    }
  }

  /** While the counter does not wrap, handles of any run strictly increase, whatever
      their types and contexts; device ranges are disjoint from every other handle and
      range; and no handle is a stream sentinel. */
  lemma HandlesNeverClash(calls: seq<AddCall>, i: nat, j: nat)
    requires i < j < |calls| && FIRST_HANDLE + Consumed(calls, j + 1) < U64
    ensures HandleAt(FIRST_HANDLE, calls, i) < HandleAt(FIRST_HANDLE, calls, j)
    ensures calls[i].kind == MEM ==>
      HandleAt(FIRST_HANDLE, calls, i) + calls[i].size < HandleAt(FIRST_HANDLE, calls, j)
    ensures HandleAt(FIRST_HANDLE, calls, i) == 0x1000_0001 + Consumed(calls, i)
  {
    ConsumedGrows(calls, i, j);
    CounterExact(FIRST_HANDLE, calls, i);
    CounterExact(FIRST_HANDLE, calls, j);
  }

  /* ---- streams: sentinels, resolution, and the launch-configuration stack ---- */

  /** resolve_stream / resolve_runtime_stream: 0 is the null stream, 1 and 2 the two special ones. */
  function ResolveStream(list: seq<Resource>, handle: nat): nat {
    if handle == 0 then 0
    else if handle == 1 then 1
    else if handle == 2 then 2
    else Lookup(list, STREAM, handle)
  }

  /** The handle reported when a popped configuration carries real stream `s`. */
  function ReportStream(list: seq<Resource>, s: nat): nat {
    if s == 0 then 0
    else if s == 1 then 1
    else if s == 2 then 2
    else HandleOf(list, s)
  }

  predicate IsLive(list: seq<Resource>, handle: nat) {
    exists r | r in list :: r.handle == handle
  }

  /** Stream entries: counter-issued handles below the counter, distinct, on distinct real streams. */
  ghost predicate StreamsOk(list: seq<Resource>, next: nat) {
    list == [] || (
      && StreamsOk(list[1..], next)
      && 2 < list[0].handle <= next && list[0].realPtr > 2
      && forall q | q in list[1..] :: q.handle != list[0].handle && q.realPtr != list[0].realPtr)
  }

  /** Creating a stream keeps the list in order: its handle is new because the counter is. */
  lemma {:induction false} StreamsOkAdd(list: seq<Resource>, next: nat, realPtr: nat, size: nat)
    requires StreamsOk(list, next) && FIRST_HANDLE <= next && next + 1 < U64
    requires realPtr > 2 && forall q | q in list :: q.realPtr != realPtr
    ensures StreamsOk([Resource(IssuedHandle(next), realPtr, size)] + list, CounterAfter(next, STREAM, size))
  {
    StreamsBelow(list, next, next + 1);
    assert ([Resource(IssuedHandle(next), realPtr, size)] + list)[1..] == list;
  }

  lemma {:induction false} StreamsBelow(list: seq<Resource>, next: nat, next': nat)
    requires StreamsOk(list, next) && next <= next'
    ensures StreamsOk(list, next') && forall q | q in list :: 2 < q.handle <= next && q.realPtr > 2
    decreases |list|
  {
    if list != [] {
      assert list == [list[0]] + list[1..];
      StreamsBelow(list[1..], next, next');
    }
  }

  lemma {:induction false} LookupThenReport(list: seq<Resource>, next: nat, handle: nat)
    requires StreamsOk(list, next)
    ensures IsLive(list, handle) ==> Lookup(list, STREAM, handle) > 2
    ensures IsLive(list, handle) ==> HandleOf(list, Lookup(list, STREAM, handle)) == handle
    ensures IsLive(list, handle) ==> exists r | r in list :: r.realPtr == Lookup(list, STREAM, handle)
    ensures !IsLive(list, handle) ==> Lookup(list, STREAM, handle) == 0
    decreases |list|
  {
    if list != [] {
      assert list == [list[0]] + list[1..];
      LookupThenReport(list[1..], next, handle);
      if list[0].handle != handle {
        assert IsLive(list, handle) <==> IsLive(list[1..], handle);
      } else {
        assert list[0] in list;
      }
    }
  }

  lemma {:induction false} StreamsOkRemoved(list: seq<Resource>, next: nat, handle: nat)
    requires StreamsOk(list, next)
    ensures StreamsOk(Removed(list, handle), next) && forall q | q in Removed(list, handle) :: q in list
    decreases |list|
  {
    if list != [] {
      assert list == [list[0]] + list[1..];
      StreamsOkRemoved(list[1..], next, handle);
      if list[0].handle != handle {
        assert Removed(list, handle)[1..] == Removed(list[1..], handle);
      }
    }
  }

  /** A context's stream list and the shared handle counter. */
  datatype Streams = Streams(list: seq<Resource>, next: nat)

  /** What can happen to them: a stream is created on a real stream, some other handle of any
      type is issued or a stream of another context created, a stream is destroyed, the
      context is reset. */
  datatype StreamOp = CreateStream(realPtr: nat) | IssueOther(call: AddCall) | DestroyStream(handle: nat) | ResetContext

  function StreamStep(s: Streams, op: StreamOp): Streams {
    match op
    case CreateStream(realPtr) =>
      Streams([Resource(IssuedHandle(s.next), realPtr, 0)] + s.list, CounterAfter(s.next, STREAM, 0))
    case IssueOther(call) => s.(next := CounterAfter(s.next, call.kind, call.size))
    case DestroyStream(handle) => s.(list := Removed(s.list, handle))
    case ResetContext => s.(list := [])
  }

  /** CUDA hands out real streams that are no sentinel and not live already, and the counter
      does not wrap. */
  predicate StreamAllowed(s: Streams, op: StreamOp) {
    match op
    case CreateStream(realPtr) => realPtr > 2 && s.next + 1 < U64 && forall q | q in s.list :: q.realPtr != realPtr
    case IssueOther(call) => s.next + 1 + call.size < U64
    case _ => true
  }

  predicate StreamsAllowed(s: Streams, ops: seq<StreamOp>)
    decreases |ops|
  {
    ops == [] || (StreamAllowed(s, ops[0]) && StreamsAllowed(StreamStep(s, ops[0]), ops[1..]))
  }

  function StreamRun(s: Streams, ops: seq<StreamOp>): Streams
    decreases |ops|
  {
    if ops == [] then s else StreamRun(StreamStep(s, ops[0]), ops[1..])
  }

  lemma StreamStepKeepsOk(s: Streams, op: StreamOp)
    requires StreamsOk(s.list, s.next) && FIRST_HANDLE <= s.next && StreamAllowed(s, op)
    ensures StreamsOk(StreamStep(s, op).list, StreamStep(s, op).next) && FIRST_HANDLE <= StreamStep(s, op).next
  {
    match op
    case CreateStream(realPtr) => StreamsOkAdd(s.list, s.next, realPtr, 0);
    case IssueOther(call) => StreamsBelow(s.list, s.next, CounterAfter(s.next, call.kind, call.size));
    case DestroyStream(handle) => StreamsOkRemoved(s.list, s.next, handle);
    case ResetContext =>
  }

  lemma {:induction false} DestroyedIsDead(list: seq<Resource>, next: nat, gone: nat, h: nat)
    requires StreamsOk(list, next)
    ensures IsLive(Removed(list, gone), h) <==> h != gone && IsLive(list, h)
    decreases |list|
  {
    if list != [] {
      assert list == [list[0]] + list[1..];
      DestroyedIsDead(list[1..], next, gone, h);
      if list[0].handle != gone {
        assert Removed(list, gone) == [list[0]] + Removed(list[1..], gone);
      }
    }
  }

  /** The live handles and the last handle issued after a step. */
  lemma StepLives(s: Streams, op: StreamOp, h: nat)
    requires StreamsOk(s.list, s.next) && StreamAllowed(s, op)
    ensures IsLive(StreamStep(s, op).list, h) <==>
      match op
      case CreateStream(_) => h == s.next + 1 || IsLive(s.list, h)
      case IssueOther(_) => IsLive(s.list, h)
      case DestroyStream(gone) => h != gone && IsLive(s.list, h)
      case ResetContext => false
    ensures StreamStep(s, op).next ==
      match op
      case CreateStream(_) => s.next + 1
      case IssueOther(call) => s.next + 1 + (if call.kind == MEM then call.size else 0)
      case _ => s.next
  {
    match op
    case CreateStream(realPtr) =>
      assert StreamStep(s, op).list[0].handle == s.next + 1;
      assert StreamStep(s, op).list[1..] == s.list;
    case DestroyStream(gone) => DestroyedIsDead(s.list, s.next, gone, h);
    case _ =>
  }

  lemma {:induction false} StreamRunKeepsOk(s: Streams, ops: seq<StreamOp>)
    requires StreamsOk(s.list, s.next) && FIRST_HANDLE <= s.next && StreamsAllowed(s, ops)
    ensures StreamsOk(StreamRun(s, ops).list, StreamRun(s, ops).next) && FIRST_HANDLE <= StreamRun(s, ops).next
    decreases |ops|
  {
    if ops != [] {
      StreamStepKeepsOk(s, ops[0]);
      StreamRunKeepsOk(StreamStep(s, ops[0]), ops[1..]);
    }
  }

  /** After every run of stream creations and destructions, among handles issued to whatever
      else, pushing then popping a launch configuration reports the stream that was given,
      exactly for the sentinels and the live streams; a dead handle comes back as 0. */
  lemma PushPopStream(ops: seq<StreamOp>, handle: nat)
    requires StreamsAllowed(Streams([], FIRST_HANDLE), ops)
    ensures
      var list := StreamRun(Streams([], FIRST_HANDLE), ops).list;
      && (handle <= 2 ==> ResolveStream(list, handle) == handle)
      && ReportStream(list, ResolveStream(list, handle)) == if handle <= 2 || IsLive(list, handle) then handle else 0
  {
    StreamRunKeepsOk(Streams([], FIRST_HANDLE), ops);
    var s := StreamRun(Streams([], FIRST_HANDLE), ops);
    LookupThenReport(s.list, s.next, handle);
  }

  /* ---- other threads between push and pop ---- */

  /** The runs of streams from the start of a session. */
  function After(ops: seq<StreamOp>): Streams {
    StreamRun(Streams([], FIRST_HANDLE), ops)
  }

  /** An entry is found by its handle and by its stream. */
  lemma {:induction false} StreamEntry(list: seq<Resource>, next: nat, r: Resource)
    requires StreamsOk(list, next) && r in list
    ensures Lookup(list, STREAM, r.handle) == r.realPtr > 2 && HandleOf(list, r.realPtr) == r.handle
    ensures 2 < r.handle <= next
    decreases |list|
  {
    assert list == [list[0]] + list[1..];
    if r != list[0] {
      StreamEntry(list[1..], next, r);
    }
  }

  lemma {:induction false} HandleOfMember(list: seq<Resource>, p: nat)
    requires p > 0
    ensures HandleOf(list, p) == 0 || exists q | q in list :: q.realPtr == p && q.handle == HandleOf(list, p)
    decreases |list|
  {
    if list != [] && list[0].realPtr != p {
      HandleOfMember(list[1..], p);
      if q :| q in list[1..] && q.realPtr == p && q.handle == HandleOf(list[1..], p) {
        assert q in list;
      }
    }
  }

  lemma StepAddsAbove(s: Streams, op: StreamOp, r: Resource)
    requires StreamAllowed(s, op) && r in StreamStep(s, op).list && r.handle <= s.next
    ensures r in s.list && s.next <= StreamStep(s, op).next
  {
    match op
    case CreateStream(realPtr) =>
    case IssueOther(call) =>
    case DestroyStream(handle) => RemovedMembers(s.list, handle);
    case ResetContext =>
  }

  /** A run adds no entry with a handle already issued. */
  lemma {:induction false} RunAddsAbove(s: Streams, ops: seq<StreamOp>, r: Resource)
    requires StreamsOk(s.list, s.next) && FIRST_HANDLE <= s.next && StreamsAllowed(s, ops)
    requires r in StreamRun(s, ops).list && r.handle <= s.next
    ensures r in s.list
    decreases |ops|
  {
    if ops != [] {
      StreamStepKeepsOk(s, ops[0]);
      CounterGrows(s, ops[0]);
      RunAddsAbove(StreamStep(s, ops[0]), ops[1..], r);
      StepAddsAbove(s, ops[0], r);
    }
  }

  lemma CounterGrows(s: Streams, op: StreamOp)
    requires StreamAllowed(s, op)
    ensures s.next <= StreamStep(s, op).next
  {
  }

  /** A configuration pushed in one state and popped in a later one, whatever streams were
      created and destroyed in between: a sentinel and a stream that lives on report their
      handle, a handle that was dead at the push reports 0, and that of a stream destroyed
      since reports 0 or, if CUDA gave the real stream out again, its new handle. */
  lemma PopAfterOthers(before: seq<StreamOp>, between: seq<StreamOp>, handle: nat)
    requires StreamsAllowed(Streams([], FIRST_HANDLE), before) && StreamsAllowed(After(before), between)
    ensures
      var s, r := After(before), StreamRun(After(before), between);
      var pushed := ResolveStream(s.list, handle);
      var popped := ReportStream(r.list, pushed);
      if handle <= 2 then popped == handle
      else if !IsLive(s.list, handle) then popped == 0
      else if IsLive(r.list, handle) then popped == handle
      else popped == 0 || (popped > s.next && exists q | q in r.list :: q.handle == popped && q.realPtr == pushed)
  {
    StreamRunKeepsOk(Streams([], FIRST_HANDLE), before);
    var s, r := After(before), StreamRun(After(before), between);
    StreamRunKeepsOk(s, between);
    LookupThenReport(s.list, s.next, handle);
    if handle > 2 && IsLive(s.list, handle) {
      var e :| e in s.list && e.handle == handle;
      StreamEntry(s.list, s.next, e);
      if IsLive(r.list, handle) {
        var q :| q in r.list && q.handle == handle;
        RunAddsAbove(s, between, q);
        StreamEntry(s.list, s.next, q);
        StreamEntry(r.list, r.next, q);
      } else {
        HandleOfMember(r.list, e.realPtr);
        if HandleOf(r.list, e.realPtr) != 0 {
          var q :| q in r.list && q.realPtr == e.realPtr && q.handle == HandleOf(r.list, e.realPtr);
          if q.handle <= s.next {
            RunAddsAbove(s, between, q);
            StreamEntry(s.list, s.next, q);
          }
        }
      }
    }
  }
}
