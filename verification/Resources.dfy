/** The host's resource table (host/vhost/resource.c): one list of resources per
    context and type, searched by handle.  A linked list is a sequence, head first. */
module Resources {
  import opened Memory

  datatype ResourceType =
    | MEM | STREAM | EVENT | MODULE | FUNCTION | CONTEXT | HOST_MEM | HOST_DEV_PTR | GENERIC_ALLOC

  datatype Resource = Resource(handle: nat, realPtr: nat, size: nat)

  /** The range test of the C code, whose upper bound wraps at 64 bits. */
  predicate InRange(r: Resource, h: nat) {
    h >= r.handle && h < Wrap64(r.handle + r.size)
  }

  predicate Ranged(t: ResourceType) {
    t == MEM || t == HOST_MEM
  }

  predicate Matches(t: ResourceType, r: Resource, h: nat) {
    if Ranged(t) then InRange(r, h) else r.handle == h
  }

  function Resolved(t: ResourceType, r: Resource, h: nat): nat {
    if Ranged(t) && h >= r.handle then Wrap64(r.realPtr + (h - r.handle)) else r.realPtr
  }

  /** What a lookup returns; 0 is NULL. */
  function Lookup(list: seq<Resource>, t: ResourceType, h: nat): nat {
    if list == [] then 0
    else if Matches(t, list[0], h) then Resolved(t, list[0], h)
    else Lookup(list[1..], t, h)
  }

  /** Removal drops the first entry whose handle is exactly `h`. */
  function Removed(list: seq<Resource>, h: nat): seq<Resource> {
    if list == [] then []
    else if list[0].handle == h then list[1..]
    else [list[0]] + Removed(list[1..], h)
  }

  /** Reverse lookup by real pointer. */
  function HandleOf(list: seq<Resource>, p: nat): nat {
    if p == 0 || list == [] then 0
    else if list[0].realPtr == p then list[0].handle
    else HandleOf(list[1..], p)
  }

  /** The other types: the newest entry with exactly this handle, wherever its object is. */
  lemma {:induction false} ExactLookup(list: seq<Resource>, t: ResourceType, i: nat)
    requires t != MEM && t != HOST_MEM
    requires i < |list| && forall j | 0 <= j < i :: list[j].handle != list[i].handle
    ensures Lookup(list, t, list[i].handle) == list[i].realPtr
    decreases |list|
  {
    if i > 0 {
      ExactLookup(list[1..], t, i - 1);
    }
  }

  lemma {:induction false} UnknownLookup(list: seq<Resource>, t: ResourceType, h: nat)
    requires t != MEM && t != HOST_MEM && forall r | r in list :: r.handle != h
    ensures Lookup(list, t, h) == 0
    decreases |list|
  {
    if list != [] {
      UnknownLookup(list[1..], t, h);
    }
  }

  /** The newest entry with this object; NULL has none. */
  lemma {:induction false} HandleOfNewest(list: seq<Resource>, i: nat)
    requires i < |list| && forall j | 0 <= j < i :: list[j].realPtr != list[i].realPtr
    ensures HandleOf(list, list[i].realPtr) == if list[i].realPtr == 0 then 0 else list[i].handle
    decreases |list|
  {
    if i > 0 {
      HandleOfNewest(list[1..], i - 1);
    }
  }

  lemma {:induction false} HandleOfUnknown(list: seq<Resource>, p: nat)
    requires forall r | r in list :: r.realPtr != p
    ensures HandleOf(list, p) == 0
    decreases |list|
  {
    if list != [] {
      HandleOfUnknown(list[1..], p);
    }
  }

  /** Exactly the newest entry with this handle goes. */
  lemma {:induction false} RemovedNewest(list: seq<Resource>, i: nat)
    requires i < |list| && forall j | 0 <= j < i :: list[j].handle != list[i].handle
    ensures Removed(list, list[i].handle) == list[..i] + list[i + 1..]
    decreases |list|
  {
    if i > 0 {
      RemovedNewest(list[1..], i - 1);
      assert list[1..][..i - 1] == list[1..i] && list[1..][i..] == list[i + 1..];
      assert list[..i] == [list[0]] + list[1..i];
    }
  }

  lemma {:induction false} RemovedUnknown(list: seq<Resource>, h: nat)
    requires forall r | r in list :: r.handle != h
    ensures Removed(list, h) == list
    decreases |list|
  {
    if list != [] {
      RemovedUnknown(list[1..], h);
    }
  }

  lemma RemovedStep(list: seq<Resource>, h: nat, i: nat)
    requires i < |list| && list[i].handle != h
    ensures list[..i] + Removed(list[i..], h) == list[..i + 1] + Removed(list[i + 1..], h)
  {
    assert list[i..][1..] == list[i + 1..];
    assert list[..i + 1] + Removed(list[i + 1..], h) == list[..i] + ([list[i]] + Removed(list[i + 1..], h));
  }

  /* ---- contexts ---- */

  function ListIn(table: map<ResourceType, seq<Resource>>, t: ResourceType): seq<Resource> {
    if t in table then table[t] else []
  }

  class Context {
    const sessionId: nat
    const vmId: nat
    var resources: map<ResourceType, seq<Resource>>

    constructor (sessionId: nat, vmId: nat)
      ensures this.sessionId == sessionId && this.vmId == vmId
      ensures forall t :: List(t) == []
    {
      this.sessionId := sessionId;
      this.vmId := vmId;
      this.resources := map[];
    }

    function List(t: ResourceType): seq<Resource>
      reads this
    {
      ListIn(resources, t)
    }

    /** hmcuda_res_add_with_handle */
    method AddWithHandle(t: ResourceType, realPtr: nat, size: nat, handle: nat) returns (h: nat)
      modifies this
      ensures h == handle
      ensures List(t) == [Resource(handle, realPtr, size)] + old(List(t))
      ensures forall u | u != t :: List(u) == old(List(u))
    {
      resources := resources[t := [Resource(handle, realPtr, size)] + List(t)];
      h := handle;
    }

    /** hmcuda_res_get */
    method Get(t: ResourceType, handle: nat) returns (p: nat)
      ensures p == Lookup(List(t), t, handle)
    {
      var cur := List(t);
      while cur != []
        invariant Lookup(cur, t, handle) == Lookup(List(t), t, handle)
        decreases |cur|
      {
        if t == MEM || t == HOST_MEM {
          if handle >= cur[0].handle && handle < Wrap64(cur[0].handle + cur[0].size) {
            var offset := handle - cur[0].handle;
            return Wrap64(cur[0].realPtr + offset);
          }
        } else {
          if cur[0].handle == handle {
            return cur[0].realPtr;
          }
        }
        cur := cur[1..];
      }
      p := 0;
    }

    /** hmcuda_res_remove: splice the first entry with this handle out of its list. */
    method Remove(t: ResourceType, handle: nat) returns (found: bool)
      modifies this
      ensures List(t) == Removed(old(List(t)), handle)
      ensures found <==> exists r | r in old(List(t)) :: r.handle == handle
      ensures forall u | u != t :: List(u) == old(List(u))
    {
      var list := List(t);
      var i := 0;
      found := false;
      while i < |list| && !found
        invariant 0 <= i <= |list| && resources == old(resources)
        invariant Removed(list, handle) == list[..i] + Removed(list[i..], handle)
        invariant forall k | 0 <= k < i :: list[k].handle != handle
        invariant found ==> i < |list| && list[i].handle == handle
        decreases |list| - i, !found
      {
        if list[i].handle == handle {
          found := true;
        } else {
          RemovedStep(list, handle, i);
          i := i + 1;
        }
      }
      if found {
        assert list[i] in list && list[i..][0] == list[i] && list[i..][1..] == list[i + 1..];
        resources := resources[t := list[..i] + list[i + 1..]];
      } else {
        assert list[..i] == list && list[i..] == [];
      }
    }

    /** hmcuda_res_get_handle */
    method GetHandle(t: ResourceType, realPtr: nat) returns (h: nat)
      ensures h == HandleOf(List(t), realPtr)
    {
      if realPtr == 0 {
        return 0;
      }
      var cur := List(t);
      while cur != []
        invariant HandleOf(cur, realPtr) == HandleOf(List(t), realPtr)
        decreases |cur|
      {
        if cur[0].realPtr == realPtr {
          return cur[0].handle;
        }
        cur := cur[1..];
      }
      h := 0;
    }
  }

  /* ---- the ranged lists are an interval map ---- */

  /** A live range: at a real address unless it is empty, and ending below the top of both
      address spaces. */
  predicate Sound(r: Resource) {
    (r.size > 0 ==> 0 < r.realPtr) && r.realPtr + r.size < U64 && r.handle + r.size < U64
  }

  predicate Inside(r: Resource, h: nat) {
    r.handle <= h < r.handle + r.size
  }

  predicate Apart(r: Resource, q: Resource) {
    r.handle + r.size <= q.handle || q.handle + q.size <= r.handle
  }

  ghost predicate Disjoint(list: seq<Resource>) {
    list == [] || (Disjoint(list[1..]) && forall q | q in list[1..] :: Apart(list[0], q))
  }

  ghost predicate AllSound(list: seq<Resource>) {
    forall r | r in list :: Sound(r)
  }

  /** The wrapping test is the interval test exactly when the range ends below 2^64 (or is empty). */
  lemma RangeTestExact(r: Resource)
    requires r.handle < U64 && r.size < U64
    ensures (forall h: nat | h < U64 :: InRange(r, h) <==> Inside(r, h)) <==> r.size == 0 || r.handle + r.size < U64
  {
    if r.size > 0 && r.handle + r.size >= U64 {
      assert Wrap64(r.handle + r.size) == r.handle + r.size - U64;
      assert Inside(r, r.handle) && !InRange(r, r.handle);
    } else if r.size > 0 {
      assert Wrap64(r.handle + r.size) == r.handle + r.size;
    } else {
      assert Wrap64(r.handle + r.size) == r.handle;
    }
  }

  /** Lookup of a live handle plus an offset gives the real pointer plus that offset;
      any other address resolves to nothing. */
  lemma {:induction false} LookupIsIntervalMap(list: seq<Resource>, t: ResourceType, h: nat)
    requires Ranged(t) && AllSound(list) && Disjoint(list)
    ensures forall r | r in list && Inside(r, h) :: Lookup(list, t, h) == r.realPtr + (h - r.handle)
    ensures (Lookup(list, t, h) == 0) <==> (forall r | r in list :: !Inside(r, h))
    decreases |list|
  {
    if list != [] {
      var r0 := list[0];
      assert Sound(r0) && Wrap64(r0.handle + r0.size) == r0.handle + r0.size;
      assert Matches(t, r0, h) <==> Inside(r0, h);
      assert list == [r0] + list[1..];
      LookupIsIntervalMap(list[1..], t, h);
    }
  }

  /** Entry `r` comes before every other entry that overlaps it: the entries newer than `r`,
      stale ones included, are apart from it. */
  predicate Rules(list: seq<Resource>, r: Resource) {
    list != [] && (list[0] == r || (Apart(list[0], r) && Rules(list[1..], r)))
  }

  lemma {:induction false} RulerListed(list: seq<Resource>, r: Resource)
    requires Rules(list, r)
    ensures r in list
    decreases |list|
  {
    assert list == [list[0]] + list[1..];
    if list[0] != r {
      RulerListed(list[1..], r);
    }
  }

  /** Such an entry resolves, whatever older entries its range overlaps. */
  lemma {:induction false} RulerResolves(list: seq<Resource>, t: ResourceType, r: Resource, h: nat)
    requires Ranged(t) && AllSound(list) && Rules(list, r) && Inside(r, h)
    ensures Lookup(list, t, h) == r.realPtr + (h - r.handle)
    decreases |list|
  {
    var r0 := list[0];
    assert list == [r0] + list[1..];
    assert Sound(r0) && Wrap64(r0.handle + r0.size) == r0.handle + r0.size;
    if r0 != r {
      RulerResolves(list[1..], t, r, h);
    }
  }

  /** Where no entry reaches, nothing resolves. */
  lemma {:induction false} NoneResolves(list: seq<Resource>, t: ResourceType, h: nat)
    requires Ranged(t) && AllSound(list) && forall r | r in list :: !Inside(r, h)
    ensures Lookup(list, t, h) == 0
    decreases |list|
  {
    if list != [] {
      var r0 := list[0];
      assert list == [r0] + list[1..];
      assert Sound(r0) && !Inside(r0, h) && Wrap64(r0.handle + r0.size) == r0.handle + r0.size;
      NoneResolves(list[1..], t, h);
    }
  }

  /** In a list of disjoint ranges every entry rules. */
  lemma {:induction false} DisjointRules(list: seq<Resource>, r: Resource)
    requires Disjoint(list) && r in list
    ensures Rules(list, r)
    decreases |list|
  {
    assert list == [list[0]] + list[1..];
    if list[0] != r {
      DisjointRules(list[1..], r);
    }
  }

  lemma RulesAdded(list: seq<Resource>, r: Resource, added: Resource)
    requires (Rules(list, r) && Apart(added, r)) || added == r
    ensures Rules([added] + list, r)
  {
    assert ([added] + list)[1..] == list;
  }

  lemma {:induction false} RulesRemoved(list: seq<Resource>, r: Resource, gone: nat)
    requires Rules(list, r) && r.handle != gone
    ensures Rules(Removed(list, gone), r)
    decreases |list|
  {
    if list[0] != r && list[0].handle != gone {
      RulesRemoved(list[1..], r, gone);
      assert Removed(list, gone)[1..] == Removed(list[1..], gone);
    } else if list[0] == r {
      assert Removed(list, gone)[0] == r;
    }
  }

  /** A range of this base and size resolves, whatever else is in the table. */
  ghost predicate HasEntry(table: seq<Resource>, va: nat, size: nat) {
    exists p: nat :: Rules(table, Resource(va, p, size))
  }

  lemma AddKeepsEntry(table: seq<Resource>, added: Resource, va: nat, size: nat)
    requires HasEntry(table, va, size) && Apart(added, Resource(va, 0, size))
    ensures HasEntry([added] + table, va, size)
  {
    var p: nat :| Rules(table, Resource(va, p, size));
    RulesAdded(table, Resource(va, p, size), added);
  }

  lemma RemoveKeepsEntry(table: seq<Resource>, gone: nat, va: nat, size: nat)
    requires HasEntry(table, va, size) && va != gone
    ensures HasEntry(Removed(table, gone), va, size)
  {
    var p: nat :| Rules(table, Resource(va, p, size));
    RulesRemoved(table, Resource(va, p, size), gone);
  }

  /** Insertion order is irrelevant: equal multisets of entries resolve alike. */
  lemma OrderIrrelevant(l1: seq<Resource>, l2: seq<Resource>, t: ResourceType, h: nat)
    requires Ranged(t) && AllSound(l1) && Disjoint(l1) && Disjoint(l2)
    requires multiset(l1) == multiset(l2)
    ensures Lookup(l1, t, h) == Lookup(l2, t, h)
  {
    assert forall r :: r in l1 <==> r in multiset(l1);
    assert forall r :: r in l2 <==> r in multiset(l2);
    LookupIsIntervalMap(l1, t, h);
    LookupIsIntervalMap(l2, t, h);
    if r :| r in l1 && Inside(r, h) {
      assert r in l2;
    }
  }

  lemma {:induction false} RemovedMembers(list: seq<Resource>, handle: nat)
    ensures forall r | r in Removed(list, handle) :: r in list
    ensures forall r | r in list && r.handle != handle :: r in Removed(list, handle)
    ensures Disjoint(list) ==> Disjoint(Removed(list, handle))
    decreases |list|
  {
    if list != [] {
      assert list == [list[0]] + list[1..];
      RemovedMembers(list[1..], handle);
      if list[0].handle != handle {
        assert Removed(list, handle)[1..] == Removed(list[1..], handle);
      }
    }
  }

  /** Removing a live, non-empty range takes away exactly that range. */
  lemma RemovalIsLocal(list: seq<Resource>, t: ResourceType, gone: Resource, h: nat)
    requires Ranged(t) && AllSound(list) && Disjoint(list)
    requires gone in list && forall r | r in list && r.handle == gone.handle :: r == gone
    ensures Lookup(Removed(list, gone.handle), t, h) ==
            if Inside(gone, h) then 0 else Lookup(list, t, h)
  {
    var rest := Removed(list, gone.handle);
    RemovedMembers(list, gone.handle);
    LookupIsIntervalMap(list, t, h);
    LookupIsIntervalMap(rest, t, h);
    if Inside(gone, h) {
      RemovedOnce(list, gone);
      forall r | r in rest ensures !Inside(r, h) {
        if Inside(r, h) {
          OneOwner(list, gone, r, h);
        }
      }
    } else if r :| r in list && Inside(r, h) {
      assert r in rest;
    }
  }

  /** Two live ranges that share an address are the same entry. */
  lemma {:induction false} OneOwner(list: seq<Resource>, r: Resource, q: Resource, h: nat)
    requires Disjoint(list) && r in list && q in list && Inside(r, h) && Inside(q, h)
    ensures r == q
    decreases |list|
  {
    assert list == [list[0]] + list[1..];
    if r != list[0] && q != list[0] {
      OneOwner(list[1..], r, q, h);
    }
  }

  lemma {:induction false} RemovedOnce(list: seq<Resource>, gone: Resource)
    requires gone in list && gone.size > 0 && Disjoint(list)
    requires forall r | r in list && r.handle == gone.handle :: r == gone
    ensures gone !in Removed(list, gone.handle)
    decreases |list|
  {
    assert list == [list[0]] + list[1..];
    if list[0].handle == gone.handle {
      assert list[0] == gone;
    } else {
      RemovedOnce(list[1..], gone);
    }
  }
}
