/** Translation of guest pointers embedded in host-memory transfers
    (hmcuda_patch_embedded_host_ptrs and its read-only scan, host/vhost/resource.c:176-210). */
module Patching {
  import opened Memory
  import opened Resources

  /** The first entry whose range contains `v` decides. */
  function PatchWord(list: seq<Resource>, v: nat): nat {
    if list == [] then v
    else if InRange(list[0], v) then Wrap64(list[0].realPtr + (v - list[0].handle))
    else PatchWord(list[1..], v)
  }

  predicate Hit(list: seq<Resource>, v: nat) {
    exists r | r in list :: InRange(r, v)
  }

  /** Every whole 8-byte word of the buffer is translated; a shorter tail is left alone. */
  function Patch(list: seq<Resource>, data: seq<byte>): (r: seq<byte>)
    ensures |r| == |data|
  {
    if |data| < 8 then data
    else Encode(PatchWord(list, Decode(data[..8])), 8) + Patch(list, data[8..])
  }

  function NeedsPatch(list: seq<Resource>, data: seq<byte>): bool {
    |data| >= 8 && (Hit(list, Decode(data[..8])) || NeedsPatch(list, data[8..]))
  }

  /* ---- the loops of the source ---- */

  /** Inner scan over the list: the patched value if some range holds `v`. */
  method FindRange(list: seq<Resource>, v: nat) returns (hit: bool, patched: nat)
    ensures hit <==> Hit(list, v)
    ensures patched == PatchWord(list, v)
  {
    var r := list;
    while r != []
      invariant forall q | q in list && q !in r :: !InRange(q, v)
      invariant forall q | q in r :: q in list
      invariant PatchWord(r, v) == PatchWord(list, v)
      decreases |r|
    {
      if v >= r[0].handle && v < Wrap64(r[0].handle + r[0].size) {
        assert r[0] in list;
        return true, Wrap64(r[0].realPtr + (v - r[0].handle));
      }
      assert r == [r[0]] + r[1..];
      r := r[1..];
    }
    return false, v;
  }

  /** hmcuda_buffer_needs_host_ptr_patch */
  method BufferNeedsPatch(list: seq<Resource>, data: array<byte>) returns (needs: bool)
    ensures needs <==> NeedsPatch(list, data[..])
  {
    if list == [] {
      NoRangesNoPatch(list, data[..]);
      return false;
    }
    var off := 0;
    while off + 8 <= data.Length
      invariant 0 <= off <= data.Length
      invariant NeedsPatch(list, data[off..]) == NeedsPatch(list, data[..])
      decreases data.Length - off
    {
      ghost var rest := data[off..];
      assert data[off..off + 8] == rest[..8] && data[off + 8..] == rest[8..];
      var hit, _ := FindRange(list, Decode(data[off..off + 8]));
      if hit {
        return true;
      }
      off := off + 8;
    }
    needs := false;
  }

  method StoreWord(data: array<byte>, off: nat, v: nat)
    requires off + 8 <= data.Length
    modifies data
    ensures data[..] == old(data[..off]) + Encode(v, 8) + old(data[off + 8..])
  {
    var w := Encode(v, 8);
    for i := 0 to 8
      invariant data[..] == old(data[..off]) + w[..i] + old(data[off + i..])
    {
      data[off + i] := w[i];
    }
  }

  /** Translate the word at `off` in place; a word no range holds is not written. */
  method PatchOneWord(list: seq<Resource>, data: array<byte>, off: nat)
    requires off + 8 <= data.Length
    modifies data
    ensures data[..]
      == old(data[..off]) + Encode(PatchWord(list, Decode(old(data[off..off + 8]))), 8) + old(data[off + 8..])
  {
    var v := Decode(data[off..off + 8]);
    var hit, patched := FindRange(list, v);
    if hit {
      StoreWord(data, off, patched);
    } else {
      MissKeepsWord(list, v);
      EncodeDecode(data[off..off + 8]);
    }
  }

  lemma PatchStep(list: seq<Resource>, done: seq<byte>, rest: seq<byte>)
    requires |rest| >= 8
    ensures
      var w := Encode(PatchWord(list, Decode(rest[..8])), 8);
      done + Patch(list, rest) == (done + w) + Patch(list, rest[8..])
  {
  }

  /** hmcuda_patch_embedded_host_ptrs: words are rewritten in place, left to right. */
  method PatchEmbedded(list: seq<Resource>, data: array<byte>)
    modifies data
    ensures data[..] == Patch(list, old(data[..]))
  {
    ghost var done: seq<byte>, rest := [], data[..];
    if list == [] {
      NoRangesNoPatch(list, rest);
      PatchSkippable(list, rest);
      return;
    }
    var off := 0;
    while off + 8 <= data.Length
      invariant 0 <= off == |done|
      invariant data[..] == done + rest
      invariant done + Patch(list, rest) == Patch(list, old(data[..]))
      decreases data.Length - off
    {
      assert data[..off] == done && data[off..off + 8] == rest[..8] && data[off + 8..] == rest[8..];
      PatchStep(list, done, rest);
      PatchOneWord(list, data, off);
      done := done + Encode(PatchWord(list, Decode(rest[..8])), 8);
      rest := rest[8..];
      off := off + 8;
    }
  }

  /* ---- what a patch stores ---- */

  /** An address in a range that no newer entry overlaps becomes the backend address of the
      same byte; an address in no range stays. */
  lemma {:induction false} PatchWordIs(list: seq<Resource>, r: Resource, v: nat)
    requires AllSound(list)
    ensures Rules(list, r) && Inside(r, v) ==> PatchWord(list, v) == r.realPtr + (v - r.handle)
    ensures (forall q | q in list :: !Inside(q, v)) ==> PatchWord(list, v) == v
    decreases |list|
  {
    if list != [] {
      var r0 := list[0];
      assert list == [r0] + list[1..];
      assert Sound(r0) && (InRange(r0, v) <==> Inside(r0, v));
      PatchWordIs(list[1..], r, v);
    }
  }

  /** The `w`-th whole word of a buffer. */
  function Word(data: seq<byte>, w: nat): (r: seq<byte>)
    requires 8 * w + 8 <= |data|
    ensures |r| == 8
  {
    data[8 * w..8 * w + 8]
  }

  /** Each whole word of the buffer is translated on its own, and the rest is left alone. */
  lemma {:induction false} PatchIsWordwise(list: seq<Resource>, data: seq<byte>, w: nat)
    ensures 8 * w + 8 <= |data| ==> Word(Patch(list, data), w) == Encode(PatchWord(list, Decode(Word(data, w))), 8)
    ensures forall i | |data| / 8 * 8 <= i < |data| :: Patch(list, data)[i] == data[i]
    decreases |data|
  {
    if |data| >= 8 {
      var rest := data[8..];
      var first := Encode(PatchWord(list, Decode(data[..8])), 8);
      assert Patch(list, data) == first + Patch(list, rest);
      PatchIsWordwise(list, rest, if w > 0 then w - 1 else 0);
      forall i | |data| / 8 * 8 <= i < |data| ensures Patch(list, data)[i] == data[i] {
        assert |rest| / 8 * 8 <= i - 8 && Patch(list, data)[i] == Patch(list, rest)[i - 8];
      }
      if w == 0 {
        assert Word(data, 0) == data[..8] && Word(Patch(list, data), 0) == first;
      } else if 8 * w + 8 <= |data| {
        WordShift(list, data, w - 1);
        assert Patch(list, data)[8..] == Patch(list, rest);
        WordShift(list, Patch(list, data), w - 1);
      }
    }
  }

  /** A word that holds the address `k` bytes into a range. */
  lemma AddressTranslated(list: seq<Resource>, r: Resource, k: nat, word: seq<byte>)
    requires AllSound(list) && Rules(list, r) && k < r.size && |word| == 8 && Decode(word) == r.handle + k
    ensures PatchWord(list, Decode(word)) == r.realPtr + k
  {
    PatchWordIs(list, r, r.handle + k);
  }

  /** A pointer `k` bytes into a pinned buffer, at a word of the transfer, arrives as the
      pointer `k` bytes into the backend buffer ... */
  lemma PointerIsTranslated(list: seq<Resource>, r: Resource, k: nat, data: seq<byte>, w: nat)
    requires AllSound(list) && Rules(list, r) && k < r.size
    requires 8 * w + 8 <= |data| && Decode(Word(data, w)) == r.handle + k
    ensures Decode(Word(Patch(list, data), w)) == r.realPtr + k
  {
    PatchIsWordwise(list, data, w);
    AddressTranslated(list, r, k, Word(data, w));
    RulerListed(list, r);
    WordBounds();
    DecodeEncode(r.realPtr + k, 8);
  }

  /** ... and a word that points into none as it is. */
  lemma OtherWordsStay(list: seq<Resource>, data: seq<byte>, w: nat)
    requires AllSound(list) && 8 * w + 8 <= |data|
    requires forall q | q in list :: !Inside(q, Decode(Word(data, w)))
    ensures Word(Patch(list, data), w) == Word(data, w)
  {
    PatchIsWordwise(list, data, w);
    PatchWordIs(list, Resource(0, 0, 0), Decode(Word(data, w)));
    EncodeDecode(Word(data, w));
  }

  /** Some word of the buffer points into the range of some entry. */
  ghost predicate PointsIn(list: seq<Resource>, data: seq<byte>, w: nat)
    requires 8 * w + 8 <= |data|
  {
    exists q | q in list :: Inside(q, Decode(Word(data, w)))
  }

  lemma WordShift(list: seq<Resource>, data: seq<byte>, w: nat)
    requires 8 * w + 16 <= |data|
    ensures Word(data, w + 1) == Word(data[8..], w) && (PointsIn(list, data, w + 1) <==> PointsIn(list, data[8..], w))
  {
    var i := 8 * w;
    assert 8 * (w + 1) == i + 8 && data[i + 8..i + 16] == data[8..][i..i + 8];
  }

  /** The scan looks at every whole word of the buffer, and at nothing else. */
  lemma {:induction false} NeedsPatchIff(list: seq<Resource>, data: seq<byte>)
    requires AllSound(list)
    ensures NeedsPatch(list, data) <==> exists w: nat :: 8 * w + 8 <= |data| && PointsIn(list, data, w)
    decreases |data|
  {
    if |data| >= 8 {
      var rest := data[8..];
      NeedsPatchIff(list, rest);
      HitIff(list, Decode(data[..8]));
      assert Word(data, 0) == data[..8];
      assert PointsIn(list, data, 0) <==> Hit(list, Decode(data[..8]));
      if w: nat :| 8 * w + 8 <= |rest| && PointsIn(list, rest, w) {
        WordShift(list, data, w);
      }
      if w: nat :| 8 * w + 8 <= |data| && PointsIn(list, data, w) {
        if w > 0 {
          WordShift(list, data, w - 1);
        }
      }
    }
  }

  lemma HitIff(list: seq<Resource>, v: nat)
    requires AllSound(list)
    ensures Hit(list, v) <==> exists q | q in list :: Inside(q, v)
  {
    forall q | q in list ensures InRange(q, v) <==> Inside(q, v) {
      assert Sound(q);
    }
  }

  /* ---- skipping the patch ---- */

  lemma {:induction false} MissKeepsWord(list: seq<Resource>, v: nat)
    requires !Hit(list, v)
    ensures PatchWord(list, v) == v
    decreases |list|
  {
    if list != [] {
      assert list[0] in list && !InRange(list[0], v);
      MissKeepsWord(list[1..], v);
    }
  }

  lemma {:induction false} NoRangesNoPatch(list: seq<Resource>, data: seq<byte>)
    requires list == []
    ensures !NeedsPatch(list, data)
    decreases |data|
  {
    if |data| >= 8 {
      NoRangesNoPatch(list, data[8..]);
    }
  }

  /** When the scan finds nothing, patching would change nothing. */
  lemma {:induction false} PatchSkippable(list: seq<Resource>, data: seq<byte>)
    requires !NeedsPatch(list, data)
    ensures Patch(list, data) == data
    decreases |data|
  {
    if |data| >= 8 {
      MissKeepsWord(list, Decode(data[..8]));
      EncodeDecode(data[..8]);
      PatchSkippable(list, data[8..]);
      assert data == data[..8] + data[8..];
    }
  }

  /* ---- patching piece by piece ---- */

  lemma {:induction false} PatchConcat(list: seq<Resource>, a: seq<byte>, b: seq<byte>)
    requires |a| % 8 == 0
    ensures Patch(list, a + b) == Patch(list, a) + Patch(list, b)
    decreases |a|
  {
    if a == [] {
      assert a + b == b;
    } else {
      PatchConcat(list, a[8..], b);
      assert (a + b)[..8] == a[..8] && (a + b)[8..] == a[8..] + b;
      var w := Encode(PatchWord(list, Decode(a[..8])), 8);
      assert Patch(list, a + b) == w + (Patch(list, a[8..]) + Patch(list, b));
    }
  }

  function Concat(chunks: seq<seq<byte>>): seq<byte> {
    if chunks == [] then [] else chunks[0] + Concat(chunks[1..])
  }

  /** What the host stores when it patches each chunk on its own. */
  function PatchChunks(list: seq<Resource>, chunks: seq<seq<byte>>): seq<byte> {
    if chunks == [] then [] else Patch(list, chunks[0]) + PatchChunks(list, chunks[1..])
  }

  ghost predicate WordChunks(chunks: seq<seq<byte>>) {
    forall j | 0 <= j < |chunks| - 1 :: |chunks[j]| % 8 == 0
  }

  /** Chunk-wise patching equals patching the whole buffer when only the last chunk may
      end inside a word. */
  lemma {:induction false} ChunksPatchAlike(list: seq<Resource>, chunks: seq<seq<byte>>)
    requires WordChunks(chunks)
    ensures PatchChunks(list, chunks) == Patch(list, Concat(chunks))
    decreases |chunks|
  {
    if |chunks| > 1 {
      var rest := chunks[1..];
      assert WordChunks(rest) by {
        forall j | 0 <= j < |rest| - 1 ensures |rest[j]| % 8 == 0 {
          assert rest[j] == chunks[j + 1];
        }
      }
      ChunksPatchAlike(list, rest);
      PatchConcat(list, chunks[0], Concat(rest));
    } else if |chunks| == 1 {
      var d, rest := chunks[0], chunks[1..];
      assert rest == [] && Concat(rest) == [] && PatchChunks(list, rest) == [];
      assert Concat(chunks) == d + [] == d && PatchChunks(list, chunks) == Patch(list, d) + [] == Patch(list, d);
    } else {
      assert Patch(list, []) == [];
    }
  }

  function Zeros(n: nat): (z: seq<byte>)
    ensures |z| == n && forall i | 0 <= i < n :: z[i] == 0
  {
    seq(n, i => 0)
  }

  lemma {:induction false} ZerosDecode(n: nat)
    ensures Decode(Zeros(n)) == 0
    decreases n
  {
    if n > 0 {
      assert Zeros(n)[1..] == Zeros(n - 1);
      ZerosDecode(n - 1);
    }
  }

  /** A buffer of `total` bytes with the pointer `h` at offset `w`. */
  function PointerAt(h: nat, w: nat, total: nat): (d: seq<byte>)
    requires w + 8 <= total
    ensures |d| == total && d[w..w + 8] == Encode(h, 8)
  {
    Zeros(w) + Encode(h, 8) + Zeros(total - w - 8)
  }

  lemma PointerIsPatched(r: Resource, w: nat, total: nat)
    requires Sound(r) && r.size > 0 && w + 8 <= total && w % 8 == 0
    ensures Patch([r], PointerAt(r.handle, w, total))[w] == r.realPtr % 256
  {
    var d := PointerAt(r.handle, w, total);
    WordBounds();
    DecodeEncode(r.handle, 8);
    assert d == d[..w] + d[w..] && d[w..][..8] == d[w..w + 8];
    PatchConcat([r], d[..w], d[w..]);
    assert PatchWord([r], r.handle) == r.realPtr;
    assert Patch([r], d[w..])[0] == Encode(r.realPtr, 8)[0];
  }

  /** A pointer to any pinned buffer is missed when a chunk boundary cuts it in two. */
  lemma SplitPointerIsMissed(r: Resource, m: nat, n: nat)
    requires Sound(r) && r.size > 0 && r.handle % 256 != r.realPtr % 256
    requires m % 8 != 0 && m / 8 * 8 + 8 <= m + n
    ensures
      var d := PointerAt(r.handle, m / 8 * 8, m + n);
      Patch([r], d) != Patch([r], d[..m]) + Patch([r], d[m..])
  {
    var w := m / 8 * 8;
    var d := PointerAt(r.handle, w, m + n);
    PointerIsPatched(r, w, m + n);
    assert d[..m] == d[..w] + d[w..m];
    PatchConcat([r], d[..w], d[w..m]);
    assert d[w] == d[w..w + 8][0] == r.handle % 256;
    assert (Patch([r], d[..m]) + Patch([r], d[m..]))[w] == d[w];
  }

  lemma ShortTail(list: seq<Resource>, a: seq<byte>, b: seq<byte>)
    requires |a| / 8 * 8 + 8 > |a| + |b|
    ensures Patch(list, a + b) == Patch(list, a) + Patch(list, b)
  {
    var x, y := a[..|a| / 8 * 8], a[|a| / 8 * 8..];
    assert a == x + y && a + b == x + (y + b);
    PatchConcat(list, x, y);
    PatchConcat(list, x, y + b);
    var px := Patch(list, x);
    assert Patch(list, a) == px + y && Patch(list, a + b) == px + (y + b);
    assert px + (y + b) == (px + y) + b;
  }

  /* ---- repeated patching ---- */

  /** No backend address looks like a guest address of the table. */
  ghost predicate BackendApart(list: seq<Resource>) {
    forall r, q | r in list && q in list :: r.realPtr + r.size <= q.handle || q.handle + q.size <= r.realPtr
  }

  /** A table that can arise: non-empty buffers, live or left behind, none of them at NULL,
      with backend memory apart from them. */
  ghost predicate Plausible(list: seq<Resource>) {
    && AllSound(list) && BackendApart(list)
    && forall r | r in list :: r.handle > 0 && r.size > 0
  }

  ghost predicate Harmless(list: seq<Resource>, a: seq<byte>, b: seq<byte>) {
    Patch(list, a + b) == Patch(list, a) + Patch(list, b)
  }

  lemma CutIsHarmless(list: seq<Resource>, a: seq<byte>, b: seq<byte>)
    requires |a| % 8 == 0 || |a| / 8 * 8 + 8 > |a| + |b|
    ensures Harmless(list, a, b)
  {
    if |a| % 8 == 0 {
      PatchConcat(list, a, b);
    } else {
      ShortTail(list, a, b);
    }
  }

  /** A table and contents for which a cut inside a word is not harmless. */
  lemma CutIsHarmful(m: nat, n: nat) returns (list: seq<Resource>, a: seq<byte>, b: seq<byte>)
    requires m % 8 != 0 && m / 8 * 8 + 8 <= m + n
    ensures Plausible(list) && |a| == m && |b| == n && !Harmless(list, a, b)
  {
    var r := Resource(0x7f00_0000_0010, 0x7e00_0000_0000, 64);
    var d := PointerAt(r.handle, m / 8 * 8, m + n);
    SplitPointerIsMissed(r, m, n);
    list, a, b := [r], d[..m], d[m..];
    assert d == a + b;
  }

  /** Cutting a buffer at `m` is harmless for every table that can arise and every content
      exactly when no whole word straddles the cut. */
  lemma CutIsHarmlessIff(m: nat, n: nat)
    ensures (forall list, a: seq<byte>, b: seq<byte> | Plausible(list) && |a| == m && |b| == n :: Harmless(list, a, b))
            <==> (m % 8 == 0 || m / 8 * 8 + 8 > m + n)
  {
    if m % 8 == 0 || m / 8 * 8 + 8 > m + n {
      forall list, a: seq<byte>, b: seq<byte> | Plausible(list) && |a| == m && |b| == n
        ensures Harmless(list, a, b)
      {
        CutIsHarmless(list, a, b);
      }
    } else {
      var list, a, b := CutIsHarmful(m, n);
    }
  }

  lemma {:induction false} PatchWordRange(list: seq<Resource>, v: nat)
    requires AllSound(list)
    ensures PatchWord(list, v) == v || exists r | r in list :: r.realPtr <= PatchWord(list, v) < r.realPtr + r.size
    ensures v < U64 ==> PatchWord(list, v) < U64
    decreases |list|
  {
    if list != [] {
      assert Sound(list[0]);
      PatchWordRange(list[1..], v);
      if InRange(list[0], v) {
        assert list[0] in list;
      } else if PatchWord(list[1..], v) != v {
        var r :| r in list[1..] && r.realPtr <= PatchWord(list, v) < r.realPtr + r.size;
        assert r in list;
      }
    }
  }

  lemma PatchWordIdempotent(list: seq<Resource>, v: nat)
    requires AllSound(list) && BackendApart(list)
    ensures PatchWord(list, PatchWord(list, v)) == PatchWord(list, v)
  {
    PatchWordRange(list, v);
    var p := PatchWord(list, v);
    if p != v {
      var r :| r in list && r.realPtr <= p < r.realPtr + r.size;
      forall q | q in list ensures !InRange(q, p) {
        assert Sound(q);
      }
      MissKeepsWord(list, p);
    }
  }

  /** Patched bytes pulled back to the guest and pushed again arrive unchanged. */
  lemma {:induction false} PatchIdempotent(list: seq<Resource>, data: seq<byte>)
    requires AllSound(list) && BackendApart(list)
    ensures Patch(list, Patch(list, data)) == Patch(list, data)
    decreases |data|
  {
    if |data| >= 8 {
      var v := Decode(data[..8]);
      WordBounds();
      PatchWordRange(list, v);
      PatchWordIdempotent(list, v);
      PatchIdempotent(list, data[8..]);
      var w, rest := Encode(PatchWord(list, v), 8), Patch(list, data[8..]);
      DecodeEncode(PatchWord(list, v), 8);
      assert (w + rest)[..8] == w && (w + rest)[8..] == rest;
    }
  }

  lemma {:induction false} HitMovesWord(list: seq<Resource>, v: nat)
    requires AllSound(list) && BackendApart(list) && Hit(list, v)
    ensures PatchWord(list, v) != v && PatchWord(list, v) < U64
    decreases |list|
  {
    assert list == [list[0]] + list[1..];
    assert Sound(list[0]) && list[0] in list;
    if InRange(list[0], v) {
      assert PatchWord(list, v) == list[0].realPtr + (v - list[0].handle);
    } else {
      HitMovesWord(list[1..], v);
    }
  }

  /** Patching leaves a buffer as it is exactly when no whole word of it lies in a pinned range. */
  lemma {:induction false} PatchFixpointIff(list: seq<Resource>, data: seq<byte>)
    requires AllSound(list) && BackendApart(list)
    ensures Patch(list, data) == data <==> !NeedsPatch(list, data)
    decreases |data|
  {
    if |data| >= 8 {
      var v := Decode(data[..8]);
      PatchFixpointIff(list, data[8..]);
      assert data == data[..8] + data[8..];
      if Hit(list, v) {
        HitMovesWord(list, v);
        WordBounds();
        DecodeEncode(PatchWord(list, v), 8);
        assert Patch(list, data)[..8] == Encode(PatchWord(list, v), 8);
      } else {
        MissKeepsWord(list, v);
        EncodeDecode(data[..8]);
        assert Patch(list, data)[8..] == Patch(list, data[8..]);
      }
    }
  }
}
