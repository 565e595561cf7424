/** Greedy scatter-gather coalescing of one batch of pinned pages
    (driver/virtio_hmcuda_main.c:247-263). */
module ScatterList {
  import opened Memory

  predicate Resident(pt: map<nat, nat>, va: nat) {
    va / 4096 in pt
  }

  /** Physical address of user address `va` under page table `pt` (page number to frame number). */
  function Translate(pt: map<nat, nat>, va: nat): nat
    requires Resident(pt, va)
  {
    pt[va / 4096] * 4096 + va % 4096
  }

  ghost predicate Mapped(pt: map<nat, nat>, va: nat, n: nat) {
    forall a | va <= a < va + n :: Resident(pt, a)
  }

  /** Where the `n` user bytes from `va` live, in order. */
  function UserAddrs(pt: map<nat, nat>, va: nat, n: nat): (r: seq<nat>)
    requires Mapped(pt, va, n)
    ensures |r| == n
    ensures forall j | 0 <= j < n :: r[j] == Translate(pt, va + j)
  {
    seq<nat>(n, j requires 0 <= j < n => Translate(pt, va + j))
  }

  function End(e: Iov): nat {
    e.base + e.len
  }

  /** Entry `j` does not continue into the next one. */
  ghost predicate Gap(sg: seq<Iov>, j: nat)
    requires j + 1 < |sg|
  {
    End(sg[j]) != sg[j + 1].base
  }

  /** No two neighbouring entries could have been one. */
  ghost predicate Maximal(sg: seq<Iov>) {
    forall j | 0 <= j < |sg| - 1 :: Gap(sg, j)
  }

  ghost predicate NoEmptyEntry(sg: seq<Iov>) {
    forall j | 0 <= j < |sg| :: sg[j].len > 0
  }

  /** Entry `j` of a list that starts `off` bytes into a page ends on a page boundary. */
  ghost predicate PageEntry(off: nat, sg: seq<Iov>, j: nat)
    requires j < |sg|
  {
    (if j == 0 then off + sg[0].len else sg[j].len) % 4096 == 0
  }

  /** Every entry but the last ends on a page boundary. */
  ghost predicate PageEnds(off: nat, sg: seq<Iov>) {
    forall j | 0 <= j < |sg| - 1 :: PageEntry(off, sg, j)
  }

  predicate FrameAt(pt: map<nat, nat>, vpn: nat, frame: nat) {
    vpn in pt && pt[vpn] == frame
  }

  ghost predicate PagesOf(pt: map<nat, nat>, vpn: nat, pages: seq<nat>) {
    forall i | 0 <= i < |pages| :: FrameAt(pt, vpn + i, pages[i])
  }

  lemma UserAddrsSplit(pt: map<nat, nat>, va: nat, m: nat, n: nat)
    requires Mapped(pt, va, m + n)
    ensures Mapped(pt, va, m) && Mapped(pt, va + m, n)
    ensures UserAddrs(pt, va, m + n) == UserAddrs(pt, va, m) + UserAddrs(pt, va + m, n)
  {
  }

  /** The bytes of one page are contiguous both for the user and physically. */
  lemma PageRun(pt: map<nat, nat>, va: nat, len: nat)
    requires Mapped(pt, va, len) && len > 0 && va % 4096 + len <= 4096
    ensures Resident(pt, va)
    ensures UserAddrs(pt, va, len) == Range(Translate(pt, va), len)
  {
    assert Resident(pt, va);
    forall j | 0 <= j < len
      ensures UserAddrs(pt, va, len)[j] == Translate(pt, va) + j
    {
      assert Resident(pt, va + j) && (va + j) / 4096 == va / 4096;
    }
  }

  /** Add a piece to a list: to the last entry when it continues it, else as a new entry. */
  function Grow(sg: seq<Iov>, piece: Iov): (r: seq<Iov>)
    ensures r != [] && |r| <= |sg| + 1
  {
    if sg != [] && End(sg[|sg| - 1]) == piece.base then
      sg[|sg| - 1 := Iov(sg[|sg| - 1].base, sg[|sg| - 1].len + piece.len)]
    else sg + [piece]
  }

  /** Greedy merging of a list of pieces. */
  function Merge(ps: seq<Iov>): (r: seq<Iov>)
    ensures |r| <= |ps| && (ps != [] ==> r != [])
  {
    if ps == [] then [] else Grow(Merge(ps[..|ps| - 1]), ps[|ps| - 1])
  }

  lemma GrowDenotes(sg: seq<Iov>, piece: Iov)
    ensures Addrs(Grow(sg, piece)) == Addrs(sg) + Range(piece.base, piece.len)
  {
    if sg != [] && End(sg[|sg| - 1]) == piece.base {
      var l, r := |sg| - 1, Grow(sg, piece);
      assert r[..l] == sg[..l];
      assert Range(sg[l].base, r[l].len) == Range(sg[l].base, sg[l].len) + Range(piece.base, piece.len);
    } else {
      AddrsSnoc(sg, piece);
    }
  }

  lemma GrowKeeps(sg: seq<Iov>, piece: Iov)
    requires piece.len > 0 && NoEmptyEntry(sg) && Maximal(sg)
    ensures
      var r := Grow(sg, piece);
      NoEmptyEntry(r) && Maximal(r) && End(r[|r| - 1]) == End(piece)
  {
    var r := Grow(sg, piece);
    forall j | 0 <= j < |r| - 1 ensures Gap(r, j) {
      assert j < |sg| - 1 ==> Gap(sg, j);
    }
  }

  /** Merging changes neither the bytes denoted nor their order, and leaves no seam. */
  lemma {:induction false} MergeKeeps(ps: seq<Iov>)
    requires NoEmptyEntry(ps)
    ensures Addrs(Merge(ps)) == Addrs(ps)
    ensures NoEmptyEntry(Merge(ps)) && Maximal(Merge(ps))
    ensures ps != [] ==> End(Merge(ps)[|Merge(ps)| - 1]) == End(ps[|ps| - 1])
    decreases |ps|
  {
    if ps != [] {
      var pre := ps[..|ps| - 1];
      assert NoEmptyEntry(pre) by {
        forall j | 0 <= j < |pre| ensures pre[j].len > 0 {
          assert ps[j].len > 0;
        }
      }
      MergeKeeps(pre);
      GrowKeeps(Merge(pre), ps[|ps| - 1]);
      GrowDenotes(Merge(pre), ps[|ps| - 1]);
    }
  }

  ghost predicate AllPageEnds(off: nat, sg: seq<Iov>) {
    forall j | 0 <= j < |sg| :: PageEntry(off, sg, j)
  }

  lemma PagesAdd(a: nat, b: nat)
    requires a % 4096 == 0 && b % 4096 == 0
    ensures (a + b) % 4096 == 0
  {
  }

  lemma GrowPages(off: nat, sg: seq<Iov>, piece: Iov)
    requires AllPageEnds(off, sg) && (if sg == [] then off + piece.len else piece.len) % 4096 == 0
    ensures AllPageEnds(off, Grow(sg, piece))
  {
    var r := Grow(sg, piece);
    forall j | 0 <= j < |r| ensures PageEntry(off, r, j) {
      if j < |sg| {
        assert PageEntry(off, sg, j);
        if r[j] != sg[j] {
          PagesAdd(if j == 0 then off + sg[0].len else sg[j].len, piece.len);
        }
      }
    }
  }

  lemma {:induction false} MergePages(off: nat, ps: seq<Iov>)
    requires AllPageEnds(off, ps)
    ensures AllPageEnds(off, Merge(ps))
    decreases |ps|
  {
    if ps != [] {
      var pre := ps[..|ps| - 1];
      forall j | 0 <= j < |pre| ensures PageEntry(off, pre, j) {
        assert PageEntry(off, ps, j);
      }
      MergePages(off, pre);
      assert PageEntry(off, ps, |ps| - 1);
      GrowPages(off, Merge(pre), ps[|ps| - 1]);
    }
  }

  lemma MergePageEnds(off: nat, ps: seq<Iov>)
    requires PageEnds(off, ps)
    ensures PageEnds(off, Merge(ps))
  {
    if ps != [] {
      var pre := ps[..|ps| - 1];
      forall j | 0 <= j < |pre| ensures PageEntry(off, pre, j) {
        assert PageEntry(off, ps, j);
      }
      MergePages(off, pre);
      var r, m := Merge(ps), Merge(pre);
      forall j | 0 <= j < |r| - 1 ensures PageEntry(off, r, j) {
        assert r[j] == m[j] && PageEntry(off, m, j);
      }
    }
  }

  /* ---- the pages of one batch ---- */

  /** User bytes still to place before page `i`, when they start `off` bytes into page 0. */
  function Remaining(off: nat, count: nat, i: nat): nat {
    if i == 0 then count
    else if off + count <= i * 4096 then 0
    else off + count - i * 4096
  }

  function PageOff(off: nat, i: nat): nat {
    if i == 0 then off else 0
  }

  /** The part of page `i` that the user range occupies. */
  function Piece(pages: seq<nat>, off: nat, count: nat, i: nat): Iov
    requires i < |pages| && off < 4096
  {
    var room, rem := 4096 - PageOff(off, i), Remaining(off, count, i);
    Iov(pages[i] * 4096 + PageOff(off, i), if room < rem then room else rem)
  }

  function Pieces(pages: seq<nat>, off: nat, count: nat, i: nat): (r: seq<Iov>)
    requires i <= |pages| && off < 4096
    ensures |r| == i
  {
    if i == 0 then [] else Pieces(pages, off, count, i - 1) + [Piece(pages, off, count, i - 1)]
  }

  /** `n` pages hold `count` bytes from offset `off`, and no page is idle. */
  predicate Fits(off: nat, count: nat, n: nat) {
    n > 0 && off < 4096 && count > 0 && (n - 1) * 4096 < off + count <= n * 4096
  }

  /** Page ends are where pieces end, except for the last byte of the batch. */
  lemma PieceFacts(pages: seq<nat>, off: nat, count: nat, i: nat)
    requires Fits(off, count, |pages|) && i < |pages|
    ensures
      var p := Piece(pages, off, count, i);
      && 0 < p.len <= Remaining(off, count, i)
      && Remaining(off, count, i) - p.len == Remaining(off, count, i + 1)
      && (i + 1 < |pages| ==> End(p) == (pages[i] + 1) * 4096 && (if i == 0 then off + p.len else p.len) % 4096 == 0)
  {
  }

  lemma {:induction false} PiecesFacts(pages: seq<nat>, off: nat, count: nat, i: nat)
    requires Fits(off, count, |pages|) && i <= |pages|
    ensures NoEmptyEntry(Pieces(pages, off, count, i))
    decreases i
  {
    if i > 0 {
      PiecesFacts(pages, off, count, i - 1);
      PieceFacts(pages, off, count, i - 1);
    }
  }

  lemma {:induction false} PiecesOnPages(pages: seq<nat>, off: nat, count: nat, i: nat)
    requires Fits(off, count, |pages|) && i <= |pages|
    ensures PageEnds(off, Pieces(pages, off, count, i))
    ensures i < |pages| ==> AllPageEnds(off, Pieces(pages, off, count, i))
    decreases i
  {
    if i > 0 {
      var pre, ps := Pieces(pages, off, count, i - 1), Pieces(pages, off, count, i);
      PiecesOnPages(pages, off, count, i - 1);
      PieceFacts(pages, off, count, i - 1);
      forall j | 0 <= j < i - 1 ensures PageEntry(off, ps, j) {
        assert PageEntry(off, pre, j) && ps[j] == pre[j] && ps[0] == pre[0];
      }
    }
  }

  /** User bytes on the first `i` pages. */
  function Done(off: nat, count: nat, i: nat): (d: nat)
    ensures d <= count
  {
    if Remaining(off, count, i) <= count then count - Remaining(off, count, i) else 0
  }

  /** Page `i` holds the next stretch of the user range. */
  lemma PieceRun(pt: map<nat, nat>, va: nat, count: nat, pages: seq<nat>, i: nat)
    requires Fits(va % 4096, count, |pages|) && i < |pages|
    requires PagesOf(pt, va / 4096, pages) && Mapped(pt, va, count)
    ensures
      var off := va % 4096;
      var p, done := Piece(pages, off, count, i), Done(off, count, i);
      && done + p.len == Done(off, count, i + 1)
      && UserAddrs(pt, va + done, p.len) == Range(p.base, p.len)
  {
    var off := va % 4096;
    var done := Done(off, count, i);
    PieceFacts(pages, off, count, i);
    assert done == if i == 0 then 0 else i * 4096 - off;
    assert (va + done) / 4096 == va / 4096 + i;
    assert (va + done) % 4096 == PageOff(off, i);
    PageRun(pt, va + done, Piece(pages, off, count, i).len);
    var p := pages[i];
  }

  lemma {:induction false} PiecesDenote(pt: map<nat, nat>, va: nat, count: nat, pages: seq<nat>, i: nat)
    requires Fits(va % 4096, count, |pages|) && i <= |pages|
    requires PagesOf(pt, va / 4096, pages) && Mapped(pt, va, count)
    ensures Addrs(Pieces(pages, va % 4096, count, i)) == UserAddrs(pt, va, Done(va % 4096, count, i))
    decreases i
  {
    if i > 0 {
      var off := va % 4096;
      var p := Piece(pages, off, count, i - 1);
      PiecesDenote(pt, va, count, pages, i - 1);
      PieceRun(pt, va, count, pages, i - 1);
      AddrsSnoc(Pieces(pages, off, count, i - 1), p);
      UserAddrsSplit(pt, va, Done(off, count, i - 1), p.len);
    }
  }

  lemma PagesMapUser(pt: map<nat, nat>, va: nat, count: nat, pages: seq<nat>)
    requires PagesOf(pt, va / 4096, pages)
    requires va % 4096 + count <= |pages| * 4096
    ensures Mapped(pt, va, count)
  {
    forall a | va <= a < va + count ensures Resident(pt, a) {
      var p := pages[a / 4096 - va / 4096];
    }
  }

  /** The coalesced list of a whole batch: what the driver hands to the virtqueue. */
  function BatchList(pages: seq<nat>, off: nat, count: nat): seq<Iov>
    requires off < 4096
  {
    Merge(Pieces(pages, off, count, |pages|))
  }

  lemma ListShape(pages: seq<nat>, off: nat, count: nat)
    requires Fits(off, count, |pages|)
    ensures
      var sg := BatchList(pages, off, count);
      && sg != [] && Addrs(sg) == Addrs(Pieces(pages, off, count, |pages|))
      && NoEmptyEntry(sg) && Maximal(sg) && PageEnds(off, sg)
  {
    var ps := Pieces(pages, off, count, |pages|);
    PiecesFacts(pages, off, count, |pages|);
    MergeKeeps(ps);
    PiecesOnPages(pages, off, count, |pages|);
    MergePageEnds(off, ps);
  }

  lemma AllDone(off: nat, count: nat, n: nat)
    requires Fits(off, count, n)
    ensures Done(off, count, n) == count && off + count <= n * 4096
  {
  }

  /** The coalesced list denotes exactly the user's bytes, in order, with no empty
      entry, no seam, and every entry but the last ending on a page boundary. */
  lemma BatchDenotesUserBytes(pt: map<nat, nat>, va: nat, count: nat, pages: seq<nat>)
    requires Fits(va % 4096, count, |pages|) && PagesOf(pt, va / 4096, pages)
    ensures Mapped(pt, va, count)
    ensures
      var sg := BatchList(pages, va % 4096, count);
      && sg != [] && Addrs(sg) == UserAddrs(pt, va, count)
      && NoEmptyEntry(sg) && Maximal(sg) && PageEnds(va % 4096, sg)
  {
    AllDone(va % 4096, count, |pages|);
    PagesMapUser(pt, va, count, pages);
    ListShape(pages, va % 4096, count);
    PiecesDenote(pt, va, count, pages, |pages|);
  }

  /** Comparing frame numbers decides the same merges as comparing addresses. */
  lemma MergeStep(pages: seq<nat>, off: nat, count: nat, i: nat)
    requires Fits(off, count, |pages|) && i < |pages|
    ensures
      var sg := Merge(Pieces(pages, off, count, i));
      var p := Piece(pages, off, count, i);
      && Merge(Pieces(pages, off, count, i + 1)) == Grow(sg, p)
      && (sg == [] <==> i == 0)
      && (i > 0 ==> (End(sg[|sg| - 1]) == p.base <==> pages[i] == pages[i - 1] + 1))
      && Remaining(off, count, i + 1) == Remaining(off, count, i) - p.len
  {
    var ps := Pieces(pages, off, count, i);
    PiecesFacts(pages, off, count, i);
    MergeKeeps(ps);
    PieceFacts(pages, off, count, i);
    if i > 0 {
      PieceFacts(pages, off, count, i - 1);
    }
    assert Pieces(pages, off, count, i + 1)[..i] == ps;
  }

  /** Lengthen the last entry of the table, or start a new one. */
  method PlaceEntry(table: array<Iov>, nrSge: nat, base: nat, len: nat, extend: bool) returns (nr: nat)
    requires nrSge < table.Length && (extend <==> nrSge > 0 && End(table[nrSge - 1]) == base)
    modifies table
    ensures nr == (if extend then nrSge else nrSge + 1) && nr <= table.Length
    ensures table[..nr] == Grow(old(table[..nrSge]), Iov(base, len))
  {
    if extend {
      table[nrSge - 1] := Iov(table[nrSge - 1].base, table[nrSge - 1].len + len);
      nr := nrSge;
    } else {
      table[nrSge] := Iov(base, len);
      nr := nrSge + 1;
    }
  }

  /** What the driver computes for page `i` is its piece. */
  lemma PieceComputed(pages: seq<nat>, off: nat, count: nat, i: nat, pgOff: nat, pgLen: nat)
    requires Fits(off, count, |pages|) && i < |pages|
    requires pgOff == (if i == 0 then off else 0)
    requires pgLen == (if 4096 - pgOff < Remaining(off, count, i) then 4096 - pgOff else Remaining(off, count, i))
    ensures Iov(pages[i] * 4096 + pgOff, pgLen) == Piece(pages, off, count, i)
  {
  }

  /** Put page `i` into the table.  Pages are compared by frame number, as the driver does. */
  method PlacePage(pages: seq<nat>, off: nat, count: nat, i: nat, rem: nat, table: array<Iov>, nrSge: nat)
    returns (nr: nat, left: nat)
    requires Fits(off, count, |pages|) && i < |pages| && rem == Remaining(off, count, i)
    requires nrSge < table.Length && table[..nrSge] == Merge(Pieces(pages, off, count, i))
    modifies table
    ensures nrSge <= nr <= nrSge + 1 && nr <= table.Length
    ensures table[..nr] == Merge(Pieces(pages, off, count, i + 1))
    ensures left == Remaining(off, count, i + 1)
  {
    assert nrSge > 0 ==> table[..nrSge][nrSge - 1] == table[nrSge - 1];
    MergeStep(pages, off, count, i);
    var pgOff := if i == 0 then off else 0;
    var pgLen := if 4096 - pgOff < rem then 4096 - pgOff else rem;
    PieceComputed(pages, off, count, i, pgOff, pgLen);
    nr := PlaceEntry(table, nrSge, pages[i] * 4096 + pgOff, pgLen, nrSge > 0 && pages[i] == pages[i - 1] + 1);
    left := rem - pgLen;
  }

  /** Fill `table` with the coalesced entries for the `count` user bytes that start
      `off` bytes into the first of the pinned `pages`; `rem` is what is left over. */
  method Coalesce(pages: seq<nat>, off: nat, count: nat, table: array<Iov>)
    returns (nrSge: nat, rem: nat)
    requires |pages| <= table.Length && Fits(off, count, |pages|)
    modifies table
    ensures rem == 0 && 0 < nrSge <= |pages|
    ensures table[..nrSge] == BatchList(pages, off, count)
  {
    rem := count;
    nrSge := 0;
    var i := 0;
    while i < |pages| && rem > 0
      invariant 0 <= i <= |pages| && nrSge <= i
      invariant rem == Remaining(off, count, i)
      invariant table[..nrSge] == Merge(Pieces(pages, off, count, i))
    {
      nrSge, rem := PlacePage(pages, off, count, i, rem, table, nrSge);
      i := i + 1;
    }
  }

  /* ---- optimality ---- */

  /** How often an address list jumps: positions whose successor is not the next address. */
  function Breaks(a: seq<nat>): nat {
    if |a| < 2 then 0
    else Breaks(a[..|a| - 1]) + if a[|a| - 1] == a[|a| - 2] + 1 then 0 else 1
  }

  lemma {:induction false} BreaksOfRun(a: seq<nat>, base: nat, len: nat)
    requires len > 0
    ensures Breaks(a + Range(base, len)) ==
            Breaks(a) + if a == [] || a[|a| - 1] + 1 == base then 0 else 1
    decreases len
  {
    var r := a + Range(base, len);
    assert r[..|r| - 1] == a + Range(base, len - 1);
    if len == 1 {
      assert a + Range(base, 0) == a;
    } else {
      BreaksOfRun(a, base, len - 1);
    }
  }

  /** The last entry adds at most one jump: where it does not continue what came before. */
  lemma BreaksOfLast(pre: seq<Iov>, e: Iov)
    ensures
      var a := Addrs(pre);
      Breaks(Addrs(pre + [e])) == Breaks(a) + if e.len == 0 || a == [] || a[|a| - 1] + 1 == e.base then 0 else 1
  {
    AddrsSnoc(pre, e);
    if e.len > 0 {
      BreaksOfRun(Addrs(pre), e.base, e.len);
    } else {
      assert Addrs(pre) + Range(e.base, 0) == Addrs(pre);
    }
  }

  /** Any descriptor list needs an entry per jump. */
  lemma {:induction false} BreaksBound(sg: seq<Iov>)
    requires sg != []
    ensures Breaks(Addrs(sg)) <= |sg| - 1
    decreases |sg|
  {
    var pre, e := sg[..|sg| - 1], sg[|sg| - 1];
    assert sg == pre + [e];
    BreaksOfLast(pre, e);
    if pre != [] {
      BreaksBound(pre);
    }
  }

  lemma LastAddress(sg: seq<Iov>)
    requires sg != [] && sg[|sg| - 1].len > 0
    ensures Addrs(sg) != [] && Addrs(sg)[|Addrs(sg)| - 1] + 1 == End(sg[|sg| - 1])
  {
  }

  lemma MaximalPrefix(pre: seq<Iov>, e: Iov)
    requires pre != [] && NoEmptyEntry(pre + [e]) && Maximal(pre + [e])
    ensures NoEmptyEntry(pre) && Maximal(pre) && e.len > 0 && End(pre[|pre| - 1]) != e.base
  {
    var sg := pre + [e];
    assert sg[|pre|] == e && Gap(sg, |pre| - 1);
    forall j | 0 <= j < |pre| ensures pre[j].len > 0 {
      assert sg[j].len > 0;
    }
    forall j | 0 <= j < |pre| - 1 ensures Gap(pre, j) {
      assert Gap(sg, j);
    }
  }

  /** A maximal list has an entry per jump and no more. */
  lemma {:induction false} MaximalBreaks(sg: seq<Iov>)
    requires sg != [] && NoEmptyEntry(sg) && Maximal(sg)
    ensures Breaks(Addrs(sg)) == |sg| - 1
    decreases |sg|
  {
    var pre, e := sg[..|sg| - 1], sg[|sg| - 1];
    assert sg == pre + [e];
    BreaksOfLast(pre, e);
    if pre != [] {
      MaximalPrefix(pre, e);
      LastAddress(pre);
      MaximalBreaks(pre);
    }
  }

  /** No list of physically contiguous pieces, wherever it cuts, denotes the same
      bytes with fewer entries than a maximal one: greedy is optimal. */
  lemma {:induction false} GreedyIsMinimal(greedy: seq<Iov>, other: seq<Iov>)
    requires NoEmptyEntry(greedy) && Maximal(greedy)
    requires Addrs(other) == Addrs(greedy)
    ensures |greedy| <= |other|
  {
    if greedy != [] {
      MaximalBreaks(greedy);
      if other != [] {
        BreaksBound(other);
      }
    }
  }
}
