/** What arrives when every descriptor is copied on its own, with embedded pointers of pinned
    destinations translated chunk by chunk. */
module Chunks {
  import opened Memory
  import ScatterList
  import opened Patching
  import Resources

  lemma {:induction false} ConcatAppend(a: seq<seq<byte>>, b: seq<seq<byte>>)
    ensures Concat(a + b) == Concat(a) + Concat(b)
    decreases |a|
  {
    if a == [] {
      assert a + b == b;
    } else {
      ConcatAppend(a[1..], b);
      assert (a + b)[1..] == a[1..] + b;
    }
  }

  /** What a single chunk leaves at its destination. */
  function Image(list: seq<Resources.Resource>, pinned: bool, data: seq<byte>): (r: seq<byte>)
    ensures |r| == |data|
  {
    if pinned then Patch(list, data) else data
  }

  /** What a list of chunks leaves there. */
  function Images(list: seq<Resources.Resource>, pinned: bool, chunks: seq<seq<byte>>): (r: seq<byte>)
    ensures |r| == |Concat(chunks)|
  {
    if chunks == [] then [] else Image(list, pinned, chunks[0]) + Images(list, pinned, chunks[1..])
  }

  lemma {:induction false} ImagesAppend(list: seq<Resources.Resource>, pinned: bool, a: seq<seq<byte>>,
                                        b: seq<seq<byte>>)
    ensures Images(list, pinned, a + b) == Images(list, pinned, a) + Images(list, pinned, b)
    decreases |a|
  {
    if a == [] {
      assert a + b == b;
    } else {
      ImagesAppend(list, pinned, a[1..], b);
      assert (a + b)[1..] == a[1..] + b;
    }
  }

  /** Plain destinations get the bytes, pinned ones get each chunk patched on its own. */
  lemma {:induction false} ImagesAre(list: seq<Resources.Resource>, pinned: bool, chunks: seq<seq<byte>>)
    ensures Images(list, pinned, chunks) == if pinned then PatchChunks(list, chunks) else Concat(chunks)
    decreases |chunks|
  {
    if chunks != [] {
      ImagesAre(list, pinned, chunks[1..]);
    }
  }

  lemma OneImage(list: seq<Resources.Resource>, pinned: bool, data: seq<byte>)
    ensures Concat([data]) == data && Images(list, pinned, [data]) == Image(list, pinned, data)
  {
    assert [data][1..] == [];
    assert Concat([data]) == data + [] && Images(list, pinned, [data]) == Image(list, pinned, data) + [];
  }

  /* ---- where the chunks end ---- */

  ghost predicate PageChunk(va: nat, chunks: seq<seq<byte>>, j: nat)
    requires j < |chunks|
  {
    (if j == 0 then va + |chunks[0]| else |chunks[j]|) % 4096 == 0
  }

  /** Chunks of the bytes from user address `va`: all but the last end on a page boundary. */
  ghost predicate PageChunks(va: nat, chunks: seq<seq<byte>>) {
    forall j | 0 <= j < |chunks| - 1 :: PageChunk(va, chunks, j)
  }

  ghost predicate AllPageChunks(va: nat, chunks: seq<seq<byte>>) {
    forall j | 0 <= j < |chunks| :: PageChunk(va, chunks, j)
  }

  lemma ConcatSnoc(chunks: seq<seq<byte>>, last: seq<byte>)
    ensures Concat(chunks + [last]) == Concat(chunks) + last
  {
    ConcatAppend(chunks, [last]);
    OneImage([], false, last);
  }

  lemma {:induction false} WholePages(va: nat, chunks: seq<seq<byte>>)
    requires AllPageChunks(va, chunks) && chunks != []
    ensures (va + |Concat(chunks)|) % 4096 == 0
    decreases |chunks|
  {
    var n := |chunks| - 1;
    var pre := chunks[..n];
    assert chunks == pre + [chunks[n]] && PageChunk(va, chunks, n);
    ConcatSnoc(pre, chunks[n]);
    if n > 0 {
      forall j | 0 <= j < n ensures PageChunk(va, pre, j) {
        assert PageChunk(va, chunks, j);
      }
      WholePages(va, pre);
      ScatterList.PagesAdd(va + |Concat(pre)|, |chunks[n]|);
    } else {
      assert Concat(pre) == [];
    }
  }

  lemma PagesSubtract(a: nat, b: nat)
    requires a % 4096 == 0 && (a + b) % 4096 == 0
    ensures b % 4096 == 0
  {
  }

  /** If the bytes end on a page boundary, so does the last chunk. */
  lemma LastOnPage(va: nat, chunks: seq<seq<byte>>)
    requires PageChunks(va, chunks) && chunks != [] && (va + |Concat(chunks)|) % 4096 == 0
    ensures AllPageChunks(va, chunks)
  {
    var n := |chunks| - 1;
    var pre := chunks[..n];
    assert chunks == pre + [chunks[n]];
    ConcatSnoc(pre, chunks[n]);
    if n > 0 {
      forall j | 0 <= j < n ensures PageChunk(va, pre, j) {
        assert PageChunk(va, chunks, j);
      }
      WholePages(va, pre);
      PagesSubtract(va + |Concat(pre)|, |chunks[n]|);
    } else {
      assert Concat(pre) == [];
    }
    assert PageChunk(va, chunks, n);
  }

  /** The chunks of a batch that starts on a page boundary follow those before it. */
  lemma PageChunksAppend(va: nat, a: seq<seq<byte>>, b: seq<seq<byte>>)
    requires PageChunks(va, a) && PageChunks(va + |Concat(a)|, b)
    requires a != [] ==> (va + |Concat(a)|) % 4096 == 0
    ensures PageChunks(va, a + b)
  {
    if a == [] {
      assert a + b == b;
    } else {
      LastOnPage(va, a);
      forall j | 0 <= j < |a + b| - 1 ensures PageChunk(va, a + b, j) {
        if j < |a| {
          assert PageChunk(va, a, j);
        } else {
          assert PageChunk(va + |Concat(a)|, b, j - |a|);
          if j == |a| {
            PagesSubtract(va + |Concat(a)|, |b[0]|);
          }
        }
      }
    }
  }

  lemma WordsInPages(va: nat, len: nat)
    requires va % 8 == 0 && (va + len) % 4096 == 0
    ensures len % 8 == 0
  {
    var p, q := va / 8, (va + len) / 4096;
    assert len == 8 * (512 * q - p);
  }

  /** From a word-aligned address, chunks that end on page boundaries are whole words. */
  lemma PageChunksAreWords(va: nat, chunks: seq<seq<byte>>)
    requires PageChunks(va, chunks) && va % 8 == 0
    ensures WordChunks(chunks)
  {
    forall j | 0 <= j < |chunks| - 1 ensures |chunks[j]| % 8 == 0 {
      assert PageChunk(va, chunks, j);
      WordsInPages(if j == 0 then va else 0, |chunks[j]|);
    }
  }
}
