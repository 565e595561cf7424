/** How the driver cuts a user byte range into pinned batches
    (driver/virtio_hmcuda_main.c:196-230), in 64-bit arithmetic. */
module Batches {
  import opened Memory
  import ScatterList

  function DivRoundUp(a: nat, b: nat): nat
    requires b > 0
  {
    (a + b - 1) / b
  }

  /** DIV_ROUND_UP(offset + remaining, PAGE_SIZE) as unsigned 64-bit arithmetic has it. */
  function PagesLeft(va: nat, remaining: nat): nat {
    Wrap64(va % 4096 + remaining + 4095) / 4096
  }

  /** Pages of the next batch from `va`, at most a batch full. */
  function BatchPages(va: nat, remaining: nat): nat {
    var pages := PagesLeft(va, remaining);
    if pages < 512 then pages else 512
  }

  /** Bytes that these pages hold behind the offset, modulo 2^64. */
  function Capacity(va: nat, remaining: nat): nat {
    Wrap64(BatchPages(va, remaining) * 4096 + U64 - va % 4096)
  }

  function BatchBytes(va: nat, remaining: nat): (c: nat)
    ensures c <= remaining
  {
    var capacity := Capacity(va, remaining);
    if capacity < remaining then capacity else remaining
  }

  /** The page count of this range does not wrap. */
  predicate Countable(va: nat, n: nat) {
    va % 4096 + n <= U64 - 4096
  }

  /** The page count is right exactly for these ranges. */
  lemma PagesLeftIff(va: nat, n: nat)
    requires n < U64
    ensures PagesLeft(va, n) == DivRoundUp(va % 4096 + n, 4096) <==> Countable(va, n)
  {
    var sum := va % 4096 + n + 4095;
    if sum >= U64 {
      assert Wrap64(sum) == sum - U64;
      assert DivRoundUp(va % 4096 + n, 4096) >= U64 / 4096;
    }
  }

  /** For a user range that does not itself wrap, the others are those that get no page at all. */
  lemma NoPagesIff(va: nat, n: nat)
    requires 0 < n < U64 && va + n <= U64
    ensures BatchPages(va, n) == 0 <==> !Countable(va, n)
  {
    PagesLeftIff(va, n);
    if !Countable(va, n) {
      assert Wrap64(va % 4096 + n + 4095) < 4096;
    } else {
      assert DivRoundUp(va % 4096 + n, 4096) > 0;
    }
  }

  /** Where the loop stands after `turns` batches without error. */
  function OffsetAfter(va: nat, count: nat, turns: nat): (o: nat)
    ensures o <= count
  {
    if turns == 0 then 0
    else
      var o := OffsetAfter(va, count, turns - 1);
      o + BatchBytes(va + o, count - o)
  }

  /** A page-aligned range of more than 2^64 - 4096 bytes gets no page and no byte in every
      turn: the loop never ends. */
  lemma {:induction false} LoopIsStuck(va: nat, count: nat, turns: nat)
    requires va % 4096 == 0 && U64 - 4096 < count < U64
    ensures BatchPages(va, count) == 0 && OffsetAfter(va, count, turns) == 0
    decreases turns
  {
    assert Wrap64(count + 4095) == count + 4095 - U64 < 4096;
    if turns > 0 {
      LoopIsStuck(va, count, turns - 1);
    }
  }

  /** The rest of a countable range is countable. */
  lemma RestCountable(va: nat, n: nat, done: nat)
    requires Countable(va, n) && done <= n
    ensures Countable(va + done, n - done)
  {
    assert (va + done) % 4096 <= va % 4096 + done;
  }

  /** A batch is never empty, fits its pages exactly, and leaves the next one page-aligned. */
  lemma BatchShape(va: nat, remaining: nat)
    requires remaining > 0 && Countable(va, remaining)
    ensures
      var n, c := BatchPages(va, remaining), BatchBytes(va, remaining);
      && 0 < n <= 512 && ScatterList.Fits(va % 4096, c, n) && c <= remaining
      && (c < remaining ==> n == 512 && va % 4096 + c == 512 * 4096 && (va + c) % 4096 == 0)
      && (c == remaining ==> n == DivRoundUp(va % 4096 + remaining, 4096))
  {
    var off := va % 4096;
    var pages, c := DivRoundUp(off + remaining, 4096), BatchBytes(va, remaining);
    PagesLeftIff(va, remaining);
    assert (pages - 1) * 4096 < off + remaining <= pages * 4096;
    var n := BatchPages(va, remaining);
    assert Wrap64(n * 4096 + U64 - off) == n * 4096 - off;
    if c < remaining {
      assert va + c == va / 4096 * 4096 + 512 * 4096;
    }
  }

  /** Number of batches, and of pages over all batches, of the driver's loop; a batch without
      bytes is the end of the count, though not of the loop. */
  function BatchCount(va: nat, remaining: nat): nat
    decreases remaining
  {
    var c := BatchBytes(va, remaining);
    if c == 0 then 0 else 1 + BatchCount(va + c, remaining - c)
  }

  function PageCount(va: nat, remaining: nat): nat
    decreases remaining
  {
    var c := BatchBytes(va, remaining);
    if c == 0 then 0 else BatchPages(va, remaining) + PageCount(va + c, remaining - c)
  }

  /** One batch less. */
  lemma CountStep(va: nat, remaining: nat)
    requires remaining > 0 && Countable(va, remaining)
    ensures
      var c := BatchBytes(va, remaining);
      && 0 < c <= remaining && Countable(va + c, remaining - c)
      && BatchCount(va, remaining) == 1 + BatchCount(va + c, remaining - c)
      && (c == remaining ==> BatchCount(va, remaining) == 1)
      && (c < remaining ==> (va + c) % 4096 == 0)
  {
    BatchShape(va, remaining);
    RestCountable(va, remaining, BatchBytes(va, remaining));
  }

  /** The batches partition the pages of the range, and no fewer batches of 512 pages would do. */
  lemma {:induction false} BatchTotals(va: nat, remaining: nat)
    requires remaining > 0 && Countable(va, remaining)
    ensures PageCount(va, remaining) == DivRoundUp(va % 4096 + remaining, 4096)
    ensures BatchCount(va, remaining) == DivRoundUp(DivRoundUp(va % 4096 + remaining, 4096), 512)
    decreases remaining
  {
    BatchShape(va, remaining);
    CountStep(va, remaining);
    var off, c := va % 4096, BatchBytes(va, remaining);
    if c < remaining {
      BatchTotals(va + c, remaining - c);
      assert off + remaining == 512 * 4096 + (remaining - c);
      PagesSplit(remaining - c);
    } else {
      assert PageCount(va + c, 0) == 0;
      OneBatch(off + remaining);
    }
  }

  lemma OneBatch(n: nat)
    requires 0 < n && DivRoundUp(n, 4096) <= 512
    ensures DivRoundUp(DivRoundUp(n, 4096), 512) == 1
  {
  }

  /** Batches left to do behind the first `done` bytes. */
  function BatchesFrom(va: nat, count: nat, done: nat): nat
    requires done <= count
  {
    BatchCount(va + done, count - done)
  }

  /** The next batch is one of them, and ends on a page boundary unless it is the last. */
  lemma OneBatchLess(va: nat, count: nat, done: nat)
    requires Countable(va, count) && done < count
    ensures
      var c := BatchBytes(va + done, count - done);
      && 0 < c <= count - done && BatchesFrom(va, count, done) == 1 + BatchesFrom(va, count, done + c)
      && (done + c < count ==> (va + (done + c)) % 4096 == 0)
      && (done + c == count ==> BatchesFrom(va, count, done) == 1)
  {
    var c := BatchBytes(va + done, count - done);
    RestCountable(va, count, done);
    CountStep(va + done, count - done);
    assert va + done + c == va + (done + c) && count - done - c == count - (done + c);
  }

  /** From `at(i)` a turn leads to `at(i + 1)`, with one fewer left. */
  ghost predicate Advances(at: nat -> nat, left: nat -> nat, goal: nat, i: nat) {
    if at(i) == goal then left(goal) == 0 else left(at(i)) == 1 + left(at(i + 1))
  }

  lemma {:induction false} Countdown(at: nat -> nat, left: nat -> nat, goal: nat, i: nat)
    requires forall j: nat :: Advances(at, left, goal, j)
    ensures at(i + left(at(i))) == goal
    decreases left(at(i))
  {
    assert Advances(at, left, goal, i);
    if at(i) != goal {
      Countdown(at, left, goal, i + 1);
    }
  }

  lemma OffsetStep(va: nat, count: nat, i: nat)
    ensures
      var o := OffsetAfter(va, count, i);
      OffsetAfter(va, count, i + 1) == o + BatchBytes(va + o, count - o)
  {
  }

  lemma StepTo(va: nat, count: nat, o: nat, next: nat)
    requires Countable(va, count) && o < count && next == o + BatchBytes(va + o, count - o)
    ensures BatchesFrom(va, count, o) == 1 + BatchesFrom(va, count, next)
  {
    OneBatchLess(va, count, o);
  }

  lemma TurnAdvances(va: nat, count: nat, i: nat)
    requires Countable(va, count)
    ensures
      var o := OffsetAfter(va, count, i);
      if o == count then BatchesFrom(va, count, count) == 0
      else BatchesFrom(va, count, o) == 1 + BatchesFrom(va, count, OffsetAfter(va, count, i + 1))
  {
    var o := OffsetAfter(va, count, i);
    if o < count {
      OffsetStep(va, count, i);
      StepTo(va, count, o, OffsetAfter(va, count, i + 1));
    }
  }

  /** The loop is through after exactly as many turns as there are batches. */
  lemma LoopEnds(va: nat, count: nat)
    requires Countable(va, count)
    ensures OffsetAfter(va, count, BatchesFrom(va, count, 0)) == count
  {
    var at: nat -> nat := (i: nat) => OffsetAfter(va, count, i);
    var left: nat -> nat := (o: nat) => if o <= count then BatchesFrom(va, count, o) else 0;
    forall i: nat ensures Advances(at, left, count, i) {
      TurnAdvances(va, count, i);
    }
    Countdown(at, left, count, 0);
    assert at(0) == 0;
  }

  /** Without errors the loop over a range that does not itself wrap ends exactly for countable
      ranges and for those that start inside a page (which get one batch without a page). */
  lemma LoopEndsIff(va: nat, count: nat)
    requires count < U64 && va + count <= U64
    ensures (exists turns :: OffsetAfter(va, count, turns) == count) <==> Countable(va, count) || va % 4096 != 0
  {
    if Countable(va, count) {
      LoopEnds(va, count);
    } else if va % 4096 == 0 {
      forall turns ensures OffsetAfter(va, count, turns) != count {
        LoopIsStuck(va, count, turns);
      }
    } else {
      NoPagesIff(va, count);
      assert Wrap64(U64 - va % 4096) == U64 - va % 4096 >= count;
      assert OffsetAfter(va, count, 1) == count;
    }
  }

  lemma PagesSplit(r: nat)
    requires r > 0
    ensures DivRoundUp(512 * 4096 + r, 4096) == 512 + DivRoundUp(r, 4096)
    ensures DivRoundUp(512 + DivRoundUp(r, 4096), 512) == 1 + DivRoundUp(DivRoundUp(r, 4096), 512)
  {
  }
}
