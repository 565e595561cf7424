/** The tiled matrix product against the naive one (sample/matrixMul.cu:29-78, 192-216).

    Addition and multiplication are any two functions on numbers, rounding included; the
    only law used is that adding zero times zero changes nothing.  Threads of all blocks take their
    steps in any order that the two barriers of each block allow. */
module MatMul {

  datatype Arith = Arith(zero: real, add: (real, real) -> real, mul: (real, real) -> real)

  ghost predicate ZeroTermLaw(ar: Arith) {
    forall x :: ar.add(x, ar.mul(ar.zero, ar.zero)) == x
  }

  /** C = A * B with A of M x K and B of K x N elements, row by row. */
  datatype Problem = Problem(ar: Arith, A: seq<real>, B: seq<real>, M: nat, K: nat, N: nat)

  predicate Sound(p: Problem) {
    |p.A| == RowStart(p.M, p.K) && |p.B| == RowStart(p.K, p.N)
  }

  /** Start of row `r` in a matrix with rows of `width` elements. */
  function RowStart(r: nat, width: nat): nat {
    if r == 0 then 0 else RowStart(r - 1, width) + width
  }

  lemma {:induction false} RowStartIsProduct(r: nat, width: nat)
    ensures RowStart(r, width) == r * width
    decreases r
  {
    if r > 0 {
      RowStartIsProduct(r - 1, width);
      assert r * width == (r - 1) * width + width;
    }
  }

  lemma {:induction false} RowsInOrder(r: nat, r': nat, width: nat)
    requires r < r'
    ensures RowStart(r, width) + width <= RowStart(r', width)
    decreases r'
  {
    if r + 1 < r' {
      RowsInOrder(r, r' - 1, width);
    }
  }

  function Index(r: nat, c: nat, rows: nat, width: nat): (i: nat)
    requires r < rows && c < width
    ensures i < RowStart(rows, width)
  {
    RowsInOrder(r, rows, width);
    RowStart(r, width) + c
  }

  lemma IndexInjective(r: nat, c: nat, r': nat, c': nat, rows: nat, width: nat)
    requires r < rows && r' < rows && c < width && c' < width && Index(r, c, rows, width) == Index(r', c', rows, width)
    ensures r == r' && c == c'
  {
    if r < r' {
      RowsInOrder(r, r', width);
    } else if r' < r {
      RowsInOrder(r', r, width);
    }
  }

  /** What the tiles hold: elements inside the matrices, zero outside. */
  function PadA(p: Problem, row: nat, k: nat): real
    requires Sound(p)
  {
    if row < p.M && k < p.K then p.A[Index(row, k, p.M, p.K)] else p.ar.zero
  }

  function PadB(p: Problem, k: nat, col: nat): real
    requires Sound(p)
  {
    if k < p.K && col < p.N then p.B[Index(k, col, p.K, p.N)] else p.ar.zero
  }

  /** The running sum after `n` terms, in the order of the loops. */
  function Partial(p: Problem, row: nat, col: nat, n: nat): real
    requires Sound(p)
  {
    if n == 0 then p.ar.zero
    else p.ar.add(Partial(p, row, col, n - 1), p.ar.mul(PadA(p, row, n - 1), PadB(p, n - 1, col)))
  }

  /** The element that the naive kernel computes. */
  function Dot(p: Problem, row: nat, col: nat): real
    requires Sound(p)
  {
    Partial(p, row, col, p.K)
  }

  /** The terms beyond K add nothing. */
  lemma {:induction false} PaddingAddsNothing(p: Problem, row: nat, col: nat, n: nat)
    requires Sound(p) && ZeroTermLaw(p.ar) && n >= p.K
    ensures Partial(p, row, col, n) == Dot(p, row, col)
    decreases n
  {
    if n > p.K {
      PaddingAddsNothing(p, row, col, n - 1);
    }
  }

  /* ---- the product over the arrays themselves ---- */

  /** A sequence element; outside the sequence some value that no result depends on. */
  function At(s: seq<real>, i: int): real {
    if 0 <= i < |s| then s[i] else 0.5
  }

  /** The terms of one element of the product, in the order of k. */
  function Terms(p: Problem, row: nat, col: nat, n: nat): (t: seq<real>)
    ensures |t| == n
  {
    seq(n, k requires 0 <= k < n => p.ar.mul(At(p.A, row * p.K + k), At(p.B, k * p.N + col)))
  }

  /** Adding terms to `x` from the left. */
  function FoldLeft(ar: Arith, x: real, terms: seq<real>): real
    decreases |terms|
  {
    if terms == [] then x else FoldLeft(ar, ar.add(x, terms[0]), terms[1..])
  }

  lemma {:induction false} FoldSnoc(ar: Arith, x: real, terms: seq<real>, last: real)
    ensures FoldLeft(ar, x, terms + [last]) == ar.add(FoldLeft(ar, x, terms), last)
    decreases |terms|
  {
    if terms == [] {
      assert terms + [last] == [last] && [last][1..] == [];
    } else {
      assert (terms + [last])[1..] == terms[1..] + [last];
      FoldSnoc(ar, ar.add(x, terms[0]), terms[1..], last);
    }
  }

  /** Element (row, k) of a row-major matrix is where the kernels look for it, inside the array. */
  lemma ElementAt(m: seq<real>, r: nat, c: nat, rows: nat, width: nat)
    requires |m| == rows * width && r < rows && c < width
    ensures r * width + c < |m| && RowStart(rows, width) == |m| && Index(r, c, rows, width) == r * width + c
    ensures At(m, r * width + c) == m[Index(r, c, rows, width)]
  {
    RowStartIsProduct(rows, width);
    RowStartIsProduct(r, width);
    RowsInOrder(r, rows, width);
  }

  lemma {:induction false} PartialIsFold(p: Problem, row: nat, col: nat, n: nat)
    requires Sound(p) && row < p.M && col < p.N && n <= p.K
    ensures Partial(p, row, col, n) == FoldLeft(p.ar, p.ar.zero, Terms(p, row, col, n))
    decreases n
  {
    if n > 0 {
      PartialIsFold(p, row, col, n - 1);
      RowStartIsProduct(p.M, p.K);
      RowStartIsProduct(p.K, p.N);
      ElementAt(p.A, row, n - 1, p.M, p.K);
      ElementAt(p.B, n - 1, col, p.K, p.N);
      var terms := Terms(p, row, col, n - 1);
      var last := p.ar.mul(At(p.A, row * p.K + (n - 1)), At(p.B, (n - 1) * p.N + col));
      assert Terms(p, row, col, n) == terms + [last];
      FoldSnoc(p.ar, p.ar.zero, terms, last);
    }
  }

  /** The kernels read inside the arrays. */
  ghost predicate ReadsInside(p: Problem, row: nat, col: nat) {
    forall k | 0 <= k < p.K :: row * p.K + k < |p.A| && k * p.N + col < |p.B|
  }

  /** `c` holds the product at this element: the fold over k of A[row * K + k] * B[k * N + col]. */
  ghost predicate HasProduct(p: Problem, c: seq<real>, row: nat, col: nat) {
    && ReadsInside(p, row, col) && row * p.N + col < |c|
    && c[row * p.N + col] == FoldLeft(p.ar, p.ar.zero, Terms(p, row, col, p.K))
  }

  lemma KernelsReadInside(p: Problem, row: nat, col: nat)
    requires Sound(p) && row < p.M && col < p.N
    ensures ReadsInside(p, row, col)
  {
    RowStartIsProduct(p.M, p.K);
    RowStartIsProduct(p.K, p.N);
    forall k | 0 <= k < p.K ensures row * p.K + k < |p.A| && k * p.N + col < |p.B| {
      ElementAt(p.A, row, k, p.M, p.K);
      ElementAt(p.B, k, col, p.K, p.N);
    }
  }

  lemma DotIsProduct(p: Problem, c: seq<real>, row: nat, col: nat)
    requires Sound(p) && |c| == RowStart(p.M, p.N) && row < p.M && col < p.N
    requires c[Index(row, col, p.M, p.N)] == Dot(p, row, col)
    ensures HasProduct(p, c, row, col)
  {
    KernelsReadInside(p, row, col);
    PartialIsFold(p, row, col, p.K);
    var i := Index(row, col, p.M, p.N);
    IndexIsProduct(row, col, p.M, p.N, i);
  }

  lemma IndexIsProduct(r: nat, c: nat, rows: nat, width: nat, i: nat)
    requires r < rows && c < width && i == Index(r, c, rows, width)
    ensures i == r * width + c
  {
    RowStartIsProduct(r, width);
  }

  /** What one thread of the naive kernel does to C. */
  function NaiveStep(p: Problem, c: seq<real>, row: nat, col: nat): (r: seq<real>)
    requires Sound(p) && |c| == RowStart(p.M, p.N)
    ensures |r| == |c|
  {
    if row < p.M && col < p.N then c[Index(row, col, p.M, p.N) := Dot(p, row, col)] else c
  }

  method NaiveThread(p: Problem, c: array<real>, row: nat, col: nat)
    requires Sound(p) && c.Length == RowStart(p.M, p.N)
    modifies c
    ensures c[..] == NaiveStep(p, old(c[..]), row, col)
    ensures row < p.M && col < p.N ==> HasProduct(p, c[..], row, col)
    ensures forall i | 0 <= i < c.Length && !(row < p.M && col < p.N && i == row * p.N + col) :: c[i] == old(c[i])
  {
    if row < p.M && col < p.N {
      var sum := p.ar.zero;
      for k := 0 to p.K
        invariant sum == Partial(p, row, col, k)
      {
        sum := p.ar.add(sum, p.ar.mul(p.A[Index(row, k, p.M, p.K)], p.B[Index(k, col, p.K, p.N)]));
      }
      c[Index(row, col, p.M, p.N)] := sum;
      RowStartIsProduct(row, p.N);
      DotIsProduct(p, c[..], row, col);
    }
  }

  /** A naive thread by its position in the grid. */
  datatype Pos = Pos(row: nat, col: nat)

  function NaiveRun(p: Problem, c: seq<real>, order: seq<Pos>): (r: seq<real>)
    requires Sound(p) && |c| == RowStart(p.M, p.N)
    ensures |r| == |c|
    decreases |order|
  {
    if order == [] then c
    else
      var n := |order| - 1;
      NaiveStep(p, NaiveRun(p, c, order[..n]), order[n].row, order[n].col)
  }

  /** Naive threads do not meet: in any order, whoever has run has left its element in place. */
  lemma {:induction false} NaiveElement(p: Problem, c: seq<real>, order: seq<Pos>, row: nat, col: nat)
    requires Sound(p) && |c| == RowStart(p.M, p.N) && row < p.M && col < p.N && Pos(row, col) in order
    ensures NaiveRun(p, c, order)[Index(row, col, p.M, p.N)] == Dot(p, row, col)
    ensures HasProduct(p, NaiveRun(p, c, order), row, col)
    decreases |order|
  {
    var n := |order| - 1;
    var last := order[n];
    assert order == order[..n] + [last];
    if last != Pos(row, col) {
      NaiveElement(p, c, order[..n], row, col);
      if last.row < p.M && last.col < p.N && Index(last.row, last.col, p.M, p.N) == Index(row, col, p.M, p.N) {
        IndexInjective(last.row, last.col, row, col, p.M, p.N);
      }
    }
    DotIsProduct(p, NaiveRun(p, c, order), row, col);
  }

  /** The naive launch: blocks of 16 by 16 threads, enough to cover C. */
  predicate InNaiveGrid(p: Problem, t: Pos) {
    t.row < (p.M + 15) / 16 * 16 && t.col < (p.N + 15) / 16 * 16
  }

  lemma NaiveGridCovers(p: Problem, row: nat, col: nat)
    requires row < p.M && col < p.N
    ensures InNaiveGrid(p, Pos(row, col))
  {
  }

  lemma {:induction false} IndexCovers(i: nat, rows: nat, width: nat) returns (r: nat, c: nat)
    requires i < RowStart(rows, width)
    ensures r < rows && c < width && i == Index(r, c, rows, width)
    decreases rows
  {
    if i >= RowStart(rows - 1, width) {
      r, c := rows - 1, i - RowStart(rows - 1, width);
    } else {
      r, c := IndexCovers(i, rows - 1, width);
    }
  }

  /* ---- the tiled kernel as a step relation ---- */

  /** A thread of the grid: block row and column, and row and column inside the block. */
  datatype Tid = Tid(brow: nat, bcol: nat, ty: nat, tx: nat)

  datatype Stage = LoadA | LoadB | Barrier1 | Compute(k: nat) | Barrier2 | Store | Done

  /** Tile number, place in the loop body, and running sum. */
  datatype Thread = Thread(m: nat, stage: Stage, sum: real)

  /** Every thread owns one cell of each shared tile of its block. */
  datatype State = State(threads: map<Tid, Thread>, tileA: map<Tid, real>, tileB: map<Tid, real>, C: seq<real>,
                         writes: seq<nat>)

  /** Blocks of 32 rows or columns. */
  function Blocks(n: nat): nat {
    (n + 31) / 32
  }

  /** As many as are needed. */
  lemma BlocksAreTight(n: nat)
    ensures n <= Blocks(n) * 32 && (Blocks(n) > 0 ==> (Blocks(n) - 1) * 32 < n)
  {
  }

  function Tiles(p: Problem): nat {
    Blocks(p.K)
  }

  predicate InGrid(p: Problem, t: Tid) {
    t.brow < Blocks(p.M) && t.bcol < Blocks(p.N) && t.ty < 32 && t.tx < 32
  }

  function Row(t: Tid): nat {
    t.brow * 32 + t.ty
  }

  function Col(t: Tid): nat {
    t.bcol * 32 + t.tx
  }

  predicate SameBlock(t: Tid, u: Tid) {
    t.brow == u.brow && t.bcol == u.bcol
  }

  predicate Writes(p: Problem, t: Tid) {
    Row(t) < p.M && Col(t) < p.N
  }

  function CellOf(p: Problem, t: Tid): nat
    requires Writes(p, t)
  {
    Index(Row(t), Col(t), p.M, p.N)
  }

  /** Where in the tile of `t`'s block the thread reads at step `k`. */
  function LeftOf(t: Tid, k: nat): Tid {
    Tid(t.brow, t.bcol, t.ty, k)
  }

  function Above(t: Tid, k: nat): Tid {
    Tid(t.brow, t.bcol, k, t.tx)
  }

  /** Barriers passed so far: two per tile. */
  function Passed(th: Thread): nat {
    2 * th.m + if th.stage.Compute? || th.stage == Barrier2 then 1 else 0
  }

  predicate Arrived(th: Thread) {
    th.stage == Barrier1 || th.stage == Barrier2
  }

  /** A shape that every reachable state has. */
  ghost predicate Typed(p: Problem, s: State) {
    && Sound(p) && |s.C| == |s.writes| == RowStart(p.M, p.N)
    && forall t | InGrid(p, t) :: t in s.threads && t in s.tileA && t in s.tileB
  }

  /** A barrier opens when every thread of the block has arrived at it, or is already through. */
  ghost predicate Opens(p: Problem, s: State, t: Tid)
    requires Typed(p, s) && InGrid(p, t)
  {
    forall u | InGrid(p, u) && SameBlock(t, u) ::
      Passed(s.threads[u]) > Passed(s.threads[t])
        || (Passed(s.threads[u]) == Passed(s.threads[t]) && Arrived(s.threads[u]))
  }

  ghost predicate Enabled(p: Problem, s: State, t: Tid) {
    && Typed(p, s) && InGrid(p, t) && s.threads[t].stage != Done
    && (s.threads[t].stage.Compute? ==> s.threads[t].stage.k < 32)
    && (Arrived(s.threads[t]) ==> Opens(p, s, t))
  }

  /** Where the next tile starts. */
  function StartTile(p: Problem, m: nat, sum: real): Thread {
    Thread(m, if m < Tiles(p) then LoadA else Store, sum)
  }

  ghost function Next(p: Problem, s: State, t: Tid): State
    requires Enabled(p, s, t)
  {
    var th := s.threads[t];
    match th.stage
    case LoadA =>
      s.(tileA := s.tileA[t := PadA(p, Row(t), th.m * 32 + t.tx)], threads := s.threads[t := th.(stage := LoadB)])
    case LoadB =>
      s.(tileB := s.tileB[t := PadB(p, th.m * 32 + t.ty, Col(t))], threads := s.threads[t := th.(stage := Barrier1)])
    case Barrier1 => s.(threads := s.threads[t := th.(stage := Compute(0))])
    case Compute(k) =>
      var sum := p.ar.add(th.sum, p.ar.mul(s.tileA[LeftOf(t, k)], s.tileB[Above(t, k)]));
      s.(threads := s.threads[t := th.(stage := if k + 1 < 32 then Compute(k + 1) else Barrier2, sum := sum)])
    case Barrier2 => s.(threads := s.threads[t := StartTile(p, th.m + 1, th.sum)])
    case Store =>
      if Writes(p, t) then
        var i := CellOf(p, t);
        s.(C := s.C[i := th.sum], writes := s.writes[i := s.writes[i] + 1],
          threads := s.threads[t := th.(stage := Done)])
      else s.(threads := s.threads[t := th.(stage := Done)])
    case Done => s
  }

  /** All threads at the top of the kernel; whatever the tiles and C hold. */
  ghost predicate Start(p: Problem, s: State) {
    && Typed(p, s) && (forall i | 0 <= i < |s.writes| :: s.writes[i] == 0)
    && forall t | InGrid(p, t) :: s.threads[t] == StartTile(p, 0, p.ar.zero)
  }

  /* ---- the invariant ---- */

  /** Terms added so far. */
  function Added(th: Thread): nat {
    match th.stage
    case Compute(k) => th.m * 32 + k
    case Barrier2 => th.m * 32 + 32
    case _ => th.m * 32
  }

  predicate HasA(stage: Stage) {
    stage == LoadB || stage == Barrier1 || stage.Compute? || stage == Barrier2
  }

  predicate HasB(stage: Stage) {
    stage == Barrier1 || stage.Compute? || stage == Barrier2
  }

  /** What a thread knows of itself. */
  ghost predicate Local(p: Problem, s: State, t: Tid)
    requires Typed(p, s) && InGrid(p, t)
  {
    var th := s.threads[t];
    && th.sum == Partial(p, Row(t), Col(t), Added(th))
    && (if th.stage == Store || th.stage == Done then th.m == Tiles(p) else th.m < Tiles(p))
    && (th.stage.Compute? ==> th.stage.k < 32)
    && (HasA(th.stage) ==> s.tileA[t] == PadA(p, Row(t), th.m * 32 + t.tx))
    && (HasB(th.stage) ==> s.tileB[t] == PadB(p, th.m * 32 + t.ty, Col(t)))
  }

  /** The element of a thread that owns one: written once it is done, never before. */
  ghost predicate Cell(p: Problem, s: State, t: Tid)
    requires Typed(p, s) && InGrid(p, t) && Writes(p, t)
  {
    var i := CellOf(p, t);
    if s.threads[t].stage == Done then s.writes[i] == 1 && s.C[i] == Partial(p, Row(t), Col(t), Tiles(p) * 32)
    else s.writes[i] == 0
  }

  /** Threads of a block are never more than one barrier apart, and the one behind has arrived at it. */
  ghost predicate Near(t: Thread, u: Thread) {
    Passed(u) <= Passed(t) + 1 && (Passed(u) == Passed(t) + 1 ==> Arrived(t))
  }

  ghost predicate Inv(p: Problem, s: State) {
    && Typed(p, s)
    && (forall t | InGrid(p, t) :: Local(p, s, t))
    && (forall t | InGrid(p, t) && Writes(p, t) :: Cell(p, s, t))
    && (forall t, u | InGrid(p, t) && InGrid(p, u) && SameBlock(t, u) :: Near(s.threads[t], s.threads[u]))
  }

  lemma StartHasInv(p: Problem, s: State)
    requires Start(p, s)
    ensures Inv(p, s)
  {
    forall t | InGrid(p, t) ensures Local(p, s, t) {
      assert s.threads[t] == StartTile(p, 0, p.ar.zero);
    }
    forall t | InGrid(p, t) && Writes(p, t) ensures Cell(p, s, t) {
      assert s.threads[t] == StartTile(p, 0, p.ar.zero);
    }
    forall t, u | InGrid(p, t) && InGrid(p, u) && SameBlock(t, u) ensures Near(s.threads[t], s.threads[u]) {
      assert s.threads[t] == StartTile(p, 0, p.ar.zero) == s.threads[u];
    }
  }

  /** While a thread computes, no thread of its block is before the first barrier of the same
      tile or behind the second. */
  lemma SameTile(t: Thread, u: Thread)
    requires t.stage.Compute? && Near(t, u) && Near(u, t)
    ensures u.m == t.m && HasB(u.stage)
  {
    assert !Arrived(t);
    assert Passed(t) - 1 <= Passed(u) <= Passed(t);
  }

  /** So its tile cell is loaded. */
  lemma TileReady(p: Problem, s: State, t: Tid, u: Tid)
    requires Inv(p, s) && InGrid(p, t) && InGrid(p, u) && SameBlock(t, u) && s.threads[t].stage.Compute?
    ensures s.tileA[u] == PadA(p, Row(u), s.threads[t].m * 32 + u.tx)
    ensures s.tileB[u] == PadB(p, s.threads[t].m * 32 + u.ty, Col(u))
  {
    SameTile(s.threads[t], s.threads[u]);
    assert Local(p, s, u);
  }

  /** With its tiles loaded, a thread adds the naive kernel's next term. */
  lemma NextTerm(p: Problem, s: State, t: Tid, k: nat)
    requires Typed(p, s) && InGrid(p, t) && Local(p, s, t) && s.threads[t].stage == Compute(k)
    requires InGrid(p, LeftOf(t, k)) && s.tileA[LeftOf(t, k)] == PadA(p, Row(t), s.threads[t].m * 32 + k)
    requires InGrid(p, Above(t, k)) && s.tileB[Above(t, k)] == PadB(p, s.threads[t].m * 32 + k, Col(t))
    ensures
      var th := s.threads[t];
      p.ar.add(th.sum, p.ar.mul(s.tileA[LeftOf(t, k)], s.tileB[Above(t, k)]))
        == Partial(p, Row(t), Col(t), th.m * 32 + (k + 1))
  {
    var n := s.threads[t].m * 32 + k;
    assert s.threads[t].sum == Partial(p, Row(t), Col(t), n);
    assert n + 1 == s.threads[t].m * 32 + (k + 1);
  }

  lemma BlockTilesReady(p: Problem, s: State, t: Tid, k: nat)
    requires Inv(p, s) && InGrid(p, t) && s.threads[t].stage.Compute? && k < 32
    ensures Local(p, s, t) && InGrid(p, LeftOf(t, k)) && InGrid(p, Above(t, k))
    ensures s.tileA[LeftOf(t, k)] == PadA(p, Row(t), s.threads[t].m * 32 + k)
    ensures s.tileB[Above(t, k)] == PadB(p, s.threads[t].m * 32 + k, Col(t))
  {
    assert SameBlock(t, LeftOf(t, k)) && SameBlock(t, Above(t, k));
    TileReady(p, s, t, LeftOf(t, k));
    TileReady(p, s, t, Above(t, k));
  }

  lemma ComputeKeepsLocal(p: Problem, s: State, t: Tid, k: nat)
    requires Enabled(p, s, t) && Local(p, s, t) && s.threads[t].stage == Compute(k)
    requires InGrid(p, LeftOf(t, k)) && s.tileA[LeftOf(t, k)] == PadA(p, Row(t), s.threads[t].m * 32 + k)
    requires InGrid(p, Above(t, k)) && s.tileB[Above(t, k)] == PadB(p, s.threads[t].m * 32 + k, Col(t))
    ensures Typed(p, Next(p, s, t)) && Local(p, Next(p, s, t), t)
  {
    NextTerm(p, s, t, k);
  }

  lemma LoadKeepsLocal(p: Problem, s: State, t: Tid)
    requires Enabled(p, s, t) && Local(p, s, t) && (s.threads[t].stage == LoadA || s.threads[t].stage == LoadB)
    ensures Typed(p, Next(p, s, t)) && Local(p, Next(p, s, t), t)
  {
  }

  lemma PassingKeepsLocal(p: Problem, s: State, t: Tid)
    requires Enabled(p, s, t) && Local(p, s, t) && (Arrived(s.threads[t]) || s.threads[t].stage == Store)
    ensures Typed(p, Next(p, s, t)) && Local(p, Next(p, s, t), t)
  {
  }

  /** The step of the mover: it adds the next term, loads its cell, or moves on. */
  lemma MoverKeepsLocal(p: Problem, s: State, t: Tid)
    requires Inv(p, s) && Enabled(p, s, t)
    ensures Typed(p, Next(p, s, t)) && Local(p, Next(p, s, t), t)
  {
    if s.threads[t].stage.Compute? {
      var k := s.threads[t].stage.k;
      BlockTilesReady(p, s, t, k);
      ComputeKeepsLocal(p, s, t, k);
    } else if s.threads[t].stage == LoadA || s.threads[t].stage == LoadB {
      LoadKeepsLocal(p, s, t);
    } else {
      PassingKeepsLocal(p, s, t);
    }
  }

  /** A step touches no cell of another thread. */
  lemma Untouched(p: Problem, s: State, t: Tid, u: Tid)
    requires Enabled(p, s, t) && InGrid(p, u) && u != t
    ensures
      var r := Next(p, s, t);
      && u in r.threads && u in r.tileA && u in r.tileB
      && r.threads[u] == s.threads[u] && r.tileA[u] == s.tileA[u] && r.tileB[u] == s.tileB[u]
  {
  }

  lemma OthersKeepLocal(p: Problem, s: State, r: State, u: Tid)
    requires Typed(p, s) && Typed(p, r) && InGrid(p, u) && Local(p, s, u)
    requires r.threads[u] == s.threads[u] && r.tileA[u] == s.tileA[u] && r.tileB[u] == s.tileB[u]
    ensures Local(p, r, u)
  {
  }

  /** Elements have one owner each. */
  lemma OneOwner(p: Problem, t: Tid, u: Tid)
    requires InGrid(p, t) && InGrid(p, u) && Writes(p, t) && Writes(p, u)
    requires CellOf(p, t) == CellOf(p, u)
    ensures t == u
  {
    IndexInjective(Row(t), Col(t), Row(u), Col(u), p.M, p.N);
  }

  lemma StepKeepsCell(p: Problem, s: State, t: Tid, u: Tid)
    requires Inv(p, s) && Enabled(p, s, t) && InGrid(p, u) && Writes(p, u) && Typed(p, Next(p, s, t))
    ensures Cell(p, Next(p, s, t), u)
  {
    assert Cell(p, s, u) && Local(p, s, t);
    if s.threads[t].stage == Store && Writes(p, t) {
      if CellOf(p, t) == CellOf(p, u) {
        OneOwner(p, t, u);
      }
    }
  }

  lemma StepKeepsNear(p: Problem, s: State, t: Tid, u: Tid)
    requires Inv(p, s) && Enabled(p, s, t) && InGrid(p, u) && SameBlock(t, u)
    ensures Near(Next(p, s, t).threads[t], Next(p, s, t).threads[u])
      && Near(Next(p, s, t).threads[u], Next(p, s, t).threads[t])
  {
    assert Near(s.threads[t], s.threads[u]) && Near(s.threads[u], s.threads[t]);
    assert Local(p, s, t) && Local(p, s, u);
  }

  /** Every step of every thread keeps the invariant. */
  lemma StepKeepsInv(p: Problem, s: State, t: Tid)
    requires Inv(p, s) && Enabled(p, s, t)
    ensures Inv(p, Next(p, s, t))
  {
    var r := Next(p, s, t);
    MoverKeepsLocal(p, s, t);
    forall u | InGrid(p, u) ensures Local(p, r, u) {
      if u != t {
        Untouched(p, s, t, u);
        OthersKeepLocal(p, s, r, u);
      }
    }
    forall u | InGrid(p, u) && Writes(p, u) ensures Cell(p, r, u) {
      StepKeepsCell(p, s, t, u);
    }
    forall u, v | InGrid(p, u) && InGrid(p, v) && SameBlock(u, v) ensures Near(r.threads[u], r.threads[v]) {
      if u == t {
        StepKeepsNear(p, s, t, v);
      } else if v == t {
        StepKeepsNear(p, s, t, u);
      } else {
        assert Near(s.threads[u], s.threads[v]);
      }
    }
  }

  ghost predicate Legal(p: Problem, s: State, order: seq<Tid>)
    decreases |order|
  {
    order == [] || (Enabled(p, s, order[0]) && Legal(p, Next(p, s, order[0]), order[1..]))
  }

  ghost function Run(p: Problem, s: State, order: seq<Tid>): State
    requires Legal(p, s, order)
    decreases |order|
  {
    if order == [] then s else Run(p, Next(p, s, order[0]), order[1..])
  }

  lemma {:induction false} RunKeepsInv(p: Problem, s: State, order: seq<Tid>)
    requires Inv(p, s) && Legal(p, s, order)
    ensures Inv(p, Run(p, s, order))
    decreases |order|
  {
    if order != [] {
      StepKeepsInv(p, s, order[0]);
      RunKeepsInv(p, Next(p, s, order[0]), order[1..]);
    }
  }

  ghost predicate AllDone(p: Problem, s: State) {
    forall t | InGrid(p, t) :: t in s.threads && s.threads[t].stage == Done
  }

  /** The thread that owns an element. */
  function Owner(row: nat, col: nat): Tid {
    Tid(row / 32, col / 32, row % 32, col % 32)
  }

  lemma OwnerInGrid(p: Problem, row: nat, col: nat)
    requires row < p.M && col < p.N
    ensures InGrid(p, Owner(row, col)) && Row(Owner(row, col)) == row && Col(Owner(row, col)) == col
  {
  }

  /** When all threads are done, each element is as its owner left it. */
  lemma DoneElement(p: Problem, r: State, row: nat, col: nat)
    requires Inv(p, r) && AllDone(p, r) && ZeroTermLaw(p.ar) && row < p.M && col < p.N
    ensures
      var i := Index(row, col, p.M, p.N);
      |r.C| == |r.writes| == RowStart(p.M, p.N) && r.C[i] == Dot(p, row, col) && r.writes[i] == 1
  {
    var t := Owner(row, col);
    OwnerInGrid(p, row, col);
    assert Cell(p, r, t);
    PaddingAddsNothing(p, row, col, Tiles(p) * 32);
  }

  lemma DoneIsProduct(p: Problem, r: State, row: nat, col: nat)
    requires Inv(p, r) && AllDone(p, r) && ZeroTermLaw(p.ar) && row < p.M && col < p.N
    ensures row * p.N + col < |r.writes| && r.writes[row * p.N + col] == 1 && HasProduct(p, r.C, row, col)
  {
    DoneElement(p, r, row, col);
    DotIsProduct(p, r.C, row, col);
    IndexIsProduct(row, col, p.M, p.N, Index(row, col, p.M, p.N));
  }

  /** Every interleaving that ends leaves the product in C, for all sizes, and the grid has
      written every element exactly once. */
  lemma TiledEqualsNaive(p: Problem, s: State, order: seq<Tid>, row: nat, col: nat)
    requires Start(p, s) && Legal(p, s, order) && ZeroTermLaw(p.ar)
    requires AllDone(p, Run(p, s, order)) && row < p.M && col < p.N
    ensures
      var r := Run(p, s, order);
      && |r.C| == |r.writes| == RowStart(p.M, p.N) && r.C[Index(row, col, p.M, p.N)] == Dot(p, row, col)
      && row * p.N + col < |r.writes| && r.writes[row * p.N + col] == 1 && HasProduct(p, r.C, row, col)
  {
    StartHasInv(p, s);
    RunKeepsInv(p, s, order);
    DoneElement(p, Run(p, s, order), row, col);
    DoneIsProduct(p, Run(p, s, order), row, col);
  }

  /** Every interleaving of the tiled grid and every order of the naive grid end with the same C. */
  lemma SameProduct(p: Problem, s: State, order: seq<Tid>, c: seq<real>, naive: seq<Pos>)
    requires Start(p, s) && Legal(p, s, order) && ZeroTermLaw(p.ar)
    requires AllDone(p, Run(p, s, order))
    requires |c| == RowStart(p.M, p.N) && forall t: Pos | InNaiveGrid(p, t) :: t in naive
    ensures Run(p, s, order).C == NaiveRun(p, c, naive) && |c| == p.M * p.N
    ensures forall row, col | 0 <= row < p.M && 0 <= col < p.N :: HasProduct(p, Run(p, s, order).C, row, col)
  {
    var r, n := Run(p, s, order), NaiveRun(p, c, naive);
    StartHasInv(p, s);
    RunKeepsInv(p, s, order);
    forall i | 0 <= i < |n| ensures r.C[i] == n[i] {
      var row, col := IndexCovers(i, p.M, p.N);
      TiledEqualsNaive(p, s, order, row, col);
      NaiveGridCovers(p, row, col);
      NaiveElement(p, c, naive, row, col);
    }
    forall row, col | 0 <= row < p.M && 0 <= col < p.N ensures HasProduct(p, r.C, row, col) {
      TiledEqualsNaive(p, s, order, row, col);
    }
    RowStartIsProduct(p.M, p.N);
  }

  /** The barriers never block for good: while a thread is not done, some thread of its block can step. */
  lemma SomeThreadCanStep(p: Problem, s: State, t: Tid)
    requires Inv(p, s) && InGrid(p, t) && s.threads[t].stage != Done
    ensures exists u :: SameBlock(t, u) && Enabled(p, s, u)
  {
    assert SameBlock(t, t) && Local(p, s, t);
    if Enabled(p, s, t) {
    } else {
      var u :| InGrid(p, u) && SameBlock(t, u) && Passed(s.threads[u]) <= Passed(s.threads[t])
               && !(Passed(s.threads[u]) == Passed(s.threads[t]) && Arrived(s.threads[u]));
      assert Local(p, s, u) && Near(s.threads[u], s.threads[t]);
      if Passed(s.threads[u]) < Passed(s.threads[t]) {
        forall v | InGrid(p, v) && SameBlock(u, v)
          ensures Passed(s.threads[v]) > Passed(s.threads[u])
            || (Passed(s.threads[v]) == Passed(s.threads[u]) && Arrived(s.threads[v]))
        {
          assert SameBlock(v, t) && Near(s.threads[v], s.threads[t]);
        }
      }
      assert Enabled(p, s, u);
    }
  }

  /* ---- every interleaving ends ---- */

  ghost function Sum(w: Tid -> nat, ts: set<Tid>): nat {
    if ts == {} then 0 else var t :| t in ts; w(t) + Sum(w, ts - {t})
  }

  /** Any element can be taken out first. */
  lemma {:induction false} SumTake(w: Tid -> nat, ts: set<Tid>, t: Tid)
    requires t in ts
    ensures Sum(w, ts) == w(t) + Sum(w, ts - {t})
    decreases |ts|
  {
    var u :| u in ts && Sum(w, ts) == w(u) + Sum(w, ts - {u});
    if u != t {
      SumTake(w, ts - {u}, t);
      SumTake(w, ts - {t}, u);
      assert ts - {u} - {t} == ts - {t} - {u};
    }
  }

  lemma {:induction false} SumAgree(w: Tid -> nat, w': Tid -> nat, ts: set<Tid>)
    requires forall t | t in ts :: w(t) == w'(t)
    ensures Sum(w, ts) == Sum(w', ts)
    decreases |ts|
  {
    if ts != {} {
      var t :| t in ts;
      SumTake(w, ts, t);
      SumTake(w', ts, t);
      SumAgree(w, w', ts - {t});
    }
  }

  lemma {:induction false} SumBounded(w: Tid -> nat, ts: set<Tid>, most: nat)
    requires forall t | t in ts :: w(t) == most
    ensures Sum(w, ts) == |ts| * most
    decreases |ts|
  {
    if ts != {} {
      var t :| t in ts;
      SumTake(w, ts, t);
      SumBounded(w, ts - {t}, most);
      assert |ts| * most == (|ts| - 1) * most + most;
    }
  }

  ghost function Grid(p: Problem): set<Tid> {
    set brow: nat, bcol: nat, ty: nat, tx: nat |
      brow < Blocks(p.M) && bcol < Blocks(p.N) && ty < 32 && tx < 32 :: Tid(brow, bcol, ty, tx)
  }

  lemma GridMembers(p: Problem, t: Tid)
    ensures t in Grid(p) <==> InGrid(p, t)
  {
  }

  /** Steps in a thread's whole life: two loads, two barriers and 32 terms a tile, and the store. */
  function Lifetime(p: Problem): nat {
    36 * Tiles(p) + 1
  }

  /** Steps a thread has behind it. */
  function Behind(p: Problem, th: Thread): nat {
    match th.stage
    case LoadA => 36 * th.m
    case LoadB => 36 * th.m + 1
    case Barrier1 => 36 * th.m + 2
    case Compute(k) => 36 * th.m + 3 + k
    case Barrier2 => 36 * th.m + 35
    case Store => 36 * th.m
    case Done => Lifetime(p)
  }

  /** Steps a thread has before it. */
  function Ahead(p: Problem, th: Thread): nat {
    if Behind(p, th) <= Lifetime(p) then Lifetime(p) - Behind(p, th) else 0
  }

  ghost function Work(p: Problem, s: State): Tid -> nat {
    t => if t in s.threads then Ahead(p, s.threads[t]) else 0
  }

  /** Steps all threads of the grid have before them. */
  ghost function WorkLeft(p: Problem, s: State): nat {
    Sum(Work(p, s), Grid(p))
  }

  lemma OneStepLess(p: Problem, s: State, t: Tid)
    requires Enabled(p, s, t) && Local(p, s, t)
    ensures Ahead(p, s.threads[t]) == Ahead(p, Next(p, s, t).threads[t]) + 1
  {
  }

  /** Every step of every thread is one of the steps ahead. */
  lemma StepTakesOne(p: Problem, s: State, t: Tid)
    requires Inv(p, s) && Enabled(p, s, t)
    ensures WorkLeft(p, s) == WorkLeft(p, Next(p, s, t)) + 1
  {
    var r := Next(p, s, t);
    assert Local(p, s, t);
    OneStepLess(p, s, t);
    GridMembers(p, t);
    SumTake(Work(p, s), Grid(p), t);
    SumTake(Work(p, r), Grid(p), t);
    forall u | u in Grid(p) - {t} ensures Work(p, s)(u) == Work(p, r)(u) {
      GridMembers(p, u);
      Untouched(p, s, t, u);
    }
    SumAgree(Work(p, s), Work(p, r), Grid(p) - {t});
  }

  lemma {:induction false} RunTakesItsLength(p: Problem, s: State, order: seq<Tid>)
    requires Inv(p, s) && Legal(p, s, order)
    ensures WorkLeft(p, s) == WorkLeft(p, Run(p, s, order)) + |order|
    decreases |order|
  {
    if order != [] {
      StepKeepsInv(p, s, order[0]);
      StepTakesOne(p, s, order[0]);
      RunTakesItsLength(p, Next(p, s, order[0]), order[1..]);
    }
  }

  lemma DoneMeansNoWork(p: Problem, s: State)
    requires Inv(p, s)
    ensures WorkLeft(p, s) == 0 <==> AllDone(p, s)
  {
    if AllDone(p, s) {
      forall t | t in Grid(p) ensures Work(p, s)(t) == 0 {
        GridMembers(p, t);
      }
      SumBounded(Work(p, s), Grid(p), 0);
    } else {
      var t :| InGrid(p, t) && s.threads[t].stage != Done;
      assert Local(p, s, t);
      GridMembers(p, t);
      SumTake(Work(p, s), Grid(p), t);
      assert Behind(p, s.threads[t]) < Lifetime(p);
    }
  }

  /** Every interleaving ends: no run takes more steps than the threads have to take, one that
      takes as many has every thread done, and any shorter one can go on. */
  lemma EveryInterleavingEnds(p: Problem, s: State, order: seq<Tid>)
    requires Start(p, s) && Legal(p, s, order)
    ensures |order| <= |Grid(p)| * Lifetime(p)
    ensures |order| == |Grid(p)| * Lifetime(p) <==> AllDone(p, Run(p, s, order))
    ensures |order| < |Grid(p)| * Lifetime(p) <==> exists u :: Enabled(p, Run(p, s, order), u)
  {
    StartHasInv(p, s);
    forall t | t in Grid(p) ensures Work(p, s)(t) == Lifetime(p) {
      GridMembers(p, t);
      assert s.threads[t] == StartTile(p, 0, p.ar.zero);
    }
    SumBounded(Work(p, s), Grid(p), Lifetime(p));
    RunTakesItsLength(p, s, order);
    RunKeepsInv(p, s, order);
    var r := Run(p, s, order);
    DoneMeansNoWork(p, r);
    if !AllDone(p, r) {
      var t :| InGrid(p, t) && r.threads[t].stage != Done;
      SomeThreadCanStep(p, r, t);
    }
  }
}
