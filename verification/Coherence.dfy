/** The two copies of every cuMemHostAlloc buffer (guest/transport/hmcuda_transport.cpp:222-283,
    guest/intercept/hmcuda_runtime.cpp:150-190, guest/intercept/hmcuda_driver.cpp:310-478).

    A buffer exists as `guest` bytes, which the CPU uses, and as `backing` bytes, which kernels
    use; its dirty bit says which copy counts.  Kernels reach pinned buffers only through
    base pointers in their argument words.  Transfers may fail or fall short: every operation
    carries how far its transfers got. */
module Coherence {
  import opened Memory
  import opened Resources
  import opened Patching
  import Api

  datatype Entry = Entry(size: nat, gpuDirty: bool)

  /** The registry, both copies of every buffer, and the host's translation table. */
  datatype Twin = Twin(reg: map<nat, Entry>, guest: map<nat, seq<byte>>, backing: map<nat, seq<byte>>,
                       table: seq<Resource>)

  const EMPTY: Twin := Twin(map[], map[], map[], [])

  /** What a kernel that is given these buffers leaves in one of them. */
  type Kernel = (map<nat, seq<byte>>, nat) -> seq<byte>

  /** Bytes written to the front of a buffer, which keeps its length. */
  function Overwrite(before: seq<byte>, written: seq<byte>): (r: seq<byte>)
    ensures |r| == |before|
  {
    if |written| < |before| then written + before[|written|..] else written[..|before|]
  }

  lemma OverwriteWhole(before: seq<byte>, written: seq<byte>)
    requires |written| == |before|
    ensures Overwrite(before, written) == written
  {
  }

  function KernelResult(kernel: Kernel, bufs: map<nat, seq<byte>>, va: nat): (r: seq<byte>)
    requires va in bufs
    ensures |r| == |bufs[va]|
  {
    Overwrite(bufs[va], kernel(bufs, va))
  }

  ghost predicate Ok(t: Twin) {
    forall va | va in t.reg ::
      va in t.guest && va in t.backing && |t.guest[va]| == t.reg[va].size && |t.backing[va]| == t.reg[va].size
  }

  /* ---- the protocol on values ---- */

  predicate Clean(t: Twin, p: nat) {
    p in t.reg && !t.reg[p].gpuDirty
  }

  predicate Dirty(t: Twin, p: nat) {
    p in t.reg && t.reg[p].gpuDirty
  }

  /** A push of a clean buffer of which `n` bytes got across, patched on the host. */
  function Push(t: Twin, p: nat, n: nat): (r: Twin)
    requires Ok(t)
    ensures Ok(r) && r.reg == t.reg && r.guest == t.guest && r.table == t.table
  {
    if Clean(t, p) then
      var k := if n < t.reg[p].size then n else t.reg[p].size;
      t.(backing := t.backing[p := Overwrite(t.backing[p], Patch(t.table, t.guest[p][..k]))])
    else t
  }

  function SetDirty(t: Twin, p: nat, dirty: bool): Twin {
    if p in t.reg then t.(reg := t.reg[p := t.reg[p].(gpuDirty := dirty)]) else t
  }

  /** The pushes before a launch, `pushed[i]` bytes for argument `i`. */
  function PushAll(t: Twin, args: seq<nat>, pushed: seq<nat>): (r: Twin)
    requires Ok(t) && |pushed| == |args|
    ensures Ok(r) && r.reg == t.reg && r.guest == t.guest && r.table == t.table
  {
    if args == [] then t
    else
      var n := |args| - 1;
      Push(PushAll(t, args[..n], pushed[..n]), args[n], pushed[n])
  }

  function MarkAll(t: Twin, args: seq<nat>): (r: Twin)
    requires Ok(t)
    ensures Ok(r) && r.guest == t.guest && r.backing == t.backing && r.table == t.table && r.reg.Keys == t.reg.Keys
  {
    if args == [] then t else SetDirty(MarkAll(t, args[..|args| - 1]), args[|args| - 1], true)
  }

  /** The buffers named by the argument words. */
  function Passed(reg: map<nat, Entry>, bufs: map<nat, seq<byte>>, args: seq<nat>): map<nat, seq<byte>> {
    map va | va in bufs && va in reg && va in args :: bufs[va]
  }

  function RunKernel(t: Twin, args: seq<nat>, kernel: Kernel): (r: Twin)
    requires Ok(t)
    ensures Ok(r) && r.reg == t.reg && r.guest == t.guest && r.table == t.table
  {
    var bufs := Passed(t.reg, t.backing, args);
    t.(backing := map va | va in t.backing :: if va in bufs then KernelResult(kernel, bufs, va) else t.backing[va])
  }

  /** The way of a copy between a device and a pinned buffer: through the guest copy with a look
      at the registry (cuMemcpyHtoD, cuMemcpyDtoH, and cuMemcpyAsync and cuMemcpy for device
      addresses in the guest's index), through the guest copy without one (cudaMemcpy), or past
      it (cuMemcpyAsync and cuMemcpy for all other device addresses). */
  datatype Route = Checked | Plain | Direct

  /** A copy from or to a device starts `off` bytes into the buffer. */
  datatype Op =
    | Alloc(va: nat, data: seq<byte>, realPtr: nat)
    | FailedAlloc(va: nat, size: nat, realPtr: nat)
    | CpuWrite(va: nat, data: seq<byte>)
    | CpuRead(va: nat)
    | Launch(args: seq<nat>, kernel: Kernel, pushed: seq<nat>, ran: bool)
    | ToDevice(va: nat, off: nat, count: nat, route: Route, pulled: nat, ok: bool)
    | FromDevice(va: nat, off: nat, data: seq<byte>, route: Route)
    | Free(va: nat, reached: bool)

  /** What an operation shows: the buffers a kernel is given, or the bytes a copy sends or the CPU reads. */
  datatype Seen = Nothing | Buffers(m: map<nat, seq<byte>>) | Bytes(b: seq<byte>)

  /** The pull of the first bytes of a dirty buffer before it is copied to a device: the bit
      goes when the pull succeeds, however little was asked for. */
  function Pull(t: Twin, va: nat, pulled: nat, ok: bool): (r: Twin)
    requires Ok(t) && va in t.reg && pulled <= t.reg[va].size
    ensures Ok(r)
  {
    if !t.reg[va].gpuDirty then t
    else
      var u := t.(guest := t.guest[va := Overwrite(t.guest[va], t.backing[va][..pulled])]);
      if ok then SetDirty(u, va, false) else u
  }

  /** The range lies inside a registered buffer.  No other buffer has its base there. */
  predicate InBuffer(t: Twin, va: nat, off: nat, n: nat) {
    va in t.reg && off + n <= t.reg[va].size && (off == 0 || (off < t.reg[va].size && va + off !in t.reg))
  }

  /** Only a registered base is found in the registry. */
  predicate FindsBase(route: Route, off: nat) {
    route == Checked && off == 0
  }

  /** What callers may ask for.  malloc never gives out NULL or a live address. */
  predicate Allowed(t: Twin, op: Op) {
    match op
    case Alloc(va, _, _) => va > 0 && va !in t.reg
    case FailedAlloc(va, size, _) => va > 0 && va !in t.reg && size > 0
    case CpuWrite(va, data) => va in t.reg && |data| == t.reg[va].size
    case CpuRead(va) => va in t.reg
    case Launch(args, _, pushed, _) => |pushed| == |args|
    case ToDevice(va, off, count, route, pulled, ok) =>
      InBuffer(t, va, off, count) && pulled <= count && (FindsBase(route, off) && ok ==> pulled == count)
    case FromDevice(va, off, data, _) => InBuffer(t, va, off, |data|)
    case Free(_, _) => true
  }

  /** The entry of a new buffer; an empty one is never announced to the host. */
  function Entries(va: nat, realPtr: nat, size: nat): seq<Resource> {
    if size == 0 then [] else [Resource(va, realPtr, size)]
  }

  function Step(t: Twin, op: Op): (r: Twin)
    requires Ok(t) && Allowed(t, op)
    ensures Ok(r)
  {
    match op
    case Alloc(va, data, realPtr) =>
      Twin(t.reg[va := Entry(|data|, false)], t.guest[va := data], t.backing[va := data],
        Entries(va, realPtr, |data|) + t.table)
    case FailedAlloc(va, size, realPtr) => t.(table := Entries(va, realPtr, size) + t.table)
    case CpuWrite(va, data) => t.(guest := t.guest[va := data])
    case CpuRead(va) => t
    case Launch(args, kernel, pushed, ran) =>
      var u := PushAll(t, args, pushed);
      MarkAll(if ran then RunKernel(u, args, kernel) else u, args)
    case ToDevice(va, off, _, route, pulled, ok) => if FindsBase(route, off) then Pull(t, va, pulled, ok) else t
    case FromDevice(va, off, data, route) =>
      if route == Direct then t.(backing := t.backing[va := Splice(t.backing[va], off, data)])
      else
        var u := t.(guest := t.guest[va := Splice(t.guest[va], off, data)]);
        if FindsBase(route, off) then SetDirty(u, va, false) else u
    case Free(va, reached) =>
      if va in t.reg && t.reg[va].size > 0 then
        t.(reg := t.reg - {va}, table := if reached then Removed(t.table, va) else t.table)
      else t
  }

  function Show(t: Twin, op: Op): Seen
    requires Ok(t) && Allowed(t, op)
  {
    match op
    case CpuRead(va) => Bytes(t.guest[va])
    case Launch(args, _, pushed, ran) =>
      if ran then Buffers(Passed(t.reg, PushAll(t, args, pushed).backing, args)) else Nothing
    case ToDevice(va, off, count, route, pulled, ok) =>
      if route == Direct then (if ok then Bytes(Read(t.backing[va], off, count)) else Nothing)
      else if !FindsBase(route, off) then Bytes(Read(t.guest[va], off, count))
      else if t.reg[va].gpuDirty && !ok then Nothing
      else Bytes(Read(Pull(t, va, pulled, ok).guest[va], 0, count))
    case _ => Nothing
  }

  /* ---- the specification: one buffer each ---- */

  /** One logical buffer; `gpu` says that a kernel has been given it since the CPU, or a copy
      to or from a device, last had it. */
  datatype Buf = Buf(bytes: seq<byte>, gpu: bool)

  datatype Spec = Spec(bufs: map<nat, Buf>, table: seq<Resource>)

  /** What a kernel sees of a buffer: the bytes as the last kernel left them, or, after the CPU
      or a copy had them, with guest pointers translated. */
  function View(s: Spec, va: nat): seq<byte>
    requires va in s.bufs
  {
    if s.bufs[va].gpu then s.bufs[va].bytes else Patch(s.table, s.bufs[va].bytes)
  }

  function Views(s: Spec, args: seq<nat>): map<nat, seq<byte>> {
    map va | va in s.bufs && va in args :: View(s, va)
  }

  function SpecStep(s: Spec, op: Op): Spec {
    match op
    case Alloc(va, data, realPtr) => Spec(s.bufs[va := Buf(data, false)], Entries(va, realPtr, |data|) + s.table)
    case FailedAlloc(va, size, realPtr) => s.(table := Entries(va, realPtr, size) + s.table)
    case CpuWrite(va, data) => if va in s.bufs then s.(bufs := s.bufs[va := Buf(data, s.bufs[va].gpu)]) else s
    case CpuRead(va) => s
    case Launch(args, kernel, _, ran) =>
      var bufs := Views(s, args);
      s.(bufs := map va | va in s.bufs ::
           if va in bufs then Buf(if ran then KernelResult(kernel, bufs, va) else bufs[va], true) else s.bufs[va])
    case ToDevice(va, off, _, route, _, ok) =>
      if va in s.bufs && ok && FindsBase(route, off) then s.(bufs := s.bufs[va := Buf(s.bufs[va].bytes, false)]) else s
    case FromDevice(va, off, data, route) =>
      if va in s.bufs && off + |data| <= |s.bufs[va].bytes| then
        s.(bufs := s.bufs[va := Buf(Splice(s.bufs[va].bytes, off, data), s.bufs[va].gpu && !FindsBase(route, off))])
      else s
    case Free(va, reached) =>
      if va in s.bufs && |s.bufs[va].bytes| > 0 then
        Spec(s.bufs - {va}, if reached then Removed(s.table, va) else s.table)
      else s
  }

  function SpecShow(s: Spec, op: Op): Seen {
    match op
    case CpuRead(va) => if va in s.bufs then Bytes(s.bufs[va].bytes) else Nothing
    case Launch(args, _, _, ran) => if ran then Buffers(Views(s, args)) else Nothing
    case ToDevice(va, off, count, route, _, ok) =>
      if va !in s.bufs || off + count > |s.bufs[va].bytes| then Nothing
      else if !ok && (route == Direct || (FindsBase(route, off) && s.bufs[va].gpu)) then Nothing
      else Bytes(Read(s.bufs[va].bytes, off, count))
    case _ => Nothing
  }

  function Logical(t: Twin): Spec
    requires Ok(t)
  {
    var bufs := map va | va in t.reg ::
      Buf(if t.reg[va].gpuDirty then t.backing[va] else t.guest[va], t.reg[va].gpuDirty);
    Spec(bufs, t.table)
  }

  /* ---- refinement ---- */

  /** The conditions, each one a caller or the library could check, under which the two copies
      act as one buffer: the CPU leaves dirty buffers alone, pushes get all across, a dirty
      buffer is pulled whole or not at all, and filled whole; copies that do not look at the
      bit leave dirty buffers alone, and copies past the guest copy leave clean ones alone. */
  predicate Intact(t: Twin, op: Op)
    requires Allowed(t, op)
  {
    match op
    case CpuWrite(va, data) => !t.reg[va].gpuDirty || data == []
    case CpuRead(va) => !t.reg[va].gpuDirty || t.reg[va].size == 0
    case Launch(args, _, pushed, _) => WholePushes(t, args, pushed)
    case ToDevice(va, off, count, route, _, ok) =>
      if route == Direct then t.reg[va].gpuDirty || !ok || count == 0
      else !t.reg[va].gpuDirty || (if FindsBase(route, off) then !ok || count == t.reg[va].size else count == 0)
    case FromDevice(va, off, data, route) =>
      if route == Direct then t.reg[va].gpuDirty || data == []
      else !t.reg[va].gpuDirty || (if FindsBase(route, off) then |data| == t.reg[va].size else data == [])
    case _ => true
  }

  predicate WholePushes(t: Twin, args: seq<nat>, pushed: seq<nat>)
    requires |pushed| == |args|
  {
    forall i | 0 <= i < |args| :: WholePush(t, args[i], pushed[i])
  }

  predicate WholePush(t: Twin, p: nat, n: nat) {
    Clean(t, p) ==> n >= t.reg[p].size
  }

  lemma PushIsWhole(t: Twin, p: nat, n: nat)
    requires Ok(t) && Clean(t, p) && n >= t.reg[p].size
    ensures Push(t, p, n).backing[p] == Patch(t.table, t.guest[p])
  {
    assert t.guest[p][..t.reg[p].size] == t.guest[p];
    OverwriteWhole(t.backing[p], Patch(t.table, t.guest[p]));
  }

  /** The pre-launch loop pushes the clean buffers among the arguments and no other. */
  lemma {:induction false} PushAllPushes(t: Twin, args: seq<nat>, pushed: seq<nat>, va: nat)
    requires Ok(t) && va in t.reg && |pushed| == |args| && WholePushes(t, args, pushed)
    ensures PushAll(t, args, pushed).backing[va] ==
            if va in args && !t.reg[va].gpuDirty then Patch(t.table, t.guest[va]) else t.backing[va]
    decreases |args|
  {
    if args != [] {
      var n := |args| - 1;
      assert WholePushes(t, args[..n], pushed[..n]) by {
        forall i | 0 <= i < n ensures WholePush(t, args[..n][i], pushed[..n][i]) {
          assert WholePush(t, args[i], pushed[i]);
        }
      }
      PushAllPushes(t, args[..n], pushed[..n], va);
      assert args == args[..n] + [args[n]];
      assert WholePush(t, args[n], pushed[n]);
      var u := PushAll(t, args[..n], pushed[..n]);
      if args[n] == va && !t.reg[va].gpuDirty {
        PushIsWhole(u, va, pushed[n]);
      }
    }
  }

  lemma {:induction false} MarkAllMarks(t: Twin, args: seq<nat>, va: nat)
    requires Ok(t) && va in t.reg
    ensures MarkAll(t, args).reg[va] == if va in args then Entry(t.reg[va].size, true) else t.reg[va]
    decreases |args|
  {
    if args != [] {
      var n := |args| - 1;
      MarkAllMarks(t, args[..n], va);
      assert args == args[..n] + [args[n]];
    }
  }

  /** A kernel is given the logical contents of its buffers. */
  lemma LaunchSees(t: Twin, args: seq<nat>, pushed: seq<nat>)
    requires Ok(t) && |pushed| == |args| && WholePushes(t, args, pushed)
    ensures Passed(t.reg, PushAll(t, args, pushed).backing, args) == Views(Logical(t), args)
  {
    var a, c := Passed(t.reg, PushAll(t, args, pushed).backing, args), Views(Logical(t), args);
    forall va | va in t.reg && va in args ensures a[va] == c[va] {
      PushAllPushes(t, args, pushed, va);
    }
    assert a.Keys == c.Keys;
  }

  lemma LaunchRefines(t: Twin, args: seq<nat>, kernel: Kernel, pushed: seq<nat>)
    requires Ok(t) && |pushed| == |args| && WholePushes(t, args, pushed)
    ensures Logical(Step(t, Launch(args, kernel, pushed, true)))
      == SpecStep(Logical(t), Launch(args, kernel, pushed, true))
  {
    LaunchSees(t, args, pushed);
    var t2 := RunKernel(PushAll(t, args, pushed), args, kernel);
    var a, c := Logical(MarkAll(t2, args)).bufs, SpecStep(Logical(t), Launch(args, kernel, pushed, true)).bufs;
    forall va | va in t.reg ensures a[va] == c[va] {
      MarkAllMarks(t2, args, va);
      PushAllPushes(t, args, pushed, va);
      assert va in Views(Logical(t), args) <==> va in args;
    }
    assert a.Keys == c.Keys;
  }

  lemma FailedLaunchRefines(t: Twin, args: seq<nat>, kernel: Kernel, pushed: seq<nat>)
    requires Ok(t) && |pushed| == |args| && WholePushes(t, args, pushed)
    ensures Logical(Step(t, Launch(args, kernel, pushed, false)))
      == SpecStep(Logical(t), Launch(args, kernel, pushed, false))
  {
    var u := PushAll(t, args, pushed);
    var a, c := Logical(MarkAll(u, args)).bufs, SpecStep(Logical(t), Launch(args, kernel, pushed, false)).bufs;
    forall va | va in t.reg ensures a[va] == c[va] {
      MarkAllMarks(u, args, va);
      PushAllPushes(t, args, pushed, va);
      assert va in Views(Logical(t), args) <==> va in args;
    }
    assert a.Keys == c.Keys;
  }

  lemma WriteRefines(t: Twin, op: Op)
    requires Ok(t) && Allowed(t, op) && Intact(t, op) && op.CpuWrite?
    ensures Logical(Step(t, op)) == SpecStep(Logical(t), op)
  {
    assert Logical(Step(t, op)).bufs == SpecStep(Logical(t), op).bufs;
  }

  lemma PullIsWhole(t: Twin, va: nat)
    requires Ok(t) && Dirty(t, va)
    ensures Pull(t, va, t.reg[va].size, true).guest[va] == t.backing[va]
  {
    assert t.backing[va][..t.reg[va].size] == t.backing[va];
    OverwriteWhole(t.guest[va], t.backing[va]);
  }

  /** A pull changes which copy counts, not what it holds. */
  lemma ToDeviceRefines(t: Twin, op: Op)
    requires Ok(t) && Allowed(t, op) && Intact(t, op) && op.ToDevice?
    ensures Logical(Step(t, op)) == SpecStep(Logical(t), op) && Show(t, op) == SpecShow(Logical(t), op)
  {
    if FindsBase(op.route, op.off) && Dirty(t, op.va) && op.ok {
      PullIsWhole(t, op.va);
    }
    assert Logical(Step(t, op)).bufs == SpecStep(Logical(t), op).bufs;
  }

  lemma SpliceNothing(mem: seq<byte>, at: nat)
    requires at <= |mem|
    ensures Splice(mem, at, []) == mem
  {
  }

  lemma SpliceAll(mem: seq<byte>, data: seq<byte>)
    requires |data| == |mem|
    ensures Splice(mem, 0, data) == data
  {
  }

  /** What a copy past the guest copy does to its buffer ... */
  lemma DirectFill(t: Twin, op: Op)
    requires Ok(t) && Allowed(t, op) && Intact(t, op) && op.FromDevice? && op.route == Direct
    ensures Logical(Step(t, op)).bufs[op.va] == SpecStep(Logical(t), op).bufs[op.va]
  {
    if op.data == [] {
      SpliceNothing(t.guest[op.va], op.off);
      SpliceNothing(t.backing[op.va], op.off);
    }
  }

  /** ... and one through it, to the base of the buffer ... */
  lemma BaseFill(t: Twin, op: Op)
    requires Ok(t) && Allowed(t, op) && Intact(t, op) && op.FromDevice? && FindsBase(op.route, op.off)
    ensures Logical(Step(t, op)).bufs[op.va] == SpecStep(Logical(t), op).bufs[op.va]
  {
    if Dirty(t, op.va) {
      SpliceAll(t.guest[op.va], op.data);
      SpliceAll(t.backing[op.va], op.data);
    }
  }

  /** ... or elsewhere. */
  lemma PlainFill(t: Twin, op: Op)
    requires Ok(t) && Allowed(t, op) && Intact(t, op) && op.FromDevice? && op.route != Direct
      && !FindsBase(op.route, op.off)
    ensures Logical(Step(t, op)).bufs[op.va] == SpecStep(Logical(t), op).bufs[op.va]
  {
    if Dirty(t, op.va) {
      SpliceNothing(t.backing[op.va], op.off);
    }
  }

  lemma Fill(t: Twin, op: Op)
    requires Ok(t) && Allowed(t, op) && Intact(t, op) && op.FromDevice?
    ensures Logical(Step(t, op)).bufs[op.va] == SpecStep(Logical(t), op).bufs[op.va]
  {
    if op.route == Direct {
      DirectFill(t, op);
    } else if FindsBase(op.route, op.off) {
      BaseFill(t, op);
    } else {
      PlainFill(t, op);
    }
  }

  lemma FillElsewhere(t: Twin, op: Op, w: nat)
    requires Ok(t) && Allowed(t, op) && op.FromDevice? && w in t.reg && w != op.va
    ensures w in Step(t, op).reg && Logical(Step(t, op)).bufs[w] == SpecStep(Logical(t), op).bufs[w]
  {
  }

  lemma FillRegister(t: Twin, op: Op)
    requires Ok(t) && Allowed(t, op) && op.FromDevice?
    ensures Step(t, op).reg.Keys == t.reg.Keys && Step(t, op).table == t.table
  {
  }

  lemma FillKeys(t: Twin, op: Op)
    requires Ok(t) && Allowed(t, op) && op.FromDevice?
    ensures Logical(Step(t, op)).bufs.Keys == t.reg.Keys == SpecStep(Logical(t), op).bufs.Keys
    ensures Logical(Step(t, op)).table == SpecStep(Logical(t), op).table
  {
    FillRegister(t, op);
  }

  lemma SameSpec(s: Spec, r: Spec)
    requires s.table == r.table && s.bufs.Keys == r.bufs.Keys && forall w | w in s.bufs :: s.bufs[w] == r.bufs[w]
    ensures s == r
  {
    assert s.bufs == r.bufs;
  }

  lemma FromDeviceRefines(t: Twin, op: Op)
    requires Ok(t) && Allowed(t, op) && Intact(t, op) && op.FromDevice?
    ensures Logical(Step(t, op)) == SpecStep(Logical(t), op)
  {
    FillKeys(t, op);
    var a, c := Logical(Step(t, op)), SpecStep(Logical(t), op);
    forall w | w in a.bufs ensures a.bufs[w] == c.bufs[w] {
      if w == op.va {
        Fill(t, op);
      } else {
        FillElsewhere(t, op, w);
      }
    }
    SameSpec(a, c);
  }

  lemma AllocRefines(t: Twin, op: Op)
    requires Ok(t) && Allowed(t, op) && op.Alloc?
    ensures Logical(Step(t, op)) == SpecStep(Logical(t), op)
  {
    assert Logical(Step(t, op)).bufs == SpecStep(Logical(t), op).bufs;
  }

  lemma FailedAllocRefines(t: Twin, op: Op)
    requires Ok(t) && Allowed(t, op) && op.FailedAlloc?
    ensures Logical(Step(t, op)) == SpecStep(Logical(t), op)
  {
    assert Logical(Step(t, op)).bufs == SpecStep(Logical(t), op).bufs;
  }

  lemma FreeRefines(t: Twin, op: Op)
    requires Ok(t) && Allowed(t, op) && op.Free?
    ensures Logical(Step(t, op)) == SpecStep(Logical(t), op)
  {
    assert Logical(Step(t, op)).bufs == SpecStep(Logical(t), op).bufs;
  }

  lemma ReadRefines(t: Twin, op: Op)
    requires Ok(t) && Allowed(t, op) && Intact(t, op) && op.CpuRead?
    ensures Show(t, op) == SpecShow(Logical(t), op)
  {
    if Dirty(t, op.va) {
      assert t.guest[op.va] == [] == t.backing[op.va];
    }
  }

  /** Every intact step, failed or not, does to the two copies what it does to the one logical
      buffer, and shows kernels, copies and the CPU the same bytes. */
  lemma StepRefines(t: Twin, op: Op)
    requires Ok(t) && Allowed(t, op) && Intact(t, op)
    ensures Logical(Step(t, op)) == SpecStep(Logical(t), op) && Show(t, op) == SpecShow(Logical(t), op)
  {
    match op
    case Launch(args, kernel, pushed, ran) =>
      LaunchSees(t, args, pushed);
      if ran {
        LaunchRefines(t, args, kernel, pushed);
      } else {
        FailedLaunchRefines(t, args, kernel, pushed);
      }
    case Alloc(_, _, _) => AllocRefines(t, op);
    case CpuWrite(_, _) => WriteRefines(t, op);
    case CpuRead(_) => ReadRefines(t, op);
    case FailedAlloc(_, _, _) => FailedAllocRefines(t, op);
    case ToDevice(_, _, _, _, _, _) => ToDeviceRefines(t, op);
    case FromDevice(_, _, _, _) => FromDeviceRefines(t, op);
    case Free(_, _) => FreeRefines(t, op);
  }

  /* ---- single steps, byte by byte ---- */

  /** Nothing but buffer `va` has changed. */
  predicate OthersSame(t: Twin, r: Twin, va: nat)
    requires Ok(t) && Ok(r)
  {
    && r.reg.Keys - {va} == t.reg.Keys - {va}
    && forall w | w in t.reg && w in r.reg && w != va ::
         r.reg[w] == t.reg[w] && r.guest[w] == t.guest[w] && r.backing[w] == t.backing[w]
  }

  /** A copy from a device, in every state: past the guest copy it changes these bytes of the
      backing copy, otherwise these of the guest copy; only one to a base, with a look at the
      registry, clears the bit. */
  lemma FillIs(t: Twin, va: nat, off: nat, data: seq<byte>, route: Route, i: nat)
    requires Ok(t) && Allowed(t, FromDevice(va, off, data, route)) && i < t.reg[va].size
    ensures
      var r, filled := Step(t, FromDevice(va, off, data, route)), off <= i < off + |data|;
      && OthersSame(t, r, va) && r.table == t.table && va in r.reg
      && r.reg[va] == Entry(t.reg[va].size, t.reg[va].gpuDirty && !(route == Checked && off == 0))
      && r.guest[va][i] == (if filled && route != Direct then data[i - off] else t.guest[va][i])
      && r.backing[va][i] == (if filled && route == Direct then data[i - off] else t.backing[va][i])
  {
  }

  /** A copy to a device, in every state: only one from a base, with a look at the registry,
      changes anything, and that of a dirty buffer alone; its bit survives a failed pull. */
  lemma ToDeviceIs(t: Twin, op: Op, i: nat)
    requires Ok(t) && Allowed(t, op) && op.ToDevice? && i < t.reg[op.va].size
    ensures
      var r, pulls := Step(t, op), op.route == Checked && op.off == 0 && t.reg[op.va].gpuDirty;
      && OthersSame(t, r, op.va) && r.table == t.table && op.va in r.reg && r.backing[op.va] == t.backing[op.va]
      && r.reg[op.va] == Entry(t.reg[op.va].size, t.reg[op.va].gpuDirty && !(pulls && op.ok))
      && r.guest[op.va][i] == if pulls && i < op.pulled then t.backing[op.va][i] else t.guest[op.va][i]
  {
  }

  /** A launch, in every state, failed or not: the buffers passed are dirty afterwards, the CPU's
      copies stay, and a buffer not passed keeps both copies and its bit. */
  lemma LaunchIs(t: Twin, op: Op, va: nat)
    requires Ok(t) && Allowed(t, op) && op.Launch? && va in t.reg
    ensures
      var r := Step(t, op);
      && r.reg.Keys == t.reg.Keys && r.table == t.table && r.guest == t.guest
      && r.reg[va] == Entry(t.reg[va].size, t.reg[va].gpuDirty || va in op.args)
      && (va !in op.args ==> r.backing[va] == t.backing[va])
      && (!op.ran && t.reg[va].gpuDirty ==> r.backing[va] == t.backing[va])
  {
    var u := PushAll(t, op.args, op.pushed);
    MarkAllMarks(if op.ran then RunKernel(u, op.args, op.kernel) else u, op.args, va);
    if va !in op.args {
      PushAllLeaves(t, op.args, op.pushed, va);
    } else if t.reg[va].gpuDirty {
      ResultsSurvivePushes(t, op.args, op.pushed, va);
    }
  }

  /** A new buffer is clean, and kernels and the CPU find the same bytes in it; its entry
      comes before the older ones. */
  lemma AllocIs(t: Twin, va: nat, data: seq<byte>, realPtr: nat)
    requires Ok(t) && Allowed(t, Alloc(va, data, realPtr))
    ensures
      var r := Step(t, Alloc(va, data, realPtr));
      && OthersSame(t, r, va) && va in r.reg && r.reg[va] == Entry(|data|, false)
      && r.guest[va] == data && r.backing[va] == data
      && (data != [] ==> r.table == [Resource(va, realPtr, |data|)] + t.table) && (data == [] ==> r.table == t.table)
  {
  }

  /** A freed buffer is gone from the registry, and its newest entry from the host's table if
      the host was told. */
  lemma FreeIs(t: Twin, va: nat, reached: bool, i: nat)
    requires Ok(t) && va in t.reg && t.reg[va].size > 0
    requires i < |t.table| && t.table[i].handle == va && forall j | 0 <= j < i :: t.table[j].handle != va
    ensures
      var r := Step(t, Free(va, reached));
      && OthersSame(t, r, va) && va !in r.reg
      && r.table == if reached then t.table[..i] + t.table[i + 1..] else t.table
  {
    RemovedNewest(t.table, i);
  }

  /* ---- runs ---- */

  predicate AllowedRun(t: Twin, ops: seq<Op>)
    requires Ok(t)
    decreases |ops|
  {
    ops == [] || (Allowed(t, ops[0]) && AllowedRun(Step(t, ops[0]), ops[1..]))
  }

  predicate IntactRun(t: Twin, ops: seq<Op>)
    requires Ok(t) && AllowedRun(t, ops)
    decreases |ops|
  {
    ops == [] || (Intact(t, ops[0]) && IntactRun(Step(t, ops[0]), ops[1..]))
  }

  function Run(t: Twin, ops: seq<Op>): (r: Twin)
    requires Ok(t) && AllowedRun(t, ops)
    ensures Ok(r)
    decreases |ops|
  {
    if ops == [] then t else Run(Step(t, ops[0]), ops[1..])
  }

  function Shown(t: Twin, ops: seq<Op>): seq<Seen>
    requires Ok(t) && AllowedRun(t, ops)
    decreases |ops|
  {
    if ops == [] then [] else [Show(t, ops[0])] + Shown(Step(t, ops[0]), ops[1..])
  }

  function SpecRun(s: Spec, ops: seq<Op>): Spec
    decreases |ops|
  {
    if ops == [] then s else SpecRun(SpecStep(s, ops[0]), ops[1..])
  }

  function SpecShown(s: Spec, ops: seq<Op>): seq<Seen>
    decreases |ops|
  {
    if ops == [] then [] else [SpecShow(s, ops[0])] + SpecShown(SpecStep(s, ops[0]), ops[1..])
  }

  /** Over every intact run, kernels, copies and the CPU see exactly what one shared buffer
      would show them. */
  lemma {:induction false} RunRefines(t: Twin, ops: seq<Op>)
    requires Ok(t) && AllowedRun(t, ops) && IntactRun(t, ops)
    ensures Logical(Run(t, ops)) == SpecRun(Logical(t), ops)
    ensures Shown(t, ops) == SpecShown(Logical(t), ops)
    decreases |ops|
  {
    if ops != [] {
      StepRefines(t, ops[0]);
      RunRefines(Step(t, ops[0]), ops[1..]);
    }
  }

  /* ---- states that can arise ---- */

  /** Live buffers do not overlap, and no empty one lies inside another. */
  predicate BlockApart(reg: map<nat, Entry>, va: nat, size: nat) {
    forall w | w in reg :: w + reg[w].size <= va || va + size <= w
  }

  /** malloc hands out blocks apart from the live ones, though not from those given back, and
      CUDA backend addresses that look like no guest address. */
  ghost predicate FreshAlloc(t: Twin, op: Op) {
    match op
    case Alloc(va, data, realPtr) => BlockApart(t.reg, va, |data|) && Plausible(Entries(va, realPtr, |data|) + t.table)
    case FailedAlloc(va, size, realPtr) =>
      BlockApart(t.reg, va, size) && Plausible(Entries(va, realPtr, size) + t.table)
    case _ => true
  }

  ghost predicate SaneRun(t: Twin, ops: seq<Op>)
    requires Ok(t) && AllowedRun(t, ops)
    decreases |ops|
  {
    ops == [] || (FreshAlloc(t, ops[0]) && SaneRun(Step(t, ops[0]), ops[1..]))
  }

  ghost predicate ByRun(t: Twin, ops: seq<Op>) {
    AllowedRun(EMPTY, ops) && SaneRun(EMPTY, ops) && Run(EMPTY, ops) == t
  }

  /** States that some run of allowed operations, failed ones included, leads to. */
  ghost predicate Reached(t: Twin) {
    exists ops :: ByRun(t, ops)
  }

  lemma PlausibleRemoved(list: seq<Resource>, handle: nat)
    requires Plausible(list)
    ensures Plausible(Removed(list, handle))
  {
    RemovedMembers(list, handle);
  }

  /** Every non-empty registered buffer has an entry in the host's table that no newer entry
      overlaps, and the buffers lie apart. */
  ghost predicate Held(t: Twin) {
    && (forall va | va in t.reg && t.reg[va].size > 0 :: HasEntry(t.table, va, t.reg[va].size))
    && (forall va, w | va in t.reg && w in t.reg && va != w :: va + t.reg[va].size <= w || w + t.reg[w].size <= va)
  }

  /** A new entry, apart from the live buffers, is put before the others. */
  lemma AddKeepsHeld(t: Twin, va: nat, realPtr: nat, size: nat, w: nat)
    requires Held(t) && w in t.reg && t.reg[w].size > 0 && BlockApart(t.reg, va, size)
    ensures HasEntry(Entries(va, realPtr, size) + t.table, w, t.reg[w].size)
  {
    if size == 0 {
      assert [] + t.table == t.table;
    } else {
      AddKeepsEntry(t.table, Resource(va, realPtr, size), w, t.reg[w].size);
    }
  }

  lemma NewEntry(table: seq<Resource>, va: nat, realPtr: nat, size: nat)
    requires size > 0
    ensures HasEntry(Entries(va, realPtr, size) + table, va, size)
  {
    RulesAdded(table, Resource(va, realPtr, size), Resource(va, realPtr, size));
  }

  lemma {:induction false} StepKeepsEntries(t: Twin, op: Op, va: nat)
    requires Ok(t) && Allowed(t, op) && FreshAlloc(t, op) && Held(t) && va in Step(t, op).reg
      && Step(t, op).reg[va].size > 0
    ensures HasEntry(Step(t, op).table, va, Step(t, op).reg[va].size)
  {
    KeepsSize(t, op, va);
    match op
    case Alloc(w, data, realPtr) =>
      if w == va {
        NewEntry(t.table, va, realPtr, |data|);
      } else {
        AddKeepsHeld(t, w, realPtr, |data|, va);
      }
    case FailedAlloc(w, size, realPtr) => AddKeepsHeld(t, w, realPtr, size, va);
    case Free(w, reached) =>
      if reached && w in t.reg && t.reg[w].size > 0 {
        RemoveKeepsEntry(t.table, w, va, t.reg[va].size);
      }
    case _ =>
  }

  lemma {:induction false} StepKeepsApart(t: Twin, op: Op, va: nat, w: nat)
    requires Ok(t) && Allowed(t, op) && FreshAlloc(t, op) && Held(t)
    requires va in Step(t, op).reg && w in Step(t, op).reg && va != w
    ensures va + Step(t, op).reg[va].size <= w || w + Step(t, op).reg[w].size <= va
  {
    KeepsSize(t, op, va);
    KeepsSize(t, op, w);
  }

  lemma {:induction false} StepKeepsPlausible(t: Twin, op: Op)
    requires Ok(t) && Allowed(t, op) && FreshAlloc(t, op) && Plausible(t.table)
    ensures Plausible(Step(t, op).table)
  {
    match op
    case Alloc(_, _, _) =>
    case FailedAlloc(_, _, _) =>
    case Free(va, _) => PlausibleRemoved(t.table, va);
    case _ => assert Step(t, op).table == t.table;
  }

  lemma {:induction false} StepKeepsHeld(t: Twin, op: Op)
    requires Ok(t) && Allowed(t, op) && FreshAlloc(t, op) && Held(t)
    ensures Held(Step(t, op))
  {
    var r := Step(t, op);
    forall va | va in r.reg && r.reg[va].size > 0 ensures HasEntry(r.table, va, r.reg[va].size) {
      StepKeepsEntries(t, op, va);
    }
    forall va, w | va in r.reg && w in r.reg && va != w ensures va + r.reg[va].size <= w || w + r.reg[w].size <= va {
      StepKeepsApart(t, op, va, w);
    }
  }

  lemma {:induction false} KeepsSize(t: Twin, op: Op, va: nat)
    requires Ok(t) && Allowed(t, op) && va in Step(t, op).reg
    ensures if op.Alloc? && op.va == va then Step(t, op).reg[va] == Entry(|op.data|, false)
            else va in t.reg && Step(t, op).reg[va].size == t.reg[va].size
    ensures !op.Alloc? && !op.FailedAlloc? && !op.Free? ==> Step(t, op).table == t.table
  {
    if op.Launch? {
      assert va in MarkAll(PushAll(t, op.args, op.pushed), op.args).reg.Keys;
      var u := PushAll(t, op.args, op.pushed);
      MarkAllMarks(if op.ran then RunKernel(u, op.args, op.kernel) else u, op.args, va);
    }
  }

  lemma {:induction false} RunKeepsHeld(t: Twin, ops: seq<Op>)
    requires Ok(t) && AllowedRun(t, ops) && SaneRun(t, ops) && Plausible(t.table) && Held(t)
    ensures Plausible(Run(t, ops).table) && Held(Run(t, ops))
    decreases |ops|
  {
    if ops != [] {
      StepKeepsPlausible(t, ops[0]);
      StepKeepsHeld(t, ops[0]);
      RunKeepsHeld(Step(t, ops[0]), ops[1..]);
    }
  }

  lemma ReachedIsHeld(t: Twin)
    requires Reached(t)
    ensures Ok(t) && Plausible(t.table) && Held(t)
  {
    var ops :| ByRun(t, ops);
    RunKeepsHeld(EMPTY, ops);
  }

  /** Whatever was left behind in the table, a registered buffer resolves, from every address
      inside it, to consecutive backend addresses. */
  lemma BufferResolves(t: Twin, va: nat) returns (p: nat)
    requires Reached(t) && va in t.reg && t.reg[va].size > 0
    ensures forall k | va <= k < va + t.reg[va].size :: Lookup(t.table, HOST_MEM, k) == p + (k - va)
  {
    ReachedIsHeld(t);
    var size := t.reg[va].size;
    assert HasEntry(t.table, va, size);
    p :| Rules(t.table, Resource(va, p, size));
    forall k | va <= k < va + size ensures Lookup(t.table, HOST_MEM, k) == p + (k - va) {
      RulerResolves(t.table, HOST_MEM, Resource(va, p, size), k);
    }
  }

  /* ---- kernel results between launches ---- */

  /** No kernel result is overwritten by a push while the bit is set. */
  lemma {:induction false} ResultsSurvivePushes(t: Twin, args: seq<nat>, pushed: seq<nat>, va: nat)
    requires Ok(t) && Dirty(t, va) && |pushed| == |args|
    ensures PushAll(t, args, pushed).backing[va] == t.backing[va]
    decreases |args|
  {
    if args != [] {
      var n := |args| - 1;
      ResultsSurvivePushes(t, args[..n], pushed[..n], va);
    }
  }

  /** Operations that give the buffer other contents, or end it. */
  predicate Rewrites(op: Op, va: nat) {
    match op
    case Launch(args, _, _, _) => va in args
    case ToDevice(_, _, _, _, _, _) => false
    case CpuRead(_) => false
    case FailedAlloc(_, _, _) => false
    case _ => op.va == va
  }

  /** A checked copy of the buffer to a device clears its bit. */
  predicate Pulls(op: Op, va: nat) {
    op.ToDevice? && FindsBase(op.route, op.off) && op.va == va && op.ok
  }

  predicate PulledIn(ops: seq<Op>, va: nat) {
    ops != [] && (Pulls(ops[0], va) || PulledIn(ops[1..], va))
  }

  predicate LeavesAlone(ops: seq<Op>, va: nat) {
    ops == [] || (!Rewrites(ops[0], va) && LeavesAlone(ops[1..], va))
  }

  /** The buffer holds `result`: on the backend, and once the bit is gone also for the CPU. */
  ghost predicate Holds(t: Twin, va: nat, result: seq<byte>, pulled: bool) {
    && Ok(t) && va in t.reg && t.backing[va] == result
    && (t.reg[va].gpuDirty <==> !pulled) && (pulled ==> t.guest[va] == result)
  }

  lemma {:induction false} PushAllLeaves(t: Twin, args: seq<nat>, pushed: seq<nat>, va: nat)
    requires Ok(t) && va in t.reg && |pushed| == |args| && va !in args
    ensures PushAll(t, args, pushed).backing[va] == t.backing[va]
    decreases |args|
  {
    if args != [] {
      var n := |args| - 1;
      assert args == args[..n] + [args[n]];
      PushAllLeaves(t, args[..n], pushed[..n], va);
    }
  }

  lemma {:induction false} StepHolds(t: Twin, op: Op, va: nat, result: seq<byte>, pulled: bool)
    requires Holds(t, va, result, pulled) && Allowed(t, op) && Intact(t, op) && !Rewrites(op, va)
    ensures Holds(Step(t, op), va, result, pulled || Pulls(op, va))
  {
    match op
    case Launch(args, kernel, pushed, ran) =>
      PushAllLeaves(t, args, pushed, va);
      var u := PushAll(t, args, pushed);
      MarkAllMarks(if ran then RunKernel(u, args, kernel) else u, args, va);
    case ToDevice(w, off, _, route, _, ok) =>
      if FindsBase(route, off) && w == va && ok && !pulled {
        PullIsWhole(t, va);
      }
    case _ =>
  }

  lemma {:induction false} RunHolds(t: Twin, ops: seq<Op>, va: nat, result: seq<byte>, pulled: bool)
    requires Holds(t, va, result, pulled) && AllowedRun(t, ops) && IntactRun(t, ops) && LeavesAlone(ops, va)
    ensures Holds(Run(t, ops), va, result, pulled || PulledIn(ops, va))
    decreases |ops|
  {
    if ops != [] {
      StepHolds(t, ops[0], va, result, pulled);
      RunHolds(Step(t, ops[0]), ops[1..], va, result, pulled || Pulls(ops[0], va));
    }
  }

  /** A kernel's result in a buffer, after any run that does not rewrite the buffer, reaches the
      next kernel given it exactly if no checked copy to a device pulled it in
      between, or none of its whole words looks like a guest pointer into a range of the host's
      table: the pull clears the bit, and the push that follows translates. */
  lemma ResultReachesNextKernelIff(t: Twin, ops: seq<Op>, va: nat, args: seq<nat>, kernel: Kernel, pushed: seq<nat>)
    requires Reached(t) && Ok(t) && Dirty(t, va)
    requires AllowedRun(t, ops) && SaneRun(t, ops) && IntactRun(t, ops) && LeavesAlone(ops, va)
    requires va in args && |pushed| == |args| && WholePushes(Run(t, ops), args, pushed)
    ensures
      var u := Run(t, ops);
      && va in u.reg && va in PushAll(u, args, pushed).backing
      && Show(u, Launch(args, kernel, pushed, true)) == Buffers(Passed(u.reg, PushAll(u, args, pushed).backing, args))
      && (Passed(u.reg, PushAll(u, args, pushed).backing, args)[va] == t.backing[va]
          <==> !PulledIn(ops, va) || !NeedsPatch(u.table, t.backing[va]))
  {
    ReachedIsHeld(t);
    RunKeepsHeld(t, ops);
    RunHolds(t, ops, va, t.backing[va], false);
    var u := Run(t, ops);
    PushAllPushes(u, args, pushed, va);
    PatchFixpointIff(u.table, t.backing[va]);
  }

  /** What the next kernel sees is the logical contents exactly under the same condition. */
  lemma ViewIsContentsIff(s: Spec, va: nat)
    requires va in s.bufs && AllSound(s.table) && BackendApart(s.table)
    ensures View(s, va) == s.bufs[va].bytes <==> s.bufs[va].gpu || !NeedsPatch(s.table, s.bufs[va].bytes)
  {
    PatchFixpointIff(s.table, s.bufs[va].bytes);
  }

  /* ---- witnesses ---- */

  /** A buffer that malloc can return, in the user half of the address space. */
  predicate UserBuffer(va: nat, size: nat) {
    0 < va && 0 < size && va + size <= 0x8000_0000_0000
  }

  /** A backend address for it that looks like none of its own. */
  predicate BackendFor(p: nat, va: nat, size: nat) {
    0 < p && p + size < U64 && (p + size <= va || va + size <= p)
  }

  /** A kernel that stores the same bytes to every buffer. */
  function Storing(b: seq<byte>): Kernel {
    (_, _) => b
  }

  /** Allocation with contents `g`, then a kernel that leaves `b`. */
  function DirtyRun(va: nat, p: nat, g: seq<byte>, b: seq<byte>): seq<Op> {
    [Alloc(va, g, p), Launch([va], Storing(b), [|g|], true)]
  }

  function DirtyState(va: nat, p: nat, g: seq<byte>, b: seq<byte>): Twin {
    Twin(map[va := Entry(|g|, true)], map[va := g], map[va := b], [Resource(va, p, |g|)])
  }

  /** Allocation with contents `b`, then a CPU write of `g`. */
  function CleanRun(va: nat, p: nat, g: seq<byte>, b: seq<byte>): seq<Op> {
    [Alloc(va, b, p), CpuWrite(va, g)]
  }

  function CleanState(va: nat, p: nat, g: seq<byte>, b: seq<byte>): Twin {
    Twin(map[va := Entry(|g|, false)], map[va := g], map[va := b], [Resource(va, p, |g|)])
  }

  lemma OneEntryPlausible(va: nat, p: nat, size: nat)
    requires UserBuffer(va, size) && BackendFor(p, va, size)
    ensures Plausible([Resource(va, p, size)])
  {
  }

  lemma AfterAlloc(va: nat, p: nat, g: seq<byte>)
    requires UserBuffer(va, |g|) && BackendFor(p, va, |g|)
    ensures Allowed(EMPTY, Alloc(va, g, p)) && FreshAlloc(EMPTY, Alloc(va, g, p))
    ensures Step(EMPTY, Alloc(va, g, p)) == CleanState(va, p, g, g)
  {
    OneEntryPlausible(va, p, |g|);
    assert Entries(va, p, |g|) + EMPTY.table == [Resource(va, p, |g|)];
  }

  lemma AfterLaunch(va: nat, p: nat, g: seq<byte>, b: seq<byte>)
    requires |g| == |b| > 0
    ensures Ok(CleanState(va, p, g, g))
    ensures Step(CleanState(va, p, g, g), Launch([va], Storing(b), [|g|], true)) == DirtyState(va, p, g, b)
  {
    var t := CleanState(va, p, g, g);
    assert [va][..0] == [] && [|g|][..0] == [];
    var u := PushAll(t, [va], [|g|]);
    assert u == Push(PushAll(t, [], []), va, |g|);
    var bufs := Passed(u.reg, u.backing, [va]);
    assert va in bufs && Storing(b)(bufs, va) == b;
    OverwriteWhole(bufs[va], b);
    var w := RunKernel(u, [va], Storing(b));
    assert w.backing == map[va := b];
    assert MarkAll(w, [va]) == SetDirty(MarkAll(w, []), va, true);
  }

  lemma TwoSteps(t: Twin, a: Op, b: Op)
    requires Ok(t) && Allowed(t, a) && FreshAlloc(t, a)
    requires Allowed(Step(t, a), b) && FreshAlloc(Step(t, a), b)
    ensures AllowedRun(t, [a, b]) && SaneRun(t, [a, b]) && Run(t, [a, b]) == Step(Step(t, a), b)
  {
    var u := Step(t, a);
    assert [a, b][1..] == [b] && [b][1..] == [];
    assert AllowedRun(Step(u, b), []) && SaneRun(Step(u, b), []);
    assert AllowedRun(u, [b]) && SaneRun(u, [b]) && Run(u, [b]) == Run(Step(u, b), []);
  }

  lemma DirtyReached(va: nat, p: nat, g: seq<byte>, b: seq<byte>)
    requires UserBuffer(va, |g|) && BackendFor(p, va, |g|) && |g| == |b|
    ensures ByRun(DirtyState(va, p, g, b), DirtyRun(va, p, g, b)) && Reached(DirtyState(va, p, g, b))
  {
    var ops := DirtyRun(va, p, g, b);
    AfterAlloc(va, p, g);
    AfterLaunch(va, p, g, b);
    TwoSteps(EMPTY, ops[0], ops[1]);
    assert ByRun(DirtyState(va, p, g, b), ops);
  }

  lemma CleanReached(va: nat, p: nat, g: seq<byte>, b: seq<byte>)
    requires UserBuffer(va, |g|) && BackendFor(p, va, |g|) && |g| == |b|
    ensures ByRun(CleanState(va, p, g, b), CleanRun(va, p, g, b)) && Reached(CleanState(va, p, g, b))
  {
    var ops := CleanRun(va, p, g, b);
    AfterAlloc(va, p, b);
    TwoSteps(EMPTY, ops[0], ops[1]);
    assert ByRun(CleanState(va, p, g, b), ops);
  }

  /** A run in which a kernel's result is lost: a kernel stores a pointer to its own buffer, the
      buffer is copied to a device, and the next launch pushes the translated pointer over it. */
  lemma ResultLost(h: nat, p: nat)
    requires UserBuffer(h, 8) && BackendFor(p, h, 8)
    ensures
      var t := DirtyState(h, p, Zeros(8), Encode(h, 8));
      && Reached(t) && Dirty(t, h) && t.backing[h] == Encode(h, 8)
      && var copy := ToDevice(h, 0, 8, Checked, 8, true);
         && Allowed(t, copy) && Intact(t, copy)
         && PushAll(Step(t, copy), [h], [8]).backing[h] == Encode(p, 8) != Encode(h, 8)
  {
    var t := DirtyState(h, p, Zeros(8), Encode(h, 8));
    DirtyReached(h, p, Zeros(8), Encode(h, 8));
    PullIsWhole(t, h);
    var u := Pull(t, h, 8, true);
    assert [h][..0] == [] && [8][..0] == [];
    assert PushAll(u, [h], [8]) == Push(PushAll(u, [], []), h, 8);
    PushIsWhole(u, h, 8);
    PointerPatched(h, p);
  }

  lemma PointerPatched(h: nat, p: nat)
    requires UserBuffer(h, 8) && BackendFor(p, h, 8)
    ensures Patch([Resource(h, p, 8)], Encode(h, 8)) == Encode(p, 8) != Encode(h, 8)
  {
    var list, d := [Resource(h, p, 8)], Encode(h, 8);
    WordBounds();
    DecodeEncode(h, 8);
    DecodeEncode(p, 8);
    assert d[..8] == d && d[8..] == [];
    assert PatchWord(list, h) == p;
    assert Patch(list, []) == [];
    assert Patch(list, d) == Encode(p, 8) + [];
  }

  /** A run in which cuMemcpyAsync misses the CPU: what the CPU wrote to a clean buffer is not
      what goes to a device address outside the index. */
  lemma DirectCopyMissesWrite(va: nat, size: nat, p: nat)
    requires UserBuffer(va, size) && BackendFor(p, va, size)
    ensures
      var t, copy := CleanState(va, p, Ones(size), Zeros(size)), ToDevice(va, 0, size, Direct, 0, true);
      && Reached(t) && Ok(t) && Allowed(t, copy)
      && Show(t, copy) == Bytes(Zeros(size)) && SpecShow(Logical(t), copy) == Bytes(Ones(size)) != Bytes(Zeros(size))
  {
    CleanReached(va, p, Ones(size), Zeros(size));
    assert Ones(size)[0] != Zeros(size)[0];
    assert Read(Zeros(size), 0, size) == Zeros(size) && Read(Ones(size), 0, size) == Ones(size);
  }

  /** ... and one in which the CPU misses what comes from such an address, and the next push
      overwrites it. */
  lemma DirectCopyIsMissed(va: nat, size: nat, p: nat)
    requires UserBuffer(va, size) && BackendFor(p, va, size)
    ensures
      var t, copy := CleanState(va, p, Zeros(size), Zeros(size)), FromDevice(va, 0, Ones(size), Direct);
      && Reached(t) && Ok(t) && Allowed(t, copy) && Step(t, copy) == CleanState(va, p, Zeros(size), Ones(size))
      && var u := Step(t, copy);
         && Show(u, CpuRead(va)) == Bytes(Zeros(size)) && PushAll(u, [va], [size]).backing[va] == Zeros(size)
  {
    CleanReached(va, p, Zeros(size), Zeros(size));
    SpliceAll(Zeros(size), Ones(size));
    PushOfZeros(va, size, p);
  }

  lemma PushOfZeros(va: nat, size: nat, p: nat)
    requires UserBuffer(va, size) && BackendFor(p, va, size)
    ensures
      var u := CleanState(va, p, Zeros(size), Ones(size));
      Ok(u) && PushAll(u, [va], [size]).backing[va] == Zeros(size)
  {
    var u := CleanState(va, p, Zeros(size), Ones(size));
    OneEntryPlausible(va, p, size);
    ZerosArePlain(u.table, size);
    assert [va][..0] == [] && [size][..0] == [];
    assert PushAll(u, [va], [size]) == Push(PushAll(u, [], []), va, size);
    PushIsWhole(u, va, size);
  }

  /* ---- exactly when the protocol holds ---- */

  ghost predicate OneBuffer(t: Twin, va: nat, size: nat, dirty: bool) {
    Reached(t) && Ok(t) && va in t.reg && t.reg[va] == Entry(size, dirty)
  }

  ghost predicate Refines(t: Twin, op: Op) {
    && Ok(t) && Allowed(t, op)
    && Logical(Step(t, op)) == SpecStep(Logical(t), op) && Show(t, op) == SpecShow(Logical(t), op)
  }

  function Ones(n: nat): (z: seq<byte>)
    ensures |z| == n && forall i | 0 <= i < n :: z[i] == 1
  {
    seq(n, i => 1)
  }

  /** Copies in the front or the middle of a registered buffer are allowed in every state that can arise. */
  lemma InsideAllowed(t: Twin, va: nat, size: nat, dirty: bool, off: nat, n: nat)
    requires OneBuffer(t, va, size, dirty) && off < size && off + n <= size
    ensures InBuffer(t, va, off, n)
  {
    ReachedIsHeld(t);
  }

  /** The CPU reads the logical contents in every state that can arise exactly of clean buffers. */
  lemma CpuReadIff(va: nat, size: nat, p: nat, dirty: bool)
    requires UserBuffer(va, size) && BackendFor(p, va, size)
    ensures (forall t | OneBuffer(t, va, size, dirty) :: Refines(t, CpuRead(va))) <==> !dirty
  {
    if dirty {
      var t := DirtyState(va, p, Zeros(size), Ones(size));
      DirtyReached(va, p, Zeros(size), Ones(size));
      assert OneBuffer(t, va, size, dirty);
      assert Zeros(size)[0] != Ones(size)[0];
      assert !Refines(t, CpuRead(va));
    } else {
      forall t | OneBuffer(t, va, size, dirty) ensures Refines(t, CpuRead(va)) {
        StepRefines(t, CpuRead(va));
      }
    }
  }

  /** What the CPU writes becomes the logical contents exactly of clean buffers. */
  lemma CpuWriteIff(va: nat, data: seq<byte>, p: nat, dirty: bool)
    requires UserBuffer(va, |data|) && BackendFor(p, va, |data|)
    ensures (forall t | OneBuffer(t, va, |data|, dirty) :: Refines(t, CpuWrite(va, data))) <==> !dirty
  {
    if dirty {
      var b := data[0 := if data[0] == 0 then 1 else 0];
      var t := DirtyState(va, p, data, b);
      DirtyReached(va, p, data, b);
      assert OneBuffer(t, va, |data|, dirty);
      assert Logical(Step(t, CpuWrite(va, data))).bufs[va].bytes == b;
      assert SpecStep(Logical(t), CpuWrite(va, data)).bufs[va].bytes == data;
      assert !Refines(t, CpuWrite(va, data));
    } else {
      forall t | OneBuffer(t, va, |data|, dirty) ensures Refines(t, CpuWrite(va, data)) {
        StepRefines(t, CpuWrite(va, data));
      }
    }
  }

  /** Which copies to a device are right: past the guest copy those of dirty buffers, through it
      those of clean ones and, where the registry finds the base, those of whole buffers. */
  predicate SendsRight(dirty: bool, size: nat, off: nat, count: nat, route: Route) {
    if route == Direct then dirty || count == 0
    else !dirty || (if FindsBase(route, off) then count == size else count == 0)
  }

  lemma ToDeviceWrong(va: nat, size: nat, p: nat, dirty: bool, off: nat, count: nat, route: Route) returns (t: Twin)
    requires UserBuffer(va, size) && BackendFor(p, va, size) && off < size && off + count <= size
    requires !SendsRight(dirty, size, off, count, route)
    ensures OneBuffer(t, va, size, dirty) && !Refines(t, ToDevice(va, off, count, route, count, true))
  {
    var op := ToDevice(va, off, count, route, count, true);
    if dirty {
      t := DirtyState(va, p, Zeros(size), Ones(size));
      DirtyReached(va, p, Zeros(size), Ones(size));
      if FindsBase(route, off) {
        assert Logical(Step(t, op)).bufs[va].bytes[count] == 0;
        assert SpecStep(Logical(t), op).bufs[va].bytes[count] == 1;
      } else {
        assert Read(Zeros(size), off, count)[0] != Read(Ones(size), off, count)[0];
      }
    } else {
      t := CleanState(va, p, Zeros(size), Ones(size));
      CleanReached(va, p, Zeros(size), Ones(size));
      assert Read(Zeros(size), off, count)[0] != Read(Ones(size), off, count)[0];
    }
  }

  /** A successful copy from anywhere in a buffer to a device sends and keeps its contents,
      whatever they are, in every state that can arise, exactly under that condition. */
  lemma ToDeviceIff(va: nat, size: nat, p: nat, dirty: bool, off: nat, count: nat, route: Route)
    requires UserBuffer(va, size) && BackendFor(p, va, size) && off < size && off + count <= size
    ensures (forall t | OneBuffer(t, va, size, dirty) :: Refines(t, ToDevice(va, off, count, route, count, true)))
            <==> SendsRight(dirty, size, off, count, route)
  {
    var op := ToDevice(va, off, count, route, count, true);
    if SendsRight(dirty, size, off, count, route) {
      forall t | OneBuffer(t, va, size, dirty) ensures Refines(t, op) {
        InsideAllowed(t, va, size, dirty, off, count);
        StepRefines(t, op);
      }
    } else {
      var t := ToDeviceWrong(va, size, p, dirty, off, count, route);
    }
  }

  /** Which copies from a device are right, of `n` bytes, all that was asked for or what came
      before a failure. */
  predicate FillsRight(dirty: bool, size: nat, off: nat, n: nat, route: Route) {
    if route == Direct then dirty || n == 0
    else !dirty || (if FindsBase(route, off) then n == size else n == 0)
  }

  lemma FrontOnlyWrong(va: nat, size: nat, p: nat, data: seq<byte>)
    requires UserBuffer(va, size) && BackendFor(p, va, size) && |data| < size
    ensures
      var t := DirtyState(va, p, Zeros(size), Ones(size));
      OneBuffer(t, va, size, true) && !Refines(t, FromDevice(va, 0, data, Checked))
  {
    var t, op := DirtyState(va, p, Zeros(size), Ones(size)), FromDevice(va, 0, data, Checked);
    DirtyReached(va, p, Zeros(size), Ones(size));
    if Allowed(t, op) {
      assert Logical(Step(t, op)).bufs[va].bytes == Splice(Zeros(size), 0, data);
      assert SpecStep(Logical(t), op).bufs[va].bytes == Splice(Ones(size), 0, data);
      assert Splice(Zeros(size), 0, data)[|data|] != Splice(Ones(size), 0, data)[|data|];
    }
  }

  /** A state in which both copies hold `b`. */
  lemma OtherCopyWrong(va: nat, size: nat, p: nat, dirty: bool, off: nat, data: seq<byte>, route: Route, b: seq<byte>)
    requires UserBuffer(va, size) && BackendFor(p, va, size) && off < size == |b| && off + |data| <= size
    requires data != [] && data[0] != b[off] && (if route == Direct then !dirty else dirty && !FindsBase(route, off))
    ensures
      var t := if dirty then DirtyState(va, p, b, b) else CleanState(va, p, b, b);
      OneBuffer(t, va, size, dirty) && !Refines(t, FromDevice(va, off, data, route))
  {
    var t, op := if dirty then DirtyState(va, p, b, b) else CleanState(va, p, b, b), FromDevice(va, off, data, route);
    DirtyReached(va, p, b, b);
    CleanReached(va, p, b, b);
    assert Logical(Step(t, op)).bufs[va].bytes[off] == b[off];
    assert SpecStep(Logical(t), op).bufs[va].bytes[off] == data[0];
  }

  lemma FromDeviceWrong(va: nat, size: nat, p: nat, dirty: bool, off: nat, data: seq<byte>, route: Route)
    returns (t: Twin)
    requires UserBuffer(va, size) && BackendFor(p, va, size) && off < size && off + |data| <= size
    requires !FillsRight(dirty, size, off, |data|, route)
    ensures OneBuffer(t, va, size, dirty) && !Refines(t, FromDevice(va, off, data, route))
  {
    if FindsBase(route, off) {
      FrontOnlyWrong(va, size, p, data);
      t := DirtyState(va, p, Zeros(size), Ones(size));
    } else {
      var b := if data[0] == 0 then Ones(size) else Zeros(size);
      OtherCopyWrong(va, size, p, dirty, off, data, route, b);
      t := if dirty then DirtyState(va, p, b, b) else CleanState(va, p, b, b);
    }
  }

  /** A copy from a device to anywhere in a buffer fills it and keeps the rest, whatever that
      is, in every state that can arise, exactly under that condition. */
  lemma FromDeviceIff(va: nat, size: nat, p: nat, dirty: bool, off: nat, data: seq<byte>, route: Route)
    requires UserBuffer(va, size) && BackendFor(p, va, size) && off < size && off + |data| <= size
    ensures (forall t | OneBuffer(t, va, size, dirty) :: Refines(t, FromDevice(va, off, data, route)))
            <==> FillsRight(dirty, size, off, |data|, route)
  {
    var op := FromDevice(va, off, data, route);
    if FillsRight(dirty, size, off, |data|, route) {
      forall t | OneBuffer(t, va, size, dirty) ensures Refines(t, op) {
        InsideAllowed(t, va, size, dirty, off, |data|);
        StepRefines(t, op);
      }
    } else {
      var t := FromDeviceWrong(va, size, p, dirty, off, data, route);
    }
  }

  /** A launch keeps what the CPU wrote to a buffer it is passed, whatever it is, exactly when
      the buffer was dirty or the push got all of it across. */
  lemma LaunchIff(va: nat, size: nat, p: nat, dirty: bool, n: nat)
    requires UserBuffer(va, size) && BackendFor(p, va, size)
    ensures (forall t | OneBuffer(t, va, size, dirty) :: Refines(t, Launch([va], Storing([]), [n], true)))
            <==> dirty || n >= size
  {
    var op := Launch([va], Storing([]), [n], true);
    if !dirty && n < size {
      var t := CleanState(va, p, Zeros(size), Ones(size));
      CleanReached(va, p, Zeros(size), Ones(size));
      assert OneBuffer(t, va, size, dirty);
      ShortPush(va, size, p, n);
      assert !Refines(t, op);
    } else {
      forall t | OneBuffer(t, va, size, dirty) ensures Refines(t, op) {
        assert WholePush(t, op.args[0], op.pushed[0]);
        StepRefines(t, op);
      }
    }
  }

  /** Zeros are no pointers into a buffer that is not at NULL. */
  lemma {:induction false} ZerosArePlain(list: seq<Resource>, n: nat)
    requires Plausible(list)
    ensures Patch(list, Zeros(n)) == Zeros(n)
    decreases n
  {
    if n >= 8 {
      ZerosArePlain(list, n - 8);
      ZerosDecode(8);
      assert Zeros(n)[..8] == Zeros(8) && Zeros(n)[8..] == Zeros(n - 8);
      forall r | r in list ensures !InRange(r, 0) {
      }
      MissKeepsWord(list, 0);
      EncodeDecode(Zeros(8));
      assert Zeros(8) + Zeros(n - 8) == Zeros(n);
    }
  }

  /** What a kernel sees when only `n` bytes of zeros were pushed over ones. */
  lemma ShortPush(va: nat, size: nat, p: nat, n: nat)
    requires UserBuffer(va, size) && BackendFor(p, va, size) && n < size
    ensures
      var t := CleanState(va, p, Zeros(size), Ones(size));
      && Ok(t) && Passed(t.reg, PushAll(t, [va], [n]).backing, [va])[va] != Views(Logical(t), [va])[va]
  {
    var t := CleanState(va, p, Zeros(size), Ones(size));
    OneEntryPlausible(va, p, size);
    ZerosArePlain(t.table, size);
    ZerosArePlain(t.table, n);
    assert [va][..0] == [] && [n][..0] == [];
    assert PushAll(t, [va], [n]) == Push(PushAll(t, [], []), va, n);
    assert Zeros(size)[..n] == Zeros(n);
    assert PushAll(t, [va], [n]).backing[va][n] == 1;
    assert Views(Logical(t), [va])[va][n] == 0;
  }

  /* ---- the guest library ---- */

  class GuestLibrary {
    var registry: map<nat, Entry>          // g_host_mem_map
    var guest: map<nat, seq<byte>>         // malloc'ed memory, by buffer
    var backing: map<nat, seq<byte>>       // the host's pinned memory, by buffer
    var table: seq<Resource>               // the host's HOST_MEM list
    var devices: set<nat>                  // g_device_handles

    function Now(): Twin
      reads this
    {
      Twin(registry, guest, backing, table)
    }

    constructor ()
      ensures Now() == EMPTY
    {
      registry, guest, backing, table, devices := map[], map[], map[], [], {};
    }

    method Register(va: nat, size: nat)
      modifies this`registry
      ensures registry == old(registry)[va := Entry(size, false)]
    {
      registry := registry[va := Entry(size, false)];
    }

    method Unregister(va: nat)
      modifies this`registry
      ensures registry == old(registry) - {va}
    {
      registry := registry - {va};
    }

    method SizeOf(va: nat) returns (size: nat)
      ensures size == if va in registry then registry[va].size else 0
    {
      size := if va in registry then registry[va].size else 0;
    }

    method MarkGpuDirty(va: nat)
      modifies this`registry
      ensures Now() == SetDirty(old(Now()), va, true)
    {
      if va in registry {
        registry := registry[va := registry[va].(gpuDirty := true)];
      }
    }

    method ClearGpuDirty(va: nat)
      modifies this`registry
      ensures Now() == SetDirty(old(Now()), va, false)
    {
      if va in registry {
        registry := registry[va := registry[va].(gpuDirty := false)];
      }
    }

    method IsGpuDirty(va: nat) returns (dirty: bool)
      ensures dirty <==> Dirty(Now(), va)
    {
      dirty := va in registry && registry[va].gpuDirty;
    }

    /** hmcuda_transport_sync_host_mem_arg: push a clean buffer, of which `n` bytes get across;
        what the dispatch returns is ignored and the bit is left alone. */
    method SyncHostMemArg(p: nat, n: nat)
      requires Ok(Now())
      modifies this`backing
      ensures Now() == Push(old(Now()), p, n)
    {
      if p !in registry {
        return;
      }
      if registry[p].gpuDirty {
        return;
      }
      var k := if n < registry[p].size then n else registry[p].size;
      backing := backing[p := Overwrite(backing[p], Patch(table, guest[p][..k]))];
    }

    /** The loop before the dispatch. */
    method SyncArgs(args: seq<nat>, pushed: seq<nat>)
      requires Ok(Now()) && |pushed| == |args|
      modifies this`backing
      ensures Now() == PushAll(old(Now()), args, pushed)
    {
      ghost var t0 := Now();
      for i := 0 to |args|
        invariant Now() == PushAll(t0, args[..i], pushed[..i])
      {
        SyncHostMemArg(args[i], pushed[i]);
        assert args[..i + 1][..i] == args[..i] && pushed[..i + 1][..i] == pushed[..i];
      }
      assert args[..|args|] == args && pushed[..|args|] == pushed;
    }

    /** The loop after it. */
    method MarkArgs(args: seq<nat>)
      requires Ok(Now())
      modifies this`registry
      ensures Now() == MarkAll(old(Now()), args)
    {
      ghost var t0 := Now();
      for i := 0 to |args|
        invariant Now() == MarkAll(t0, args[..i])
      {
        MarkGpuDirty(args[i]);
        assert args[..i + 1][..i] == args[..i];
      }
      assert args[..|args|] == args;
    }

    /** cudaLaunchKernel on its argument words: push, dispatch, mark.  `pushed` says how far each
        push gets, `launchErr` what the dispatch answers; the marks are set either way. */
    method LaunchKernel(args: seq<nat>, kernel: Kernel, pushed: seq<nat>, launchErr: nat) returns (err: nat)
      requires Ok(Now()) && |pushed| == |args|
      modifies this
      ensures err == launchErr && Now() == Step(old(Now()), Launch(args, kernel, pushed, launchErr == 0))
    {
      SyncArgs(args, pushed);
      err := launchErr;
      if err == 0 {
        backing := RunKernel(Now(), args, kernel).backing;
      }
      MarkArgs(args);
    }

    /** hmcuda_sync_dirty_host_src_to_guest: `pulled` bytes arrive; the bit goes on success only. */
    method SyncDirtyHostSrcToGuest(va: nat, pulled: nat, pullErr: nat) returns (err: nat)
      requires Ok(Now()) && Dirty(Now(), va) && pulled <= registry[va].size
      modifies this`guest, this`registry
      ensures err == pullErr && Now() == Pull(old(Now()), va, pulled, pullErr == 0)
    {
      guest := guest[va := Overwrite(guest[va], backing[va][..pulled])];
      err := pullErr;
      if err == 0 {
        ClearGpuDirty(va);
      }
    }

    /** cuMemcpyHtoD of `count` bytes, `off` bytes into a pinned buffer: for a dirty base a pull,
        whose failure ends the copy; then `sent` goes to the device, whose answer is `sendErr`. */
    method MemcpyHtoD(va: nat, off: nat, count: nat, pulled: nat, pullErr: nat, sendErr: nat)
      returns (err: nat, sent: Seen)
      requires Ok(Now()) && Allowed(Now(), ToDevice(va, off, count, Checked, pulled, pullErr == 0))
      modifies this`guest, this`registry
      ensures Now() == Step(old(Now()), ToDevice(va, off, count, Checked, pulled, pullErr == 0))
      ensures sent == Show(old(Now()), ToDevice(va, off, count, Checked, pulled, pullErr == 0))
      ensures err == if Dirty(old(Now()), va + off) && pullErr != 0 then pullErr else sendErr
    {
      var dirty := IsGpuDirty(va + off);
      if dirty {
        err := SyncDirtyHostSrcToGuest(va + off, pulled, pullErr);
        if err != 0 {
          return err, Nothing;
        }
      }
      err, sent := sendErr, Bytes(Read(guest[va], off, count));
    }

    /** cuMemcpyDtoH to `off` bytes into a pinned buffer: `data` arrives, all that was asked for
        or what came before a failure; the bit of a base goes either way. */
    method MemcpyDtoH(va: nat, off: nat, data: seq<byte>, copyErr: nat) returns (err: nat)
      requires Ok(Now()) && Allowed(Now(), FromDevice(va, off, data, Checked))
      modifies this`guest, this`registry
      ensures err == copyErr && Now() == Step(old(Now()), FromDevice(va, off, data, Checked))
    {
      guest := guest[va := Splice(guest[va], off, data)];
      err := copyErr;
      ClearGpuDirty(va + off);
    }

    /** cuMemcpyAsync, and cuMemcpy, from a pinned buffer to device address `dst`: through the
        guest copy exactly if the index holds `dst`. */
    method MemcpyAsyncToDevice(dst: nat, va: nat, off: nat, count: nat, pulled: nat, pullErr: nat, copyErr: nat)
      returns (err: nat, sent: Seen, ghost op: Op)
      requires Ok(Now()) && InBuffer(Now(), va, off, count) && va + off !in devices
      requires pulled <= count && (pullErr == 0 ==> pulled == count)
      modifies this`guest, this`registry
      ensures op == if dst in devices then ToDevice(va, off, count, Checked, pulled, pullErr == 0)
                    else ToDevice(va, off, count, Direct, pulled, copyErr == 0)
      ensures Now() == Step(old(Now()), op) && sent == Show(old(Now()), op)
    {
      var srcIsDevice, dstIsDevice := va + off in devices, dst in devices;
      if !srcIsDevice && dstIsDevice {
        op := ToDevice(va, off, count, Checked, pulled, pullErr == 0);
        err, sent := MemcpyHtoD(va, off, count, pulled, pullErr, copyErr);
      } else {
        op := ToDevice(va, off, count, Direct, pulled, copyErr == 0);
        err := copyErr;
        sent := if err == 0 then Bytes(Read(backing[va], off, count)) else Nothing;
      }
    }

    /** ... and from device address `src` to a pinned buffer. */
    method MemcpyAsyncFromDevice(va: nat, off: nat, src: nat, data: seq<byte>, copyErr: nat) returns (err: nat)
      requires Ok(Now()) && InBuffer(Now(), va, off, |data|) && va + off !in devices
      modifies this`guest, this`registry, this`backing
      ensures err == copyErr
      ensures Now() == Step(old(Now()), FromDevice(va, off, data, if src in devices then Checked else Direct))
    {
      var srcIsDevice, dstIsDevice := src in devices, va + off in devices;
      if srcIsDevice && !dstIsDevice {
        err := MemcpyDtoH(va, off, data, copyErr);
      } else {
        backing := backing[va := Splice(backing[va], off, data)];
        err := copyErr;
      }
    }

    /** cudaMemcpy looks at neither the registry nor the index. */
    method RuntimeMemcpyToDevice(va: nat, off: nat, count: nat, sendErr: nat) returns (err: nat, sent: Seen)
      requires Ok(Now()) && InBuffer(Now(), va, off, count)
      ensures err == sendErr && sent == Show(Now(), ToDevice(va, off, count, Plain, 0, true))
    {
      err, sent := sendErr, Bytes(Read(guest[va], off, count));
    }

    method RuntimeMemcpyFromDevice(va: nat, off: nat, data: seq<byte>, copyErr: nat) returns (err: nat)
      requires Ok(Now()) && InBuffer(Now(), va, off, |data|)
      modifies this`guest
      ensures err == copyErr && Now() == Step(old(Now()), FromDevice(va, off, data, Plain))
    {
      guest := guest[va := Splice(guest[va], off, data)];
      err := copyErr;
    }

    /** The index's side of cuMemAlloc and cuMemAddressReserve. */
    method MemAlloc(dptr: nat, err: nat)
      modifies this`devices
      ensures devices == if err == 0 then old(devices) + {dptr} else old(devices)
    {
      if err == 0 {
        devices := devices + {dptr};
      }
    }

    /** ... and of cuMemFree and cuMemAddressFree. */
    method MemFree(dptr: nat)
      modifies this`devices
      ensures devices == old(devices) - {dptr}
    {
      devices := devices - {dptr};
    }

    /** cuMemHostAlloc: `va` is what malloc returned, 0 for NULL, and `data` what it held; a
        dispatch that failed after some bytes leaves an entry at the host but none here. */
    method MemHostAlloc(va: nat, data: seq<byte>, realPtr: nat, err: nat, moved: nat) returns (res: nat)
      requires Ok(Now()) && va !in registry && moved <= |data|
      modifies this
      ensures res == if va == 0 then Api.CUDA_ERROR_OUT_OF_MEMORY else err
      ensures Now() == if res == 0 then Step(old(Now()), Alloc(va, data, realPtr))
                       else if va > 0 && moved > 0 then Step(old(Now()), FailedAlloc(va, |data|, realPtr))
                       else old(Now())
    {
      if va == 0 {
        return Api.CUDA_ERROR_OUT_OF_MEMORY;
      }
      res := err;
      if err != 0 {
        if moved > 0 {
          table := Entries(va, realPtr, |data|) + table;
        }
        return;
      }
      guest, backing := guest[va := data], backing[va := data];
      table := Entries(va, realPtr, |data|) + table;
      Register(va, |data|);
    }

    /** cuMemFreeHost: a buffer of size 0 cannot be told from an unknown one.  The guest forgets
        the buffer even when the dispatch never `reached` the host. */
    method MemFreeHost(va: nat, reached: bool, err: nat) returns (res: nat)
      requires Ok(Now())
      modifies this
      ensures Now() == Step(old(Now()), Free(va, reached))
      ensures res == if va in old(registry) && old(registry)[va].size > 0 then err else Api.CUDA_ERROR_INVALID_VALUE
    {
      var size := SizeOf(va);
      if size == 0 {
        return Api.CUDA_ERROR_INVALID_VALUE;
      }
      Unregister(va);
      if reached {
        table := Removed(table, va);
      }
      res := err;
    }
  }

  /* ---- kernel arguments on the host ---- */

  /** An argument word that is a live handle, inside device memory first, becomes a real
      pointer; any other word is a scalar. */
  function TranslateArg(mem: seq<Resource>, hostMem: seq<Resource>, v: nat): nat {
    var d := Lookup(mem, MEM, v);
    if d != 0 then d
    else
      var p := Lookup(hostMem, HOST_MEM, v);
      if p != 0 then p else v
  }

  /** What an argument word must become: the address of the same byte in the device allocation
      it points into, else in the backend copy of the pinned buffer it points into; a word that
      points into neither stays. */
  ghost predicate Translated(mem: seq<Resource>, hostMem: seq<Resource>, v: nat, arg: nat) {
    && (forall r | Rules(mem, r) && Inside(r, v) :: arg == r.realPtr + (v - r.handle))
    && ((forall m | m in mem :: !Inside(m, v)) ==>
          forall r | Rules(hostMem, r) && Inside(r, v) :: arg == r.realPtr + (v - r.handle))
    && ((forall q | q in mem || q in hostMem :: !Inside(q, v)) ==> arg == v)
  }

  /** The in-place translation loop of hmcuda_core_launch_kernel. */
  method TranslateArgs(ctx: Context, args: array<nat>)
    modifies args
    ensures forall i | 0 <= i < args.Length :: args[i] == TranslateArg(ctx.List(MEM), ctx.List(HOST_MEM), old(args[i]))
    ensures AllSound(ctx.List(MEM)) && AllSound(ctx.List(HOST_MEM)) ==>
      forall i | 0 <= i < args.Length :: Translated(ctx.List(MEM), ctx.List(HOST_MEM), old(args[i]), args[i])
  {
    for i := 0 to args.Length
      invariant forall j | 0 <= j < i :: args[j] == TranslateArg(ctx.List(MEM), ctx.List(HOST_MEM), old(args[j]))
      invariant forall j | i <= j < args.Length :: args[j] == old(args[j])
    {
      var p := ctx.Get(MEM, args[i]);
      if p == 0 {
        p := ctx.Get(HOST_MEM, args[i]);
      }
      if p != 0 {
        args[i] := p;
      }
    }
    if AllSound(ctx.List(MEM)) && AllSound(ctx.List(HOST_MEM)) {
      forall i | 0 <= i < args.Length
        ensures Translated(ctx.List(MEM), ctx.List(HOST_MEM), old(args[i]), args[i])
      {
        TranslateArgIs(ctx.List(MEM), ctx.List(HOST_MEM), old(args[i]));
      }
    }
  }

  lemma TranslateArgIs(mem: seq<Resource>, hostMem: seq<Resource>, v: nat)
    requires AllSound(mem) && AllSound(hostMem)
    ensures Translated(mem, hostMem, v, TranslateArg(mem, hostMem, v))
  {
    forall r | Rules(mem, r) && Inside(r, v) ensures TranslateArg(mem, hostMem, v) == r.realPtr + (v - r.handle) {
      ArgReachesDevice(mem, hostMem, r, v);
    }
    if forall m | m in mem :: !Inside(m, v) {
      forall r | Rules(hostMem, r) && Inside(r, v) ensures TranslateArg(mem, hostMem, v) == r.realPtr + (v - r.handle) {
        ArgReachesBacking(mem, hostMem, r, v);
      }
      if forall q | q in hostMem :: !Inside(q, v) {
        NoneResolves(mem, MEM, v);
        NoneResolves(hostMem, HOST_MEM, v);
      }
    }
  }

  /** A device pointer reaches the kernel as the device's address of the same byte, whatever is
      pinned; so a handle that is its own address arrives as it is. */
  lemma ArgReachesDevice(mem: seq<Resource>, hostMem: seq<Resource>, r: Resource, v: nat)
    requires AllSound(mem) && Rules(mem, r) && Inside(r, v)
    ensures TranslateArg(mem, hostMem, v) == r.realPtr + (v - r.handle)
    ensures r.handle == r.realPtr ==> TranslateArg(mem, hostMem, v) == v
  {
    RulerListed(mem, r);
    assert Sound(r);
    RulerResolves(mem, MEM, r, v);
  }

  /** A pointer into a pinned buffer, and into no device allocation, reaches the kernel as the
      address of the same byte of the backend copy. */
  lemma ArgReachesBacking(mem: seq<Resource>, hostMem: seq<Resource>, r: Resource, v: nat)
    requires AllSound(mem) && AllSound(hostMem) && forall m | m in mem :: !Inside(m, v)
    requires Rules(hostMem, r) && Inside(r, v)
    ensures TranslateArg(mem, hostMem, v) == r.realPtr + (v - r.handle)
  {
    RulerListed(hostMem, r);
    assert Sound(r);
    NoneResolves(mem, MEM, v);
    RulerResolves(hostMem, HOST_MEM, r, v);
  }
}
