/** Copy requests as bytes: parsed once, rewritten in place for every batch, read by the host
    (driver/virtio_hmcuda_main.c:160-176, 268-290, common/include/hmcuda_cmd_runtime.h:29-37,
    common/include/hmcuda_cmd_driver.h:210-215). */
module Requests {
  import opened Api
  import opened Memory
  import opened Framing
  import opened Vhost
  import opened Copy

  /** What the copy path carries along: the header's flags, a copy's stream, an allocation's flags. */
  datatype Extra = Extra(headerFlags: uint32, stream: uint64, allocFlags: uint32)

  predicate InWords(req: Request) {
    match req
    case Memcpy(_, dst, src, count, kind) => dst < U64 && src < U64 && count < U64 && kind < U32
    case HostAlloc(bytesize, guestVa, byteOffset) => bytesize < U64 && guestVa < U64 && byteOffset < U64
  }

  function RequestFields(req: Request, x: Extra): (f: Fields)
    requires InWords(req)
    ensures Ok(f)
  {
    match req
    case Memcpy(_, dst, src, count, kind) =>
      U64Field(dst, U64Field(src, U64Field(count, U32Field(kind, U32Field(0, U64Field(x.stream, End))))))
    case HostAlloc(bytesize, guestVa, byteOffset) =>
      U64Field(bytesize, U32Field(x.allocFlags, U32Field(0, U64Field(guestVa, U64Field(byteOffset, End)))))
  }

  /** Header and structure as the library lays them out. */
  function RequestBytes(req: Request, x: Extra): seq<byte>
    requires InWords(req)
  {
    Encode(CmdType(req), 4) + (Encode(x.headerFlags, 4) + Pack(RequestFields(req, x)))
  }

  /** A number of `w` bytes at `at`. */
  function FieldAt(b: seq<byte>, at: nat, w: nat): nat
    requires at + w <= |b|
  {
    Decode(b[at..at + w])
  }

  /** The host's view of a readable descriptor of a copy command. */
  function ReadRequest(b: seq<byte>): Option<Request> {
    if |b| < 8 then None
    else
      var cmd := FieldAt(b, 0, 4);
      if (cmd == 0x3 || cmd == 0x1001F) && |b| >= 48 then
        Some(Memcpy(cmd == 0x3, FieldAt(b, 8, 8), FieldAt(b, 16, 8), FieldAt(b, 24, 8), FieldAt(b, 32, 4)))
      else if cmd == 0x1001A && |b| >= 40 then Some(HostAlloc(FieldAt(b, 8, 8), FieldAt(b, 24, 8), FieldAt(b, 32, 8)))
      else None
  }

  lemma MemcpyThere(req: Request, x: Extra, b: seq<byte>)
    requires req.Memcpy? && InWords(req) && |b| >= 8 && b[8..] == Pack(RequestFields(req, x))
    ensures |b| == 48 && Holds(b, 8, 8, req.dst) && Holds(b, 16, 8, req.src) && Holds(b, 24, 8, req.count)
      && Holds(b, 32, 4, req.kind) && Holds(b, 40, 8, x.stream)
  {
    var f := RequestFields(req, x);
    assert b[8..] == Pack(f) + [];
    FieldThere(f, [], b, 8);
    FieldThere(f.rest, [], b, 16);
    FieldThere(f.rest.rest, [], b, 24);
    FieldThere(f.rest.rest.rest, [], b, 32);
    FieldThere(f.rest.rest.rest.rest, [], b, 36);
    FieldThere(f.rest.rest.rest.rest.rest, [], b, 40);
  }

  lemma HostAllocThere(req: Request, x: Extra, b: seq<byte>)
    requires req.HostAlloc? && InWords(req) && |b| >= 8 && b[8..] == Pack(RequestFields(req, x))
    ensures |b| == 40 && Holds(b, 8, 8, req.bytesize) && Holds(b, 16, 4, x.allocFlags)
      && Holds(b, 24, 8, req.guestVa) && Holds(b, 32, 8, req.byteOffset)
  {
    var f := RequestFields(req, x);
    assert b[8..] == Pack(f) + [];
    FieldThere(f, [], b, 8);
    FieldThere(f.rest, [], b, 16);
    FieldThere(f.rest.rest, [], b, 20);
    FieldThere(f.rest.rest.rest, [], b, 24);
    FieldThere(f.rest.rest.rest.rest, [], b, 32);
  }

  /** The host reads the request that was written, and takes its length for that of the
      readable descriptor in front of the data. */
  lemma ReadBack(req: Request, x: Extra)
    requires InWords(req)
    ensures ReadRequest(RequestBytes(req, x)) == Some(req) && |RequestBytes(req, x)| == RequestLen(req)
  {
    var b := RequestBytes(req, x);
    assert b[..4] == Encode(CmdType(req), 4) && b[8..] == Pack(RequestFields(req, x));
    WordBounds();
    DecodeEncode(CmdType(req), 4);
    assert b[0..4] == b[..4];
    if req.Memcpy? {
      MemcpyThere(req, x, b);
    } else {
      HostAllocThere(req, x, b);
    }
  }

  /* ---- rewriting in place ---- */

  /** The request of this job, whatever its last batch was. */
  predicate Carries(b: seq<byte>, job: Job) {
    match ReadRequest(b)
    case Some(Memcpy(runtime, _, _, _, kind)) =>
      && !job.PinnedAlloc? && job.runtime == runtime && kind == (if job.ToDevice? then 1 else 2)
    case Some(HostAlloc(bytesize, guestVa, _)) => job == PinnedAlloc(guestVa, bytesize)
    case None => false
  }

  lemma ParsedCarries(b: seq<byte>, req: Request)
    requires ReadRequest(b) == Some(req) && (req.Memcpy? ==> req.kind == 1 || req.kind == 2)
    ensures Carries(b, ParseArgs(req))
  {
  }

  method PutU64(buf: array<byte>, at: nat, v: uint64)
    requires at + 8 <= buf.Length
    modifies buf
    ensures buf[..] == Splice(old(buf[..]), at, Encode(v, 8))
  {
    ghost var b := buf[..];
    var e := Encode(v, 8);
    for i := 0 to 8
      invariant forall j | 0 <= j < buf.Length :: buf[j] == if at <= j < at + i then e[j - at] else b[j]
    {
      buf[at + i] := e[i];
    }
  }

  lemma FieldPut(b: seq<byte>, at: nat, v: uint64, b': seq<byte>)
    requires at + 8 <= |b| && b' == Splice(b, at, Encode(v, 8))
    ensures |b'| == |b| && FieldAt(b', at, 8) == v
  {
    WordBounds();
    DecodeEncode(v, 8);
    assert b'[at..at + 8] == Encode(v, 8);
  }

  lemma FieldKept(b: seq<byte>, at: nat, v: uint64, b': seq<byte>, from: nat, w: nat)
    requires at + 8 <= |b| && b' == Splice(b, at, Encode(v, 8)) && from + w <= |b|
    requires from + w <= at || at + 8 <= from
    ensures FieldAt(b', from, w) == FieldAt(b, from, w)
  {
    assert b'[from..from + w] == b[from..from + w];
  }

  lemma HeaderKept(b: seq<byte>, at: nat, v: uint64, b': seq<byte>)
    requires 8 <= at && at + 8 <= |b| && b' == Splice(b, at, Encode(v, 8))
    ensures FieldAt(b', 0, 4) == FieldAt(b, 0, 4) && FieldAt(b', 4, 4) == FieldAt(b, 4, 4)
  {
    FieldKept(b, at, v, b', 0, 4);
    FieldKept(b, at, v, b', 4, 4);
  }

  /** Count and addresses of a copy request put in one after the other. */
  lemma MemcpyRewritten(b: seq<byte>, b1: seq<byte>, b2: seq<byte>, b3: seq<byte>, count: uint64, src: uint64,
                        dst: uint64)
    requires |b| >= 48 && b1 == Splice(b, 24, Encode(count, 8))
    requires b2 == Splice(b1, 16, Encode(src, 8)) && b3 == Splice(b2, 8, Encode(dst, 8))
    ensures FieldAt(b3, 8, 8) == dst && FieldAt(b3, 16, 8) == src && FieldAt(b3, 24, 8) == count
    ensures FieldAt(b3, 0, 4) == FieldAt(b, 0, 4) && FieldAt(b3, 4, 4) == FieldAt(b, 4, 4)
    ensures FieldAt(b3, 32, 4) == FieldAt(b, 32, 4) && FieldAt(b3, 40, 8) == FieldAt(b, 40, 8)
  {
    HeaderKept(b, 24, count, b1);
    HeaderKept(b1, 16, src, b2);
    HeaderKept(b2, 8, dst, b3);
    FieldPut(b, 24, count, b1);
    FieldPut(b1, 16, src, b2);
    FieldPut(b2, 8, dst, b3);
    FieldKept(b1, 16, src, b2, 24, 8);
    FieldKept(b2, 8, dst, b3, 24, 8);
    FieldKept(b2, 8, dst, b3, 16, 8);
    KeptBehind(b, 24, count, b1);
    KeptBehind(b1, 16, src, b2);
    KeptBehind(b2, 8, dst, b3);
  }

  lemma KeptBehind(b: seq<byte>, at: nat, v: uint64, b': seq<byte>)
    requires |b| >= 48 && at + 8 <= 32 && b' == Splice(b, at, Encode(v, 8))
    ensures FieldAt(b', 32, 4) == FieldAt(b, 32, 4) && FieldAt(b', 40, 8) == FieldAt(b, 40, 8)
  {
    FieldKept(b, at, v, b', 32, 4);
    FieldKept(b, at, v, b', 40, 8);
  }

  lemma HostAllocRewritten(b: seq<byte>, b': seq<byte>, byteOffset: uint64)
    requires |b| >= 40 && b' == Splice(b, 32, Encode(byteOffset, 8))
    ensures FieldAt(b', 32, 8) == byteOffset
    ensures FieldAt(b', 8, 8) == FieldAt(b, 8, 8) && FieldAt(b', 24, 8) == FieldAt(b, 24, 8)
    ensures FieldAt(b', 0, 4) == FieldAt(b, 0, 4) && FieldAt(b', 4, 4) == FieldAt(b, 4, 4)
    ensures FieldAt(b', 16, 4) == FieldAt(b, 16, 4)
  {
    HeaderKept(b, 32, byteOffset, b');
    FieldPut(b, 32, byteOffset, b');
    FieldKept(b, 32, byteOffset, b', 8, 8);
    FieldKept(b, 32, byteOffset, b', 24, 8);
    FieldKept(b, 32, byteOffset, b', 16, 4);
  }

  /** The fields that no batch changes. */
  predicate SameExtras(b: seq<byte>, b': seq<byte>, job: Job) {
    && |b'| == |b| && |b| >= 40 && FieldAt(b', 0, 4) == FieldAt(b, 0, 4) && FieldAt(b', 4, 4) == FieldAt(b, 4, 4)
    && if job.PinnedAlloc? then FieldAt(b', 16, 4) == FieldAt(b, 16, 4)
       else |b| >= 48 && FieldAt(b', 32, 4) == FieldAt(b, 32, 4) && FieldAt(b', 40, 8) == FieldAt(b, 40, 8)
  }

  /** The per-batch update of the request: the host then reads the request of this batch, with
      no user address in it, and stream and flags as the caller gave them. */
  method Rewrite(buf: array<byte>, job: Job, byteOffset: uint64, count: uint64)
    requires Carries(buf[..], job) && (!job.PinnedAlloc? ==> job.dev + byteOffset < U64)
    modifies buf
    ensures ReadRequest(buf[..]) == Some(BatchRequest(job, byteOffset, count))
    ensures Carries(buf[..], job) && SameExtras(old(buf[..]), buf[..], job)
  {
    ghost var b := buf[..];
    if job.PinnedAlloc? {
      PutU64(buf, 32, byteOffset);
      HostAllocRewritten(b, buf[..], byteOffset);
    } else {
      PutU64(buf, 24, count);
      ghost var b1 := buf[..];
      var src: uint64, dst: uint64 := 0, 0;
      if job.ToDevice? {
        dst := job.dev + byteOffset;
      } else {
        src := job.dev + byteOffset;
      }
      PutU64(buf, 16, src);
      ghost var b2 := buf[..];
      PutU64(buf, 8, dst);
      MemcpyRewritten(b, b1, b2, buf[..], count, src, dst);
    }
  }
}
