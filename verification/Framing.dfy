/** Requests with variable-length tails: how the guest library lays them out
    (guest/intercept/hmcuda_runtime.cpp:149-165, 593-627, hmcuda_driver.cpp:628-649), how the
    driver finds their length in two passes (driver/virtio_hmcuda_main.c:80-148), and how the
    host reads them back (host/vhost/cmd_runtime.c:190-195, 298-315, cmd_driver.c:505-518).

    Structures have the x86-64 layout: little-endian fields, naturally aligned; padding is
    written as a field of value 0. */
module Framing {
  import opened Api
  import opened Memory

  datatype Command = LaunchKernel | RegisterFatbin | RegisterFunction | MemSetAccess | DeviceGetName

  function CommandId(cmd: Command): uint32 {
    match cmd
    case LaunchKernel => 0x5
    case RegisterFatbin => 0xF
    case RegisterFunction => 0x10
    case MemSetAccess => 0x1002B
    case DeviceGetName => 0x10005
  }

  /** The dispatch on the command word at the host, for the commands modelled here. */
  function CommandWith(id: uint32): Option<Command> {
    if id == 0x5 then Some(LaunchKernel)
    else if id == 0xF then Some(RegisterFatbin)
    else if id == 0x10 then Some(RegisterFunction)
    else if id == 0x1002B then Some(MemSetAccess)
    else if id == 0x10005 then Some(DeviceGetName)
    else None
  }

  lemma CommandRoundTrip(cmd: Command, id: uint32)
    ensures CommandWith(id) == Some(cmd) <==> id == CommandId(cmd)
  {
  }

  /** The first word of each request on the wire. */
  lemma CommandBytes()
    ensures Encode(CommandId(LaunchKernel), 4) == [5, 0, 0, 0]
    ensures Encode(CommandId(RegisterFatbin), 4) == [15, 0, 0, 0]
    ensures Encode(CommandId(RegisterFunction), 4) == [16, 0, 0, 0]
    ensures Encode(CommandId(MemSetAccess), 4) == [43, 0, 1, 0]
    ensures Encode(CommandId(DeviceGetName), 4) == [5, 0, 1, 0]
  {
    FourDigits(5, 0, 0, 0);
    FourDigits(15, 0, 0, 0);
    FourDigits(16, 0, 0, 0);
    FourDigits(43, 0, 1, 0);
    FourDigits(5, 0, 1, 0);
  }

  lemma FourDigits(a: byte, b: byte, c: byte, d: byte)
    ensures Encode(FourBytes(a, b, c, d), 4) == [a, b, c, d]
  {
    LittleEndian4([a, b, c, d]);
    EncodeDecode([a, b, c, d]);
  }

  /* ---- structures, field by field ---- */

  datatype Fields = End | Field(width: nat, value: nat, rest: Fields)

  predicate Ok(f: Fields) {
    f.End? || (f.value < Pow256(f.width) && Ok(f.rest))
  }

  function Len(f: Fields): nat {
    if f.End? then 0 else f.width + Len(f.rest)
  }

  /** The layout alone. */
  function Blank(f: Fields): (r: Fields)
    ensures Len(r) == Len(f)
  {
    if f.End? then End else Field(f.width, 0, Blank(f.rest))
  }

  function U32Field(v: uint32, rest: Fields): (f: Fields)
    requires Ok(rest)
    ensures f == Field(4, v, rest) && Ok(f) && Len(f) == 4 + Len(rest) && Blank(f) == Field(4, 0, Blank(rest))
  {
    WordBounds();
    Field(4, v, rest)
  }

  function U64Field(v: uint64, rest: Fields): (f: Fields)
    requires Ok(rest)
    ensures f == Field(8, v, rest) && Ok(f) && Len(f) == 8 + Len(rest) && Blank(f) == Field(8, 0, Blank(rest))
  {
    WordBounds();
    Field(8, v, rest)
  }

  function Pack(f: Fields): (b: seq<byte>)
    ensures |b| == Len(f)
  {
    if f.End? then [] else Encode(f.value, f.width) + Pack(f.rest)
  }

  function Unpack(layout: Fields, b: seq<byte>): Fields
    requires |b| >= Len(layout)
  {
    if layout.End? then End
    else Field(layout.width, Decode(b[..layout.width]), Unpack(layout.rest, b[layout.width..]))
  }

  /** A structure is read back as it was written, whatever follows it. */
  lemma {:induction false} UnpackPack(f: Fields, tail: seq<byte>)
    requires Ok(f)
    ensures Unpack(Blank(f), Pack(f) + tail) == f
    decreases f
  {
    if f.Field? {
      var e, b := Encode(f.value, f.width), Pack(f.rest);
      assert (e + b) + tail == e + (b + tail);
      assert (e + (b + tail))[..f.width] == e && (e + (b + tail))[f.width..] == b + tail;
      DecodeEncode(f.value, f.width);
      UnpackPack(f.rest, tail);
    }
  }

  /* ---- messages ---- */

  datatype Dim3 = Dim3(x: uint32, y: uint32, z: uint32)

  datatype Desc = Desc(locationType: uint32, locationId: uint32, flags: uint32)

  datatype Msg =
    | Launch(func: uint64, grid: Dim3, block: Dim3, sharedMem: uint32, stream: uint64, args: seq<uint64>)
    | Fatbin(data: seq<byte>)
    | Function(fatbin: uint64, hostFun: uint64, name: seq<byte>)
    | SetAccess(ptr: uint64, size: uint64, descs: seq<Desc>)

  function CommandOf(m: Msg): Command {
    match m
    case Launch(_, _, _, _, _, _) => LaunchKernel
    case Fatbin(_) => RegisterFatbin
    case Function(_, _, _) => RegisterFunction
    case SetAccess(_, _, _) => MemSetAccess
  }

  /** Conversion to uint32_t. */
  function Low32(n: nat): uint32 {
    n % 0x1_0000_0000
  }

  function LaunchFields(func: uint64, g: Dim3, b: Dim3, sharedMem: uint32, stream: uint64, argsSize: uint32)
    : (f: Fields)
    ensures Ok(f) && Len(f) == 56 && Blank(f) == LaunchLayout()
  {
    U64Field(func, U32Field(g.x, U32Field(g.y, U32Field(g.z, LaunchFieldsRest(b, sharedMem, stream, argsSize)))))
  }

  function LaunchFieldsRest(b: Dim3, sharedMem: uint32, stream: uint64, argsSize: uint32): (f: Fields)
    ensures Ok(f) && Len(f) == 36 && Blank(f) == LaunchLayoutRest()
  {
    var rest := U64Field(stream, U32Field(argsSize, U32Field(0, End)));
    U32Field(b.x, U32Field(b.y, U32Field(b.z, U32Field(sharedMem, U32Field(0, rest)))))
  }

  function LaunchLayout(): Fields {
    Field(8, 0, Field(4, 0, Field(4, 0, Field(4, 0, LaunchLayoutRest()))))
  }

  function LaunchLayoutRest(): Fields {
    Field(4, 0, Field(4, 0, Field(4, 0, Field(4, 0, Field(4, 0, Field(8, 0, Field(4, 0, Field(4, 0, End))))))))
  }

  /** Two 64-bit fields and a count: the register-function and set-access requests. */
  function CountedFields(a: uint64, b: uint64, count: uint32): (f: Fields)
    ensures Ok(f) && Len(f) == 24 && Blank(f) == CountedLayout()
  {
    U64Field(a, U64Field(b, U32Field(count, U32Field(0, End))))
  }

  function CountedLayout(): Fields {
    Field(8, 0, Field(8, 0, Field(4, 0, Field(4, 0, End))))
  }

  function Layout(cmd: Command): Fields {
    match cmd
    case LaunchKernel => LaunchLayout()
    case RegisterFatbin => Field(8, 0, End)
    case RegisterFunction => CountedLayout()
    case MemSetAccess => CountedLayout()
    case DeviceGetName => Field(4, 0, Field(4, 0, End))
  }

  /** sizeof of the request structure, and of the fixed response. */
  function FixedLen(cmd: Command): nat {
    match cmd
    case LaunchKernel => 56
    case RegisterFatbin => 8
    case RegisterFunction => 24
    case MemSetAccess => 24
    case DeviceGetName => 8
  }

  function ResponseLen(cmd: Command): nat {
    match cmd
    case RegisterFatbin => 8
    case RegisterFunction => 8
    case DeviceGetName => 4
    case _ => 0
  }

  lemma LayoutLen(cmd: Command)
    ensures Len(Layout(cmd)) == FixedLen(cmd)
  {
    assert Blank(LaunchFields(0, Dim3(0, 0, 0), Dim3(0, 0, 0), 0, 0, 0)) == LaunchLayout();
    assert Blank(CountedFields(0, 0, 0)) == CountedLayout();
  }

  /** The structure that the guest library fills in. */
  function FieldsOf(m: Msg): (f: Fields)
    ensures Ok(f) && Blank(f) == Layout(CommandOf(m)) && Len(f) == FixedLen(CommandOf(m))
  {
    match m
    case Launch(func, g, b, sharedMem, stream, args) => LaunchFields(func, g, b, sharedMem, stream, Low32(8 * |args|))
    case Fatbin(data) => U64Field(Wrap64(|data|), End)
    case Function(fatbin, hostFun, name) => CountedFields(fatbin, hostFun, Low32(|name|))
    case SetAccess(ptr, size, descs) => CountedFields(ptr, size, Low32(|descs|))
  }

  function ArgBytes(args: seq<uint64>): (b: seq<byte>)
    ensures |b| == 8 * |args|
  {
    if args == [] then [] else Encode(args[0], 8) + ArgBytes(args[1..])
  }

  function ReadArgs(b: seq<byte>, n: nat): (args: seq<uint64>)
    requires |b| >= 8 * n
    ensures |args| == n
  {
    if n == 0 then [] else
      WordBounds();
      [Decode(b[..8])] + ReadArgs(b[8..], n - 1)
  }

  lemma {:induction false} ReadArgsBack(args: seq<uint64>, n: nat, tail: seq<byte>)
    requires n <= |args|
    ensures ReadArgs(ArgBytes(args) + tail, n) == args[..n]
    decreases n
  {
    if n > 0 {
      var e, b := Encode(args[0], 8), ArgBytes(args[1..]);
      assert (e + b) + tail == e + (b + tail);
      assert (e + (b + tail))[..8] == e && (e + (b + tail))[8..] == b + tail;
      WordBounds();
      DecodeEncode(args[0], 8);
      ReadArgsBack(args[1..], n - 1, tail);
    }
  }

  function DescFields(d: Desc): (f: Fields)
    ensures Ok(f) && Len(f) == 12 && Blank(f) == Field(4, 0, Field(4, 0, Field(4, 0, End)))
  {
    U32Field(d.locationType, U32Field(d.locationId, U32Field(d.flags, End)))
  }

  function DescBytes(descs: seq<Desc>): (b: seq<byte>)
    ensures |b| == 12 * |descs|
  {
    if descs == [] then [] else Pack(DescFields(descs[0])) + DescBytes(descs[1..])
  }

  function ReadDesc(b: seq<byte>): Desc
    requires |b| >= 12
  {
    WordBounds();
    Desc(Decode(b[..4]), Decode(b[4..8]), Decode(b[8..12]))
  }

  function ReadDescs(b: seq<byte>, n: nat): (descs: seq<Desc>)
    requires |b| >= 12 * n
    ensures |descs| == n
  {
    if n == 0 then [] else [ReadDesc(b)] + ReadDescs(b[12..], n - 1)
  }

  lemma ReadDescBack(d: Desc, tail: seq<byte>)
    ensures ReadDesc(Pack(DescFields(d)) + tail) == d
  {
    var f := DescFields(d);
    var b := Pack(f) + tail;
    UnpackPack(f, tail);
    assert b[4..][..4] == b[4..8] && b[4..][4..][..4] == b[8..12];
    var u := Unpack(Blank(f), b);
    assert u == Field(4, Decode(b[..4]), Unpack(Field(4, 0, Field(4, 0, End)), b[4..]));
  }

  lemma {:induction false} ReadDescsBack(descs: seq<Desc>, n: nat, tail: seq<byte>)
    requires n <= |descs|
    ensures ReadDescs(DescBytes(descs) + tail, n) == descs[..n]
    decreases n
  {
    if n > 0 {
      var e, b := Pack(DescFields(descs[0])), DescBytes(descs[1..]);
      assert (e + b) + tail == e + (b + tail);
      assert (e + (b + tail))[12..] == b + tail;
      ReadDescBack(descs[0], b + tail);
      ReadDescsBack(descs[1..], n - 1, tail);
    }
  }

  function Tail(m: Msg): seq<byte> {
    match m
    case Launch(_, _, _, _, _, args) => ArgBytes(args)
    case Fatbin(data) => data
    case Function(_, _, name) => name
    case SetAccess(_, _, descs) => DescBytes(descs)
  }

  /** The payload the guest library dispatches. */
  function Serialize(m: Msg): seq<byte> {
    Pack(FieldsOf(m)) + Tail(m)
  }

  /** The bytes that a structure says follow it. */
  function Claimed(cmd: Command, f: Fields): nat {
    match cmd
    case LaunchKernel => ArgsSizeField(f)
    case RegisterFatbin => FirstField(f)
    case RegisterFunction => CountField(f)
    case MemSetAccess => 12 * CountField(f)
    case DeviceGetName => 0
  }

  /** Value of the `n`-th field. */
  function Value(f: Fields, n: nat): nat {
    if f == End then 0 else if n == 0 then f.value else Value(f.rest, n - 1)
  }

  function ArgsSizeField(f: Fields): nat {
    Value(f, 10)
  }

  function FirstField(f: Fields): nat {
    if f.Field? then f.value else 0
  }

  function SecondField(f: Fields): nat {
    match f
    case Field(_, _, Field(_, v, _)) => v
    case _ => 0
  }

  function CountField(f: Fields): nat {
    match f
    case Field(_, _, Field(_, _, Field(_, count, _))) => count
    case _ => 0
  }

  /** A C string up to and including its terminator. */
  function CString(b: seq<byte>): seq<byte> {
    if b == [] then [] else if b[0] == 0 then [0] else [b[0]] + CString(b[1..])
  }

  predicate IsCString(name: seq<byte>) {
    name != [] && (if |name| == 1 then name[0] == 0 else name[0] != 0 && IsCString(name[1..]))
  }

  lemma {:induction false} CStringIs(name: seq<byte>)
    ensures IsCString(name) <==>
      name != [] && name[|name| - 1] == 0 && forall i | 0 <= i < |name| - 1 :: name[i] != 0
    decreases |name|
  {
    if |name| > 1 {
      CStringIs(name[1..]);
      assert forall i | 0 < i < |name| :: name[i] == name[1..][i - 1];
      assert forall i | 0 <= i < |name| - 1 :: name[1..][i] == name[i + 1];
    }
  }

  lemma {:induction false} CStringBack(name: seq<byte>, k: nat)
    requires IsCString(name) && k <= |name|
    ensures CString(name[..k]) == name[..k]
    decreases k
  {
    if k > 0 {
      assert name[..k][1..] == name[1..][..k - 1];
      if |name| > 1 {
        CStringBack(name[1..], k - 1);
        assert name[..k] == [name[0]] + name[1..][..k - 1];
      } else {
        assert name[..k] == [0];
      }
    }
  }

  /** Reads the fields that a decoded launch structure holds. */
  function AsLaunch(f: Fields, args: seq<uint64>): Msg {
    Launch(Wrap64(Value(f, 0)), Dim3(Low32(Value(f, 1)), Low32(Value(f, 2)), Low32(Value(f, 3))),
           Dim3(Low32(Value(f, 4)), Low32(Value(f, 5)), Low32(Value(f, 6))),
           Low32(Value(f, 7)), Wrap64(Value(f, 9)), args)
  }

  /** What the handlers make of a payload. */
  function HostDecode(cmd: Command, payload: seq<byte>): Msg
    requires |payload| >= Len(Layout(cmd)) && |payload| >= Len(Layout(cmd)) + Claimed(cmd, Unpack(Layout(cmd), payload))
    requires cmd != DeviceGetName
  {
    var f, tail := Unpack(Layout(cmd), payload), payload[Len(Layout(cmd))..];
    match cmd
    case LaunchKernel => AsLaunch(f, ReadArgs(tail, ArgsSizeField(f) / 8))
    case RegisterFatbin => Fatbin(tail[..FirstField(f)])
    case RegisterFunction => Function(Wrap64(FirstField(f)), Wrap64(SecondField(f)), CString(tail))
    case MemSetAccess => SetAccess(Wrap64(FirstField(f)), Wrap64(SecondField(f)), ReadDescs(tail, CountField(f)))
    case DeviceGetName => assert false; Fatbin([])
  }

  /** The count of the tail fits the field that carries it. */
  predicate CountFits(m: Msg) {
    match m
    case Launch(_, _, _, _, _, args) => 8 * |args| < 0x1_0000_0000
    case Fatbin(data) => |data| < 0x1_0000_0000_0000_0000
    case Function(_, _, name) => |name| < 0x1_0000_0000
    case SetAccess(_, _, descs) => |descs| < 0x1_0000_0000
  }

  predicate WellFormed(m: Msg) {
    m.Function? ==> IsCString(m.name)
  }

  /** Length of the tail as the guest library announces it. */
  function Announced(m: Msg): (n: nat)
    ensures n <= |Tail(m)| && (n == |Tail(m)| <==> CountFits(m))
  {
    match m
    case Launch(_, _, _, _, _, args) => Low32(8 * |args|)
    case Fatbin(data) => Wrap64(|data|)
    case Function(_, _, name) => Low32(|name|)
    case SetAccess(_, _, descs) => 12 * Low32(|descs|)
  }

  lemma NextValue(f: Fields, n: nat)
    requires f.Field?
    ensures Value(f, n + 1) == Value(f.rest, n) && Value(f, 0) == f.value
  {
  }

  lemma LaunchValues(func: uint64, g: Dim3, b: Dim3, sharedMem: uint32, stream: uint64, argsSize: uint32)
    ensures
      var f := LaunchFields(func, g, b, sharedMem, stream, argsSize);
      && Value(f, 0) == func && Value(f, 1) == g.x && Value(f, 2) == g.y && Value(f, 3) == g.z
      && Value(f, 4) == b.x && Value(f, 5) == b.y && Value(f, 6) == b.z && Value(f, 7) == sharedMem
      && Value(f, 9) == stream && Value(f, 10) == argsSize
  {
    var f := LaunchFields(func, g, b, sharedMem, stream, argsSize);
    var r := LaunchFieldsRest(b, sharedMem, stream, argsSize);
    LaunchRestValues(b, sharedMem, stream, argsSize);
    FourOn(f);
    assert f.rest.rest.rest.rest == r;
  }

  lemma LaunchRestValues(b: Dim3, sharedMem: uint32, stream: uint64, argsSize: uint32)
    ensures
      var r := LaunchFieldsRest(b, sharedMem, stream, argsSize);
      && Value(r, 0) == b.x && Value(r, 1) == b.y && Value(r, 2) == b.z && Value(r, 3) == sharedMem
      && Value(r, 5) == stream && Value(r, 6) == argsSize
  {
    var r := LaunchFieldsRest(b, sharedMem, stream, argsSize);
    FourOn(r);
    FourOn(r.rest.rest.rest.rest);
  }

  /** The fields behind the first four, by number. */
  lemma FourOn(f: Fields)
    requires f.Field? && f.rest.Field? && f.rest.rest.Field? && f.rest.rest.rest.Field?
    ensures Value(f, 0) == f.value && Value(f, 1) == f.rest.value
    ensures Value(f, 2) == f.rest.rest.value && Value(f, 3) == f.rest.rest.rest.value
    ensures forall n: nat :: Value(f, n + 4) == Value(f.rest.rest.rest.rest, n)
  {
    forall n: nat ensures Value(f, n + 4) == Value(f.rest.rest.rest.rest, n) {
      NextValue(f, n + 3);
      NextValue(f.rest, n + 2);
      NextValue(f.rest.rest, n + 1);
      NextValue(f.rest.rest.rest, n);
    }
    NextValue(f, 0);
    NextValue(f, 1);
    NextValue(f, 2);
    NextValue(f.rest, 0);
    NextValue(f.rest, 1);
    NextValue(f.rest.rest, 0);
  }

  lemma ClaimedIsAnnounced(m: Msg)
    ensures Claimed(CommandOf(m), FieldsOf(m)) == Announced(m)
  {
    if m.Launch? {
      LaunchValues(m.func, m.grid, m.block, m.sharedMem, m.stream, Low32(8 * |m.args|));
    }
  }

  lemma UnpackFront(f: Fields, t: seq<byte>, slack: seq<byte>)
    requires Ok(f)
    ensures Unpack(Blank(f), (Pack(f) + t) + slack) == f
  {
    UnpackPack(f, t + slack);
    assert (Pack(f) + t) + slack == Pack(f) + (t + slack);
  }

  lemma UserFields(m: Msg, slack: seq<byte>)
    ensures
      var cmd, user := CommandOf(m), Serialize(m) + slack;
      && |user| >= Len(Layout(cmd)) == FixedLen(cmd) && Unpack(Layout(cmd), user) == FieldsOf(m)
  {
    LayoutLen(CommandOf(m));
    UnpackFront(FieldsOf(m), Tail(m), slack);
  }

  /** The second size pass finds the length that was serialized, exactly when the count fits its field. */
  lemma SecondPassExact(m: Msg, slack: seq<byte>)
    ensures
      var cmd, user := CommandOf(m), Serialize(m) + slack;
      && |user| >= Len(Layout(cmd))
      && FixedLen(cmd) + Claimed(cmd, Unpack(Layout(cmd), user)) <= |Serialize(m)|
      && (FixedLen(cmd) + Claimed(cmd, Unpack(Layout(cmd), user)) == |Serialize(m)| <==> CountFits(m))
  {
    UserFields(m, slack);
    ClaimedIsAnnounced(m);
    assert |Serialize(m)| == FixedLen(CommandOf(m)) + |Tail(m)|;
  }

  lemma {:induction false} ArgBytesPrefix(args: seq<uint64>, k: nat)
    requires k <= |args|
    ensures ArgBytes(args)[..8 * k] == ArgBytes(args[..k])
    decreases k
  {
    if k > 0 {
      ArgBytesPrefix(args[1..], k - 1);
      assert args[..k][1..] == args[1..][..k - 1];
    }
  }

  lemma {:induction false} DescBytesPrefix(descs: seq<Desc>, k: nat)
    requires k <= |descs|
    ensures DescBytes(descs)[..12 * k] == DescBytes(descs[..k])
    decreases k
  {
    if k > 0 {
      DescBytesPrefix(descs[1..], k - 1);
      assert descs[..k][1..] == descs[1..][..k - 1];
    }
  }

  /** The payload as the host receives it: the announced bytes only. */
  function Received(m: Msg): (b: seq<byte>)
    ensures |b| == FixedLen(CommandOf(m)) + Announced(m)
  {
    Pack(FieldsOf(m)) + Tail(m)[..Announced(m)]
  }

  /** The message with its tail cut to what the count field can say. */
  function Cut(m: Msg): Msg {
    match m
    case Launch(_, _, _, _, _, args) => m.(args := args[..Low32(8 * |args|) / 8])
    case Fatbin(data) => Fatbin(data[..Wrap64(|data|)])
    case Function(_, _, name) => m.(name := name[..Low32(|name|)])
    case SetAccess(_, _, descs) => m.(descs := descs[..Low32(|descs|)])
  }

  lemma CutIff(m: Msg)
    ensures Cut(m) == m <==> CountFits(m)
  {
  }

  lemma WholeArgs(n: nat)
    ensures 8 * (Low32(8 * n) / 8) == Low32(8 * n)
  {
    var q := 8 * n / 0x1_0000_0000;
    assert Low32(8 * n) == 8 * (n - 0x2000_0000 * q);
  }

  lemma DecodeArgs(args: seq<uint64>, size: nat, k: nat)
    requires size == 8 * k && k <= |args|
    ensures ReadArgs(ArgBytes(args)[..size], size / 8) == args[..size / 8]
  {
    ArgBytesPrefix(args, k);
    ReadArgsBack(args[..k], k, []);
    assert ArgBytes(args[..k]) + [] == ArgBytes(args[..k]);
  }

  lemma DecodeAccess(descs: seq<Desc>, k: nat)
    requires k <= |descs|
    ensures ReadDescs(DescBytes(descs)[..12 * k], k) == descs[..k]
  {
    DescBytesPrefix(descs, k);
    ReadDescsBack(descs[..k], k, []);
    assert DescBytes(descs[..k]) + [] == DescBytes(descs[..k]);
  }

  lemma UnpackReceived(m: Msg)
    ensures
      var cmd, p := CommandOf(m), Received(m);
      && |p| >= Len(Layout(cmd)) && Unpack(Layout(cmd), p) == FieldsOf(m)
      && |p| == Len(Layout(cmd)) + Claimed(cmd, FieldsOf(m))
      && p[Len(Layout(cmd))..] == Tail(m)[..Announced(m)]
  {
    LayoutLen(CommandOf(m));
    UnpackPack(FieldsOf(m), Tail(m)[..Announced(m)]);
    ClaimedIsAnnounced(m);
  }

  predicate DecodesTo(cmd: Command, p: seq<byte>, m: Msg) {
    && cmd != DeviceGetName && |p| >= Len(Layout(cmd)) && |p| == Len(Layout(cmd)) + Claimed(cmd, Unpack(Layout(cmd), p))
    && HostDecode(cmd, p) == m
  }

  lemma LaunchBack(m: Msg, f: Fields, args: seq<uint64>)
    requires m.Launch? && f == FieldsOf(m)
    ensures AsLaunch(f, args) == m.(args := args) && ArgsSizeField(f) == Low32(8 * |m.args|)
  {
    LaunchValues(m.func, m.grid, m.block, m.sharedMem, m.stream, Low32(8 * |m.args|));
  }

  lemma ReceivedLaunch(m: Msg)
    requires m.Launch?
    ensures DecodesTo(LaunchKernel, Received(m), Cut(m))
  {
    UnpackReceived(m);
    var size := Low32(8 * |m.args|);
    LaunchBack(m, FieldsOf(m), m.args[..size / 8]);
    WholeArgs(|m.args|);
    DecodeArgs(m.args, size, size / 8);
  }

  lemma ReceivedAccess(m: Msg)
    requires m.SetAccess?
    ensures DecodesTo(MemSetAccess, Received(m), Cut(m))
  {
    UnpackReceived(m);
    DecodeAccess(m.descs, Low32(|m.descs|));
  }

  lemma ReceivedImage(m: Msg)
    requires (m.Function? || m.Fatbin?) && WellFormed(m)
    ensures DecodesTo(CommandOf(m), Received(m), Cut(m))
  {
    UnpackReceived(m);
    if m.Function? {
      CStringBack(m.name, Low32(|m.name|));
    }
  }

  /** The host decodes exactly the message with its tail cut to the count field. */
  lemma DecodeReceived(m: Msg)
    requires WellFormed(m)
    ensures DecodesTo(CommandOf(m), Received(m), Cut(m))
  {
    match m
    case Launch(_, _, _, _, _, _) => ReceivedLaunch(m);
    case SetAccess(_, _, _) => ReceivedAccess(m);
    case _ => ReceivedImage(m);
  }

  /* ---- the bytes on the wire ---- */

  /** A little-endian number of `w` bytes at offset `at`. */
  predicate Holds(b: seq<byte>, at: nat, w: nat, v: nat) {
    at + w <= |b| && Decode(b[at..at + w]) == v
  }

  lemma FieldThere(f: Fields, tail: seq<byte>, b: seq<byte>, at: nat)
    requires f.Field? && Ok(f) && at <= |b| && b[at..] == Pack(f) + tail
    ensures Holds(b, at, f.width, f.value) && at + f.width <= |b| && b[at + f.width..] == Pack(f.rest) + tail
  {
    var e := Encode(f.value, f.width);
    assert Pack(f) + tail == e + (Pack(f.rest) + tail);
    assert b[at..at + f.width] == b[at..][..f.width] == e;
    assert b[at + f.width..] == b[at..][f.width..];
    DecodeEncode(f.value, f.width);
  }

  /** Three numbers of four bytes, one behind the other. */
  predicate HoldsDim(b: seq<byte>, at: nat, d: Dim3) {
    Holds(b, at, 4, d.x) && Holds(b, at + 4, 4, d.y) && Holds(b, at + 8, 4, d.z)
  }

  lemma DimThere(f: Fields, tail: seq<byte>, b: seq<byte>, at: nat, d: Dim3, rest: Fields)
    requires Ok(rest) && f == U32Field(d.x, U32Field(d.y, U32Field(d.z, rest)))
    requires at <= |b| && b[at..] == Pack(f) + tail
    ensures HoldsDim(b, at, d) && at + 12 <= |b| && b[at + 12..] == Pack(rest) + tail
  {
    FieldThere(f, tail, b, at);
    FieldThere(f.rest, tail, b, at + 4);
    FieldThere(f.rest.rest, tail, b, at + 8);
  }

  lemma {:induction false} ArgsThere(args: seq<uint64>, b: seq<byte>, at: nat, i: nat)
    requires at <= |b| && b[at..] == ArgBytes(args) && i < |args|
    ensures Holds(b, at + 8 * i, 8, args[i])
    decreases i
  {
    var e := Encode(args[0], 8);
    WordBounds();
    DecodeEncode(args[0], 8);
    assert b[at..at + 8] == b[at..][..8] == e;
    assert b[at + 8..] == b[at..][8..] == ArgBytes(args[1..]);
    if i > 0 {
      ArgsThere(args[1..], b, at + 8, i - 1);
    }
  }

  /** A launch request byte by byte, as the compiler lays the structure out. */
  lemma LaunchOnWire(m: Msg)
    requires m.Launch?
    ensures
      var b := Serialize(m);
      && Holds(b, 0, 8, m.func) && HoldsDim(b, 8, m.grid) && HoldsDim(b, 20, m.block)
      && Holds(b, 32, 4, m.sharedMem) && Holds(b, 40, 8, m.stream) && Holds(b, 48, 4, Low32(8 * |m.args|))
      && |b| == 56 + 8 * |m.args| && forall i | 0 <= i < |m.args| :: Holds(b, 56 + 8 * i, 8, m.args[i])
  {
    var b, tail, n := Serialize(m), ArgBytes(m.args), Low32(8 * |m.args|);
    var f := FieldsOf(m);
    assert b[0..] == Pack(f) + tail;
    FieldThere(f, tail, b, 0);
    DimThere(f.rest, tail, b, 8, m.grid, LaunchFieldsRest(m.block, m.sharedMem, m.stream, n));
    LaunchRestThere(m, tail, b, n);
    forall i | 0 <= i < |m.args| ensures Holds(b, 56 + 8 * i, 8, m.args[i]) {
      ArgsThere(m.args, b, 56, i);
    }
  }

  lemma LaunchRestThere(m: Msg, tail: seq<byte>, b: seq<byte>, n: uint32)
    requires m.Launch? && |b| >= 20 && b[20..] == Pack(LaunchFieldsRest(m.block, m.sharedMem, m.stream, n)) + tail
    ensures HoldsDim(b, 20, m.block) && Holds(b, 32, 4, m.sharedMem)
      && Holds(b, 40, 8, m.stream) && Holds(b, 48, 4, n) && |b| >= 56 && b[56..] == tail
  {
    var f := LaunchFieldsRest(m.block, m.sharedMem, m.stream, n);
    var g := f.rest.rest.rest;
    DimThere(f, tail, b, 20, m.block, g);
    FieldThere(g, tail, b, 32);
    FieldThere(g.rest, tail, b, 36);
    FieldThere(g.rest.rest, tail, b, 40);
    FieldThere(g.rest.rest.rest, tail, b, 48);
    FieldThere(g.rest.rest.rest.rest, tail, b, 52);
    assert Pack(End) + tail == tail;
  }

  lemma CountedThere(f: Fields, a: uint64, c: uint64, n: uint32, tail: seq<byte>, b: seq<byte>)
    requires f == CountedFields(a, c, n) && b == Pack(f) + tail
    ensures Holds(b, 0, 8, a) && Holds(b, 8, 8, c) && Holds(b, 16, 4, n) && |b| >= 24 && b[24..] == tail
  {
    assert b[0..] == b;
    FieldThere(f, tail, b, 0);
    FieldThere(f.rest, tail, b, 8);
    FieldThere(f.rest.rest, tail, b, 16);
    FieldThere(f.rest.rest.rest, tail, b, 20);
    assert Pack(End) + tail == tail;
  }

  predicate HoldsDesc(b: seq<byte>, at: nat, d: Desc) {
    Holds(b, at, 4, d.locationType) && Holds(b, at + 4, 4, d.locationId) && Holds(b, at + 8, 4, d.flags)
  }

  lemma DescThere(d: Desc, rest: seq<byte>, b: seq<byte>, at: nat)
    requires at <= |b| && b[at..] == Pack(DescFields(d)) + rest
    ensures HoldsDesc(b, at, d) && at + 12 <= |b| && b[at + 12..] == rest
  {
    DimThere(DescFields(d), rest, b, at, Dim3(d.locationType, d.locationId, d.flags), End);
    assert Pack(End) + rest == rest;
  }

  lemma {:induction false} DescsThere(descs: seq<Desc>, b: seq<byte>, at: nat, i: nat)
    requires at <= |b| && b[at..] == DescBytes(descs) && i < |descs|
    ensures HoldsDesc(b, at + 12 * i, descs[i])
    decreases i
  {
    DescThere(descs[0], DescBytes(descs[1..]), b, at);
    if i > 0 {
      DescsThere(descs[1..], b, at + 12, i - 1);
    }
  }

  lemma AccessOnWire(m: Msg)
    requires m.SetAccess?
    ensures
      var b := Serialize(m);
      && Holds(b, 0, 8, m.ptr) && Holds(b, 8, 8, m.size) && Holds(b, 16, 4, Low32(|m.descs|))
      && |b| == 24 + 12 * |m.descs| && forall i | 0 <= i < |m.descs| :: HoldsDesc(b, 24 + 12 * i, m.descs[i])
  {
    CountedThere(FieldsOf(m), m.ptr, m.size, Low32(|m.descs|), DescBytes(m.descs), Serialize(m));
    forall i | 0 <= i < |m.descs| ensures HoldsDesc(Serialize(m), 24 + 12 * i, m.descs[i]) {
      DescsThere(m.descs, Serialize(m), 24, i);
    }
  }

  lemma ImageOnWire(m: Msg)
    requires m.Function? || m.Fatbin?
    ensures
      var b := Serialize(m);
      if m.Function? then
        && Holds(b, 0, 8, m.fatbin) && Holds(b, 8, 8, m.hostFun) && Holds(b, 16, 4, Low32(|m.name|))
        && |b| >= 24 && b[24..] == m.name
      else Holds(b, 0, 8, Wrap64(|m.data|)) && |b| >= 8 && b[8..] == m.data
  {
    var b := Serialize(m);
    if m.Function? {
      CountedThere(FieldsOf(m), m.fatbin, m.hostFun, Low32(|m.name|), m.name, b);
    } else {
      assert b[0..] == b;
      FieldThere(FieldsOf(m), m.data, b, 0);
      assert Pack(End) + m.data == m.data;
    }
  }

  /* ---- the code on the way ---- */

  /** hmcuda_runtime_get_sizes and hmcuda_driver_get_sizes on these commands. */
  method GetSizes(cmd: Command, payload: Option<seq<byte>>) returns (reqSize: nat, respSize: nat)
    requires payload.Some? ==> |payload.value| >= Len(Layout(cmd))
    ensures reqSize == FixedLen(cmd) + if payload.Some? then Claimed(cmd, Unpack(Layout(cmd), payload.value)) else 0
    ensures cmd != DeviceGetName || payload == None ==> respSize == ResponseLen(cmd)
    ensures cmd == DeviceGetName && payload.Some? ==> respSize == 4 + Decode(payload.value[4..8])
  {
    reqSize, respSize := FixedLen(cmd), ResponseLen(cmd);
    if payload.Some? {
      var r := Unpack(Layout(cmd), payload.value);
      match cmd
      case LaunchKernel => reqSize := reqSize + ArgsSizeField(r);
      case RegisterFatbin => reqSize := reqSize + FirstField(r);
      case RegisterFunction => reqSize := reqSize + CountField(r);
      case MemSetAccess => reqSize := reqSize + CountField(r) * 12;
      case DeviceGetName =>
        respSize := respSize + SecondField(r);
        assert SecondField(r) == Decode(payload.value[4..][..4]) && payload.value[4..][..4] == payload.value[4..8];
    }
  }

  /** hmcuda_get_req_sizes: the first pass sizes the structure, the second pass the request;
      the response length stays that of the first pass, also where the second would add to it. */
  method GetReqSizes(cmd: Command, user: seq<byte>) returns (ret: int, reqLen: nat, respLen: nat)
    ensures ret == 0 <==> |user| >= FixedLen(cmd)
    ensures respLen == ResponseLen(cmd)
    ensures ret == 0 ==> |user| >= Len(Layout(cmd)) && reqLen == FixedLen(cmd) + Claimed(cmd, Unpack(Layout(cmd), user))
  {
    LayoutLen(cmd);
    reqLen, respLen := GetSizes(cmd, None);
    if |user| < reqLen {
      return -EFAULT, reqLen, respLen;
    }
    var fixedReq := user[..reqLen];
    UnpackPrefix(Layout(cmd), user, reqLen);
    var secondPass, _ := GetSizes(cmd, Some(fixedReq));
    reqLen := secondPass;
    ret := 0;
  }

  lemma {:induction false} UnpackPrefix(layout: Fields, b: seq<byte>, n: nat)
    requires Len(layout) <= n <= |b|
    ensures Unpack(layout, b[..n]) == Unpack(layout, b)
    decreases layout
  {
    if layout.Field? {
      assert b[..n][..layout.width] == b[..layout.width];
      assert b[..n][layout.width..] == b[layout.width..][..n - layout.width];
      UnpackPrefix(layout.rest, b[layout.width..], n - layout.width);
    }
  }

  /** hmcuda_build_req_buf: header and request, copied from user memory. */
  method BuildReqBuf(cmd: Command, user: seq<byte>, reqLen: nat) returns (ret: int, buf: seq<byte>)
    ensures ret == 0 <==> |user| >= reqLen
    ensures ret == 0 ==> buf == (Encode(CommandId(cmd), 4) + Encode(0, 4)) + user[..reqLen]
  {
    buf := Encode(CommandId(cmd), 4) + Encode(0, 4);
    if reqLen > 0 {
      if |user| < reqLen {
        return -EFAULT, [];
      }
      buf := buf + user[..reqLen];
    }
    ret := 0;
  }

  /** The guest's loop over access descriptors. */
  method MarshalDescs(descs: seq<Desc>) returns (out: seq<byte>)
    ensures out == DescBytes(descs)
  {
    out := [];
    assert descs[..0] == [];
    for i := 0 to |descs|
      invariant out == DescBytes(descs[..i])
    {
      DescBytesSnoc(descs[..i], descs[i]);
      assert descs[..i + 1] == descs[..i] + [descs[i]];
      out := out + (Encode(descs[i].locationType, 4) + Encode(descs[i].locationId, 4) + Encode(descs[i].flags, 4));
    }
    assert descs[..|descs|] == descs;
  }

  lemma {:induction false} DescBytesSnoc(descs: seq<Desc>, d: Desc)
    ensures DescBytes(descs + [d])
      == DescBytes(descs) + (Encode(d.locationType, 4) + Encode(d.locationId, 4) + Encode(d.flags, 4))
    decreases |descs|
  {
    var e := Encode(d.locationType, 4) + Encode(d.locationId, 4) + Encode(d.flags, 4);
    if descs == [] {
      var f := U32Field(d.flags, End);
      assert Pack(f) == Encode(d.flags, 4) + [];
      assert Pack(DescFields(d)) == Encode(d.locationType, 4) + (Encode(d.locationId, 4) + Encode(d.flags, 4));
      assert ([] + [d])[1..] == [];
    } else {
      DescBytesSnoc(descs[1..], d);
      assert (descs + [d])[1..] == descs[1..] + [d];
    }
  }

  /** The host's loop over access descriptors. */
  method DecodeDescs(tail: seq<byte>, count: nat) returns (descs: seq<Desc>)
    requires |tail| >= 12 * count
    ensures descs == ReadDescs(tail, count)
  {
    descs := [];
    var rest := tail;
    for i := 0 to count
      invariant |rest| >= 12 * (count - i) && descs + ReadDescs(rest, count - i) == ReadDescs(tail, count)
    {
      descs := descs + [ReadDesc(rest)];
      rest := rest[12..];
    }
  }

  lemma RequestParts(buf: seq<byte>, cmd: Command, payload: seq<byte>)
    requires buf == (Encode(CommandId(cmd), 4) + Encode(0, 4)) + payload
    ensures |buf| >= HEADER_LEN && Decode(buf[..4]) == CommandId(cmd) && buf[HEADER_LEN..] == payload
  {
    var word := Encode(CommandId(cmd), 4);
    assert buf == word + (Encode(0, 4) + payload);
    assert buf[..4] == word;
    WordBounds();
    DecodeEncode(CommandId(cmd), 4);
  }

  /** The host's part: it dispatches on the command word of what arrived. */
  method Serve(m: Msg, buf: seq<byte>) returns (decoded: Msg)
    requires WellFormed(m) && buf == (Encode(CommandId(CommandOf(m)), 4) + Encode(0, 4)) + Received(m)
    ensures decoded == Cut(m)
  {
    RequestParts(buf, CommandOf(m), Received(m));
    var word, payload := Decode(buf[..4]), buf[HEADER_LEN..];
    DecodeReceived(m);
    CommandRoundTrip(CommandOf(m), word);
    decoded := HostDecode(CommandWith(word).value, payload);
  }

  /** From the guest library through the driver to the handlers: what is decoded is what was
      sent, exactly when the count fits its field.  `slack` is the unused end of the ioctl buffer. */
  method Forward(m: Msg, slack: seq<byte>) returns (ret: int, decoded: Msg)
    requires WellFormed(m)
    ensures ret == 0 && (decoded == m <==> CountFits(m))
  {
    var cmd := CommandOf(m);
    UserFields(m, slack);
    ClaimedIsAnnounced(m);
    var user := Serialize(m) + slack;
    var reqLen, respLen, buf;
    ret, reqLen, respLen := GetReqSizes(cmd, user);
    ret, buf := BuildReqBuf(cmd, user, reqLen);
    assert user[..reqLen] == Received(m);
    decoded := Serve(m, buf);
    CutIff(m);
  }
}
