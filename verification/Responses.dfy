/** Responses on their way back: the host's handlers (host/vhost/cmd_runtime.c:298-315,
    cmd_driver.c:220-234), the driver's response buffer, sized by the first pass
    (driver/virtio_hmcuda_main.c:80-148, 378-421), and the guest library
    (guest/transport/hmcuda_transport.cpp:151-208, guest/intercept/hmcuda_driver.cpp:117-135). */
module Responses {
  import opened Api
  import opened Memory
  import opened Framing
  import Vhost

  datatype Response =
    | Done
    | FatbinHandle(handle: uint64)
    | FunctionInfo(params: uint32, totalSize: uint32)

  /** The handler's answer to each command, apart from the device name. */
  predicate Answers(r: Response, cmd: Command) {
    match cmd
    case RegisterFatbin => r.FatbinHandle?
    case RegisterFunction => r.FunctionInfo?
    case DeviceGetName => false
    case _ => r.Done?
  }

  function ResponseFields(r: Response): (f: Fields)
    ensures Ok(f)
  {
    match r
    case Done => End
    case FatbinHandle(h) => U64Field(h, End)
    case FunctionInfo(params, totalSize) => U32Field(params, U32Field(totalSize, End))
  }

  /** The driver makes room for exactly the structure that the handler writes. */
  lemma RoomForResponse(r: Response, cmd: Command)
    requires Answers(r, cmd)
    ensures ResponseLen(cmd) == |Pack(ResponseFields(r))|
  {
  }

  function Zeros(n: nat): (z: seq<byte>)
    ensures |z| == n
  {
    seq(n, i => 0)
  }

  /** The first `n` bytes, with zeros behind what is there. */
  function Padded(b: seq<byte>, n: nat): (r: seq<byte>)
    ensures |r| == n && (|b| >= n ==> r == b[..n]) && (|b| < n ==> r == b + Zeros(n - |b|))
  {
    if |b| >= n then b[..n] else b + Zeros(n - |b|)
  }

  /** The zeroed response buffer, filled by the host as far as it goes, is copied over the front
      of the library's buffer; the rest of that still holds the request. */
  method CopyBack(response: seq<byte>, totalResp: nat, buffer: seq<byte>) returns (ret: int, after: seq<byte>)
    ensures ret == 0 <==> |buffer| >= totalResp
    ensures ret == 0 ==> after == Padded(response, totalResp) + buffer[totalResp..]
  {
    var respBuf := Zeros(totalResp);
    var copy := if |response| < |respBuf| then |response| else |respBuf|;
    respBuf := response[..copy] + respBuf[copy..];
    if |buffer| < totalResp {
      return -EFAULT, buffer;
    }
    ret, after := 0, respBuf + buffer[totalResp..];
  }

  /** The header of a response: its command, then its error. */
  lemma HeaderThere(cmd: uint32, error: uint32)
    ensures Holds(Vhost.ResponseBytes(cmd, error), 0, 4, cmd) && Holds(Vhost.ResponseBytes(cmd, error), 4, 4, error)
  {
    var b := Vhost.ResponseBytes(cmd, error);
    assert b[0..4] == Encode(cmd, 4) && b[4..8] == Encode(error, 4);
    WordBounds();
    DecodeEncode(cmd, 4);
    DecodeEncode(error, 4);
  }

  lemma Assembled(h: seq<byte>, payload: seq<byte>, header: seq<byte>, user: seq<byte>, n: nat, after: seq<byte>)
    requires |h| == |header| == 8 && n <= |user|
    requires after == Padded(h + payload, 8 + n) + (header + user)[8 + n..]
    ensures |after| == 8 + |user| && after[4..8] == h[4..8] && after[8..] == Padded(payload, n) + user[n..]
  {
    assert Padded(h + payload, 8 + n) == h + Padded(payload, n);
    assert (header + user)[8 + n..] == user[n..];
  }

  /** hmcuda_transport_dispatch and the ioctl under it: `user` is what follows the request
      header in the library's buffer, `payload` what the handler answers, `want` the length
      that the caller asks for. */
  method Dispatch(cmd: Command, user: seq<byte>, error: uint32, payload: seq<byte>, want: nat)
    returns (code: nat, resp: seq<byte>)
    requires |user| >= FixedLen(cmd) && |user| >= ResponseLen(cmd) && |user| >= want
    ensures code == error && (error != 0 ==> resp == [])
    ensures error == 0 ==> resp == (Padded(payload, ResponseLen(cmd)) + user[ResponseLen(cmd)..])[..want]
  {
    var ret, _, respLen := GetReqSizes(cmd, user);
    var header := Encode(CommandId(cmd), 4) + Encode(0, 4);
    var responseHeader := Vhost.ResponseBytes(CommandId(cmd), error);
    var response := responseHeader + payload;
    var after;
    ret, after := CopyBack(response, HEADER_LEN + respLen, header + user);
    Assembled(responseHeader, payload, header, user, respLen, after);
    assert responseHeader[4..8] == Encode(error, 4);
    WordBounds();
    DecodeEncode(error, 4);
    code := Decode(after[4..8]);
    if code != 0 {
      return code, [];
    }
    assert after[8..8 + want] == after[8..][..want];
    resp := after[HEADER_LEN..HEADER_LEN + want];
  }

  /** The library reads the response back field by field. */
  method Returned(cmd: Command, user: seq<byte>, r: Response) returns (code: nat, f: Fields)
    requires Answers(r, cmd) && |user| >= FixedLen(cmd) && |user| >= Len(ResponseFields(r))
    ensures code == 0 && f == ResponseFields(r)
  {
    RoomForResponse(r, cmd);
    var payload := Pack(ResponseFields(r));
    var resp;
    code, resp := Dispatch(cmd, user, 0, payload, |payload|);
    assert resp == payload + [];
    UnpackPack(ResponseFields(r), []);
    f := Unpack(Blank(ResponseFields(r)), resp);
  }

  /** cuDeviceGetName: `text` is the name with its terminator, `slack` the end of the library's
      buffer behind the request.  The first pass leaves no room for the text, so the caller
      gets, up to the length of the name, the request's own length field and `slack`: whatever
      the device is called, its first character is the low byte of the length asked for. */
  method DeviceName(device: uint32, len: uint32, slack: seq<byte>, error: uint32, text: seq<byte>, name0: seq<byte>)
    returns (code: nat, name: seq<byte>)
    requires |name0| == len && 0 < |text| < 0x8000_0000 && len < 0x8000_0000
    requires |slack| == if len > 4 then len - 4 else 0
    ensures code == error && (error != 0 ==> name == name0)
    ensures error == 0 ==> name == TakenName(Encode(len, 4) + slack, |text|, name0)
    ensures error == 0 && len > 0 ==> name[0] == len % 256
  {
    ghost var behind := Encode(len, 4) + slack;
    var user := (Encode(device, 4) + Encode(len, 4)) + slack;
    var payload := Encode(|text|, 4) + text;
    var resp;
    name := name0;
    code, resp := Dispatch(DeviceGetName, user, error, payload, 4 + len);
    if code == 0 {
      assert payload[..4] == Encode(|text|, 4) && user[4..] == behind;
      FrontAndRest(Encode(|text|, 4), behind, resp, len);
      WordBounds();
      DecodeEncode(|text|, 4);
      var nameLen := Decode(resp[..4]);
      var copyLen := if nameLen < len then nameLen else len;
      name := resp[4..4 + copyLen] + name0[copyLen..];
      if copyLen < len {
        name := name[copyLen := 0];
      }
      TakenNameIs(behind, |text|, name0, resp[4..], copyLen, name);
      TakenLength(len, slack, |text|, name0);
    }
  }

  /** The `n` bytes of a name taken from `source` over `name0`, terminated when there is room. */
  function TakenName(source: seq<byte>, n: nat, name0: seq<byte>): (name: seq<byte>)
    requires |source| >= |name0|
    ensures |name| == |name0| && (n >= |name0| ==> name == source[..|name0|])
    ensures n < |name0| ==> name[..n] == source[..n] && name[n] == 0 && name[n + 1..] == name0[n + 1..]
  {
    seq(|name0|, i requires 0 <= i < |name0| => if i < n then source[i] else if i == n then 0 else name0[i])
  }

  lemma TakenNameIs(source: seq<byte>, n: nat, name0: seq<byte>, front: seq<byte>, c: nat, name: seq<byte>)
    requires |source| >= |name0| && front == source[..|name0|] && c == if n < |name0| then n else |name0|
    requires |name| == |name0| && name[..c] == front[..c]
    requires c < |name0| ==> name[c] == 0 && name[c + 1..] == name0[c + 1..]
    ensures name == TakenName(source, n, name0)
  {
    forall i | 0 <= i < |name0| ensures name[i] == TakenName(source, n, name0)[i] {
      if i < c {
        assert name[i] == name[..c][i];
      } else if i > c {
        assert name[i] == name[c + 1..][i - (c + 1)];
      }
    }
  }

  lemma TakenLength(len: nat, slack: seq<byte>, n: nat, name0: seq<byte>)
    requires 0 < n && |name0| <= 4 + |slack|
    ensures name0 != [] ==> TakenName(Encode(len, 4) + slack, n, name0)[0] == len % 256
  {
  }

  lemma FrontAndRest(a: seq<byte>, b: seq<byte>, ab: seq<byte>, n: nat)
    requires n <= |b| && ab == (a + b)[..|a| + n]
    ensures ab[..|a|] == a && ab[|a|..] == b[..n]
  {
  }
}
