/** Container framing and PTP transactions (src/ptp/ptp.cpp). */
module Ptp {
  import opened Wrappers
  import opened Bytes
  import opened Containers
  import opened Transport

  const OP_OPEN_SESSION: uint16 := 0x1002
  const OP_CLOSE_SESSION: uint16 := 0x1003
  const OP_GET_OBJECT_HANDLES: uint16 := 0x1007
  const EVENT_OBJECT_ADDED: uint16 := 0x4002
  const MAX_STRAY_EVENTS: nat := 8

  datatype Response = Response(code: uint16, params: seq<uint32>, data: Bytes)

  // ----- what the methods below compute, as functions of the transport state -----

  /** Appends bulk reads to `out` until `need` bytes are there, then cuts the surplus. */
  ghost function Fill<S(!new)>(link: Link<S>, s: S, out: Bytes, need: nat): (r: (S, Result<Bytes>))
    requires Sound(link)
    ensures r.1.Ok? ==> |r.1.value| == need && (|out| <= need ==> out <= r.1.value)
    decreases if |out| < need then need - |out| else 0, link.patience(s)
  {
    if |out| >= need then (s, Ok(out[..need]))
    else
      var (s', b) := link.read(s);
      match b
      case None => (s', Err(Timeout))
      case Some(bytes) => Fill(link, s', out + bytes, need)
  }

  /** The buffer holds at least the header and the length the header names. */
  predicate Whole(pkt: Bytes) {
    HEADER <= |pkt| && LengthOf(pkt) <= |pkt|
  }

  ghost function ReadContainer<S(!new)>(link: Link<S>, s: S): (r: (S, Result<Bytes>))
    requires Sound(link)
    ensures r.1.Ok? ==> Whole(r.1.value)
  {
    var (s', b) := link.read(s);
    match b
    case None => (s', Err(Timeout))
    case Some(first) =>
      if |first| < HEADER then (s', Err(ShortHeader))
      else if LengthOf(first) <= |first| then (s', Ok(first))
      else Fill(link, s', first, LengthOf(first))
  }

  /** Replaces `pkt` by the next container while it is an EVENT, up to the limit. */
  ghost function SkipEvents<S(!new)>(link: Link<S>, s: S, pkt: Bytes, guard: nat): (r: (S, Result<Bytes>))
    requires Sound(link) && Whole(pkt)
    ensures r.1.Ok? ==> Whole(r.1.value)
    decreases MAX_STRAY_EVENTS - guard
  {
    if KindOf(pkt) == EVENT && guard < MAX_STRAY_EVENTS then
      var (s', next) := ReadContainer(link, s);
      if next.Err? then (s', next) else SkipEvents(link, s', next.value, guard + 1)
    else (s, Ok(pkt))
  }

  /** How many parameters the walk to `length` visits; the last may be incomplete. */
  function ParamCount(length: nat): nat {
    if length <= HEADER then 0 else (length - HEADER + 3) / 4
  }

  function Params(pkt: Bytes): Result<seq<uint32>>
    requires HEADER <= |pkt|
  {
    var n := ParamCount(LengthOf(pkt));
    if HEADER + 4 * n <= |pkt| then Ok(Words(pkt[HEADER..HEADER + 4 * n])) else Err(Overrun)
  }

  /** The response record made from a RESPONSE container and the data read before it. */
  function Conclude(pkt: Bytes, data: Bytes): Result<Response>
    requires HEADER <= |pkt|
  {
    var ps := Params(pkt);
    if ps.Err? then Err(ps.error) else Ok(Response(CodeOf(pkt), ps.value, data))
  }

  /** What becomes of a container that is not to be skipped. */
  ghost function Settle<S(!new)>(link: Link<S>, s: S, pkt: Bytes): (S, Result<Response>)
    requires Sound(link) && Whole(pkt)
  {
    if KindOf(pkt) == DATA then
      if LengthOf(pkt) < HEADER then (s, Err(Overrun)) else
      var (s', rpkt) := ReadContainer(link, s);
      if rpkt.Err? then (s', Err(rpkt.error))
      else if KindOf(rpkt.value) != RESPONSE then (s', Err(ExpectedResponse))
      else (s', Conclude(rpkt.value, pkt[HEADER..LengthOf(pkt)]))
    else if KindOf(pkt) == RESPONSE then (s, Conclude(pkt, []))
    else (s, Err(UnexpectedContainer))
  }

  /** The rest of a transaction, once a container is in hand and `guard` events have been skipped. */
  ghost function Continue<S(!new)>(link: Link<S>, s: S, pkt: Bytes, guard: nat): (S, Result<Response>)
    requires Sound(link) && Whole(pkt)
  {
    var (s', r) := SkipEvents(link, s, pkt, guard);
    if r.Err? then (s', Err(r.error)) else Settle(link, s', r.value)
  }

  ghost function Receive<S(!new)>(link: Link<S>, s: S): (S, Result<Response>)
    requires Sound(link)
  {
    var (s', first) := ReadContainer(link, s);
    if first.Err? then (s', Err(first.error)) else Continue(link, s', first.value, 0)
  }

  // ----- what a transaction writes -----

  /** A transaction without a data phase. */
  function Command(tid: uint32, op: uint16, params: seq<uint32>): seq<Bytes> {
    [Frame(Container(COMMAND, op, tid, UnWords(params)))]
  }

  /** A transaction without parameters and with a data phase. */
  function Upload(tid: uint32, op: uint16, data: Bytes): seq<Bytes> {
    Command(tid, op, []) + [Frame(Container(DATA, op, tid, data))]
  }

  /**
   The transaction id of the data phase. The driver fetches it through a pointer it took
   into the command buffer before appending the parameters; once there are any the buffer
   may have moved, and `stale` is whatever is read where it was.
   */
  function DataTid(tid: uint32, stale: uint32, params: seq<uint32>): uint32 {
    if params == [] then tid else stale
  }

  /** The one or two containers any transaction writes. */
  function Request(tid: uint32, stale: uint32, op: uint16, params: seq<uint32>, data: Option<Bytes>): seq<Bytes> {
    if data.None? then Command(tid, op, params)
    else Command(tid, op, params) + [Frame(Container(DATA, op, DataTid(tid, stale, params), data.value))]
  }

  ghost function Send<S(!new)>(link: Link<S>, s: S, frames: seq<Bytes>): S {
    if frames == [] then s else link.write(Send(link, s, frames[..|frames| - 1]), frames[|frames| - 1])
  }

  lemma {:induction false} SendSteps<S(!new)>(link: Link<S>, s: S, frames: seq<Bytes>)
    requires 1 <= |frames| <= 2
    ensures |frames| == 1 ==> Send(link, s, frames) == link.write(s, frames[0])
    ensures |frames| == 2 ==> Send(link, s, frames) == link.write(link.write(s, frames[0]), frames[1])
  {
    var init := frames[..|frames| - 1];
    assert Send(link, s, init) == if |frames| == 1 then s else link.write(Send(link, s, init[..0]), frames[0]);
  }

  /** Writing `frames` and receiving the response. */
  ghost function Transacted<S(!new)>(link: Link<S>, s: S, frames: seq<Bytes>): (S, Result<Response>)
    requires Sound(link)
  {
    Receive(link, Send(link, s, frames))
  }

  function NextTid(tid: uint32): uint32 {
    if tid == 0xFFFF_FFFF then 0 else tid + 1
  }

  /** The next transaction id after `n` transactions. */
  function TidAfter(tid: uint32, n: nat): uint32 {
    if n == 0 then tid else NextTid(TidAfter(tid, n - 1))
  }

  lemma {:induction false} TidAfterOne(tid: uint32, n: nat)
    ensures TidAfter(NextTid(tid), n) == TidAfter(tid, n + 1)
  {
    if n > 0 {
      TidAfterOne(tid, n - 1);
    }
  }

  // ----- handle arrays -----

  function Handles(d: Bytes): Result<seq<uint32>> {
    if |d| < 4 then Ok([])
    else
      var n := ReadLe32(d, 0);
      if Wrap32(4 + n * 4) > |d| then Ok(Words(d))
      else if 4 + n * 4 <= |d| then Ok(Words(d[4..4 + n * 4]))
      else Err(Overrun)
  }

  /** Count-prefixed handles come back, even with trailing bytes. */
  lemma {:induction false} HandlesRoundTrip(hs: seq<uint32>, tail: Bytes)
    requires |hs| <= 0x4000_0000 - 2
    ensures Handles(Le32(|hs|) + UnWords(hs) + tail) == Ok(hs)
  {
    var d := Le32(|hs|) + UnWords(hs) + tail;
    assert d[0..4] == Le32(|hs|);
    Le32Inverse(d, 0, |hs|);
    assert d[4..4 + 4 * |hs|] == UnWords(hs) + [];
    WordsUnWords(hs, []);
  }

  /** A count that does not fit, as the 32-bit size test sees it, turns the payload into a plain list of words. */
  lemma {:induction false} HandlesFallback(ws: seq<uint32>, tail: Bytes)
    requires |tail| < 4 && 1 <= |ws|
    requires |UnWords(ws) + tail| < (4 + 4 * ws[0] as int) % 0x1_0000_0000
    ensures Handles(UnWords(ws) + tail) == Ok(ws)
  {
    var d := UnWords(ws) + tail;
    WordsUnWords(ws, tail);
    assert Words(d)[0] == ReadLe32(d, 0);
    WrapsAround(4 + 4 * ws[0] as int, 0, 0);
  }

  /** Parsing fails exactly when the size test wraps around and the handles would be read outside the payload. */
  lemma {:induction false} HandlesOverrun(d: Bytes)
    ensures |d| < 4 ==> Handles(d) == Ok([])
    ensures 4 <= |d| ==>
              var count := d[0] as int + 256 * d[1] as int + 65536 * d[2] as int + 16777216 * d[3] as int;
              Handles(d) == Err(Overrun) <==> (4 + 4 * count) % 0x1_0000_0000 <= |d| < 4 + 4 * count
    ensures Handles(d).Err? ==> Handles(d) == Err(Overrun)
  {
    if 4 <= |d| {
      QuadIsRead(d, 0);
      WrapsAround(4 + 4 * ReadLe32(d, 0), 0, 0);
    }
  }

  // ----- interrupt polling -----

  /** The object handle of an ObjectAdded event of at least 16 bytes. */
  function AddedObject(ev: Bytes): Option<uint32> {
    if |ev| >= 16 && KindOf(ev) == EVENT && CodeOf(ev) == EVENT_OBJECT_ADDED then Some(ReadLe32(ev, 12)) else None
  }

  /** Where an event names the object, as bytes: an EVENT of code 0x4002 and, from byte 12, its handle. */
  lemma {:induction false} AddedObjectIs(ev: Bytes, handle: uint32)
    ensures AddedObject(ev) == Some(handle) <==>
            |ev| >= 16 && ev[4..8] == [4, 0, 0x02, 0x40] && ev[12..16] == Le32(handle)
  {
    if |ev| >= 16 {
      assert ev[4..8] == [ev[4], ev[5], ev[6], ev[7]];
      Le32Inverse(ev, 12, handle);
    }
  }

  ghost function AfterInterrupts<S(!new)>(link: Link<S>, s: S, n: nat): S {
    if n == 0 then s else link.interrupt(AfterInterrupts(link, s, n - 1)).0
  }

  ghost function InterruptAt<S(!new)>(link: Link<S>, s: S, k: nat): Bytes {
    link.interrupt(AfterInterrupts(link, s, k)).1
  }

  /** C++ integer division, which truncates toward zero. */
  function TruncDiv(a: int, b: int): int
    requires b != 0
  {
    if a < 0 then -(-a / b) else a / b
  }

  /** The quotient times `b` is the multiple of `b` next to `a` on the side of zero. */
  lemma {:induction false} TruncDivIs(a: int, b: int)
    requires b != 0
    ensures var rest, size := a - TruncDiv(a, b) * b, if b < 0 then -b else b;
            if a < 0 then -size < rest <= 0 else 0 <= rest < size
  {
    var m := if a < 0 then -a else a;
    assert m == b * (m / b) + m % b;
    assert TruncDiv(a, b) * b == if a < 0 then -(b * (m / b)) else b * (m / b);
  }

  lemma {:induction false} ParamsOfLength(b: Bytes, n: nat)
    requires HEADER + n <= |b| && LengthOf(b) == HEADER + n
    ensures n % 4 == 0 ==> Params(b) == Ok(Words(b[HEADER..HEADER + n]))
    ensures n % 4 != 0 && |b| == HEADER + n ==> Params(b) == Err(Overrun)
  {
    var count := ParamCount(HEADER + n);
    assert n % 4 == 0 ==> 4 * count == n;
    assert n % 4 != 0 ==> 4 * count > n;
  }

  /** A payload that is no whole number of parameters makes the walk leave a buffer that ends with it. */
  lemma {:induction false} ParamsOfFrame(c: Container, surplus: Bytes)
    requires c.Fits()
    ensures |c.payload| % 4 == 0 ==> Params(Frame(c) + surplus) == Ok(Words(c.payload))
    ensures |c.payload| % 4 != 0 && surplus == [] ==> Params(Frame(c) + surplus) == Err(Overrun)
  {
    FrameFields(c, surplus);
    ParamsOfLength(Frame(c) + surplus, |c.payload|);
  }

  /** A DATA container that announces less than its header would be read from beyond its end. */
  lemma {:induction false} ShortDataOverruns<S(!new)>(link: Link<S>, s: S, pkt: Bytes)
    requires Sound(link) && Whole(pkt) && KindOf(pkt) == 2 && LengthOf(pkt) < 12
    ensures Settle(link, s, pkt) == (s, Err(Overrun))
  {
  }

  // ----- the loops of the parsers, word by word -----

  lemma {:induction false} WordsGrow(d: Bytes, a: nat, p: nat)
    requires a <= p && (p - a) % 4 == 0 && p + 4 <= |d|
    ensures Words(d[a..p + 4]) == Words(d[a..p]) + [ReadLe32(d, p)]
  {
    var e, n := d[a..p + 4], (p - a) / 4;
    forall k | 0 <= k < n ensures Words(e)[k] == Words(d[a..p])[k] {
      assert ReadLe32(e, 4 * k) == ReadLe32(d[a..p], 4 * k);
    }
    assert ReadLe32(e, 4 * n) == ReadLe32(d, p);
  }

  lemma {:induction false} WordsPrefix(d: Bytes, i: nat)
    requires i <= |d| < i + 4 && i % 4 == 0
    ensures Words(d[0..i]) == Words(d)
  {
    forall k | 0 <= k < i / 4 ensures Words(d[0..i])[k] == Words(d)[k] {
      assert ReadLe32(d[0..i], 4 * k) == ReadLe32(d, 4 * k);
    }
  }

  // ----- the driver object -----

  class CameraPTP<S(!new)> {
    const transport: Transport<S>
    var nextTid: uint32

    constructor (transport: Transport<S>)
      ensures this.transport == transport && nextTid == 1
    {
      this.transport := transport;
      nextTid := 1;
    }

    method ReadFullContainer() returns (r: Result<Bytes>)
      requires Sound(transport.link)
      modifies transport`state
      ensures (transport.state, r) == ReadContainer(transport.link, old(transport.state))
    {
      var buf :- transport.ReadSome();
      if |buf| < HEADER {
        return Err(ShortHeader);
      }
      var need := LengthOf(buf);
      if need <= |buf| {
        return Ok(buf);
      }
      var out := buf;
      ghost var target := Fill(transport.link, transport.state, out, need);
      while |out| < need
        invariant Fill(transport.link, transport.state, out, need) == target
        decreases if |out| < need then need - |out| else 0, transport.link.patience(transport.state)
      {
        var more :- transport.ReadSome();
        out := out + more;
      }
      return Ok(out[..need]);
    }

    method OpenSession(sid: uint32) returns (r: Result<()>)
      requires Sound(transport.link)
      modifies this, transport
      ensures transport.writes == old(transport.writes) + Command(old(nextTid), OP_OPEN_SESSION, [sid])
      ensures nextTid == NextTid(old(nextTid))
      ensures var (s, pkt) := ReadContainer(transport.link,
                  Send(transport.link, old(transport.state), Command(old(nextTid), OP_OPEN_SESSION, [sid])));
              transport.state == s && r == (if pkt.Ok? then Ok(()) else Err(pkt.error))
    {
      var cmd := Header(HEADER + 4, COMMAND, OP_OPEN_SESSION, nextTid);
      nextTid := NextTid(nextTid);
      cmd := cmd + Le32(sid);
      ghost var request := Command(old(nextTid), OP_OPEN_SESSION, [sid]);
      assert UnWords([sid]) == UnWords([sid][..0]) + Le32(sid) == Le32(sid);
      assert request == [cmd];
      SendSteps(transport.link, transport.state, request);
      transport.WriteExact(cmd);
      var _ :- ReadFullContainer();
      return Ok(());
    }

    method CloseSession() returns (r: Result<()>)
      requires Sound(transport.link)
      modifies this, transport
      ensures transport.writes == old(transport.writes) + Command(old(nextTid), OP_CLOSE_SESSION, [])
      ensures nextTid == NextTid(old(nextTid))
      ensures var (s, pkt) := ReadContainer(transport.link,
                  Send(transport.link, old(transport.state), Command(old(nextTid), OP_CLOSE_SESSION, [])));
              transport.state == s && r == (if pkt.Ok? then Ok(()) else Err(pkt.error))
    {
      var cmd := Header(HEADER, COMMAND, OP_CLOSE_SESSION, nextTid);
      nextTid := NextTid(nextTid);
      ghost var request := Command(old(nextTid), OP_CLOSE_SESSION, []);
      assert cmd + UnWords([]) == cmd && request == [cmd];
      SendSteps(transport.link, transport.state, request);
      transport.WriteExact(cmd);
      var _ :- ReadFullContainer();
      return Ok(());
    }

    method ParseParams(pkt: Bytes) returns (r: Result<seq<uint32>>)
      requires HEADER <= |pkt|
      ensures r == Params(pkt)
    {
      var params: seq<uint32> := [];
      var p := HEADER;
      while p < LengthOf(pkt)
        invariant p == HEADER + 4 * |params|
        invariant |params| <= ParamCount(LengthOf(pkt)) && p <= |pkt|
        invariant params == Words(pkt[HEADER..p])
      {
        if p + 4 > |pkt| {
          return Err(Overrun);
        }
        WordsGrow(pkt, HEADER, p);
        params := params + [ReadLe32(pkt, p)];
        p := p + 4;
      }
      return Ok(params);
    }

    method BuildCommand(tid: uint32, op: uint16, params: seq<uint32>) returns (cmd: Bytes)
      ensures [cmd] == Command(tid, op, params)
    {
      cmd := Header(HEADER + |params| * 4, COMMAND, op, tid);
      for i := 0 to |params|
        invariant cmd == Header(HEADER + |params| * 4, COMMAND, op, tid) + UnWords(params[..i])
      {
        assert params[..i + 1][..i] == params[..i];
        cmd := cmd + Le32(params[i]);
      }
      assert params[..|params|] == params;
    }

    /** The command phase and the optional data phase of a transaction. */
    method SendRequest(op: uint16, params: seq<uint32>, dataOut: Option<Bytes>)
      modifies this, transport
      ensures nextTid == NextTid(old(nextTid))
      ensures exists stale: uint32 ::
                var request := Request(old(nextTid), stale, op, params, dataOut);
                && transport.writes == old(transport.writes) + request
                && transport.state == Send(transport.link, old(transport.state), request)
    {
      var tid := nextTid;
      nextTid := NextTid(nextTid);
      var cmd := BuildCommand(tid, op, params);
      var dataTid: uint32 := tid;
      if params != [] {
        dataTid := *;
      }
      ghost var request := Request(tid, dataTid, op, params, dataOut);
      transport.WriteExact(cmd);
      if dataOut.Some? {
        var dc := Header(HEADER + |dataOut.value|, DATA, op, dataTid);
        dc := dc + dataOut.value;
        transport.WriteExact(dc);
      }
      SendSteps(transport.link, old(transport.state), request);
    }

    /** Stray events, the optional data phase in, and the response phase. */
    method ReceiveResponse() returns (r: Result<Response>)
      requires Sound(transport.link)
      modifies transport`state
      ensures (transport.state, r) == Receive(transport.link, old(transport.state))
    {
      var pkt :- ReadFullContainer();
      var guard := 0;
      ghost var target := SkipEvents(transport.link, transport.state, pkt, 0);
      while KindOf(pkt) == EVENT && guard < MAX_STRAY_EVENTS
        invariant guard <= MAX_STRAY_EVENTS && Whole(pkt)
        invariant SkipEvents(transport.link, transport.state, pkt, guard) == target
        decreases MAX_STRAY_EVENTS - guard
      {
        guard := guard + 1;
        pkt :- ReadFullContainer();
      }

      if KindOf(pkt) == DATA {
        if LengthOf(pkt) < HEADER {
          return Err(Overrun);
        }
        var data := pkt[HEADER..LengthOf(pkt)];
        var rpkt :- ReadFullContainer();
        if KindOf(rpkt) != RESPONSE {
          return Err(ExpectedResponse);
        }
        var ps :- ParseParams(rpkt);
        return Ok(Response(CodeOf(rpkt), ps, data));
      }
      if KindOf(pkt) == RESPONSE {
        var ps :- ParseParams(pkt);
        return Ok(Response(CodeOf(pkt), ps, []));
      }
      return Err(UnexpectedContainer);
    }

    method Transact(op: uint16, params: seq<uint32>, dataOut: Option<Bytes>, expectDataIn: bool)
      returns (r: Result<Response>)
      requires Sound(transport.link)
      modifies this, transport
      ensures nextTid == NextTid(old(nextTid))
      ensures exists stale: uint32 ::
                var request := Request(old(nextTid), stale, op, params, dataOut);
                && transport.writes == old(transport.writes) + request
                && (transport.state, r) == Transacted(transport.link, old(transport.state), request)
    {
      SendRequest(op, params, dataOut);
      r := ReceiveResponse();
    }

    method ParseHandles(d: Bytes) returns (r: Result<seq<uint32>>)
      ensures r == Handles(d)
    {
      var out: seq<uint32> := [];
      if |d| < 4 {
        return Ok(out);
      }
      var n := ReadLe32(d, 0);
      if Wrap32(4 + n * 4) <= |d| {
        var i, p := 0, 4;
        while i < n
          invariant 0 <= i <= n && p == 4 + 4 * i <= |d|
          invariant out == Words(d[4..p])
        {
          if p + 4 > |d| {
            return Err(Overrun);
          }
          WordsGrow(d, 4, p);
          out := out + [ReadLe32(d, p)];
          i, p := i + 1, p + 4;
        }
        return Ok(out);
      }
      var i := 0;
      while i + 3 < |d|
        invariant i % 4 == 0 && i <= |d| && out == Words(d[0..i])
      {
        WordsGrow(d, 0, i);
        out := out + [ReadLe32(d, i)];
        i := i + 4;
      }
      WordsPrefix(d, i);
      return Ok(out);
    }

    method GetObjectHandles(storage: uint32, format: uint32, assoc: uint32) returns (r: Result<seq<uint32>>)
      requires Sound(transport.link)
      modifies this, transport
      ensures transport.writes ==
              old(transport.writes) + Command(old(nextTid), OP_GET_OBJECT_HANDLES, [storage, format, assoc])
      ensures nextTid == NextTid(old(nextTid))
      ensures var (s, reply) := Transacted(transport.link, old(transport.state),
                                           Command(old(nextTid), OP_GET_OBJECT_HANDLES, [storage, format, assoc]));
              && transport.state == s
              && r == (if reply.Err? then Err(reply.error) else Handles(reply.value.data))
    {
      var reply :- Transact(OP_GET_OBJECT_HANDLES, [storage, format, assoc], None, true);
      r := ParseHandles(reply.data);
    }

    /** The first ObjectAdded event within `timeout / poll` interrupt reads, and no read beyond it. */
    method WaitObjectAdded(timeout: int, poll: int) returns (handle: Option<uint32>)
      requires poll != 0
      modifies transport`state
      ensures handle.None? ==>
                && (forall k: nat | k < TruncDiv(timeout, poll) ::
                      AddedObject(InterruptAt(transport.link, old(transport.state), k)).None?)
                && transport.state == AfterInterrupts(transport.link, old(transport.state),
                                          if TruncDiv(timeout, poll) < 0 then 0 else TruncDiv(timeout, poll))
      ensures handle.Some? ==>
                exists k: nat | k < TruncDiv(timeout, poll) ::
                  && AddedObject(InterruptAt(transport.link, old(transport.state), k)) == handle
                  && (forall j: nat | j < k ::
                        AddedObject(InterruptAt(transport.link, old(transport.state), j)).None?)
                  && transport.state == AfterInterrupts(transport.link, old(transport.state), k + 1)
    {
      var tries := TruncDiv(timeout, poll);
      var i := 0;
      while i < tries
        invariant 0 <= i && (i == 0 || i <= tries)
        invariant transport.state == AfterInterrupts(transport.link, old(transport.state), i)
        invariant forall j: nat | j < i ::
                    AddedObject(InterruptAt(transport.link, old(transport.state), j)).None?
      {
        var ev := transport.ReadInterrupt();
        assert ev == InterruptAt(transport.link, old(transport.state), i);
        if |ev| >= 16 {
          if KindOf(ev) == EVENT && CodeOf(ev) == EVENT_OBJECT_ADDED {
            return Some(ReadLe32(ev, 12));
          }
        }
        i := i + 1;
      }
      return None;
    }
  }
}
