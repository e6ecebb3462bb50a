/** Sigma vendor operations on top of PTP transactions (src/sigma/sigma_ptp.cpp). */
module Sigma {
  import opened Wrappers
  import opened Bytes
  import Containers
  import opened Transport
  import opened Ptp
  import opened Records
  import opened Slots
  import opened Groups
  import Group1
  import Group2
  import Group3
  import Group4
  import Group5

  const OP_GET_CAPT_STATUS: uint16 := 0x9015
  const OP_SNAP_COMMAND: uint16 := 0x901B
  const OP_CLEAR_IMAGE_DB_SINGLE: uint16 := 0x901C
  const OP_GET_BIG_PARTIAL_PICT_FILE: uint16 := 0x9022
  const OP_GET_PICT_FILE_INFO2: uint16 := 0x902D

  // ----- opcodes of the data groups -----

  datatype GroupId = G1 | G2 | G3 | G4 | G5

  function IdOf(g: Group): GroupId {
    match g case One(_) => G1 case Two(_) => G2 case Three(_) => G3 case Four(_) => G4 case Five(_) => G5
  }

  function GetOp(id: GroupId): uint16 {
    match id case G1 => 0x9012 case G2 => 0x9013 case G3 => 0x9014 case G4 => 0x9023 case G5 => 0x9027
  }

  function SetOp(id: GroupId): uint16 {
    match id case G1 => 0x9016 case G2 => 0x9017 case G3 => 0x9018 case G4 => 0x9024 case G5 => 0x9028
  }

  /** A group object as it is constructed: no field set. */
  function Blank(id: GroupId): (g: Group)
    ensures IdOf(g) == id
  {
    match id
    case G1 => One(Group1.Fields(None, None, None, None, None, None, None, None, None, None, None, None, None, None, None))
    case G2 => Two(Group2.Fields(None, None, None, None, None, None, None, None, None, None))
    case G3 => Three(Group3.Fields(None, None, None, None, None, None, None, None, None))
    case G4 => Four(Group4.Fields(None, None, None, None, None, None, None, None, None, None, None, None, None, None, None))
    case G5 => Five(Group5.Fields(None, None, None, None, None, None, None, None))
  }

  /** An encoded group is far below the size of a container. */
  lemma {:induction false} WireFits(g: Group)
    ensures Containers.HEADER + |Wire(g)| < TWO_32
  {
    PrintBound(TableOf(g), ViewOf(NormalOf(g)), |TableOf(g)|);
    SmallBits(g);
  }

  // ----- single requests, as functions of the transport state -----

  ghost function InfoReply<S(!new)>(link: Link<S>, s: S, tid: uint32, handle: uint32): (S, Result<PictFileInfo>)
    requires Sound(link)
  {
    var (s', r) := Transacted(link, s, Command(tid, OP_GET_PICT_FILE_INFO2, [handle]));
    (s', if r.Err? then Err(r.error) else Info(r.value.data))
  }

  ghost function PartReply<S(!new)>(link: Link<S>, s: S, tid: uint32, address: uint32, start: uint32, max: uint32):
    (S, Result<Part>)
    requires Sound(link)
  {
    var (s', r) := Transacted(link, s, Command(tid, OP_GET_BIG_PARTIAL_PICT_FILE, [address, start, max]));
    (s', if r.Err? then Err(r.error) else PartOf(r.value.data))
  }

  function StatusParams(imageId: byte): seq<uint32> {
    if imageId == 0 then [] else [imageId]
  }

  ghost function StatusReply<S(!new)>(link: Link<S>, s: S, tid: uint32, imageId: byte): (S, Result<CaptStatus>)
    requires Sound(link)
  {
    var (s', r) := Transacted(link, s, Command(tid, OP_GET_CAPT_STATUS, StatusParams(imageId)));
    (s', if r.Err? then Err(r.error) else StatusOf(r.value.data))
  }

  ghost function SetReply<S(!new)>(link: Link<S>, s: S, tid: uint32, g: Group): (S, Result<Response>)
    requires Sound(link)
  {
    Transacted(link, s, Upload(tid, SetOp(IdOf(g)), Wire(g)))
  }

  /** The fields a fresh group object has after decoding `raw`. */
  function DecodedFrom(id: GroupId, raw: Bytes): Result<Cells> {
    var p := Parse(TableOf(Blank(id)), raw, ViewOf(Blank(id)));
    if p.ok then Ok(p.cells) else Err(OutOfRange)
  }

  method DecodeFresh(id: GroupId, raw: Bytes) returns (r: Result<Group>)
    ensures r.Ok? <==> DecodedFrom(id, raw).Ok?
    ensures r.Ok? ==> IdOf(r.value) == id && ViewOf(r.value) == DecodedFrom(id, raw).value
  {
    var g := new CamDataGroup(Blank(id));
    var _ :- g.Decode(raw);
    return Ok(g.value);
  }

  ghost function GetReply<S(!new)>(link: Link<S>, s: S, tid: uint32, id: GroupId): (S, Result<Cells>)
    requires Sound(link)
  {
    var (s', r) := Transacted(link, s, Command(tid, GetOp(id), []));
    (s', if r.Err? then Err(r.error) else
         DecodedFrom(id, r.value.data))
  }

  /** The payload of a snap command: capture mode and number of pictures between header and parity. */
  function SnapPayload(mode: byte, amount: byte): (b: Bytes)
    ensures |b| == 4
  {
    [0, mode, amount, 0]
  }

  ghost function SnapReply<S(!new)>(link: Link<S>, s: S, tid: uint32, mode: byte, amount: byte): (S, Result<uint16>)
    requires Sound(link)
  {
    var (s', r) := Transacted(link, s, Upload(tid, OP_SNAP_COMMAND, SnapPayload(mode, amount)));
    (s', if r.Err? then Err(r.error) else Ok(r.value.code))
  }

  /** Clearing an image has a parameter and data, so any id may be fetched for the data phase. */
  function ClearRequest(tid: uint32, stale: uint32, imageId: uint32): seq<Bytes> {
    Request(tid, stale, OP_CLEAR_IMAGE_DB_SINGLE, [imageId], Some(Zeros(10)))
  }

  ghost function LatestInfoReply<S(!new)>(link: Link<S>, s: S, tid: uint32): (S, Result<PictFileInfo>)
    requires Sound(link)
  {
    var (s', r) := Transacted(link, s, Command(tid, OP_GET_PICT_FILE_INFO2, []));
    (s', if r.Err? then Err(r.error) else Info(r.value.data))
  }

  /** Marks a request that is about to be made. */
  predicate Asked<S>(s: S, tid: uint32, start: uint32, max: uint32) {
    true
  }

  // ----- chunked download -----

  /** What a request for `max` bytes from `start` leads to, by transport state and transaction id. */
  type Fetch<!S> = (S, uint32, uint32, uint32) -> (S, Result<Part>)

  ghost function Parts<S(!new)>(link: Link<S>, address: uint32): Fetch<S>
    requires Sound(link)
  {
    (s: S, tid: uint32, start: uint32, max: uint32) => PartReply(link, s, tid, address, start, max)
  }

  /** Transport state, next transaction id, bytes, and the (start, size) pairs requested. */
  datatype Fetched<S> = Fetched(s: S, tid: uint32, result: Result<Bytes>, requests: seq<(uint32, uint32)>)

  /** An outcome with requests made before it. */
  ghost function Resumed<S>(done: seq<(uint32, uint32)>, f: Option<Fetched<S>>): Option<Fetched<S>> {
    if f.None? then None else Some(f.value.(requests := done + f.value.requests))
  }

  /**
   What is left of a download after `out`: `left` bytes from `start`, both counted in 32
   bits as the camera acknowledges them. None if it has not ended after `n` requests.
   */
  ghost function Download<S(!new)>(fetch: Fetch<S>, s: S, tid: uint32, chunk: uint32, start: uint32, left: uint32,
                                   out: Bytes, n: nat): Option<Fetched<S>>
    decreases n
  {
    if left == 0 then Some(Fetched(s, tid, Ok(out), []))
    else if n == 0 then None
    else
      var max: uint32 := Min(chunk, left);
      var (s', part) := fetch(s, tid, start, max);
      if part.Err? then Some(Fetched(s', NextTid(tid), Err(part.error), [(start, max)]))
      else
        var (acquired, data) := (part.value.acquired, part.value.data);
        if acquired == 0 || data == [] then Some(Fetched(s', NextTid(tid), Ok(out), [(start, max)]))
        else if |data| < max then Some(Fetched(s', NextTid(tid), Ok(out + data), [(start, max)]))
        else Resumed([(start, max)], Download(fetch, s', NextTid(tid), chunk, Add32(start, acquired),
                                              Sub32(left, acquired), out + data, n - 1))
  }

  /** Marks a point of a download that is about to be passed. */
  predicate Passing<S>(s: S, tid: uint32, start: uint32, left: uint32, n: nat) {
    true
  }

  /** A download from any point, by transport state, transaction id, start, bytes left, bytes so far and budget. */
  type Rest<!S> = (S, uint32, uint32, uint32, Bytes, nat) -> Option<Fetched<S>>

  ghost function Rests<S(!new)>(fetch: Fetch<S>, chunk: uint32): Rest<S> {
    (s: S, tid: uint32, start: uint32, left: uint32, out: Bytes, n: nat) =>
      Download(fetch, s, tid, chunk, start, left, out, n)
  }

  /** `rest` is the download in steps of `chunk`, looked at one point at a time. */
  ghost predicate Unrolls<S(!new)>(fetch: Fetch<S>, chunk: uint32, rest: Rest<S>) {
    forall s, tid: uint32, start: uint32, left: uint32, out: Bytes, n: nat
      {:trigger Passing(s, tid, start, left, n), rest(s, tid, start, left, out, n)} |
      Passing(s, tid, start, left, n) ::
      rest(s, tid, start, left, out, n) == Download(fetch, s, tid, chunk, start, left, out, n)
  }

  lemma {:induction false} ResumeBegins<S>(f: Option<Fetched<S>>)
    ensures Resumed([], f) == f
  {
    assert f.Some? ==> [] + f.value.requests == f.value.requests;
  }

  lemma {:induction false} ResumeAgain<S>(a: seq<(uint32, uint32)>, b: seq<(uint32, uint32)>, f: Option<Fetched<S>>)
    ensures Resumed(a, Resumed(b, f)) == Resumed(a + b, f)
  {
    assert f.Some? ==> a + (b + f.value.requests) == (a + b) + f.value.requests;
  }

  lemma {:induction false} ResumeEnds<S(!new)>(fetch: Fetch<S>, chunk: uint32, rest: Rest<S>, s: S, tid: uint32,
                                               start: uint32, out: Bytes, n: nat, done: seq<(uint32, uint32)>)
    requires Unrolls(fetch, chunk, rest)
    ensures Resumed(done, rest(s, tid, start, 0, out, n)) == Some(Fetched(s, tid, Ok(out), done))
  {
    assert Passing(s, tid, start, 0, n);
    assert done + [] == done;
  }

  /** One request of a download that has made the requests `done` before. */
  lemma {:induction false} ResumeStep<S(!new)>(fetch: Fetch<S>, chunk: uint32, rest: Rest<S>, s: S, tid: uint32,
                                               start: uint32, left: uint32, out: Bytes, n: nat,
                                               done: seq<(uint32, uint32)>, target: Fetched<S>)
    requires Unrolls(fetch, chunk, rest)
    requires left > 0 && Resumed(done, rest(s, tid, start, left, out, n)) == Some(target)
    ensures n > 0
    ensures var max: uint32 := Min(chunk, left);
            var done' := done + [(start, max)];
            var (s', r) := fetch(s, tid, start, max);
            match r
            case Err(e) => target == Fetched(s', NextTid(tid), Err(e), done')
            case Ok(part) =>
              if part.acquired == 0 || part.data == [] then target == Fetched(s', NextTid(tid), Ok(out), done')
              else if |part.data| < max then target == Fetched(s', NextTid(tid), Ok(out + part.data), done')
              else Resumed(done', rest(s', NextTid(tid), Add32(start, part.acquired), Sub32(left, part.acquired),
                                       out + part.data, n - 1)) == Some(target)
  {
    assert Passing(s, tid, start, left, n);
    var max: uint32 := Min(chunk, left);
    var (s', r) := fetch(s, tid, start, max);
    if r.Ok? && r.value.acquired > 0 && r.value.data != [] && |r.value.data| >= max {
      var start', left' := Add32(start, r.value.acquired), Sub32(left, r.value.acquired);
      assert Passing(s', NextTid(tid), start', left', n - 1);
      ResumeAgain(done, [(start, max)], rest(s', NextTid(tid), start', left', out + r.value.data, n - 1));
    }
  }

  /** The command a request for a part writes. */
  function PartRequest(address: uint32): (uint32, uint32, uint32) -> seq<Bytes> {
    (tid: uint32, start: uint32, max: uint32) =>
      Command(tid, OP_GET_BIG_PARTIAL_PICT_FILE, [address, start, max])
  }

  function PartRequests(request: (uint32, uint32, uint32) -> seq<Bytes>, tid: uint32,
                        ranges: seq<(uint32, uint32)>): seq<Bytes>
  {
    if ranges == [] then []
    else
      var n := |ranges| - 1;
      PartRequests(request, tid, ranges[..n]) + request(TidAfter(tid, n), ranges[n].0, ranges[n].1)
  }

  lemma {:induction false} PartRequestsStep(request: (uint32, uint32, uint32) -> seq<Bytes>, tid: uint32,
                                            ranges: seq<(uint32, uint32)>, q: (uint32, uint32), log: seq<Bytes>)
    ensures log + PartRequests(request, tid, ranges + [q]) ==
            (log + PartRequests(request, tid, ranges)) + request(TidAfter(tid, |ranges|), q.0, q.1)
  {
    assert (ranges + [q])[..|ranges|] == ranges;
  }

  /** The download of an object; None if it has not ended after `n` requests for parts. */
  ghost function VendorObject<S(!new)>(link: Link<S>, s: S, tid: uint32, handle: uint32, chunk: uint32, n: nat):
    Option<Fetched<S>>
    requires Sound(link)
  {
    var (s', info) := InfoReply(link, s, tid, handle);
    if info.Err? then Some(Fetched(s', NextTid(tid), Err(info.error), []))
    else Download(Parts(link, info.value.fileAddress), s', NextTid(tid), chunk, 0, info.value.fileSize, [], n)
  }

  // ----- polling -----

  predicate Completed(status: uint16) {
    status == 0x0005 || status == 0x8003
  }

  predicate Waiting(status: uint16) {
    status in {0x0001, 0x0002, 0x0004, 0x8001, 0x8002}
  }

  predicate Unexpected(status: uint16) {
    !Completed(status) && !Waiting(status)
  }

  const MAX_UNEXPECTED: nat := 15

  datatype Polled<S> = Polled(s: S, tid: uint32, result: Result<CaptStatus>, requests: nat)

  /** What a status request leads to, by transport state and transaction id. */
  type Ask<!S> = (S, uint32) -> (S, Result<CaptStatus>)

  ghost function Statuses<S(!new)>(link: Link<S>, imageId: byte): Ask<S>
    requires Sound(link)
  {
    (s: S, tid: uint32) => StatusReply(link, s, tid, imageId)
  }

  ghost function Poll<S(!new)>(ask: Ask<S>, s: S, tid: uint32, polls: nat, err: nat, st: CaptStatus): Polled<S>
    decreases polls
  {
    if polls == 0 then Polled(s, tid, Ok(st), 0)
    else
      var (s', r) := ask(s, tid);
      if r.Err? then Polled(s', NextTid(tid), r, 1)
      else
        var err' := if Unexpected(r.value.status) then err + 1 else err;
        if Completed(r.value.status) || (Unexpected(r.value.status) && err' > MAX_UNEXPECTED)
        then Polled(s', NextTid(tid), r, 1)
        else
          var rest := Poll(ask, s', NextTid(tid), polls - 1, err', r.value);
          rest.(requests := rest.requests + 1)
  }

  /** The command a status request writes. */
  function StatusRequest(imageId: byte): uint32 -> seq<Bytes> {
    (tid: uint32) => Command(tid, OP_GET_CAPT_STATUS, StatusParams(imageId))
  }

  function StatusRequests(request: uint32 -> seq<Bytes>, tid: uint32, n: nat): seq<Bytes> {
    if n == 0 then [] else StatusRequests(request, tid, n - 1) + request(TidAfter(tid, n - 1))
  }

  /** The outcome of polling that has made `n` requests before. */
  ghost function Continued<S>(n: nat, p: Polled<S>): Polled<S> {
    p.(requests := p.requests + n)
  }

  lemma {:induction false} StatusRequestsStep(request: uint32 -> seq<Bytes>, tid: uint32, n: nat, log: seq<Bytes>)
    ensures log + StatusRequests(request, tid, n + 1) ==
            (log + StatusRequests(request, tid, n)) + request(TidAfter(tid, n))
  {
  }

  // ----- abstract requests, for the loops below -----

  ghost predicate Fetches<S(!new)>(link: Link<S>, address: uint32, fetch: Fetch<S>,
                                   request: (uint32, uint32, uint32) -> seq<Bytes>)
    requires Sound(link)
  {
    forall s, tid: uint32, start: uint32, max: uint32 {:trigger Asked(s, tid, start, max)} |
      Asked(s, tid, start, max) ::
      && fetch(s, tid, start, max) == Parts(link, address)(s, tid, start, max)
      && request(tid, start, max) == PartRequest(address)(tid, start, max)
  }

  ghost predicate Asks<S(!new)>(link: Link<S>, imageId: byte, ask: Ask<S>, request: uint32 -> seq<Bytes>)
    requires Sound(link)
  {
    forall s, tid: uint32 {:trigger Asked(s, tid, 0, 0)} | Asked(s, tid, 0, 0) ::
      ask(s, tid) == Statuses(link, imageId)(s, tid) && request(tid) == StatusRequest(imageId)(tid)
  }

  // ----- the camera object -----

  class SigmaCamera<S(!new)> {
    const ptp: CameraPTP<S>

    constructor (ptp: CameraPTP<S>)
      ensures this.ptp == ptp
    {
      this.ptp := ptp;
    }

    method Snap(mode: byte, amount: byte) returns (r: Result<uint16>)
      requires Sound(ptp.transport.link)
      modifies ptp, ptp.transport
      ensures ptp.transport.writes ==
              old(ptp.transport.writes) + Upload(old(ptp.nextTid), OP_SNAP_COMMAND, SnapPayload(mode, amount))
      ensures ptp.nextTid == NextTid(old(ptp.nextTid))
      ensures (ptp.transport.state, r) ==
              SnapReply(ptp.transport.link, old(ptp.transport.state), old(ptp.nextTid), mode, amount)
    {
      var payload := [0];
      payload := payload + [mode];
      payload := payload + [amount];
      payload := payload + [0];
      assert payload == SnapPayload(mode, amount);
      var reply :- ptp.Transact(OP_SNAP_COMMAND, [], Some(payload), false);
      return Ok(reply.code);
    }

    method ClearImageDbSingle(imageId: uint32) returns (r: Result<()>)
      requires Sound(ptp.transport.link)
      modifies ptp, ptp.transport
      ensures ptp.nextTid == NextTid(old(ptp.nextTid))
      ensures exists stale: uint32 ::
                var request := ClearRequest(old(ptp.nextTid), stale, imageId);
                var (s, reply) := Transacted(ptp.transport.link, old(ptp.transport.state), request);
                && ptp.transport.writes == old(ptp.transport.writes) + request
                && ptp.transport.state == s && r == (if reply.Ok? then Ok(()) else Err(reply.error))
    {
      var payload := Zeros(10);
      ghost var log, tid := ptp.transport.writes, ptp.nextTid;
      var reply := ptp.Transact(OP_CLEAR_IMAGE_DB_SINGLE, [imageId], Some(payload), false);
      ghost var stale: uint32 :|
        var request := Request(tid, stale, OP_CLEAR_IMAGE_DB_SINGLE, [imageId], Some(payload));
        && ptp.transport.writes == log + request
        && (ptp.transport.state, reply) == Transacted(ptp.transport.link, old(ptp.transport.state), request);
      assert ptp.transport.writes == log + ClearRequest(tid, stale, imageId);
      return if reply.Ok? then Ok(()) else Err(reply.error);
    }

    /** GetPictFileInfo2 of the picture shot last. */
    method GetLatestPictFileInfo2() returns (r: Result<PictFileInfo>)
      requires Sound(ptp.transport.link)
      modifies ptp, ptp.transport
      ensures ptp.transport.writes ==
              old(ptp.transport.writes) + Command(old(ptp.nextTid), OP_GET_PICT_FILE_INFO2, [])
      ensures ptp.nextTid == NextTid(old(ptp.nextTid))
      ensures (ptp.transport.state, r) ==
              LatestInfoReply(ptp.transport.link, old(ptp.transport.state), old(ptp.nextTid))
    {
      var reply :- ptp.Transact(OP_GET_PICT_FILE_INFO2, [], None, true);
      r := DecodeInfo(reply.data);
    }

    method GetPictFileInfo2(handle: uint32) returns (r: Result<PictFileInfo>)
      requires Sound(ptp.transport.link)
      modifies ptp, ptp.transport
      ensures ptp.transport.writes ==
              old(ptp.transport.writes) + Command(old(ptp.nextTid), OP_GET_PICT_FILE_INFO2, [handle])
      ensures ptp.nextTid == NextTid(old(ptp.nextTid))
      ensures (ptp.transport.state, r) ==
              InfoReply(ptp.transport.link, old(ptp.transport.state), old(ptp.nextTid), handle)
    {
      var reply :- ptp.Transact(OP_GET_PICT_FILE_INFO2, [handle], None, true);
      r := DecodeInfo(reply.data);
    }

    method GetBigPartialPictFile(address: uint32, start: uint32, max: uint32) returns (r: Result<Part>)
      requires Sound(ptp.transport.link)
      modifies ptp, ptp.transport
      ensures ptp.transport.writes == old(ptp.transport.writes)
              + Command(old(ptp.nextTid), OP_GET_BIG_PARTIAL_PICT_FILE, [address, start, max])
      ensures ptp.nextTid == NextTid(old(ptp.nextTid))
      ensures (ptp.transport.state, r) ==
              PartReply(ptp.transport.link, old(ptp.transport.state), old(ptp.nextTid), address, start, max)
    {
      var reply :- ptp.Transact(OP_GET_BIG_PARTIAL_PICT_FILE, [address, start, max], None, true);
      if |reply.data| < 4 {
        return Err(ShortBuffer);
      }
      var acquired := ReadLe32(reply.data, 0);
      var have := Min(acquired, |reply.data| - 4);
      return Ok(Part(acquired, reply.data[4..4 + have]));
    }

    /** The download of an object, on any device on which the loop ends, after at most `n` requests for parts. */
    method GetObjectVendor(handle: uint32, chunk: uint32, ghost n: nat) returns (r: Result<Bytes>)
      requires Sound(ptp.transport.link)
      requires VendorObject(ptp.transport.link, ptp.transport.state, ptp.nextTid, handle, chunk, n).Some?
      modifies ptp, ptp.transport
      ensures var link, s, tid := ptp.transport.link, old(ptp.transport.state), old(ptp.nextTid);
              var f := VendorObject(link, s, tid, handle, chunk, n).value;
              && ptp.transport.state == f.s && ptp.nextTid == f.tid && r == f.result
              && ptp.transport.writes == old(ptp.transport.writes)
                 + Command(tid, OP_GET_PICT_FILE_INFO2, [handle])
                 + (var (_, info) := InfoReply(link, s, tid, handle);
                    if info.Err? then [] else PartRequests(PartRequest(info.value.fileAddress), NextTid(tid), f.requests))
    {
      var info :- GetPictFileInfo2(handle);
      ghost var fetch := Parts(ptp.transport.link, info.fileAddress);
      ghost var target := Download(fetch, ptp.transport.state, ptp.nextTid, chunk, 0, info.fileSize, [], n).value;
      r := DownloadAll(info, chunk, fetch, PartRequest(info.fileAddress), Rests(fetch, chunk), n, target);
    }

    /** The loop of GetObjectVendor; `target` is the outcome of the whole download. */
    method DownloadAll(info: PictFileInfo, chunk: uint32, ghost fetch: Fetch<S>,
                       ghost request: (uint32, uint32, uint32) -> seq<Bytes>, ghost rest: Rest<S>, ghost n: nat,
                       ghost target: Fetched<S>)
      returns (r: Result<Bytes>)
      requires Sound(ptp.transport.link) && Fetches(ptp.transport.link, info.fileAddress, fetch, request)
      requires Unrolls(fetch, chunk, rest)
      requires rest(ptp.transport.state, ptp.nextTid, 0, info.fileSize, [], n) == Some(target)
      modifies ptp, ptp.transport
      ensures ptp.transport.state == target.s && ptp.nextTid == target.tid && r == target.result
      ensures ptp.transport.writes ==
              old(ptp.transport.writes) + PartRequests(request, old(ptp.nextTid), target.requests)
    {
      var out: Bytes := [];
      var address, left, start: uint32 := info.fileAddress, info.fileSize, 0;
      ghost var tid0, log0, budget := ptp.nextTid, ptp.transport.writes, n;
      ghost var done: seq<(uint32, uint32)> := [];
      ResumeBegins(rest(ptp.transport.state, tid0, 0, left, [], n));
      while left != 0
        invariant Resumed(done, rest(ptp.transport.state, ptp.nextTid, start, left, out, budget)) == Some(target)
        invariant ptp.transport.writes == log0 + PartRequests(request, tid0, done)
        invariant ptp.nextTid == TidAfter(tid0, |done|)
        decreases budget
      {
        var max := Min(chunk, left);
        var part :- GetPart(address, start, max, fetch, request, chunk, rest, left, out, budget, target, tid0, done, log0);
        done, budget := done + [(start, max)], budget - 1;
        if part.acquired == 0 || part.data == [] {
          return Ok(out);
        }
        out := out + part.data;
        start := Add32(start, part.acquired);
        left := Sub32(left, part.acquired);
        if |part.data| < max {
          return Ok(out);
        }
      }
      ResumeEnds(fetch, chunk, rest, ptp.transport.state, ptp.nextTid, start, out, budget, done);
      return Ok(out);
    }

    /** GetBigPartialPictFile, as a step of the download `target` that has made the requests `done` before. */
    method GetPart(address: uint32, start: uint32, max: uint32, ghost fetch: Fetch<S>,
                   ghost request: (uint32, uint32, uint32) -> seq<Bytes>, ghost chunk: uint32, ghost rest: Rest<S>,
                   ghost left: uint32, ghost out: Bytes, ghost n: nat, ghost target: Fetched<S>,
                   ghost tid0: uint32, ghost done: seq<(uint32, uint32)>, ghost log0: seq<Bytes>)
      returns (r: Result<Part>)
      requires Sound(ptp.transport.link) && Fetches(ptp.transport.link, address, fetch, request)
      requires Unrolls(fetch, chunk, rest) && left > 0 && max == Min(chunk, left)
      requires Resumed(done, rest(ptp.transport.state, ptp.nextTid, start, left, out, n)) == Some(target)
      requires ptp.transport.writes == log0 + PartRequests(request, tid0, done)
      requires ptp.nextTid == TidAfter(tid0, |done|)
      modifies ptp, ptp.transport
      ensures n > 0
      ensures ptp.transport.writes == log0 + PartRequests(request, tid0, done + [(start, max)])
      ensures ptp.nextTid == TidAfter(tid0, |done + [(start, max)]|)
      ensures var s, tid, done' := ptp.transport.state, ptp.nextTid, done + [(start, max)];
              match r
              case Err(e) => target == Fetched(s, tid, Err(e), done')
              case Ok(part) =>
                if part.acquired == 0 || part.data == [] then target == Fetched(s, tid, Ok(out), done')
                else if |part.data| < max then target == Fetched(s, tid, Ok(out + part.data), done')
                else Resumed(done', rest(s, tid, Add32(start, part.acquired), Sub32(left, part.acquired),
                                         out + part.data, n - 1)) == Some(target)
    {
      ResumeStep(fetch, chunk, rest, ptp.transport.state, ptp.nextTid, start, left, out, n, done, target);
      PartRequestsStep(request, tid0, done, (start, max), log0);
      assert Asked(ptp.transport.state, ptp.nextTid, start, max);
      r := GetBigPartialPictFile(address, start, max);
    }

    method GetCamCaptStatus(imageId: byte) returns (r: Result<CaptStatus>)
      requires Sound(ptp.transport.link)
      modifies ptp, ptp.transport
      ensures ptp.transport.writes == old(ptp.transport.writes)
              + Command(old(ptp.nextTid), OP_GET_CAPT_STATUS, StatusParams(imageId))
      ensures ptp.nextTid == NextTid(old(ptp.nextTid))
      ensures (ptp.transport.state, r) ==
              StatusReply(ptp.transport.link, old(ptp.transport.state), old(ptp.nextTid), imageId)
    {
      var reply;
      if imageId == 0 {
        reply :- ptp.Transact(OP_GET_CAPT_STATUS, [], None, true);
      } else {
        reply :- ptp.Transact(OP_GET_CAPT_STATUS, [imageId], None, true);
      }
      var raw := reply.data;
      if |raw| < 8 {
        return Err(ShortBuffer);
      }
      return Ok(CaptStatus(raw[1], raw[2], raw[3], ReadLe16(raw, 4), raw[6]));
    }

    method WaitCompletion(imageId: byte, polls: int) returns (r: Result<CaptStatus>)
      requires Sound(ptp.transport.link)
      modifies ptp, ptp.transport
      ensures var p := Poll(Statuses(ptp.transport.link, imageId), old(ptp.transport.state), old(ptp.nextTid),
                            if polls < 0 then 0 else polls, 0, NO_STATUS);
              && ptp.transport.state == p.s && ptp.nextTid == p.tid && r == p.result
              && ptp.transport.writes ==
                 old(ptp.transport.writes) + StatusRequests(StatusRequest(imageId), old(ptp.nextTid), p.requests)
    {
      r := PollAll(imageId, polls, Statuses(ptp.transport.link, imageId), StatusRequest(imageId));
    }

    /** The loop of WaitCompletion. */
    method PollAll(imageId: byte, polls: int, ghost ask: Ask<S>, ghost request: uint32 -> seq<Bytes>)
      returns (r: Result<CaptStatus>)
      requires Sound(ptp.transport.link) && Asks(ptp.transport.link, imageId, ask, request)
      modifies ptp, ptp.transport
      ensures var p := Poll(ask, old(ptp.transport.state), old(ptp.nextTid), if polls < 0 then 0 else polls, 0, NO_STATUS);
              && ptp.transport.state == p.s && ptp.nextTid == p.tid && r == p.result
              && ptp.transport.writes == old(ptp.transport.writes) + StatusRequests(request, old(ptp.nextTid), p.requests)
    {
      var st, err, i := NO_STATUS, 0, 0;
      ghost var tid0, log0, limit := ptp.nextTid, ptp.transport.writes, if polls < 0 then 0 else polls;
      ghost var target := Poll(ask, ptp.transport.state, ptp.nextTid, limit, 0, NO_STATUS);
      while i < polls
        invariant 0 <= i <= limit && 0 <= err <= MAX_UNEXPECTED
        invariant target == Continued(i, Poll(ask, ptp.transport.state, ptp.nextTid, limit - i, err, st))
        invariant ptp.transport.writes == log0 + StatusRequests(request, tid0, i)
        invariant ptp.nextTid == TidAfter(tid0, i)
      {
        StatusRequestsStep(request, tid0, i, log0);
        st :- AskStatus(imageId, ask, request);
        if Completed(st.status) {
          return Ok(st);
        } else if !Waiting(st.status) {
          err := err + 1;
          if err > MAX_UNEXPECTED {
            return Ok(st);
          }
        }
        i := i + 1;
      }
      return Ok(st);
    }

    /** GetCamCaptStatus, as a step of polling. */
    method AskStatus(imageId: byte, ghost ask: Ask<S>, ghost request: uint32 -> seq<Bytes>)
      returns (r: Result<CaptStatus>)
      requires Sound(ptp.transport.link) && Asks(ptp.transport.link, imageId, ask, request)
      modifies ptp, ptp.transport
      ensures ptp.transport.writes == old(ptp.transport.writes) + request(old(ptp.nextTid))
      ensures ptp.nextTid == NextTid(old(ptp.nextTid))
      ensures (ptp.transport.state, r) == ask(old(ptp.transport.state), old(ptp.nextTid))
    {
      assert Asked(ptp.transport.state, ptp.nextTid, 0, 0);
      r := GetCamCaptStatus(imageId);
    }

    method SetGroup(g: CamDataGroup) returns (r: Result<Response>)
      requires Sound(ptp.transport.link)
      modifies ptp, ptp.transport
      ensures !Encodable(g.value) ==> r == Err(UnevenInterval) && unchanged(ptp, ptp.transport)
      ensures Encodable(g.value) ==>
                && ptp.transport.writes == old(ptp.transport.writes)
                   + Upload(old(ptp.nextTid), SetOp(IdOf(g.value)), Wire(g.value))
                && ptp.nextTid == NextTid(old(ptp.nextTid))
                && (ptp.transport.state, r) ==
                   SetReply(ptp.transport.link, old(ptp.transport.state), old(ptp.nextTid), g.value)
    {
      var bytes :- g.Encode();
      r := ptp.Transact(SetOp(IdOf(g.value)), [], Some(bytes), false);
    }

    method GetGroup(id: GroupId) returns (r: Result<Group>)
      requires Sound(ptp.transport.link)
      modifies ptp, ptp.transport
      ensures ptp.transport.writes == old(ptp.transport.writes) + Command(old(ptp.nextTid), GetOp(id), [])
      ensures ptp.nextTid == NextTid(old(ptp.nextTid))
      ensures var (s, cells) := GetReply(ptp.transport.link, old(ptp.transport.state), old(ptp.nextTid), id);
              && ptp.transport.state == s && (r.Ok? <==> cells.Ok?)
              && (r.Ok? ==> IdOf(r.value) == id && ViewOf(r.value) == cells.value)
    {
      var reply :- ptp.Transact(GetOp(id), [], None, true);
      r := DecodeFresh(id, reply.data);
    }
  }
}
