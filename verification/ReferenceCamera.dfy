/**
 A camera the end-to-end theorems apply to. It answers part requests from a file, keeps
 the payloads of set commands and replays them for get commands, and reports one capture
 status after another; its transport never crosses a container boundary in one read.
 */
module ReferenceCamera {
  import opened Wrappers
  import opened Bytes
  import opened Containers
  import opened Transport
  import opened Ptp
  import opened Protocol
  import opened Text
  import opened Records
  import opened Groups
  import opened Sigma
  import opened Download
  import opened Polling
  import opened SetThenGet

  const RC_OK: uint16 := 0x2001

  /** `frames` are the containers, or rests of them, still to be read. */
  datatype State = State(file: Bytes, info: PictFileInfo, groups: map<GroupId, Bytes>, statuses: seq<CaptStatus>,
                         frames: seq<Bytes>)

  function Stored(s: State, id: GroupId): Bytes {
    if id in s.groups then s.groups[id] else []
  }

  // ----- the device -----

  function InfoPayload(info: PictFileInfo): Bytes {
    InfoHeader(info, Zeros(12), Zeros(8)) + (info.pathName + [NUL] + (info.fileName + [NUL] + []))
  }

  /** The payload for a part request: what was acquired, then the bytes. */
  function PartPayload(file: Bytes, start: uint32, max: uint32): Bytes {
    if start + max <= |file| then Le32(max) + file[start..start + max] else Le32(0)
  }

  function ResponseTo(tid: uint32): Container {
    Container(RESPONSE, RC_OK, tid, [])
  }

  function DataFor(code: uint16, tid: uint32, data: Option<Bytes>): Option<Container> {
    if data.Some? then Some(Container(DATA, code, tid, data.value)) else None
  }

  function Reply(s: State, code: uint16, tid: uint32, data: Option<Bytes>): State {
    s.(frames := (if data.Some? then [Frame(Container(DATA, code, tid, data.value))] else []) + [Frame(ResponseTo(tid))])
  }

  function IdOfGet(code: uint16): Option<GroupId> {
    if code == GetOp(G1) then Some(G1) else if code == GetOp(G2) then Some(G2) else if code == GetOp(G3) then Some(G3)
    else if code == GetOp(G4) then Some(G4) else if code == GetOp(G5) then Some(G5) else None
  }

  function IdOfSet(code: uint16): Option<GroupId> {
    if code == SetOp(G1) then Some(G1) else if code == SetOp(G2) then Some(G2) else if code == SetOp(G3) then Some(G3)
    else if code == SetOp(G4) then Some(G4) else if code == SetOp(G5) then Some(G5) else None
  }

  function React(s: State, kind: uint16, code: uint16, tid: uint32, payload: Bytes): State {
    if kind == DATA then
      if IdOfSet(code).Some? then Reply(s.(groups := s.groups[IdOfSet(code).value := payload]), code, tid, None)
      else Reply(s, code, tid, None)
    else if IdOfSet(code).Some? then s
    else if IdOfGet(code).Some? then Reply(s, code, tid, Some(Stored(s, IdOfGet(code).value)))
    else if code == OP_GET_CAPT_STATUS && s.statuses != [] then
      Reply(s.(statuses := s.statuses[1..]), code, tid, Some(StatusRecord(s.statuses[0], 0, 0)))
    else if code == OP_GET_PICT_FILE_INFO2 then Reply(s, code, tid, Some(InfoPayload(s.info)))
    else if code == OP_GET_BIG_PARTIAL_PICT_FILE && |payload| == 12 then
      Reply(s, code, tid, Some(PartPayload(s.file, ReadLe32(payload, 4), ReadLe32(payload, 8))))
    else Reply(s, code, tid, None)
  }

  function Receives(s: State, data: Bytes): State {
    if |data| < HEADER then s else React(s, KindOf(data), CodeOf(data), TidOf(data), data[HEADER..])
  }

  /** One read takes what it can of the first frame. */
  function Gives(s: State): (State, Option<Bytes>) {
    if s.frames == [] then (s, None)
    else
      var frame := s.frames[0];
      if |frame| <= CHUNK then (s.(frames := s.frames[1..]), Some(frame))
      else (s.(frames := [frame[CHUNK..]] + s.frames[1..]), Some(frame[..CHUNK]))
  }

  function Device(): Link<State> {
    Link((s: State, data: Bytes) => Receives(s, data), (s: State) => Gives(s), (s: State) => (s, []), (s: State) => |s.frames|)
  }

  lemma {:induction false} DeviceIsSound()
    ensures Sound(Device())
  {
  }

  // ----- delivery of a reply -----

  lemma {:induction false} GivesFrame(s: State, frame: Bytes, rest: seq<Bytes>)
    requires s.frames == [frame] + rest
    ensures Yields(Device(), s, Chop(frame)) && After(Device(), s, |Chop(frame)|) == s.(frames := rest)
    decreases |frame|
  {
    var link := Device();
    assert s.frames[1..] == rest;
    if |frame| <= CHUNK {
      assert Chop(frame)[1..] == [];
      assert After(link, s, 1) == After(link, link.read(s).0, 0);
    } else {
      var s' := s.(frames := [frame[CHUNK..]] + rest);
      assert link.read(s) == (s', Some(frame[..CHUNK]));
      GivesFrame(s', frame[CHUNK..], rest);
      assert Chop(frame)[1..] == Chop(frame[CHUNK..]);
    }
  }

  function Answer(code: uint16, tid: uint32, data: Option<Bytes>): Inbound {
    Inbound([], DataFor(code, tid, data), ResponseTo(tid),
            (if data.Some? then [Chop(Frame(Container(DATA, code, tid, data.value)))] else [])
            + [Chop(Frame(ResponseTo(tid)))])
  }

  /** The reads that bring one frame, then those that bring a second one. */
  lemma {:induction false} GivesTwo(s: State, first: Bytes, second: Bytes)
    requires s.frames == [first, second]
    ensures var chunks := Flat([Chop(first)] + [Chop(second)]);
            Yields(Device(), s, chunks) && After(Device(), s, |chunks|) == s.(frames := [])
  {
    FlatCuts(Chop(first), Chop(second));
    GivesFrame(s, first, [second]);
    GivesFrame(s.(frames := [second]), second, []);
    YieldsConcat(Device(), s, Chop(first), Chop(second));
  }

  lemma {:induction false} GivesOne(s: State, frame: Bytes)
    requires s.frames == [frame]
    ensures var chunks := Flat([Chop(frame)]);
            Yields(Device(), s, chunks) && After(Device(), s, |chunks|) == s.(frames := [])
  {
    FlatCuts(Chop(frame), []);
    GivesFrame(s, frame, []);
  }

  lemma {:induction false} BareReplyDelivers(s: State, code: uint16, tid: uint32)
    ensures Delivers(Device(), Reply(s, code, tid, None), Answer(code, tid, None), s.(frames := []))
  {
    var resp := Frame(ResponseTo(tid));
    ChopCuts(resp);
    GivesOne(Reply(s, code, tid, None), resp);
    assert Answer(code, tid, None).cuts == [Chop(resp)];
  }

  lemma {:induction false} DataReplyDelivers(s: State, code: uint16, tid: uint32, data: Bytes)
    requires HEADER + |data| < TWO_32
    ensures Delivers(Device(), Reply(s, code, tid, Some(data)), Answer(code, tid, Some(data)), s.(frames := []))
  {
    var frame, resp := Frame(Container(DATA, code, tid, data)), Frame(ResponseTo(tid));
    ChopCuts(frame);
    ChopCuts(resp);
    GivesTwo(Reply(s, code, tid, Some(data)), frame, resp);
  }

  lemma {:induction false} ReplyDelivers(s: State, code: uint16, tid: uint32, data: Option<Bytes>)
    requires data.Some? ==> HEADER + |data.value| < TWO_32
    ensures Delivers(Device(), Reply(s, code, tid, data), Answer(code, tid, data), s.(frames := []))
    ensures Answer(code, tid, data).Payload() == data.GetOr([])
  {
    if data.Some? {
      DataReplyDelivers(s, code, tid, data.value);
    } else {
      BareReplyDelivers(s, code, tid);
    }
  }

  // ----- what a request does to the device -----

  lemma {:induction false} CommandReaches(s: State, code: uint16, tid: uint32, params: seq<uint32>)
    ensures Send(Device(), s, Command(tid, code, params)) == React(s, COMMAND, code, tid, UnWords(params))
  {
    SendSteps(Device(), s, Command(tid, code, params));
    FrameReaches(s, Container(COMMAND, code, tid, UnWords(params)));
  }

  lemma {:induction false} FrameReaches(s: State, c: Container)
    ensures Receives(s, Frame(c)) == React(s, c.kind, c.code, c.tid, c.payload)
  {
    var b := Frame(c);
    assert b[..HEADER] == Header(HEADER + |c.payload|, c.kind, c.code, c.tid);
    Containers.HeaderFields(HEADER + |c.payload|, c.kind, c.code, c.tid, b);
    assert b[HEADER..] == c.payload;
  }

  lemma {:induction false} DataReaches(s: State, id: GroupId, tid: uint32, payload: Bytes)
    ensures Send(Device(), s, Upload(tid, SetOp(id), payload)) ==
            Reply(s.(groups := s.groups[id := payload]), SetOp(id), tid, None)
  {
    var frames := Upload(tid, SetOp(id), payload);
    SendSteps(Device(), s, frames);
    FrameReaches(s, Container(COMMAND, SetOp(id), tid, UnWords([])));
    assert IdOfSet(SetOp(id)) == Some(id);
    FrameReaches(s, Container(DATA, SetOp(id), tid, payload));
  }

  lemma {:induction false} GetReaches(s: State, id: GroupId, tid: uint32)
    ensures Send(Device(), s, Command(tid, GetOp(id), [])) == Reply(s, GetOp(id), tid, Some(Stored(s, id)))
  {
    CommandReaches(s, GetOp(id), tid, []);
    assert IdOfSet(GetOp(id)) == None && IdOfGet(GetOp(id)) == Some(id);
  }

  // ----- downloads -----

  /** A camera that holds this file under this description. */
  function Holding(file: Bytes, info: PictFileInfo): State -> bool {
    (s: State) => s.file == file && s.info == info
  }

  predicate Describes(info: PictFileInfo, file: Bytes) {
    && |file| == info.fileSize && |file| < TWO_32 - 16 && |info.pictureFormat| == 4
    && NulFree(info.pathName) && NulFree(info.fileName)
    && HEADER + INFO_HEADER + |info.pathName| + |info.fileName| + 2 < TWO_32
  }

  lemma {:induction false} PartReaches(s: State, tid: uint32, address: uint32, start: uint32, max: uint32)
    ensures Send(Device(), s, Command(tid, OP_GET_BIG_PARTIAL_PICT_FILE, [address, start, max])) ==
            Reply(s, OP_GET_BIG_PARTIAL_PICT_FILE, tid, Some(PartPayload(s.file, start, max)))
  {
    var params := [address, start, max];
    CommandReaches(s, OP_GET_BIG_PARTIAL_PICT_FILE, tid, params);
    UnWordsAt(params, 1);
    UnWordsAt(params, 2);
    Le32Inverse(UnWords(params), 4, start);
    Le32Inverse(UnWords(params), 8, max);
  }

  lemma {:induction false} PartPayloadFills(file: Bytes, start: uint32, max: uint32)
    requires start + max <= |file|
    ensures var part := PartOf(PartPayload(file, start, max));
            part.Ok? && Answers(file, start, max, part.value) && Fills(max, part.value)
  {
    var data := file[start..start + max];
    PartRoundTrip(max, data, []);
    assert Le32(max) + data + [] == PartPayload(file, start, max);
    assert data == file[start..][..max];
  }

  lemma {:induction false} DeviceServes(file: Bytes, info: PictFileInfo)
    requires Describes(info, file)
    ensures Serves(Device(), Holding(file, info), info.fileAddress, file, true)
  {
    var link, ready, address := Device(), Holding(file, info), info.fileAddress;
    forall s, tid: uint32, start: uint32, max: uint32 | Asked(s, tid, start, max) && ready(s) && start + max <= |file|
      ensures exists inb: Inbound, s' ::
                && Delivers(link, Send(link, s, Command(tid, OP_GET_BIG_PARTIAL_PICT_FILE, [address, start, max])),
                            inb, s')
                && ready(s')
                && PartOf(inb.Payload()).Ok? && Answers(file, start, max, PartOf(inb.Payload()).value)
                && (true ==> Fills(max, PartOf(inb.Payload()).value))
    {
      var data := Some(PartPayload(file, start, max));
      PartReaches(s, tid, address, start, max);
      ReplyDelivers(s, OP_GET_BIG_PARTIAL_PICT_FILE, tid, data);
      PartPayloadFills(file, start, max);
      var inb := Answer(OP_GET_BIG_PARTIAL_PICT_FILE, tid, data);
      assert ready(s.(frames := []));
      assert Delivers(link, Send(link, s, Command(tid, OP_GET_BIG_PARTIAL_PICT_FILE, [address, start, max])), inb,
                      s.(frames := []));
    }
  }

  lemma {:induction false} InfoPayloadIs(info: PictFileInfo, file: Bytes)
    requires Describes(info, file)
    ensures HEADER + |InfoPayload(info)| < TWO_32 && Info(InfoPayload(info)) == Ok(info)
  {
    InfoRoundTrip(info, Zeros(12), Zeros(8), []);
    assert |InfoHeader(info, Zeros(12), Zeros(8))| == INFO_HEADER;
  }

  lemma {:induction false} InfoReaches(s: State, tid: uint32, handle: uint32)
    ensures Send(Device(), s, Command(tid, OP_GET_PICT_FILE_INFO2, [handle])) ==
            Reply(s, OP_GET_PICT_FILE_INFO2, tid, Some(InfoPayload(s.info)))
  {
    CommandReaches(s, OP_GET_PICT_FILE_INFO2, tid, [handle]);
  }

  /** Any file of a size that fits is downloaded whole, in ceil(size / chunk) requests. */
  lemma {:induction false} FileIsDownloaded(s: State, tid: uint32, handle: uint32, chunk: uint32, n: nat)
    requires Describes(s.info, s.file) && 0 < chunk && |s.file| <= n
    ensures Sound(Device())
    ensures var f := VendorObject(Device(), s, tid, handle, chunk, n);
            f.Some? && f.value.result == Ok(s.file) && Ceiling(|f.value.requests|, |s.file|, chunk)
  {
    DeviceIsSound();
    DeviceServes(s.file, s.info);
    InfoPayloadIs(s.info, s.file);
    InfoReaches(s, tid, handle);
    ReplyDelivers(s, OP_GET_PICT_FILE_INFO2, tid, Some(InfoPayload(s.info)));
    EndToEnd(Device(), Holding(s.file, s.info), s, tid, handle, chunk, s.info, s.file, true,
             Answer(OP_GET_PICT_FILE_INFO2, tid, Some(InfoPayload(s.info))), s.(frames := []), n);
  }

  // ----- polling -----

  lemma {:induction false} StatusReaches(s: State, tid: uint32, imageId: byte)
    requires s.statuses != []
    ensures Send(Device(), s, Command(tid, OP_GET_CAPT_STATUS, StatusParams(imageId))) ==
            Reply(s.(statuses := s.statuses[1..]), OP_GET_CAPT_STATUS, tid, Some(StatusRecord(s.statuses[0], 0, 0)))
  {
    CommandReaches(s, OP_GET_CAPT_STATUS, tid, StatusParams(imageId));
  }

  lemma {:induction false} DeviceTells(s: State, tid: uint32, imageId: byte)
    ensures Tells(Device(), s, tid, imageId, s.statuses)
    decreases |s.statuses|
  {
    if s.statuses != [] {
      var t, data := s.(statuses := s.statuses[1..]), StatusRecord(s.statuses[0], 0, 0);
      StatusReaches(s, tid, imageId);
      ReplyDelivers(t, OP_GET_CAPT_STATUS, tid, Some(data));
      StatusRoundTrip(s.statuses[0], 0, 0, []);
      assert data + [] == data;
      DeviceTells(t.(frames := []), NextTid(tid), imageId);
      assert Delivers(Device(), Send(Device(), s, Command(tid, OP_GET_CAPT_STATUS, StatusParams(imageId))),
                      Answer(OP_GET_CAPT_STATUS, tid, Some(data)), t.(frames := []));
    }
  }

  /** Polling this device ends as its statuses say. */
  lemma {:induction false} PollingIsBounded(s: State, tid: uint32, imageId: byte, polls: nat)
    requires Decides(s.statuses, polls)
    ensures Sound(Device())
    ensures Bounded(Poll(Statuses(Device(), imageId), s, tid, polls, 0, NO_STATUS), s.statuses, polls)
  {
    DeviceIsSound();
    DeviceTells(s, tid, imageId);
    PollingOnTheWire(Device(), s, tid, imageId, s.statuses, polls);
  }

  // ----- settings -----

  predicate AllFit(s: State) {
    forall id: GroupId :: HEADER + |Stored(s, id)| < TWO_32
  }

  function Fitting(): State -> bool {
    (s: State) => AllFit(s)
  }

  function Keeping(): (State, GroupId) -> Bytes {
    (s: State, id: GroupId) => Stored(s, id)
  }

  lemma {:induction false} DeviceAccepts()
    ensures Accepts(Device(), Fitting(), Keeping())
  {
    forall s, tid: uint32, id: GroupId, payload: Bytes |
      Sending(s, tid, id, payload) && AllFit(s) && HEADER + |payload| < TWO_32
      ensures exists inb: Inbound, s' ::
                && Delivers(Device(), Send(Device(), s, Upload(tid, SetOp(id), payload)), inb, s')
                && AllFit(s') && Kept(Keeping(), s, s', id, payload)
    {
      DataReaches(s, id, tid, payload);
      ReplyDelivers(s.(groups := s.groups[id := payload]), SetOp(id), tid, None);
      var inb, s' := Answer(SetOp(id), tid, None), s.(groups := s.groups[id := payload], frames := []);
      assert forall other: GroupId :: Stored(s', other) == if other == id then payload else Stored(s, other);
      assert Delivers(Device(), Send(Device(), s, Upload(tid, SetOp(id), payload)), inb, s')
             && AllFit(s') && Kept(Keeping(), s, s', id, payload);
    }
  }

  lemma {:induction false} DeviceReplays()
    ensures Replays(Device(), Fitting(), Keeping())
  {
    forall s, tid: uint32, id: GroupId | Due(s, tid, id) && AllFit(s)
      ensures exists inb: Inbound, s' ::
                && Delivers(Device(), Send(Device(), s, Command(tid, GetOp(id), [])), inb, s')
                && inb.Payload() == Stored(s, id) && AllFit(s') && Kept(Keeping(), s, s', id, Stored(s, id))
    {
      GetReaches(s, id, tid);
      ReplyDelivers(s, GetOp(id), tid, Some(Stored(s, id)));
      var inb, s' := Answer(GetOp(id), tid, Some(Stored(s, id))), s.(frames := []);
      assert forall other: GroupId :: Stored(s', other) == Stored(s, other);
      assert Delivers(Device(), Send(Device(), s, Command(tid, GetOp(id), [])), inb, s')
             && inb.Payload() == Stored(s, id) && AllFit(s') && Kept(Keeping(), s, s', id, Stored(s, id));
    }
  }

  /** After any run of sets and gets, reading a group gives the normal form of what was last set for it. */
  lemma {:induction false} SettingsComeBack(s: State, tid: uint32, run: seq<Access>, id: GroupId)
    requires AllFit(s) && LastSet(run, id).Some?
    ensures Sound(Device())
    ensures var (s', tid') := AccessAll(Device(), s, tid, run);
            GetReply(Device(), s', tid', id).1 == Ok(ViewOf(NormalOf(LastSet(run, id).value)))
  {
    DeviceIsSound();
    DeviceAccepts();
    DeviceReplays();
    GetAfterRun(Device(), Fitting(), Keeping(), s, tid, run, id);
  }
}
