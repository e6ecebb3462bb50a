/**
 Every operation on the wire: the bytes it sends, as numbers, and what becomes of the
 answer. Together with Protocol.TransactionCorrect, which says what a transaction returns.
 */
module Operations {
  import opened Wrappers
  import opened Bytes
  import opened Containers
  import opened Transport
  import opened Ptp
  import opened Protocol
  import opened Text
  import opened Records
  import opened Slots
  import opened Groups
  import opened Sigma

  // ----- the bytes of a request -----

  lemma {:induction false} FewWords(a: uint32, b: uint32, c: uint32)
    ensures UnWords([]) == [] && UnWords([a]) == Le32(a)
    ensures UnWords([a, b, c]) == Le32(a) + Le32(b) + Le32(c)
  {
    assert [a][..0] == [] && [a, b][..1] == [a] && [a, b, c][..2] == [a, b];
    assert UnWords([a, b]) == UnWords([a]) + Le32(b);
    assert [] + Le32(a) == Le32(a);
  }

  lemma {:induction false} FrameBytes(c: Container)
    requires c.Fits()
    ensures Frame(c) == Le32(12 + |c.payload|) + [c.kind % 256, c.kind / 256, c.code % 256, c.code / 256] + Le32(c.tid)
                        + c.payload
  {
    assert Le16(c.kind) + Le16(c.code) == [c.kind % 256, c.kind / 256, c.code % 256, c.code / 256];
  }

  /** The command container: length, type 1, opcode, transaction id, parameters. */
  lemma {:induction false} CommandBytes(tid: uint32, op: uint16, params: seq<uint32>)
    requires |params| <= 5
    ensures Command(tid, op, params) ==
            [[12 + 4 * |params|, 0, 0, 0, 1, 0, op % 256, op / 256] + Le32(tid) + UnWords(params)]
  {
    FrameBytes(Container(COMMAND, op, tid, UnWords(params)));
    var n := 12 + 4 * |params|;
    LittleEndian(n, n, 0, 0, 0);
    assert Le32(n) + [1, 0, op % 256, op / 256] == [n, 0, 0, 0, 1, 0, op % 256, op / 256];
  }

  lemma {:induction false} BareCommand(tid: uint32, op: uint16)
    ensures Command(tid, op, []) == [[12, 0, 0, 0, 1, 0, op % 256, op / 256] + Le32(tid)]
  {
    CommandBytes(tid, op, []);
    var head := [12, 0, 0, 0, 1, 0, op % 256, op / 256] + Le32(tid);
    assert head + UnWords([]) == head;
  }

  /** The data container: length, type 2, opcode, transaction id, data. */
  lemma {:induction false} DataBytes(tid: uint32, op: uint16, data: Bytes)
    requires 12 + |data| < 0x1_0000_0000
    ensures Frame(Container(DATA, op, tid, data)) == Le32(12 + |data|) + [2, 0, op % 256, op / 256] + Le32(tid) + data
  {
    FrameBytes(Container(DATA, op, tid, data));
  }

  // ----- the driver's own requests -----

  lemma {:induction false} SessionRequests(tid: uint32, sid: uint32)
    ensures Command(tid, OP_OPEN_SESSION, [sid]) == [[16, 0, 0, 0, 1, 0, 0x02, 0x10] + Le32(tid) + Le32(sid)]
    ensures Command(tid, OP_CLOSE_SESSION, []) == [[12, 0, 0, 0, 1, 0, 0x03, 0x10] + Le32(tid)]
  {
    CommandBytes(tid, OP_OPEN_SESSION, [sid]);
    BareCommand(tid, OP_CLOSE_SESSION);
    FewWords(sid, 0, 0);
  }

  lemma {:induction false} HandlesRequest(tid: uint32, storage: uint32, format: uint32, assoc: uint32)
    ensures Command(tid, OP_GET_OBJECT_HANDLES, [storage, format, assoc]) ==
            [[24, 0, 0, 0, 1, 0, 0x07, 0x10] + Le32(tid) + (Le32(storage) + Le32(format) + Le32(assoc))]
  {
    CommandBytes(tid, OP_GET_OBJECT_HANDLES, [storage, format, assoc]);
    FewWords(storage, format, assoc);
  }

  /** The id of a data phase after parameters is whatever was fetched; without parameters it is the command's. */
  lemma {:induction false} RequestBytes(tid: uint32, stale: uint32, op: uint16, params: seq<uint32>, data: Bytes)
    requires |params| <= 5 && 12 + |data| < 0x1_0000_0000
    ensures Request(tid, stale, op, params, None) ==
            [[12 + 4 * |params|, 0, 0, 0, 1, 0, op % 256, op / 256] + Le32(tid) + UnWords(params)]
    ensures Request(tid, stale, op, params, Some(data)) ==
            [[12 + 4 * |params|, 0, 0, 0, 1, 0, op % 256, op / 256] + Le32(tid) + UnWords(params),
             Le32(12 + |data|) + [2, 0, op % 256, op / 256] + Le32(if params == [] then tid else stale) + data]
  {
    CommandBytes(tid, op, params);
    DataBytes(DataTid(tid, stale, params), op, data);
  }

  lemma {:induction false} UploadBytes(tid: uint32, op: uint16, data: Bytes)
    requires 12 + |data| < 0x1_0000_0000
    ensures Upload(tid, op, data) ==
            [[12, 0, 0, 0, 1, 0, op % 256, op / 256] + Le32(tid),
             Le32(12 + |data|) + [2, 0, op % 256, op / 256] + Le32(tid) + data]
  {
    BareCommand(tid, op);
    DataBytes(tid, op, data);
  }

  lemma {:induction false} ShortUpload(tid: uint32, op: uint16, data: Bytes)
    requires |data| <= 44
    ensures Upload(tid, op, data) ==
            [[12, 0, 0, 0, 1, 0, op % 256, op / 256] + Le32(tid),
             [12 + |data|, 0, 0, 0, 2, 0, op % 256, op / 256] + Le32(tid) + data]
  {
    UploadBytes(tid, op, data);
    var n := 12 + |data|;
    LittleEndian(n, n, 0, 0, 0);
    assert Le32(n) + [2, 0, op % 256, op / 256] == [n, 0, 0, 0, 2, 0, op % 256, op / 256];
  }

  // ----- vendor operations -----

  /** A picture description is asked for under its handle, or without one for the latest picture. */
  lemma {:induction false} DescriptionOnTheWire<S(!new)>(link: Link<S>, s: S, tid: uint32, handle: uint32,
                                                         frames: seq<Bytes>)
    requires Sound(link) && frames == [[16, 0, 0, 0, 1, 0, 0x2D, 0x90] + Le32(tid) + Le32(handle)]
    ensures Command(tid, OP_GET_PICT_FILE_INFO2, [handle]) == frames
    ensures var (s', r) := Transacted(link, s, frames);
            InfoReply(link, s, tid, handle) == (s', if r.Err? then Err(r.error) else Info(r.value.data))
  {
    CommandBytes(tid, OP_GET_PICT_FILE_INFO2, [handle]);
    FewWords(handle, 0, 0);
  }

  lemma {:induction false} LatestOnTheWire<S(!new)>(link: Link<S>, s: S, tid: uint32, frames: seq<Bytes>)
    requires Sound(link) && frames == [[12, 0, 0, 0, 1, 0, 0x2D, 0x90] + Le32(tid)]
    ensures Command(tid, OP_GET_PICT_FILE_INFO2, []) == frames
    ensures var (s', r) := Transacted(link, s, frames);
            LatestInfoReply(link, s, tid) == (s', if r.Err? then Err(r.error) else Info(r.value.data))
  {
    BareCommand(tid, OP_GET_PICT_FILE_INFO2);
  }

  lemma {:induction false} PartOnTheWire<S(!new)>(link: Link<S>, s: S, tid: uint32, address: uint32, start: uint32,
                                                  max: uint32, frames: seq<Bytes>)
    requires Sound(link)
    requires frames == [[24, 0, 0, 0, 1, 0, 0x22, 0x90] + Le32(tid) + (Le32(address) + Le32(start) + Le32(max))]
    ensures Command(tid, OP_GET_BIG_PARTIAL_PICT_FILE, [address, start, max]) == frames
    ensures var (s', r) := Transacted(link, s, frames);
            PartReply(link, s, tid, address, start, max) == (s', if r.Err? then Err(r.error) else PartOf(r.value.data))
  {
    CommandBytes(tid, OP_GET_BIG_PARTIAL_PICT_FILE, [address, start, max]);
    FewWords(address, start, max);
  }

  /** The capture status is asked for under the picture's id, or without one if that is 0. */
  lemma {:induction false} StatusOnTheWire<S(!new)>(link: Link<S>, s: S, tid: uint32, imageId: byte, frames: seq<Bytes>)
    requires Sound(link)
    requires frames == if imageId == 0 then [[12, 0, 0, 0, 1, 0, 0x15, 0x90] + Le32(tid)]
                       else [[16, 0, 0, 0, 1, 0, 0x15, 0x90] + Le32(tid) + [imageId, 0, 0, 0]]
    ensures Command(tid, OP_GET_CAPT_STATUS, StatusParams(imageId)) == frames
    ensures var (s', r) := Transacted(link, s, frames);
            StatusReply(link, s, tid, imageId) == (s', if r.Err? then Err(r.error) else StatusOf(r.value.data))
  {
    if imageId == 0 {
      BareCommand(tid, OP_GET_CAPT_STATUS);
    } else {
      CommandBytes(tid, OP_GET_CAPT_STATUS, [imageId]);
      FewWords(imageId, 0, 0);
      LittleEndian(imageId, imageId, 0, 0, 0);
    }
  }

  /** Shooting sends mode and amount between header and parity, and returns the response code. */
  lemma {:induction false} SnapOnTheWire<S(!new)>(link: Link<S>, s: S, tid: uint32, mode: byte, amount: byte,
                                                  frames: seq<Bytes>)
    requires Sound(link)
    requires frames == [[12, 0, 0, 0, 1, 0, 0x1B, 0x90] + Le32(tid),
                        [16, 0, 0, 0, 2, 0, 0x1B, 0x90] + Le32(tid) + [0, mode, amount, 0]]
    ensures Upload(tid, OP_SNAP_COMMAND, SnapPayload(mode, amount)) == frames
    ensures var (s', r) := Transacted(link, s, frames);
            SnapReply(link, s, tid, mode, amount) == (s', if r.Err? then Err(r.error) else Ok(r.value.code))
  {
    ShortUpload(tid, OP_SNAP_COMMAND, SnapPayload(mode, amount));
  }

  /** Clearing sends the picture id and ten zero bytes. */
  lemma {:induction false} ClearOnTheWire(tid: uint32, stale: uint32, imageId: uint32)
    ensures ClearRequest(tid, stale, imageId) ==
            [[16, 0, 0, 0, 1, 0, 0x1C, 0x90] + Le32(tid) + Le32(imageId),
             [22, 0, 0, 0, 2, 0, 0x1C, 0x90] + Le32(stale) + [0, 0, 0, 0, 0, 0, 0, 0, 0, 0]]
  {
    RequestBytes(tid, stale, OP_CLEAR_IMAGE_DB_SINGLE, [imageId], Zeros(10));
    FewWords(imageId, 0, 0);
    LittleEndian(22, 22, 0, 0, 0);
    assert Le32(22) + [2, 0, 0x1C, 0x90] == [22, 0, 0, 0, 2, 0, 0x1C, 0x90];
    assert Zeros(10) == [0, 0, 0, 0, 0, 0, 0, 0, 0, 0];
  }

  /** Setting a group sends its payload under the opcode of its kind, and returns the response as it is. */
  lemma {:induction false} SetOnTheWire<S(!new)>(link: Link<S>, s: S, tid: uint32, g: Group)
    requires Sound(link)
    ensures |Wire(g)| <= 44
    ensures var low := match g case One(_) => 0x16 case Two(_) => 0x17 case Three(_) => 0x18 case Four(_) => 0x24
                               case Five(_) => 0x28;
            var frames: seq<Bytes> := [[12, 0, 0, 0, 1, 0, low, 0x90] + Le32(tid),
                                       [12 + |Wire(g)|, 0, 0, 0, 2, 0, low, 0x90] + Le32(tid) + Wire(g)];
            Upload(tid, SetOp(IdOf(g)), Wire(g)) == frames && SetReply(link, s, tid, g) == Transacted(link, s, frames)
  {
    ShortWire(g);
    ShortUpload(tid, SetOp(IdOf(g)), Wire(g));
  }

  lemma {:induction false} ShortWire(g: Group)
    ensures |Wire(g)| <= 44
  {
    PrintBound(TableOf(g), ViewOf(NormalOf(g)), |TableOf(g)|);
    SmallBits(g);
  }

  /** Getting one asks for it under the opcode of its kind, and decodes the data of the answer. */
  lemma {:induction false} GetOnTheWire<S(!new)>(link: Link<S>, s: S, tid: uint32, id: GroupId)
    requires Sound(link)
    ensures var low := match id case G1 => 0x12 case G2 => 0x13 case G3 => 0x14 case G4 => 0x23 case G5 => 0x27;
            Command(tid, GetOp(id), []) == [[12, 0, 0, 0, 1, 0, low, 0x90] + Le32(tid)]
    ensures var (s', r) := Transacted(link, s, Command(tid, GetOp(id), []));
            GetReply(link, s, tid, id) == (s', if r.Err? then Err(r.error) else DecodedFrom(id, r.value.data))
  {
    BareCommand(tid, GetOp(id));
  }

  /** Which succeeds exactly when the payload has the bytes its presence word asks for, and then decodes it. */
  lemma {:induction false} GetFails(id: GroupId, raw: Bytes, before: Group)
    requires IdOf(before) == id
    ensures DecodedFrom(id, raw) == Err(OutOfRange) <==>
            |raw| < 4 || |raw| < 4 + Widths(TableOf(before), ReadBe16(raw, 1), |TableOf(before)|)
    ensures DecodedFrom(id, raw).Err? ==> DecodedFrom(id, raw) == Err(OutOfRange)
    ensures DecodedFrom(id, raw).Ok? ==> DecodedFrom(id, raw).value == Parse(TableOf(before), raw, ViewOf(before)).cells
  {
    var blank := Blank(id);
    assert TableOf(blank) == TableOf(before);
    ParseSucceeds(TableOf(blank), raw, ViewOf(blank));
    if DecodedFrom(id, raw).Ok? {
      ParseForgets(TableOf(blank), raw, [], ViewOf(blank), ViewOf(before));
      assert raw + [] == raw;
    }
  }
}
