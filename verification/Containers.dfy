/** The PTP bulk container: a 12-byte little-endian header and a payload (include/ptp/ptp.h). */
module Containers {
  import opened Bytes

  const HEADER := 12

  const COMMAND: uint16 := 1
  const DATA: uint16 := 2
  const RESPONSE: uint16 := 3
  const EVENT: uint16 := 4

  datatype Container = Container(kind: uint16, code: uint16, tid: uint32, payload: Bytes) {
    /** The 32-bit length field can hold the size. */
    predicate Fits() {
      HEADER + |payload| < TWO_32
    }

    /** What the driver may be sent: responses carry whole parameters. */
    predicate Good() {
      Fits() && (kind == RESPONSE ==> |payload| % 4 == 0)
    }
  }

  /** The header fields; the length is cast to 32 bits as the driver casts it. */
  function Header(length: nat, kind: uint16, code: uint16, tid: uint32): (b: Bytes)
    ensures |b| == HEADER
  {
    Le32(Wrap32(length)) + Le16(kind) + Le16(code) + Le32(tid)
  }

  function Frame(c: Container): (b: Bytes)
    ensures |b| == HEADER + |c.payload|
  {
    Header(HEADER + |c.payload|, c.kind, c.code, c.tid) + c.payload
  }

  function LengthOf(b: Bytes): uint32
    requires HEADER <= |b|
  {
    ReadLe32(b, 0)
  }

  function KindOf(b: Bytes): uint16
    requires HEADER <= |b|
  {
    ReadLe16(b, 4)
  }

  function CodeOf(b: Bytes): uint16
    requires HEADER <= |b|
  {
    ReadLe16(b, 6)
  }

  function TidOf(b: Bytes): uint32
    requires HEADER <= |b|
  {
    ReadLe32(b, 8)
  }

  lemma {:induction false} HeaderFields(length: nat, kind: uint16, code: uint16, tid: uint32, b: Bytes)
    requires HEADER <= |b| && b[..HEADER] == Header(length, kind, code, tid)
    ensures LengthOf(b) == Wrap32(length) && KindOf(b) == kind && CodeOf(b) == code && TidOf(b) == tid
  {
    var h := b[..HEADER];
    assert b[0..4] == h[0..4] == Le32(Wrap32(length));
    assert b[4..6] == h[4..6] == Le16(kind);
    assert b[6..8] == h[6..8] == Le16(code);
    assert b[8..12] == h[8..12] == Le32(tid);
    Le32Inverse(b, 0, Wrap32(length));
    Le16Inverse(b, 4, kind);
    Le16Inverse(b, 6, code);
    Le32Inverse(b, 8, tid);
  }

  /** Every field of a container is read back from its frame, whatever bytes follow the frame. */
  lemma {:induction false} FrameFields(c: Container, surplus: Bytes)
    requires c.Fits()
    ensures var b := Frame(c) + surplus;
            && LengthOf(b) == HEADER + |c.payload| && KindOf(b) == c.kind
            && CodeOf(b) == c.code && TidOf(b) == c.tid
            && b[HEADER..LengthOf(b)] == c.payload
  {
    var b := Frame(c) + surplus;
    var h := Header(HEADER + |c.payload|, c.kind, c.code, c.tid);
    assert b == h + (c.payload + surplus);
    HeaderFields(HEADER + |c.payload|, c.kind, c.code, c.tid, b);
  }
}
