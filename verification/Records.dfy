/** The fixed-layout records the camera returns (src/sigma/schema.cpp). */
module Records {
  import opened Wrappers
  import opened Bytes
  import opened Text

  // ----- PictFileInfo2 -----

  const INFO_HEADER := 36

  datatype PictFileInfo = PictFileInfo(fileAddress: uint32, fileSize: uint32, pictureFormat: Bytes,
                                       sizeX: uint16, sizeY: uint16, pathName: Bytes, fileName: Bytes)

  function Info(raw: Bytes): Result<PictFileInfo> {
    if |raw| < INFO_HEADER then Err(ShortBuffer)
    else
      var path := CStr(raw, INFO_HEADER);
      if path.Err? then Err(path.error) else
      var name := CStr(raw, path.value.1);
      if name.Err? then Err(name.error) else
      Ok(PictFileInfo(ReadLe32(raw, 12), ReadLe32(raw, 16), raw[28..32],
                      ReadLe16(raw, 32), ReadLe16(raw, 34), path.value.0, name.value.0))
  }

  method DecodeInfo(raw: Bytes) returns (r: Result<PictFileInfo>)
    ensures r == Info(raw)
  {
    if |raw| < INFO_HEADER {
      return Err(ShortBuffer);
    }
    var address, size := ReadLe32(raw, 12), ReadLe32(raw, 16);
    var format := raw[28..32];
    var x, y := ReadLe16(raw, 32), ReadLe16(raw, 34);
    var i := INFO_HEADER;
    var path, name;
    path, i :- ReadCStr(raw, i);
    name, i :- ReadCStr(raw, i);
    return Ok(PictFileInfo(address, size, format, x, y, path, name));
  }

  /** The header as the camera lays it out; `unknown` and `offsets` are not used by the driver. */
  function InfoHeader(info: PictFileInfo, unknown: Bytes, offsets: Bytes): Bytes {
    unknown + (Le32(info.fileAddress) + (Le32(info.fileSize) + (offsets + (info.pictureFormat
    + (Le16(info.sizeX) + Le16(info.sizeY))))))
  }

  /** Every field comes back from the layout, with any NUL-free names and whatever follows them. */
  lemma {:induction false} InfoRoundTrip(info: PictFileInfo, unknown: Bytes, offsets: Bytes, tail: Bytes)
    requires |unknown| == 12 && |offsets| == 8 && |info.pictureFormat| == 4
    requires NulFree(info.pathName) && NulFree(info.fileName)
    ensures Info(InfoHeader(info, unknown, offsets) + (info.pathName + [NUL] + (info.fileName + [NUL] + tail))) == Ok(info)
  {
    var h := InfoHeader(info, unknown, offsets);
    var names := info.pathName + [NUL] + (info.fileName + [NUL] + tail);
    var raw := h + names;
    HeaderFields(info, unknown, offsets, raw);
    var p, n := INFO_HEADER + |info.pathName|, |info.fileName|;
    assert raw[INFO_HEADER..p] == names[..|info.pathName|] == info.pathName;
    assert raw[p] == names[|info.pathName|] == NUL;
    CStrFound(raw, INFO_HEADER, info.pathName);
    assert raw[p + 1..p + 1 + n] == names[|info.pathName| + 1..|info.pathName| + 1 + n] == info.fileName;
    assert raw[p + 1 + n] == names[|info.pathName| + 1 + n] == NUL;
    CStrFound(raw, p + 1, info.fileName);
  }

  lemma {:induction false} HeaderFields(info: PictFileInfo, unknown: Bytes, offsets: Bytes, raw: Bytes)
    requires |unknown| == 12 && |offsets| == 8 && |info.pictureFormat| == 4
    requires InfoHeader(info, unknown, offsets) <= raw
    ensures INFO_HEADER <= |raw|
    ensures ReadLe32(raw, 12) == info.fileAddress && ReadLe32(raw, 16) == info.fileSize
    ensures raw[28..32] == info.pictureFormat
    ensures ReadLe16(raw, 32) == info.sizeX && ReadLe16(raw, 34) == info.sizeY
  {
    var h := InfoHeader(info, unknown, offsets);
    assert raw[..36] == h;
    assert raw[12..16] == h[12..16] == Le32(info.fileAddress);
    assert raw[16..20] == h[16..20] == Le32(info.fileSize);
    assert raw[28..32] == h[28..32] == info.pictureFormat;
    assert raw[32..34] == h[32..34] == Le16(info.sizeX);
    assert raw[34..36] == h[34..36] == Le16(info.sizeY);
    Le32Inverse(raw, 12, info.fileAddress);
    Le32Inverse(raw, 16, info.fileSize);
    Le16Inverse(raw, 32, info.sizeX);
    Le16Inverse(raw, 34, info.sizeY);
  }

  /** The description by byte numbers, with its names up to the first NUL and the next. */
  lemma {:induction false} InfoFields(raw: Bytes, i: nat, j: nat)
    requires 36 <= i < j < |raw| && raw[i] == raw[j] == 0 && 0 !in raw[36..i] && 0 !in raw[i + 1..j]
    ensures Info(raw) == Ok(PictFileInfo(
              raw[12] as int + 256 * raw[13] as int + 65536 * raw[14] as int + 16777216 * raw[15] as int,
              raw[16] as int + 256 * raw[17] as int + 65536 * raw[18] as int + 16777216 * raw[19] as int,
              raw[28..32], raw[32] as int + 256 * raw[33] as int, raw[34] as int + 256 * raw[35] as int,
              raw[36..i], raw[i + 1..j]))
  {
    CStrFound(raw, 36, raw[36..i]);
    CStrFound(raw, i + 1, raw[i + 1..j]);
    QuadIsRead(raw, 12);
    QuadIsRead(raw, 16);
  }

  /** It cannot be read exactly when it has fewer than 36 bytes, or not two NULs from there on. */
  lemma {:induction false} InfoFails(raw: Bytes)
    ensures Info(raw) == Err(ShortBuffer) <==> |raw| < 36
    ensures Info(raw) == Err(Unterminated) <==>
            36 <= |raw| && forall i, j | 36 <= i < j < |raw| :: raw[i] != 0 || raw[j] != 0
    ensures Info(raw).Err? ==> Info(raw).error == ShortBuffer || Info(raw).error == Unterminated
  {
    if 36 <= |raw| {
      var i := NulAt(raw, 36);
      assert forall k | 36 <= k < i :: raw[k] == raw[36..i][k - 36] != 0;
      if i < |raw| {
        var j := NulAt(raw, i + 1);
        assert forall k | i + 1 <= k < j :: raw[k] == raw[i + 1..j][k - i - 1] != 0;
      }
    }
  }

  // ----- BigPartialPictFile -----

  datatype Part = Part(acquired: uint32, data: Bytes)

  function Min(a: int, b: int): int {
    if a < b then a else b
  }

  function PartOf(raw: Bytes): (r: Result<Part>)
    ensures r.Ok? ==> |r.value.data| <= r.value.acquired
  {
    if |raw| < 4 then Err(ShortBuffer)
    else
      var acquired := ReadLe32(raw, 0);
      Ok(Part(acquired, raw[4..4 + Min(acquired, |raw| - 4)]))
  }

  /** Data comes back in full, whatever follows it; a shorter payload gives what there is of it. */
  lemma {:induction false} PartRoundTrip(acquired: uint32, data: Bytes, tail: Bytes)
    requires |data| == acquired || (|data| < acquired && tail == [])
    ensures PartOf(Le32(acquired) + data + tail) == Ok(Part(acquired, data))
  {
    var raw := Le32(acquired) + data + tail;
    assert raw[0..4] == Le32(acquired);
    Le32Inverse(raw, 0, acquired);
  }

  /** A part by byte numbers: what is acknowledged, and as much of it as there is; an error below 4 bytes. */
  lemma {:induction false} PartFields(raw: Bytes)
    ensures |raw| < 4 ==> PartOf(raw) == Err(ShortBuffer)
    ensures 4 <= |raw| ==>
              var acquired := raw[0] as int + 256 * raw[1] as int + 65536 * raw[2] as int + 16777216 * raw[3] as int;
              PartOf(raw) == Ok(Part(acquired, if acquired <= |raw| - 4 then raw[4..4 + acquired] else raw[4..]))
  {
    if 4 <= |raw| {
      QuadIsRead(raw, 0);
      assert raw[4..4 + (|raw| - 4)] == raw[4..];
    }
  }

  // ----- CamCaptStatus -----

  datatype CaptStatus = CaptStatus(imageId: byte, head: byte, tail: byte, status: uint16, dest: byte)

  const STATUS_NULL: uint16 := 0xFFFF

  /** The record before the first poll. */
  const NO_STATUS: CaptStatus := CaptStatus(0, 0, 0, STATUS_NULL, 0)

  function StatusOf(raw: Bytes): Result<CaptStatus> {
    if |raw| < 8 then Err(ShortBuffer)
    else Ok(CaptStatus(raw[1], raw[2], raw[3], ReadLe16(raw, 4), raw[6]))
  }

  /** The record as the camera lays it out; its first and last byte are not used by the driver. */
  function StatusRecord(st: CaptStatus, first: byte, last: byte): (b: Bytes)
    ensures |b| == 8
  {
    [first, st.imageId, st.head, st.tail] + Le16(st.status) + [st.dest, last]
  }

  /** Every field of a status comes back from its record, whatever follows it. */
  lemma {:induction false} StatusRoundTrip(st: CaptStatus, first: byte, last: byte, rest: Bytes)
    ensures StatusOf(StatusRecord(st, first, last) + rest) == Ok(st)
  {
    var raw := StatusRecord(st, first, last) + rest;
    assert raw[4..6] == Le16(st.status);
    Le16Inverse(raw, 4, st.status);
  }

  /** A status by byte numbers; an error below 8 bytes. */
  lemma {:induction false} StatusFields(raw: Bytes)
    ensures |raw| < 8 ==> StatusOf(raw) == Err(ShortBuffer)
    ensures 8 <= |raw| ==>
              StatusOf(raw) == Ok(CaptStatus(raw[1], raw[2], raw[3], raw[4] as int + 256 * raw[5] as int, raw[6]))
  {
  }
}
