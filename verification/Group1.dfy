/** Data group 1: exposure settings and camera status (CamDataGroup1 of src/sigma/schema.cpp). */
module Group1 {
  import opened Wrappers
  import opened Bytes
  import opened Slots
  import opened GroupSteps

  datatype Fields = Fields(
    shutterSpeed: Option<byte>, aperture: Option<byte>, programShift: Option<byte>, isoAuto: Option<byte>,
    isoSpeed: Option<byte>, expComp: Option<byte>, abValue: Option<byte>, abSetting: Option<byte>,
    frameBufferState: Option<byte>, mediaFreeSpace: Option<uint16>, mediaStatus: Option<byte>,
    currentLensFocalLength: Option<real>, batteryState: Option<byte>, abShotRemainNumber: Option<byte>,
    expCompExcludeAB: Option<byte>)

  /** Presence bits and field kinds in the order the fields are sent. */
  function SlotAt(j: nat): Slot
    requires j < 16
  {
    match j
    case 0 => Slot(8, Byte)
    case 1 => Slot(9, Byte)
    case 2 => Slot(10, Byte)
    case 3 => Slot(11, Byte)
    case 4 => Slot(12, Byte)
    case 5 => Slot(13, Byte)
    case 6 => Slot(14, Byte)
    case 7 => Slot(15, Byte)
    case 8 => Slot(0, Byte)
    case 9 => Slot(1, Word)
    case 10 => Slot(2, Byte)
    case 11 => Slot(3, Fixed)
    case 12 => Slot(4, Byte)
    case 13 => Slot(5, Byte)
    case 14 => Slot(6, Byte)
    case _ => Slot(7, Reserved)
  }

  function Table(): (t: seq<Slot>)
    ensures |t| == 16
  {
    seq(16, j requires 0 <= j < 16 => SlotAt(j))
  }

  /** The fields, slot by slot. */
  function View(g: Fields): (c: Cells)
    ensures |c| == |Table()|
  {
    [
      ByteCell(g.shutterSpeed), ByteCell(g.aperture), ByteCell(g.programShift), ByteCell(g.isoAuto),
      ByteCell(g.isoSpeed), ByteCell(g.expComp), ByteCell(g.abValue), ByteCell(g.abSetting)
    ] + [
      ByteCell(g.frameBufferState), WordCell(g.mediaFreeSpace), ByteCell(g.mediaStatus),
      FixedCell(g.currentLensFocalLength), ByteCell(g.batteryState), ByteCell(g.abShotRemainNumber),
      ByteCell(g.expCompExcludeAB), None
    ]
  }

  /** What the encoder writes: the read-only status fields are left out. */
  function Normal(g: Fields): Fields {
    g.(frameBufferState := None, mediaFreeSpace := None, mediaStatus := None, currentLensFocalLength := None,
       batteryState := None, abShotRemainNumber := None, expCompExcludeAB := None)
  }

  // ----- the table and the fields one by one, for the straight-line code -----

  ghost predicate Layout(t: seq<Slot>) {
    |t| == 16 && forall j: nat | j < 16 :: t[j] == SlotAt(j)
  }

  lemma {:induction false} TableLayout()
    ensures Layout(Table())
    ensures |Table()| <= 20 && forall j | 0 <= j < |Table()| :: Table()[j].bit < 16
  {
  }

  ghost predicate Shows(c: Cells, g: Fields) {
    && |c| == 16
    && c[0] == ByteCell(g.shutterSpeed) && c[1] == ByteCell(g.aperture)
    && c[2] == ByteCell(g.programShift) && c[3] == ByteCell(g.isoAuto)
    && c[4] == ByteCell(g.isoSpeed) && c[5] == ByteCell(g.expComp)
    && c[6] == ByteCell(g.abValue) && c[7] == ByteCell(g.abSetting)
    && c[8] == ByteCell(g.frameBufferState) && c[9] == WordCell(g.mediaFreeSpace)
    && c[10] == ByteCell(g.mediaStatus) && c[11] == FixedCell(g.currentLensFocalLength)
    && c[12] == ByteCell(g.batteryState) && c[13] == ByteCell(g.abShotRemainNumber)
    && c[14] == ByteCell(g.expCompExcludeAB)
    && c[15] == None
  }

  lemma {:induction false} ViewShows(c: Cells, g: Fields)
    ensures Shows(c, g) <==> c == View(g)
  {
    if Shows(c, g) {
      assert c == View(g);
    }
  }

  lemma {:induction false} ViewIsInjective(a: Fields, b: Fields)
    requires View(a) == View(b)
    ensures a == b
  {
    ViewShows(View(a), a);
    ViewShows(View(b), b);
  }

  /** The presence digits of these fields, lowest first. */
  function Presence(g: Fields): (d: seq<bool>)
    ensures |d| == 16
  {
    [
      g.frameBufferState.Some?, g.mediaFreeSpace.Some?, g.mediaStatus.Some?, g.currentLensFocalLength.Some?,
      g.batteryState.Some?, g.abShotRemainNumber.Some?, g.expCompExcludeAB.Some?, false
    ] + [
      g.shutterSpeed.Some?, g.aperture.Some?, g.programShift.Some?, g.isoAuto.Some?, g.isoSpeed.Some?,
      g.expComp.Some?, g.abValue.Some?, g.abSetting.Some?
    ]
  }

  lemma {:induction false} HeadAgrees(t: seq<Slot>, c: Cells, g: Fields)
    requires Layout(t) && Shows(c, g)
    ensures Agrees(t, c, Presence(g), 0) && Agrees(t, c, Presence(g), 1) && Agrees(t, c, Presence(g), 2)
    ensures Agrees(t, c, Presence(g), 3) && Agrees(t, c, Presence(g), 4) && Agrees(t, c, Presence(g), 5)
    ensures Agrees(t, c, Presence(g), 6) && Agrees(t, c, Presence(g), 7)
  {
  }

  lemma {:induction false} TailAgrees(t: seq<Slot>, c: Cells, g: Fields)
    requires Layout(t) && Shows(c, g)
    ensures Agrees(t, c, Presence(g), 8) && Agrees(t, c, Presence(g), 9) && Agrees(t, c, Presence(g), 10)
    ensures Agrees(t, c, Presence(g), 11) && Agrees(t, c, Presence(g), 12) && Agrees(t, c, Presence(g), 13)
    ensures Agrees(t, c, Presence(g), 14) && Agrees(t, c, Presence(g), 15)
  {
  }

  /** The fields agree with their presence digits. */
  lemma {:induction false} SlotsAgree(t: seq<Slot>, c: Cells, g: Fields)
    requires Layout(t) && Shows(c, g)
    ensures Coherent(t, c, Presence(g))
  {
    HeadAgrees(t, c, g);
    TailAgrees(t, c, g);
  }

  /** `g` is what the decoder holds before slot `n`. */
  ghost predicate Stands(c: Course, n: nat, g: Fields) {
    |c.before| == |c.fields| == 16 && Shows(CellsAt(c, n), g)
  }

  ghost predicate Started(c: Course, raw: Bytes, fp: uint16) {
    Traced(c) && Layout(c.t) && |c.before| == |c.fields| == 16 && c.raw == raw && c.fp == fp
  }

  lemma {:induction false} Start(raw: Bytes, fp: uint16, before: Fields) returns (c: Course)
    requires 3 <= |raw| && fp == ReadBe16(raw, 1)
    ensures Started(c, raw, fp) && Stands(c, 0, before) && Settled(c) && c.offsets[0] == 3
    ensures c.final == Parse(Table(), raw, View(before))
  {
    TableLayout();
    ViewShows(View(before), before);
    c := Trace(Table(), fp, raw, View(before));
  }

  // ----- decoding -----

  /** Slots 0 to 7. */
  method DecodeHead(raw: Bytes, i: nat, fp: uint16, before: Fields, ghost c: Course)
    returns (r: Result<()>, j: nat, g: Fields)
    requires Started(c, raw, fp) && Stands(c, 0, before) && c.offsets[0] == i <= |raw|
    ensures r.Ok? ==> Stands(c, 8, g) && c.offsets[8] == j <= |raw|
    ensures r.Err? ==> r.error == OutOfRange && Stands(c, c.stop, g) && !c.final.ok
  {
    j, g := i, before;
    var u8;
    u8, j :- ReadByte(raw, j, fp, 8, c, 0);
    g := g.(shutterSpeed := u8);
    u8, j :- ReadByte(raw, j, fp, 9, c, 1);
    g := g.(aperture := u8);
    u8, j :- ReadByte(raw, j, fp, 10, c, 2);
    g := g.(programShift := u8);
    u8, j :- ReadByte(raw, j, fp, 11, c, 3);
    g := g.(isoAuto := u8);
    u8, j :- ReadByte(raw, j, fp, 12, c, 4);
    g := g.(isoSpeed := u8);
    u8, j :- ReadByte(raw, j, fp, 13, c, 5);
    g := g.(expComp := u8);
    u8, j :- ReadByte(raw, j, fp, 14, c, 6);
    g := g.(abValue := u8);
    u8, j :- ReadByte(raw, j, fp, 15, c, 7);
    g := g.(abSetting := u8);
    return Ok(()), j, g;
  }

  /** Slots 8 to 15. */
  method DecodeTail(raw: Bytes, i: nat, fp: uint16, before: Fields, ghost c: Course)
    returns (r: Result<()>, j: nat, g: Fields)
    requires Started(c, raw, fp) && Stands(c, 8, before) && c.offsets[8] == i <= |raw|
    ensures r.Ok? ==> Stands(c, 16, g) && c.offsets[16] == j <= |raw|
    ensures r.Err? ==> r.error == OutOfRange && Stands(c, c.stop, g) && !c.final.ok
  {
    j, g := i, before;
    var u8, u16, f, skipped;
    u8, j :- ReadByte(raw, j, fp, 0, c, 8);
    g := g.(frameBufferState := u8);
    u16, j :- ReadWord(raw, j, fp, 1, c, 9);
    g := g.(mediaFreeSpace := u16);
    u8, j :- ReadByte(raw, j, fp, 2, c, 10);
    g := g.(mediaStatus := u8);
    f, j :- ReadFixed(raw, j, fp, 3, c, 11);
    g := g.(currentLensFocalLength := f);
    u8, j :- ReadByte(raw, j, fp, 4, c, 12);
    g := g.(batteryState := u8);
    u8, j :- ReadByte(raw, j, fp, 5, c, 13);
    g := g.(abShotRemainNumber := u8);
    u8, j :- ReadByte(raw, j, fp, 6, c, 14);
    g := g.(expCompExcludeAB := u8);
    skipped, j :- SkipByte(raw, j, fp, 7, c, 15);
    return Ok(()), j, g;
  }

  /** Assigns or resets every field, in order; a read past the end leaves the remaining fields as they were. */
  method Decode(raw: Bytes, before: Fields) returns (r: Result<()>, g: Fields)
    ensures r.Ok? <==> Parse(Table(), raw, View(before)).ok
    ensures View(g) == Parse(Table(), raw, View(before)).cells
  {
    g := before;
    var i := 0;
    var header, parity, fp, done;
    header, i :- Get8(raw, i);
    fp, i :- Get16Be(raw, i);
    ghost var c := Start(raw, fp, before);
    done, i, g := DecodeHead(raw, i, fp, g, c);
    if done.Ok? {
      done, i, g := DecodeTail(raw, i, fp, g, c);
    }
    ViewShows(c.final.cells, g);
    if done.Err? {
      return done, g;
    }
    parity, i :- Get8(raw, i);
    return Ok(()), g;
  }

  // ----- encoding -----

  /** The presence word. */
  method EncodeWord(g: Fields, ghost t: seq<Slot>, ghost c: Cells, ghost words: seq<nat>) returns (fp: nat)
    requires Layout(t) && Shows(c, Normal(g))
    requires PartialWords(t, c, words)
    ensures fp == words[16]
  {
    fp := 0;
    fp := Mark(fp, 8, g.shutterSpeed.Some?, t, c, words, 0);
    fp := Mark(fp, 9, g.aperture.Some?, t, c, words, 1);
    fp := Mark(fp, 10, g.programShift.Some?, t, c, words, 2);
    fp := Mark(fp, 11, g.isoAuto.Some?, t, c, words, 3);
    fp := Mark(fp, 12, g.isoSpeed.Some?, t, c, words, 4);
    fp := Mark(fp, 13, g.expComp.Some?, t, c, words, 5);
    fp := Mark(fp, 14, g.abValue.Some?, t, c, words, 6);
    fp := Mark(fp, 15, g.abSetting.Some?, t, c, words, 7);
    MarkOver(t, c, words, 8, 16);
  }

  /** The present fields after the presence word. */
  method EncodeFields(start: Bytes, g: Fields, ghost t: seq<Slot>, ghost c: Cells) returns (out: Bytes)
    requires Layout(t) && Shows(c, Normal(g)) && Printed(t, c, 0, start)
    ensures Printed(t, c, 16, out)
  {
    out := start;
    out := PutByte(out, g.shutterSpeed, t, c, 0);
    out := PutByte(out, g.aperture, t, c, 1);
    out := PutByte(out, g.programShift, t, c, 2);
    out := PutByte(out, g.isoAuto, t, c, 3);
    out := PutByte(out, g.isoSpeed, t, c, 4);
    out := PutByte(out, g.expComp, t, c, 5);
    out := PutByte(out, g.abValue, t, c, 6);
    out := PutByte(out, g.abSetting, t, c, 7);
    PassOver(t, c, 8, 16, out);
  }

  method Encode(g: Fields) returns (out: Bytes)
    ensures out == Print(Table(), View(Normal(g)))
  {
    ghost var t, c := Table(), View(Normal(g));
    TableLayout();
    ViewShows(c, Normal(g));
    SlotsAgree(t, c, Normal(g));
    ghost var words := TraceWords(t, c, Presence(Normal(g)));
    var fp := EncodeWord(g, t, c, words);
    out := [0];
    out := out + Be16(fp);
    out := EncodeFields(out, g, t, c);
    out := out + [0];
  }
}
