/** Data group 2: drive, exposure mode, flash and image format (CamDataGroup2 of src/sigma/schema.cpp). */
module Group2 {
  import opened Wrappers
  import opened Bytes
  import opened Slots
  import opened GroupSteps

  datatype Fields = Fields(
    driveMode: Option<byte>, specialMode: Option<byte>, exposureMode: Option<byte>,
    aeMeteringMode: Option<byte>, flashType: Option<byte>, flashMode: Option<byte>, flashSetting: Option<byte>,
    whiteBalance: Option<byte>, resolution: Option<byte>, imageQuality: Option<byte>)

  /** Presence bits and field kinds in the order the fields are sent. */
  function SlotAt(j: nat): Slot
    requires j < 16
  {
    match j
    case 0 => Slot(8, Byte)
    case 1 => Slot(9, Byte)
    case 2 => Slot(10, Byte)
    case 3 => Slot(11, Byte)
    case 4 => Slot(15, Reserved)
    case 5 => Slot(14, Reserved)
    case 6 => Slot(13, Reserved)
    case 7 => Slot(12, Reserved)
    case 8 => Slot(0, Byte)
    case 9 => Slot(1, Reserved)
    case 10 => Slot(2, Byte)
    case 11 => Slot(3, Byte)
    case 12 => Slot(4, Reserved)
    case 13 => Slot(5, Byte)
    case 14 => Slot(6, Byte)
    case _ => Slot(7, Byte)
  }

  function Table(): (t: seq<Slot>)
    ensures |t| == 16
  {
    seq(16, j requires 0 <= j < 16 => SlotAt(j))
  }

  /** The fields, slot by slot. */
  function View(g: Fields): (c: Cells)
    ensures |c| == |Table()|
  {
    [
      ByteCell(g.driveMode), ByteCell(g.specialMode), ByteCell(g.exposureMode), ByteCell(g.aeMeteringMode),
      None, None, None, None
    ] + [
      ByteCell(g.flashType), None, ByteCell(g.flashMode), ByteCell(g.flashSetting), None,
      ByteCell(g.whiteBalance), ByteCell(g.resolution), ByteCell(g.imageQuality)
    ]
  }

  /** What the encoder writes: everything. */
  function Normal(g: Fields): Fields {
    g
  }

  // ----- the table and the fields one by one, for the straight-line code -----

  ghost predicate Layout(t: seq<Slot>) {
    |t| == 16 && forall j: nat | j < 16 :: t[j] == SlotAt(j)
  }

  lemma {:induction false} TableLayout()
    ensures Layout(Table())
    ensures |Table()| <= 20 && forall j | 0 <= j < |Table()| :: Table()[j].bit < 16
  {
  }

  ghost predicate Shows(c: Cells, g: Fields) {
    && |c| == 16
    && c[0] == ByteCell(g.driveMode) && c[1] == ByteCell(g.specialMode)
    && c[2] == ByteCell(g.exposureMode) && c[3] == ByteCell(g.aeMeteringMode)
    && c[8] == ByteCell(g.flashType) && c[10] == ByteCell(g.flashMode)
    && c[11] == ByteCell(g.flashSetting) && c[13] == ByteCell(g.whiteBalance)
    && c[14] == ByteCell(g.resolution) && c[15] == ByteCell(g.imageQuality)
    && c[4] == None && c[5] == None && c[6] == None && c[7] == None
    && c[9] == None
    && c[12] == None
  }

  lemma {:induction false} ViewShows(c: Cells, g: Fields)
    ensures Shows(c, g) <==> c == View(g)
  {
    if Shows(c, g) {
      assert c == View(g);
    }
  }

  lemma {:induction false} ViewIsInjective(a: Fields, b: Fields)
    requires View(a) == View(b)
    ensures a == b
  {
    ViewShows(View(a), a);
    ViewShows(View(b), b);
  }

  /** The presence digits of the encoding, lowest first. */
  function Presence(g: Fields): (d: seq<bool>)
    ensures |d| == 16
  {
    [
      g.flashType.Some?, false, g.flashMode.Some?, g.flashSetting.Some?, false, g.whiteBalance.Some?,
      g.resolution.Some?, g.imageQuality.Some?
    ] + [
      g.driveMode.Some?, g.specialMode.Some?, g.exposureMode.Some?, g.aeMeteringMode.Some?, false, false,
      false, false
    ]
  }

  lemma {:induction false} HeadAgrees(t: seq<Slot>, c: Cells, g: Fields)
    requires Layout(t) && Shows(c, Normal(g))
    ensures Agrees(t, c, Presence(g), 0) && Agrees(t, c, Presence(g), 1) && Agrees(t, c, Presence(g), 2)
    ensures Agrees(t, c, Presence(g), 3) && Agrees(t, c, Presence(g), 4) && Agrees(t, c, Presence(g), 5)
    ensures Agrees(t, c, Presence(g), 6) && Agrees(t, c, Presence(g), 7)
  {
  }

  lemma {:induction false} TailAgrees(t: seq<Slot>, c: Cells, g: Fields)
    requires Layout(t) && Shows(c, Normal(g))
    ensures Agrees(t, c, Presence(g), 8) && Agrees(t, c, Presence(g), 9) && Agrees(t, c, Presence(g), 10)
    ensures Agrees(t, c, Presence(g), 11) && Agrees(t, c, Presence(g), 12) && Agrees(t, c, Presence(g), 13)
    ensures Agrees(t, c, Presence(g), 14) && Agrees(t, c, Presence(g), 15)
  {
  }

  /** Normal fields agree with the presence word; in particular, fields sharing a bit are set together. */
  lemma {:induction false} SlotsAgree(t: seq<Slot>, c: Cells, g: Fields)
    requires Layout(t) && Shows(c, Normal(g))
    ensures Coherent(t, c, Presence(g))
  {
    HeadAgrees(t, c, g);
    TailAgrees(t, c, g);
  }

  /** `g` is what the decoder holds before slot `n`. */
  ghost predicate Stands(c: Course, n: nat, g: Fields) {
    |c.before| == |c.fields| == 16 && Shows(CellsAt(c, n), g)
  }

  ghost predicate Started(c: Course, raw: Bytes, fp: uint16) {
    Traced(c) && Layout(c.t) && |c.before| == |c.fields| == 16 && c.raw == raw && c.fp == fp
  }

  lemma {:induction false} Start(raw: Bytes, fp: uint16, before: Fields) returns (c: Course)
    requires 3 <= |raw| && fp == ReadBe16(raw, 1)
    ensures Started(c, raw, fp) && Stands(c, 0, before) && Settled(c) && c.offsets[0] == 3
    ensures c.final == Parse(Table(), raw, View(before))
  {
    TableLayout();
    ViewShows(View(before), before);
    c := Trace(Table(), fp, raw, View(before));
  }

  // ----- decoding -----

  /** Slots 0 to 7. */
  method DecodeHead(raw: Bytes, i: nat, fp: uint16, before: Fields, ghost c: Course)
    returns (r: Result<()>, j: nat, g: Fields)
    requires Started(c, raw, fp) && Stands(c, 0, before) && c.offsets[0] == i <= |raw|
    ensures r.Ok? ==> Stands(c, 8, g) && c.offsets[8] == j <= |raw|
    ensures r.Err? ==> r.error == OutOfRange && Stands(c, c.stop, g) && !c.final.ok
  {
    j, g := i, before;
    var u8, skipped;
    u8, j :- ReadByte(raw, j, fp, 8, c, 0);
    g := g.(driveMode := u8);
    u8, j :- ReadByte(raw, j, fp, 9, c, 1);
    g := g.(specialMode := u8);
    u8, j :- ReadByte(raw, j, fp, 10, c, 2);
    g := g.(exposureMode := u8);
    u8, j :- ReadByte(raw, j, fp, 11, c, 3);
    g := g.(aeMeteringMode := u8);
    skipped, j :- SkipByte(raw, j, fp, 15, c, 4);
    skipped, j :- SkipByte(raw, j, fp, 14, c, 5);
    skipped, j :- SkipByte(raw, j, fp, 13, c, 6);
    skipped, j :- SkipByte(raw, j, fp, 12, c, 7);
    return Ok(()), j, g;
  }

  /** Slots 8 to 15. */
  method DecodeTail(raw: Bytes, i: nat, fp: uint16, before: Fields, ghost c: Course)
    returns (r: Result<()>, j: nat, g: Fields)
    requires Started(c, raw, fp) && Stands(c, 8, before) && c.offsets[8] == i <= |raw|
    ensures r.Ok? ==> Stands(c, 16, g) && c.offsets[16] == j <= |raw|
    ensures r.Err? ==> r.error == OutOfRange && Stands(c, c.stop, g) && !c.final.ok
  {
    j, g := i, before;
    var u8, skipped;
    u8, j :- ReadByte(raw, j, fp, 0, c, 8);
    g := g.(flashType := u8);
    skipped, j :- SkipByte(raw, j, fp, 1, c, 9);
    u8, j :- ReadByte(raw, j, fp, 2, c, 10);
    g := g.(flashMode := u8);
    u8, j :- ReadByte(raw, j, fp, 3, c, 11);
    g := g.(flashSetting := u8);
    skipped, j :- SkipByte(raw, j, fp, 4, c, 12);
    u8, j :- ReadByte(raw, j, fp, 5, c, 13);
    g := g.(whiteBalance := u8);
    u8, j :- ReadByte(raw, j, fp, 6, c, 14);
    g := g.(resolution := u8);
    u8, j :- ReadByte(raw, j, fp, 7, c, 15);
    g := g.(imageQuality := u8);
    return Ok(()), j, g;
  }

  /** Assigns or resets every field, in order; a read past the end leaves the remaining fields as they were. */
  method Decode(raw: Bytes, before: Fields) returns (r: Result<()>, g: Fields)
    ensures r.Ok? <==> Parse(Table(), raw, View(before)).ok
    ensures View(g) == Parse(Table(), raw, View(before)).cells
  {
    g := before;
    var i := 0;
    var header, parity, fp, done;
    header, i :- Get8(raw, i);
    fp, i :- Get16Be(raw, i);
    ghost var c := Start(raw, fp, before);
    done, i, g := DecodeHead(raw, i, fp, g, c);
    if done.Ok? {
      done, i, g := DecodeTail(raw, i, fp, g, c);
    }
    ViewShows(c.final.cells, g);
    if done.Err? {
      return done, g;
    }
    parity, i :- Get8(raw, i);
    return Ok(()), g;
  }

  // ----- encoding -----

  /** The presence word. */
  method EncodeWord(g: Fields, ghost t: seq<Slot>, ghost c: Cells, ghost words: seq<nat>) returns (fp: nat)
    requires Layout(t) && Shows(c, Normal(g))
    requires PartialWords(t, c, words)
    ensures fp == words[16]
  {
    fp := 0;
    fp := Mark(fp, 8, g.driveMode.Some?, t, c, words, 0);
    fp := Mark(fp, 9, g.specialMode.Some?, t, c, words, 1);
    fp := Mark(fp, 10, g.exposureMode.Some?, t, c, words, 2);
    fp := Mark(fp, 11, g.aeMeteringMode.Some?, t, c, words, 3);
    MarkOver(t, c, words, 4, 8);
    fp := Mark(fp, 0, g.flashType.Some?, t, c, words, 8);
    MarkOver(t, c, words, 9, 10);
    fp := Mark(fp, 2, g.flashMode.Some?, t, c, words, 10);
    fp := Mark(fp, 3, g.flashSetting.Some?, t, c, words, 11);
    MarkOver(t, c, words, 12, 13);
    fp := Mark(fp, 5, g.whiteBalance.Some?, t, c, words, 13);
    fp := Mark(fp, 6, g.resolution.Some?, t, c, words, 14);
    fp := Mark(fp, 7, g.imageQuality.Some?, t, c, words, 15);
  }

  /** The present fields after the presence word. */
  method EncodeFields(start: Bytes, g: Fields, ghost t: seq<Slot>, ghost c: Cells) returns (out: Bytes)
    requires Layout(t) && Shows(c, Normal(g)) && Printed(t, c, 0, start)
    ensures Printed(t, c, 16, out)
  {
    out := start;
    out := PutByte(out, g.driveMode, t, c, 0);
    out := PutByte(out, g.specialMode, t, c, 1);
    out := PutByte(out, g.exposureMode, t, c, 2);
    out := PutByte(out, g.aeMeteringMode, t, c, 3);
    PassOver(t, c, 4, 8, out);
    out := PutByte(out, g.flashType, t, c, 8);
    PassOver(t, c, 9, 10, out);
    out := PutByte(out, g.flashMode, t, c, 10);
    out := PutByte(out, g.flashSetting, t, c, 11);
    PassOver(t, c, 12, 13, out);
    out := PutByte(out, g.whiteBalance, t, c, 13);
    out := PutByte(out, g.resolution, t, c, 14);
    out := PutByte(out, g.imageQuality, t, c, 15);
  }

  method Encode(g: Fields) returns (out: Bytes)
    ensures out == Print(Table(), View(Normal(g)))
  {
    ghost var t, c := Table(), View(Normal(g));
    TableLayout();
    ViewShows(c, Normal(g));
    SlotsAgree(t, c, g);
    ghost var words := TraceWords(t, c, Presence(g));
    var fp := EncodeWord(g, t, c, words);
    out := [0];
    out := out + Be16(fp);
    out := EncodeFields(out, g, t, c);
    out := out + [0];
  }
}
