/** Data group 3: colour, lens, sound and destination (CamDataGroup3 of src/sigma/schema.cpp). */
module Group3 {
  import opened Wrappers
  import opened Bytes
  import opened Slots
  import opened GroupSteps

  datatype Fields = Fields(
    colorSpace: Option<byte>, colorMode: Option<byte>, batteryKind: Option<byte>,
    lensWideFocalLength: Option<real>, lensTeleFocalLength: Option<real>, afAuxLight: Option<byte>,
    afBeep: Option<byte>, timerSound: Option<byte>, destToSave: Option<byte>)

  /** Presence bits and field kinds in the order the fields are sent. */
  function SlotAt(j: nat): Slot
    requires j < 16
  {
    match j
    case 0 => Slot(8, Reserved)
    case 1 => Slot(9, Reserved)
    case 2 => Slot(10, Reserved)
    case 3 => Slot(11, Byte)
    case 4 => Slot(12, Byte)
    case 5 => Slot(13, Byte)
    case 6 => Slot(14, Fixed)
    case 7 => Slot(15, Fixed)
    case 8 => Slot(0, Byte)
    case 9 => Slot(1, Byte)
    case 10 => Slot(2, Reserved)
    case 11 => Slot(3, Reserved)
    case 12 => Slot(4, Reserved)
    case 13 => Slot(5, Byte)
    case 14 => Slot(6, Reserved)
    case _ => Slot(7, Byte)
  }

  function Table(): (t: seq<Slot>)
    ensures |t| == 16
  {
    seq(16, j requires 0 <= j < 16 => SlotAt(j))
  }

  /** The fields, slot by slot. */
  function View(g: Fields): (c: Cells)
    ensures |c| == |Table()|
  {
    [
      None, None, None, ByteCell(g.colorSpace), ByteCell(g.colorMode), ByteCell(g.batteryKind),
      FixedCell(g.lensWideFocalLength), FixedCell(g.lensTeleFocalLength)
    ] + [
      ByteCell(g.afAuxLight), ByteCell(g.afBeep), None, None, None, ByteCell(g.timerSound), None,
      ByteCell(g.destToSave)
    ]
  }

  /** What the encoder writes: focal lengths are rounded to sixteenths. */
  function Normal(g: Fields): Fields {
    g.(lensWideFocalLength := Sixteenths(g.lensWideFocalLength),
       lensTeleFocalLength := Sixteenths(g.lensTeleFocalLength))
  }

  // ----- the table and the fields one by one, for the straight-line code -----

  ghost predicate Layout(t: seq<Slot>) {
    |t| == 16 && forall j: nat | j < 16 :: t[j] == SlotAt(j)
  }

  lemma {:induction false} TableLayout()
    ensures Layout(Table())
    ensures |Table()| <= 20 && forall j | 0 <= j < |Table()| :: Table()[j].bit < 16
  {
  }

  ghost predicate Shows(c: Cells, g: Fields) {
    && |c| == 16
    && c[3] == ByteCell(g.colorSpace) && c[4] == ByteCell(g.colorMode)
    && c[5] == ByteCell(g.batteryKind) && c[6] == FixedCell(g.lensWideFocalLength)
    && c[7] == FixedCell(g.lensTeleFocalLength) && c[8] == ByteCell(g.afAuxLight)
    && c[9] == ByteCell(g.afBeep) && c[13] == ByteCell(g.timerSound)
    && c[15] == ByteCell(g.destToSave)
    && c[0] == None && c[1] == None && c[2] == None
    && c[10] == None && c[11] == None && c[12] == None
    && c[14] == None
  }

  lemma {:induction false} ViewShows(c: Cells, g: Fields)
    ensures Shows(c, g) <==> c == View(g)
  {
    if Shows(c, g) {
      assert c == View(g);
    }
  }

  lemma {:induction false} ViewIsInjective(a: Fields, b: Fields)
    requires View(a) == View(b)
    ensures a == b
  {
    ViewShows(View(a), a);
    ViewShows(View(b), b);
  }

  /** The presence digits of the encoding, lowest first. */
  function Presence(g: Fields): (d: seq<bool>)
    ensures |d| == 16
  {
    [
      g.afAuxLight.Some?, g.afBeep.Some?, false, false, false, g.timerSound.Some?, false, g.destToSave.Some?
    ] + [
      false, false, false, g.colorSpace.Some?, g.colorMode.Some?, g.batteryKind.Some?,
      g.lensWideFocalLength.Some?, g.lensTeleFocalLength.Some?
    ]
  }

  lemma {:induction false} HeadAgrees(t: seq<Slot>, c: Cells, g: Fields)
    requires Layout(t) && Shows(c, Normal(g))
    ensures Agrees(t, c, Presence(g), 0) && Agrees(t, c, Presence(g), 1) && Agrees(t, c, Presence(g), 2)
    ensures Agrees(t, c, Presence(g), 3) && Agrees(t, c, Presence(g), 4) && Agrees(t, c, Presence(g), 5)
    ensures Agrees(t, c, Presence(g), 6) && Agrees(t, c, Presence(g), 7)
  {
  }

  lemma {:induction false} TailAgrees(t: seq<Slot>, c: Cells, g: Fields)
    requires Layout(t) && Shows(c, Normal(g))
    ensures Agrees(t, c, Presence(g), 8) && Agrees(t, c, Presence(g), 9) && Agrees(t, c, Presence(g), 10)
    ensures Agrees(t, c, Presence(g), 11) && Agrees(t, c, Presence(g), 12) && Agrees(t, c, Presence(g), 13)
    ensures Agrees(t, c, Presence(g), 14) && Agrees(t, c, Presence(g), 15)
  {
  }

  /** Normal fields agree with the presence word; in particular, fields sharing a bit are set together. */
  lemma {:induction false} SlotsAgree(t: seq<Slot>, c: Cells, g: Fields)
    requires Layout(t) && Shows(c, Normal(g))
    ensures Coherent(t, c, Presence(g))
  {
    HeadAgrees(t, c, g);
    TailAgrees(t, c, g);
  }

  /** `g` is what the decoder holds before slot `n`. */
  ghost predicate Stands(c: Course, n: nat, g: Fields) {
    |c.before| == |c.fields| == 16 && Shows(CellsAt(c, n), g)
  }

  ghost predicate Started(c: Course, raw: Bytes, fp: uint16) {
    Traced(c) && Layout(c.t) && |c.before| == |c.fields| == 16 && c.raw == raw && c.fp == fp
  }

  lemma {:induction false} Start(raw: Bytes, fp: uint16, before: Fields) returns (c: Course)
    requires 3 <= |raw| && fp == ReadBe16(raw, 1)
    ensures Started(c, raw, fp) && Stands(c, 0, before) && Settled(c) && c.offsets[0] == 3
    ensures c.final == Parse(Table(), raw, View(before))
  {
    TableLayout();
    ViewShows(View(before), before);
    c := Trace(Table(), fp, raw, View(before));
  }

  // ----- decoding -----

  /** Slots 0 to 7. */
  method DecodeHead(raw: Bytes, i: nat, fp: uint16, before: Fields, ghost c: Course)
    returns (r: Result<()>, j: nat, g: Fields)
    requires Started(c, raw, fp) && Stands(c, 0, before) && c.offsets[0] == i <= |raw|
    ensures r.Ok? ==> Stands(c, 8, g) && c.offsets[8] == j <= |raw|
    ensures r.Err? ==> r.error == OutOfRange && Stands(c, c.stop, g) && !c.final.ok
  {
    j, g := i, before;
    var u8, f, skipped;
    skipped, j :- SkipByte(raw, j, fp, 8, c, 0);
    skipped, j :- SkipByte(raw, j, fp, 9, c, 1);
    skipped, j :- SkipByte(raw, j, fp, 10, c, 2);
    u8, j :- ReadByte(raw, j, fp, 11, c, 3);
    g := g.(colorSpace := u8);
    u8, j :- ReadByte(raw, j, fp, 12, c, 4);
    g := g.(colorMode := u8);
    u8, j :- ReadByte(raw, j, fp, 13, c, 5);
    g := g.(batteryKind := u8);
    f, j :- ReadFixed(raw, j, fp, 14, c, 6);
    g := g.(lensWideFocalLength := f);
    f, j :- ReadFixed(raw, j, fp, 15, c, 7);
    g := g.(lensTeleFocalLength := f);
    return Ok(()), j, g;
  }

  /** Slots 8 to 15. */
  method DecodeTail(raw: Bytes, i: nat, fp: uint16, before: Fields, ghost c: Course)
    returns (r: Result<()>, j: nat, g: Fields)
    requires Started(c, raw, fp) && Stands(c, 8, before) && c.offsets[8] == i <= |raw|
    ensures r.Ok? ==> Stands(c, 16, g) && c.offsets[16] == j <= |raw|
    ensures r.Err? ==> r.error == OutOfRange && Stands(c, c.stop, g) && !c.final.ok
  {
    j, g := i, before;
    var u8, skipped;
    u8, j :- ReadByte(raw, j, fp, 0, c, 8);
    g := g.(afAuxLight := u8);
    u8, j :- ReadByte(raw, j, fp, 1, c, 9);
    g := g.(afBeep := u8);
    skipped, j :- SkipByte(raw, j, fp, 2, c, 10);
    skipped, j :- SkipByte(raw, j, fp, 3, c, 11);
    skipped, j :- SkipByte(raw, j, fp, 4, c, 12);
    u8, j :- ReadByte(raw, j, fp, 5, c, 13);
    g := g.(timerSound := u8);
    skipped, j :- SkipByte(raw, j, fp, 6, c, 14);
    u8, j :- ReadByte(raw, j, fp, 7, c, 15);
    g := g.(destToSave := u8);
    return Ok(()), j, g;
  }

  /** Assigns or resets every field, in order; a read past the end leaves the remaining fields as they were. */
  method Decode(raw: Bytes, before: Fields) returns (r: Result<()>, g: Fields)
    ensures r.Ok? <==> Parse(Table(), raw, View(before)).ok
    ensures View(g) == Parse(Table(), raw, View(before)).cells
  {
    g := before;
    var i := 0;
    var header, parity, fp, done;
    header, i :- Get8(raw, i);
    fp, i :- Get16Be(raw, i);
    ghost var c := Start(raw, fp, before);
    done, i, g := DecodeHead(raw, i, fp, g, c);
    if done.Ok? {
      done, i, g := DecodeTail(raw, i, fp, g, c);
    }
    ViewShows(c.final.cells, g);
    if done.Err? {
      return done, g;
    }
    parity, i :- Get8(raw, i);
    return Ok(()), g;
  }

  // ----- encoding -----

  /** The presence word. */
  method EncodeWord(g: Fields, ghost t: seq<Slot>, ghost c: Cells, ghost words: seq<nat>) returns (fp: nat)
    requires Layout(t) && Shows(c, Normal(g))
    requires PartialWords(t, c, words)
    ensures fp == words[16]
  {
    fp := 0;
    MarkOver(t, c, words, 0, 3);
    fp := Mark(fp, 11, g.colorSpace.Some?, t, c, words, 3);
    fp := Mark(fp, 12, g.colorMode.Some?, t, c, words, 4);
    fp := Mark(fp, 13, g.batteryKind.Some?, t, c, words, 5);
    fp := Mark(fp, 14, g.lensWideFocalLength.Some?, t, c, words, 6);
    fp := Mark(fp, 15, g.lensTeleFocalLength.Some?, t, c, words, 7);
    fp := Mark(fp, 0, g.afAuxLight.Some?, t, c, words, 8);
    fp := Mark(fp, 1, g.afBeep.Some?, t, c, words, 9);
    MarkOver(t, c, words, 10, 13);
    fp := Mark(fp, 5, g.timerSound.Some?, t, c, words, 13);
    MarkOver(t, c, words, 14, 15);
    fp := Mark(fp, 7, g.destToSave.Some?, t, c, words, 15);
  }

  /** The present fields after the presence word. */
  method EncodeFields(start: Bytes, g: Fields, ghost t: seq<Slot>, ghost c: Cells) returns (out: Bytes)
    requires Layout(t) && Shows(c, Normal(g)) && Printed(t, c, 0, start)
    ensures Printed(t, c, 16, out)
  {
    out := start;
    PassOver(t, c, 0, 3, out);
    out := PutByte(out, g.colorSpace, t, c, 3);
    out := PutByte(out, g.colorMode, t, c, 4);
    out := PutByte(out, g.batteryKind, t, c, 5);
    out := PutFixed(out, g.lensWideFocalLength, t, c, 6);
    out := PutFixed(out, g.lensTeleFocalLength, t, c, 7);
    out := PutByte(out, g.afAuxLight, t, c, 8);
    out := PutByte(out, g.afBeep, t, c, 9);
    PassOver(t, c, 10, 13, out);
    out := PutByte(out, g.timerSound, t, c, 13);
    PassOver(t, c, 14, 15, out);
    out := PutByte(out, g.destToSave, t, c, 15);
  }

  method Encode(g: Fields) returns (out: Bytes)
    ensures out == Print(Table(), View(Normal(g)))
  {
    ghost var t, c := Table(), View(Normal(g));
    TableLayout();
    ViewShows(c, Normal(g));
    SlotsAgree(t, c, g);
    ghost var words := TraceWords(t, c, Presence(g));
    var fp := EncodeWord(g, t, c, words);
    out := [0];
    out := out + Be16(fp);
    out := EncodeFields(out, g, t, c);
    out := out + [0];
  }
}
