/** Data group 4: crop, sensitivity, image quality and lens corrections (CamDataGroup4 of src/sigma/schema.cpp). */
module Group4 {
  import opened Wrappers
  import opened Bytes
  import opened Slots
  import opened GroupSteps

  const OFF: byte := 0x02        // of every lens correction but colour shading
  const SHADE_OFF: byte := 0xFE

  datatype Fields = Fields(
    dcCropMode: Option<byte>, lvMagnifyRatio: Option<byte>, highISOExt: Option<byte>,
    contShootSpeed: Option<byte>, hdr: Option<byte>, dngQuality: Option<byte>, fillLight: Option<int8>,
    locDistortion: Option<byte>, locChromaticAberration: Option<byte>, locDiffraction: Option<byte>,
    locVignetting: Option<byte>, locColorShade: Option<byte>, locColorShadeAcq: Option<byte>,
    eImageStab: Option<byte>, shutterSound: Option<byte>)

  /** Presence bits and field kinds in the order the fields are sent. */
  function SlotAt(j: nat): Slot
    requires j < 19
  {
    match j
    case 0 => Slot(8, Reserved)
    case 1 => Slot(9, Reserved)
    case 2 => Slot(10, Reserved)
    case 3 => Slot(11, Reserved)
    case 4 => Slot(12, Byte)
    case 5 => Slot(13, Byte)
    case 6 => Slot(14, Byte)
    case 7 => Slot(15, Byte)
    case 8 => Slot(0, Byte)
    case 9 => Slot(1, Byte)
    case 10 => Slot(2, Signed)
    case 11 => Slot(3, Byte)
    case 12 => Slot(3, Byte)
    case 13 => Slot(3, Byte)
    case 14 => Slot(3, Byte)
    case 15 => Slot(3, Byte)
    case 16 => Slot(3, Byte)
    case 17 => Slot(4, Byte)
    case _ => Slot(5, Byte)
  }

  function Table(): (t: seq<Slot>)
    ensures |t| == 19
  {
    seq(19, j requires 0 <= j < 19 => SlotAt(j))
  }

  /** The fields, slot by slot. */
  function View(g: Fields): (c: Cells)
    ensures |c| == |Table()|
  {
    [
      None, None, None, None, ByteCell(g.dcCropMode), ByteCell(g.lvMagnifyRatio), ByteCell(g.highISOExt),
      ByteCell(g.contShootSpeed), ByteCell(g.hdr), ByteCell(g.dngQuality)
    ] + [
      SignedCell(g.fillLight), ByteCell(g.locDistortion), ByteCell(g.locChromaticAberration),
      ByteCell(g.locDiffraction), ByteCell(g.locVignetting), ByteCell(g.locColorShade),
      ByteCell(g.locColorShadeAcq), ByteCell(g.eImageStab), ByteCell(g.shutterSound)
    ]
  }

  /** One lens correction being set makes the encoder write all six. */
  predicate HasCorrections(g: Fields) {
    || g.locDistortion.Some? || g.locChromaticAberration.Some? || g.locDiffraction.Some?
    || g.locVignetting.Some? || g.locColorShade.Some? || g.locColorShadeAcq.Some?
  }

  /** What the encoder writes: missing lens corrections become Off beside ones that are set. */
  function Normal(g: Fields): Fields {
    if HasCorrections(g) then
      g.(locDistortion := Some(g.locDistortion.GetOr(OFF)),
         locChromaticAberration := Some(g.locChromaticAberration.GetOr(OFF)),
         locDiffraction := Some(g.locDiffraction.GetOr(OFF)),
         locVignetting := Some(g.locVignetting.GetOr(OFF)),
         locColorShade := Some(g.locColorShade.GetOr(SHADE_OFF)),
         locColorShadeAcq := Some(g.locColorShadeAcq.GetOr(OFF)))
    else g
  }

  // ----- the table and the fields one by one, for the straight-line code -----

  ghost predicate Layout(t: seq<Slot>) {
    |t| == 19 && forall j: nat | j < 19 :: t[j] == SlotAt(j)
  }

  lemma {:induction false} TableLayout()
    ensures Layout(Table())
    ensures |Table()| <= 20 && forall j | 0 <= j < |Table()| :: Table()[j].bit < 16
  {
  }

  ghost predicate Shows(c: Cells, g: Fields) {
    && |c| == 19
    && c[0] == None && c[1] == None && c[2] == None && c[3] == None
    && c[4] == ByteCell(g.dcCropMode) && c[5] == ByteCell(g.lvMagnifyRatio)
    && c[6] == ByteCell(g.highISOExt) && c[7] == ByteCell(g.contShootSpeed)
    && c[8] == ByteCell(g.hdr) && c[9] == ByteCell(g.dngQuality)
    && c[10] == SignedCell(g.fillLight) && c[11] == ByteCell(g.locDistortion)
    && c[12] == ByteCell(g.locChromaticAberration) && c[13] == ByteCell(g.locDiffraction)
    && c[14] == ByteCell(g.locVignetting) && c[15] == ByteCell(g.locColorShade)
    && c[16] == ByteCell(g.locColorShadeAcq) && c[17] == ByteCell(g.eImageStab)
    && c[18] == ByteCell(g.shutterSound)
  }

  lemma {:induction false} ViewShows(c: Cells, g: Fields)
    ensures Shows(c, g) <==> c == View(g)
  {
    if Shows(c, g) {
      assert c == View(g);
    }
  }

  lemma {:induction false} ViewIsInjective(a: Fields, b: Fields)
    requires View(a) == View(b)
    ensures a == b
  {
    ViewShows(View(a), a);
    ViewShows(View(b), b);
  }

  /** The presence digits of the encoding, lowest first. */
  function Presence(g: Fields): (d: seq<bool>)
    ensures |d| == 16
  {
    [
      g.hdr.Some?, g.dngQuality.Some?, g.fillLight.Some?, HasCorrections(g), g.eImageStab.Some?,
      g.shutterSound.Some?, false, false
    ] + [
      false, false, false, false, g.dcCropMode.Some?, g.lvMagnifyRatio.Some?, g.highISOExt.Some?,
      g.contShootSpeed.Some?
    ]
  }

  lemma {:induction false} HeadAgrees(t: seq<Slot>, c: Cells, g: Fields)
    requires Layout(t) && Shows(c, Normal(g))
    ensures Agrees(t, c, Presence(g), 0) && Agrees(t, c, Presence(g), 1) && Agrees(t, c, Presence(g), 2)
    ensures Agrees(t, c, Presence(g), 3) && Agrees(t, c, Presence(g), 4) && Agrees(t, c, Presence(g), 5)
    ensures Agrees(t, c, Presence(g), 6) && Agrees(t, c, Presence(g), 7) && Agrees(t, c, Presence(g), 8)
    ensures Agrees(t, c, Presence(g), 9)
  {
  }

  lemma {:induction false} TailAgrees(t: seq<Slot>, c: Cells, g: Fields)
    requires Layout(t) && Shows(c, Normal(g))
    ensures Agrees(t, c, Presence(g), 10) && Agrees(t, c, Presence(g), 11) && Agrees(t, c, Presence(g), 12)
    ensures Agrees(t, c, Presence(g), 13) && Agrees(t, c, Presence(g), 14) && Agrees(t, c, Presence(g), 15)
    ensures Agrees(t, c, Presence(g), 16) && Agrees(t, c, Presence(g), 17) && Agrees(t, c, Presence(g), 18)
  {
  }

  /** Normal fields agree with the presence word; in particular, fields sharing a bit are set together. */
  lemma {:induction false} SlotsAgree(t: seq<Slot>, c: Cells, g: Fields)
    requires Layout(t) && Shows(c, Normal(g))
    ensures Coherent(t, c, Presence(g))
  {
    HeadAgrees(t, c, g);
    TailAgrees(t, c, g);
  }

  /** `g` is what the decoder holds before slot `n`. */
  ghost predicate Stands(c: Course, n: nat, g: Fields) {
    |c.before| == |c.fields| == 19 && Shows(CellsAt(c, n), g)
  }

  ghost predicate Started(c: Course, raw: Bytes, fp: uint16) {
    Traced(c) && Layout(c.t) && |c.before| == |c.fields| == 19 && c.raw == raw && c.fp == fp
  }

  lemma {:induction false} Start(raw: Bytes, fp: uint16, before: Fields) returns (c: Course)
    requires 3 <= |raw| && fp == ReadBe16(raw, 1)
    ensures Started(c, raw, fp) && Stands(c, 0, before) && Settled(c) && c.offsets[0] == 3
    ensures c.final == Parse(Table(), raw, View(before))
  {
    TableLayout();
    ViewShows(View(before), before);
    c := Trace(Table(), fp, raw, View(before));
  }

  // ----- decoding -----

  /** Slots 0 to 6. */
  method DecodeHead(raw: Bytes, i: nat, fp: uint16, before: Fields, ghost c: Course)
    returns (r: Result<()>, j: nat, g: Fields)
    requires Started(c, raw, fp) && Stands(c, 0, before) && c.offsets[0] == i <= |raw|
    ensures r.Ok? ==> Stands(c, 7, g) && c.offsets[7] == j <= |raw|
    ensures r.Err? ==> r.error == OutOfRange && Stands(c, c.stop, g) && !c.final.ok
  {
    j, g := i, before;
    var u8, skipped;
    skipped, j :- SkipByte(raw, j, fp, 8, c, 0);
    skipped, j :- SkipByte(raw, j, fp, 9, c, 1);
    skipped, j :- SkipByte(raw, j, fp, 10, c, 2);
    skipped, j :- SkipByte(raw, j, fp, 11, c, 3);
    u8, j :- ReadByte(raw, j, fp, 12, c, 4);
    g := g.(dcCropMode := u8);
    u8, j :- ReadByte(raw, j, fp, 13, c, 5);
    g := g.(lvMagnifyRatio := u8);
    u8, j :- ReadByte(raw, j, fp, 14, c, 6);
    g := g.(highISOExt := u8);
    return Ok(()), j, g;
  }

  /** Slots 7 to 12. */
  method DecodeMiddle(raw: Bytes, i: nat, fp: uint16, before: Fields, ghost c: Course)
    returns (r: Result<()>, j: nat, g: Fields)
    requires Started(c, raw, fp) && Stands(c, 7, before) && c.offsets[7] == i <= |raw|
    ensures r.Ok? ==> Stands(c, 13, g) && c.offsets[13] == j <= |raw|
    ensures r.Err? ==> r.error == OutOfRange && Stands(c, c.stop, g) && !c.final.ok
  {
    j, g := i, before;
    var u8, i8;
    u8, j :- ReadByte(raw, j, fp, 15, c, 7);
    g := g.(contShootSpeed := u8);
    u8, j :- ReadByte(raw, j, fp, 0, c, 8);
    g := g.(hdr := u8);
    u8, j :- ReadByte(raw, j, fp, 1, c, 9);
    g := g.(dngQuality := u8);
    i8, j :- ReadSigned(raw, j, fp, 2, c, 10);
    g := g.(fillLight := i8);
    u8, j :- ReadByte(raw, j, fp, 3, c, 11);
    g := g.(locDistortion := u8);
    u8, j :- ReadByte(raw, j, fp, 3, c, 12);
    g := g.(locChromaticAberration := u8);
    return Ok(()), j, g;
  }

  /** Slots 13 to 18. */
  method DecodeTail(raw: Bytes, i: nat, fp: uint16, before: Fields, ghost c: Course)
    returns (r: Result<()>, j: nat, g: Fields)
    requires Started(c, raw, fp) && Stands(c, 13, before) && c.offsets[13] == i <= |raw|
    ensures r.Ok? ==> Stands(c, 19, g) && c.offsets[19] == j <= |raw|
    ensures r.Err? ==> r.error == OutOfRange && Stands(c, c.stop, g) && !c.final.ok
  {
    j, g := i, before;
    var u8;
    u8, j :- ReadByte(raw, j, fp, 3, c, 13);
    g := g.(locDiffraction := u8);
    u8, j :- ReadByte(raw, j, fp, 3, c, 14);
    g := g.(locVignetting := u8);
    u8, j :- ReadByte(raw, j, fp, 3, c, 15);
    g := g.(locColorShade := u8);
    u8, j :- ReadByte(raw, j, fp, 3, c, 16);
    g := g.(locColorShadeAcq := u8);
    u8, j :- ReadByte(raw, j, fp, 4, c, 17);
    g := g.(eImageStab := u8);
    u8, j :- ReadByte(raw, j, fp, 5, c, 18);
    g := g.(shutterSound := u8);
    return Ok(()), j, g;
  }

  /** Assigns or resets every field, in order; a read past the end leaves the remaining fields as they were. */
  method Decode(raw: Bytes, before: Fields) returns (r: Result<()>, g: Fields)
    ensures r.Ok? <==> Parse(Table(), raw, View(before)).ok
    ensures View(g) == Parse(Table(), raw, View(before)).cells
  {
    g := before;
    var i := 0;
    var header, parity, fp, done;
    header, i :- Get8(raw, i);
    fp, i :- Get16Be(raw, i);
    ghost var c := Start(raw, fp, before);
    done, i, g := DecodeHead(raw, i, fp, g, c);
    if done.Ok? {
      done, i, g := DecodeMiddle(raw, i, fp, g, c);
    }
    if done.Ok? {
      done, i, g := DecodeTail(raw, i, fp, g, c);
    }
    ViewShows(c.final.cells, g);
    if done.Err? {
      return done, g;
    }
    parity, i :- Get8(raw, i);
    return Ok(()), g;
  }

  // ----- encoding -----

  /** The presence word. */
  method EncodeWord(g: Fields, ghost t: seq<Slot>, ghost c: Cells, ghost words: seq<nat>) returns (fp: nat)
    requires Layout(t) && Shows(c, Normal(g))
    requires PartialWords(t, c, words)
    ensures fp == words[19]
  {
    var corrections := HasCorrections(g);
    fp := 0;
    MarkOver(t, c, words, 0, 4);
    fp := Mark(fp, 12, g.dcCropMode.Some?, t, c, words, 4);
    fp := Mark(fp, 13, g.lvMagnifyRatio.Some?, t, c, words, 5);
    fp := Mark(fp, 14, g.highISOExt.Some?, t, c, words, 6);
    fp := Mark(fp, 15, g.contShootSpeed.Some?, t, c, words, 7);
    fp := Mark(fp, 0, g.hdr.Some?, t, c, words, 8);
    fp := Mark(fp, 1, g.dngQuality.Some?, t, c, words, 9);
    fp := Mark(fp, 2, g.fillLight.Some?, t, c, words, 10);
    fp := Mark(fp, 3, corrections, t, c, words, 11);
    MarkOver(t, c, words, 12, 17);
    fp := Mark(fp, 4, g.eImageStab.Some?, t, c, words, 17);
    fp := Mark(fp, 5, g.shutterSound.Some?, t, c, words, 18);
  }

  /** The present fields after the presence word. */
  method EncodeFields(start: Bytes, g: Fields, ghost t: seq<Slot>, ghost c: Cells) returns (out: Bytes)
    requires Layout(t) && Shows(c, Normal(g)) && Printed(t, c, 0, start)
    ensures Printed(t, c, 19, out)
  {
    var corrections := HasCorrections(g);
    out := start;
    PassOver(t, c, 0, 4, out);
    out := PutByte(out, g.dcCropMode, t, c, 4);
    out := PutByte(out, g.lvMagnifyRatio, t, c, 5);
    out := PutByte(out, g.highISOExt, t, c, 6);
    out := PutByte(out, g.contShootSpeed, t, c, 7);
    out := PutByte(out, g.hdr, t, c, 8);
    out := PutByte(out, g.dngQuality, t, c, 9);
    out := PutSigned(out, g.fillLight, t, c, 10);
    out := PutByte(out, if corrections then Some(g.locDistortion.GetOr(OFF)) else None, t, c, 11);
    out := PutByte(out, if corrections then Some(g.locChromaticAberration.GetOr(OFF)) else None, t, c, 12);
    out := PutByte(out, if corrections then Some(g.locDiffraction.GetOr(OFF)) else None, t, c, 13);
    out := PutByte(out, if corrections then Some(g.locVignetting.GetOr(OFF)) else None, t, c, 14);
    out := PutByte(out, if corrections then Some(g.locColorShade.GetOr(SHADE_OFF)) else None, t, c, 15);
    out := PutByte(out, if corrections then Some(g.locColorShadeAcq.GetOr(OFF)) else None, t, c, 16);
    out := PutByte(out, g.eImageStab, t, c, 17);
    out := PutByte(out, g.shutterSound, t, c, 18);
  }

  method Encode(g: Fields) returns (out: Bytes)
    ensures out == Print(Table(), View(Normal(g)))
  {
    ghost var t, c := Table(), View(Normal(g));
    TableLayout();
    ViewShows(c, Normal(g));
    SlotsAgree(t, c, g);
    ghost var words := TraceWords(t, c, Presence(g));
    var fp := EncodeWord(g, t, c, words);
    out := [0];
    out := out + Be16(fp);
    out := EncodeFields(out, g, t, c);
    out := out + [0];
  }
}
