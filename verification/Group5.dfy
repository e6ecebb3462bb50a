/** Data group 5: interval timer, colour temperature and picture effects (CamDataGroup5 of src/sigma/schema.cpp). */
module Group5 {
  import opened Wrappers
  import opened Bytes
  import opened Slots
  import opened GroupSteps

  datatype Fields = Fields(
    intervalTimerSecond: Option<uint16>, intervalTimerFrame: Option<byte>,
    intervalTimerSecondRemain: Option<uint16>, intervalTimerFrameRemain: Option<byte>,
    colorTemp: Option<uint16>, aspectRatio: Option<byte>, toneEffect: Option<byte>, afAuxLightEF: Option<byte>)

  /** Presence bits and field kinds in the order the fields are sent. */
  function SlotAt(j: nat): Slot
    requires j < 19
  {
    match j
    case 0 => Slot(8, Word)
    case 1 => Slot(8, Byte)
    case 2 => Slot(8, Word)
    case 3 => Slot(8, Byte)
    case 4 => Slot(9, Word)
    case 5 => Slot(10, Reserved)
    case 6 => Slot(11, Byte)
    case 7 => Slot(12, Reserved)
    case 8 => Slot(13, Byte)
    case 9 => Slot(14, Reserved)
    case 10 => Slot(7, Byte)
    case 11 => Slot(15, Reserved)
    case 12 => Slot(0, Reserved)
    case 13 => Slot(1, Reserved)
    case 14 => Slot(2, Reserved)
    case 15 => Slot(3, Reserved)
    case 16 => Slot(4, Reserved)
    case 17 => Slot(5, Reserved)
    case _ => Slot(6, Reserved)
  }

  function Table(): (t: seq<Slot>)
    ensures |t| == 19
  {
    seq(19, j requires 0 <= j < 19 => SlotAt(j))
  }

  /** The fields, slot by slot. */
  function View(g: Fields): (c: Cells)
    ensures |c| == |Table()|
  {
    [
      WordCell(g.intervalTimerSecond), ByteCell(g.intervalTimerFrame), WordCell(g.intervalTimerSecondRemain),
      ByteCell(g.intervalTimerFrameRemain), WordCell(g.colorTemp), None, ByteCell(g.aspectRatio), None,
      ByteCell(g.toneEffect)
    ] + [
      None, ByteCell(g.afAuxLightEF), None, None, None, None, None, None, None, None
    ]
  }

  /** Interval seconds and frames are set together; otherwise encoding is refused. */
  predicate Even(g: Fields) {
    g.intervalTimerSecond.Some? == g.intervalTimerFrame.Some?
  }

  /** What the encoder writes: with an interval, missing remains become 0; without one, remains are left out. */
  function Normal(g: Fields): Fields {
    if g.intervalTimerSecond.Some? && g.intervalTimerFrame.Some? then
      g.(intervalTimerSecondRemain := Some(g.intervalTimerSecondRemain.GetOr(0)),
         intervalTimerFrameRemain := Some(g.intervalTimerFrameRemain.GetOr(0)))
    else g.(intervalTimerSecondRemain := None, intervalTimerFrameRemain := None)
  }

  // ----- the table and the fields one by one, for the straight-line code -----

  ghost predicate Layout(t: seq<Slot>) {
    |t| == 19 && forall j: nat | j < 19 :: t[j] == SlotAt(j)
  }

  lemma {:induction false} TableLayout()
    ensures Layout(Table())
    ensures |Table()| <= 20 && forall j | 0 <= j < |Table()| :: Table()[j].bit < 16
  {
  }

  ghost predicate Shows(c: Cells, g: Fields) {
    && |c| == 19
    && c[0] == WordCell(g.intervalTimerSecond) && c[1] == ByteCell(g.intervalTimerFrame)
    && c[2] == WordCell(g.intervalTimerSecondRemain) && c[3] == ByteCell(g.intervalTimerFrameRemain)
    && c[4] == WordCell(g.colorTemp) && c[6] == ByteCell(g.aspectRatio)
    && c[8] == ByteCell(g.toneEffect) && c[10] == ByteCell(g.afAuxLightEF)
    && c[5] == None
    && c[7] == None
    && c[9] == None
    && c[11] == None && c[12] == None && c[13] == None && c[14] == None
    && c[15] == None && c[16] == None && c[17] == None && c[18] == None
  }

  lemma {:induction false} ViewShows(c: Cells, g: Fields)
    ensures Shows(c, g) <==> c == View(g)
  {
    if Shows(c, g) {
      assert c == View(g);
    }
  }

  lemma {:induction false} ViewIsInjective(a: Fields, b: Fields)
    requires View(a) == View(b)
    ensures a == b
  {
    ViewShows(View(a), a);
    ViewShows(View(b), b);
  }

  /** The presence digits of the encoding, lowest first. */
  function Presence(g: Fields): (d: seq<bool>)
    ensures |d| == 16
  {
    [
      false, false, false, false, false, false, false, g.afAuxLightEF.Some?
    ] + [
      g.intervalTimerSecond.Some? && g.intervalTimerFrame.Some?, g.colorTemp.Some?, false, g.aspectRatio.Some?,
      false, g.toneEffect.Some?, false, false
    ]
  }

  lemma {:induction false} HeadAgrees(t: seq<Slot>, c: Cells, g: Fields)
    requires Layout(t) && Shows(c, Normal(g)) && Even(g)
    ensures Agrees(t, c, Presence(g), 0) && Agrees(t, c, Presence(g), 1) && Agrees(t, c, Presence(g), 2)
    ensures Agrees(t, c, Presence(g), 3) && Agrees(t, c, Presence(g), 4) && Agrees(t, c, Presence(g), 5)
    ensures Agrees(t, c, Presence(g), 6) && Agrees(t, c, Presence(g), 7) && Agrees(t, c, Presence(g), 8)
    ensures Agrees(t, c, Presence(g), 9)
  {
  }

  lemma {:induction false} TailAgrees(t: seq<Slot>, c: Cells, g: Fields)
    requires Layout(t) && Shows(c, Normal(g)) && Even(g)
    ensures Agrees(t, c, Presence(g), 10) && Agrees(t, c, Presence(g), 11) && Agrees(t, c, Presence(g), 12)
    ensures Agrees(t, c, Presence(g), 13) && Agrees(t, c, Presence(g), 14) && Agrees(t, c, Presence(g), 15)
    ensures Agrees(t, c, Presence(g), 16) && Agrees(t, c, Presence(g), 17) && Agrees(t, c, Presence(g), 18)
  {
  }

  /** Normal fields agree with the presence word; in particular, fields sharing a bit are set together. */
  lemma {:induction false} SlotsAgree(t: seq<Slot>, c: Cells, g: Fields)
    requires Layout(t) && Shows(c, Normal(g)) && Even(g)
    ensures Coherent(t, c, Presence(g))
  {
    HeadAgrees(t, c, g);
    TailAgrees(t, c, g);
  }

  /** `g` is what the decoder holds before slot `n`. */
  ghost predicate Stands(c: Course, n: nat, g: Fields) {
    |c.before| == |c.fields| == 19 && Shows(CellsAt(c, n), g)
  }

  ghost predicate Started(c: Course, raw: Bytes, fp: uint16) {
    Traced(c) && Layout(c.t) && |c.before| == |c.fields| == 19 && c.raw == raw && c.fp == fp
  }

  lemma {:induction false} Start(raw: Bytes, fp: uint16, before: Fields) returns (c: Course)
    requires 3 <= |raw| && fp == ReadBe16(raw, 1)
    ensures Started(c, raw, fp) && Stands(c, 0, before) && Settled(c) && c.offsets[0] == 3
    ensures c.final == Parse(Table(), raw, View(before))
  {
    TableLayout();
    ViewShows(View(before), before);
    c := Trace(Table(), fp, raw, View(before));
  }

  // ----- decoding -----

  /** Slots 0 to 6. */
  method DecodeHead(raw: Bytes, i: nat, fp: uint16, before: Fields, ghost c: Course)
    returns (r: Result<()>, j: nat, g: Fields)
    requires Started(c, raw, fp) && Stands(c, 0, before) && c.offsets[0] == i <= |raw|
    ensures r.Ok? ==> Stands(c, 7, g) && c.offsets[7] == j <= |raw|
    ensures r.Err? ==> r.error == OutOfRange && Stands(c, c.stop, g) && !c.final.ok
  {
    j, g := i, before;
    var u8, u16, skipped;
    u16, j :- ReadWord(raw, j, fp, 8, c, 0);
    g := g.(intervalTimerSecond := u16);
    u8, j :- ReadByte(raw, j, fp, 8, c, 1);
    g := g.(intervalTimerFrame := u8);
    u16, j :- ReadWord(raw, j, fp, 8, c, 2);
    g := g.(intervalTimerSecondRemain := u16);
    u8, j :- ReadByte(raw, j, fp, 8, c, 3);
    g := g.(intervalTimerFrameRemain := u8);
    u16, j :- ReadWord(raw, j, fp, 9, c, 4);
    g := g.(colorTemp := u16);
    skipped, j :- SkipByte(raw, j, fp, 10, c, 5);
    u8, j :- ReadByte(raw, j, fp, 11, c, 6);
    g := g.(aspectRatio := u8);
    return Ok(()), j, g;
  }

  /** Slots 7 to 12. */
  method DecodeMiddle(raw: Bytes, i: nat, fp: uint16, before: Fields, ghost c: Course)
    returns (r: Result<()>, j: nat, g: Fields)
    requires Started(c, raw, fp) && Stands(c, 7, before) && c.offsets[7] == i <= |raw|
    ensures r.Ok? ==> Stands(c, 13, g) && c.offsets[13] == j <= |raw|
    ensures r.Err? ==> r.error == OutOfRange && Stands(c, c.stop, g) && !c.final.ok
  {
    j, g := i, before;
    var u8, skipped;
    skipped, j :- SkipByte(raw, j, fp, 12, c, 7);
    u8, j :- ReadByte(raw, j, fp, 13, c, 8);
    g := g.(toneEffect := u8);
    skipped, j :- SkipByte(raw, j, fp, 14, c, 9);
    u8, j :- ReadByte(raw, j, fp, 7, c, 10);
    g := g.(afAuxLightEF := u8);
    skipped, j :- SkipByte(raw, j, fp, 15, c, 11);
    skipped, j :- SkipByte(raw, j, fp, 0, c, 12);
    return Ok(()), j, g;
  }

  /** Slots 13 to 18. */
  method DecodeTail(raw: Bytes, i: nat, fp: uint16, before: Fields, ghost c: Course)
    returns (r: Result<()>, j: nat, g: Fields)
    requires Started(c, raw, fp) && Stands(c, 13, before) && c.offsets[13] == i <= |raw|
    ensures r.Ok? ==> Stands(c, 19, g) && c.offsets[19] == j <= |raw|
    ensures r.Err? ==> r.error == OutOfRange && Stands(c, c.stop, g) && !c.final.ok
  {
    j, g := i, before;
    var skipped;
    skipped, j :- SkipByte(raw, j, fp, 1, c, 13);
    skipped, j :- SkipByte(raw, j, fp, 2, c, 14);
    skipped, j :- SkipByte(raw, j, fp, 3, c, 15);
    skipped, j :- SkipByte(raw, j, fp, 4, c, 16);
    skipped, j :- SkipByte(raw, j, fp, 5, c, 17);
    skipped, j :- SkipByte(raw, j, fp, 6, c, 18);
    return Ok(()), j, g;
  }

  /** Assigns or resets every field, in order; a read past the end leaves the remaining fields as they were. */
  method Decode(raw: Bytes, before: Fields) returns (r: Result<()>, g: Fields)
    ensures r.Ok? <==> Parse(Table(), raw, View(before)).ok
    ensures View(g) == Parse(Table(), raw, View(before)).cells
  {
    g := before;
    var i := 0;
    var header, parity, fp, done;
    header, i :- Get8(raw, i);
    fp, i :- Get16Be(raw, i);
    ghost var c := Start(raw, fp, before);
    done, i, g := DecodeHead(raw, i, fp, g, c);
    if done.Ok? {
      done, i, g := DecodeMiddle(raw, i, fp, g, c);
    }
    if done.Ok? {
      done, i, g := DecodeTail(raw, i, fp, g, c);
    }
    ViewShows(c.final.cells, g);
    if done.Err? {
      return done, g;
    }
    parity, i :- Get8(raw, i);
    return Ok(()), g;
  }

  // ----- encoding -----

  /** The presence word. */
  method EncodeWord(g: Fields, ghost t: seq<Slot>, ghost c: Cells, ghost words: seq<nat>) returns (fp: nat)
    requires Layout(t) && Shows(c, Normal(g)) && Even(g)
    requires PartialWords(t, c, words)
    ensures fp == words[19]
  {
    var interval := g.intervalTimerSecond.Some? && g.intervalTimerFrame.Some?;
    fp := 0;
    fp := Mark(fp, 8, interval, t, c, words, 0);
    MarkOver(t, c, words, 1, 4);
    fp := Mark(fp, 9, g.colorTemp.Some?, t, c, words, 4);
    MarkOver(t, c, words, 5, 6);
    fp := Mark(fp, 11, g.aspectRatio.Some?, t, c, words, 6);
    MarkOver(t, c, words, 7, 8);
    fp := Mark(fp, 13, g.toneEffect.Some?, t, c, words, 8);
    MarkOver(t, c, words, 9, 10);
    fp := Mark(fp, 7, g.afAuxLightEF.Some?, t, c, words, 10);
    MarkOver(t, c, words, 11, 19);
  }

  /** The present fields after the presence word. */
  method EncodeFields(start: Bytes, g: Fields, ghost t: seq<Slot>, ghost c: Cells) returns (out: Bytes)
    requires Layout(t) && Shows(c, Normal(g)) && Even(g) && Printed(t, c, 0, start)
    ensures Printed(t, c, 19, out)
  {
    var interval := g.intervalTimerSecond.Some? && g.intervalTimerFrame.Some?;
    out := start;
    out := PutWord(out, if interval then g.intervalTimerSecond else None, t, c, 0);
    out := PutByte(out, if interval then g.intervalTimerFrame else None, t, c, 1);
    out := PutWord(out, if interval then Some(g.intervalTimerSecondRemain.GetOr(0)) else None, t, c, 2);
    out := PutByte(out, if interval then Some(g.intervalTimerFrameRemain.GetOr(0)) else None, t, c, 3);
    out := PutWord(out, g.colorTemp, t, c, 4);
    PassOver(t, c, 5, 6, out);
    out := PutByte(out, g.aspectRatio, t, c, 6);
    PassOver(t, c, 7, 8, out);
    out := PutByte(out, g.toneEffect, t, c, 8);
    PassOver(t, c, 9, 10, out);
    out := PutByte(out, g.afAuxLightEF, t, c, 10);
    PassOver(t, c, 11, 19, out);
  }

  method Encode(g: Fields) returns (r: Result<Bytes>)
    ensures r == if Even(g) then Ok(Print(Table(), View(Normal(g)))) else Err(UnevenInterval)
  {
    if g.intervalTimerSecond.Some? != g.intervalTimerFrame.Some? {
      return Err(UnevenInterval);
    }
    ghost var t, c := Table(), View(Normal(g));
    TableLayout();
    ViewShows(c, Normal(g));
    SlotsAgree(t, c, g);
    ghost var words := TraceWords(t, c, Presence(g));
    var fp := EncodeWord(g, t, c, words);
    var out: Bytes := [0];
    out := out + Be16(fp);
    out := EncodeFields(out, g, t, c);
    out := out + [0];
    return Ok(out);
  }
}
