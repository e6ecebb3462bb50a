/** What the group decoders take from any bytes, by byte numbers. */
module Decoding {
  import opened Wrappers
  import opened Bytes
  import opened Slots
  import opened GroupSteps
  import opened Groups
  import opened Payloads
  import FixedPoint
  import Group1
  import Group2
  import Group3
  import Group4
  import Group5

  // ----- header, parity and trailing bytes -----

  lemma {:induction false} RunReadsBody(t: seq<Slot>, fp: nat, raw: Bytes, other: Bytes, before: Cells, n: nat)
    requires n <= |t| == |before| && RunTo(t, fp, raw, before, n).ok && 3 <= |raw|
    requires var m := RunTo(t, fp, raw, before, n).i; 3 <= m <= |other| && m <= |raw| && raw[3..m] == other[3..m]
    ensures RunTo(t, fp, other, before, n) == RunTo(t, fp, raw, before, n)
  {
    if n > 0 {
      var p, q := RunTo(t, fp, raw, before, n - 1), RunTo(t, fp, raw, before, n);
      RunLength(t, fp, raw, before, n - 1);
      RunLength(t, fp, raw, before, n);
      assert forall k | 3 <= k < q.i :: raw[k] == raw[3..q.i][k - 3] == other[3..q.i][k - 3] == other[k];
      RunReadsBody(t, fp, raw, other, before, n - 1);
    }
  }

  /** Bytes that differ in the header, in the parity or behind it are decoded alike. */
  lemma {:induction false} EndsDoNotMatter(t: seq<Slot>, raw: Bytes, other: Bytes, before: Cells)
    requires |t| == |before| && Parse(t, raw, before).ok
    requires var m := Parse(t, raw, before).i; 4 <= m <= |raw| && m <= |other| && raw[1..m - 1] == other[1..m - 1]
    ensures Parse(t, other, before) == Parse(t, raw, before)
  {
    var m := Parse(t, raw, before).i;
    assert raw[1] == raw[1..m - 1][0] && raw[2] == raw[1..m - 1][1];
    assert raw[3..m - 1] == raw[1..m - 1][2..] == other[1..m - 1][2..] == other[3..m - 1];
    RunReadsBody(t, ReadBe16(raw, 1), raw, other, before, |t|);
  }

  lemma {:induction false} Surrounded(h: byte, printed: Bytes, p: byte, tail: Bytes)
    requires 4 <= |printed|
    ensures var n := |printed|;
            var other := [h] + printed[1..n - 1] + [p] + tail;
            n <= |other| && other[1..n - 1] == printed[1..n - 1]
  {
  }

  /** So printed bytes decode to the same fields between any header and parity, and before any other bytes. */
  lemma {:induction false} DecodesAnyEnds(t: seq<Slot>, printed: Bytes, before: Cells, cells: Cells, h: byte, p: byte,
                                          tail: Bytes)
    requires |t| == |before| && Parse(t, printed, before) == Scan(true, |printed|, cells)
    ensures 4 <= |printed|
    ensures Parse(t, [h] + printed[1..|printed| - 1] + [p] + tail, before) == Scan(true, |printed|, cells)
  {
    ParseSucceeds(t, printed, before);
    Surrounded(h, printed, p, tail);
    EndsDoNotMatter(t, printed, [h] + printed[1..|printed| - 1] + [p] + tail, before);
  }

  /** The bytes of a group 1 with its read-only fields decode to it, whatever the object held before. */
  lemma {:induction false} DecodesStatus(g: Group1.Fields, before: Group1.Fields)
    requires g.currentLensFocalLength == Sixteenths(g.currentLensFocalLength)
    ensures var printed := Print(Group1.Table(), Group1.View(g));
            Parse(Group1.Table(), printed, Group1.View(before)) == Scan(true, |printed|, Group1.View(g))
  {
    var t, c := Group1.Table(), Group1.View(g);
    Group1.TableLayout();
    Group1.ViewShows(c, g);
    Group1.SlotsAgree(t, c, g);
    RoundTrip(t, c, Group1.Presence(g), Group1.View(before));
    assert Group1.Shows(Survivors(c), g);
    Group1.ViewShows(Survivors(c), g);
  }

  // ----- payloads with all sixteen presence bits -----

  lemma {:induction false} AllBits(k: nat)
    requires k < 16
    ensures Has(0xFFFF, k)
  {
    var d := seq(16, i => true);
    NumberHas(d, k);
    NumberOctets(d);
  }

  /** `o[n]` is where slot `n` stands when every slot is there. */
  ghost predicate Offsets(t: seq<Slot>, o: seq<nat>) {
    && |o| == |t| + 1 && o[0] == 3
    && forall n: nat {:trigger At(n)} | n < |t| && At(n) :: o[n + 1] == o[n] + Width(t[n].kind)
  }

  /** Every slot is read from its place. */
  ghost predicate LoadsAll(t: seq<Slot>, o: seq<nat>, raw: Bytes, cells: Cells)
    requires |o| == |t| + 1
  {
    |cells| == |t| && forall n: nat {:trigger At(n)} | n < |t| && At(n) ::
      o[n] + Width(t[n].kind) <= |raw| && cells[n] == Load(t[n].kind, raw, o[n])
  }

  lemma {:induction false} FullOffsets(t: seq<Slot>) returns (o: seq<nat>)
    requires forall j | 0 <= j < |t| :: t[j].bit < 16
    ensures Offsets(t, o) && forall n: nat | n <= |t| :: o[n] == 3 + Widths(t, 0xFFFF, n)
  {
    o := seq(|t| + 1, n requires 0 <= n <= |t| => 3 + Widths(t, 0xFFFF, n));
    forall n: nat | n < |t| ensures o[n + 1] == o[n] + Width(t[n].kind) {
      AllBits(t[n].bit);
    }
  }

  /** Decoding such a payload, slot by slot. */
  lemma {:induction false} FullWord(t: seq<Slot>, raw: Bytes, before: Cells) returns (o: seq<nat>, p: Scan)
    requires |t| == |before| && (forall j | 0 <= j < |t| :: t[j].bit < 16) && 3 <= |raw| && raw[1] == raw[2] == 0xFF
    ensures Offsets(t, o) && p == Parse(t, raw, before)
    ensures p.ok <==> o[|t|] < |raw|
    ensures p.ok ==> LoadsAll(t, o, raw, p.cells)
  {
    o := FullOffsets(t);
    p := Parse(t, raw, before);
    ParseSucceeds(t, raw, before);
    if p.ok {
      forall n: nat | n < |t|
        ensures o[n] + Width(t[n].kind) <= |raw| && p.cells[n] == Load(t[n].kind, raw, o[n])
      {
        AllBits(t[n].bit);
        CellsOfRun(t, 0xFFFF, raw, before, |t|, n);
      }
    }
  }

  lemma {:induction false} AtAll(n: nat)
    ensures At(0) && At(1) && At(2) && At(3) && At(4) && At(5) && At(6) && At(7) && At(8) && At(9)
    ensures At(10) && At(11) && At(12) && At(13) && At(14) && At(15) && At(16) && At(17) && At(18)
  {
  }

  lemma {:induction false} LoadFixed(raw: Bytes, i: nat)
    requires i + 2 <= |raw|
    ensures Load(Fixed, raw, i) == FixedCell(Some((raw[i] as int + 256 * raw[i + 1] as int) as real / 16.0))
  {
    FixedPoint.DecodeIsSixteenth(ReadLe16(raw, i));
  }

  lemma {:induction false} Offsets1(t: seq<Slot>, o: seq<nat>)
    requires Group1.Layout(t) && Offsets(t, o)
    ensures o[0] == 3 && o[1] == 4 && o[2] == 5 && o[3] == 6 && o[4] == 7
    ensures o[5] == 8 && o[6] == 9 && o[7] == 10 && o[8] == 11
    ensures o[9] == 12 && o[10] == 14 && o[11] == 15 && o[12] == 17
    ensures o[13] == 18 && o[14] == 19 && o[15] == 20 && o[16] == 21
  {
    AtAll(0);
  }

  /** All of group 1: a reserved byte before the parity. */
  lemma {:induction false} Full1(raw: Bytes, before: Group1.Fields)
    requires 3 <= |raw| && raw[1] == raw[2] == 0xFF
    ensures Parse(Group1.Table(), raw, Group1.View(before)).ok <==> 22 <= |raw|
    ensures 22 <= |raw| ==>
              Parse(Group1.Table(), raw, Group1.View(before)).cells ==
              Group1.View(Group1.Fields(
                Some(raw[3]), Some(raw[4]), Some(raw[5]), Some(raw[6]), Some(raw[7]), Some(raw[8]), Some(raw[9]),
                Some(raw[10]), Some(raw[11]), Some(raw[12] as int + 256 * raw[13] as int), Some(raw[14]),
                Some((raw[15] as int + 256 * raw[16] as int) as real / 16.0), Some(raw[17]), Some(raw[18]),
                Some(raw[19])))
  {
    var t := Group1.Table();
    Group1.TableLayout();
    var o, p := FullWord(t, raw, Group1.View(before));
    Offsets1(t, o);
    if 22 <= |raw| {
      AtAll(0);
      LoadFixed(raw, 15);
      Group1.ViewShows(p.cells, Group1.Fields(
                Some(raw[3]), Some(raw[4]), Some(raw[5]), Some(raw[6]), Some(raw[7]), Some(raw[8]), Some(raw[9]),
                Some(raw[10]), Some(raw[11]), Some(raw[12] as int + 256 * raw[13] as int), Some(raw[14]),
                Some((raw[15] as int + 256 * raw[16] as int) as real / 16.0), Some(raw[17]), Some(raw[18]),
                Some(raw[19])));
    }
  }

  lemma {:induction false} Offsets2(t: seq<Slot>, o: seq<nat>)
    requires Group2.Layout(t) && Offsets(t, o)
    ensures o[0] == 3 && o[1] == 4 && o[2] == 5 && o[3] == 6 && o[4] == 7
    ensures o[5] == 8 && o[6] == 9 && o[7] == 10 && o[8] == 11
    ensures o[9] == 12 && o[10] == 13 && o[11] == 14 && o[12] == 15
    ensures o[13] == 16 && o[14] == 17 && o[15] == 18 && o[16] == 19
  {
    AtAll(0);
  }

  /** All of group 2: four reserved bytes in the middle, and two more. */
  lemma {:induction false} Full2(raw: Bytes, before: Group2.Fields)
    requires 3 <= |raw| && raw[1] == raw[2] == 0xFF
    ensures Parse(Group2.Table(), raw, Group2.View(before)).ok <==> 20 <= |raw|
    ensures 20 <= |raw| ==>
              Parse(Group2.Table(), raw, Group2.View(before)).cells ==
              Group2.View(Group2.Fields(
                Some(raw[3]), Some(raw[4]), Some(raw[5]), Some(raw[6]), Some(raw[11]), Some(raw[13]), Some(raw[14]),
                Some(raw[16]), Some(raw[17]), Some(raw[18])))
  {
    var t := Group2.Table();
    Group2.TableLayout();
    var o, p := FullWord(t, raw, Group2.View(before));
    Offsets2(t, o);
    if 20 <= |raw| {
      AtAll(0);
      Group2.ViewShows(p.cells, Group2.Fields(
                Some(raw[3]), Some(raw[4]), Some(raw[5]), Some(raw[6]), Some(raw[11]), Some(raw[13]), Some(raw[14]),
                Some(raw[16]), Some(raw[17]), Some(raw[18])));
    }
  }

  lemma {:induction false} Offsets3(t: seq<Slot>, o: seq<nat>)
    requires Group3.Layout(t) && Offsets(t, o)
    ensures o[0] == 3 && o[1] == 4 && o[2] == 5 && o[3] == 6 && o[4] == 7
    ensures o[5] == 8 && o[6] == 9 && o[7] == 11 && o[8] == 13
    ensures o[9] == 14 && o[10] == 15 && o[11] == 16 && o[12] == 17
    ensures o[13] == 18 && o[14] == 19 && o[15] == 20 && o[16] == 21
  {
    AtAll(0);
  }

  /** All of group 3: reserved bytes first, and four more among the rest. */
  lemma {:induction false} Full3(raw: Bytes, before: Group3.Fields)
    requires 3 <= |raw| && raw[1] == raw[2] == 0xFF
    ensures Parse(Group3.Table(), raw, Group3.View(before)).ok <==> 22 <= |raw|
    ensures 22 <= |raw| ==>
              Parse(Group3.Table(), raw, Group3.View(before)).cells ==
              Group3.View(Group3.Fields(
                Some(raw[6]), Some(raw[7]), Some(raw[8]),
                Some((raw[9] as int + 256 * raw[10] as int) as real / 16.0),
                Some((raw[11] as int + 256 * raw[12] as int) as real / 16.0), Some(raw[13]), Some(raw[14]),
                Some(raw[18]), Some(raw[20])))
  {
    var t := Group3.Table();
    Group3.TableLayout();
    var o, p := FullWord(t, raw, Group3.View(before));
    Offsets3(t, o);
    if 22 <= |raw| {
      AtAll(0);
      LoadFixed(raw, 9);
      LoadFixed(raw, 11);
      Group3.ViewShows(p.cells, Group3.Fields(
                Some(raw[6]), Some(raw[7]), Some(raw[8]),
                Some((raw[9] as int + 256 * raw[10] as int) as real / 16.0),
                Some((raw[11] as int + 256 * raw[12] as int) as real / 16.0), Some(raw[13]), Some(raw[14]),
                Some(raw[18]), Some(raw[20])));
    }
  }

  lemma {:induction false} Offsets4(t: seq<Slot>, o: seq<nat>)
    requires Group4.Layout(t) && Offsets(t, o)
    ensures o[0] == 3 && o[1] == 4 && o[2] == 5 && o[3] == 6 && o[4] == 7
    ensures o[5] == 8 && o[6] == 9 && o[7] == 10 && o[8] == 11
    ensures o[9] == 12 && o[10] == 13 && o[11] == 14 && o[12] == 15 && o[13] == 16
    ensures o[14] == 17 && o[15] == 18 && o[16] == 19 && o[17] == 20
    ensures o[18] == 21 && o[19] == 22
  {
    AtAll(0);
  }

  /** All of group 4: four reserved bytes first; two bits have no bytes. */
  lemma {:induction false} Full4(raw: Bytes, before: Group4.Fields)
    requires 3 <= |raw| && raw[1] == raw[2] == 0xFF
    ensures Parse(Group4.Table(), raw, Group4.View(before)).ok <==> 23 <= |raw|
    ensures 23 <= |raw| ==>
              Parse(Group4.Table(), raw, Group4.View(before)).cells ==
              Group4.View(Group4.Fields(
                Some(raw[7]), Some(raw[8]), Some(raw[9]), Some(raw[10]), Some(raw[11]), Some(raw[12]),
                Some(if raw[13] < 128 then raw[13] else raw[13] as int - 256), Some(raw[14]), Some(raw[15]),
                Some(raw[16]), Some(raw[17]), Some(raw[18]), Some(raw[19]), Some(raw[20]), Some(raw[21])))
  {
    var t := Group4.Table();
    Group4.TableLayout();
    var o, p := FullWord(t, raw, Group4.View(before));
    Offsets4(t, o);
    if 23 <= |raw| {
      AtAll(0);
      Group4.ViewShows(p.cells, Group4.Fields(
                Some(raw[7]), Some(raw[8]), Some(raw[9]), Some(raw[10]), Some(raw[11]), Some(raw[12]),
                Some(if raw[13] < 128 then raw[13] else raw[13] as int - 256), Some(raw[14]), Some(raw[15]),
                Some(raw[16]), Some(raw[17]), Some(raw[18]), Some(raw[19]), Some(raw[20]), Some(raw[21])));
    }
  }

  lemma {:induction false} Offsets5(t: seq<Slot>, o: seq<nat>)
    requires Group5.Layout(t) && Offsets(t, o)
    ensures o[0] == 3 && o[1] == 5 && o[2] == 6 && o[3] == 8 && o[4] == 9
    ensures o[5] == 11 && o[6] == 12 && o[7] == 13 && o[8] == 14
    ensures o[9] == 15 && o[10] == 16 && o[11] == 17 && o[12] == 18 && o[13] == 19
    ensures o[14] == 20 && o[15] == 21 && o[16] == 22 && o[17] == 23
    ensures o[18] == 24 && o[19] == 25
  {
    AtAll(0);
  }

  lemma {:induction false} Shown5(t: seq<Slot>, o: seq<nat>, raw: Bytes, c: Cells)
    requires Group5.Layout(t) && Offsets(t, o) && LoadsAll(t, o, raw, c) && 25 <= |raw|
    ensures c ==
              Group5.View(Group5.Fields(
                Some(raw[3] as int + 256 * raw[4] as int), Some(raw[5]), Some(raw[6] as int + 256 * raw[7] as int),
                Some(raw[8]), Some(raw[9] as int + 256 * raw[10] as int), Some(raw[12]), Some(raw[14]),
                Some(raw[16])))
  {
    Offsets5(t, o);
    AtAll(0);
    Group5.ViewShows(c, Group5.Fields(
                Some(raw[3] as int + 256 * raw[4] as int), Some(raw[5]), Some(raw[6] as int + 256 * raw[7] as int),
                Some(raw[8]), Some(raw[9] as int + 256 * raw[10] as int), Some(raw[12]), Some(raw[14]),
                Some(raw[16])));
  }

  /** All of group 5: reserved bytes between the fields and after them. */
  lemma {:induction false} Full5(raw: Bytes, before: Group5.Fields)
    requires 3 <= |raw| && raw[1] == raw[2] == 0xFF
    ensures Parse(Group5.Table(), raw, Group5.View(before)).ok <==> 26 <= |raw|
    ensures 26 <= |raw| ==>
              Parse(Group5.Table(), raw, Group5.View(before)).cells ==
              Group5.View(Group5.Fields(
                Some(raw[3] as int + 256 * raw[4] as int), Some(raw[5]), Some(raw[6] as int + 256 * raw[7] as int),
                Some(raw[8]), Some(raw[9] as int + 256 * raw[10] as int), Some(raw[12]), Some(raw[14]),
                Some(raw[16])))
  {
    var t := Group5.Table();
    Group5.TableLayout();
    var o, p := FullWord(t, raw, Group5.View(before));
    Offsets5(t, o);
    if 26 <= |raw| {
      Shown5(t, o, raw, p.cells);
    }
  }

  // ----- reserved bits -----

  function Weight(k: nat): (w: uint16)
    requires k < 16
  {
    match k
    case 0 => 1 case 1 => 2 case 2 => 4 case 3 => 8 case 4 => 0x10 case 5 => 0x20 case 6 => 0x40 case 7 => 0x80
    case 8 => 0x100 case 9 => 0x200 case 10 => 0x400 case 11 => 0x800
    case 12 => 0x1000 case 13 => 0x2000 case 14 => 0x4000 case _ => 0x8000
  }

  lemma {:induction false} OneBit(k: nat, m: nat)
    requires k < 16
    ensures Has(Weight(k), m) <==> m == k
  {
    if k > 0 {
      assert Weight(k) / 2 == Weight(k - 1) && Weight(k) % 2 == 0;
      if m > 0 {
        OneBit(k - 1, m - 1);
      }
    } else if m > 0 {
      HasNone(m - 1);
    }
  }

  /** One byte is skipped for a bit that only a reserved slot has. */
  lemma {:induction false} Skips(t: seq<Slot>, k: nat, raw: Bytes, before: Cells, j: nat, n: nat)
    requires j < |t| && n <= |t| == |before| && k < 16 && t[j] == Slot(k, Reserved) && 4 <= |raw|
    requires forall i | 0 <= i < |t| && i != j :: t[i].bit != k
    ensures var p := RunTo(t, Weight(k), raw, before, n);
            p.ok && p.i == (if j < n then 4 else 3) && forall i | 0 <= i < n :: p.cells[i] == None
  {
    if n > 0 {
      Skips(t, k, raw, before, j, n - 1);
      OneBit(k, t[n - 1].bit);
    }
  }

  /** No byte is for bits that no slot has. */
  lemma {:induction false} Ignores(t: seq<Slot>, k: nat, raw: Bytes, before: Cells, n: nat)
    requires n <= |t| == |before| && k < 16 && forall i | 0 <= i < |t| :: t[i].bit != k
    ensures var p := RunTo(t, Weight(k), raw, before, n);
            p.ok && p.i == 3 && forall i | 0 <= i < n :: p.cells[i] == None
  {
    if n > 0 {
      Ignores(t, k, raw, before, n - 1);
      OneBit(k, t[n - 1].bit);
    }
  }

  /** A payload whose one presence bit is reserved: its byte is skipped, and every field is cleared. */
  predicate Cleared(t: seq<Slot>, fp: uint16, h: byte, x: byte, p: byte, before: Cells)
    requires |t| == |before|
  {
    var r := Parse(t, [h, fp / 256, fp % 256, x, p], before);
    && r.ok && r.i == 5 && (forall i | 0 <= i < |t| :: r.cells[i] == None)
    && !Parse(t, [h, fp / 256, fp % 256, p], before).ok
  }

  lemma {:induction false} ReservedAlone(t: seq<Slot>, k: nat, j: nat, h: byte, x: byte, p: byte, before: Cells)
    requires |t| == |before| && k < 16 && j < |t| && t[j] == Slot(k, Reserved)
    requires forall i | 0 <= i < |t| && i != j :: t[i].bit != k
    ensures Cleared(t, Weight(k), h, x, p, before)
  {
    var fp := Weight(k);
    Skips(t, k, [h, fp / 256, fp % 256, x, p], before, j, |t|);
    Skips(t, k, [h, fp / 256, fp % 256, p], before, j, |t|);
  }

  /** The reserved bit of group 1. */
  lemma {:induction false} Reserved1(h: byte, x: byte, p: byte, before: Cells)
    requires |before| == 16
    ensures Cleared(Group1.Table(), 0x0080, h, x, p, before)
  {
    var t := Group1.Table();
    Group1.TableLayout();
    ReservedAlone(t, 7, 15, h, x, p, before);
  }

  /** The reserved bits of group 2. */
  lemma {:induction false} Reserved2(h: byte, x: byte, p: byte, before: Cells)
    requires |before| == 16
    ensures Cleared(Group2.Table(), 0x8000, h, x, p, before)
    ensures Cleared(Group2.Table(), 0x4000, h, x, p, before)
    ensures Cleared(Group2.Table(), 0x2000, h, x, p, before)
    ensures Cleared(Group2.Table(), 0x1000, h, x, p, before)
    ensures Cleared(Group2.Table(), 0x0002, h, x, p, before)
    ensures Cleared(Group2.Table(), 0x0010, h, x, p, before)
  {
    var t := Group2.Table();
    Group2.TableLayout();
    ReservedAlone(t, 15, 4, h, x, p, before);
    ReservedAlone(t, 14, 5, h, x, p, before);
    ReservedAlone(t, 13, 6, h, x, p, before);
    ReservedAlone(t, 12, 7, h, x, p, before);
    ReservedAlone(t, 1, 9, h, x, p, before);
    ReservedAlone(t, 4, 12, h, x, p, before);
  }

  /** Of group 3: of its high byte, */
  lemma {:induction false} Reserved3A(h: byte, x: byte, p: byte, before: Cells)
    requires |before| == 16
    ensures Cleared(Group3.Table(), 0x0100, h, x, p, before)
    ensures Cleared(Group3.Table(), 0x0200, h, x, p, before)
    ensures Cleared(Group3.Table(), 0x0400, h, x, p, before)
  {
    var t := Group3.Table();
    Group3.TableLayout();
    ReservedAlone(t, 8, 0, h, x, p, before);
    ReservedAlone(t, 9, 1, h, x, p, before);
    ReservedAlone(t, 10, 2, h, x, p, before);
  }

  /** and of its low byte. */
  lemma {:induction false} Reserved3B(h: byte, x: byte, p: byte, before: Cells)
    requires |before| == 16
    ensures Cleared(Group3.Table(), 0x0004, h, x, p, before)
    ensures Cleared(Group3.Table(), 0x0008, h, x, p, before)
    ensures Cleared(Group3.Table(), 0x0010, h, x, p, before)
    ensures Cleared(Group3.Table(), 0x0040, h, x, p, before)
  {
    var t := Group3.Table();
    Group3.TableLayout();
    ReservedAlone(t, 2, 10, h, x, p, before);
    ReservedAlone(t, 3, 11, h, x, p, before);
    ReservedAlone(t, 4, 12, h, x, p, before);
    ReservedAlone(t, 6, 14, h, x, p, before);
  }

  /** Of group 4. */
  lemma {:induction false} Reserved4(h: byte, x: byte, p: byte, before: Cells)
    requires |before| == 19
    ensures Cleared(Group4.Table(), 0x0100, h, x, p, before)
    ensures Cleared(Group4.Table(), 0x0200, h, x, p, before)
    ensures Cleared(Group4.Table(), 0x0400, h, x, p, before)
    ensures Cleared(Group4.Table(), 0x0800, h, x, p, before)
  {
    var t := Group4.Table();
    Group4.TableLayout();
    ReservedAlone(t, 8, 0, h, x, p, before);
    ReservedAlone(t, 9, 1, h, x, p, before);
    ReservedAlone(t, 10, 2, h, x, p, before);
    ReservedAlone(t, 11, 3, h, x, p, before);
  }

  /** Of group 5: of its high byte, */
  lemma {:induction false} Reserved5A(h: byte, x: byte, p: byte, before: Cells)
    requires |before| == 19
    ensures Cleared(Group5.Table(), 0x0400, h, x, p, before)
    ensures Cleared(Group5.Table(), 0x1000, h, x, p, before)
    ensures Cleared(Group5.Table(), 0x4000, h, x, p, before)
    ensures Cleared(Group5.Table(), 0x8000, h, x, p, before)
  {
    var t := Group5.Table();
    Group5.TableLayout();
    ReservedAlone(t, 10, 5, h, x, p, before);
    ReservedAlone(t, 12, 7, h, x, p, before);
    ReservedAlone(t, 14, 9, h, x, p, before);
    ReservedAlone(t, 15, 11, h, x, p, before);
  }

  /** and of its low byte. */
  lemma {:induction false} Reserved5B(h: byte, x: byte, p: byte, before: Cells)
    requires |before| == 19
    ensures Cleared(Group5.Table(), 0x0001, h, x, p, before)
    ensures Cleared(Group5.Table(), 0x0002, h, x, p, before)
    ensures Cleared(Group5.Table(), 0x0004, h, x, p, before)
    ensures Cleared(Group5.Table(), 0x0008, h, x, p, before)
  {
    var t := Group5.Table();
    Group5.TableLayout();
    ReservedAlone(t, 0, 12, h, x, p, before);
    ReservedAlone(t, 1, 13, h, x, p, before);
    ReservedAlone(t, 2, 14, h, x, p, before);
    ReservedAlone(t, 3, 15, h, x, p, before);
  }

  /** The last three. */
  lemma {:induction false} Reserved5C(h: byte, x: byte, p: byte, before: Cells)
    requires |before| == 19
    ensures Cleared(Group5.Table(), 0x0010, h, x, p, before)
    ensures Cleared(Group5.Table(), 0x0020, h, x, p, before)
    ensures Cleared(Group5.Table(), 0x0040, h, x, p, before)
  {
    var t := Group5.Table();
    Group5.TableLayout();
    ReservedAlone(t, 4, 16, h, x, p, before);
    ReservedAlone(t, 5, 17, h, x, p, before);
    ReservedAlone(t, 6, 18, h, x, p, before);
  }

  /** Two bits of group 4 have no byte at all. */
  lemma {:induction false} Unused4(h: byte, fp: uint16, p: byte, before: Cells)
    requires |before| == 19 && (fp == 0x0040 || fp == 0x0080)
    ensures var r := Parse(Group4.Table(), [h, fp / 256, fp % 256, p], before);
            r.ok && r.i == 4 && forall i | 0 <= i < 19 :: r.cells[i] == None
  {
    var t := Group4.Table();
    Group4.TableLayout();
    assert Weight(6) == 0x40 && Weight(7) == 0x80;
    Ignores(t, if fp == 0x40 then 6 else 7, [h, fp / 256, fp % 256, p], before, 19);
  }
}
