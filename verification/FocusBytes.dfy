/** The focus directory as numbers: what the encoder writes, and what the decoder takes from one entry. */
module FocusBytes {
  import opened Wrappers
  import opened Bytes
  import opened Directory
  import opened Focus

  // ----- encoding -----

  /** The entry of a one-byte field, if it is set. */
  function OfByte(tag: uint16, v: Option<byte>): seq<Entry> {
    if v.Some? then [Entry(tag, [v.value])] else []
  }

  function OfBytes(tag: uint16, v: Option<Bytes>): seq<Entry> {
    if v.Some? then [Entry(tag, v.value)] else []
  }

  lemma {:induction false} GatherStep(l: seq<(uint16, Option<Bytes>)>, n: nat)
    requires n < |l|
    ensures Gathered(l, n + 1) == Gathered(l, n) + OfBytes(l[n].0, l[n].1)
  {
    assert Gathered(l, n) + [] == Gathered(l, n);
  }

  /** The entries stand in the order of their tags. */
  lemma {:induction false} EntriesInOrder(f: Fields)
    ensures Entries(f) == OfByte(0x01, f.focusMode) + OfByte(0x02, f.afLock) + OfByte(0x03, f.faceEyeAF)
                          + OfByte(0x10, f.focusArea) + OfByte(0x11, f.onePointSelection) + OfByte(0x12, f.dmfSize)
                          + OfBytes(0x13, f.dmfPos) + OfByte(0x51, f.preConstAF) + OfByte(0x52, f.focusLimit)
  {
    var l := Listing(f);
    GatherStep(l, 0);
    GatherStep(l, 1);
    GatherStep(l, 2);
    GatherStep(l, 3);
    GatherStep(l, 4);
    GatherStep(l, 5);
    GatherStep(l, 6);
    GatherStep(l, 7);
    GatherStep(l, 8);
    assert Gathered(l, 0) + OfBytes(l[0].0, l[0].1) == OfBytes(l[0].0, l[0].1);
  }

  lemma {:induction false} EntryIs(x: Entry, size: byte)
    ensures var e := EntryBytes(x, size);
            && e[0..8] == [x.tag % 256, x.tag / 256, 1, 0] + Le32(|x.payload| % 0x1_0000_0000)
            && e[8..12] == if |x.payload| <= 4 then x.payload + Zeros(4 - |x.payload|) else [size, 0, 0, 0]
  {
    WrapsAround(|x.payload|, 0, 0);
    LittleEndian(size, size, 0, 0, 0);
    assert Le16(x.tag) + Le16(UINT8) == [x.tag % 256, x.tag / 256, 1, 0];
  }

  /** From byte `at` on: tag, type 1, count, and the padded payload or, if it is too long, the size of the directory. */
  predicate Stands(blob: Bytes, at: nat, x: Entry, size: byte) {
    && at + 12 <= |blob|
    && blob[at..at + 8] == [x.tag % 256, x.tag / 256, 1, 0] + Le32(|x.payload| % 0x1_0000_0000)
    && blob[at + 8..at + 12] == if |x.payload| <= 4 then x.payload + Zeros(4 - |x.payload|) else [size, 0, 0, 0]
  }

  lemma {:induction false} EntryStands(blob: Bytes, x: Entry, size: byte, k: nat)
    requires 8 + 12 * (k + 1) <= |blob| <= 116 && EntryAt(blob, k) == EntryBytes(x, size)
    ensures Stands(blob, 8 + 12 * k, x, size)
  {
    var at := 8 + 12 * k;
    assert EntryAt(blob, k) == blob[at..at + 12];
    var e := blob[at..at + 12];
    EntryIs(x, size);
    assert blob[at..at + 8] == e[0..8] && blob[at + 8..at + 12] == e[8..12];
  }

  lemma {:induction false} EncodedHeader(xs: seq<Entry>, size: byte, n: nat)
    requires n <= |xs| <= 9
    ensures Index(xs, size, n)[0..8] == [size, 0, 0, 0, |xs|, 0, 0, 0]
  {
    if n == 0 {
      LittleEndian(size, size, 0, 0, 0);
      LittleEndian(|xs|, |xs|, 0, 0, 0);
    } else {
      EncodedHeader(xs, size, n - 1);
    }
  }

  /** Size and number of entries. */
  lemma {:induction false} EncodedSize(f: Fields)
    ensures var blob, n := Encoded(f), |Entries(f)|;
            |blob| == 8 + 12 * n <= 116 && blob[0..8] == [8 + 12 * n, 0, 0, 0, n, 0, 0, 0]
  {
    var xs := Entries(f);
    EncodedHeader(xs, 8 + 12 * |xs|, |xs|);
  }

  /** And then the entries, one every twelve bytes. */
  lemma {:induction false} EncodedEntry(f: Fields, k: nat)
    requires k < |Entries(f)|
    ensures Stands(Encoded(f), 8 + 12 * k, Entries(f)[k], 8 + 12 * |Entries(f)|)
  {
    var xs := Entries(f);
    EncodedSize(f);
    IndexEntry(xs, 8 + 12 * |xs|, |xs|, k);
    EntryStands(Encoded(f), xs[k], 8 + 12 * |xs|, k);
  }

  /** In particular, every entry announces bytes: type 1. */
  lemma {:induction false} EntriesAreBytes(f: Fields, k: nat)
    requires 8 + 12 * (k + 1) <= |Encoded(f)|
    ensures ReadLe16(Encoded(f), 10 + 12 * k) == 1
  {
    EncodedEntry(f, k);
    var head := Encoded(f)[8 + 12 * k..16 + 12 * k];
    assert head[2] == Encoded(f)[10 + 12 * k] && head[3] == Encoded(f)[11 + 12 * k];
  }

  lemma {:induction false} InThree(b: Bytes)
    requires |b| == 20
    ensures b == b[0..8] + b[8..16] + b[16..20]
  {
  }

  lemma {:induction false} Assembled(b: Bytes, tag: byte, p: Bytes)
    requires |b| == 20 && b[0..8] == [20, 0, 0, 0, 1, 0, 0, 0] && Stands(b, 8, Entry(tag, p), 20) && |p| <= 4
    ensures b == [20, 0, 0, 0, 1, 0, 0, 0] + [tag, 0, 1, 0, |p|, 0, 0, 0] + (p + Zeros(4 - |p|))
  {
    LittleEndian(|p|, |p|, 0, 0, 0);
    assert [tag, 0, 1, 0] + Le32(|p|) == [tag, 0, 1, 0, |p|, 0, 0, 0];
    InThree(b);
  }

  /** The whole directory of a single entry with its payload in it. */
  lemma {:induction false} OneEntryBlob(f: Fields, tag: byte, p: Bytes)
    requires Entries(f) == [Entry(tag, p)] && |p| <= 4
    ensures Encoded(f) == [20, 0, 0, 0, 1, 0, 0, 0] + [tag, 0, 1, 0, |p|, 0, 0, 0] + (p + Zeros(4 - |p|))
  {
    EncodedSize(f);
    EncodedEntry(f, 0);
    Assembled(Encoded(f), tag, p);
  }

  lemma {:induction false} GatherNone(l: seq<(uint16, Option<Bytes>)>, a: nat, b: nat)
    requires a <= b <= |l| && forall i | a <= i < b :: l[i].1.None?
    ensures Gathered(l, b) == Gathered(l, a)
  {
    if a < b {
      GatherNone(l, a, b - 1);
    }
  }

  lemma {:induction false} Alone(f: Fields, k: nat, v: byte)
    requires k < 9 && Listing(f)[k].0 < 256 && Listing(f)[k].1 == Some([v])
    requires forall i | 0 <= i < 9 && i != k :: Listing(f)[i].1.None?
    ensures Encoded(f) == [20, 0, 0, 0, 1, 0, 0, 0, Listing(f)[k].0, 0, 1, 0, 1, 0, 0, 0, v, 0, 0, 0]
  {
    var l := Listing(f);
    GatherNone(l, 0, k);
    GatherNone(l, k + 1, 9);
    assert Gathered(l, 0) + [Entry(l[k].0, [v])] == [Entry(l[k].0, [v])];
    OneEntryBlob(f, l[k].0, [v]);
  }

  /** One field and no other. */
  lemma {:induction false} AloneA(v: byte)
    ensures Encoded(CLEARED.(focusMode := Some(v))) == [20, 0, 0, 0, 1, 0, 0, 0, 0x01, 0, 1, 0, 1, 0, 0, 0, v, 0, 0, 0]
    ensures Encoded(CLEARED.(afLock := Some(v))) == [20, 0, 0, 0, 1, 0, 0, 0, 0x02, 0, 1, 0, 1, 0, 0, 0, v, 0, 0, 0]
    ensures Encoded(CLEARED.(faceEyeAF := Some(v))) == [20, 0, 0, 0, 1, 0, 0, 0, 0x03, 0, 1, 0, 1, 0, 0, 0, v, 0, 0, 0]
  {
    Alone(CLEARED.(focusMode := Some(v)), 0, v);
    Alone(CLEARED.(afLock := Some(v)), 1, v);
    Alone(CLEARED.(faceEyeAF := Some(v)), 2, v);
  }

  lemma {:induction false} AloneB(v: byte)
    ensures Encoded(CLEARED.(focusArea := Some(v))) == [20, 0, 0, 0, 1, 0, 0, 0, 0x10, 0, 1, 0, 1, 0, 0, 0, v, 0, 0, 0]
    ensures Encoded(CLEARED.(onePointSelection := Some(v))) ==
            [20, 0, 0, 0, 1, 0, 0, 0, 0x11, 0, 1, 0, 1, 0, 0, 0, v, 0, 0, 0]
    ensures Encoded(CLEARED.(dmfSize := Some(v))) == [20, 0, 0, 0, 1, 0, 0, 0, 0x12, 0, 1, 0, 1, 0, 0, 0, v, 0, 0, 0]
  {
    Alone(CLEARED.(focusArea := Some(v)), 3, v);
    Alone(CLEARED.(onePointSelection := Some(v)), 4, v);
    Alone(CLEARED.(dmfSize := Some(v)), 5, v);
  }

  lemma {:induction false} AloneC(v: byte)
    ensures Encoded(CLEARED.(preConstAF := Some(v))) == [20, 0, 0, 0, 1, 0, 0, 0, 0x51, 0, 1, 0, 1, 0, 0, 0, v, 0, 0, 0]
    ensures Encoded(CLEARED.(focusLimit := Some(v))) == [20, 0, 0, 0, 1, 0, 0, 0, 0x52, 0, 1, 0, 1, 0, 0, 0, v, 0, 0, 0]
  {
    Alone(CLEARED.(preConstAF := Some(v)), 7, v);
    Alone(CLEARED.(focusLimit := Some(v)), 8, v);
  }

  /** A position of up to four bytes, padded. */
  lemma {:induction false} PositionAlone(p: Bytes)
    requires |p| <= 4
    ensures Encoded(CLEARED.(dmfPos := Some(p))) ==
            [20, 0, 0, 0, 1, 0, 0, 0] + [0x13, 0, 1, 0, |p|, 0, 0, 0] + (p + Zeros(4 - |p|))
  {
    var f := CLEARED.(dmfPos := Some(p));
    GatherNone(Listing(f), 0, 6);
    GatherNone(Listing(f), 7, 9);
    OneEntryBlob(f, 0x13, p);
  }

  // ----- decoding -----

  /** Without a whole index nothing is set. */
  lemma {:induction false} NoIndex(raw: Bytes)
    requires 8 <= |raw| ==>
               var count := raw[4] as int + 256 * raw[5] as int + 65536 * raw[6] as int + 16777216 * raw[7] as int;
               |raw| < 8 + 12 * count
    ensures Decoded(raw) == Ok(CLEARED)
  {
    if 8 <= |raw| {
      QuadIsRead(raw, 4);
    }
  }

  lemma {:induction false} OneFound(raw: Bytes, tag: byte, count: uint32, offset: uint32)
    requires OneEntry(raw, tag, count, offset)
    ensures HasIndex(raw) && EntryCount(raw) == 1
    ensures Decoded(raw) == Applied(Ok(CLEARED), Found(tag, PayloadOf(raw, EntryAt(raw, 0), count)))
  {
    OneEntryIs(raw, tag, count, offset);
    assert FoundIn(raw) == [FoundAt(raw, 0)] && [FoundAt(raw, 0)][..0] == [];
    assert DecodedFrom([FoundAt(raw, 0)]) == Applied(DecodedFrom([]), FoundAt(raw, 0));
  }

  /** The field an entry sets, by its tag: the first byte of the payload, or all of it for positions and detections. */
  lemma {:induction false} DecodesOne(raw: Bytes, tag: byte, count: uint32, offset: uint32, p: Bytes)
    requires OneEntry(raw, tag, count, offset) && Holds(raw, count, offset, p) && p != []
    ensures tag == 0x01 ==> Decoded(raw) == Ok(CLEARED.(focusMode := Some(p[0])))
    ensures tag == 0x02 ==> Decoded(raw) == Ok(CLEARED.(afLock := Some(p[0])))
    ensures tag == 0x03 ==> Decoded(raw) == Ok(CLEARED.(faceEyeAF := Some(p[0])))
    ensures tag == 0x04 ==> Decoded(raw) == Ok(CLEARED.(faceEyeAFStatus := Some(p[0])))
    ensures tag == 0x10 ==> Decoded(raw) == Ok(CLEARED.(focusArea := Some(p[0])))
    ensures tag == 0x11 ==> Decoded(raw) == Ok(CLEARED.(onePointSelection := Some(p[0])))
    ensures tag == 0x12 ==> Decoded(raw) == Ok(CLEARED.(dmfSize := Some(p[0])))
    ensures tag == 0x13 ==> Decoded(raw) == Ok(CLEARED.(dmfPos := Some(p)))
    ensures tag == 0x14 ==> Decoded(raw) == Ok(CLEARED.(dmfDetection := Some(p)))
    ensures tag == 0x51 ==> Decoded(raw) == Ok(CLEARED.(preConstAF := Some(p[0])))
    ensures tag == 0x52 ==> Decoded(raw) == Ok(CLEARED.(focusLimit := Some(p[0])))
    ensures tag !in {0x01, 0x02, 0x03, 0x04, 0x10, 0x11, 0x12, 0x13, 0x14, 0x51, 0x52} ==> Decoded(raw) == Ok(CLEARED)
  {
    OneFound(raw, tag, count, offset);
    PayloadHeld(raw, tag, count, count, offset, p);
  }

  /** An entry without a payload, or with one that is not in the blob; the check of the end wraps around at 4 GiB. */
  lemma {:induction false} DecodesNothing(raw: Bytes, tag: byte, count: uint32, offset: uint32)
    requires OneEntry(raw, tag, count, offset) && (count == 0 || (4 < count && |raw| < offset + count))
    ensures var end := (offset + count) % 0x1_0000_0000;
            Decoded(raw) == if count > 0 && end <= |raw| then Err(Overrun) else Ok(CLEARED)
  {
    OneFound(raw, tag, count, offset);
    if count > 0 {
      PayloadMissing(raw, tag, count, count, offset);
    }
  }

  /** Of two entries with the same tag the second one counts. */
  lemma {:induction false} LaterEntryCounts(a: Bytes, b: Bytes, v: byte, w: byte)
    requires |a| == |b| == 12 && a[0..2] == b[0..2] == [1, 0]
    requires a[4..9] == [1, 0, 0, 0, v] && b[4..9] == [1, 0, 0, 0, w]
    ensures Decoded(TwoEntries(a, b)) == Ok(CLEARED.(focusMode := Some(w)))
  {
    var raw := TwoEntries(a, b);
    TwoFound(a, b);
    ModeEntry(raw, a, v);
    ModeEntry(raw, b, w);
    TwoDecoded(FoundOf(raw, a), FoundOf(raw, b));
  }

  lemma {:induction false} ModeEntry(raw: Bytes, e: Bytes, v: byte)
    requires |e| == 12 && e[0..2] == [1, 0] && e[4..9] == [1, 0, 0, 0, v]
    ensures FoundOf(raw, e) == Found(1, Data([v]))
  {
    QuadIsRead(e, 4);
    assert e[0] == e[0..2][0] && e[1] == e[0..2][1];
    assert forall i | 4 <= i < 9 :: e[i] == e[4..9][i - 4];
    assert e[8..9] == [v];
  }
}
