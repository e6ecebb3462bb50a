/** The device description as numbers: what the decoder takes from one entry. */
module ConfigBytes {
  import opened Wrappers
  import opened Bytes
  import opened Directory
  import opened ApiConfig

  /** Without a whole index nothing is set. */
  lemma {:induction false} NoIndex(raw: Bytes)
    requires 8 <= |raw| ==>
               var count := raw[4] as int + 256 * raw[5] as int + 65536 * raw[6] as int + 16777216 * raw[7] as int;
               |raw| < 8 + 12 * count
    ensures Outcome(raw) == (Fields([], [], [], Zero), Ok(()))
  {
    if 8 <= |raw| {
      QuadIsRead(raw, 4);
    }
  }

  /** The size of `count` elements of a type, by its low byte, in 32 bits; none for a type that is not known. */
  function Sized(kind: byte, count: uint32): Option<uint32> {
    if kind in {1, 2, 6, 7} then Some(count)
    else if kind in {3, 8} then Some(2 * count % 0x1_0000_0000)
    else if kind in {4, 9, 11} then Some(4 * count % 0x1_0000_0000)
    else if kind in {5, 10, 12} then Some(8 * count % 0x1_0000_0000)
    else None
  }

  lemma {:induction false} Scaled(count: uint32)
    ensures Wrap32(count * 1) == count && Wrap32(count * 2) == 2 * count % 0x1_0000_0000
    ensures Wrap32(count * 4) == 4 * count % 0x1_0000_0000 && Wrap32(count * 8) == 8 * count % 0x1_0000_0000
  {
    WrapsAround(count * 2, 0, 0);
    WrapsAround(count * 4, 0, 0);
    WrapsAround(count * 8, 0, 0);
  }

  lemma {:induction false} SizeIs(e: Bytes)
    requires |e| == 12
    ensures SizeOf(e) == Sized(e[2], CountOf(e)) && Kind(e) == e[2]
  {
    assert Kind(e) == e[2];
    Scaled(CountOf(e));
    assert ElementSize(e[2]) in {None, Some(1), Some(2), Some(4), Some(8)};
  }

  lemma {:induction false} OneFound(raw: Bytes, tag: byte, count: uint32, offset: uint32)
    requires OneEntry(raw, tag, count, offset)
    ensures HasIndex(raw) && EntryCount(raw) == 1
    ensures var size := Sized(raw[10], count);
            var found := Found(tag, raw[10], if size.None? then Err(UnknownType)
                                             else Ok(PayloadOf(raw, EntryAt(raw, 0), size.value)));
            Outcome(raw) == if Fault(found).Some? then (CLEARED, Err(Fault(found).value))
                            else (Applied(CLEARED, found), Ok(()))
  {
    OneEntryIs(raw, tag, count, offset);
    var e := EntryAt(raw, 0);
    assert e[2] == raw[10];
    SizeIs(e);
    var found := FoundOf(raw, e);
    assert FoundIn(raw) == [found] && [found][..0] == [] && [found][..1] == [found];
    assert Walked([found]) == Applied(Walked([]), found);
  }

  /** An entry of a type that is not known ends the decoding in an error. */
  lemma {:induction false} UnknownKind(raw: Bytes, tag: byte, count: uint32, offset: uint32)
    requires OneEntry(raw, tag, count, offset) && raw[10] !in {1, 2, 3, 4, 5, 6, 7, 8, 9, 10, 11, 12}
    ensures Outcome(raw) == (Fields([], [], [], Zero), Err(UnknownType))
  {
    OneFound(raw, tag, count, offset);
  }

  lemma {:induction false} DecodesPayload(raw: Bytes, tag: byte, count: uint32, offset: uint32, p: Bytes)
    requires OneEntry(raw, tag, count, offset)
    requires Sized(raw[10], count).Some? && Holds(raw, Sized(raw[10], count).value, offset, p)
    ensures Outcome(raw) == (Assign(CLEARED, tag, raw[10], p), Ok(()))
  {
    OneFound(raw, tag, count, offset);
    PayloadHeld(raw, tag, count, Sized(raw[10], count).value, offset, p);
  }

  /** The string an entry sets, by its tag: without a last NUL, and whatever the type. */
  lemma {:induction false} DecodesText(raw: Bytes, tag: byte, count: uint32, offset: uint32, p: Bytes)
    requires OneEntry(raw, tag, count, offset)
    requires Sized(raw[10], count).Some? && Holds(raw, Sized(raw[10], count).value, offset, p)
    ensures var s := if p != [] && p[|p| - 1] == 0 then p[..|p| - 1] else p;
            && (tag == 1 ==> Outcome(raw) == (Fields(s, [], [], Zero), Ok(())))
            && (tag == 2 ==> Outcome(raw) == (Fields([], s, [], Zero), Ok(())))
            && (tag == 3 ==> Outcome(raw) == (Fields([], [], s, Zero), Ok(())))
  {
    DecodesPayload(raw, tag, count, offset, p);
  }

  function Quad(p: Bytes, i: nat): uint32
    requires i + 4 <= |p|
  {
    p[i] as int + 256 * p[i + 1] as int + 65536 * p[i + 2] as int + 16777216 * p[i + 3] as int
  }

  lemma {:induction false} VersionBits(p: Bytes)
    ensures 4 <= |p| ==> VersionIn(11, p) == Some(Float(Quad(p, 0)))
    ensures 8 <= |p| ==> VersionIn(12, p) == Some(Double(Quad(p, 0), Quad(p, 4)))
  {
    if 4 <= |p| {
      QuadIsRead(p, 0);
    }
    if 8 <= |p| {
      QuadIsRead(p, 4);
    }
  }

  /** The version an entry of tag 5 sets, from a float of 4 or of 8 bytes; any other entry sets nothing. */
  lemma {:induction false} DecodesVersion(raw: Bytes, tag: byte, count: uint32, offset: uint32, p: Bytes)
    requires OneEntry(raw, tag, count, offset)
    requires Sized(raw[10], count).Some? && Holds(raw, Sized(raw[10], count).value, offset, p)
    ensures tag == 5 && raw[10] == 11 && 4 <= |p| ==>
              Outcome(raw) == (Fields([], [], [], Float(Quad(p, 0))), Ok(()))
    ensures tag == 5 && raw[10] == 12 && 8 <= |p| ==>
              Outcome(raw) == (Fields([], [], [], Double(Quad(p, 0), Quad(p, 4))), Ok(()))
    ensures tag !in {1, 2, 3, 5} || (tag == 5 && (raw[10] == 11 ==> |p| < 4) && (raw[10] == 12 ==> |p| < 8)) ==>
              Outcome(raw) == (Fields([], [], [], Zero), Ok(()))
  {
    DecodesPayload(raw, tag, count, offset, p);
    VersionBits(p);
  }

  /** An entry whose payload is not in the blob; the check of its end wraps around at 4 GiB. */
  lemma {:induction false} DecodesNothing(raw: Bytes, tag: byte, count: uint32, offset: uint32, size: uint32)
    requires OneEntry(raw, tag, count, offset)
    requires Sized(raw[10], count) == Some(size) && 4 < size && |raw| < offset + size
    ensures var end := (offset + size) % 0x1_0000_0000;
            Outcome(raw) == (Fields([], [], [], Zero), if end <= |raw| then Err(Overrun) else Ok(()))
  {
    OneFound(raw, tag, count, offset);
    PayloadMissing(raw, tag, count, size, offset);
  }

  /** A version held under tag 5 by a float of either size is found if no other entry has that tag. */
  lemma {:induction false} VersionIsFound(raw: Bytes, i: nat, p: Bytes)
    requires HasIndex(raw) && Faultless(FoundIn(raw)) && i < EntryCount(raw) && DistinctTags(ItemsOf(FoundIn(raw)))
    requires TagOf(EntryAt(raw, i)) == 5 && FoundIn(raw)[i].payload == Ok(Data(p))
    ensures FoundIn(raw)[i].kind == 11 && 4 <= |p| ==> Outcome(raw).0.version == Float(Quad(p, 0))
    ensures FoundIn(raw)[i].kind == 12 && 8 <= |p| ==> Outcome(raw).0.version == Double(Quad(p, 0), Quad(p, 4))
  {
    FaultlessOutcome(FoundIn(raw));
    LastOfDistinct(ItemsOf(FoundIn(raw)), 5, i);
    VersionBits(p);
  }

  /** Of two entries with the same tag the second one counts. */
  lemma {:induction false} LaterEntryCounts(a: Bytes, b: Bytes, v: byte, w: byte)
    requires |a| == |b| == 12 && a[0..3] == b[0..3] == [1, 0, 2] && v != 0 && w != 0
    requires a[4..9] == [1, 0, 0, 0, v] && b[4..9] == [1, 0, 0, 0, w]
    ensures Outcome(TwoEntries(a, b)) == (Fields([w], [], [], Zero), Ok(()))
  {
    var raw := TwoEntries(a, b);
    TwoFound(a, b);
    ModelEntry(raw, a, v);
    ModelEntry(raw, b, w);
    TwoWalked(FoundOf(raw, a), FoundOf(raw, b));
  }

  lemma {:induction false} ModelEntry(raw: Bytes, e: Bytes, v: byte)
    requires |e| == 12 && e[0..3] == [1, 0, 2] && e[4..9] == [1, 0, 0, 0, v]
    ensures FoundOf(raw, e) == Found(1, 2, Ok(Data([v])))
  {
    QuadIsRead(e, 4);
    assert forall i | 0 <= i < 3 :: e[i] == e[0..3][i];
    assert forall i | 4 <= i < 9 :: e[i] == e[4..9][i - 4];
    SizeIs(e);
    assert e[8..9] == [v];
  }
}
