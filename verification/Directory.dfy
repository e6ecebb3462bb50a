/** Directory (IFD) blobs: an 8-byte header, 12-byte index entries, out-of-line payloads (src/sigma/schema.cpp). */
module Directory {
  import opened Wrappers
  import opened Bytes

  const DIR_HEADER := 8
  const ENTRY := 12

  function EntryCount(raw: Bytes): uint32
    requires DIR_HEADER <= |raw|
  {
    ReadLe32(raw, 4)
  }

  /** The whole index lies in the blob. */
  predicate HasIndex(raw: Bytes) {
    DIR_HEADER <= |raw| && DIR_HEADER + EntryCount(raw) * ENTRY <= |raw|
  }

  /** Where the decoder looks for entry `i`, in 32-bit arithmetic. */
  function EntryOffset(i: nat): (off: uint32)
    ensures off <= DIR_HEADER + i * ENTRY
    ensures DIR_HEADER + i * ENTRY < TWO_32 ==> off == DIR_HEADER + i * ENTRY
  {
    Wrap32(DIR_HEADER + i * ENTRY)
  }

  function EntryAt(raw: Bytes, i: nat): (e: Bytes)
    requires DIR_HEADER + (i + 1) * ENTRY <= |raw|
    ensures |e| == ENTRY
  {
    raw[EntryOffset(i)..EntryOffset(i) + ENTRY]
  }

  function TagOf(e: Bytes): uint16
    requires |e| == ENTRY
  {
    ReadLe16(e, 0)
  }

  function TypeOf(e: Bytes): uint16
    requires |e| == ENTRY
  {
    ReadLe16(e, 2)
  }

  function CountOf(e: Bytes): uint32
    requires |e| == ENTRY
  {
    ReadLe32(e, 4)
  }

  /** Offset of an out-of-line payload. */
  function OffsetOf(e: Bytes): uint32
    requires |e| == ENTRY
  {
    ReadLe32(e, 8)
  }

  datatype Payload =
    | Data(bytes: Bytes)
    | OutOfBounds   // skipped by the decoder
    | Wrapped       // the 32-bit bounds check wraps around and the driver would read outside the blob

  /** The `size` payload bytes of entry `e`: in the entry itself if they fit, else at its offset. */
  function PayloadOf(raw: Bytes, e: Bytes, size: uint32): Payload
    requires |e| == ENTRY
  {
    if size <= 4 then Data(e[8..8 + size])
    else if Add32(OffsetOf(e), size) > |raw| then OutOfBounds
    else if OffsetOf(e) + size <= |raw| then Data(raw[OffsetOf(e)..OffsetOf(e) + size])
    else Wrapped
  }

  // ----- lookup by tag -----

  /** What an entry offers: its tag, and its value if the entry is usable. */
  datatype Item<T> = Item(tag: uint16, value: Option<T>)

  /** The value of the last usable item with this tag. */
  function Last<T>(items: seq<Item<T>>, tag: uint16): Option<T> {
    if items == [] then None
    else
      var item := items[|items| - 1];
      if item.tag == tag && item.value.Some? then item.value else Last(items[..|items| - 1], tag)
  }

  predicate DistinctTags<T>(items: seq<Item<T>>) {
    forall i, j | 0 <= i < j < |items| :: items[i].tag != items[j].tag
  }

  lemma {:induction false} LastOfDistinct<T>(items: seq<Item<T>>, tag: uint16, i: nat)
    requires DistinctTags(items) && i < |items| && items[i].tag == tag
    ensures Last(items, tag) == items[i].value
  {
    var n := |items| - 1;
    if i < n {
      LastOfDistinct(items[..n], tag, i);
    } else if items[n].value.None? {
      LastOfAbsent(items[..n], tag);
    }
  }

  lemma {:induction false} LastOfAbsent<T>(items: seq<Item<T>>, tag: uint16)
    requires forall i | 0 <= i < |items| :: items[i].tag != tag || items[i].value.None?
    ensures Last(items, tag) == None
  {
    if items != [] {
      LastOfAbsent(items[..|items| - 1], tag);
    }
  }

  /** Of several usable items with a tag, the one that comes last counts. */
  lemma {:induction false} LastOfMany<T>(items: seq<Item<T>>, tag: uint16, i: nat)
    requires i < |items| && items[i].tag == tag && items[i].value.Some?
    requires forall j | i < j < |items| :: items[j].tag != tag || items[j].value.None?
    ensures Last(items, tag) == items[i].value
  {
    if i < |items| - 1 {
      LastOfMany(items[..|items| - 1], tag, i);
    }
  }

  /** `p` lists the indices below `n`, each once. */
  predicate Permutation(p: seq<nat>, n: nat) {
    && |p| == n
    && (forall i | 0 <= i < n :: p[i] < n)
    && (forall i, j | 0 <= i < j < n :: p[i] != p[j])
    && (forall k: nat | k < n :: k in p)
  }

  /** The order of items with distinct tags does not matter. */
  lemma {:induction false} LastPermuted<T>(items: seq<Item<T>>, permuted: seq<Item<T>>, p: seq<nat>, tag: uint16)
    requires Permutation(p, |items|) && |permuted| == |items| && DistinctTags(items)
    requires forall i | 0 <= i < |items| :: permuted[i] == items[p[i]]
    ensures Last(permuted, tag) == Last(items, tag)
  {
    forall i, j | 0 <= i < j < |permuted| ensures permuted[i].tag != permuted[j].tag {
      assert p[i] < p[j] || p[j] < p[i];
    }
    if i: nat :| i < |permuted| && permuted[i].tag == tag {
      LastOfDistinct(permuted, tag, i);
      LastOfDistinct(items, tag, p[i]);
    } else {
      forall k | 0 <= k < |items| ensures items[k].tag != tag {
        assert k in p;
        var i :| 0 <= i < |p| && p[i] == k;
        assert permuted[i].tag != tag;
      }
      LastOfAbsent(permuted, tag);
      LastOfAbsent(items, tag);
    }
  }

  /** There are no more distinct tags than 16-bit numbers, so the index of such entries ends below 4 GiB. */
  lemma {:induction false} DistinctTagsAreFew<T>(items: seq<Item<T>>)
    requires DistinctTags(items)
    ensures |items| <= 0x1_0000
    ensures DIR_HEADER + |items| * ENTRY < TWO_32
  {
    var tags := set i | 0 <= i < |items| :: items[i].tag as int;
    TagsCounted(items, |items|);
    assert tags <= Below(0x1_0000);
    SubsetIsSmaller(tags, Below(0x1_0000));
  }

  lemma {:induction false} TagsCounted<T>(items: seq<Item<T>>, n: nat)
    requires DistinctTags(items) && n <= |items|
    ensures |set i | 0 <= i < n :: items[i].tag as int| == n
  {
    if n > 0 {
      TagsCounted(items, n - 1);
      assert (set i | 0 <= i < n :: items[i].tag as int) ==
             (set i | 0 <= i < n - 1 :: items[i].tag as int) + {items[n - 1].tag as int};
    }
  }

  function Below(n: nat): (s: set<int>)
    ensures |s| == n && forall k :: k in s <==> 0 <= k < n
  {
    if n == 0 then {} else Below(n - 1) + {n - 1}
  }

  lemma {:induction false} SubsetIsSmaller(a: set<int>, b: set<int>)
    requires a <= b
    ensures |a| <= |b|
  {
    assert b == a + (b - a);
  }

  // ----- blobs with the same entries in another order -----

  /** Where entry `i` stands, below 4 GiB. */
  function Place(i: nat): nat {
    DIR_HEADER + i * ENTRY
  }

  /** `other` is `raw` with its index entries permuted; header and payload area are the same. */
  predicate Reordered(raw: Bytes, other: Bytes, p: seq<nat>) {
    && HasIndex(raw) && |other| == |raw|
    && other[..DIR_HEADER] == raw[..DIR_HEADER]
    && other[Place(EntryCount(raw))..] == raw[Place(EntryCount(raw))..]
    && Permutation(p, EntryCount(raw))
    && forall i: nat | i < EntryCount(raw) :: EntryAt(other, i) == EntryAt(raw, p[i])
  }

  lemma {:induction false} ReorderedIndex(raw: Bytes, other: Bytes, p: seq<nat>)
    requires Reordered(raw, other, p)
    ensures HasIndex(other) && EntryCount(other) == EntryCount(raw)
  {
    assert other[..DIR_HEADER][4..8] == other[4..8] && raw[..DIR_HEADER][4..8] == raw[4..8];
    Le32Inverse(other, 4, EntryCount(raw));
    Le32Inverse(raw, 4, EntryCount(raw));
  }

  /** Byte `q` is outside the index, or the same in every entry at the same place. */
  predicate SteadyByte(raw: Bytes, q: nat)
    requires HasIndex(raw) && q < |raw|
  {
    DIR_HEADER <= q < Place(EntryCount(raw)) ==>
      forall k: nat | k < EntryCount(raw) :: raw[Place(k) + (q - DIR_HEADER) % ENTRY] == raw[q]
  }

  /** A steady byte is the same in every order. */
  lemma {:induction false} SteadyByteStays(raw: Bytes, other: Bytes, p: seq<nat>, q: nat)
    requires Reordered(raw, other, p) && Place(EntryCount(raw)) < TWO_32 && q < |raw| && SteadyByte(raw, q)
    ensures other[q] == raw[q]
  {
    var n := EntryCount(raw);
    if q < DIR_HEADER {
      assert other[..DIR_HEADER][q] == raw[..DIR_HEADER][q];
    } else if Place(n) <= q {
      assert other[Place(n)..][q - Place(n)] == raw[Place(n)..][q - Place(n)];
    } else {
      var m, r := (q - DIR_HEADER) / ENTRY, (q - DIR_HEADER) % ENTRY;
      assert q == Place(m) + r;
      assert EntryAt(other, m)[r] == EntryAt(raw, p[m])[r];
      assert raw[Place(p[m]) + r] == raw[q];
    }
  }

  /** Where byte `i` comes from when entries `a` and `b` change places. */
  function Source(a: nat, b: nat, i: nat): nat {
    if Place(a) <= i < Place(a + 1) then Place(b) + (i - Place(a))
    else if Place(b) <= i < Place(b + 1) then Place(a) + (i - Place(b))
    else i
  }

  function Swapped(raw: Bytes, a: nat, b: nat): (other: Bytes)
    requires Place(a + 1) <= |raw| && Place(b + 1) <= |raw|
    ensures |other| == |raw| && forall i: nat | i < |raw| :: other[i] == raw[Source(a, b, i)]
  {
    seq(|raw|, i requires 0 <= i < |raw| => raw[Source(a, b, i)])
  }

  function Swap(n: nat, a: nat, b: nat): seq<nat> {
    seq(n, i requires 0 <= i < n => if i == a then b else if i == b then a else i)
  }

  lemma {:induction false} SwapPermutes(n: nat, a: nat, b: nat)
    requires a < n && b < n
    ensures Permutation(Swap(n, a, b), n)
  {
    var p := Swap(n, a, b);
    forall k: nat | k < n ensures k in p {
      assert p[if k == a then b else if k == b then a else k] == k;
    }
  }

  lemma {:induction false} SwappedIsReordered(raw: Bytes, a: nat, b: nat)
    requires HasIndex(raw) && a < EntryCount(raw) && b < EntryCount(raw) && Place(EntryCount(raw)) < TWO_32
    ensures Place(a + 1) <= |raw| && Place(b + 1) <= |raw|
    ensures Reordered(raw, Swapped(raw, a, b), Swap(EntryCount(raw), a, b))
  {
    var n, other := EntryCount(raw), Swapped(raw, a, b);
    var p := Swap(n, a, b);
    SwapPermutes(n, a, b);
    forall i: nat | i < n ensures EntryAt(other, i) == EntryAt(raw, p[i]) {
      assert EntryOffset(i) == Place(i) && EntryOffset(p[i]) == Place(p[i]);
    }
    assert other[..DIR_HEADER] == raw[..DIR_HEADER];
    assert other[Place(n)..] == raw[Place(n)..];
  }

  /** A byte that is not steady differs in some order. */
  lemma {:induction false} UnsteadyByteMoves(raw: Bytes, q: nat) returns (other: Bytes, p: seq<nat>)
    requires HasIndex(raw) && Place(EntryCount(raw)) < TWO_32 && q < |raw| && !SteadyByte(raw, q)
    ensures Reordered(raw, other, p) && other[q] != raw[q]
  {
    var m, r := (q - DIR_HEADER) / ENTRY, (q - DIR_HEADER) % ENTRY;
    assert q == Place(m) + r;
    var k: nat :| k < EntryCount(raw) && raw[Place(k) + r] != raw[q];
    SwappedIsReordered(raw, m, k);
    other, p := Swapped(raw, m, k), Swap(EntryCount(raw), m, k);
    assert Source(m, k, q) == Place(k) + r;
  }

  /** A directory of two entries and nothing behind them. */
  function TwoEntries(a: Bytes, b: Bytes): Bytes
    requires |a| == |b| == ENTRY
  {
    Le32(DIR_HEADER + 2 * ENTRY) + Le32(2) + a + b
  }

  lemma {:induction false} TwoEntriesIndex(a: Bytes, b: Bytes)
    requires |a| == |b| == ENTRY
    ensures var raw := TwoEntries(a, b);
            && HasIndex(raw) && EntryCount(raw) == 2 && EntryAt(raw, 0) == a && EntryAt(raw, 1) == b
            && Reordered(raw, TwoEntries(b, a), [1, 0]) && raw[8..13] == a[..5]
  {
    var raw, other := TwoEntries(a, b), TwoEntries(b, a);
    assert raw[4..8] == Le32(2);
    Le32Inverse(raw, 4, 2);
    assert EntryAt(raw, 0) == a && EntryAt(raw, 1) == b && EntryAt(other, 0) == b && EntryAt(other, 1) == a;
    assert raw[Place(2)..] == [] == other[Place(2)..];
    assert [1, 0][0] == 1 && [1, 0][1] == 0;
  }

  // ----- blobs that decode alike in every order -----

  /** How many bytes of the payload at its offset an entry keeps in a blob of this size; none if its payload is inline. */
  type Keeps = (Bytes, nat) -> nat

  /** Every byte an entry keeps from its offset is steady. */
  predicate Steady(raw: Bytes, keeps: Keeps)
    requires HasIndex(raw)
  {
    forall i: nat, q: nat | i < EntryCount(raw) && q < |raw| && Kept(raw, keeps, EntryAt(raw, i), q) ::
      SteadyByte(raw, q)
  }

  predicate Kept(raw: Bytes, keeps: Keeps, e: Bytes, q: nat)
    requires |e| == ENTRY
  {
    OffsetOf(e) <= q < OffsetOf(e) + keeps(e, |raw|)
  }

  /** Both blobs have the same bytes where `e` keeps them. */
  predicate Alike(raw: Bytes, other: Bytes, keeps: Keeps, e: Bytes)
    requires |e| == ENTRY && |raw| == |other|
  {
    forall q: nat | q < |raw| && Kept(raw, keeps, e, q) :: other[q] == raw[q]
  }

  /** Payloads behind the index, as a camera lays them out, are steady. */
  lemma {:induction false} BehindIndexIsSteady(raw: Bytes, keeps: Keeps)
    requires HasIndex(raw)
    requires forall i: nat | i < EntryCount(raw) ::
               keeps(EntryAt(raw, i), |raw|) == 0 || Place(EntryCount(raw)) <= OffsetOf(EntryAt(raw, i))
    ensures Steady(raw, keeps)
  {
  }

  /** What an entry keeps of a payload that stands at its offset is the start of the payload. */
  lemma {:induction false} KeptStart(raw: Bytes, other: Bytes, keeps: Keeps, e: Bytes, size: nat)
    requires |e| == ENTRY && |raw| == |other| && keeps(e, |raw|) <= size && OffsetOf(e) + size <= |raw|
    ensures var from, kept := OffsetOf(e), keeps(e, |raw|);
            Alike(raw, other, keeps, e) <==> raw[from..from + size][..kept] == other[from..from + size][..kept]
  {
    var from, kept := OffsetOf(e), keeps(e, |raw|);
    var a, b := raw[from..from + size][..kept], other[from..from + size][..kept];
    assert forall q: nat | from <= q < from + kept :: a[q - from] == raw[q] && b[q - from] == other[q];
    assert forall k | 0 <= k < kept :: a[k] == raw[from + k] && b[k] == other[from + k];
  }

  lemma {:induction false} AlikeInAnyOrder(raw: Bytes, other: Bytes, p: seq<nat>, keeps: Keeps)
    requires Reordered(raw, other, p)
    ensures (forall i: nat | i < EntryCount(raw) :: Alike(raw, other, keeps, EntryAt(raw, p[i]))) <==>
            (forall i: nat | i < EntryCount(raw) :: Alike(raw, other, keeps, EntryAt(raw, i)))
  {
    if forall i: nat | i < EntryCount(raw) :: Alike(raw, other, keeps, EntryAt(raw, p[i])) {
      forall k: nat | k < EntryCount(raw) ensures Alike(raw, other, keeps, EntryAt(raw, k)) {
        assert k in p;
        var i :| 0 <= i < |p| && p[i] == k;
      }
    }
  }

  /** A blob is steady if and only if every order leaves the kept bytes of all its entries alone. */
  lemma {:induction false} SteadyIffAlike(raw: Bytes, keeps: Keeps)
    requires HasIndex(raw) && Place(EntryCount(raw)) < TWO_32
    ensures Steady(raw, keeps) <==>
            forall other, p, i: nat | Reordered(raw, other, p) && i < EntryCount(raw) ::
              Alike(raw, other, keeps, EntryAt(raw, i))
  {
    if Steady(raw, keeps) {
      forall other, p, i: nat, q: nat |
        Reordered(raw, other, p) && i < EntryCount(raw) && q < |raw| && Kept(raw, keeps, EntryAt(raw, i), q)
        ensures other[q] == raw[q]
      {
        SteadyByteStays(raw, other, p, q);
      }
    } else {
      var i: nat, q: nat :|
        i < EntryCount(raw) && q < |raw| && Kept(raw, keeps, EntryAt(raw, i), q) && !SteadyByte(raw, q);
      var other, p := UnsteadyByteMoves(raw, q);
      assert Reordered(raw, other, p) && !Alike(raw, other, keeps, EntryAt(raw, i));
    }
  }

  // ----- blobs of one entry, by byte numbers -----

  /** One entry, whatever the size in the header and the bytes behind the entry. */
  predicate OneEntry(raw: Bytes, tag: byte, count: uint32, offset: uint32) {
    && 20 <= |raw| && raw[4..8] == [1, 0, 0, 0] && raw[8] == tag && raw[9] == 0
    && count == raw[12] as int + 256 * raw[13] as int + 65536 * raw[14] as int + 16777216 * raw[15] as int
    && offset == raw[16] as int + 256 * raw[17] as int + 65536 * raw[18] as int + 16777216 * raw[19] as int
  }

  lemma {:induction false} OneEntryIs(raw: Bytes, tag: byte, count: uint32, offset: uint32)
    requires OneEntry(raw, tag, count, offset)
    ensures HasIndex(raw) && EntryCount(raw) == 1
    ensures var e := EntryAt(raw, 0);
            && e == raw[8..20] && TagOf(e) == tag && CountOf(e) == count && OffsetOf(e) == offset
            && TypeOf(e) == raw[10] as int + 256 * raw[11] as int
  {
    QuadIsRead(raw, 4);
    assert forall i | 4 <= i < 8 :: raw[i] == raw[4..8][i - 4];
    var e := raw[8..20];
    QuadIsRead(e, 4);
    QuadIsRead(e, 8);
  }

  /** Its payload of `size` bytes: in the entry, or from the offset on. */
  predicate Holds(raw: Bytes, size: uint32, offset: uint32, p: Bytes)
    requires 20 <= |raw|
  {
    if size <= 4 then p == raw[16..16 + size] else offset + size <= |raw| && p == raw[offset..offset + size]
  }

  lemma {:induction false} PayloadHeld(raw: Bytes, tag: byte, count: uint32, size: uint32, offset: uint32, p: Bytes)
    requires OneEntry(raw, tag, count, offset) && Holds(raw, size, offset, p)
    ensures HasIndex(raw) && EntryCount(raw) == 1 && PayloadOf(raw, EntryAt(raw, 0), size) == Data(p)
  {
    OneEntryIs(raw, tag, count, offset);
    WrapsAround(0, offset, size);
    assert size <= 4 ==> raw[8..20][8..8 + size] == raw[16..16 + size];
  }

  lemma {:induction false} PayloadMissing(raw: Bytes, tag: byte, count: uint32, size: uint32, offset: uint32)
    requires OneEntry(raw, tag, count, offset) && 4 < size && |raw| < offset + size
    ensures HasIndex(raw) && EntryCount(raw) == 1
    ensures PayloadOf(raw, EntryAt(raw, 0), size) ==
            if (offset + size) % 0x1_0000_0000 <= |raw| then Wrapped else OutOfBounds
  {
    OneEntryIs(raw, tag, count, offset);
    WrapsAround(0, offset, size);
  }
}
