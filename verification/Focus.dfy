/** The focus settings directory (CamDataGroupFocus of src/sigma/schema.cpp). */
module Focus {
  import opened Wrappers
  import opened Bytes
  import opened Directory

  datatype Fields = Fields(
    focusMode: Option<byte>, afLock: Option<byte>, faceEyeAF: Option<byte>, faceEyeAFStatus: Option<byte>,
    focusArea: Option<byte>, onePointSelection: Option<byte>, dmfSize: Option<byte>, dmfPos: Option<Bytes>,
    dmfDetection: Option<Bytes>, preConstAF: Option<byte>, focusLimit: Option<byte>)

  /** No field set. */
  const CLEARED: Fields := Fields(None, None, None, None, None, None, None, None, None, None, None)

  const UINT8: uint16 := 1

  // ----- decoding -----

  /** An entry as the decoder sees it: the type is ignored, the count is the size. */
  datatype Found = Found(tag: uint16, payload: Payload)

  function FoundAt(raw: Bytes, i: nat): Found
    requires DIR_HEADER + (i + 1) * ENTRY <= |raw|
  {
    FoundOf(raw, EntryAt(raw, i))
  }

  function FoundOf(raw: Bytes, e: Bytes): Found
    requires |e| == ENTRY
  {
    Found(TagOf(e), PayloadOf(raw, e, CountOf(e)))
  }

  function FoundIn(raw: Bytes): (fs: seq<Found>)
    requires HasIndex(raw)
    ensures |fs| == EntryCount(raw)
  {
    seq(EntryCount(raw), i requires 0 <= i < EntryCount(raw) => FoundAt(raw, i))
  }

  /** The field an entry sets. */
  function Assign(f: Fields, tag: uint16, payload: Bytes): Fields {
    if payload == [] then f
    else if tag == 0x1 then f.(focusMode := Some(payload[0]))
    else if tag == 0x2 then f.(afLock := Some(payload[0]))
    else if tag == 0x3 then f.(faceEyeAF := Some(payload[0]))
    else if tag == 0x4 then f.(faceEyeAFStatus := Some(payload[0]))
    else if tag == 0x10 then f.(focusArea := Some(payload[0]))
    else if tag == 0x11 then f.(onePointSelection := Some(payload[0]))
    else if tag == 0x12 then f.(dmfSize := Some(payload[0]))
    else if tag == 0x13 then f.(dmfPos := Some(payload))
    else if tag == 0x14 then f.(dmfDetection := Some(payload))
    else if tag == 0x51 then f.(preConstAF := Some(payload[0]))
    else if tag == 0x52 then f.(focusLimit := Some(payload[0]))
    else f
  }

  /** What one entry makes of the fields so far; an error when it would be read outside the blob. */
  function Applied(f: Result<Fields>, found: Found): Result<Fields> {
    if f.Err? then f
    else match found.payload
         case Data(bytes) => Ok(Assign(f.value, found.tag, bytes))
         case OutOfBounds => f
         case Wrapped => Err(Overrun)
  }

  function DecodedFrom(fs: seq<Found>): Result<Fields> {
    if fs == [] then Ok(CLEARED) else Applied(DecodedFrom(fs[..|fs| - 1]), fs[|fs| - 1])
  }

  function Decoded(raw: Bytes): Result<Fields> {
    if HasIndex(raw) then DecodedFrom(FoundIn(raw)) else Ok(CLEARED)
  }

  // ----- encoding -----

  datatype Entry = Entry(tag: uint16, payload: Bytes)

  /** The four bytes at the end of an index entry: the padded payload, or the offset just after the index. */
  function Tail(payload: Bytes, size: uint32): (b: Bytes)
    ensures |b| == 4
  {
    if |payload| <= 4 then payload + Zeros(4 - |payload|) else Le32(size)
  }

  function EntryHead(e: Entry): (b: Bytes)
    ensures |b| == 8
  {
    Le16(e.tag) + Le16(UINT8) + Le32(Wrap32(|e.payload|))
  }

  function EntryBytes(e: Entry, size: uint32): (b: Bytes)
    ensures |b| == ENTRY
  {
    EntryHead(e) + Tail(e.payload, size)
  }

  /** Header and the first `n` index entries of a blob of `size` bytes. */
  function Index(xs: seq<Entry>, size: uint32, n: nat): (b: Bytes)
    requires n <= |xs| < TWO_32
    ensures |b| == DIR_HEADER + n * ENTRY
  {
    if n == 0 then Le32(size) + Le32(|xs|) else Index(xs, size, n - 1) + EntryBytes(xs[n - 1], size)
  }

  function Blob(xs: seq<Entry>): Bytes
    requires DIR_HEADER + |xs| * ENTRY < TWO_32
  {
    Index(xs, DIR_HEADER + |xs| * ENTRY, |xs|)
  }

  /** Settable fields with their tags, as the encoder goes through them. */
  function Listing(f: Fields): (l: seq<(uint16, Option<Bytes>)>)
    ensures |l| == 9
  {
    [(0x1, Single(f.focusMode)), (0x2, Single(f.afLock)), (0x3, Single(f.faceEyeAF)), (0x10, Single(f.focusArea)),
     (0x11, Single(f.onePointSelection)), (0x12, Single(f.dmfSize)), (0x13, f.dmfPos), (0x51, Single(f.preConstAF)),
     (0x52, Single(f.focusLimit))]
  }

  function Single(v: Option<byte>): Option<Bytes> {
    if v.Some? then Some([v.value]) else None
  }

  /** The entries made of the first `n` listed fields. */
  function Gathered(l: seq<(uint16, Option<Bytes>)>, n: nat): (xs: seq<Entry>)
    requires n <= |l|
    ensures |xs| <= n
  {
    if n == 0 then []
    else if l[n - 1].1.Some? then Gathered(l, n - 1) + [Entry(l[n - 1].0, l[n - 1].1.value)]
    else Gathered(l, n - 1)
  }

  function Entries(f: Fields): (xs: seq<Entry>)
    ensures |xs| <= 9
  {
    Gathered(Listing(f), 9)
  }

  function Encoded(f: Fields): Bytes {
    Blob(Entries(f))
  }

  /** The index while the encoder has stored `n` entries. */
  function Partial(xs: seq<Entry>, size: uint32, n: nat): Bytes
    requires n <= |xs| < TWO_32 && size == DIR_HEADER + |xs| * ENTRY
  {
    Index(xs, size, n) + Zeros((|xs| - n) * ENTRY)
  }

  lemma {:induction false} IndexBegins(xs: seq<Entry>, size: uint32)
    requires |xs| < TWO_32 && size == DIR_HEADER + |xs| * ENTRY
    ensures Patched(Patched(Zeros(size), 0, Le32(size)), 4, Le32(|xs|)) == Partial(xs, size, 0)
  {
    PatchedTwice(Zeros(size), 0, Le32(size), Le32(|xs|));
  }

  lemma {:induction false} PartialStep(xs: seq<Entry>, size: uint32, n: nat)
    requires n < |xs| < TWO_32 && size == DIR_HEADER + |xs| * ENTRY
    ensures DIR_HEADER + (n + 1) * ENTRY <= |Partial(xs, size, n)| == size
    ensures Partial(xs, size, n)[DIR_HEADER + n * ENTRY..DIR_HEADER + n * ENTRY + ENTRY] == Zeros(ENTRY)
    ensures Patched(Partial(xs, size, n), DIR_HEADER + n * ENTRY, EntryBytes(xs[n], size)) == Partial(xs, size, n + 1)
  {
    var at := DIR_HEADER + n * ENTRY;
    assert Partial(xs, size, n)[at + ENTRY..] == Zeros((|xs| - (n + 1)) * ENTRY);
    assert Partial(xs, size, n)[..at] == Index(xs, size, n);
  }

  lemma {:induction false} PartialEnds(xs: seq<Entry>, size: uint32)
    requires |xs| < TWO_32 && size == DIR_HEADER + |xs| * ENTRY
    ensures Partial(xs, size, |xs|) == Blob(xs)
  {
  }

  lemma {:induction false} DecodeStep(fs: seq<Found>, i: nat)
    requires i < |fs|
    ensures DecodedFrom(fs[..i + 1]) == Applied(DecodedFrom(fs[..i]), fs[i])
  {
    assert fs[..i + 1][..i] == fs[..i];
  }

  lemma {:induction false} ErrorSticks(fs: seq<Found>, n: nat)
    requires n <= |fs| && DecodedFrom(fs[..n]).Err?
    ensures DecodedFrom(fs) == DecodedFrom(fs[..n])
    decreases |fs| - n
  {
    if n < |fs| {
      assert fs[..n + 1][..n] == fs[..n];
      ErrorSticks(fs, n + 1);
    } else {
      assert fs[..n] == fs;
    }
  }

  // ----- the object -----

  class CamDataGroupFocus {
    var fields: Fields

    constructor ()
      ensures fields == CLEARED
    {
      fields := CLEARED;
    }

    method Push(xs: seq<Entry>, tag: uint16, v: Option<Bytes>, ghost l: seq<(uint16, Option<Bytes>)>, ghost n: nat)
      returns (xs': seq<Entry>)
      requires n < |l| && l[n] == (tag, v) && xs == Gathered(l, n)
      ensures xs' == Gathered(l, n + 1)
    {
      xs' := xs;
      if v.Some? {
        xs' := xs' + [Entry(tag, v.value)];
      }
    }

    method Gather() returns (xs: seq<Entry>)
      ensures xs == Entries(fields)
    {
      ghost var l := Listing(fields);
      xs := [];
      xs := Push(xs, 0x1, Single(fields.focusMode), l, 0);
      xs := Push(xs, 0x2, Single(fields.afLock), l, 1);
      xs := Push(xs, 0x3, Single(fields.faceEyeAF), l, 2);
      xs := Push(xs, 0x10, Single(fields.focusArea), l, 3);
      xs := Push(xs, 0x11, Single(fields.onePointSelection), l, 4);
      xs := Push(xs, 0x12, Single(fields.dmfSize), l, 5);
      xs := Push(xs, 0x13, fields.dmfPos, l, 6);
      xs := Push(xs, 0x51, Single(fields.preConstAF), l, 7);
      xs := Push(xs, 0x52, Single(fields.focusLimit), l, 8);
    }

    method Encode() returns (blob: Bytes)
      ensures blob == Encoded(fields)
    {
      var xs := Gather();
      blob := Serialize(xs);
    }

    /** The index, filled by stores at computed offsets. */
    method Serialize(xs: seq<Entry>) returns (blob: Bytes)
      requires DIR_HEADER + |xs| * ENTRY < TWO_32
      ensures blob == Blob(xs)
    {
      var size := DIR_HEADER + |xs| * ENTRY;
      var idx := WriteHeader(xs, size);
      AddEntries(idx, xs);
      return idx[..];
    }

    /** The encoder's loop. */
    method AddEntries(idx: array<byte>, xs: seq<Entry>)
      requires idx.Length == DIR_HEADER + |xs| * ENTRY < TWO_32 && idx[..] == Partial(xs, idx.Length, 0)
      modifies idx
      ensures idx[..] == Blob(xs)
    {
      for i := 0 to |xs|
        invariant idx[..] == Partial(xs, idx.Length, i)
      {
        AddEntry(idx, xs, i);
      }
      PartialEnds(xs, idx.Length);
    }

    method WriteHeader(xs: seq<Entry>, size: uint32) returns (idx: array<byte>)
      requires size == DIR_HEADER + |xs| * ENTRY
      ensures fresh(idx) && idx.Length == size && idx[..] == Partial(xs, size, 0)
    {
      idx := new byte[size](_ => 0);
      assert idx[..] == Zeros(size);
      IndexBegins(xs, size);
      Put32LeAt(idx, size, 0);
      Put32LeAt(idx, |xs|, 4);
    }

    /** The encoder's loop body. */
    method AddEntry(idx: array<byte>, xs: seq<Entry>, i: nat)
      requires i < |xs| && idx.Length == DIR_HEADER + |xs| * ENTRY < TWO_32 && idx[..] == Partial(xs, idx.Length, i)
      modifies idx
      ensures idx[..] == Partial(xs, idx.Length, i + 1)
    {
      PartialStep(xs, idx.Length, i);
      WriteEntry(idx, xs[i], DIR_HEADER + i * ENTRY);
    }

    /** One index entry, stored at `off` over zero bytes. */
    method WriteEntry(idx: array<byte>, e: Entry, off: nat)
      requires off + ENTRY <= idx.Length < TWO_32 && idx[off..off + ENTRY] == Zeros(ENTRY)
      modifies idx
      ensures idx[..] == Patched(old(idx[..]), off, EntryBytes(e, idx.Length))
    {
      ghost var s := idx[..];
      WriteHead(idx, e, off);
      assert forall k | off + 8 <= k < off + ENTRY :: idx[k] == s[k] == s[off..off + ENTRY][k - off] == 0;
      WriteTail(idx, e.payload, off + 8);
      PatchedTwice(s, off, EntryHead(e), Tail(e.payload, idx.Length));
    }

    /** Tag, type and count. */
    method WriteHead(idx: array<byte>, e: Entry, off: nat)
      requires off + 8 <= idx.Length
      modifies idx
      ensures idx[..] == Patched(old(idx[..]), off, EntryHead(e))
    {
      ghost var s := idx[..];
      var count := Wrap32(|e.payload|);
      Put16LeAt(idx, e.tag, off);
      Put16LeAt(idx, UINT8, off + 2);
      PatchedTwice(s, off, Le16(e.tag), Le16(UINT8));
      Put32LeAt(idx, count, off + 4);
      PatchedTwice(s, off, Le16(e.tag) + Le16(UINT8), Le32(count));
    }

    /** The payload or, if it is too long, the offset after the index. */
    method WriteTail(idx: array<byte>, payload: Bytes, pos: nat)
      requires pos + 4 <= idx.Length < TWO_32 && forall k | pos <= k < pos + 4 :: idx[k] == 0
      modifies idx
      ensures idx[..] == Patched(old(idx[..]), pos, Tail(payload, idx.Length))
    {
      if |payload| <= 4 {
        forall k | 0 <= k < |payload| {
          idx[pos + k] := payload[k];
        }
      } else {
        var ofs: uint32 := idx.Length;
        Put32LeAt(idx, ofs, pos);
      }
    }

    /** The switch of the decoder. */
    method AssignField(tag: uint16, bytes: Bytes)
      modifies this
      ensures fields == Assign(old(fields), tag, bytes)
    {
      if bytes == [] {
        return;
      }
      var v := bytes[0];
      match tag {
        case 0x1 => fields := fields.(focusMode := Some(v));
        case 0x2 => fields := fields.(afLock := Some(v));
        case 0x3 => fields := fields.(faceEyeAF := Some(v));
        case 0x4 => fields := fields.(faceEyeAFStatus := Some(v));
        case 0x10 => fields := fields.(focusArea := Some(v));
        case 0x11 => fields := fields.(onePointSelection := Some(v));
        case 0x12 => fields := fields.(dmfSize := Some(v));
        case 0x13 => fields := fields.(dmfPos := Some(bytes));
        case 0x14 => fields := fields.(dmfDetection := Some(bytes));
        case 0x51 => fields := fields.(preConstAF := Some(v));
        case 0x52 => fields := fields.(focusLimit := Some(v));
        case _ =>
      }
    }

    /** The body of the decoder's loop; false when the payload would be read outside the blob. */
    method DecodeEntry(raw: Bytes, i: nat) returns (inside: bool)
      requires DIR_HEADER + (i + 1) * ENTRY <= |raw|
      modifies this
      ensures Applied(Ok(old(fields)), FoundAt(raw, i)) == if inside then Ok(fields) else Err(Overrun)
    {
      var e := EntryAt(raw, i);
      var payload := PayloadOf(raw, e, CountOf(e));
      inside := !payload.Wrapped?;
      if payload.Data? {
        AssignField(TagOf(e), payload.bytes);
      }
    }

    method Decode(raw: Bytes) returns (r: Result<()>)
      modifies this
      ensures r.Ok? <==> Decoded(raw).Ok?
      ensures r.Ok? ==> fields == Decoded(raw).value
      ensures r.Err? ==> r.error == Overrun
    {
      fields := CLEARED;
      if |raw| < DIR_HEADER {
        return Ok(());
      }
      var count := EntryCount(raw);
      if |raw| < DIR_HEADER + count * ENTRY {
        return Ok(());
      }
      ghost var fs := FoundIn(raw);
      var i := 0;
      while i < count
        invariant 0 <= i <= count && DecodedFrom(fs[..i]) == Ok(fields)
      {
        DecodeStep(fs, i);
        var inside := DecodeEntry(raw, i);
        i := i + 1;
        if !inside {
          ErrorSticks(fs, i);
          return Err(Overrun);
        }
      }
      assert fs[..count] == fs;
      return Ok(());
    }
  }

  // ----- lookup semantics -----

  /** Manual-focus positions and detections are kept whole; of any other field, the first byte is. */
  predicate IsWhole(tag: uint16) {
    tag == 0x13 || tag == 0x14
  }

  predicate IsKnown(tag: uint16) {
    tag in {0x1, 0x2, 0x3, 0x4, 0x10, 0x11, 0x12, 0x13, 0x14, 0x51, 0x52}
  }

  /**
   An entry as a tagged value, of the bytes the decoder keeps of its payload. It is usable
   if its tag is known and its payload is in bounds and not empty.
   */
  function ItemOf(found: Found): Item<Bytes> {
    var p := found.payload;
    Item(found.tag, if !IsKnown(found.tag) || !p.Data? || p.bytes == [] then None
                    else Some(if IsWhole(found.tag) then p.bytes else p.bytes[..1]))
  }

  function ItemsOf(fs: seq<Found>): (items: seq<Item<Bytes>>)
    ensures |items| == |fs|
  {
    seq(|fs|, i requires 0 <= i < |fs| => ItemOf(fs[i]))
  }

  function Head(v: Option<Bytes>): Option<byte> {
    if v.Some? && v.value != [] then Some(v.value[0]) else None
  }

  /** Every field from the last usable entry with its tag. */
  function LookedUp(items: seq<Item<Bytes>>): Fields {
    Fields(Head(Last(items, 0x1)), Head(Last(items, 0x2)), Head(Last(items, 0x3)), Head(Last(items, 0x4)),
           Head(Last(items, 0x10)), Head(Last(items, 0x11)), Head(Last(items, 0x12)), Last(items, 0x13),
           Last(items, 0x14), Head(Last(items, 0x51)), Head(Last(items, 0x52)))
  }

  /** No bounds check wraps around. */
  predicate Inside(fs: seq<Found>) {
    forall found | found in fs :: !found.payload.Wrapped?
  }

  lemma {:induction false} LastOfMore(items: seq<Item<Bytes>>, item: Item<Bytes>, tag: uint16)
    ensures Last(items + [item], tag) == if item.tag == tag && item.value.Some? then item.value else Last(items, tag)
  {
    assert (items + [item])[..|items|] == items;
  }

  /** One more entry: the decoder's switch keeps the lookup up to date. */
  lemma {:induction false} LookupStep(fs: seq<Found>, found: Found)
    requires !found.payload.Wrapped?
    ensures Applied(Ok(LookedUp(ItemsOf(fs))), found) == Ok(LookedUp(ItemsOf(fs + [found])))
  {
    assert ItemsOf(fs + [found]) == ItemsOf(fs) + [ItemOf(found)];
    forall tag: uint16 {
      LastOfMore(ItemsOf(fs), ItemOf(found), tag);
    }
  }

  lemma {:induction false} LookupAll(fs: seq<Found>)
    requires Inside(fs)
    ensures DecodedFrom(fs) == Ok(LookedUp(ItemsOf(fs)))
  {
    if fs != [] {
      var n := |fs| - 1;
      LookupAll(fs[..n]);
      LookupStep(fs[..n], fs[n]);
      assert fs[..n] + [fs[n]] == fs;
    }
  }

  lemma {:induction false} OutsideFails(fs: seq<Found>)
    requires !Inside(fs)
    ensures DecodedFrom(fs) == Err(Overrun)
  {
    var n := |fs| - 1;
    if Inside(fs[..n]) {
      LookupAll(fs[..n]);
      assert fs == fs[..n] + [fs[n]];
    } else {
      OutsideFails(fs[..n]);
    }
  }

  /**
   Decoding succeeds if and only if no entry would be read outside the blob, and then takes
   every field from the last usable entry with its tag.
   */
  lemma {:induction false} DecodeLooksUp(raw: Bytes)
    ensures HasIndex(raw) ==>
              Decoded(raw) == if Inside(FoundIn(raw)) then Ok(LookedUp(ItemsOf(FoundIn(raw)))) else Err(Overrun)
    ensures !HasIndex(raw) ==> Decoded(raw) == Ok(CLEARED)
  {
    if HasIndex(raw) {
      if Inside(FoundIn(raw)) {
        LookupAll(FoundIn(raw));
      } else {
        OutsideFails(FoundIn(raw));
      }
    }
  }

  // ----- the order of the entries -----

  /** How many bytes an entry keeps from its offset, in a blob of `total` bytes. */
  function Keeping(e: Bytes, total: nat): nat {
    if |e| != ENTRY || CountOf(e) <= 4 || OffsetOf(e) + CountOf(e) > total || !IsKnown(TagOf(e)) then 0
    else if IsWhole(TagOf(e)) then CountOf(e)
    else 1
  }

  /** Entry `e` offers the same in blobs of one size if and only if the bytes it keeps are the same. */
  lemma {:induction false} SameItem(raw: Bytes, other: Bytes, e: Bytes)
    requires |e| == ENTRY && |raw| == |other|
    ensures ItemOf(FoundOf(other, e)) == ItemOf(FoundOf(raw, e)) <==> Alike(raw, other, Keeping, e)
  {
    var from: nat, size: nat, kept := OffsetOf(e), CountOf(e), Keeping(e, |raw|);
    if 0 < kept {
      var a, b := raw[from..from + size], other[from..from + size];
      assert FoundOf(raw, e).payload == Data(a) && FoundOf(other, e).payload == Data(b);
      KeptStart(raw, other, Keeping, e, size);
      assert a[..size] == a && b[..size] == b;
    }
  }

  lemma {:induction false} SameStatus(raw: Bytes, other: Bytes, e: Bytes)
    requires |e| == ENTRY && |raw| == |other|
    ensures var x, y := FoundOf(raw, e), FoundOf(other, e);
            && x.tag == y.tag && x.payload.Wrapped? == y.payload.Wrapped?
            && ItemOf(x).value.Some? == ItemOf(y).value.Some?
  {
  }

  /** Items as they are made of entries. */
  predicate Shaped(items: seq<Item<Bytes>>) {
    forall i | 0 <= i < |items| && items[i].value.Some? ::
      IsKnown(items[i].tag) && items[i].value.value != [] && (IsWhole(items[i].tag) || |items[i].value.value| == 1)
  }

  lemma {:induction false} LastShaped(items: seq<Item<Bytes>>, tag: uint16)
    requires Shaped(items)
    ensures var v := Last(items, tag); v.Some? ==> v.value != [] && (IsWhole(tag) || |v.value| == 1)
  {
    if items != [] {
      LastShaped(items[..|items| - 1], tag);
    }
  }

  /** The fields determine what was looked up. */
  lemma {:induction false} LookupIsInjective(xs: seq<Item<Bytes>>, ys: seq<Item<Bytes>>, tag: uint16)
    requires Shaped(xs) && Shaped(ys) && LookedUp(xs) == LookedUp(ys) && IsKnown(tag)
    ensures Last(xs, tag) == Last(ys, tag)
  {
    LastShaped(xs, tag);
    LastShaped(ys, tag);
    if !IsWhole(tag) {
      var x, y := Last(xs, tag), Last(ys, tag);
      assert Head(x) == Head(y);
      assert x.Some? ==> x.value == [x.value[0]];
      assert y.Some? ==> y.value == [y.value[0]];
    }
  }

  lemma {:induction false} PermutedStatus(fs: seq<Found>, gs: seq<Found>, p: seq<nat>)
    requires Permutation(p, |fs|) && |gs| == |fs|
    requires forall i: nat | i < |fs| :: gs[i].tag == fs[p[i]].tag && gs[i].payload.Wrapped? == fs[p[i]].payload.Wrapped?
    ensures Inside(gs) <==> Inside(fs)
    ensures DistinctTags(ItemsOf(fs)) ==> DistinctTags(ItemsOf(gs))
  {
    forall k: nat | k < |fs| ensures exists i: nat :: i < |gs| && gs[i].payload.Wrapped? == fs[k].payload.Wrapped? {
      assert k in p;
      var i :| 0 <= i < |p| && p[i] == k;
    }
    forall i, j | 0 <= i < j < |fs| && DistinctTags(ItemsOf(fs)) ensures gs[i].tag != gs[j].tag {
      var a, b := ItemsOf(fs)[p[i]], ItemsOf(fs)[p[j]];
      assert p[i] < p[j] || p[j] < p[i];
    }
  }

  /** Entry by entry, two orders offer the same tags; and the same values where the kept bytes are the same. */
  lemma {:induction false} ReorderedFound(raw: Bytes, other: Bytes, p: seq<nat>)
    requires Reordered(raw, other, p)
    ensures HasIndex(other) && EntryCount(other) == EntryCount(raw)
    ensures forall i: nat | i < EntryCount(raw) ::
              var x, y := FoundIn(raw)[p[i]], FoundIn(other)[i];
              && y.tag == x.tag && y.payload.Wrapped? == x.payload.Wrapped?
              && ItemOf(y).value.Some? == ItemOf(x).value.Some?
              && (ItemOf(y) == ItemOf(x) <==> Alike(raw, other, Keeping, EntryAt(raw, p[i])))
  {
    ReorderedIndex(raw, other, p);
    forall i: nat | i < EntryCount(raw)
      ensures var x, y := FoundIn(raw)[p[i]], FoundIn(other)[i];
              && y.tag == x.tag && y.payload.Wrapped? == x.payload.Wrapped?
              && ItemOf(y).value.Some? == ItemOf(x).value.Some?
              && (ItemOf(y) == ItemOf(x) <==> Alike(raw, other, Keeping, EntryAt(raw, p[i])))
    {
      var e := EntryAt(raw, p[i]);
      assert FoundIn(other)[i] == FoundOf(other, e);
      SameStatus(raw, other, e);
      SameItem(raw, other, e);
    }
  }

  /** Items in another order are looked up alike if and only if they are the same. */
  lemma {:induction false} PermutedLookup(xs: seq<Item<Bytes>>, ys: seq<Item<Bytes>>, p: seq<nat>)
    requires Permutation(p, |xs|) && |ys| == |xs| && DistinctTags(xs) && DistinctTags(ys) && Shaped(xs) && Shaped(ys)
    requires forall i: nat | i < |xs| :: ys[i].tag == xs[p[i]].tag && ys[i].value.Some? == xs[p[i]].value.Some?
    ensures LookedUp(ys) == LookedUp(xs) <==> forall i: nat | i < |xs| :: ys[i] == xs[p[i]]
  {
    if LookedUp(ys) == LookedUp(xs) {
      forall i: nat | i < |xs| ensures ys[i] == xs[p[i]] {
        if ys[i].value.Some? {
          LookupIsInjective(xs, ys, ys[i].tag);
          LastOfDistinct(ys, ys[i].tag, i);
          LastOfDistinct(xs, ys[i].tag, p[i]);
        }
      }
    } else if forall i: nat | i < |xs| :: ys[i] == xs[p[i]] {
      forall tag: uint16 ensures Last(ys, tag) == Last(xs, tag) {
        LastPermuted(xs, ys, p, tag);
      }
    }
  }

  /** Entries in another order, but for bytes that they keep, decode alike if and only if they offer the same. */
  lemma {:induction false} PermutedDecode(fs: seq<Found>, gs: seq<Found>, p: seq<nat>)
    requires Permutation(p, |fs|) && |gs| == |fs| && Inside(fs) && DistinctTags(ItemsOf(fs))
    requires forall i: nat | i < |fs| ::
               && gs[i].tag == fs[p[i]].tag && gs[i].payload.Wrapped? == fs[p[i]].payload.Wrapped?
               && ItemOf(gs[i]).value.Some? == ItemOf(fs[p[i]]).value.Some?
    ensures DecodedFrom(gs) == DecodedFrom(fs) <==> forall i: nat | i < |fs| :: ItemOf(gs[i]) == ItemOf(fs[p[i]])
  {
    PermutedStatus(fs, gs, p);
    LookupAll(fs);
    LookupAll(gs);
    var xs, ys := ItemsOf(fs), ItemsOf(gs);
    PermutedLookup(xs, ys, p);
    assert forall i: nat | i < |fs| :: ys[i] == ItemOf(gs[i]) && xs[p[i]] == ItemOf(fs[p[i]]);
  }

  /** Another order decodes alike if and only if all kept bytes are the same there. */
  lemma {:induction false} OrderDecodes(raw: Bytes, other: Bytes, p: seq<nat>)
    requires Reordered(raw, other, p) && Inside(FoundIn(raw)) && DistinctTags(ItemsOf(FoundIn(raw)))
    ensures Decoded(other) == Decoded(raw) <==>
            forall i: nat | i < EntryCount(raw) :: Alike(raw, other, Keeping, EntryAt(raw, i))
  {
    ReorderedFound(raw, other, p);
    PermutedDecode(FoundIn(raw), FoundIn(other), p);
    AlikeInAnyOrder(raw, other, p, Keeping);
  }

  /**
   For entries with distinct tags: every order decodes alike if and only if the driver fails
   on all of them, or every byte kept from an out-of-line payload is outside the index or
   the same in every entry at its place.
   */
  lemma {:induction false} EntryOrderDoesNotMatter(raw: Bytes)
    requires HasIndex(raw) && DistinctTags(ItemsOf(FoundIn(raw)))
    ensures (forall other, p | Reordered(raw, other, p) :: Decoded(other) == Decoded(raw)) <==>
            (Inside(FoundIn(raw)) ==> Steady(raw, Keeping))
  {
    DistinctTagsAreFew(ItemsOf(FoundIn(raw)));
    if Inside(FoundIn(raw)) {
      forall other, p | Reordered(raw, other, p)
        ensures Decoded(other) == Decoded(raw) <==>
                forall i: nat | i < EntryCount(raw) :: Alike(raw, other, Keeping, EntryAt(raw, i))
      {
        OrderDecodes(raw, other, p);
      }
      SteadyIffAlike(raw, Keeping);
    } else {
      forall other, p | Reordered(raw, other, p) ensures Decoded(other) == Decoded(raw) {
        ReorderedFound(raw, other, p);
        PermutedStatus(FoundIn(raw), FoundIn(other), p);
        DecodeLooksUp(raw);
        DecodeLooksUp(other);
      }
    }
  }

  /** A five-byte position at offset 8, where the first entry of the index stands; and a focus mode. */
  const POSITION_START: Bytes := [0x13, 0, 1, 0, 5]
  const MODE_START: Bytes := [1, 0, 1, 0, 1]
  const OVERLAPPING: Bytes := POSITION_START + [0, 0, 0, 8, 0, 0, 0]
  const INLINE: Bytes := MODE_START + [0, 0, 0, 7, 0, 0, 0]

  lemma {:induction false} OverlapDecodes(a: Bytes, b: Bytes)
    requires (a == OVERLAPPING && b == INLINE) || (a == INLINE && b == OVERLAPPING)
    ensures var raw := TwoEntries(a, b);
            && HasIndex(raw) && EntryCount(raw) == 2 && DistinctTags(ItemsOf(FoundIn(raw)))
            && Decoded(raw) == Ok(CLEARED.(focusMode := Some(7), dmfPos := Some(a[..5])))
  {
    TwoFound(a, b);
    BothFound(TwoEntries(a, b));
    TwoFields(a[..5], 7);
  }

  /** In either order both fields are set, but the position is the start of whichever entry comes first. */
  lemma {:induction false} OverlappingPayloadMoves()
    ensures var raw, other := TwoEntries(OVERLAPPING, INLINE), TwoEntries(INLINE, OVERLAPPING);
            && HasIndex(raw) && EntryCount(raw) == 2 && DistinctTags(ItemsOf(FoundIn(raw)))
            && Reordered(raw, other, [1, 0])
            && Decoded(raw) == Ok(CLEARED.(focusMode := Some(7), dmfPos := Some(POSITION_START)))
            && Decoded(other) == Ok(CLEARED.(focusMode := Some(7), dmfPos := Some(MODE_START)))
  {
    TwoEntriesIndex(OVERLAPPING, INLINE);
    OverlapDecodes(OVERLAPPING, INLINE);
    OverlapDecodes(INLINE, OVERLAPPING);
    assert OVERLAPPING[..5] == POSITION_START && INLINE[..5] == MODE_START;
  }

  lemma {:induction false} BothFound(raw: Bytes)
    requires 13 <= |raw| < TWO_32
    ensures FoundOf(raw, OVERLAPPING) == Found(0x13, Data(raw[8..13]))
    ensures FoundOf(raw, INLINE) == Found(1, Data([7]))
  {
    assert INLINE[8..9] == [7];
  }

  lemma {:induction false} TwoFound(a: Bytes, b: Bytes)
    requires |a| == |b| == ENTRY
    ensures var raw := TwoEntries(a, b);
            && HasIndex(raw) && EntryCount(raw) == 2 && raw[8..13] == a[..5]
            && FoundIn(raw) == [FoundOf(raw, a), FoundOf(raw, b)]
  {
    TwoEntriesIndex(a, b);
    var raw := TwoEntries(a, b);
    assert FoundIn(raw) == [FoundOf(raw, a), FoundOf(raw, b)];
  }

  /** A position and a focus mode, in either order. */
  lemma {:induction false} TwoFields(position: Bytes, mode: byte)
    requires position != []
    ensures var x, y := Found(0x13, Data(position)), Found(1, Data([mode]));
            && DistinctTags(ItemsOf([x, y])) && DistinctTags(ItemsOf([y, x]))
            && DecodedFrom([x, y]) == DecodedFrom([y, x])
            && DecodedFrom([x, y]) == Ok(CLEARED.(focusMode := Some(mode), dmfPos := Some(position)))
  {
    TwoDecoded(Found(0x13, Data(position)), Found(1, Data([mode])));
    TwoDecoded(Found(1, Data([mode])), Found(0x13, Data(position)));
  }

  lemma {:induction false} TwoDecoded(x: Found, y: Found)
    ensures DecodedFrom([x, y]) == Applied(Applied(Ok(CLEARED), x), y)
  {
    assert [x, y][..1] == [x] && [x][..0] == [];
    assert DecodedFrom([x]) == Applied(DecodedFrom([]), x);
  }

  // ----- round trip -----

  /**
   What the decoder finds for an encoded payload in a blob of `size` bytes. One of at most
   four bytes is in its entry. A longer one is not written; only its length, in 32 bits, and
   the size of the blob in the place of its offset are.
   */
  function Fate(payload: Bytes, size: uint32): Payload {
    var count := Wrap32(|payload|);
    if |payload| <= 4 then Data(payload)
    else if count <= 4 then Data(Le32(size)[..count])
    else if size + count < TWO_32 then OutOfBounds
    else Wrapped
  }

  /** The value a decoder takes from an encoded payload. */
  function Taken(tag: uint16, payload: Bytes, size: uint32): Option<Bytes> {
    ItemOf(Found(tag, Fate(payload, size))).value
  }

  /** What comes back: read-only fields are cleared, and positions are what the decoder takes of them. */
  function Returned(f: Fields, size: uint32): Fields {
    f.(faceEyeAFStatus := None, dmfDetection := None,
       dmfPos := if f.dmfPos.Some? then Taken(0x13, f.dmfPos.value, size) else None)
  }

  lemma {:induction false} SliceOfConcat(a: Bytes, b: Bytes, lo: nat, hi: nat)
    requires lo <= hi
    ensures hi <= |a| ==> (a + b)[lo..hi] == a[lo..hi]
    ensures lo == |a| && hi == |a| + |b| ==> (a + b)[lo..hi] == b
  {
  }

  lemma {:induction false} IndexEntry(xs: seq<Entry>, size: uint32, n: nat, j: nat)
    requires j < n <= |xs| && DIR_HEADER + |xs| * ENTRY < TWO_32
    ensures EntryAt(Index(xs, size, n), j) == EntryBytes(xs[j], size)
  {
    var off := EntryOffset(j);
    assert off == DIR_HEADER + j * ENTRY;
    SliceOfConcat(Index(xs, size, n - 1), EntryBytes(xs[n - 1], size), off, off + ENTRY);
    if j < n - 1 {
      IndexEntry(xs, size, n - 1, j);
    }
  }

  lemma {:induction false} IndexHeader(xs: seq<Entry>, size: uint32, n: nat)
    requires n <= |xs| < TWO_32
    ensures ReadLe32(Index(xs, size, n), 0) == size && EntryCount(Index(xs, size, n)) == |xs|
  {
    var b := Index(xs, size, n);
    if n == 0 {
      assert b[0..4] == Le32(size) && b[4..8] == Le32(|xs|);
      Le32Inverse(b, 0, size);
      Le32Inverse(b, 4, |xs|);
    } else {
      IndexHeader(xs, size, n - 1);
      assert forall k | 0 <= k < 8 :: b[k] == Index(xs, size, n - 1)[k];
    }
  }

  lemma {:induction false} EntryTagAndCount(x: Entry, size: uint32)
    ensures var e := EntryBytes(x, size); TagOf(e) == x.tag && CountOf(e) == Wrap32(|x.payload|)
  {
    var e := EntryBytes(x, size);
    assert e[0..2] == Le16(x.tag);
    assert e[4..8] == Le32(Wrap32(|x.payload|));
    Le16Inverse(e, 0, x.tag);
    Le32Inverse(e, 4, Wrap32(|x.payload|));
  }

  lemma {:induction false} EntryTail(x: Entry, size: uint32)
    ensures var e := EntryBytes(x, size);
            && (|x.payload| <= 4 ==> e[8..8 + |x.payload|] == x.payload)
            && (|x.payload| > 4 ==> OffsetOf(e) == size && e[8..12] == Le32(size))
  {
    var e := EntryBytes(x, size);
    assert e[8..12] == Tail(x.payload, size);
    Le32Inverse(e, 8, size);
    assert |x.payload| <= 4 ==> e[8..8 + |x.payload|] == e[8..12][..|x.payload|];
  }

  lemma {:induction false} FoundOfEntry(raw: Bytes, x: Entry)
    requires |raw| < TWO_32
    ensures FoundOf(raw, EntryBytes(x, |raw|)) == Found(x.tag, Fate(x.payload, |raw|))
  {
    var e, count := EntryBytes(x, |raw|), Wrap32(|x.payload|);
    EntryTagAndCount(x, |raw|);
    EntryTail(x, |raw|);
    if |x.payload| > 4 && count <= 4 {
      assert e[8..8 + count] == e[8..12][..count];
    }
  }

  lemma {:induction false} BlobIndex(xs: seq<Entry>)
    requires DIR_HEADER + |xs| * ENTRY < TWO_32
    ensures var blob, size := Blob(xs), DIR_HEADER + |xs| * ENTRY;
            HasIndex(blob) && EntryCount(blob) == |xs| && ReadLe32(blob, 0) == |blob| == size
  {
    IndexHeader(xs, DIR_HEADER + |xs| * ENTRY, |xs|);
  }

  /** What a decoder finds for encoded entries. */
  function Finds(xs: seq<Entry>, size: uint32): (fs: seq<Found>)
    ensures |fs| == |xs|
  {
    seq(|xs|, j requires 0 <= j < |xs| => Found(xs[j].tag, Fate(xs[j].payload, size)))
  }

  lemma {:induction false} EntryFound(blob: Bytes, x: Entry, j: nat)
    requires DIR_HEADER + (j + 1) * ENTRY <= |blob| < TWO_32 && EntryAt(blob, j) == EntryBytes(x, |blob|)
    ensures FoundAt(blob, j) == Found(x.tag, Fate(x.payload, |blob|))
  {
    FoundOfEntry(blob, x);
  }

  lemma {:induction false} BlobFinds(xs: seq<Entry>)
    requires DIR_HEADER + |xs| * ENTRY < TWO_32
    ensures HasIndex(Blob(xs)) && FoundIn(Blob(xs)) == Finds(xs, |Blob(xs)|)
  {
    var blob := Blob(xs);
    BlobIndex(xs);
    forall j: nat | j < |xs| ensures FoundAt(blob, j) == Found(xs[j].tag, Fate(xs[j].payload, |blob|)) {
      IndexEntry(xs, |blob|, |xs|, j);
      EntryFound(blob, xs[j], j);
    }
  }

  /** The value taken for `tag` among the first `n` fields. */
  function Listed(l: seq<(uint16, Option<Bytes>)>, size: uint32, n: nat, tag: uint16): Option<Bytes>
    requires n <= |l|
  {
    if n == 0 then None
    else if l[n - 1].0 == tag && l[n - 1].1.Some? && Taken(tag, l[n - 1].1.value, size).Some?
    then Taken(tag, l[n - 1].1.value, size)
    else Listed(l, size, n - 1, tag)
  }

  /** The items of the first `n` fields. */
  function Gives(l: seq<(uint16, Option<Bytes>)>, size: uint32, n: nat): seq<Item<Bytes>>
    requires n <= |l|
  {
    ItemsOf(Finds(Gathered(l, n), size))
  }

  lemma {:induction false} LastGathered(l: seq<(uint16, Option<Bytes>)>, size: uint32, n: nat, tag: uint16)
    requires n <= |l|
    ensures Last(Gives(l, size, n), tag) == Listed(l, size, n, tag)
  {
    if n > 0 {
      LastGathered(l, size, n - 1, tag);
      if l[n - 1].1.Some? {
        var items := Gives(l, size, n);
        assert items[..|items| - 1] == Gives(l, size, n - 1);
      }
    }
  }

  lemma {:induction false} ListedAt(l: seq<(uint16, Option<Bytes>)>, size: uint32, n: nat, k: nat)
    requires k < n <= |l| && forall i, j | 0 <= i < j < |l| :: l[i].0 != l[j].0
    ensures Listed(l, size, n, l[k].0) == if l[k].1.Some? then Taken(l[k].0, l[k].1.value, size) else None
  {
    if k < n - 1 {
      ListedAt(l, size, n - 1, k);
    } else {
      ListedNowhere(l, size, k, l[k].0);
    }
  }

  lemma {:induction false} ListedNowhere(l: seq<(uint16, Option<Bytes>)>, size: uint32, n: nat, tag: uint16)
    requires n <= |l| && forall i | 0 <= i < n :: l[i].0 != tag
    ensures Listed(l, size, n, tag) == None
  {
    if n > 0 {
      ListedNowhere(l, size, n - 1, tag);
    }
  }

  lemma {:induction false} ReturnedAt(f: Fields, size: uint32, k: nat)
    requires k < 9
    ensures var l := Listing(f);
            Last(Gives(l, size, 9), l[k].0) == if l[k].1.Some? then Taken(l[k].0, l[k].1.value, size) else None
  {
    LastGathered(Listing(f), size, 9, Listing(f)[k].0);
    ListedAt(Listing(f), size, 9, k);
  }

  lemma {:induction false} ReadOnlyCleared(f: Fields, size: uint32, tag: uint16)
    requires tag == 0x4 || tag == 0x14
    ensures Last(Gives(Listing(f), size, 9), tag) == None
  {
    LastGathered(Listing(f), size, 9, tag);
    ListedNowhere(Listing(f), size, 9, tag);
  }

  lemma {:induction false} ReturnedListed(f: Fields, size: uint32)
    ensures LookedUp(Gives(Listing(f), size, 9)) == Returned(f, size)
  {
    forall k: nat | k < 9 {
      ReturnedAt(f, size, k);
    }
    ReadOnlyCleared(f, size, 0x4);
    ReadOnlyCleared(f, size, 0x14);
    var l := Listing(f);
    assert l[0].0 == 0x1 && l[1].0 == 0x2 && l[2].0 == 0x3 && l[3].0 == 0x10 && l[4].0 == 0x11;
    assert l[5].0 == 0x12 && l[6].0 == 0x13 && l[7].0 == 0x51 && l[8].0 == 0x52;
  }

  // A wrapping bounds check can only come from the position.

  lemma {:induction false} GatheredFrom(l: seq<(uint16, Option<Bytes>)>, n: nat)
    requires n <= |l|
    ensures forall x | x in Gathered(l, n) :: exists k :: 0 <= k < n && l[k] == (x.tag, Some(x.payload))
    ensures forall k | 0 <= k < n && l[k].1.Some? :: Entry(l[k].0, l[k].1.value) in Gathered(l, n)
  {
    if n > 0 {
      GatheredFrom(l, n - 1);
    }
  }

  lemma {:induction false} PositionMayWrap(f: Fields, size: uint32)
    ensures Inside(Finds(Entries(f), size)) <==> !(f.dmfPos.Some? && Fate(f.dmfPos.value, size).Wrapped?)
  {
    var l, xs := Listing(f), Entries(f);
    GatheredFrom(l, 9);
    if f.dmfPos.Some? && Fate(f.dmfPos.value, size).Wrapped? {
      assert l[6] == (0x13, f.dmfPos);
      var j :| 0 <= j < |xs| && xs[j] == Entry(0x13, f.dmfPos.value);
      assert Finds(xs, size)[j] in Finds(xs, size);
    }
    forall j | 0 <= j < |xs| ensures |xs[j].payload| <= 1 || f.dmfPos == Some(xs[j].payload) {
      var k :| 0 <= k < 9 && l[k] == (xs[j].tag, Some(xs[j].payload));
    }
  }

  /**
   Decoding an encoded directory gives every settable field back, except that a
   manual-focus position does so if and only if it has one to four bytes: the payload of a
   longer one is announced but not written. The decoder stays inside the blob unless the
   announced length reaches past 4 GiB. The blob is the index alone, with its size and entry
   count in the header.
   */
  lemma {:induction false} FocusRoundTrip(f: Fields)
    ensures var blob, n := Encoded(f), |Entries(f)|;
            |blob| == 8 + 12 * n && ReadLe32(blob, 0) == |blob| && EntryCount(blob) == n
    ensures var blob := Encoded(f);
            Decoded(blob) == if f.dmfPos.Some? && Fate(f.dmfPos.value, |blob|).Wrapped? then Err(Overrun)
                             else Ok(Returned(f, |blob|))
    ensures Decoded(Encoded(f)) == Ok(f.(faceEyeAFStatus := None, dmfDetection := None)) <==>
            (f.dmfPos.Some? ==> 1 <= |f.dmfPos.value| <= 4)
  {
    var xs := Entries(f);
    var size := DIR_HEADER + |xs| * ENTRY;
    BlobIndex(xs);
    BlobFinds(xs);
    DecodeLooksUp(Blob(xs));
    PositionMayWrap(f, size);
    ReturnedListed(f, size);
    PositionComesBack(f, size);
  }

  lemma {:induction false} PositionComesBack(f: Fields, size: uint32)
    ensures Returned(f, size) == f.(faceEyeAFStatus := None, dmfDetection := None) <==>
            (f.dmfPos.Some? ==> 1 <= |f.dmfPos.value| <= 4)
    ensures f.dmfPos.Some? && Fate(f.dmfPos.value, size).Wrapped? ==> |f.dmfPos.value| > 4
  {
  }

  /** A five-byte position does not come back. */
  lemma {:induction false} LongPositionIsLost()
    ensures var f := CLEARED.(dmfPos := Some(Zeros(5))); Decoded(Encoded(f)) == Ok(CLEARED)
  {
    FocusRoundTrip(CLEARED.(dmfPos := Some(Zeros(5))));
  }
}
