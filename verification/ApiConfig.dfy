/** The device description directory (ApiConfig of src/sigma/schema.cpp). */
module ApiConfig {
  import opened Wrappers
  import opened Bytes
  import opened Directory

  /** The version as it is stored: the bits of a 32-bit float, or the two words of a 64-bit one. */
  datatype Version = Zero | Float(bits: uint32) | Double(low: uint32, high: uint32)

  datatype Fields = Fields(cameraModel: Bytes, serialNumber: Bytes, firmwareVersion: Bytes, version: Version)

  const CLEARED: Fields := Fields([], [], [], Zero)

  const STRING: byte := 2
  const FLOAT32: byte := 0x0B
  const FLOAT64: byte := 0x0C

  // ----- entries -----

  /** Only the low byte of an entry's type counts. */
  function Kind(e: Bytes): byte
    requires |e| == ENTRY
  {
    TypeOf(e) % 256
  }

  function ElementSize(kind: byte): Option<uint32> {
    match kind
    case 1 | 2 | 6 | 7 => Some(1)
    case 3 | 8 => Some(2)
    case 4 | 9 | 0x0B => Some(4)
    case 5 | 0x0A | 0x0C => Some(8)
    case _ => None
  }

  /** Size of an entry's payload, computed in 32 bits; none for an unknown type. */
  function SizeOf(e: Bytes): Option<uint32>
    requires |e| == ENTRY
  {
    var elem := ElementSize(Kind(e));
    if elem.None? then None
    else Some(if Kind(e) == STRING then CountOf(e) else Wrap32(CountOf(e) * elem.value))
  }

  /** An entry as the decoder sees it. */
  datatype Found = Found(tag: uint16, kind: byte, payload: Result<Payload>)

  function FoundOf(raw: Bytes, e: Bytes): Found
    requires |e| == ENTRY
  {
    var size := SizeOf(e);
    Found(TagOf(e), Kind(e), if size.None? then Err(UnknownType) else Ok(PayloadOf(raw, e, size.value)))
  }

  function FoundIn(raw: Bytes): (fs: seq<Found>)
    requires HasIndex(raw)
    ensures |fs| == EntryCount(raw)
  {
    seq(EntryCount(raw), i requires 0 <= i < EntryCount(raw) => FoundOf(raw, EntryAt(raw, i)))
  }

  /** What stops the decoder at an entry. */
  function Fault(found: Found): Option<Error> {
    var p := found.payload;
    if p.Err? then Some(p.error) else if p.value.Wrapped? then Some(Overrun) else None
  }

  // ----- decoding, entry by entry -----

  /** A string without one trailing NUL. */
  function Stripped(b: Bytes): Bytes {
    if b != [] && b[|b| - 1] == 0 then b[..|b| - 1] else b
  }

  function VersionIn(kind: byte, b: Bytes): Option<Version> {
    if kind == FLOAT32 && 4 <= |b| then Some(Float(ReadLe32(b, 0)))
    else if kind == FLOAT64 && 8 <= |b| then Some(Double(ReadLe32(b, 0), ReadLe32(b, 4)))
    else None
  }

  /** The switch of the decoder. */
  function Assign(f: Fields, tag: uint16, kind: byte, b: Bytes): Fields {
    if tag == 1 then f.(cameraModel := Stripped(b))
    else if tag == 2 then f.(serialNumber := Stripped(b))
    else if tag == 3 then f.(firmwareVersion := Stripped(b))
    else if tag == 5 && VersionIn(kind, b).Some? then f.(version := VersionIn(kind, b).value)
    else f
  }

  function Applied(f: Fields, found: Found): Fields {
    var p := found.payload;
    if p.Ok? && p.value.Data? then Assign(f, found.tag, found.kind, p.value.bytes) else f
  }

  /** The fields after these entries. */
  function Walked(fs: seq<Found>): Fields {
    if fs == [] then CLEARED else Applied(Walked(fs[..|fs| - 1]), fs[|fs| - 1])
  }

  /** The first faulty entry from `i` on, or the number of entries when there is none. */
  function FirstFault(fs: seq<Found>, i: nat): (k: nat)
    requires i <= |fs|
    ensures i <= k <= |fs| && (forall j: nat | i <= j < k :: Fault(fs[j]) == None) && (k < |fs| ==> Fault(fs[k]).Some?)
    decreases |fs| - i
  {
    if i == |fs| || Fault(fs[i]).Some? then i else FirstFault(fs, i + 1)
  }

  /** Fields and result of decoding: a faulty entry ends it, and leaves what the entries before it set. */
  function OutcomeOf(fs: seq<Found>): (Fields, Result<()>) {
    var k := FirstFault(fs, 0);
    (Walked(fs[..k]), if k < |fs| then Err(Fault(fs[k]).value) else Ok(()))
  }

  function Outcome(raw: Bytes): (Fields, Result<()>) {
    if HasIndex(raw) then OutcomeOf(FoundIn(raw)) else (CLEARED, Ok(()))
  }

  lemma {:induction false} WalkStep(fs: seq<Found>, i: nat)
    requires i < |fs|
    ensures Walked(fs[..i + 1]) == Applied(Walked(fs[..i]), fs[i])
    ensures FirstFault(fs, i) == if Fault(fs[i]).Some? then i else FirstFault(fs, i + 1)
  {
    assert fs[..i + 1][..i] == fs[..i];
  }

  // ----- the object -----

  class ApiConfig {
    var fields: Fields

    constructor ()
      ensures fields == CLEARED
    {
      fields := CLEARED;
    }

    method AssignField(tag: uint16, kind: byte, b: Bytes)
      modifies this
      ensures fields == Assign(old(fields), tag, kind, b)
    {
      match tag {
        case 1 => fields := fields.(cameraModel := Stripped(b));
        case 2 => fields := fields.(serialNumber := Stripped(b));
        case 3 => fields := fields.(firmwareVersion := Stripped(b));
        case 5 =>
          if kind == FLOAT32 && |b| >= 4 {
            fields := fields.(version := Float(ReadLe32(b, 0)));
          } else if kind == FLOAT64 && |b| >= 8 {
            fields := fields.(version := Double(ReadLe32(b, 0), ReadLe32(b, 4)));
          }
        case _ =>
      }
    }

    /** The body of the decoder's loop. */
    method DecodeEntry(raw: Bytes, i: nat) returns (fault: Option<Error>)
      requires DIR_HEADER + (i + 1) * ENTRY <= |raw|
      modifies this
      ensures var found := FoundOf(raw, EntryAt(raw, i));
              fault == Fault(found) && fields == if fault.Some? then old(fields) else Applied(old(fields), found)
    {
      var e := EntryAt(raw, i);
      var size := SizeOf(e);
      if size.None? {
        return Some(UnknownType);
      }
      var payload := PayloadOf(raw, e, size.value);
      match payload {
        case OutOfBounds =>
        case Wrapped => return Some(Overrun);
        case Data(bytes) => AssignField(TagOf(e), Kind(e), bytes);
      }
      return None;
    }

    method Decode(raw: Bytes) returns (r: Result<()>)
      modifies this
      ensures (fields, r) == Outcome(raw)
    {
      fields := CLEARED;
      if |raw| < DIR_HEADER {
        return Ok(());
      }
      var count := EntryCount(raw);
      if |raw| < DIR_HEADER + count * ENTRY {
        return Ok(());
      }
      ghost var fs := FoundIn(raw);
      var i := 0;
      while i < count
        invariant 0 <= i <= count && fields == Walked(fs[..i])
        invariant FirstFault(fs, i) == FirstFault(fs, 0)
      {
        WalkStep(fs, i);
        var fault := DecodeEntry(raw, i);
        if fault.Some? {
          return Err(fault.value);
        }
        i := i + 1;
      }
      return Ok(());
    }
  }

  // ----- lookup semantics -----

  datatype Content = Text(text: Bytes) | Number(version: Version)

  predicate IsText(tag: uint16) {
    1 <= tag <= 3
  }

  /** What an entry offers: a string, or for tag 5 a version of a matching type and size. */
  function ItemOf(found: Found): Item<Content> {
    var p := found.payload;
    Item(found.tag, if p.Ok? && p.value.Data? then ContentOf(found.tag, found.kind, p.value.bytes) else None)
  }

  function ContentOf(tag: uint16, kind: byte, b: Bytes): Option<Content> {
    if IsText(tag) then Some(Text(Stripped(b)))
    else if tag == 5 && VersionIn(kind, b).Some? then Some(Number(VersionIn(kind, b).value))
    else None
  }

  function ItemsOf(fs: seq<Found>): (items: seq<Item<Content>>)
    ensures |items| == |fs|
  {
    seq(|fs|, i requires 0 <= i < |fs| => ItemOf(fs[i]))
  }

  function TextOf(c: Option<Content>): Bytes {
    if c.Some? && c.value.Text? then c.value.text else []
  }

  function NumberOf(c: Option<Content>): Version {
    if c.Some? && c.value.Number? then c.value.version else Zero
  }

  /** Every field from the last usable entry with its tag. */
  function LookedUp(items: seq<Item<Content>>): Fields {
    Fields(TextOf(Last(items, 1)), TextOf(Last(items, 2)), TextOf(Last(items, 3)), NumberOf(Last(items, 5)))
  }

  lemma {:induction false} LookupStep(fs: seq<Found>, found: Found)
    ensures Applied(LookedUp(ItemsOf(fs)), found) == LookedUp(ItemsOf(fs + [found]))
  {
    var before, item := ItemsOf(fs), ItemOf(found);
    assert ItemsOf(fs + [found]) == before + [item];
    assert (before + [item])[..|before|] == before;
    forall tag: uint16
      ensures Last(before + [item], tag) == if item.tag == tag && item.value.Some? then item.value else Last(before, tag)
    {
    }
  }

  /** The decoder's loop looks every field up. */
  lemma {:induction false} WalkLooksUp(fs: seq<Found>)
    ensures Walked(fs) == LookedUp(ItemsOf(fs))
  {
    if fs != [] {
      var n := |fs| - 1;
      WalkLooksUp(fs[..n]);
      LookupStep(fs[..n], fs[n]);
      assert fs == fs[..n] + [fs[n]];
    }
  }

  predicate Faultless(fs: seq<Found>) {
    forall found | found in fs :: Fault(found) == None
  }

  lemma {:induction false} FaultlessOutcome(fs: seq<Found>)
    ensures Faultless(fs) <==> FirstFault(fs, 0) == |fs|
    ensures Faultless(fs) <==> OutcomeOf(fs).1.Ok?
    ensures Faultless(fs) ==> OutcomeOf(fs) == (LookedUp(ItemsOf(fs)), Ok(()))
  {
    if FirstFault(fs, 0) == |fs| {
      assert fs[..|fs|] == fs;
      WalkLooksUp(fs);
    }
  }

  /** A string held under tag 1, 2 or 3, with or without its NUL, is found if no other entry has that tag. */
  lemma {:induction false} StringIsFound(raw: Bytes, i: nat, s: Bytes, terminator: Bytes)
    requires HasIndex(raw) && Faultless(FoundIn(raw)) && i < EntryCount(raw) && DistinctTags(ItemsOf(FoundIn(raw)))
    requires terminator == [0] || (terminator == [] && 0 !in s)
    requires FoundIn(raw)[i].payload == Ok(Data(s + terminator))
    ensures var (f, _) := Outcome(raw);
            match TagOf(EntryAt(raw, i))
            case 1 => f.cameraModel == s
            case 2 => f.serialNumber == s
            case 3 => f.firmwareVersion == s
            case _ => true
  {
    var b := s + terminator;
    assert Stripped(b) == s by {
      assert b[..|s|] == s;
    }
    FaultlessOutcome(FoundIn(raw));
    LastOfDistinct(ItemsOf(FoundIn(raw)), TagOf(EntryAt(raw, i)), i);
  }

  // ----- the order of the entries -----

  /** How many bytes an entry keeps from its offset, in a blob of `total` bytes. */
  function Keeping(e: Bytes, total: nat): nat {
    if |e| != ENTRY || SizeOf(e).None? || SizeOf(e).value <= 4 || OffsetOf(e) + SizeOf(e).value > total then 0
    else if IsText(TagOf(e)) then SizeOf(e).value
    else if TagOf(e) == 5 && Kind(e) == FLOAT32 then 4
    else if TagOf(e) == 5 && Kind(e) == FLOAT64 && 8 <= SizeOf(e).value then 8
    else 0
  }

  lemma {:induction false} StrippedIsInjective(a: Bytes, b: Bytes)
    requires |a| == |b| && Stripped(a) == Stripped(b)
    ensures a == b
  {
    var n := |a| - 1;
    if a != [] && a[n] == 0 {
      assert a == a[..n] + [0] && b == b[..n] + [b[n]];
    }
  }

  lemma {:induction false} WordsAlike(a: Bytes, b: Bytes, i: nat)
    requires i + 4 <= |a| == |b|
    ensures ReadLe32(a, i) == ReadLe32(b, i) <==> a[i..i + 4] == b[i..i + 4]
  {
    Le32Inverse(a, i, ReadLe32(a, i));
    Le32Inverse(b, i, ReadLe32(a, i));
  }

  /** Of two payloads of one size, what is kept of them. */
  lemma {:induction false} SameContent(tag: uint16, kind: byte, a: Bytes, b: Bytes)
    requires |a| == |b| > 4
    ensures ContentOf(tag, kind, a).Some? == ContentOf(tag, kind, b).Some?
    ensures ContentOf(tag, kind, a) == ContentOf(tag, kind, b) <==>
            var kept := if IsText(tag) then |a|
                        else if tag == 5 && kind == FLOAT32 then 4
                        else if tag == 5 && kind == FLOAT64 && 8 <= |a| then 8
                        else 0;
            a[..kept] == b[..kept]
  {
    assert a[..|a|] == a && b[..|b|] == b;
    if IsText(tag) && Stripped(a) == Stripped(b) {
      StrippedIsInjective(a, b);
    }
    WordsAlike(a, b, 0);
    if 8 <= |a| {
      WordsAlike(a, b, 4);
      assert a[..8] == a[0..4] + a[4..8] && b[..8] == b[0..4] + b[4..8];
      assert a[..8][..4] == a[..4] && a[..8][4..] == a[4..8] && b[..8][..4] == b[..4] && b[..8][4..] == b[4..8];
    }
  }

  /** Entry `e` offers the same in blobs of one size if and only if the bytes it keeps are the same. */
  lemma {:induction false} SameItem(raw: Bytes, other: Bytes, e: Bytes)
    requires |e| == ENTRY && |raw| == |other|
    ensures ItemOf(FoundOf(other, e)) == ItemOf(FoundOf(raw, e)) <==> Alike(raw, other, Keeping, e)
    ensures ItemOf(FoundOf(other, e)).value.Some? == ItemOf(FoundOf(raw, e)).value.Some?
  {
    if SizeOf(e).Some? && SizeOf(e).value > 4 && OffsetOf(e) as int + SizeOf(e).value as int <= |raw| {
      var from: nat, size: nat := OffsetOf(e), SizeOf(e).value;
      var a, b := raw[from..from + size], other[from..from + size];
      assert FoundOf(raw, e).payload == Ok(Data(a)) && FoundOf(other, e).payload == Ok(Data(b));
      SameContent(TagOf(e), Kind(e), a, b);
      KeptStart(raw, other, Keeping, e, size);
    }
  }

  /** On its own, the entry leaves all fields cleared. */
  predicate Silent(found: Found) {
    Applied(CLEARED, found) == CLEARED
  }

  /** In any blob of the same size an entry has the same tag and fault, and is as silent. */
  lemma {:induction false} SameStatus(raw: Bytes, other: Bytes, e: Bytes)
    requires |e| == ENTRY && |raw| == |other|
    ensures var x, y := FoundOf(raw, e), FoundOf(other, e);
            x.tag == y.tag && Fault(x) == Fault(y) && Silent(x) == Silent(y)
  {
  }

  /** `gs` has the entries of `fs` in another order, but for bytes that they keep. */
  predicate Matches(fs: seq<Found>, gs: seq<Found>, p: seq<nat>) {
    && Permutation(p, |fs|) && |gs| == |fs|
    && forall i: nat | i < |fs| ::
         && gs[i].tag == fs[p[i]].tag && Fault(gs[i]) == Fault(fs[p[i]]) && Silent(gs[i]) == Silent(fs[p[i]])
         && ItemOf(gs[i]).value.Some? == ItemOf(fs[p[i]]).value.Some?
  }

  lemma {:induction false} ReorderedMatches(raw: Bytes, other: Bytes, p: seq<nat>)
    requires Reordered(raw, other, p)
    ensures HasIndex(other) && Matches(FoundIn(raw), FoundIn(other), p)
    ensures forall i: nat | i < EntryCount(raw) ::
              (ItemOf(FoundIn(other)[i]) == ItemOf(FoundIn(raw)[p[i]]) <==>
               Alike(raw, other, Keeping, EntryAt(raw, p[i])))
  {
    ReorderedIndex(raw, other, p);
    forall i: nat | i < EntryCount(raw)
      ensures var x, y := FoundIn(raw)[p[i]], FoundIn(other)[i];
              && y.tag == x.tag && Fault(y) == Fault(x) && Silent(y) == Silent(x)
              && ItemOf(y).value.Some? == ItemOf(x).value.Some?
              && (ItemOf(y) == ItemOf(x) <==> Alike(raw, other, Keeping, EntryAt(raw, p[i])))
    {
      var e := EntryAt(raw, p[i]);
      assert FoundIn(other)[i] == FoundOf(other, e);
      SameStatus(raw, other, e);
      SameItem(raw, other, e);
    }
  }

  lemma {:induction false} MatchedFaults(fs: seq<Found>, gs: seq<Found>, p: seq<nat>)
    requires Matches(fs, gs, p)
    ensures Faultless(gs) <==> Faultless(fs)
  {
    if Faultless(fs) {
      forall i | 0 <= i < |gs| ensures Fault(gs[i]) == None {
        assert Fault(gs[i]) == Fault(fs[p[i]]) && fs[p[i]] in fs;
      }
    }
    if Faultless(gs) {
      forall k: nat | k < |fs| ensures Fault(fs[k]) == None {
        assert k in p;
        var i :| 0 <= i < |p| && p[i] == k;
        assert Fault(gs[i]) == Fault(fs[p[i]]) && gs[i] in gs;
      }
    }
  }

  lemma {:induction false} MatchedTags(fs: seq<Found>, gs: seq<Found>, p: seq<nat>)
    requires Matches(fs, gs, p) && DistinctTags(ItemsOf(fs))
    ensures DistinctTags(ItemsOf(gs))
  {
    forall i, j | 0 <= i < j < |fs| ensures gs[i].tag != gs[j].tag {
      var a, b := ItemsOf(fs)[p[i]], ItemsOf(fs)[p[j]];
      assert p[i] < p[j] || p[j] < p[i];
    }
  }

  // Blobs without faults.

  /** Items as they are made of entries. */
  predicate Shaped(items: seq<Item<Content>>) {
    forall i | 0 <= i < |items| && items[i].value.Some? ::
      if IsText(items[i].tag) then items[i].value.value.Text?
      else items[i].tag == 5 && items[i].value.value.Number? && items[i].value.value.version != Zero
  }

  lemma {:induction false} LastShaped(items: seq<Item<Content>>, tag: uint16)
    requires Shaped(items)
    ensures var v := Last(items, tag);
            v.Some? ==> if IsText(tag) then v.value.Text? else tag == 5 && v.value.Number? && v.value.version != Zero
  {
    if items != [] {
      LastShaped(items[..|items| - 1], tag);
    }
  }

  lemma {:induction false} PermutedLookup(xs: seq<Item<Content>>, ys: seq<Item<Content>>, p: seq<nat>)
    requires Permutation(p, |xs|) && |ys| == |xs| && DistinctTags(xs) && DistinctTags(ys) && Shaped(xs) && Shaped(ys)
    requires forall i: nat | i < |xs| :: ys[i].tag == xs[p[i]].tag && ys[i].value.Some? == xs[p[i]].value.Some?
    ensures LookedUp(ys) == LookedUp(xs) <==> forall i: nat | i < |xs| :: ys[i] == xs[p[i]]
  {
    if LookedUp(ys) == LookedUp(xs) {
      forall i: nat | i < |xs| ensures ys[i] == xs[p[i]] {
        if ys[i].value.Some? {
          LastOfDistinct(ys, ys[i].tag, i);
          LastOfDistinct(xs, ys[i].tag, p[i]);
        }
      }
    } else if forall i: nat | i < |xs| :: ys[i] == xs[p[i]] {
      forall tag: uint16 ensures Last(ys, tag) == Last(xs, tag) {
        LastPermuted(xs, ys, p, tag);
      }
    }
  }

  lemma {:induction false} ItemsAreShaped(fs: seq<Found>)
    ensures Shaped(ItemsOf(fs))
  {
  }

  lemma {:induction false} MatchedLookup(fs: seq<Found>, gs: seq<Found>, p: seq<nat>)
    requires Matches(fs, gs, p) && DistinctTags(ItemsOf(fs)) && DistinctTags(ItemsOf(gs))
    ensures LookedUp(ItemsOf(gs)) == LookedUp(ItemsOf(fs)) <==>
            forall i: nat | i < |fs| :: ItemOf(gs[i]) == ItemOf(fs[p[i]])
  {
    var xs, ys := ItemsOf(fs), ItemsOf(gs);
    ItemsAreShaped(fs);
    ItemsAreShaped(gs);
    forall i: nat | i < |fs|
      ensures ys[i] == ItemOf(gs[i]) && xs[p[i]] == ItemOf(fs[p[i]])
      ensures ys[i].tag == xs[p[i]].tag && ys[i].value.Some? == xs[p[i]].value.Some?
    {
    }
    PermutedLookup(xs, ys, p);
  }

  lemma {:induction false} MatchedOutcome(fs: seq<Found>, gs: seq<Found>, p: seq<nat>)
    requires Matches(fs, gs, p) && Faultless(fs) && DistinctTags(ItemsOf(fs))
    ensures OutcomeOf(gs) == OutcomeOf(fs) <==> forall i: nat | i < |fs| :: ItemOf(gs[i]) == ItemOf(fs[p[i]])
  {
    MatchedFaults(fs, gs, p);
    MatchedTags(fs, gs, p);
    MatchedLookup(fs, gs, p);
    FaultlessOutcome(fs);
    FaultlessOutcome(gs);
  }

  lemma {:induction false} OrderDecodes(raw: Bytes, other: Bytes, p: seq<nat>)
    requires Reordered(raw, other, p) && Faultless(FoundIn(raw)) && DistinctTags(ItemsOf(FoundIn(raw)))
    ensures Outcome(other) == Outcome(raw) <==>
            forall i: nat | i < EntryCount(raw) :: Alike(raw, other, Keeping, EntryAt(raw, i))
  {
    ReorderedMatches(raw, other, p);
    MatchedOutcome(FoundIn(raw), FoundIn(other), p);
    AlikeInAnyOrder(raw, other, p, Keeping);
  }

  // Blobs with a fault.

  /** All faults are the same, and nothing else sets a field. */
  predicate Uniform(fs: seq<Found>) {
    && (forall i, j | 0 <= i < |fs| && 0 <= j < |fs| && Fault(fs[i]).Some? && Fault(fs[j]).Some? ::
          Fault(fs[i]) == Fault(fs[j]))
    && (forall i | 0 <= i < |fs| && Fault(fs[i]).None? :: Silent(fs[i]))
  }

  lemma {:induction false} SilentWalk(fs: seq<Found>)
    requires forall i | 0 <= i < |fs| :: Silent(fs[i])
    ensures Walked(fs) == CLEARED
  {
    if fs != [] {
      SilentWalk(fs[..|fs| - 1]);
    }
  }

  lemma {:induction false} UniformOutcome(fs: seq<Found>, k: nat)
    requires Uniform(fs) && k < |fs| && Fault(fs[k]).Some?
    ensures OutcomeOf(fs) == (CLEARED, Err(Fault(fs[k]).value))
  {
    SilentWalk(fs[..FirstFault(fs, 0)]);
  }

  lemma {:induction false} MatchedUniform(fs: seq<Found>, gs: seq<Found>, p: seq<nat>)
    requires Matches(fs, gs, p) && Uniform(fs)
    ensures Uniform(gs)
  {
    forall i, j | 0 <= i < |gs| && 0 <= j < |gs| && Fault(gs[i]).Some? && Fault(gs[j]).Some?
      ensures Fault(gs[i]) == Fault(gs[j])
    {
      assert Fault(gs[i]) == Fault(fs[p[i]]) && Fault(gs[j]) == Fault(fs[p[j]]);
    }
    forall i | 0 <= i < |gs| && Fault(gs[i]).None? ensures Silent(gs[i]) {
      assert Fault(gs[i]) == Fault(fs[p[i]]) && Silent(gs[i]) == Silent(fs[p[i]]);
    }
  }

  lemma {:induction false} UniformlyFaulty(fs: seq<Found>, gs: seq<Found>, p: seq<nat>)
    requires Matches(fs, gs, p) && Uniform(fs) && !Faultless(fs)
    ensures OutcomeOf(gs) == OutcomeOf(fs)
  {
    var k: nat :| k < |fs| && Fault(fs[k]).Some?;
    assert k in p;
    var i: nat :| i < |p| && p[i] == k;
    MatchedUniform(fs, gs, p);
    UniformOutcome(fs, k);
    UniformOutcome(gs, i);
  }

  /** Outcomes by their first entry: a fault leaves nothing, and a field that is set stays. */
  lemma {:induction false} FirstEntryShows(fs: seq<Found>)
    requires fs != [] && DistinctTags(ItemsOf(fs))
    ensures Fault(fs[0]).Some? ==> OutcomeOf(fs) == (CLEARED, Err(Fault(fs[0]).value))
    ensures Fault(fs[0]).None? && !Silent(fs[0]) ==> OutcomeOf(fs).0 != CLEARED
  {
    if Fault(fs[0]).None? && !Silent(fs[0]) {
      var k := FirstFault(fs, 0);
      var items := ItemsOf(fs[..k]);
      WalkLooksUp(fs[..k]);
      assert DistinctTags(items) by {
        assert forall i | 0 <= i < k :: items[i] == ItemsOf(fs)[i];
      }
      LastOfDistinct(items, items[0].tag, 0);
    }
  }

  /** Entry `i` first. */
  lemma {:induction false} BroughtForward(raw: Bytes, i: nat) returns (other: Bytes, p: seq<nat>)
    requires HasIndex(raw) && DistinctTags(ItemsOf(FoundIn(raw))) && i < EntryCount(raw)
    ensures Reordered(raw, other, p) && HasIndex(other)
    ensures var x, f := FoundIn(raw)[i], Outcome(other).0;
            && (Fault(x).Some? ==> Outcome(other) == (CLEARED, Err(Fault(x).value)))
            && (Fault(x).None? && !Silent(x) ==> f != CLEARED)
  {
    DistinctTagsAreFew(ItemsOf(FoundIn(raw)));
    SwappedIsReordered(raw, 0, i);
    other, p := Swapped(raw, 0, i), Swap(EntryCount(raw), 0, i);
    ReorderedMatches(raw, other, p);
    MatchedTags(FoundIn(raw), FoundIn(other), p);
    FirstEntryShows(FoundIn(other));
  }

  /**
   For entries with distinct tags: every order decodes alike if and only if, without a
   fault, every byte kept from an out-of-line payload is outside the index or the same in
   every entry at its place; or, with one, all faults are the same and no entry sets a field.
   */
  lemma {:induction false} EntryOrderDoesNotMatter(raw: Bytes)
    requires HasIndex(raw) && DistinctTags(ItemsOf(FoundIn(raw)))
    ensures (forall other, p | Reordered(raw, other, p) :: Outcome(other) == Outcome(raw)) <==>
            if Faultless(FoundIn(raw)) then Steady(raw, Keeping) else Uniform(FoundIn(raw))
  {
    DistinctTagsAreFew(ItemsOf(FoundIn(raw)));
    if Faultless(FoundIn(raw)) {
      forall other, p | Reordered(raw, other, p)
        ensures Outcome(other) == Outcome(raw) <==>
                forall i: nat | i < EntryCount(raw) :: Alike(raw, other, Keeping, EntryAt(raw, i))
      {
        OrderDecodes(raw, other, p);
      }
      SteadyIffAlike(raw, Keeping);
    } else if Uniform(FoundIn(raw)) {
      forall other, p | Reordered(raw, other, p) ensures Outcome(other) == Outcome(raw) {
        ReorderedMatches(raw, other, p);
        UniformlyFaulty(FoundIn(raw), FoundIn(other), p);
      }
    } else {
      var fs := FoundIn(raw);
      var k: nat :| k < |fs| && Fault(fs[k]).Some?;
      var first, p := BroughtForward(raw, k);
      var i: nat :| i < |fs| && if Fault(fs[i]).Some? then Fault(fs[i]) != Fault(fs[k]) else !Silent(fs[i]);
      var other, q := BroughtForward(raw, i);
      assert Reordered(raw, first, p) && Reordered(raw, other, q) && Outcome(first) != Outcome(other);
    }
  }

  /** A five-byte model name at offset 8, where the first entry of the index stands; and a serial number. */
  const MODEL_START: Bytes := [1, 0, 2, 0, 5]
  const SERIAL_START: Bytes := [2, 0, 2, 0, 1]
  const OVERLAPPING: Bytes := MODEL_START + [0, 0, 0, 8, 0, 0, 0]
  const INLINE: Bytes := SERIAL_START + [0, 0, 0, 0x37, 0, 0, 0]

  lemma {:induction false} OverlapDecodes(a: Bytes, b: Bytes)
    requires (a == OVERLAPPING && b == INLINE) || (a == INLINE && b == OVERLAPPING)
    ensures var raw := TwoEntries(a, b);
            && HasIndex(raw) && EntryCount(raw) == 2 && DistinctTags(ItemsOf(FoundIn(raw)))
            && Outcome(raw) == (CLEARED.(cameraModel := a[..5], serialNumber := [0x37]), Ok(()))
  {
    var raw := TwoEntries(a, b);
    TwoFound(a, b);
    BothFound(raw);
    assert a[..5][4] != 0;
    TwoStrings(a[..5], [0x37]);
  }

  /** In either order both fields are set, but the model is the start of whichever entry comes first. */
  lemma {:induction false} OverlappingPayloadMoves()
    ensures var raw, other := TwoEntries(OVERLAPPING, INLINE), TwoEntries(INLINE, OVERLAPPING);
            && HasIndex(raw) && EntryCount(raw) == 2 && DistinctTags(ItemsOf(FoundIn(raw)))
            && Reordered(raw, other, [1, 0])
            && Outcome(raw) == (CLEARED.(cameraModel := MODEL_START, serialNumber := [0x37]), Ok(()))
            && Outcome(other) == (CLEARED.(cameraModel := SERIAL_START, serialNumber := [0x37]), Ok(()))
  {
    TwoEntriesIndex(OVERLAPPING, INLINE);
    OverlapDecodes(OVERLAPPING, INLINE);
    OverlapDecodes(INLINE, OVERLAPPING);
    assert OVERLAPPING[..5] == MODEL_START && INLINE[..5] == SERIAL_START;
  }

  lemma {:induction false} BothFound(raw: Bytes)
    requires 13 <= |raw| < TWO_32
    ensures FoundOf(raw, OVERLAPPING) == Found(1, STRING, Ok(Data(raw[8..13])))
    ensures FoundOf(raw, INLINE) == Found(2, STRING, Ok(Data([0x37])))
  {
    assert INLINE[8..9] == [0x37];
  }

  lemma {:induction false} TwoFound(a: Bytes, b: Bytes)
    requires |a| == |b| == ENTRY
    ensures var raw := TwoEntries(a, b);
            && HasIndex(raw) && EntryCount(raw) == 2 && raw[8..13] == a[..5]
            && FoundIn(raw) == [FoundOf(raw, a), FoundOf(raw, b)]
  {
    TwoEntriesIndex(a, b);
    var raw := TwoEntries(a, b);
    assert FoundIn(raw) == [FoundOf(raw, a), FoundOf(raw, b)];
  }

  /** A model and a serial number, in either order. */
  lemma {:induction false} TwoStrings(a: Bytes, b: Bytes)
    requires a != [] && a[|a| - 1] != 0 && b != [] && b[|b| - 1] != 0
    ensures var x, y := Found(1, STRING, Ok(Data(a))), Found(2, STRING, Ok(Data(b)));
            && DistinctTags(ItemsOf([x, y])) && DistinctTags(ItemsOf([y, x]))
            && OutcomeOf([x, y]) == OutcomeOf([y, x]) == (CLEARED.(cameraModel := a, serialNumber := b), Ok(()))
  {
    var x, y := Found(1, STRING, Ok(Data(a))), Found(2, STRING, Ok(Data(b)));
    TwoWalked(x, y);
    TwoWalked(y, x);
  }

  lemma {:induction false} TwoWalked(x: Found, y: Found)
    ensures Walked([x, y]) == Applied(Applied(CLEARED, x), y)
    ensures Fault(x).None? && Fault(y).None? ==> OutcomeOf([x, y]) == (Walked([x, y]), Ok(()))
  {
    assert [x, y][..1] == [x] && [x][..0] == [] && [x, y][..2] == [x, y];
    assert Walked([x]) == Applied(Walked([]), x);
  }
}
