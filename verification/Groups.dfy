/** The five data groups together: the codec theorems, and the objects the driver hands out. */
module Groups {
  import opened Wrappers
  import opened Bytes
  import opened Slots
  import opened GroupSteps
  import FixedPoint
  import Group1
  import Group2
  import Group3
  import Group4
  import Group5

  datatype Group =
    | One(g1: Group1.Fields)
    | Two(g2: Group2.Fields)
    | Three(g3: Group3.Fields)
    | Four(g4: Group4.Fields)
    | Five(g5: Group5.Fields)

  predicate SameKind(a: Group, b: Group) {
    (a.One? <==> b.One?) && (a.Two? <==> b.Two?) && (a.Three? <==> b.Three?) && (a.Four? <==> b.Four?)
  }

  function TableOf(g: Group): seq<Slot> {
    match g
    case One(_) => Group1.Table()
    case Two(_) => Group2.Table()
    case Three(_) => Group3.Table()
    case Four(_) => Group4.Table()
    case Five(_) => Group5.Table()
  }

  function ViewOf(g: Group): (c: Cells)
    ensures |c| == |TableOf(g)|
  {
    match g
    case One(f) => Group1.View(f)
    case Two(f) => Group2.View(f)
    case Three(f) => Group3.View(f)
    case Four(f) => Group4.View(f)
    case Five(f) => Group5.View(f)
  }

  function NormalOf(g: Group): (n: Group)
    ensures SameKind(n, g)
  {
    match g
    case One(f) => One(Group1.Normal(f))
    case Two(f) => Two(Group2.Normal(f))
    case Three(f) => Three(Group3.Normal(f))
    case Four(f) => Four(Group4.Normal(f))
    case Five(f) => Five(Group5.Normal(f))
  }

  function PresenceOf(g: Group): seq<bool> {
    match g
    case One(f) => Group1.Presence(Group1.Normal(f))
    case Two(f) => Group2.Presence(f)
    case Three(f) => Group3.Presence(f)
    case Four(f) => Group4.Presence(f)
    case Five(f) => Group5.Presence(f)
  }

  predicate Encodable(g: Group) {
    g.Five? ==> Group5.Even(g.g5)
  }

  /** The payload of a group. */
  function Wire(g: Group): Bytes {
    Print(TableOf(g), ViewOf(NormalOf(g)))
  }

  // ----- theorems -----

  lemma {:induction false} ViewIsInjective(a: Group, b: Group)
    requires SameKind(a, b) && ViewOf(a) == ViewOf(b)
    ensures a == b
  {
    match a
    case One(f) => Group1.ViewIsInjective(f, b.g1);
    case Two(f) => Group2.ViewIsInjective(f, b.g2);
    case Three(f) => Group3.ViewIsInjective(f, b.g3);
    case Four(f) => Group4.ViewIsInjective(f, b.g4);
    case Five(f) => Group5.ViewIsInjective(f, b.g5);
  }

  lemma {:induction false} CoherentOf(g: Group)
    requires Encodable(g)
    ensures Coherent(TableOf(g), ViewOf(NormalOf(g)), PresenceOf(g))
  {
    match g
    case One(f) =>
      Group1.TableLayout();
      Group1.ViewShows(Group1.View(Group1.Normal(f)), Group1.Normal(f));
      Group1.SlotsAgree(Group1.Table(), Group1.View(Group1.Normal(f)), Group1.Normal(f));
    case Two(f) =>
      Group2.TableLayout();
      Group2.ViewShows(Group2.View(Group2.Normal(f)), Group2.Normal(f));
      Group2.SlotsAgree(Group2.Table(), Group2.View(Group2.Normal(f)), f);
    case Three(f) =>
      Group3.TableLayout();
      Group3.ViewShows(Group3.View(Group3.Normal(f)), Group3.Normal(f));
      Group3.SlotsAgree(Group3.Table(), Group3.View(Group3.Normal(f)), f);
    case Four(f) =>
      Group4.TableLayout();
      Group4.ViewShows(Group4.View(Group4.Normal(f)), Group4.Normal(f));
      Group4.SlotsAgree(Group4.Table(), Group4.View(Group4.Normal(f)), f);
    case Five(f) =>
      Group5.TableLayout();
      Group5.ViewShows(Group5.View(Group5.Normal(f)), Group5.Normal(f));
      Group5.SlotsAgree(Group5.Table(), Group5.View(Group5.Normal(f)), f);
  }

  lemma {:induction false} NormalIsIdempotent(g: Group)
    ensures NormalOf(NormalOf(g)) == NormalOf(g) && Encodable(NormalOf(g)) == Encodable(g)
  {
    if g.Three? {
      SixteenthsAgain(g.g3.lensWideFocalLength);
      SixteenthsAgain(g.g3.lensTeleFocalLength);
    }
  }

  lemma {:induction false} SixteenthsAgain(v: Option<real>)
    ensures Sixteenths(Sixteenths(v)) == Sixteenths(v)
  {
    if v.Some? {
      FixedPoint.CodeRoundTrip(FixedPoint.Encode(v.value));
    }
  }

  lemma {:induction false} Survives1(f: Group1.Fields)
    ensures Survivors(Group1.View(Group1.Normal(f))) == Group1.View(Group1.Normal(f))
  {
    var c := Group1.View(Group1.Normal(f));
    Group1.ViewShows(c, Group1.Normal(f));
    assert Group1.Shows(Survivors(c), Group1.Normal(f));
    Group1.ViewShows(Survivors(c), Group1.Normal(f));
  }

  lemma {:induction false} Survives2(f: Group2.Fields)
    ensures Survivors(Group2.View(Group2.Normal(f))) == Group2.View(Group2.Normal(f))
  {
    var c := Group2.View(Group2.Normal(f));
    Group2.ViewShows(c, Group2.Normal(f));
    assert Group2.Shows(Survivors(c), Group2.Normal(f));
    Group2.ViewShows(Survivors(c), Group2.Normal(f));
  }

  lemma {:induction false} Survives3(f: Group3.Fields)
    ensures Survivors(Group3.View(Group3.Normal(f))) == Group3.View(Group3.Normal(f))
  {
    var c := Group3.View(Group3.Normal(f));
    Group3.ViewShows(c, Group3.Normal(f));
    SixteenthsAgain(f.lensWideFocalLength);
    SixteenthsAgain(f.lensTeleFocalLength);
    assert Group3.Shows(Survivors(c), Group3.Normal(f));
    Group3.ViewShows(Survivors(c), Group3.Normal(f));
  }

  lemma {:induction false} Survives4(f: Group4.Fields)
    ensures Survivors(Group4.View(Group4.Normal(f))) == Group4.View(Group4.Normal(f))
  {
    var c := Group4.View(Group4.Normal(f));
    Group4.ViewShows(c, Group4.Normal(f));
    assert Group4.Shows(Survivors(c), Group4.Normal(f));
    Group4.ViewShows(Survivors(c), Group4.Normal(f));
  }

  lemma {:induction false} Survives5(f: Group5.Fields)
    ensures Survivors(Group5.View(Group5.Normal(f))) == Group5.View(Group5.Normal(f))
  {
    var c := Group5.View(Group5.Normal(f));
    Group5.ViewShows(c, Group5.Normal(f));
    assert Group5.Shows(Survivors(c), Group5.Normal(f));
    Group5.ViewShows(Survivors(c), Group5.Normal(f));
  }

  lemma {:induction false} NormalSurvives(g: Group)
    ensures Survivors(ViewOf(NormalOf(g))) == ViewOf(NormalOf(g))
  {
    match g
    case One(f) => Survives1(f);
    case Two(f) => Survives2(f);
    case Three(f) => Survives3(f);
    case Four(f) => Survives4(f);
    case Five(f) => Survives5(f);
  }

  /**
   Decoding what was encoded gives the normal form of every field, whatever the object
   held before, and the normal form encodes to the same bytes.
   */
  lemma {:induction false} GroupRoundTrip(g: Group, before: Group)
    requires Encodable(g) && SameKind(g, before)
    ensures Parse(TableOf(g), Wire(g), ViewOf(before)) == Scan(true, |Wire(g)|, ViewOf(NormalOf(g)))
    ensures Wire(NormalOf(g)) == Wire(g)
  {
    CoherentOf(g);
    RoundTrip(TableOf(g), ViewOf(NormalOf(g)), PresenceOf(g), ViewOf(before));
    NormalSurvives(g);
    NormalIsIdempotent(g);
  }

  /** Presence words of payloads that carry nothing but writable fields. */
  predicate Writable(g: Group, fp: nat) {
    Canonical(TableOf(g), fp) && (g.One? ==> forall k: nat | k < 8 :: !Has(fp, k))
  }

  lemma {:induction false} ReadOnlyUnset(f: Group1.Fields, d: seq<bool>)
    requires |d| == 16 && Coherent(Group1.Table(), Group1.View(f), d) && forall k | 0 <= k < 8 :: !d[k]
    ensures Group1.Normal(f) == f
  {
    var t, c := Group1.Table(), Group1.View(f);
    Group1.TableLayout();
    Group1.ViewShows(c, f);
    assert Agrees(t, c, d, 8) && Agrees(t, c, d, 9) && Agrees(t, c, d, 10) && Agrees(t, c, d, 11);
    assert Agrees(t, c, d, 12) && Agrees(t, c, d, 13) && Agrees(t, c, d, 14);
  }

  lemma {:induction false} CorrectionsTogether(f: Group4.Fields, d: seq<bool>)
    requires |d| == 16 && Coherent(Group4.Table(), Group4.View(f), d)
    ensures Group4.Normal(f) == f
  {
    var t, c := Group4.Table(), Group4.View(f);
    Group4.TableLayout();
    Group4.ViewShows(c, f);
    assert Agrees(t, c, d, 11) && Agrees(t, c, d, 12) && Agrees(t, c, d, 13);
    assert Agrees(t, c, d, 14) && Agrees(t, c, d, 15) && Agrees(t, c, d, 16);
  }

  lemma {:induction false} IntervalsTogether(f: Group5.Fields, d: seq<bool>)
    requires |d| == 16 && Coherent(Group5.Table(), Group5.View(f), d)
    ensures Group5.Normal(f) == f && Group5.Even(f)
  {
    var t, c := Group5.Table(), Group5.View(f);
    Group5.TableLayout();
    Group5.ViewShows(c, f);
    assert Agrees(t, c, d, 0) && Agrees(t, c, d, 1) && Agrees(t, c, d, 2) && Agrees(t, c, d, 3);
  }

  lemma {:induction false} WritableIsNormal(g: Group, fp: nat)
    requires Writable(g, fp) && Coherent(TableOf(g), ViewOf(g), Digits(fp)) && Survivors(ViewOf(g)) == ViewOf(g)
    ensures NormalOf(g) == g && Encodable(g)
  {
    var c := ViewOf(g);
    match g
    case One(f) => ReadOnlyUnset(f, Digits(fp));
    case Two(f) =>
    case Three(f) =>
      Group3.ViewShows(c, f);
      assert Survivors(c)[6] == c[6] && Survivors(c)[7] == c[7];
    case Four(f) => CorrectionsTogether(f, Digits(fp));
    case Five(f) => IntervalsTogether(f, Digits(fp));
  }

  /**
   A payload of the exact length whose presence word has only writable bits is encoded
   again byte for byte, but for the header and parity bytes, which become zero.
   */
  lemma {:induction false} CanonicalReencoding(raw: Bytes, before: Group, g: Group)
    requires 4 <= |raw| == 4 + Widths(TableOf(g), ReadBe16(raw, 1), |TableOf(g)|)
    requires SameKind(before, g) && Writable(g, ReadBe16(raw, 1))
    requires ViewOf(g) == Parse(TableOf(g), raw, ViewOf(before)).cells
    ensures Parse(TableOf(g), raw, ViewOf(before)).ok && Encodable(g)
    ensures Wire(g) == [0] + raw[1..|raw| - 1] + [0]
  {
    SmallBits(g);
    Reencode(TableOf(g), raw, ViewOf(before));
    WritableIsNormal(g, ReadBe16(raw, 1));
  }

  lemma {:induction false} SmallBits(g: Group)
    ensures |TableOf(g)| <= 20
    ensures forall j | 0 <= j < |TableOf(g)| :: TableOf(g)[j].bit < 16
  {
    match g
    case One(_) => Group1.TableLayout();
    case Two(_) => Group2.TableLayout();
    case Three(_) => Group3.TableLayout();
    case Four(_) => Group4.TableLayout();
    case Five(_) => Group5.TableLayout();
  }

  // ----- the group objects -----

  /** Any of the five group objects; the decoder fills it in place. */
  class CamDataGroup {
    var value: Group

    constructor (blank: Group)
      ensures value == blank
    {
      value := blank;
    }

    method Encode() returns (r: Result<Bytes>)
      ensures r == if Encodable(value) then Ok(Wire(value)) else Err(UnevenInterval)
    {
      match value {
        case One(f) => var out := Group1.Encode(f); return Ok(out);
        case Two(f) => var out := Group2.Encode(f); return Ok(out);
        case Three(f) => var out := Group3.Encode(f); return Ok(out);
        case Four(f) => var out := Group4.Encode(f); return Ok(out);
        case Five(f) => r := Group5.Encode(f);
      }
    }

    method Decode(raw: Bytes) returns (r: Result<()>)
      modifies this
      ensures SameKind(value, old(value))
      ensures r.Ok? <==> Parse(TableOf(old(value)), raw, ViewOf(old(value))).ok
      ensures ViewOf(value) == Parse(TableOf(old(value)), raw, ViewOf(old(value))).cells
    {
      match value {
        case One(f) => var g; r, g := Group1.Decode(raw, f); value := One(g);
        case Two(f) => var g; r, g := Group2.Decode(raw, f); value := Two(g);
        case Three(f) => var g; r, g := Group3.Decode(raw, f); value := Three(g);
        case Four(f) => var g; r, g := Group4.Decode(raw, f); value := Four(g);
        case Five(f) => var g; r, g := Group5.Decode(raw, f); value := Five(g);
      }
    }
  }
}
