/** The bytes of the data groups, as numbers. */
module Payloads {
  import opened Wrappers
  import opened Bytes
  import opened Slots
  import opened GroupSteps
  import opened Groups
  import FixedPoint
  import Group1
  import Group2
  import Group3
  import Group4
  import Group5

  // ----- presence words -----

  /** Eight binary digits, lowest first. */
  function Octet(d0: bool, d1: bool, d2: bool, d3: bool, d4: bool, d5: bool, d6: bool, d7: bool): byte {
    (if d0 then 1 else 0) + (if d1 then 2 else 0) + (if d2 then 4 else 0) + (if d3 then 8 else 0)
    + (if d4 then 16 else 0) + (if d5 then 32 else 0) + (if d6 then 64 else 0) + (if d7 then 128 else 0)
  }

  /** The number with these binary digits, lowest first. */
  function Number(d: seq<bool>): nat {
    if d == [] then 0 else 2 * Number(d[1..]) + if d[0] then 1 else 0
  }

  lemma {:induction false} NumberHas(d: seq<bool>, k: nat)
    requires k < |d|
    ensures Has(Number(d), k) <==> d[k]
  {
    if k > 0 {
      NumberHas(d[1..], k - 1);
    }
  }

  lemma {:induction false} NumberBelow(d: seq<bool>)
    ensures Below(Number(d), |d|)
  {
    if d != [] {
      NumberBelow(d[1..]);
    }
  }

  lemma {:induction false} FourDigits(d: seq<bool>)
    requires 4 <= |d|
    ensures Number(d) == 16 * Number(d[4..]) + (if d[3] then 8 else 0) + (if d[2] then 4 else 0)
                         + (if d[1] then 2 else 0) + (if d[0] then 1 else 0)
  {
    assert d[1..][1..] == d[2..] && d[2..][1..] == d[3..] && d[3..][1..] == d[4..];
    assert Number(d[1..]) == 2 * Number(d[2..]) + if d[1] then 1 else 0;
    assert Number(d[2..]) == 2 * Number(d[3..]) + if d[2] then 1 else 0;
    assert Number(d[3..]) == 2 * Number(d[4..]) + if d[3] then 1 else 0;
  }

  lemma {:induction false} NumberOctet(d: seq<bool>)
    requires 8 <= |d|
    ensures Number(d) == 256 * Number(d[8..]) + Octet(d[0], d[1], d[2], d[3], d[4], d[5], d[6], d[7])
  {
    FourDigits(d);
    FourDigits(d[4..]);
    assert d[4..][4..] == d[8..];
  }

  lemma {:induction false} NumberOctets(d: seq<bool>)
    requires |d| == 16
    ensures Number(d) == 256 * Octet(d[8], d[9], d[10], d[11], d[12], d[13], d[14], d[15])
                         + Octet(d[0], d[1], d[2], d[3], d[4], d[5], d[6], d[7])
  {
    NumberOctet(d);
    NumberOctet(d[8..]);
    assert d[8..][8..] == [];
  }

  predicate HasSlot(t: seq<Slot>, k: nat) {
    exists j :: 0 <= j < |t| && t[j].bit == k
  }

  /** Every digit that is set is the presence bit of some slot. */
  predicate Covers(t: seq<Slot>, d: seq<bool>) {
    forall k: nat | k < |d| && d[k] :: HasSlot(t, k)
  }

  /** Header and presence word of fields whose digits are `d`. */
  lemma {:induction false} WordOctets(t: seq<Slot>, c: Cells, d: seq<bool>)
    requires Coherent(t, c, d) && Covers(t, d)
    ensures Out(t, c, 0) == [0, Octet(d[8], d[9], d[10], d[11], d[12], d[13], d[14], d[15]),
                             Octet(d[0], d[1], d[2], d[3], d[4], d[5], d[6], d[7])]
  {
    WordIsNumber(t, c, d);
    NumberOctets(d);
  }

  lemma {:induction false} WordIsNumber(t: seq<Slot>, c: Cells, d: seq<bool>)
    requires Coherent(t, c, d) && Covers(t, d)
    ensures PresenceWord(t, c) == Number(d)
  {
    forall i | 0 <= i < |t| ensures t[i].bit < 16 {
      assert Agrees(t, c, d, i);
    }
    WordBound(t, c, |t|);
    NumberBelow(d);
    forall k: nat | k < 16 ensures Has(WordTo(t, c, |t|), k) <==> Has(Number(d), k) {
      NumberHas(d, k);
      WordHas(t, c, |t|, k);
      if d[k] {
        assert HasSlot(t, k);
        var j: nat :| j < |t| && t[j].bit == k;
        assert Agrees(t, c, d, j);
      }
      forall j: nat | j < |t| && t[j].bit == k ensures c[j].Some? <==> d[k] {
        assert Agrees(t, c, d, j);
      }
    }
    SameDigits(WordTo(t, c, |t|), Number(d), 16);
  }

  // ----- fields -----

  /** The bytes of a field that is set. */
  function OfByte(v: Option<byte>): Bytes {
    if v.Some? then [v.value] else []
  }

  function OfSigned(v: Option<int8>): Bytes {
    if v.Some? then [if v.value < 0 then v.value + 256 else v.value] else []
  }

  function OfWord(v: Option<uint16>): Bytes {
    if v.Some? then [v.value % 256, v.value / 256] else []
  }

  function OfFixed(v: Option<real>): Bytes {
    if v.Some? then [FixedPoint.Encode(v.value) % 256, FixedPoint.Encode(v.value) / 256] else []
  }

  function OfCell(c: Option<Value>): Bytes {
    if c.Some? then ToBytes(c.value) else []
  }

  lemma {:induction false} CellBytes(b: Option<byte>, i: Option<int8>, w: Option<uint16>, f: Option<real>)
    ensures OfCell(ByteCell(b)) == OfByte(b) && OfCell(SignedCell(i)) == OfSigned(i)
    ensures OfCell(WordCell(w)) == OfWord(w) && OfCell(FixedCell(f)) == OfFixed(f)
  {
  }

  /** `o[n]` is what is printed before slot `n`. */
  ghost predicate Grows(o: seq<Bytes>, c: Cells) {
    |o| == |c| + 1 && forall n: nat {:trigger At(n)} | n < |c| && At(n) :: o[n + 1] == o[n] + OfCell(c[n])
  }

  lemma {:induction false} Growth(t: seq<Slot>, c: Cells) returns (o: seq<Bytes>)
    requires |t| == |c|
    ensures Grows(o, c) && forall n: nat | n <= |t| :: o[n] == Out(t, c, n)
  {
    o := seq(|t| + 1, n requires 0 <= n <= |t| => Out(t, c, n));
    forall n: nat | n < |c| ensures o[n + 1] == o[n] + OfCell(c[n]) {
      assert Out(t, c, n) + [] == Out(t, c, n);
    }
  }

  // ----- group 1 -----

  lemma {:induction false} Covered1(t: seq<Slot>, d: seq<bool>)
    requires Group1.Layout(t) && |d| == 16
    ensures Covers(t, d)
  {
    assert t[8].bit == 0 && t[9].bit == 1 && t[10].bit == 2 && t[11].bit == 3 && t[12].bit == 4 && t[13].bit == 5;
    assert t[14].bit == 6 && t[15].bit == 7 && t[0].bit == 8 && t[1].bit == 9 && t[2].bit == 10 && t[3].bit == 11;
    assert t[4].bit == 12 && t[5].bit == 13 && t[6].bit == 14 && t[7].bit == 15;
  }

  lemma {:induction false} Head1(t: seq<Slot>, c: Cells, g: Group1.Fields)
    requires Group1.Layout(t) && Group1.Shows(c, g)
    ensures Out(t, c, 0) ==
            [0, Octet(g.shutterSpeed.Some?, g.aperture.Some?, g.programShift.Some?, g.isoAuto.Some?, g.isoSpeed.Some?,
                      g.expComp.Some?, g.abValue.Some?, g.abSetting.Some?),
             Octet(g.frameBufferState.Some?, g.mediaFreeSpace.Some?, g.mediaStatus.Some?,
                   g.currentLensFocalLength.Some?, g.batteryState.Some?, g.abShotRemainNumber.Some?,
                   g.expCompExcludeAB.Some?, false)]
  {
    Group1.SlotsAgree(t, c, g);
    Covered1(t, Group1.Presence(g));
    WordOctets(t, c, Group1.Presence(g));
  }

  lemma {:induction false} Writable1(o: seq<Bytes>, c: Cells, g: Group1.Fields)
    requires Grows(o, c) && Group1.Shows(c, g)
    ensures o[8] == o[0] + OfByte(g.shutterSpeed) + OfByte(g.aperture) + OfByte(g.programShift) + OfByte(g.isoAuto)
                    + OfByte(g.isoSpeed) + OfByte(g.expComp) + OfByte(g.abValue) + OfByte(g.abSetting)
  {
    assert At(0) && At(1) && At(2) && At(3) && At(4) && At(5) && At(6) && At(7);
  }

  lemma {:induction false} Body1(o: seq<Bytes>, c: Cells, g: Group1.Fields)
    requires Grows(o, c) && Group1.Shows(c, g)
    ensures o[16] ==
            o[0]
            + OfByte(g.shutterSpeed) + OfByte(g.aperture) + OfByte(g.programShift) + OfByte(g.isoAuto)
            + OfByte(g.isoSpeed) + OfByte(g.expComp) + OfByte(g.abValue) + OfByte(g.abSetting)
            + OfByte(g.frameBufferState) + OfWord(g.mediaFreeSpace) + OfByte(g.mediaStatus)
            + OfFixed(g.currentLensFocalLength) + OfByte(g.batteryState) + OfByte(g.abShotRemainNumber)
            + OfByte(g.expCompExcludeAB)
  {
    Writable1(o, c, g);
    assert At(8) && At(9) && At(10) && At(11) && At(12) && At(13) && At(14) && At(15);
    assert o[15] + [] == o[15];
  }

  /** The bytes of any group 1, read-only fields included. */
  lemma {:induction false} Payload1(g: Group1.Fields)
    ensures Print(Group1.Table(), Group1.View(g)) ==
            [0, Octet(g.shutterSpeed.Some?, g.aperture.Some?, g.programShift.Some?, g.isoAuto.Some?, g.isoSpeed.Some?,
                      g.expComp.Some?, g.abValue.Some?, g.abSetting.Some?),
             Octet(g.frameBufferState.Some?, g.mediaFreeSpace.Some?, g.mediaStatus.Some?,
                   g.currentLensFocalLength.Some?, g.batteryState.Some?, g.abShotRemainNumber.Some?,
                   g.expCompExcludeAB.Some?, false)]
            + OfByte(g.shutterSpeed) + OfByte(g.aperture) + OfByte(g.programShift) + OfByte(g.isoAuto)
            + OfByte(g.isoSpeed) + OfByte(g.expComp) + OfByte(g.abValue) + OfByte(g.abSetting)
            + OfByte(g.frameBufferState) + OfWord(g.mediaFreeSpace) + OfByte(g.mediaStatus)
            + OfFixed(g.currentLensFocalLength) + OfByte(g.batteryState) + OfByte(g.abShotRemainNumber)
            + OfByte(g.expCompExcludeAB) + [0]
  {
    var t, c := Group1.Table(), Group1.View(g);
    Group1.TableLayout();
    Group1.ViewShows(c, g);
    Head1(t, c, g);
    var o := Growth(t, c);
    Body1(o, c, g);
  }

  /** What is sent of a group 1: the eight writable fields. */
  lemma {:induction false} Wire1(g: Group1.Fields)
    ensures Encodable(One(g))
    ensures Wire(One(g)) ==
            [0, Octet(g.shutterSpeed.Some?, g.aperture.Some?, g.programShift.Some?, g.isoAuto.Some?, g.isoSpeed.Some?,
                      g.expComp.Some?, g.abValue.Some?, g.abSetting.Some?), 0]
            + OfByte(g.shutterSpeed) + OfByte(g.aperture) + OfByte(g.programShift) + OfByte(g.isoAuto)
            + OfByte(g.isoSpeed) + OfByte(g.expComp) + OfByte(g.abValue) + OfByte(g.abSetting) + [0]
  {
    var n := Group1.Normal(g);
    var t, c := Group1.Table(), Group1.View(n);
    Group1.TableLayout();
    Group1.ViewShows(c, n);
    Head1(t, c, n);
    var o := Growth(t, c);
    Writable1(o, c, n);
    PassOver(t, c, 8, 16, o[8]);
  }

  // ----- group 2 -----

  lemma {:induction false} Covered2(t: seq<Slot>, d: seq<bool>)
    requires Group2.Layout(t) && |d| == 16
    ensures Covers(t, d)
  {
    assert t[8].bit == 0 && t[9].bit == 1 && t[10].bit == 2 && t[11].bit == 3 && t[12].bit == 4 && t[13].bit == 5;
    assert t[14].bit == 6 && t[15].bit == 7 && t[0].bit == 8 && t[1].bit == 9 && t[2].bit == 10 && t[3].bit == 11;
    assert t[7].bit == 12 && t[6].bit == 13 && t[5].bit == 14 && t[4].bit == 15;
  }

  lemma {:induction false} Head2(t: seq<Slot>, c: Cells, g: Group2.Fields)
    requires Group2.Layout(t) && Group2.Shows(c, g)
    ensures Out(t, c, 0) ==
            [0, Octet(g.driveMode.Some?, g.specialMode.Some?, g.exposureMode.Some?, g.aeMeteringMode.Some?,
                      false, false, false, false),
             Octet(g.flashType.Some?, false, g.flashMode.Some?, g.flashSetting.Some?, false, g.whiteBalance.Some?,
                   g.resolution.Some?, g.imageQuality.Some?)]
  {
    Group2.SlotsAgree(t, c, g);
    Covered2(t, Group2.Presence(g));
    WordOctets(t, c, Group2.Presence(g));
  }

  lemma {:induction false} Body2(o: seq<Bytes>, c: Cells, g: Group2.Fields)
    requires Grows(o, c) && Group2.Shows(c, g)
    ensures o[16] ==
            o[0] + OfByte(g.driveMode) + OfByte(g.specialMode) + OfByte(g.exposureMode) + OfByte(g.aeMeteringMode)
            + OfByte(g.flashType) + OfByte(g.flashMode) + OfByte(g.flashSetting) + OfByte(g.whiteBalance)
            + OfByte(g.resolution) + OfByte(g.imageQuality)
  {
    assert At(0) && At(1) && At(2) && At(3) && At(4) && At(5) && At(6) && At(7);
    assert At(8) && At(9) && At(10) && At(11) && At(12) && At(13) && At(14) && At(15);
    assert o[4] + [] == o[4] && o[9] + [] == o[9] && o[12] + [] == o[12];
  }

  /** The bytes of any group 2. */
  lemma {:induction false} Payload2(g: Group2.Fields)
    ensures Encodable(Two(g))
    ensures Wire(Two(g)) ==
            [0, Octet(g.driveMode.Some?, g.specialMode.Some?, g.exposureMode.Some?, g.aeMeteringMode.Some?,
                      false, false, false, false),
             Octet(g.flashType.Some?, false, g.flashMode.Some?, g.flashSetting.Some?, false, g.whiteBalance.Some?,
                   g.resolution.Some?, g.imageQuality.Some?)]
            + OfByte(g.driveMode) + OfByte(g.specialMode) + OfByte(g.exposureMode) + OfByte(g.aeMeteringMode)
            + OfByte(g.flashType) + OfByte(g.flashMode) + OfByte(g.flashSetting) + OfByte(g.whiteBalance)
            + OfByte(g.resolution) + OfByte(g.imageQuality) + [0]
  {
    var t, c := Group2.Table(), Group2.View(g);
    Group2.TableLayout();
    Group2.ViewShows(c, g);
    Head2(t, c, g);
    var o := Growth(t, c);
    Body2(o, c, g);
  }

  // ----- group 3 -----

  lemma {:induction false} Covered3(t: seq<Slot>, d: seq<bool>)
    requires Group3.Layout(t) && |d| == 16
    ensures Covers(t, d)
  {
    assert t[8].bit == 0 && t[9].bit == 1 && t[10].bit == 2 && t[11].bit == 3 && t[12].bit == 4 && t[13].bit == 5;
    assert t[14].bit == 6 && t[15].bit == 7 && t[0].bit == 8 && t[1].bit == 9 && t[2].bit == 10 && t[3].bit == 11;
    assert t[4].bit == 12 && t[5].bit == 13 && t[6].bit == 14 && t[7].bit == 15;
  }

  lemma {:induction false} Head3(t: seq<Slot>, c: Cells, g: Group3.Fields)
    requires Group3.Layout(t) && Group3.Shows(c, Group3.Normal(g))
    ensures Out(t, c, 0) ==
            [0, Octet(false, false, false, g.colorSpace.Some?, g.colorMode.Some?, g.batteryKind.Some?,
                      g.lensWideFocalLength.Some?, g.lensTeleFocalLength.Some?),
             Octet(g.afAuxLight.Some?, g.afBeep.Some?, false, false, false, g.timerSound.Some?, false,
                   g.destToSave.Some?)]
  {
    Group3.SlotsAgree(t, c, g);
    Covered3(t, Group3.Presence(g));
    WordOctets(t, c, Group3.Presence(g));
  }

  lemma {:induction false} Body3(o: seq<Bytes>, c: Cells, g: Group3.Fields)
    requires Grows(o, c) && Group3.Shows(c, g)
    ensures o[16] ==
            o[0] + OfByte(g.colorSpace) + OfByte(g.colorMode) + OfByte(g.batteryKind) + OfFixed(g.lensWideFocalLength)
            + OfFixed(g.lensTeleFocalLength) + OfByte(g.afAuxLight) + OfByte(g.afBeep) + OfByte(g.timerSound)
            + OfByte(g.destToSave)
  {
    assert At(0) && At(1) && At(2) && At(3) && At(4) && At(5) && At(6) && At(7);
    assert At(8) && At(9) && At(10) && At(11) && At(12) && At(13) && At(14) && At(15);
    assert o[0] + [] == o[0] && o[10] + [] == o[10] && o[14] + [] == o[14];
  }

  /** The bytes of any group 3; a focal length is written in sixteenths. */
  lemma {:induction false} Payload3(g: Group3.Fields)
    ensures Encodable(Three(g))
    ensures Wire(Three(g)) ==
            [0, Octet(false, false, false, g.colorSpace.Some?, g.colorMode.Some?, g.batteryKind.Some?,
                      g.lensWideFocalLength.Some?, g.lensTeleFocalLength.Some?),
             Octet(g.afAuxLight.Some?, g.afBeep.Some?, false, false, false, g.timerSound.Some?, false,
                   g.destToSave.Some?)]
            + OfByte(g.colorSpace) + OfByte(g.colorMode) + OfByte(g.batteryKind) + OfFixed(g.lensWideFocalLength)
            + OfFixed(g.lensTeleFocalLength) + OfByte(g.afAuxLight) + OfByte(g.afBeep) + OfByte(g.timerSound)
            + OfByte(g.destToSave) + [0]
  {
    var n := Group3.Normal(g);
    var t, c := Group3.Table(), Group3.View(n);
    Group3.TableLayout();
    Group3.ViewShows(c, n);
    Head3(t, c, g);
    var o := Growth(t, c);
    Body3(o, c, n);
    SixteenthsBytes(g.lensWideFocalLength);
    SixteenthsBytes(g.lensTeleFocalLength);
  }

  lemma {:induction false} SixteenthsBytes(v: Option<real>)
    ensures OfFixed(Sixteenths(v)) == OfFixed(v)
  {
    if v.Some? {
      FixedPoint.CodeRoundTrip(FixedPoint.Encode(v.value));
    }
  }

  // ----- group 4 -----

  lemma {:induction false} Covered4(t: seq<Slot>, g: Group4.Fields)
    requires Group4.Layout(t)
    ensures Covers(t, Group4.Presence(g))
  {
    assert t[8].bit == 0 && t[9].bit == 1 && t[10].bit == 2 && t[11].bit == 3 && t[17].bit == 4 && t[18].bit == 5;
    assert t[4].bit == 12 && t[5].bit == 13 && t[6].bit == 14 && t[7].bit == 15;
  }

  lemma {:induction false} Head4(t: seq<Slot>, c: Cells, g: Group4.Fields)
    requires Group4.Layout(t) && Group4.Shows(c, Group4.Normal(g))
    ensures Out(t, c, 0) ==
            [0, Octet(false, false, false, false, g.dcCropMode.Some?, g.lvMagnifyRatio.Some?, g.highISOExt.Some?,
                      g.contShootSpeed.Some?),
             Octet(g.hdr.Some?, g.dngQuality.Some?, g.fillLight.Some?, Group4.HasCorrections(g), g.eImageStab.Some?,
                   g.shutterSound.Some?, false, false)]
  {
    Group4.SlotsAgree(t, c, g);
    Covered4(t, g);
    WordOctets(t, c, Group4.Presence(g));
  }

  lemma {:induction false} Upper4(o: seq<Bytes>, c: Cells, g: Group4.Fields)
    requires Grows(o, c) && Group4.Shows(c, g)
    ensures o[11] ==
            o[0] + OfByte(g.dcCropMode) + OfByte(g.lvMagnifyRatio) + OfByte(g.highISOExt) + OfByte(g.contShootSpeed)
            + OfByte(g.hdr) + OfByte(g.dngQuality) + OfSigned(g.fillLight)
  {
    assert At(0) && At(1) && At(2) && At(3) && At(4) && At(5) && At(6) && At(7) && At(8) && At(9) && At(10);
    assert o[0] + [] == o[0];
  }

  lemma {:induction false} Body4(o: seq<Bytes>, c: Cells, g: Group4.Fields)
    requires Grows(o, c) && Group4.Shows(c, g)
    ensures o[19] ==
            o[0] + OfByte(g.dcCropMode) + OfByte(g.lvMagnifyRatio) + OfByte(g.highISOExt) + OfByte(g.contShootSpeed)
            + OfByte(g.hdr) + OfByte(g.dngQuality) + OfSigned(g.fillLight)
            + OfByte(g.locDistortion) + OfByte(g.locChromaticAberration) + OfByte(g.locDiffraction)
            + OfByte(g.locVignetting) + OfByte(g.locColorShade) + OfByte(g.locColorShadeAcq)
            + OfByte(g.eImageStab) + OfByte(g.shutterSound)
  {
    Upper4(o, c, g);
    assert At(11) && At(12) && At(13) && At(14) && At(15) && At(16) && At(17) && At(18);
  }

  /** The six correction bytes: none, or those set with 2, and 0xFE for colour shading, in place of the others. */
  function Filled(g: Group4.Fields): Bytes {
    if !Group4.HasCorrections(g) then []
    else [g.locDistortion.GetOr(2), g.locChromaticAberration.GetOr(2), g.locDiffraction.GetOr(2),
          g.locVignetting.GetOr(2), g.locColorShade.GetOr(0xFE), g.locColorShadeAcq.GetOr(2)]
  }

  lemma {:induction false} FilledBytes(g: Group4.Fields, o: Bytes)
    ensures var n := Group4.Normal(g);
            o + OfByte(n.locDistortion) + OfByte(n.locChromaticAberration) + OfByte(n.locDiffraction)
            + OfByte(n.locVignetting) + OfByte(n.locColorShade) + OfByte(n.locColorShadeAcq) == o + Filled(g)
  {
  }

  /** The bytes of any group 4. */
  lemma {:induction false} Payload4(g: Group4.Fields)
    ensures Encodable(Four(g))
    ensures Wire(Four(g)) ==
            [0, Octet(false, false, false, false, g.dcCropMode.Some?, g.lvMagnifyRatio.Some?, g.highISOExt.Some?,
                      g.contShootSpeed.Some?),
             Octet(g.hdr.Some?, g.dngQuality.Some?, g.fillLight.Some?, Group4.HasCorrections(g), g.eImageStab.Some?,
                   g.shutterSound.Some?, false, false)]
            + OfByte(g.dcCropMode) + OfByte(g.lvMagnifyRatio) + OfByte(g.highISOExt) + OfByte(g.contShootSpeed)
            + OfByte(g.hdr) + OfByte(g.dngQuality) + OfSigned(g.fillLight)
            + Filled(g) + OfByte(g.eImageStab) + OfByte(g.shutterSound) + [0]
  {
    var n := Group4.Normal(g);
    var t, c := Group4.Table(), Group4.View(n);
    Group4.TableLayout();
    Group4.ViewShows(c, n);
    Head4(t, c, g);
    var o := Growth(t, c);
    Body4(o, c, n);
    FilledBytes(g, o[0] + OfByte(g.dcCropMode) + OfByte(g.lvMagnifyRatio) + OfByte(g.highISOExt)
                   + OfByte(g.contShootSpeed) + OfByte(g.hdr) + OfByte(g.dngQuality) + OfSigned(g.fillLight));
  }

  // ----- group 5 -----

  lemma {:induction false} Covered5(t: seq<Slot>, d: seq<bool>)
    requires Group5.Layout(t) && |d| == 16
    ensures Covers(t, d)
  {
    assert t[12].bit == 0 && t[13].bit == 1 && t[14].bit == 2 && t[15].bit == 3 && t[16].bit == 4 && t[17].bit == 5;
    assert t[18].bit == 6 && t[10].bit == 7 && t[0].bit == 8 && t[4].bit == 9 && t[5].bit == 10 && t[6].bit == 11;
    assert t[7].bit == 12 && t[8].bit == 13 && t[9].bit == 14 && t[11].bit == 15;
  }

  lemma {:induction false} Head5(t: seq<Slot>, c: Cells, g: Group5.Fields)
    requires Group5.Layout(t) && Group5.Shows(c, Group5.Normal(g))
    requires g.intervalTimerSecond.Some? == g.intervalTimerFrame.Some?
    ensures Out(t, c, 0) ==
            [0, Octet(g.intervalTimerSecond.Some?, g.colorTemp.Some?, false, g.aspectRatio.Some?, false,
                      g.toneEffect.Some?, false, false),
             Octet(false, false, false, false, false, false, false, g.afAuxLightEF.Some?)]
  {
    Group5.SlotsAgree(t, c, g);
    Covered5(t, Group5.Presence(g));
    WordOctets(t, c, Group5.Presence(g));
  }

  lemma {:induction false} Body5(o: seq<Bytes>, c: Cells, g: Group5.Fields)
    requires Grows(o, c) && Group5.Shows(c, g)
    ensures o[19] ==
            o[0] + OfWord(g.intervalTimerSecond) + OfByte(g.intervalTimerFrame) + OfWord(g.intervalTimerSecondRemain)
            + OfByte(g.intervalTimerFrameRemain)
            + OfWord(g.colorTemp) + OfByte(g.aspectRatio) + OfByte(g.toneEffect) + OfByte(g.afAuxLightEF)
  {
    assert At(0) && At(1) && At(2) && At(3) && At(4) && At(5) && At(6) && At(7) && At(8) && At(9);
    assert At(10) && At(11) && At(12) && At(13) && At(14) && At(15) && At(16) && At(17) && At(18);
    assert o[5] + [] == o[5] && o[7] + [] == o[7] && o[9] + [] == o[9] && o[11] + [] == o[11];
  }

  /** The six interval bytes, with 0 for remains that are not set; none without an interval. */
  function Interval(g: Group5.Fields): Bytes {
    if g.intervalTimerSecond.None? || g.intervalTimerFrame.None? then []
    else
      var (second, remain) := (g.intervalTimerSecond.value, g.intervalTimerSecondRemain.GetOr(0));
      [second % 256, second / 256, g.intervalTimerFrame.value, remain % 256, remain / 256,
       g.intervalTimerFrameRemain.GetOr(0)]
  }

  lemma {:induction false} IntervalBytes(g: Group5.Fields, o: Bytes)
    requires g.intervalTimerSecond.Some? == g.intervalTimerFrame.Some?
    ensures var n := Group5.Normal(g);
            o + OfWord(n.intervalTimerSecond) + OfByte(n.intervalTimerFrame) + OfWord(n.intervalTimerSecondRemain)
            + OfByte(n.intervalTimerFrameRemain) == o + Interval(g)
  {
  }

  /** The bytes of any group 5; it is refused exactly when only one of interval seconds and frames is set. */
  lemma {:induction false} Payload5(g: Group5.Fields)
    ensures Encodable(Five(g)) <==> g.intervalTimerSecond.Some? == g.intervalTimerFrame.Some?
    ensures Encodable(Five(g)) ==>
              Wire(Five(g)) ==
              [0, Octet(g.intervalTimerSecond.Some?, g.colorTemp.Some?, false, g.aspectRatio.Some?, false,
                        g.toneEffect.Some?, false, false),
               Octet(false, false, false, false, false, false, false, g.afAuxLightEF.Some?)]
              + Interval(g)
              + OfWord(g.colorTemp) + OfByte(g.aspectRatio) + OfByte(g.toneEffect) + OfByte(g.afAuxLightEF) + [0]
  {
    if Encodable(Five(g)) {
      var n := Group5.Normal(g);
      var t, c := Group5.Table(), Group5.View(n);
      Group5.TableLayout();
      Group5.ViewShows(c, n);
      Head5(t, c, g);
      var o := Growth(t, c);
      Body5(o, c, n);
      IntervalBytes(g, o[0]);
    }
  }
}
