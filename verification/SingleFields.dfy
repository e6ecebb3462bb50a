/** The bytes of every field of every data group on its own. */
module SingleFields {
  import opened Wrappers
  import opened Bytes
  import opened Slots
  import opened GroupSteps
  import opened Groups
  import opened Payloads
  import FixedPoint
  import Group1
  import Group2
  import Group3
  import Group4
  import Group5

  /** No slot but `j` holds a value. */
  predicate Lone(c: Cells, j: nat) {
    j < |c| && c[j].Some? && forall i | 0 <= i < |c| && i != j :: c[i] == None
  }

  lemma {:induction false} LonePrint(t: seq<Slot>, c: Cells, j: nat)
    requires |t| == |c| && Lone(c, j)
    ensures Print(t, c) == Out(t, c, 0) + ToBytes(c[j].value) + [0]
  {
    PassOver(t, c, 0, j, Out(t, c, 0));
    PassOver(t, c, j + 1, |t|, Out(t, c, j + 1));
  }

  // ----- group 1 -----

  lemma {:induction false} Lone1(g: Group1.Fields, j: nat)
    requires Lone(Group1.View(Group1.Normal(g)), j)
    ensures Wire(One(g)) ==
            [0, Octet(g.shutterSpeed.Some?, g.aperture.Some?, g.programShift.Some?, g.isoAuto.Some?, g.isoSpeed.Some?,
                      g.expComp.Some?, g.abValue.Some?, g.abSetting.Some?), 0]
            + ToBytes(Group1.View(Group1.Normal(g))[j].value) + [0]
  {
    var t, c := Group1.Table(), Group1.View(Group1.Normal(g));
    Group1.TableLayout();
    Group1.ViewShows(c, Group1.Normal(g));
    Head1(t, c, Group1.Normal(g));
    LonePrint(t, c, j);
  }

  lemma {:induction false} Alone1A(b: Group1.Fields, v: byte)
    requires b == Group1.Fields(None, None, None, None, None, None, None, None, None, None, None, None, None, None, None)
    ensures Wire(One(b.(shutterSpeed := Some(v)))) == [0, 1, 0, v, 0]
    ensures Wire(One(b.(aperture := Some(v)))) == [0, 2, 0, v, 0]
    ensures Wire(One(b.(programShift := Some(v)))) == [0, 4, 0, v, 0]
  {
    Lone1(b.(shutterSpeed := Some(v)), 0);
    Lone1(b.(aperture := Some(v)), 1);
    Lone1(b.(programShift := Some(v)), 2);
  }

  lemma {:induction false} Alone1B(b: Group1.Fields, v: byte)
    requires b == Group1.Fields(None, None, None, None, None, None, None, None, None, None, None, None, None, None, None)
    ensures Wire(One(b.(isoAuto := Some(v)))) == [0, 8, 0, v, 0]
    ensures Wire(One(b.(isoSpeed := Some(v)))) == [0, 16, 0, v, 0]
    ensures Wire(One(b.(expComp := Some(v)))) == [0, 32, 0, v, 0]
  {
    Lone1(b.(isoAuto := Some(v)), 3);
    Lone1(b.(isoSpeed := Some(v)), 4);
    Lone1(b.(expComp := Some(v)), 5);
  }

  lemma {:induction false} Alone1C(b: Group1.Fields, v: byte)
    requires b == Group1.Fields(None, None, None, None, None, None, None, None, None, None, None, None, None, None, None)
    ensures Wire(One(b.(abValue := Some(v)))) == [0, 64, 0, v, 0]
    ensures Wire(One(b.(abSetting := Some(v)))) == [0, 128, 0, v, 0]
  {
    Lone1(b.(abValue := Some(v)), 6);
    Lone1(b.(abSetting := Some(v)), 7);
  }

  // ----- group 2 -----

  lemma {:induction false} Lone2(g: Group2.Fields, j: nat)
    requires Lone(Group2.View(g), j)
    ensures Wire(Two(g)) ==
            [0, Octet(g.driveMode.Some?, g.specialMode.Some?, g.exposureMode.Some?, g.aeMeteringMode.Some?,
                      false, false, false, false),
             Octet(g.flashType.Some?, false, g.flashMode.Some?, g.flashSetting.Some?, false, g.whiteBalance.Some?,
                   g.resolution.Some?, g.imageQuality.Some?)]
            + ToBytes(Group2.View(g)[j].value) + [0]
  {
    var t, c := Group2.Table(), Group2.View(g);
    Group2.TableLayout();
    Group2.ViewShows(c, g);
    Head2(t, c, g);
    LonePrint(t, c, j);
  }

  lemma {:induction false} Alone2A(b: Group2.Fields, v: byte)
    requires b == Group2.Fields(None, None, None, None, None, None, None, None, None, None)
    ensures Wire(Two(b.(driveMode := Some(v)))) == [0, 1, 0, v, 0]
    ensures Wire(Two(b.(specialMode := Some(v)))) == [0, 2, 0, v, 0]
    ensures Wire(Two(b.(exposureMode := Some(v)))) == [0, 4, 0, v, 0]
  {
    Lone2(b.(driveMode := Some(v)), 0);
    Lone2(b.(specialMode := Some(v)), 1);
    Lone2(b.(exposureMode := Some(v)), 2);
  }

  lemma {:induction false} Alone2B(b: Group2.Fields, v: byte)
    requires b == Group2.Fields(None, None, None, None, None, None, None, None, None, None)
    ensures Wire(Two(b.(aeMeteringMode := Some(v)))) == [0, 8, 0, v, 0]
    ensures Wire(Two(b.(flashType := Some(v)))) == [0, 0, 1, v, 0]
    ensures Wire(Two(b.(flashMode := Some(v)))) == [0, 0, 4, v, 0]
  {
    Lone2(b.(aeMeteringMode := Some(v)), 3);
    Lone2(b.(flashType := Some(v)), 8);
    Lone2(b.(flashMode := Some(v)), 10);
  }

  lemma {:induction false} Alone2C(b: Group2.Fields, v: byte)
    requires b == Group2.Fields(None, None, None, None, None, None, None, None, None, None)
    ensures Wire(Two(b.(flashSetting := Some(v)))) == [0, 0, 8, v, 0]
    ensures Wire(Two(b.(whiteBalance := Some(v)))) == [0, 0, 32, v, 0]
  {
    Lone2(b.(flashSetting := Some(v)), 11);
    Lone2(b.(whiteBalance := Some(v)), 13);
  }

  lemma {:induction false} Alone2D(b: Group2.Fields, v: byte)
    requires b == Group2.Fields(None, None, None, None, None, None, None, None, None, None)
    ensures Wire(Two(b.(resolution := Some(v)))) == [0, 0, 64, v, 0]
    ensures Wire(Two(b.(imageQuality := Some(v)))) == [0, 0, 128, v, 0]
  {
    Lone2(b.(resolution := Some(v)), 14);
    Lone2(b.(imageQuality := Some(v)), 15);
  }

  // ----- group 3 -----

  lemma {:induction false} Lone3(g: Group3.Fields, j: nat)
    requires Lone(Group3.View(Group3.Normal(g)), j)
    ensures Wire(Three(g)) ==
            [0, Octet(false, false, false, g.colorSpace.Some?, g.colorMode.Some?, g.batteryKind.Some?,
                      g.lensWideFocalLength.Some?, g.lensTeleFocalLength.Some?),
             Octet(g.afAuxLight.Some?, g.afBeep.Some?, false, false, false, g.timerSound.Some?, false,
                   g.destToSave.Some?)]
            + ToBytes(Group3.View(Group3.Normal(g))[j].value) + [0]
  {
    var t, c := Group3.Table(), Group3.View(Group3.Normal(g));
    Group3.TableLayout();
    Group3.ViewShows(c, Group3.Normal(g));
    Head3(t, c, g);
    LonePrint(t, c, j);
  }

  lemma {:induction false} Alone3A(b: Group3.Fields, v: byte)
    requires b == Group3.Fields(None, None, None, None, None, None, None, None, None)
    ensures Wire(Three(b.(colorSpace := Some(v)))) == [0, 8, 0, v, 0]
    ensures Wire(Three(b.(colorMode := Some(v)))) == [0, 16, 0, v, 0]
    ensures Wire(Three(b.(batteryKind := Some(v)))) == [0, 32, 0, v, 0]
  {
    Lone3(b.(colorSpace := Some(v)), 3);
    Lone3(b.(colorMode := Some(v)), 4);
    Lone3(b.(batteryKind := Some(v)), 5);
  }

  lemma {:induction false} Alone3B(b: Group3.Fields, v: byte)
    requires b == Group3.Fields(None, None, None, None, None, None, None, None, None)
    ensures Wire(Three(b.(afAuxLight := Some(v)))) == [0, 0, 1, v, 0]
    ensures Wire(Three(b.(afBeep := Some(v)))) == [0, 0, 2, v, 0]
  {
    Lone3(b.(afAuxLight := Some(v)), 8);
    Lone3(b.(afBeep := Some(v)), 9);
  }

  lemma {:induction false} Alone3C(b: Group3.Fields, v: byte)
    requires b == Group3.Fields(None, None, None, None, None, None, None, None, None)
    ensures Wire(Three(b.(timerSound := Some(v)))) == [0, 0, 32, v, 0]
    ensures Wire(Three(b.(destToSave := Some(v)))) == [0, 0, 128, v, 0]
  {
    Lone3(b.(timerSound := Some(v)), 13);
    Lone3(b.(destToSave := Some(v)), 15);
  }

  /** A focal length of `x` sixteenths: the word `x`, low byte first. */
  lemma {:induction false} FocalLengths3(b: Group3.Fields, x: uint16)
    requires b == Group3.Fields(None, None, None, None, None, None, None, None, None)
    ensures Wire(Three(b.(lensWideFocalLength := Some(x as real / 16.0)))) == [0, 64, 0, x % 256, x / 256, 0]
    ensures Wire(Three(b.(lensTeleFocalLength := Some(x as real / 16.0)))) == [0, 128, 0, x % 256, x / 256, 0]
  {
    FixedPoint.DecodeIsSixteenth(x);
    FixedPoint.CodeRoundTrip(x);
    var f := FixedPoint.Decode(x);
    assert f == x as real / 16.0;
    Lone3(b.(lensWideFocalLength := Some(f)), 6);
    Lone3(b.(lensTeleFocalLength := Some(f)), 7);
  }

  // ----- group 4 -----

  lemma {:induction false} Lone4(g: Group4.Fields, j: nat)
    requires Lone(Group4.View(Group4.Normal(g)), j)
    ensures Wire(Four(g)) ==
            [0, Octet(false, false, false, false, g.dcCropMode.Some?, g.lvMagnifyRatio.Some?, g.highISOExt.Some?,
                      g.contShootSpeed.Some?),
             Octet(g.hdr.Some?, g.dngQuality.Some?, g.fillLight.Some?, Group4.HasCorrections(g), g.eImageStab.Some?,
                   g.shutterSound.Some?, false, false)]
            + ToBytes(Group4.View(Group4.Normal(g))[j].value) + [0]
  {
    var t, c := Group4.Table(), Group4.View(Group4.Normal(g));
    Group4.TableLayout();
    Group4.ViewShows(c, Group4.Normal(g));
    Head4(t, c, g);
    LonePrint(t, c, j);
  }

  lemma {:induction false} Alone4A(b: Group4.Fields, v: byte)
    requires b == Group4.Fields(None, None, None, None, None, None, None, None, None, None, None, None, None, None, None)
    ensures Wire(Four(b.(dcCropMode := Some(v)))) == [0, 16, 0, v, 0]
    ensures Wire(Four(b.(lvMagnifyRatio := Some(v)))) == [0, 32, 0, v, 0]
    ensures Wire(Four(b.(highISOExt := Some(v)))) == [0, 64, 0, v, 0]
  {
    Lone4(b.(dcCropMode := Some(v)), 4);
    Lone4(b.(lvMagnifyRatio := Some(v)), 5);
    Lone4(b.(highISOExt := Some(v)), 6);
  }

  lemma {:induction false} Alone4B(b: Group4.Fields, v: byte)
    requires b == Group4.Fields(None, None, None, None, None, None, None, None, None, None, None, None, None, None, None)
    ensures Wire(Four(b.(contShootSpeed := Some(v)))) == [0, 128, 0, v, 0]
    ensures Wire(Four(b.(hdr := Some(v)))) == [0, 0, 1, v, 0]
    ensures Wire(Four(b.(dngQuality := Some(v)))) == [0, 0, 2, v, 0]
  {
    Lone4(b.(contShootSpeed := Some(v)), 7);
    Lone4(b.(hdr := Some(v)), 8);
    Lone4(b.(dngQuality := Some(v)), 9);
  }

  lemma {:induction false} Alone4C(b: Group4.Fields, v: byte)
    requires b == Group4.Fields(None, None, None, None, None, None, None, None, None, None, None, None, None, None, None)
    ensures Wire(Four(b.(eImageStab := Some(v)))) == [0, 0, 16, v, 0]
    ensures Wire(Four(b.(shutterSound := Some(v)))) == [0, 0, 32, v, 0]
  {
    Lone4(b.(eImageStab := Some(v)), 17);
    Lone4(b.(shutterSound := Some(v)), 18);
  }

  /** A negative fill light in two's complement. */
  lemma {:induction false} FillLight4(b: Group4.Fields, v: int8)
    requires b == Group4.Fields(None, None, None, None, None, None, None, None, None, None, None, None, None, None, None)
    ensures Wire(Four(b.(fillLight := Some(v)))) == [0, 0, 4, if v < 0 then v + 256 else v, 0]
  {
    Lone4(b.(fillLight := Some(v)), 10);
  }

  lemma {:induction false} SixCorrections(o: seq<Bytes>, c: Cells, n: Group4.Fields)
    requires Grows(o, c) && Group4.Shows(c, n)
    ensures o[17] == o[11] + OfByte(n.locDistortion) + OfByte(n.locChromaticAberration) + OfByte(n.locDiffraction)
                     + OfByte(n.locVignetting) + OfByte(n.locColorShade) + OfByte(n.locColorShadeAcq)
  {
    assert At(11) && At(12) && At(13) && At(14) && At(15) && At(16);
  }

  lemma {:induction false} OnlyCorrections(g: Group4.Fields)
    requires Group4.HasCorrections(g)
    requires g.dcCropMode == g.lvMagnifyRatio == g.highISOExt == g.contShootSpeed == g.hdr == g.dngQuality == None
    requires g.fillLight == None && g.eImageStab == g.shutterSound == None
    ensures Wire(Four(g)) == [0, 0, 8] + Filled(g) + [0]
  {
    var n := Group4.Normal(g);
    var t, c := Group4.Table(), Group4.View(n);
    Group4.TableLayout();
    Group4.ViewShows(c, n);
    Head4(t, c, g);
    PassOver(t, c, 0, 11, Out(t, c, 0));
    PassOver(t, c, 17, 19, Out(t, c, 17));
    var o := Growth(t, c);
    SixCorrections(o, c, n);
    FilledBytes(g, o[11]);
  }

  lemma {:induction false} CorrectionBytes(g: Group4.Fields)
    requires Group4.HasCorrections(g)
    ensures |Filled(g)| == 6
    ensures Filled(g) == [Filled(g)[0], Filled(g)[1], Filled(g)[2], Filled(g)[3], Filled(g)[4], Filled(g)[5]]
  {
  }

  /** Any lens corrections and nothing else: all six are sent, 2 or 0xFE in place of those that are not set. */
  lemma {:induction false} Corrections4(g: Group4.Fields)
    requires g.locDistortion.Some? || g.locChromaticAberration.Some? || g.locDiffraction.Some? || g.locVignetting.Some?
             || g.locColorShade.Some? || g.locColorShadeAcq.Some?
    requires g.dcCropMode == g.lvMagnifyRatio == g.highISOExt == g.contShootSpeed == g.hdr == g.dngQuality == None
    requires g.fillLight == None && g.eImageStab == g.shutterSound == None
    ensures Wire(Four(g)) ==
            [0, 0, 8,
             if g.locDistortion.Some? then g.locDistortion.value else 2,
             if g.locChromaticAberration.Some? then g.locChromaticAberration.value else 2,
             if g.locDiffraction.Some? then g.locDiffraction.value else 2,
             if g.locVignetting.Some? then g.locVignetting.value else 2,
             if g.locColorShade.Some? then g.locColorShade.value else 0xFE,
             if g.locColorShadeAcq.Some? then g.locColorShadeAcq.value else 2, 0]
  {
    OnlyCorrections(g);
    CorrectionBytes(g);
    assert [0, 0, 8] + [Filled(g)[0], Filled(g)[1], Filled(g)[2], Filled(g)[3], Filled(g)[4], Filled(g)[5]] + [0] ==
           [0, 0, 8, Filled(g)[0], Filled(g)[1], Filled(g)[2], Filled(g)[3], Filled(g)[4], Filled(g)[5], 0];
  }

  // ----- group 5 -----

  lemma {:induction false} Lone5(g: Group5.Fields, j: nat)
    requires Lone(Group5.View(Group5.Normal(g)), j) && g.intervalTimerSecond.Some? == g.intervalTimerFrame.Some?
    ensures Wire(Five(g)) ==
            [0, Octet(g.intervalTimerSecond.Some?, g.colorTemp.Some?, false, g.aspectRatio.Some?, false,
                      g.toneEffect.Some?, false, false),
             Octet(false, false, false, false, false, false, false, g.afAuxLightEF.Some?)]
            + ToBytes(Group5.View(Group5.Normal(g))[j].value) + [0]
  {
    var t, c := Group5.Table(), Group5.View(Group5.Normal(g));
    Group5.TableLayout();
    Group5.ViewShows(c, Group5.Normal(g));
    Head5(t, c, g);
    LonePrint(t, c, j);
  }

  lemma {:induction false} Alone5(b: Group5.Fields, v: byte)
    requires b == Group5.Fields(None, None, None, None, None, None, None, None)
    ensures Wire(Five(b.(aspectRatio := Some(v)))) == [0, 8, 0, v, 0]
    ensures Wire(Five(b.(toneEffect := Some(v)))) == [0, 32, 0, v, 0]
    ensures Wire(Five(b.(afAuxLightEF := Some(v)))) == [0, 0, 128, v, 0]
  {
    Lone5(b.(aspectRatio := Some(v)), 6);
    Lone5(b.(toneEffect := Some(v)), 8);
    Lone5(b.(afAuxLightEF := Some(v)), 10);
  }

  lemma {:induction false} ColourTemperature5(b: Group5.Fields, v: uint16)
    requires b == Group5.Fields(None, None, None, None, None, None, None, None)
    ensures Wire(Five(b.(colorTemp := Some(v)))) == [0, 2, 0, v % 256, v / 256, 0]
  {
    Lone5(b.(colorTemp := Some(v)), 4);
  }

  /** An interval without remains, which are sent as 0, and with them. */
  lemma {:induction false} Interval5(b: Group5.Fields, s: uint16, f: byte, rs: uint16, rf: byte)
    requires b == Group5.Fields(None, None, None, None, None, None, None, None)
    ensures var g := b.(intervalTimerSecond := Some(s), intervalTimerFrame := Some(f));
            && Encodable(Five(g)) && Wire(Five(g)) == [0, 1, 0, s % 256, s / 256, f, 0, 0, 0, 0]
            && Wire(Five(g.(intervalTimerSecondRemain := Some(rs), intervalTimerFrameRemain := Some(rf)))) ==
               [0, 1, 0, s % 256, s / 256, f, rs % 256, rs / 256, rf, 0]
  {
    var g := b.(intervalTimerSecond := Some(s), intervalTimerFrame := Some(f));
    Payload5(g);
    Payload5(g.(intervalTimerSecondRemain := Some(rs), intervalTimerFrameRemain := Some(rf)));
  }

  /** Remains without an interval are left out, and half an interval is refused. */
  lemma {:induction false} HalfInterval5(b: Group5.Fields, s: uint16, f: byte, rs: uint16, rf: byte)
    requires b == Group5.Fields(None, None, None, None, None, None, None, None)
    ensures var g := b.(intervalTimerSecondRemain := Some(rs), intervalTimerFrameRemain := Some(rf));
            && Encodable(Five(g)) && Wire(Five(g)) == [0, 0, 0, 0]
            && !Encodable(Five(g.(intervalTimerSecond := Some(s)))) && !Encodable(Five(g.(intervalTimerFrame := Some(f))))
  {
    var g := b.(intervalTimerSecondRemain := Some(rs), intervalTimerFrameRemain := Some(rf));
    Payload5(g);
    Payload5(g.(intervalTimerSecond := Some(s)));
    Payload5(g.(intervalTimerFrame := Some(f)));
  }
}
