/** Unsigned 12.4 fixed point (include/utils/utils.h), over the reals. */
module FixedPoint {
  import opened Bytes

  const MAX: real := 4095.9375

  function Decode(x: uint16): real {
    (x / 16) as real + (x % 16) as real / 16.0
  }

  function Encode(f: real): uint16 {
    var g := if f < 0.0 then 0.0 else f;
    var h := if g > MAX then MAX else g;
    (h * 16.0 + 0.5).Floor
  }

  lemma {:induction false} DecodeIsSixteenth(x: uint16)
    ensures 16.0 * Decode(x) == x as real
    ensures 0.0 <= Decode(x) <= MAX
  {
    var q, r := x / 16, x % 16;
    assert x as real == (16 * q + r) as real == 16.0 * q as real + r as real;
  }

  /** Every 16-bit code survives. */
  lemma {:induction false} CodeRoundTrip(x: uint16)
    ensures Encode(Decode(x)) == x
  {
    DecodeIsSixteenth(x);
    assert Decode(x) * 16.0 + 0.5 == x as real + 0.5;
  }

  /** Within the range a value moves by at most half a step; outside it goes to the nearest end point. */
  lemma {:induction false} ValueRoundTrip(f: real)
    ensures 0.0 <= f <= MAX ==> -1.0 / 32.0 <= Decode(Encode(f)) - f <= 1.0 / 32.0
    ensures f < 0.0 ==> Decode(Encode(f)) == 0.0
    ensures f > MAX ==> Decode(Encode(f)) == MAX
  {
    DecodeIsSixteenth(Encode(f));
    if 0.0 <= f <= MAX {
      assert Encode(f) as real <= f * 16.0 + 0.5 < Encode(f) as real + 1.0;
    } else if f > MAX {
      assert Encode(f) == 65535;
    } else {
      assert Encode(f) == 0;
    }
  }

  /** In range a value goes to the nearest sixteenth, and half way between two to the upper one. */
  lemma {:induction false} EncodeRounds(f: real, x: uint16)
    requires 0.0 <= f <= 4095.9375
    ensures Encode(f) == x <==> x as real - 0.5 <= 16.0 * f < x as real + 0.5
  {
    var y := Encode(f);
    assert y as real <= f * 16.0 + 0.5 < y as real + 1.0;
    assert y < x ==> y as real + 1.0 <= x as real;
    assert x < y ==> x as real + 1.0 <= y as real;
  }

  lemma {:induction false} EncodeIsMonotone(f: real, g: real)
    requires f <= g
    ensures Encode(f) <= Encode(g)
  {
    var a, b := Encode(f), Encode(g);
    assert b < a ==> b as real + 1.0 <= a as real;
  }
}
