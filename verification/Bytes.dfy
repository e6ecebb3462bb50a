/** Fixed-width integers and their byte layouts (include/utils/utils.h). */
module Bytes {
  import opened Wrappers

  const TWO_16: int := 0x1_0000
  const TWO_32: int := 0x1_0000_0000

  type byte = x: int | 0 <= x < 0x100
  type int8 = x: int | -0x80 <= x < 0x80
  type uint16 = x: int | 0 <= x < 0x1_0000
  type uint32 = x: int | 0 <= x < 0x1_0000_0000
  type Bytes = seq<byte>

  function Le16(v: uint16): (b: Bytes) {
    [v % 256, v / 256]
  }

  function Be16(v: uint16): (b: Bytes) {
    [v / 256, v % 256]
  }

  function Le32(v: uint32): (b: Bytes) {
    Le16(v % TWO_16) + Le16(v / TWO_16)
  }

  function ReadLe16(b: Bytes, i: nat): uint16
    requires i + 2 <= |b|
  {
    b[i] as int + 0x100 * b[i + 1] as int
  }

  function ReadBe16(b: Bytes, i: nat): uint16
    requires i + 2 <= |b|
  {
    0x100 * b[i] as int + b[i + 1] as int
  }

  function ReadLe32(b: Bytes, i: nat): uint32
    requires i + 4 <= |b|
  {
    ReadLe16(b, i) as int + TWO_16 * ReadLe16(b, i + 2) as int
  }

  function Zeros(n: nat): (b: Bytes)
    ensures |b| == n && forall i | 0 <= i < n :: b[i] == 0
  {
    seq(n, _ => 0)
  }

  /** Reading back a 16-bit value printed at `i`, and printing back one read there. */
  lemma {:induction false} Le16Inverse(b: Bytes, i: nat, v: uint16)
    requires i + 2 <= |b|
    ensures b[i..i + 2] == Le16(v) <==> ReadLe16(b, i) == v
  {
    assert b[i..i + 2] == [b[i], b[i + 1]];
  }

  lemma {:induction false} Be16Inverse(b: Bytes, i: nat, v: uint16)
    requires i + 2 <= |b|
    ensures b[i..i + 2] == Be16(v) <==> ReadBe16(b, i) == v
  {
    assert b[i..i + 2] == [b[i], b[i + 1]];
  }

  lemma {:induction false} Le32Inverse(b: Bytes, i: nat, v: uint32)
    requires i + 4 <= |b|
    ensures b[i..i + 4] == Le32(v) <==> ReadLe32(b, i) == v
  {
    assert b[i..i + 4] == b[i..i + 2] + b[i + 2..i + 4];
    Le16Inverse(b, i, v % TWO_16);
    Le16Inverse(b, i + 2, v / TWO_16);
    assert Le32(v)[..2] == Le16(v % TWO_16) && Le32(v)[2..] == Le16(v / TWO_16);
  }

  /** 32-bit unsigned arithmetic, which wraps around. */
  function Wrap32(x: nat): (r: uint32)
    ensures r <= x && (x < TWO_32 ==> r == x)
  {
    if x < 0x1_0000_0000 then x else x % 0x1_0000_0000
  }

  function Sub32(a: uint32, b: uint32): uint32 {
    if b <= a then a - b else a - b + 0x1_0000_0000
  }

  function Add32(a: uint32, b: uint32): uint32 {
    if a + b < 0x1_0000_0000 then a + b else a + b - 0x1_0000_0000
  }

  /** The bytes of a 32-bit value, lowest first. */
  lemma {:induction false} LittleEndian(v: uint32, a: byte, b: byte, c: byte, d: byte)
    requires v == a as int + 256 * b as int + 65536 * c as int + 16777216 * d as int
    ensures Le32(v) == [a, b, c, d]
  {
    var low, high := a as int + 256 * b as int, c as int + 256 * d as int;
    assert v == low + 65536 * high;
    assert v % 65536 == low && v / 65536 == high;
  }

  /** The value that four bytes are read as. */
  lemma {:induction false} QuadIsRead(b: Bytes, i: nat)
    requires i + 4 <= |b|
    ensures ReadLe32(b, i) == b[i] as int + 256 * b[i + 1] as int + 65536 * b[i + 2] as int + 16777216 * b[i + 3] as int
  {
  }

  /** 32-bit sums and differences differ from the exact ones by a multiple of 2^32. */
  lemma {:induction false} WrapsAround(x: nat, a: uint32, b: uint32)
    ensures Wrap32(x) == x % 0x1_0000_0000
    ensures Add32(a, b) == (a + b) % 0x1_0000_0000 && Sub32(a, b) == (a - b) % 0x1_0000_0000
  {
    assert a + b >= 0x1_0000_0000 ==> (a + b - 0x1_0000_0000) % 0x1_0000_0000 == (a + b) % 0x1_0000_0000;
    assert a < b ==> (a - b + 0x1_0000_0000) % 0x1_0000_0000 == (a - b) % 0x1_0000_0000;
  }

  // ----- cursor reads with a bounds check, as std::vector::at does them -----

  method Get8(b: Bytes, i: nat) returns (r: Result<byte>, j: nat)
    ensures r.Ok? <==> i < |b|
    ensures r.Ok? ==> r.value == b[i] && j == i + 1
    ensures r.Err? ==> r.error == OutOfRange && j == i
  {
    if i < |b| {
      return Ok(b[i]), i + 1;
    }
    return Err(OutOfRange), i;
  }

  method Get16Be(b: Bytes, i: nat) returns (r: Result<uint16>, j: nat)
    ensures r.Ok? <==> i + 2 <= |b|
    ensures r.Ok? ==> r.value == ReadBe16(b, i) && j == i + 2
    ensures r.Err? ==> r.error == OutOfRange && j == i
  {
    if i + 2 <= |b| {
      return Ok(ReadBe16(b, i)), i + 2;
    }
    return Err(OutOfRange), i;
  }

  method Get16Le(b: Bytes, i: nat) returns (r: Result<uint16>, j: nat)
    ensures r.Ok? <==> i + 2 <= |b|
    ensures r.Ok? ==> r.value == ReadLe16(b, i) && j == i + 2
    ensures r.Err? ==> r.error == OutOfRange && j == i
  {
    if i + 2 <= |b| {
      return Ok(ReadLe16(b, i)), i + 2;
    }
    return Err(OutOfRange), i;
  }

  // ----- stores at a computed offset -----

  /** `s` with `b` written over it from `pos` on. */
  function Patched(s: Bytes, pos: nat, b: Bytes): (r: Bytes)
    requires pos + |b| <= |s|
    ensures |r| == |s|
  {
    s[..pos] + b + s[pos + |b|..]
  }

  lemma {:induction false} PatchedTwice(s: Bytes, pos: nat, a: Bytes, b: Bytes)
    requires pos + |a| + |b| <= |s|
    ensures Patched(Patched(s, pos, a), pos + |a|, b) == Patched(s, pos, a + b)
  {
  }

  method Put16LeAt(b: array<byte>, v: uint16, pos: nat)
    requires pos + 2 <= b.Length
    modifies b
    ensures b[..] == Patched(old(b[..]), pos, Le16(v))
  {
    b[pos] := v % 256;
    b[pos + 1] := v / 256;
  }

  method Put32LeAt(b: array<byte>, v: uint32, pos: nat)
    requires pos + 4 <= b.Length
    modifies b
    ensures b[..] == Patched(old(b[..]), pos, Le32(v))
  {
    b[pos] := v % TWO_16 % 256;
    b[pos + 1] := v % TWO_16 / 256;
    b[pos + 2] := v / TWO_16 % 256;
    b[pos + 3] := v / TWO_16 / 256;
  }

  // ----- lists of 32-bit words -----

  /** The words of `ws`, printed one after another. */
  function UnWords(ws: seq<uint32>): (b: Bytes)
    ensures |b| == 4 * |ws|
  {
    if ws == [] then [] else UnWords(ws[..|ws| - 1]) + Le32(ws[|ws| - 1])
  }

  /** The complete words at the start of `b`; up to three bytes are left over. */
  function Words(b: Bytes): (ws: seq<uint32>)
    ensures |ws| == |b| / 4
  {
    seq(|b| / 4, k requires 0 <= k < |b| / 4 => ReadLe32(b, 4 * k))
  }

  lemma {:induction false} UnWordsAt(ws: seq<uint32>, k: nat)
    requires k < |ws|
    ensures UnWords(ws)[4 * k..4 * k + 4] == Le32(ws[k])
  {
    var n := |ws| - 1;
    if k < n {
      UnWordsAt(ws[..n], k);
      assert UnWords(ws)[4 * k..4 * k + 4] == UnWords(ws[..n])[4 * k..4 * k + 4];
    }
  }

  /** Printed words come back, whatever incomplete word follows them. */
  lemma {:induction false} WordsUnWords(ws: seq<uint32>, tail: Bytes)
    requires |tail| < 4
    ensures Words(UnWords(ws) + tail) == ws
  {
    var b := UnWords(ws) + tail;
    forall k | 0 <= k < |ws| ensures Words(b)[k] == ws[k] {
      UnWordsAt(ws, k);
      assert b[4 * k..4 * k + 4] == UnWords(ws)[4 * k..4 * k + 4];
      Le32Inverse(b, 4 * k, ws[k]);
    }
  }

  lemma {:induction false} WordsInit(b: Bytes)
    requires |b| % 4 == 0 && b != []
    ensures Words(b) == Words(b[..|b| - 4]) + [ReadLe32(b, |b| - 4)]
  {
    var n := |b| - 4;
    forall k | 0 <= k < n / 4 ensures Words(b)[k] == Words(b[..n])[k] {
      assert ReadLe32(b, 4 * k) == ReadLe32(b[..n], 4 * k);
    }
    assert Words(b)[n / 4] == ReadLe32(b, n);
  }

  /** Whole words, read and printed again, are the same bytes. */
  lemma {:induction false} UnWordsWords(b: Bytes)
    requires |b| % 4 == 0
    ensures UnWords(Words(b)) == b
    decreases |b|
  {
    if b != [] {
      var n := |b| - 4;
      UnWordsWords(b[..n]);
      WordsInit(b);
      assert Words(b)[..|Words(b)| - 1] == Words(b[..n]);
      Le32Inverse(b, n, ReadLe32(b, n));
      assert b == b[..n] + b[n..n + 4];
    }
  }
}
