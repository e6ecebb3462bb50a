/**
 The table-driven form of the camera's data groups: a header byte, a big-endian presence
 word, the present fields in table order, a parity byte. The straight-line encoders and
 decoders of src/sigma/schema.cpp are proved against it in Group1 to Group5, with the steps of GroupSteps.
 */
module Slots {
  import opened Wrappers
  import opened Bytes
  import FixedPoint

  // ----- presence bits -----

  /** Whether the binary digit of weight 2^k is set. */
  predicate Has(fp: nat, k: nat) {
    if k == 0 then fp % 2 == 1 else Has(fp / 2, k - 1)
  }

  /** The word with that digit set. */
  function SetBit(fp: nat, k: nat): nat {
    if k == 0 then fp - fp % 2 + 1 else 2 * SetBit(fp / 2, k - 1) + fp % 2
  }

  lemma {:induction false} SetBitHas(fp: nat, k: nat, j: nat)
    ensures Has(SetBit(fp, k), j) <==> j == k || Has(fp, j)
  {
    if k > 0 && j > 0 {
      SetBitHas(fp / 2, k - 1, j - 1);
    }
  }

  /** The order and the repetition of `fp |=` statements do not matter. */
  lemma {:induction false} SetBitCommutes(fp: nat, j: nat, k: nat)
    ensures SetBit(SetBit(fp, j), k) == SetBit(SetBit(fp, k), j)
  {
    SetBitHalves(fp, j);
    SetBitHalves(fp, k);
    SetBitHalves(SetBit(fp, j), k);
    SetBitHalves(SetBit(fp, k), j);
    if j > 0 && k > 0 {
      SetBitCommutes(fp / 2, j - 1, k - 1);
    }
  }

  lemma {:induction false} SetBitHalves(fp: nat, k: nat)
    ensures SetBit(fp, k) / 2 == if k == 0 then fp / 2 else SetBit(fp / 2, k - 1)
    ensures SetBit(fp, k) % 2 == if k == 0 then 1 else fp % 2
  {
  }

  lemma {:induction false} SetBitAgain(fp: nat, k: nat)
    ensures SetBit(SetBit(fp, k), k) == SetBit(fp, k)
  {
    if k > 0 {
      SetBitAgain(fp / 2, k - 1);
    }
  }

  lemma {:induction false} SetBitBound(fp: nat, k: nat, n: nat)
    requires k < n
    ensures Below(SetBit(fp, k), n) <==> Below(fp, n)
  {
    if k > 0 {
      SetBitBound(fp / 2, k - 1, n - 1);
    }
  }

  /** `fp` has at most `n` binary digits. */
  predicate Below(fp: nat, n: nat) {
    if n == 0 then fp == 0 else Below(fp / 2, n - 1)
  }

  lemma {:induction false} SixteenDigits(fp: nat)
    ensures Below(fp, 16) <==> fp < 0x1_0000
  {
    assert Below(fp, 16) == Below(fp / 0x100, 8) by { ByteDown(fp, 16); }
    ByteDown(fp / 0x100, 8);
  }

  lemma {:induction false} ByteDown(fp: nat, n: nat)
    requires n >= 8
    ensures Below(fp, n) == Below(fp / 0x100, n - 8)
  {
    assert Below(fp, n) == Below(fp / 2, n - 1) == Below(fp / 4, n - 2) == Below(fp / 8, n - 3) == Below(fp / 16, n - 4);
    assert Below(fp / 16, n - 4) == Below(fp / 32, n - 5) == Below(fp / 64, n - 6) == Below(fp / 128, n - 7);
  }

  lemma {:induction false} SameDigits(a: nat, b: nat, n: nat)
    requires Below(a, n) && Below(b, n)
    requires forall k: nat | k < n :: Has(a, k) <==> Has(b, k)
    ensures a == b
  {
    if n > 0 {
      assert Has(a, 0) <==> Has(b, 0);
      forall k: nat | k < n - 1 ensures Has(a / 2, k) <==> Has(b / 2, k) {
        assert Has(a, k + 1) <==> Has(b, k + 1);
      }
      SameDigits(a / 2, b / 2, n - 1);
    }
  }

  // ----- tables and values -----

  datatype Kind = Reserved | Byte | Signed | Word | Fixed

  datatype Slot = Slot(bit: nat, kind: Kind)

  datatype Value = U8(b: byte) | I8(i: int8) | U16(w: uint16) | Fix(f: real)

  /** One optional value per slot of a table; reserved slots hold none. */
  type Cells = seq<Option<Value>>

  function Width(kind: Kind): (w: nat) {
    if kind == Word || kind == Fixed then 2 else 1
  }

  predicate Typed(kind: Kind, v: Value) {
    match kind
    case Reserved => false
    case Byte => v.U8?
    case Signed => v.I8?
    case Word => v.U16?
    case Fixed => v.Fix?
  }

  function ToBytes(v: Value): Bytes {
    match v
    case U8(b) => [b]
    case I8(i) => [if i < 0 then i + 0x100 else i]
    case U16(w) => Le16(w)
    case Fix(f) => Le16(FixedPoint.Encode(f))
  }

  function Load(kind: Kind, raw: Bytes, i: nat): Option<Value>
    requires i + Width(kind) <= |raw|
  {
    match kind
    case Reserved => None
    case Byte => Some(U8(raw[i]))
    case Signed => Some(I8(if raw[i] >= 0x80 then raw[i] as int - 0x100 else raw[i]))
    case Word => Some(U16(ReadLe16(raw, i)))
    case Fixed => Some(Fix(FixedPoint.Decode(ReadLe16(raw, i))))
  }

  /** What survives of a value: a 12.4 fixed-point field is rounded to a sixteenth. */
  function Quantised(v: Value): Value {
    if v.Fix? then Fix(FixedPoint.Decode(FixedPoint.Encode(v.f))) else v
  }

  lemma {:induction false} LoadPrinted(kind: Kind, v: Value, raw: Bytes, i: nat)
    requires Typed(kind, v) && i + Width(kind) <= |raw| && raw[i..i + Width(kind)] == ToBytes(v)
    ensures |ToBytes(v)| == Width(kind) && Load(kind, raw, i) == Some(Quantised(v))
  {
    assert raw[i..i + Width(kind)][0] == raw[i];
    match v
    case U16(w) => Le16Inverse(raw, i, w);
    case Fix(f) => Le16Inverse(raw, i, FixedPoint.Encode(f));
    case _ =>
  }

  lemma {:induction false} PrintLoaded(kind: Kind, raw: Bytes, i: nat)
    requires kind != Reserved && i + Width(kind) <= |raw|
    ensures var v := Load(kind, raw, i);
            && v.Some? && Typed(kind, v.value) && ToBytes(v.value) == raw[i..i + Width(kind)]
            && Quantised(v.value) == v.value
  {
    assert Width(kind) == 1 ==> raw[i..i + 1] == [raw[i]];
    if Width(kind) == 2 {
      Le16Inverse(raw, i, ReadLe16(raw, i));
      FixedPoint.CodeRoundTrip(ReadLe16(raw, i));
    }
  }

  // ----- decoding -----

  /** Whether the reads so far stayed inside the buffer, the cursor, and the fields as they stand. */
  datatype Scan = Scan(ok: bool, i: nat, cells: Cells)

  function Step(slot: Slot, j: nat, fp: nat, raw: Bytes, p: Scan): Scan
    requires j < |p.cells|
  {
    if !p.ok then p
    else if !Has(fp, slot.bit) then p.(cells := p.cells[j := None])
    else if p.i + Width(slot.kind) > |raw| then p.(ok := false)
    else Scan(true, p.i + Width(slot.kind), p.cells[j := Load(slot.kind, raw, p.i)])
  }

  /** The first `n` slots, from the byte after the presence word. */
  function RunTo(t: seq<Slot>, fp: nat, raw: Bytes, cells: Cells, n: nat): (p: Scan)
    requires n <= |t| == |cells|
    ensures |p.cells| == |t|
  {
    if n == 0 then Scan(true, 3, cells) else Step(t[n - 1], n - 1, fp, raw, RunTo(t, fp, raw, cells, n - 1))
  }

  /** A whole decode: header, presence word, slots, parity byte. */
  function Parse(t: seq<Slot>, raw: Bytes, cells: Cells): (p: Scan)
    requires |t| == |cells|
    ensures |p.cells| == |t|
  {
    if |raw| < 3 then Scan(false, |raw|, cells)
    else
      var p := RunTo(t, ReadBe16(raw, 1), raw, cells, |t|);
      if p.ok && p.i < |raw| then p.(i := p.i + 1) else p.(ok := false)
  }

  /** Bytes taken by the present ones of the first `n` slots, reserved ones included. */
  function Widths(t: seq<Slot>, fp: nat, n: nat): nat
    requires n <= |t|
  {
    if n == 0 then 0 else Widths(t, fp, n - 1) + if Has(fp, t[n - 1].bit) then Width(t[n - 1].kind) else 0
  }

  lemma {:induction false} RunLength(t: seq<Slot>, fp: nat, raw: Bytes, cells: Cells, n: nat)
    requires n <= |t| == |cells| && 3 <= |raw|
    ensures var p := RunTo(t, fp, raw, cells, n);
            && (p.ok <==> 3 + Widths(t, fp, n) <= |raw|)
            && (p.ok ==> p.i == 3 + Widths(t, fp, n))
  {
    if n > 0 {
      RunLength(t, fp, raw, cells, n - 1);
    }
  }

  lemma {:induction false} FailureSticks(t: seq<Slot>, fp: nat, raw: Bytes, cells: Cells, n: nat, m: nat)
    requires n <= m <= |t| == |cells| && !RunTo(t, fp, raw, cells, n).ok
    ensures RunTo(t, fp, raw, cells, m) == RunTo(t, fp, raw, cells, n)
  {
    if n < m {
      FailureSticks(t, fp, raw, cells, n, m - 1);
    }
  }

  /** Decoding succeeds exactly when the bytes of the present slots, the header, the word and the parity are there. */
  lemma {:induction false} ParseSucceeds(t: seq<Slot>, raw: Bytes, cells: Cells)
    requires |t| == |cells|
    ensures Parse(t, raw, cells).ok <==> 3 <= |raw| && 4 + Widths(t, ReadBe16(raw, 1), |t|) <= |raw|
  {
    if 3 <= |raw| {
      RunLength(t, ReadBe16(raw, 1), raw, cells, |t|);
    }
  }

  lemma {:induction false} RunForgets(t: seq<Slot>, fp: nat, raw: Bytes, tail: Bytes, a: Cells, b: Cells, n: nat)
    requires n <= |t| == |a| == |b| && 3 <= |raw| && RunTo(t, fp, raw, a, n).ok
    ensures var p, q := RunTo(t, fp, raw, a, n), RunTo(t, fp, raw + tail, b, n);
            && q.ok && q.i == p.i && q.cells[..n] == p.cells[..n]
  {
    if n > 0 {
      RunForgets(t, fp, raw, tail, a, b, n - 1);
      var p, q := RunTo(t, fp, raw, a, n - 1), RunTo(t, fp, raw + tail, b, n - 1);
      var p', q' := RunTo(t, fp, raw, a, n), RunTo(t, fp, raw + tail, b, n);
      assert p'.cells[..n] == p.cells[..n - 1] + [p'.cells[n - 1]];
      assert q'.cells[..n] == q.cells[..n - 1] + [q'.cells[n - 1]];
      if Has(fp, t[n - 1].bit) {
        var w := Width(t[n - 1].kind);
        assert Load(t[n - 1].kind, raw, p.i) == Load(t[n - 1].kind, raw + tail, p.i);
      }
    }
  }

  /** A successful decode depends only on the input: not on earlier field values, nor on trailing bytes. */
  lemma {:induction false} ParseForgets(t: seq<Slot>, raw: Bytes, tail: Bytes, a: Cells, b: Cells)
    requires |t| == |a| == |b| && Parse(t, raw, a).ok
    ensures Parse(t, raw + tail, b) == Parse(t, raw, a)
  {
    assert ReadBe16(raw + tail, 1) == ReadBe16(raw, 1);
    RunForgets(t, ReadBe16(raw, 1), raw, tail, a, b, |t|);
    var p, q := Parse(t, raw, a), Parse(t, raw + tail, b);
    assert p.cells[..|t|] == p.cells && q.cells[..|t|] == q.cells;
  }

  // ----- encoding -----

  /** The digits of a presence word, lowest first. */
  function Digits(fp: nat): (d: seq<bool>)
    ensures |d| == 16
  {
    seq(16, k requires 0 <= k < 16 => Has(fp, k))
  }

  /** Slot `j` agrees with presence digits `d`, and its value has the kind of the slot. */
  predicate Agrees(t: seq<Slot>, cells: Cells, d: seq<bool>, j: nat)
    requires |t| == |cells| && |d| == 16 && j < |t|
  {
    t[j].bit < 16 && (cells[j].Some? <==> d[t[j].bit]) && (cells[j].Some? ==> Typed(t[j].kind, cells[j].value))
  }

  /** All slots agree with `d`; in particular slots sharing a bit are present together. */
  predicate Coherent(t: seq<Slot>, cells: Cells, d: seq<bool>) {
    |t| == |cells| && |d| == 16 && forall j: nat | j < |t| :: Agrees(t, cells, d, j)
  }

  /** The presence word of the first `n` slots. */
  function WordTo(t: seq<Slot>, cells: Cells, n: nat): nat
    requires n <= |t| == |cells|
  {
    if n == 0 then 0
    else if cells[n - 1].Some? then SetBit(WordTo(t, cells, n - 1), t[n - 1].bit)
    else WordTo(t, cells, n - 1)
  }

  lemma {:induction false} WordHas(t: seq<Slot>, cells: Cells, n: nat, k: nat)
    requires n <= |t| == |cells|
    ensures Has(WordTo(t, cells, n), k) <==> exists j :: 0 <= j < n && t[j].bit == k && cells[j].Some?
  {
    if n == 0 {
      HasNone(k);
    } else {
      WordHas(t, cells, n - 1, k);
      if cells[n - 1].Some? {
        SetBitHas(WordTo(t, cells, n - 1), t[n - 1].bit, k);
      }
    }
  }

  lemma {:induction false} HasNone(k: nat)
    ensures !Has(0, k)
  {
    if k > 0 {
      HasNone(k - 1);
    }
  }

  lemma {:induction false} WordBound(t: seq<Slot>, cells: Cells, n: nat)
    requires n <= |t| == |cells| && forall j | 0 <= j < |t| :: t[j].bit < 16
    ensures Below(WordTo(t, cells, n), 16) && WordTo(t, cells, n) < 0x1_0000
  {
    if n > 0 {
      WordBound(t, cells, n - 1);
      SetBitBound(WordTo(t, cells, n - 1), t[n - 1].bit, 16);
    }
    SixteenDigits(WordTo(t, cells, n));
  }

  lemma {:induction false} CoherentWord(t: seq<Slot>, cells: Cells, d: seq<bool>)
    requires Coherent(t, cells, d)
    ensures WordTo(t, cells, |t|) < 0x1_0000
  {
    forall i | 0 <= i < |t| ensures t[i].bit < 16 {
      assert Agrees(t, cells, d, i);
    }
    WordBound(t, cells, |t|);
  }

  /** The presence word, as the 16 bits that are printed. */
  function PresenceWord(t: seq<Slot>, cells: Cells): uint16
    requires |t| == |cells|
  {
    WordTo(t, cells, |t|) % 0x1_0000
  }

  /** Header, presence word and the first `n` slots. */
  function Out(t: seq<Slot>, cells: Cells, n: nat): Bytes
    requires n <= |t| == |cells|
  {
    if n == 0 then [0] + Be16(PresenceWord(t, cells))
    else if cells[n - 1].Some? then Out(t, cells, n - 1) + ToBytes(cells[n - 1].value)
    else Out(t, cells, n - 1)
  }

  function Print(t: seq<Slot>, cells: Cells): Bytes
    requires |t| == |cells|
  {
    Out(t, cells, |t|) + [0]
  }

  lemma {:induction false} PrintBound(t: seq<Slot>, cells: Cells, n: nat)
    requires n <= |t| == |cells|
    ensures |Out(t, cells, n)| <= 3 + 2 * n
  {
    if n > 0 {
      PrintBound(t, cells, n - 1);
    }
  }

  /** What comes back of `cells`. */
  function Survivors(cells: Cells): (r: Cells)
    ensures |r| == |cells|
  {
    seq(|cells|, j requires 0 <= j < |cells| => if cells[j].Some? then Some(Quantised(cells[j].value)) else None)
  }

  lemma {:induction false} OutGrows(t: seq<Slot>, cells: Cells, n: nat, m: nat)
    requires n <= m <= |t| == |cells|
    ensures Out(t, cells, n) <= Out(t, cells, m)
    decreases m
  {
    if n < m {
      OutGrows(t, cells, n, m - 1);
    }
  }

  lemma {:induction false} PresenceHas(t: seq<Slot>, cells: Cells, d: seq<bool>, j: nat)
    requires Coherent(t, cells, d) && j < |t|
    ensures Has(PresenceWord(t, cells), t[j].bit) <==> cells[j].Some?
  {
    forall i | 0 <= i < |t| ensures t[i].bit < 16 {
      assert Agrees(t, cells, d, i);
    }
    WordBound(t, cells, |t|);
    WordHas(t, cells, |t|, t[j].bit);
    if Has(PresenceWord(t, cells), t[j].bit) {
      var i :| 0 <= i < |t| && t[i].bit == t[j].bit && cells[i].Some?;
      assert Agrees(t, cells, d, i) && Agrees(t, cells, d, j);
    } else {
      assert Agrees(t, cells, d, j);
    }
  }

  /** Where slot `n - 1` stands in a print, there are the bytes of its value. */
  lemma {:induction false} PrintedValue(t: seq<Slot>, cells: Cells, d: seq<bool>, raw: Bytes, n: nat)
    requires Coherent(t, cells, d) && 0 < n <= |t| && Out(t, cells, |t|) <= raw && cells[n - 1].Some?
    ensures var v, i, w := cells[n - 1].value, |Out(t, cells, n - 1)|, Width(t[n - 1].kind);
            && Typed(t[n - 1].kind, v) && |Out(t, cells, n)| == i + w <= |raw| && raw[i..i + w] == ToBytes(v)
  {
    assert Agrees(t, cells, d, n - 1);
    OutGrows(t, cells, n, |t|);
    var v := cells[n - 1].value;
    assert |ToBytes(v)| == Width(t[n - 1].kind);
    assert Out(t, cells, n) == Out(t, cells, n - 1) + ToBytes(v);
  }

  lemma {:induction false} RunOverPrint(t: seq<Slot>, cells: Cells, d: seq<bool>, before: Cells, raw: Bytes, n: nat)
    requires Coherent(t, cells, d) && |before| == |t| && n <= |t| && Out(t, cells, |t|) <= raw
    ensures 3 <= |Out(t, cells, n)|
    ensures var p := RunTo(t, PresenceWord(t, cells), raw, before, n);
            p.ok && p.i == |Out(t, cells, n)| && p.cells[..n] == Survivors(cells)[..n]
  {
    if n > 0 {
      RunOverPrint(t, cells, d, before, raw, n - 1);
      PresenceHas(t, cells, d, n - 1);
      var p := RunTo(t, PresenceWord(t, cells), raw, before, n - 1);
      var q := RunTo(t, PresenceWord(t, cells), raw, before, n);
      if cells[n - 1].Some? {
        PrintedValue(t, cells, d, raw, n);
        LoadPrinted(t[n - 1].kind, cells[n - 1].value, raw, p.i);
      }
      assert q.cells[..n] == p.cells[..n - 1] + [q.cells[n - 1]];
      assert Survivors(cells)[..n] == Survivors(cells)[..n - 1] + [Survivors(cells)[n - 1]];
    }
  }

  /** Encoding and decoding give back every value, fixed-point ones rounded, whatever the fields held before. */
  lemma {:induction false} RoundTrip(t: seq<Slot>, cells: Cells, d: seq<bool>, before: Cells)
    requires Coherent(t, cells, d) && |before| == |t|
    ensures var p := Parse(t, Print(t, cells), before);
            p.ok && p.cells == Survivors(cells) && p.i == |Print(t, cells)|
  {
    var raw := Print(t, cells);
    OutGrows(t, cells, 0, |t|);
    assert raw[1..3] == Out(t, cells, 0)[1..3] == Be16(PresenceWord(t, cells));
    Be16Inverse(raw, 1, PresenceWord(t, cells));
    RunOverPrint(t, cells, d, before, raw, |t|);
    var p := Parse(t, raw, before);
    assert p.cells[..|t|] == p.cells && Survivors(cells)[..|t|] == Survivors(cells);
  }

  /** The codec does not see the rounding: encoding the survivors gives the same bytes. */
  lemma {:induction false} SurvivorsPrintAlike(t: seq<Slot>, cells: Cells, n: nat)
    requires n <= |t| == |cells|
    ensures WordTo(t, Survivors(cells), n) == WordTo(t, cells, n)
    ensures Out(t, Survivors(cells), n) == Out(t, cells, n)
  {
    SurvivorsWord(t, cells, |t|);
    SurvivorsWord(t, cells, n);
    if n > 0 {
      SurvivorsPrintAlike(t, cells, n - 1);
      if cells[n - 1].Some? && cells[n - 1].value.Fix? {
        FixedPoint.CodeRoundTrip(FixedPoint.Encode(cells[n - 1].value.f));
      }
    }
  }

  lemma {:induction false} SurvivorsWord(t: seq<Slot>, cells: Cells, n: nat)
    requires n <= |t| == |cells|
    ensures WordTo(t, Survivors(cells), n) == WordTo(t, cells, n)
  {
    if n > 0 {
      SurvivorsWord(t, cells, n - 1);
    }
  }

  // ----- canonical payloads -----

  /** Every set bit of the word is the bit of some slot, and no reserved slot is present. */
  predicate Canonical(t: seq<Slot>, fp: nat) {
    && Below(fp, 16)
    && (forall j | 0 <= j < |t| && t[j].kind == Reserved :: !Has(fp, t[j].bit))
    && (forall k: nat | k < 16 && Has(fp, k) :: exists j :: 0 <= j < |t| && t[j].bit == k)
  }

  lemma {:induction false} RunCells(t: seq<Slot>, fp: nat, raw: Bytes, cells: Cells, n: nat)
    requires n <= |t| == |cells| && RunTo(t, fp, raw, cells, n).ok
    requires forall j | 0 <= j < |t| && t[j].kind == Reserved :: !Has(fp, t[j].bit)
    ensures forall j | 0 <= j < n ::
              var c := RunTo(t, fp, raw, cells, n).cells[j];
              && (c.Some? <==> Has(fp, t[j].bit))
              && (c.Some? ==> Typed(t[j].kind, c.value) && Quantised(c.value) == c.value)
  {
    if n > 0 {
      RunCells(t, fp, raw, cells, n - 1);
      var p := RunTo(t, fp, raw, cells, n - 1);
      if Has(fp, t[n - 1].bit) {
        PrintLoaded(t[n - 1].kind, raw, p.i);
      }
    }
  }

  lemma {:induction false} PrintOfRun(t: seq<Slot>, fp: nat, raw: Bytes, before: Cells, cells: Cells, n: nat)
    requires n <= |t| == |before| == |cells| && 3 <= |raw| && RunTo(t, fp, raw, before, n).ok
    requires forall j | 0 <= j < |t| && t[j].kind == Reserved :: !Has(fp, t[j].bit)
    requires forall j | 0 <= j < n :: cells[j] == RunTo(t, fp, raw, before, n).cells[j]
    requires PresenceWord(t, cells) == fp && raw[1..3] == Be16(fp)
    ensures 3 <= RunTo(t, fp, raw, before, n).i <= |raw|
    ensures Out(t, cells, n) == [0] + raw[1..RunTo(t, fp, raw, before, n).i]
  {
    RunLength(t, fp, raw, before, n);
    if n > 0 {
      var p, q := RunTo(t, fp, raw, before, n - 1), RunTo(t, fp, raw, before, n);
      assert forall j | 0 <= j < n - 1 :: p.cells[j] == q.cells[j];
      PrintOfRun(t, fp, raw, before, cells, n - 1);
      if Has(fp, t[n - 1].bit) {
        PrintLoaded(t[n - 1].kind, raw, p.i);
        assert cells[n - 1] == Load(t[n - 1].kind, raw, p.i);
        assert [0] + raw[1..p.i] + raw[p.i..q.i] == [0] + raw[1..q.i];
      } else {
        assert cells[n - 1] == None && q.i == p.i;
      }
    } else {
      assert Out(t, cells, 0) == [0] + raw[1..3];
    }
  }

  /** The word of cells that are present just where a canonical word says. */
  lemma {:induction false} WordOfCells(t: seq<Slot>, cells: Cells, fp: uint16)
    requires |t| == |cells| && (forall j | 0 <= j < |t| :: t[j].bit < 16) && Canonical(t, fp)
    requires forall j | 0 <= j < |t| :: cells[j].Some? <==> Has(fp, t[j].bit)
    ensures PresenceWord(t, cells) == fp
  {
    WordBound(t, cells, |t|);
    forall k: nat | k < 16 ensures Has(WordTo(t, cells, |t|), k) <==> Has(fp, k) {
      WordHas(t, cells, |t|, k);
    }
    SameDigits(WordTo(t, cells, |t|), fp, 16);
  }

  /**
   Decoding an exact-length canonical payload and encoding the result gives the payload
   again, header and parity bytes cleared.
   */
  lemma {:induction false} Reencode(t: seq<Slot>, raw: Bytes, before: Cells)
    requires |t| == |before| && (forall j | 0 <= j < |t| :: t[j].bit < 16)
    requires 4 <= |raw| == 4 + Widths(t, ReadBe16(raw, 1), |t|)
    requires Canonical(t, ReadBe16(raw, 1))
    ensures var p := Parse(t, raw, before);
            && p.ok && Coherent(t, p.cells, Digits(ReadBe16(raw, 1))) && Survivors(p.cells) == p.cells
            && Print(t, p.cells) == [0] + raw[1..|raw| - 1] + [0]
  {
    var fp := ReadBe16(raw, 1);
    RunLength(t, fp, raw, before, |t|);
    var p := RunTo(t, fp, raw, before, |t|);
    RunCells(t, fp, raw, before, |t|);
    WordOfCells(t, p.cells, fp);
    assert Out(t, p.cells, |t|) == [0] + raw[1..p.i] by {
      Be16Inverse(raw, 1, fp);
      PrintOfRun(t, fp, raw, before, p.cells, |t|);
    }
  }
}
