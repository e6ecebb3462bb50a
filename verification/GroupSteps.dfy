/**
 The steps the straight-line group codecs are made of: reading a field if its presence
 bit is set, marking a presence bit and printing a field if it has a value. Each step
 carries, as ghosts, where it stands in the table-driven codec.
 */
module GroupSteps {
  import opened Wrappers
  import opened Bytes
  import opened Slots
  import FixedPoint

  function ByteCell(v: Option<byte>): Option<Value> {
    if v.Some? then Some(U8(v.value)) else None
  }

  function SignedCell(v: Option<int8>): Option<Value> {
    if v.Some? then Some(I8(v.value)) else None
  }

  function WordCell(v: Option<uint16>): Option<Value> {
    if v.Some? then Some(U16(v.value)) else None
  }

  function FixedCell(v: Option<real>): Option<Value> {
    if v.Some? then Some(Fix(v.value)) else None
  }

  // ----- decoding -----

  /** Marks the slot a decoder is at. */
  predicate At(n: nat) {
    true
  }

  /**
   The course of one decode: `offsets[n]` is where slot `n` starts, `fields[n]` what it
   holds, `stop` the slot whose read fails (or the number of slots), `final` the outcome.
   */
  datatype Course = Course(t: seq<Slot>, fp: uint16, raw: Bytes, before: Cells,
                           offsets: seq<nat>, fields: Cells, stop: nat, final: Scan)

  ghost predicate Traced(c: Course) {
    && |c.offsets| == |c.t| + 1 && |c.t| == |c.fields|
    && (forall n: nat {:trigger At(n)} | n < |c.t| && At(n) && c.offsets[n] <= |c.raw| ::
          var slot := c.t[n];
          && (!Has(c.fp, slot.bit) ==> c.offsets[n + 1] == c.offsets[n] && c.fields[n] == None)
          && (Has(c.fp, slot.bit) && c.offsets[n] + Width(slot.kind) <= |c.raw| ==>
                && c.offsets[n + 1] == c.offsets[n] + Width(slot.kind)
                && c.fields[n] == Load(slot.kind, c.raw, c.offsets[n]))
          && (Has(c.fp, slot.bit) && c.offsets[n] + Width(slot.kind) > |c.raw| ==> c.stop == n && !c.final.ok))
    && (c.offsets[|c.t|] <= |c.raw| ==> c.stop == |c.t| && c.final.ok == (c.offsets[|c.t|] < |c.raw|))
    && |c.t| == |c.fields| == |c.before|
  }

  /** What field `k` holds when the decoder stands before slot `n`. */
  function CellAt(c: Course, n: nat, k: nat): Option<Value>
    requires k < |c.before| == |c.fields|
  {
    if k < n then c.fields[k] else c.before[k]
  }

  function CellsAt(c: Course, n: nat): (cells: Cells)
    requires |c.before| == |c.fields|
    ensures |cells| == |c.before| && forall k: nat | k < |cells| :: cells[k] == CellAt(c, n, k)
  {
    seq(|c.before|, k requires 0 <= k < |c.before| => CellAt(c, n, k))
  }

  /** The outcome has the fields as they stood when the decoder stopped. */
  ghost predicate Settled(c: Course) {
    |c.final.cells| == |c.before| == |c.fields| &&
    forall k: nat | k < |c.before| :: c.final.cells[k] == CellAt(c, c.stop, k)
  }

  lemma {:induction false} CellsOfRun(t: seq<Slot>, fp: nat, raw: Bytes, before: Cells, n: nat, k: nat)
    requires n <= |t| == |before| && k < |t| && 3 <= |raw| && 3 + Widths(t, fp, n) <= |raw|
    ensures RunTo(t, fp, raw, before, n).ok && RunTo(t, fp, raw, before, n).i == 3 + Widths(t, fp, n)
    ensures k >= n ==> RunTo(t, fp, raw, before, n).cells[k] == before[k]
    ensures k < n ==> 3 + Widths(t, fp, k) + (if Has(fp, t[k].bit) then Width(t[k].kind) else 0) <= |raw|
    ensures k < n ==> RunTo(t, fp, raw, before, n).cells[k] ==
                      if Has(fp, t[k].bit) then Load(t[k].kind, raw, 3 + Widths(t, fp, k)) else None
  {
    RunLength(t, fp, raw, before, n);
    if n > 0 {
      RunLength(t, fp, raw, before, n - 1);
      CellsOfRun(t, fp, raw, before, n - 1, k);
    }
  }

  lemma {:induction false} WidthsGrow(t: seq<Slot>, fp: nat, n: nat, m: nat)
    requires n <= m <= |t|
    ensures Widths(t, fp, n) <= Widths(t, fp, m)
  {
    if n < m {
      WidthsGrow(t, fp, n, m - 1);
    }
  }

  /** The slot whose read fails. */
  function Stop(t: seq<Slot>, fp: nat, limit: nat, n: nat): (k: nat)
    requires n <= |t| && Widths(t, fp, n) <= limit
    ensures n <= k <= |t| && Widths(t, fp, k) <= limit && (k < |t| ==> Widths(t, fp, k + 1) > limit)
    decreases |t| - n
  {
    if n == |t| || Widths(t, fp, n + 1) > limit then n else Stop(t, fp, limit, n + 1)
  }

  function FieldsOf(t: seq<Slot>, fp: nat, raw: Bytes): (r: Cells)
    requires 3 <= |raw|
    ensures |r| == |t|
  {
    seq(|t|, k requires 0 <= k < |t| =>
      if Has(fp, t[k].bit) && 3 + Widths(t, fp, k) + Width(t[k].kind) <= |raw|
      then Load(t[k].kind, raw, 3 + Widths(t, fp, k)) else None)
  }

  lemma {:induction false} ParseStops(t: seq<Slot>, fp: uint16, raw: Bytes, before: Cells, stop: nat)
    requires |t| == |before| && 3 <= |raw| && fp == ReadBe16(raw, 1)
    requires stop <= |t| && 3 + Widths(t, fp, stop) <= |raw|
    requires stop < |t| ==> 3 + Widths(t, fp, stop + 1) > |raw|
    ensures Parse(t, raw, before).ok <==> stop == |t| && 3 + Widths(t, fp, stop) < |raw|
    ensures forall k | 0 <= k < |t| ::
              Parse(t, raw, before).cells[k] == if k < stop then FieldsOf(t, fp, raw)[k] else before[k]
  {
    RunLength(t, fp, raw, before, |t|);
    RunLength(t, fp, raw, before, stop);
    var p := RunTo(t, fp, raw, before, stop);
    if stop < |t| {
      RunLength(t, fp, raw, before, stop + 1);
      FailureSticks(t, fp, raw, before, stop + 1, |t|);
    }
    assert Parse(t, raw, before).cells == p.cells;
    forall k | 0 <= k < |t| ensures p.cells[k] == if k < stop then FieldsOf(t, fp, raw)[k] else before[k] {
      CellsOfRun(t, fp, raw, before, stop, k);
    }
  }

  lemma {:induction false} OnlyStop(t: seq<Slot>, fp: nat, limit: nat, stop: nat, n: nat)
    requires stop <= |t| && Widths(t, fp, stop) <= limit && (stop < |t| ==> Widths(t, fp, stop + 1) > limit)
    requires n < |t| && Widths(t, fp, n) <= limit < Widths(t, fp, n + 1)
    ensures stop == n
  {
    if n < stop {
      WidthsGrow(t, fp, n + 1, stop);
    } else if stop < n {
      WidthsGrow(t, fp, stop + 1, n);
    }
  }

  lemma {:induction false} Trace(t: seq<Slot>, fp: uint16, raw: Bytes, before: Cells) returns (c: Course)
    requires |t| == |before| && 3 <= |raw| && fp == ReadBe16(raw, 1)
    ensures Traced(c) && Settled(c) && c.t == t && c.fp == fp && c.raw == raw && c.before == before
    ensures c.final == Parse(t, raw, before) && c.offsets[0] == 3
  {
    var stop := Stop(t, fp, |raw| - 3, 0);
    ParseStops(t, fp, raw, before, stop);
    c := Course(t, fp, raw, before, seq(|t| + 1, n requires 0 <= n <= |t| => 3 + Widths(t, fp, n)),
                FieldsOf(t, fp, raw), stop, Parse(t, raw, before));
    if stop < |t| {
      WidthsGrow(t, fp, stop + 1, |t|);
    }
    forall n: nat | n < |t| && 3 + Widths(t, fp, n) <= |raw| < 3 + Widths(t, fp, n + 1)
      ensures stop == n
    {
      OnlyStop(t, fp, |raw| - 3, stop, n);
    }
  }

  /** A decoder standing before slot `n`, a slot of this bit and kind. */
  ghost predicate Before(c: Course, n: nat, raw: Bytes, fp: uint16, i: nat, bit: nat, kind: Kind) {
    && Traced(c) && c.raw == raw && c.fp == fp && n < |c.t| && c.t[n] == Slot(bit, kind)
    && c.offsets[n] == i <= |raw|
  }

  /** Its read failed: the outcome is a failure with the fields from slot `n` on untouched. */
  ghost predicate Failed(c: Course, n: nat, error: Error) {
    error == OutOfRange && c.stop == n && !c.final.ok
  }

  method ReadByte(raw: Bytes, i: nat, fp: uint16, bit: nat, ghost c: Course, ghost n: nat)
    returns (r: Result<Option<byte>>, j: nat)
    requires Before(c, n, raw, fp, i, bit, Byte)
    ensures r.Ok? ==> c.offsets[n + 1] == j <= |raw| && ByteCell(r.value) == c.fields[n]
    ensures r.Err? ==> Failed(c, n, r.error)
  {
    assert At(n);
    if Has(fp, bit) {
      var v;
      v, j :- Get8(raw, i);
      return Ok(Some(v)), j;
    }
    return Ok(None), i;
  }

  method ReadSigned(raw: Bytes, i: nat, fp: uint16, bit: nat, ghost c: Course, ghost n: nat)
    returns (r: Result<Option<int8>>, j: nat)
    requires Before(c, n, raw, fp, i, bit, Signed)
    ensures r.Ok? ==> c.offsets[n + 1] == j <= |raw| && SignedCell(r.value) == c.fields[n]
    ensures r.Err? ==> Failed(c, n, r.error)
  {
    assert At(n);
    if Has(fp, bit) {
      var v;
      v, j :- Get8(raw, i);
      return Ok(Some(if v >= 0x80 then v as int - 0x100 else v)), j;
    }
    return Ok(None), i;
  }

  method ReadWord(raw: Bytes, i: nat, fp: uint16, bit: nat, ghost c: Course, ghost n: nat)
    returns (r: Result<Option<uint16>>, j: nat)
    requires Before(c, n, raw, fp, i, bit, Word)
    ensures r.Ok? ==> c.offsets[n + 1] == j <= |raw| && WordCell(r.value) == c.fields[n]
    ensures r.Err? ==> Failed(c, n, r.error)
  {
    assert At(n);
    if Has(fp, bit) {
      var v;
      v, j :- Get16Le(raw, i);
      return Ok(Some(v)), j;
    }
    return Ok(None), i;
  }

  method ReadFixed(raw: Bytes, i: nat, fp: uint16, bit: nat, ghost c: Course, ghost n: nat)
    returns (r: Result<Option<real>>, j: nat)
    requires Before(c, n, raw, fp, i, bit, Fixed)
    ensures r.Ok? ==> c.offsets[n + 1] == j <= |raw| && FixedCell(r.value) == c.fields[n]
    ensures r.Err? ==> Failed(c, n, r.error)
  {
    assert At(n);
    if Has(fp, bit) {
      var v;
      v, j :- Get16Le(raw, i);
      return Ok(Some(FixedPoint.Decode(v))), j;
    }
    return Ok(None), i;
  }

  method SkipByte(raw: Bytes, i: nat, fp: uint16, bit: nat, ghost c: Course, ghost n: nat)
    returns (r: Result<()>, j: nat)
    requires Before(c, n, raw, fp, i, bit, Reserved)
    ensures r.Ok? ==> c.offsets[n + 1] == j <= |raw| && c.fields[n] == None
    ensures r.Err? ==> Failed(c, n, r.error)
  {
    assert At(n);
    if Has(fp, bit) {
      var v;
      v, j :- Get8(raw, i);
      return Ok(()), j;
    }
    return Ok(()), i;
  }

  // ----- encoding -----

  /** `words[n]` is the presence word of the first `n` slots. */
  ghost predicate PartialWords(t: seq<Slot>, cells: Cells, words: seq<nat>) {
    && |t| == |cells| && |words| == |t| + 1 && words[0] == 0
    && forall n: nat {:trigger At(n)} | n <= |t| && At(n) :: words[n] == WordTo(t, cells, n)
  }

  lemma {:induction false} TraceWords(t: seq<Slot>, cells: Cells, d: seq<bool>) returns (words: seq<nat>)
    requires Coherent(t, cells, d)
    ensures PartialWords(t, cells, words) && words[|t|] == PresenceWord(t, cells)
  {
    words := seq(|t| + 1, n requires 0 <= n <= |t| => WordTo(t, cells, n));
    CoherentWord(t, cells, d);
  }

  /** `if (present) fp |= 1 << bit`, where slot `n` has that bit. */
  method Mark(fp: nat, bit: nat, present: bool, ghost t: seq<Slot>, ghost cells: Cells, ghost words: seq<nat>,
              ghost n: nat)
    returns (fp': nat)
    requires PartialWords(t, cells, words) && n < |t|
    requires fp == words[n] && t[n].bit == bit && cells[n].Some? == present
    ensures fp' == words[n + 1]
  {
    assert At(n) && At(n + 1);
    fp' := fp;
    if present {
      fp' := SetBit(fp, bit);
    }
  }

  /** Slots with nothing to mark, or whose bit slot `a - 1` has just marked. */
  lemma {:induction false} MarkOver(t: seq<Slot>, cells: Cells, words: seq<nat>, a: nat, b: nat)
    requires PartialWords(t, cells, words) && a <= b <= |t|
    requires forall j | a <= j < b ::
               cells[j] == None || (0 < a && t[j].bit == t[a - 1].bit && cells[a - 1].Some?)
    ensures words[b] == words[a]
  {
    assert At(a) && At(b);
    if a < b {
      MarkOver(t, cells, words, a, b - 1);
      assert At(b - 1);
      if cells[b - 1].Some? {
        SetBitAgain(WordTo(t, cells, a - 1), t[a - 1].bit);
      }
    }
  }

  /** The printed bytes before slot `n`. */
  ghost predicate Printed(t: seq<Slot>, cells: Cells, n: nat, out: Bytes) {
    n <= |t| == |cells| && out == Out(t, cells, n)
  }

  method PutByte(out: Bytes, v: Option<byte>, ghost t: seq<Slot>, ghost cells: Cells, ghost n: nat) returns (out': Bytes)
    requires Printed(t, cells, n, out) && n < |t| && cells[n] == ByteCell(v)
    ensures Printed(t, cells, n + 1, out')
  {
    out' := out;
    if v.Some? {
      out' := out' + [v.value];
    }
  }

  method PutSigned(out: Bytes, v: Option<int8>, ghost t: seq<Slot>, ghost cells: Cells, ghost n: nat) returns (out': Bytes)
    requires Printed(t, cells, n, out) && n < |t| && cells[n] == SignedCell(v)
    ensures Printed(t, cells, n + 1, out')
  {
    out' := out;
    if v.Some? {
      out' := out' + [if v.value < 0 then v.value + 0x100 else v.value];
    }
  }

  method PutWord(out: Bytes, v: Option<uint16>, ghost t: seq<Slot>, ghost cells: Cells, ghost n: nat) returns (out': Bytes)
    requires Printed(t, cells, n, out) && n < |t| && cells[n] == WordCell(v)
    ensures Printed(t, cells, n + 1, out')
  {
    out' := out;
    if v.Some? {
      out' := out' + Le16(v.value);
    }
  }

  function Sixteenths(v: Option<real>): Option<real> {
    if v.Some? then Some(FixedPoint.Decode(FixedPoint.Encode(v.value))) else None
  }

  method PutFixed(out: Bytes, v: Option<real>, ghost t: seq<Slot>, ghost cells: Cells, ghost n: nat) returns (out': Bytes)
    requires Printed(t, cells, n, out) && n < |t| && cells[n] == FixedCell(Sixteenths(v))
    ensures Printed(t, cells, n + 1, out')
  {
    out' := out;
    if v.Some? {
      FixedPoint.CodeRoundTrip(FixedPoint.Encode(v.value));
      out' := out' + Le16(FixedPoint.Encode(v.value));
    }
  }

  /** The encoders pass over reserved slots. */
  lemma {:induction false} PassOver(t: seq<Slot>, cells: Cells, a: nat, b: nat, out: Bytes)
    requires Printed(t, cells, a, out) && a <= b <= |t| && forall j | a <= j < b :: cells[j] == None
    ensures Printed(t, cells, b, out)
  {
    if a < b {
      PassOver(t, cells, a, b - 1, out);
    }
  }
}
