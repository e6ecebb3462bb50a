/** Nearest-code conversion of exposure values (src/utils/apex.cpp), over the reals. */
module Apex {
  import opened Wrappers
  import opened Bytes

  datatype Row = Row(code: byte, value: real)

  function Distance(x: real, v: real): real {
    if x < v then v - x else x - v
  }

  // ----- what the converter promises, whatever order its tables are in -----

  /** `x` represents `v` no worse than `y` does; on a tie it is the lower one. */
  predicate AtLeastAsGood(x: real, y: real, v: real) {
    Distance(x, v) < Distance(y, v) || (Distance(x, v) == Distance(y, v) && x <= y)
  }

  /** `row` of the table represents `v` best. */
  predicate Best(table: seq<Row>, row: Row, v: real) {
    row in table && forall other | other in table :: AtLeastAsGood(row.value, other.value, v)
  }

  predicate DistinctCodes(table: seq<Row>) {
    forall i, j | 0 <= i < j < |table| :: table[i].code != table[j].code
  }

  predicate DistinctValues(table: seq<Row>) {
    forall i, j | 0 <= i < j < |table| :: table[i].value != table[j].value
  }

  /** The value of the first row with this code. */
  function Decoded(table: seq<Row>, code: byte): (r: Option<real>)
    ensures r.Some? ==> Row(code, r.value) in table
    ensures r.None? ==> forall row | row in table :: row.code != code
  {
    if table == [] then None
    else if table[0].code == code then Some(table[0].value)
    else Decoded(table[1..], code)
  }

  /** That is: the first one, and none only if no row has it. */
  lemma {:induction false} DecodesFirst(table: seq<Row>, code: byte, i: nat)
    requires i <= |table| && (forall j | 0 <= j < i :: table[j].code != code)
    requires i < |table| ==> table[i].code == code
    ensures Decoded(table, code) == if i < |table| then Some(table[i].value) else None
  {
    if 0 < i {
      DecodesFirst(table[1..], code, i - 1);
    }
  }

  /** A code the encoder may return for `v`. */
  ghost predicate Encodes(table: seq<Row>, v: real, code: byte) {
    exists row :: Best(table, row, v) && row.code == code
  }

  // ----- sorting -----

  predicate SortedByValue(s: seq<Row>) {
    forall i, j | 0 <= i < j < |s| :: s[i].value <= s[j].value
  }

  /** A sorted rearrangement, as std::sort promises no more. */
  method SortByValue(table: seq<Row>) returns (s: seq<Row>)
    ensures SortedByValue(s) && multiset(s) == multiset(table)
  {
    s := [];
    for i := 0 to |table|
      invariant SortedByValue(s) && multiset(s) == multiset(table[..i])
    {
      assert table[..i + 1] == table[..i] + [table[i]];
      InsertAdds(s, table[i]);
      InsertKeepsSorted(s, table[i]);
      s := Insert(s, table[i]);
    }
    assert table[..|table|] == table;
  }

  function Insert(s: seq<Row>, row: Row): (r: seq<Row>)
    ensures forall x | x in r :: x in s || x == row
  {
    if s == [] || row.value < s[0].value then [row] + s else [s[0]] + Insert(s[1..], row)
  }

  lemma {:induction false} InsertAdds(s: seq<Row>, row: Row)
    ensures multiset(Insert(s, row)) == multiset(s) + multiset{row}
  {
    if s != [] && s[0].value <= row.value {
      InsertAdds(s[1..], row);
      assert s == [s[0]] + s[1..];
    }
  }

  lemma {:induction false} InsertKeepsSorted(s: seq<Row>, row: Row)
    requires SortedByValue(s)
    ensures SortedByValue(Insert(s, row))
  {
    if s != [] && s[0].value <= row.value {
      var rest := Insert(s[1..], row);
      InsertKeepsSorted(s[1..], row);
      forall x | x in rest ensures s[0].value <= x.value {
      }
      assert forall j | 0 <= j < |rest| :: rest[j] in rest;
    }
  }

  // ----- the object -----

  class ApexConverter {
    const dectable: seq<Row>  // as given
    const enctable: seq<Row>  // sorted by value

    ghost predicate Valid() {
      SortedByValue(enctable) && multiset(enctable) == multiset(dectable) && dectable != []
    }

    constructor (table: seq<Row>)
      requires table != []
      ensures Valid() && dectable == table
    {
      var sorted := SortByValue(table);
      dectable := table;
      enctable := sorted;
    }

    method DecodeUint8(code: byte) returns (r: Option<real>)
      ensures r == Decoded(dectable, code)
    {
      var i := 0;
      while i < |dectable|
        invariant 0 <= i <= |dectable|
        invariant Decoded(dectable, code) == Decoded(dectable[i..], code)
      {
        if dectable[i].code == code {
          return Some(dectable[i].value);
        }
        assert dectable[i..][1..] == dectable[i + 1..];
        i := i + 1;
      }
      return None;
    }

    /** The first row of the sorted table at minimal distance. */
    method EncodeUint8(v: real) returns (code: byte)
      requires Valid()
      ensures Encodes(dectable, v, code)
    {
      SameRows(enctable, dectable);
      var best, i := 0, 1;
      while i < |enctable|
        invariant best < i <= |enctable|
        invariant forall j | 0 <= j < i :: AtLeastAsGood(enctable[best].value, enctable[j].value, v)
      {
        if Distance(enctable[i].value, v) < Distance(enctable[best].value, v) {
          best := i;
        }
        i := i + 1;
      }
      assert Best(dectable, enctable[best], v);
      return enctable[best].code;
    }
  }

  lemma {:induction false} SameRows(s: seq<Row>, t: seq<Row>)
    requires multiset(s) == multiset(t)
    ensures |s| == |t| && forall row :: row in s <==> row in t
  {
    assert |multiset(s)| == |multiset(t)|;
    forall row ensures row in s <==> row in t {
      assert row in s <==> row in multiset(s);
      assert row in t <==> row in multiset(t);
    }
  }

  // ----- what the codes mean -----

  lemma {:induction false} DecodedRow(table: seq<Row>, row: Row)
    requires DistinctCodes(table) && row in table
    ensures Decoded(table, row.code) == Some(row.value)
  {
    if table[0] != row {
      assert row in table[1..];
      DecodedRow(table[1..], row);
      var i :| 1 <= i < |table| && table[i] == row;
      assert table[0].code != table[i].code;
    }
  }

  /** Decoding a returned code gives the listed value nearest to the input, the lower of two. */
  lemma {:induction false} DecodeOfEncode(table: seq<Row>, v: real, code: byte)
    requires DistinctCodes(table) && Encodes(table, v, code)
    ensures Decoded(table, code).Some?
    ensures forall row | row in table :: AtLeastAsGood(Decoded(table, code).value, row.value, v)
  {
    var row :| Best(table, row, v) && row.code == code;
    DecodedRow(table, row);
  }

  /** The represented value does not depend on how equal values were sorted, and never falls as the input rises. */
  lemma {:induction false} RepresentedValueIsMonotone(table: seq<Row>, v: real, w: real, r: Row, s: Row)
    requires v <= w && Best(table, r, v) && Best(table, s, w)
    ensures r.value <= s.value
  {
    assert AtLeastAsGood(r.value, s.value, v) && AtLeastAsGood(s.value, r.value, w);
  }

  lemma {:induction false} DecodedCodesAreMonotone(table: seq<Row>, v: real, w: real, c: byte, d: byte)
    requires DistinctCodes(table) && v <= w && Encodes(table, v, c) && Encodes(table, w, d)
    ensures Decoded(table, c).Some? && Decoded(table, d).Some?
    ensures Decoded(table, c).value <= Decoded(table, d).value
  {
    var r :| Best(table, r, v) && r.code == c;
    var s :| Best(table, s, w) && s.code == d;
    DecodedRow(table, r);
    DecodedRow(table, s);
    RepresentedValueIsMonotone(table, v, w, r, s);
  }

  /** Inputs beyond the table go to its ends. */
  lemma {:induction false} EncodeClamps(table: seq<Row>, v: real, row: Row)
    requires Best(table, row, v)
    ensures (forall other | other in table :: v <= other.value) ==> forall other | other in table :: row.value <= other.value
    ensures (forall other | other in table :: other.value <= v) ==> forall other | other in table :: other.value <= row.value
  {
    forall other | other in table
      ensures AtLeastAsGood(row.value, other.value, v)
    {
    }
  }

  /**
   A listed value encodes to the codes of the rows that hold it, so a code is sure to
   survive decoding and encoding exactly when every row with its value has that code.
   */
  lemma {:induction false} RoundTripCondition(table: seq<Row>, code: byte)
    requires Decoded(table, code).Some?
    ensures Encodes(table, Decoded(table, code).value, code)
    ensures (forall c | Encodes(table, Decoded(table, code).value, c) :: c == code) <==>
            (forall row | row in table && row.value == Decoded(table, code).value :: row.code == code)
  {
    var v := Decoded(table, code).value;
    var own := Row(code, v);
    forall row | row in table ensures Best(table, row, v) <==> row.value == v {
      assert AtLeastAsGood(row.value, own.value, v) ==> row.value == v;
    }
    assert Best(table, own, v);
    forall row | row in table && row.value == v ensures Encodes(table, v, row.code) {
      assert Best(table, row, v);
    }
  }

  /** In a table without repeated values, every listed code survives. */
  lemma {:induction false} CodeSurvives(table: seq<Row>, code: byte, c: byte)
    requires DistinctValues(table) && Decoded(table, code).Some?
    requires Encodes(table, Decoded(table, code).value, c)
    ensures c == code
  {
    var v := Decoded(table, code).value;
    RoundTripCondition(table, code);
    forall row | row in table && row.value == v ensures row.code == code {
      var i :| 0 <= i < |table| && table[i] == row;
      var j :| 0 <= j < |table| && table[j] == Row(code, v);
      assert i == j;
    }
  }

  /** Half way between two neighbouring values only codes of the lower one can be returned. */
  lemma {:induction false} TieTakesLower(table: seq<Row>, low: Row, high: Row, v: real, code: byte)
    requires low in table && high in table && v - low.value == high.value - v >= 0.0
    requires forall row | row in table :: row.value <= low.value || high.value <= row.value
    ensures Encodes(table, v, code) <==> Row(code, low.value) in table
  {
    assert Best(table, low, v);
    forall row | row in table ensures Best(table, row, v) <==> row.value == low.value {
      if Best(table, row, v) {
        RepresentedValueIsMonotone(table, v, v, row, low);
        RepresentedValueIsMonotone(table, v, v, low, row);
      }
    }
    if Encodes(table, v, code) {
      var row :| Best(table, row, v) && row.code == code;
      assert row == Row(code, low.value);
    } else {
      assert !Best(table, Row(code, low.value), v);
    }
  }
}
