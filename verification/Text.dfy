/** C strings and hexadecimal text (include/utils/utils.h). Characters are their byte codes. */
module Text {
  import opened Wrappers
  import opened Bytes

  const NUL: byte := 0
  const SPACE: byte := 0x20
  const UNDERSCORE: byte := 0x5F

  // ----- C strings -----

  predicate NulFree(s: Bytes) {
    NUL !in s
  }

  /** The first NUL at or after `i`, or the end of the buffer. */
  function NulAt(raw: Bytes, i: nat): (j: nat)
    requires i <= |raw|
    ensures i <= j <= |raw| && NulFree(raw[i..j]) && (j < |raw| ==> raw[j] == NUL)
    decreases |raw| - i
  {
    if i == |raw| || raw[i] == NUL then i
    else
      var j := NulAt(raw, i + 1);
      assert raw[i..j] == [raw[i]] + raw[i + 1..j];
      j
  }

  /** The string at `i` and the position after its NUL. */
  function CStr(raw: Bytes, i: nat): (r: Result<(Bytes, nat)>)
    requires i <= |raw|
    ensures r.Ok? ==> i < r.value.1 <= |raw|
  {
    var j := NulAt(raw, i);
    if j == |raw| then Err(Unterminated) else Ok((raw[i..j], j + 1))
  }

  method ReadCStr(raw: Bytes, i: nat) returns (r: Result<Bytes>, j: nat)
    requires i <= |raw|
    ensures match CStr(raw, i)
            case Ok((s, next)) => r == Ok(s) && j == next
            case Err(e) => r == Err(e)
  {
    j := i;
    while j < |raw| && raw[j] != NUL
      invariant i <= j <= |raw|
      invariant NulAt(raw, j) == NulAt(raw, i)
    {
      j := j + 1;
    }
    if j >= |raw| {
      return Err(Unterminated), j;
    }
    return Ok(raw[i..j]), j + 1;
  }

  /** A NUL-free string is read back wherever it stands, and reading fails only without a NUL. */
  lemma {:induction false} CStrFound(raw: Bytes, i: nat, s: Bytes)
    requires NulFree(s) && i + |s| < |raw| && raw[i..i + |s|] == s && raw[i + |s|] == NUL
    ensures CStr(raw, i) == Ok((s, i + |s| + 1))
  {
    var j := NulAt(raw, i);
    assert j <= i + |s| by {
      assert forall k | i <= k < j :: raw[k] == raw[i..j][k - i] != NUL;
    }
    assert j >= i + |s| by {
      assert forall k | i <= k < i + |s| :: raw[k] == s[k - i] != NUL;
    }
  }

  lemma {:induction false} CStrFails(raw: Bytes, i: nat)
    requires i <= |raw|
    ensures CStr(raw, i).Err? <==> NulFree(raw[i..])
  {
    var j := NulAt(raw, i);
    if j < |raw| {
      assert raw[i..][j - i] == NUL;
    } else {
      assert raw[i..j] == raw[i..];
    }
  }

  // ----- hexadecimal -----

  /** What std::isspace accepts in the C locale. */
  predicate IsSpace(c: byte) {
    c == SPACE || 0x09 <= c <= 0x0D
  }

  predicate Ignored(c: byte) {
    IsSpace(c) || c == UNDERSCORE
  }

  function Lower(c: byte): byte {
    if 0x41 <= c <= 0x5A then c + 0x20 else c
  }

  function HexNibble(c: byte): (r: Result<byte>)
    ensures r.Ok? ==> r.value < 16
  {
    if 0x30 <= c <= 0x39 then Ok(c - 0x30)
    else if 0x61 <= Lower(c) <= 0x66 then Ok(10 + (Lower(c) - 0x61))
    else Err(BadHex)
  }

  function HexDigit(v: byte): byte
    requires v < 16
  {
    if v < 10 then 0x30 + v else 0x61 + (v - 10)
  }

  /** Bytes read so far and the pending high nibble. */
  datatype Partial = Partial(out: Bytes, hi: Option<byte>)

  function Scan(s: Bytes): (r: Result<Partial>)
    ensures r.Ok? && r.value.hi.Some? ==> r.value.hi.value < 16
  {
    if s == [] then Ok(Partial([], None))
    else
      var p := Scan(s[..|s| - 1]);
      var c := s[|s| - 1];
      if p.Err? || Ignored(c) then p
      else
        var v := HexNibble(c);
        if v.Err? then Err(v.error)
        else match p.value.hi
             case None => Ok(Partial(p.value.out, Some(v.value)))
             case Some(hi) => Ok(Partial(p.value.out + [hi * 16 + v.value], None))
  }

  function Unhex(s: Bytes): Result<Bytes> {
    var p := Scan(s);
    if p.Err? then Err(p.error) else if p.value.hi.Some? then Err(OddHex) else Ok(p.value.out)
  }

  /** Two lower-case digits a byte, separated by single spaces. */
  function Hex(v: Bytes): Bytes {
    if v == [] then []
    else
      var b := v[|v| - 1];
      Hex(v[..|v| - 1]) + (if |v| > 1 then [SPACE] else []) + [HexDigit(b / 16), HexDigit(b % 16)]
  }

  lemma {:induction false} BadHexSticks(s: Bytes, n: nat)
    requires n <= |s| && Scan(s[..n]).Err?
    ensures Scan(s) == Scan(s[..n])
    decreases |s| - n
  {
    if n < |s| {
      assert s[..n + 1][..n] == s[..n];
      BadHexSticks(s, n + 1);
    } else {
      assert s[..n] == s;
    }
  }

  method Hex2Bin(s: Bytes) returns (r: Result<Bytes>)
    ensures r == Unhex(s)
  {
    var out: Bytes := [];
    var hi: int := -1;
    for i := 0 to |s|
      invariant -1 <= hi < 16
      invariant Scan(s[..i]) == Ok(Partial(out, if hi < 0 then None else Some(hi)))
    {
      assert s[..i + 1][..i] == s[..i];
      if Ignored(s[i]) {
        continue;
      }
      var v := HexNibble(s[i]);
      if v.Err? {
        BadHexSticks(s, i + 1);
        return Err(v.error);
      }
      if hi < 0 {
        hi := v.value;
      } else {
        out := out + [hi * 16 + v.value];
        hi := -1;
      }
    }
    assert s[..|s|] == s;
    if hi >= 0 {
      return Err(OddHex);
    }
    return Ok(out);
  }

  method Bin2Hex(v: Bytes) returns (s: Bytes)
    ensures s == Hex(v)
  {
    s := [];
    for i := 0 to |v|
      invariant s == Hex(v[..i])
    {
      assert v[..i + 1][..i] == v[..i];
      if i > 0 {
        s := s + [SPACE];
      }
      s := s + [HexDigit(v[i] / 16), HexDigit(v[i] % 16)];
    }
    assert v[..|v|] == v;
  }

  lemma {:induction false} ScanPair(s: Bytes, b: byte)
    requires Scan(s).Ok? && Scan(s).value.hi.None?
    ensures Scan(s + [HexDigit(b / 16), HexDigit(b % 16)]) == Ok(Partial(Scan(s).value.out + [b], None))
  {
    var d, e := HexDigit(b / 16), HexDigit(b % 16);
    assert (s + [d, e])[..|s| + 1] == s + [d] && (s + [d])[..|s|] == s;
    assert HexNibble(d) == Ok(b / 16) && HexNibble(e) == Ok(b % 16);
  }

  lemma {:induction false} ScanSpace(s: Bytes)
    ensures Scan(s + [SPACE]) == Scan(s)
  {
    assert (s + [SPACE])[..|s|] == s;
  }

  /** Printing bytes in hexadecimal and reading them back gives the bytes. */
  lemma {:induction false} HexRoundTrip(v: Bytes)
    ensures Unhex(Hex(v)) == Ok(v)
    ensures Scan(Hex(v)) == Ok(Partial(v, None))
  {
    if v != [] {
      var n := |v| - 1;
      HexRoundTrip(v[..n]);
      var s := Hex(v[..n]);
      var t := s + (if |v| > 1 then [SPACE] else []);
      ScanSpace(s);
      assert n == 0 ==> t == s;
      ScanPair(t, v[n]);
      assert v[..n] + [v[n]] == v;
    }
  }

  /** Printed bytes by character codes: two digits, 0 to 9 or a to f, from every third place on, and blanks between. */
  lemma {:induction false} HexShape(v: Bytes, k: nat)
    requires k < |v|
    ensures |Hex(v)| == 3 * |v| - 1
    ensures Hex(v)[3 * k] == (if v[k] / 16 < 10 then 48 + v[k] / 16 else 87 + v[k] / 16)
    ensures Hex(v)[3 * k + 1] == (if v[k] % 16 < 10 then 48 + v[k] % 16 else 87 + v[k] % 16)
    ensures k + 1 < |v| ==> Hex(v)[3 * k + 2] == 32
  {
    var n := |v| - 1;
    if n > 0 {
      HexShape(v[..n], if k < n then k else n - 1);
    }
  }

  /** `s` without the characters hex2bin skips. */
  function Digits(s: Bytes): Bytes {
    if s == [] then []
    else if Ignored(s[|s| - 1]) then Digits(s[..|s| - 1])
    else Digits(s[..|s| - 1]) + [s[|s| - 1]]
  }

  lemma {:induction false} ScanAlike(a: Bytes, b: Bytes, c: byte)
    requires Scan(a) == Scan(b)
    ensures Scan(a + [c]) == if Ignored(c) then Scan(b) else Scan(b + [c])
  {
    assert (a + [c])[..|a|] == a && (b + [c])[..|b|] == b;
  }

  lemma {:induction false} ScanDigits(s: Bytes)
    ensures Scan(s) == Scan(Digits(s))
  {
    if s != [] {
      var n := |s| - 1;
      ScanDigits(s[..n]);
      ScanAlike(s[..n], Digits(s[..n]), s[n]);
      assert s[..n] + [s[n]] == s;
    }
  }

  /** White space and underscores make no difference, wherever they stand. */
  lemma {:induction false} BlanksDoNotMatter(s: Bytes)
    ensures Scan(s) == Scan(Digits(s)) && Unhex(s) == Unhex(Digits(s))
  {
    ScanDigits(s);
  }

  /** The value of a hexadecimal digit of either case. */
  function ValueOf(c: byte): int {
    if c < 58 then c - 48 else if c < 71 then c - 55 else c - 87
  }

  predicate IsDigit(c: byte) {
    48 <= c <= 57 || 65 <= c <= 70 || 97 <= c <= 102
  }

  predicate IsBlank(c: byte) {
    9 <= c <= 13 || c == 32 || c == 95
  }

  /**
   Reading fails exactly on a character that is neither a digit nor skipped, or after an
   odd number of digits; otherwise each byte is made of the next two digits.
   */
  lemma {:induction false} UnhexIs(s: Bytes)
    ensures Unhex(s) == Err(BadHex) <==> exists c :: c in s && !IsDigit(c) && !IsBlank(c)
    ensures Unhex(s) == Err(OddHex) <==>
            (forall c | c in s :: IsDigit(c) || IsBlank(c)) && |Digits(s)| % 2 == 1
    ensures Unhex(s).Ok? ==>
              && |Digits(s)| == 2 * |Unhex(s).value|
              && forall k | 0 <= k < |Unhex(s).value| ::
                   Unhex(s).value[k] == 16 * ValueOf(Digits(s)[2 * k]) + ValueOf(Digits(s)[2 * k + 1])
  {
    ScanIs(s);
  }

  lemma {:induction false} ScanIs(s: Bytes)
    ensures Scan(s).Ok? <==> forall c | c in s :: IsDigit(c) || IsBlank(c)
    ensures Scan(s).Err? ==> Scan(s) == Err(BadHex)
    ensures Scan(s).Ok? ==>
              var p, d := Scan(s).value, Digits(s);
              && |d| == 2 * |p.out| + (if p.hi.Some? then 1 else 0)
              && (p.hi.Some? ==> p.hi.value == ValueOf(d[|d| - 1]))
              && forall k | 0 <= k < |p.out| :: p.out[k] == 16 * ValueOf(d[2 * k]) + ValueOf(d[2 * k + 1])
  {
    if s != [] {
      var n := |s| - 1;
      ScanIs(s[..n]);
      assert s == s[..n] + [s[n]];
      assert forall c :: c in s <==> c in s[..n] || c == s[n];
      assert Ignored(s[n]) == IsBlank(s[n]) && HexNibble(s[n]).Ok? == IsDigit(s[n]);
    }
  }
}
