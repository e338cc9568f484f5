/** Order-preserving key encodings: big-endian integers, their complements, and the bits of
    32-bit floating-point numbers. */
module Encodings {
  import opened ByteStrings

  // ----- Big-endian numbers

  /** The number of values of `n` bytes. */
  function Pow256(n: nat): (r: nat)
    ensures r > 0
  {
    if n == 0 then 1 else 256 * Pow256(n - 1)
  }

  /** The `n` bytes of `v`, the most significant one first. */
  function BigEndian(n: nat, v: nat): (r: Bytes)
    requires v < Pow256(n)
    ensures |r| == n
  {
    if n == 0 then [] else BigEndian(n - 1, v / 256) + [v % 256]
  }

  function Value(b: Bytes): nat {
    if b == [] then 0 else 256 * Value(b[..|b| - 1]) + b[|b| - 1]
  }

  lemma {:induction false} ValueFits(b: Bytes)
    ensures Value(b) < Pow256(|b|)
    decreases |b|
  {
    if b != [] {
      ValueFits(b[..|b| - 1]);
    }
  }

  /** Reading the bytes of a number gives back the number. */
  lemma {:induction false} ValueOfBigEndian(n: nat, v: nat)
    requires v < Pow256(n)
    ensures Value(BigEndian(n, v)) == v
  {
    if n > 0 {
      var init := BigEndian(n - 1, v / 256);
      ValueOfBigEndian(n - 1, v / 256);
      assert BigEndian(n, v)[..n - 1] == init;
    }
  }

  /** Every byte string is the encoding of the number it reads as. */
  lemma {:induction false} BigEndianOfValue(b: Bytes)
    ensures Value(b) < Pow256(|b|) && BigEndian(|b|, Value(b)) == b
    decreases |b|
  {
    ValueFits(b);
    if b != [] {
      var k := |b| - 1;
      BigEndianOfValue(b[..k]);
      assert b == b[..k] + [b[k]];
    }
  }

  // ----- Byte order

  /** Comparing byte by byte from the front, as key-value stores do. */
  predicate LexLess(a: Bytes, b: Bytes) {
    b != [] && (a == [] || a[0] < b[0] || (a[0] == b[0] && LexLess(a[1..], b[1..])))
  }

  /** Fixed-width fields one after the other compare as tuples. */
  lemma {:induction false} ConcatComparesAsPair(a: Bytes, b: Bytes, restA: Bytes, restB: Bytes)
    requires |a| == |b|
    ensures LexLess(a + restA, b + restB) <==> LexLess(a, b) || (a == b && LexLess(restA, restB))
    decreases |a|
  {
    if a == [] {
      assert a + restA == restA && b + restB == restB;
    } else {
      ConcatComparesAsPair(a[1..], b[1..], restA, restB);
      assert (a + restA)[1..] == a[1..] + restA;
      assert (b + restB)[1..] == b[1..] + restB;
      assert a == b <==> a[0] == b[0] && a[1..] == b[1..];
    }
  }

  lemma OneByte(x: Byte, y: Byte)
    ensures LexLess([x], [y]) <==> x < y
  {
    var a: Bytes, b: Bytes := [x], [y];
    assert b[1..] == [];
  }

  /** On strings of one length the byte order is the order of the numbers. */
  lemma {:induction false} ByteOrderIsNumeric(a: Bytes, b: Bytes)
    requires |a| == |b|
    ensures LexLess(a, b) <==> Value(a) < Value(b)
    ensures a == b <==> Value(a) == Value(b)
    decreases |a|
  {
    if a != [] {
      var k := |a| - 1;
      ByteOrderIsNumeric(a[..k], b[..k]);
      assert a == a[..k] + [a[k]] && b == b[..k] + [b[k]];
      ConcatComparesAsPair(a[..k], b[..k], [a[k]], [b[k]]);
      OneByte(a[k], b[k]);
    }
  }

  // ----- Ascending and descending integers; the widths in use are 4 and 8

  function EncodeAscending(b: Bytes, width: nat, v: nat): Bytes
    requires v < Pow256(width)
  {
    b + BigEndian(width, v)
  }

  /** All bits of `v` flipped. */
  function Complement(width: nat, v: nat): nat
    requires v < Pow256(width)
  {
    Pow256(width) - 1 - v
  }

  function EncodeDescending(b: Bytes, width: nat, v: nat): Bytes
    requires v < Pow256(width)
  {
    EncodeAscending(b, width, Complement(width, v))
  }

  /** What a decoder returns: the remainder, the value, and whether there were enough bytes. */
  datatype Decoded = Decoded(rest: Bytes, value: nat, ok: bool)

  function DecodeAscending(b: Bytes, width: nat): Decoded {
    if |b| < width then Decoded([], 0, false) else Decoded(b[width..], Value(b[..width]), true)
  }

  /** On too few bytes the value is the complement of zero. */
  function DecodeDescending(b: Bytes, width: nat): (r: Decoded) {
    var d := DecodeAscending(b, width);
    if |b| >= width then
      ValueFits(b[..width]);
      d.(value := Complement(width, d.value))
    else d.(value := Complement(width, 0))
  }

  /** Decoding gives back the value and the untouched remainder; it succeeds exactly on what
      encoding a value puts in front of a remainder, and fails exactly on too few bytes. */
  lemma DecodeAscendingExactly(b: Bytes, width: nat, v: nat, rest: Bytes)
    requires v < Pow256(width)
    ensures b == EncodeAscending([], width, v) + rest <==> DecodeAscending(b, width) == Decoded(rest, v, true)
    ensures DecodeAscending(b, width).ok <==> |b| >= width
  {
    ValueOfBigEndian(width, v);
    if b == EncodeAscending([], width, v) + rest {
      assert b[..width] == BigEndian(width, v) && b[width..] == rest;
    }
    if DecodeAscending(b, width) == Decoded(rest, v, true) {
      BigEndianOfValue(b[..width]);
      assert b == b[..width] + b[width..];
    }
  }

  lemma DecodeDescendingExactly(b: Bytes, width: nat, v: nat, rest: Bytes)
    requires v < Pow256(width)
    ensures b == EncodeDescending([], width, v) + rest <==> DecodeDescending(b, width) == Decoded(rest, v, true)
    ensures DecodeDescending(b, width).ok <==> |b| >= width
    ensures |b| < width ==> DecodeDescending(b, width) == Decoded([], Pow256(width) - 1, false)
  {
    DecodeAscendingExactly(b, width, Complement(width, v), rest);
    if |b| >= width {
      ValueFits(b[..width]);
    }
  }

  /** Ascending encodings sort as the numbers do, descending ones the other way round. */
  lemma EncodingsKeepOrder(width: nat, v: nat, w: nat)
    requires v < Pow256(width) && w < Pow256(width)
    ensures LexLess(EncodeAscending([], width, v), EncodeAscending([], width, w)) <==> v < w
    ensures LexLess(EncodeDescending([], width, v), EncodeDescending([], width, w)) <==> v > w
  {
    NumbersKeepOrder(width, v, w);
    NumbersKeepOrder(width, Complement(width, v), Complement(width, w));
  }

  lemma NumbersKeepOrder(width: nat, v: nat, w: nat)
    requires v < Pow256(width) && w < Pow256(width)
    ensures LexLess(EncodeAscending([], width, v), EncodeAscending([], width, w)) <==> v < w
    ensures EncodeAscending([], width, v) == EncodeAscending([], width, w) <==> v == w
  {
    ByteOrderIsNumeric(BigEndian(width, v), BigEndian(width, w));
    ValueOfBigEndian(width, v);
    ValueOfBigEndian(width, w);
    assert [] + BigEndian(width, v) == BigEndian(width, v);
    assert [] + BigEndian(width, w) == BigEndian(width, w);
  }

  // ----- Composite keys

  /** A column of a key: its width and its direction. */
  datatype Column = Column(width: nat, descending: bool)

  ghost predicate Fits(values: seq<nat>, columns: seq<Column>) {
    |values| == |columns| && forall i :: 0 <= i < |values| ==> values[i] < Pow256(columns[i].width)
  }

  /** Columns appended one after the other. */
  ghost function EncodeKey(values: seq<nat>, columns: seq<Column>): Bytes
    requires Fits(values, columns)
  {
    if values == [] then []
    else
      EncodeColumn(values[0], columns[0]) + EncodeKey(values[1..], columns[1..])
  }

  function EncodeColumn(value: nat, column: Column): Bytes
    requires value < Pow256(column.width)
  {
    if column.descending then EncodeDescending([], column.width, value) else EncodeAscending([], column.width, value)
  }

  function DecodeColumn(b: Bytes, column: Column): Decoded {
    if column.descending then DecodeDescending(b, column.width) else DecodeAscending(b, column.width)
  }

  /** The first column that differs decides, in its direction. */
  ghost predicate KeyLess(v: seq<nat>, w: seq<nat>, columns: seq<Column>)
    requires |v| == |w| == |columns|
  {
    v != [] && ((if columns[0].descending then v[0] > w[0] else v[0] < w[0]) || (v[0] == w[0] && KeyLess(v[1..], w[1..], columns[1..])))
  }

  lemma ColumnOrder(v: nat, w: nat, column: Column)
    requires v < Pow256(column.width) && w < Pow256(column.width)
    ensures |EncodeColumn(v, column)| == column.width
    ensures LexLess(EncodeColumn(v, column), EncodeColumn(w, column)) <==> if column.descending then v > w else v < w
    ensures EncodeColumn(v, column) == EncodeColumn(w, column) <==> v == w
  {
    EncodingsKeepOrder(column.width, v, w);
    NumbersKeepOrder(column.width, v, w);
    NumbersKeepOrder(column.width, Complement(column.width, v), Complement(column.width, w));
  }

  /** Composite keys of any columns sort as the tuples they stand for. */
  lemma {:induction false} KeysCompareAsTuples(v: seq<nat>, w: seq<nat>, columns: seq<Column>)
    requires Fits(v, columns) && Fits(w, columns)
    ensures LexLess(EncodeKey(v, columns), EncodeKey(w, columns)) <==> KeyLess(v, w, columns)
    decreases |columns|
  {
    hide EncodeColumn, LexLess;
    if columns == [] {
      NothingIsLess([]);
    } else {
      KeysCompareAsTuples(v[1..], w[1..], columns[1..]);
      ColumnOrder(v[0], w[0], columns[0]);
      ColumnOrder(w[0], v[0], columns[0]);
      ConcatComparesAsPair(EncodeColumn(v[0], columns[0]), EncodeColumn(w[0], columns[0]),
                           EncodeKey(v[1..], columns[1..]), EncodeKey(w[1..], columns[1..]));
    }
  }

  lemma NothingIsLess(a: Bytes)
    ensures !LexLess(a, [])
  {
  }

  /** The columns of a key, decoded one after the other; what is left is returned as it is. */
  ghost function DecodeKey(b: Bytes, columns: seq<Column>): (seq<nat>, Bytes)
    decreases |columns|
  {
    if columns == [] then ([], b)
    else
      var d := DecodeColumn(b, columns[0]);
      var (values, rest) := DecodeKey(d.rest, columns[1..]);
      ([d.value] + values, rest)
  }

  lemma {:induction false} DecodeKeyUndoesEncode(values: seq<nat>, columns: seq<Column>, rest: Bytes)
    requires Fits(values, columns)
    ensures DecodeKey(EncodeKey(values, columns) + rest, columns) == (values, rest)
    decreases |columns|
  {
    if columns == [] {
      assert EncodeKey(values, columns) + rest == rest;
    } else {
      var column := EncodeColumn(values[0], columns[0]);
      var tail := EncodeKey(values[1..], columns[1..]) + rest;
      var b := EncodeKey(values, columns) + rest;
      assert b == column + tail;
      if columns[0].descending {
        DecodeDescendingExactly(b, columns[0].width, values[0], tail);
      } else {
        DecodeAscendingExactly(b, columns[0].width, values[0], tail);
      }
      DecodeKeyUndoesEncode(values[1..], columns[1..], rest);
      hide EncodeKey, DecodeColumn;
      assert [values[0]] + values[1..] == values;
    }
  }
}
