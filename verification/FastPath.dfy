/**
 Fast downlink search: the key is decomposed into one entry per column, and the
 fixed-stride arrays of high keys and of items are narrowed column by column.

 Rows are sequences of cells.  Columns may be ascending or descending and put NULLs first
 or last.  Chunks marked as fixed hold rows without NULLs, as the fixed tuple format does.
*/
module FastPath {
  import opened PageSearch

  // ---------------------------------------------------------------------------
  // Values, rows and their order
  // ---------------------------------------------------------------------------

  /** An int4, int8 or oid value, or an item pointer. */
  datatype Datum = Scalar(n: int) | Tid(block: int, offset: int)

  datatype Cell = Null | Value(d: Datum)

  type Row = seq<Cell>

  datatype Field = Field(ascending: bool, nullFirst: bool)

  function IntCmp(a: int, b: int): int {
    if a < b then -1 else if a > b then 1 else 0
  }

  /** Item pointers compare by block, then by offset.  A column holds one kind of datum. */
  function DatumCmp(a: Datum, b: Datum): int {
    match (a, b)
    case (Scalar(x), Scalar(y)) => IntCmp(x, y)
    case (Tid(x, i), Tid(y, j)) => if x != y then IntCmp(x, y) else IntCmp(i, j)
    case (Scalar(_), Tid(_, _)) => -1
    case (Tid(_, _), Scalar(_)) => 1
  }

  /** Comparison in storage order. */
  function StoredCmp(f: Field, a: Datum, b: Datum): int {
    if f.ascending then DatumCmp(a, b) else -DatumCmp(a, b)
  }

  function CellCmp(f: Field, a: Cell, b: Cell): int {
    if a.Value? && b.Value? then StoredCmp(f, a.d, b.d)
    else if a.Null? && b.Null? then 0
    else if a.Null? then (if f.nullFirst then -1 else 1)
    else if f.nullFirst then 1 else -1
  }

  /** Lexicographic comparison of two rows from column `i` on. */
  function RowCmp(fs: seq<Field>, a: Row, b: Row, i: nat): int
    requires i <= |fs| && |fs| <= |a| && |fs| <= |b|
    decreases |fs| - i
  {
    if i == |fs| then 0
    else if CellCmp(fs[i], a[i], b[i]) != 0 then CellCmp(fs[i], a[i], b[i])
    else RowCmp(fs, a, b, i + 1)
  }

  predicate RowLe(fs: seq<Field>, a: Row, b: Row) {
    |a| == |fs| && |b| == |fs| && RowCmp(fs, a, b, 0) <= 0
  }

  /** A datum as a number: offsets of item pointers have 16 bits. */
  function Number(d: Datum): int {
    match d
    case Scalar(n) => n
    case Tid(block, offset) => block * 0x10000 + offset
  }

  predicate SameKind(a: Datum, b: Datum) {
    a.Scalar? == b.Scalar? && (a.Tid? ==> 0 <= a.offset < 0x10000) && (b.Tid? ==> 0 <= b.offset < 0x10000)
  }

  /** Two data of one kind compare like numbers. */
  lemma DatumOrder(a: Datum, b: Datum)
    requires SameKind(a, b)
    ensures DatumCmp(a, b) < 0 <==> Number(a) < Number(b)
    ensures DatumCmp(a, b) == 0 <==> Number(a) == Number(b)
  {
  }

  /** One cell comes before another: values in the column's direction, NULLs first or last as the column says. */
  lemma CellOrder(f: Field, a: Cell, b: Cell)
    requires a.Value? && b.Value? ==> SameKind(a.d, b.d)
    ensures CellCmp(f, a, b) < 0 <==>
            if a.Null? || b.Null? then a != b && a.Null? == f.nullFirst
            else if f.ascending then Number(a.d) < Number(b.d) else Number(b.d) < Number(a.d)
    ensures CellCmp(f, a, b) == 0 <==> if a.Null? || b.Null? then a == b else Number(a.d) == Number(b.d)
  {
    if a.Value? && b.Value? {
      DatumOrder(a.d, b.d);
      DatumOrder(b.d, a.d);
    }
  }

  /** One row comes before another exactly when it does so in the first column in which they differ. */
  lemma {:induction false} RowOrder(fs: seq<Field>, a: Row, b: Row, i: nat)
    requires i <= |fs| && |fs| <= |a| && |fs| <= |b|
    ensures RowCmp(fs, a, b, i) < 0 <==>
            exists k :: i <= k < |fs| && CellCmp(fs[k], a[k], b[k]) < 0 &&
                        forall j :: i <= j < k ==> CellCmp(fs[j], a[j], b[j]) == 0
    ensures RowCmp(fs, a, b, i) == 0 <==> forall j :: i <= j < |fs| ==> CellCmp(fs[j], a[j], b[j]) == 0
    decreases |fs| - i
  {
    if i < |fs| {
      RowOrder(fs, a, b, i + 1);
      var here, rest := CellCmp(fs[i], a[i], b[i]), RowCmp(fs, a, b, i + 1);
      if here == 0 && rest < 0 {
        var k :| i + 1 <= k < |fs| && CellCmp(fs[k], a[k], b[k]) < 0 &&
                 forall j :: i + 1 <= j < k ==> CellCmp(fs[j], a[j], b[j]) == 0;
        assert forall j :: i <= j < k ==> CellCmp(fs[j], a[j], b[j]) == 0;
      }
    }
  }

  /** A row of the fixed format: no NULLs. */
  predicate IsFixed(fs: seq<Field>, r: Row) {
    |r| == |fs| && forall i :: 0 <= i < |fs| ==> r[i].Value?
  }

  ghost predicate AllFixed(fs: seq<Field>, rows: seq<Row>) {
    forall j {:trigger rows[j]} :: 0 <= j < |rows| ==> IsFixed(fs, rows[j])
  }

  // ---------------------------------------------------------------------------
  // Decomposed keys
  // ---------------------------------------------------------------------------

  /** What the key says about one column: a fence before or after everything, or a value. */
  datatype KeyCol = First | Last | At(d: Datum)

  /** Where the decomposed key stands relative to a fixed row, from column `i` on. */
  function FastCmp(fs: seq<Field>, ks: seq<KeyCol>, r: Row, i: nat): int
    requires i <= |ks| <= |fs| && IsFixed(fs, r)
    decreases |ks| - i
  {
    if i == |ks| then 0
    else match ks[i]
      case First => -1
      case Last => 1
      case At(d) => if StoredCmp(fs[i], d, r[i].d) != 0 then StoredCmp(fs[i], d, r[i].d) else FastCmp(fs, ks, r, i + 1)
  }

  // ---------------------------------------------------------------------------
  // Searching one column
  // ---------------------------------------------------------------------------

  /** The column is in storage order between `lower` and `upper`. */
  ghost predicate ColumnSorted(f: Field, rows: seq<Row>, i: nat, lower: int, upper: int)
    requires 0 <= lower <= upper <= |rows|
    requires forall j :: lower <= j < upper ==> i < |rows[j]| && rows[j][i].Value?
  {
    forall a, b :: lower <= a < b < upper ==> StoredCmp(f, rows[a][i].d, rows[b][i].d) <= 0
  }

  /** In storage order a value is no higher relative to later rows than to earlier ones. */
  lemma LaterRows(f: Field, rows: seq<Row>, i: nat, lower: int, upper: int, key: Datum, a: int, b: int)
    requires 0 <= lower <= a <= b < upper <= |rows|
    requires forall j :: lower <= j < upper ==> i < |rows[j]| && rows[j][i].Value?
    requires ColumnSorted(f, rows, i, lower, upper)
    ensures StoredCmp(f, key, rows[b][i].d) <= StoredCmp(f, key, rows[a][i].d)
  {
    assert a < b ==> StoredCmp(f, rows[a][i].d, rows[b][i].d) <= 0;
    CmpLater(f, key, rows[a][i].d, rows[b][i].d);
  }

  lemma CmpFlips(f: Field, x: Datum, key: Datum)
    ensures StoredCmp(f, key, x) == if f.ascending then -DatumCmp(x, key) else DatumCmp(x, key)
  {
  }

  lemma CmpLater(f: Field, key: Datum, x: Datum, y: Datum)
    ensures x == y || StoredCmp(f, x, y) <= 0 ==> StoredCmp(f, key, y) <= StoredCmp(f, key, x)
  {
  }

  /** Splits the range into the part below the value, the part equal to it and the part above. */
  method ArraySearch(f: Field, rows: seq<Row>, i: nat, lower: int, upper: int, key: Datum) returns (lo: int, hi: int)
    requires 0 <= lower <= upper <= |rows|
    requires forall j :: lower <= j < upper ==> i < |rows[j]| && rows[j][i].Value?
    requires ColumnSorted(f, rows, i, lower, upper)
    ensures lower <= lo <= hi <= upper
    ensures forall j :: lower <= j < lo ==> StoredCmp(f, key, rows[j][i].d) > 0
    ensures forall j :: lo <= j < hi ==> StoredCmp(f, key, rows[j][i].d) == 0
    ensures forall j :: hi <= j < upper ==> StoredCmp(f, key, rows[j][i].d) < 0
  {
    lo, hi := lower, upper;
    var lowerSet := false;
    var j := lower;
    while j < upper
      invariant lower <= j <= upper && hi == upper
      invariant !lowerSet ==> lo == lower
      invariant lowerSet ==> lower <= lo < j
      invariant forall k :: lower <= k < (if lowerSet then lo else j) ==> StoredCmp(f, key, rows[k][i].d) > 0
      invariant lowerSet ==> forall k :: lo <= k < j ==> StoredCmp(f, key, rows[k][i].d) == 0
    {
      var cmp := DatumCmp(rows[j][i].d, key);
      CmpFlips(f, rows[j][i].d, key);
      if lowerSet {
        LaterRows(f, rows, i, lower, upper, key, lo, j);
      }
      if cmp == 0 && !lowerSet {
        lo := j;
        lowerSet := true;
      } else if (if f.ascending then cmp > 0 else cmp < 0) {
        if !lowerSet {
          lo := j;
        }
        hi := j;
        forall k | hi <= k < upper ensures StoredCmp(f, key, rows[k][i].d) < 0 {
          LaterRows(f, rows, i, lower, upper, key, j, k);
        }
        return;
      }
      j := j + 1;
    }
    if !lowerSet {
      lo := hi;
    }
  }

  // ---------------------------------------------------------------------------
  // Narrowing over all columns
  // ---------------------------------------------------------------------------

  ghost predicate RowsSorted(fs: seq<Field>, rows: seq<Row>) {
    forall a, b :: 0 <= a < b < |rows| ==> RowLe(fs, rows[a], rows[b])
  }

  /** The key equals the row on every column before `i`. */
  predicate Matches(fs: seq<Field>, ks: seq<KeyCol>, r: Row, i: nat)
    requires i <= |ks| <= |fs| && IsFixed(fs, r)
  {
    forall c :: 0 <= c < i ==> ks[c].At? && StoredCmp(fs[c], ks[c].d, r[c].d) == 0
  }

  /** Columns that match do not decide the comparison. */
  lemma {:induction false} FastCmpFrom(fs: seq<Field>, ks: seq<KeyCol>, r: Row, i: nat, c: nat)
    requires c <= i <= |ks| <= |fs| && IsFixed(fs, r) && Matches(fs, ks, r, i)
    ensures FastCmp(fs, ks, r, c) == FastCmp(fs, ks, r, i)
    decreases i - c
  {
    if c < i {
      FastCmpFrom(fs, ks, r, i, c + 1);
    }
  }

  lemma {:induction false} RowCmpFrom(fs: seq<Field>, ks: seq<KeyCol>, a: Row, b: Row, i: nat, c: nat)
    requires c <= i <= |ks| <= |fs| && IsFixed(fs, a) && IsFixed(fs, b)
    requires Matches(fs, ks, a, i) && Matches(fs, ks, b, i)
    ensures RowCmp(fs, a, b, c) == RowCmp(fs, a, b, i)
    decreases i - c
  {
    if c < i {
      assert ks[c].At?;
      RowCmpFrom(fs, ks, a, b, i, c + 1);
    }
  }

  /** Rows that agree on the columns before `i` are sorted by column `i`. */
  lemma RunSorted(fs: seq<Field>, rows: seq<Row>, ks: seq<KeyCol>, i: nat, lower: int, upper: int)
    requires AllFixed(fs, rows)
    requires RowsSorted(fs, rows) && i < |ks| <= |fs| && 0 <= lower <= upper <= |rows|
    requires forall j :: lower <= j < upper ==> Matches(fs, ks, rows[j], i)
    ensures ColumnSorted(fs[i], rows, i, lower, upper)
  {
    forall a, b | lower <= a < b < upper ensures StoredCmp(fs[i], rows[a][i].d, rows[b][i].d) <= 0 {
      assert RowLe(fs, rows[a], rows[b]);
      RowCmpFrom(fs, ks, rows[a], rows[b], i, 0);
    }
  }

  /** The rows up to `lower` are below the key, those from `upper` on are above it. */
  ghost predicate Outside(fs: seq<Field>, rows: seq<Row>, ks: seq<KeyCol>, lower: int, upper: int)
    requires |ks| <= |fs| && AllFixed(fs, rows)
  {
    0 <= lower <= upper <= |rows| &&
    (forall j :: 0 <= j < lower ==> FastCmp(fs, ks, rows[j], 0) > 0) &&
    (forall j :: upper <= j < |rows| ==> FastCmp(fs, ks, rows[j], 0) < 0)
  }

  method NarrowColumn(fs: seq<Field>, rows: seq<Row>, ks: seq<KeyCol>, i: nat, lower: int, upper: int)
    returns (lo: int, hi: int)
    requires AllFixed(fs, rows)
    requires RowsSorted(fs, rows) && i < |ks| <= |fs| && Outside(fs, rows, ks, lower, upper)
    requires forall j :: lower <= j < upper ==> Matches(fs, ks, rows[j], i)
    ensures Outside(fs, rows, ks, lo, hi)
    ensures forall j :: lo <= j < hi ==> Matches(fs, ks, rows[j], i + 1)
  {
    forall j | lower <= j < upper ensures FastCmp(fs, ks, rows[j], 0) == FastCmp(fs, ks, rows[j], i) {
      FastCmpFrom(fs, ks, rows[j], i, 0);
    }
    lo, hi := lower, upper;
    match ks[i] {
      case At(d) =>
        RunSorted(fs, rows, ks, i, lower, upper);
        lo, hi := ArraySearch(fs[i], rows, i, lower, upper, d);
      case First =>
        hi := lo;
      case Last =>
        lo := hi;
    }
  }

  /** `lower` rows are below the key and `upper` rows are not above it. */
  method Narrow(fs: seq<Field>, rows: seq<Row>, ks: seq<KeyCol>) returns (lower: int, upper: int)
    requires AllFixed(fs, rows)
    requires RowsSorted(fs, rows) && |ks| <= |fs|
    ensures 0 <= lower <= upper <= |rows|
    ensures forall j :: 0 <= j < |rows| ==> (j < lower <==> FastCmp(fs, ks, rows[j], 0) > 0)
    ensures forall j :: 0 <= j < |rows| ==> (j < upper <==> FastCmp(fs, ks, rows[j], 0) >= 0)
  {
    lower, upper := 0, |rows|;
    var i := 0;
    while lower < upper && i < |ks|
      decreases |ks| - i
      invariant i <= |ks| && Outside(fs, rows, ks, lower, upper)
      invariant forall j :: lower <= j < upper ==> Matches(fs, ks, rows[j], i)
    {
      lower, upper := NarrowColumn(fs, rows, ks, i, lower, upper);
      i := i + 1;
    }
    forall j | lower <= j < upper ensures FastCmp(fs, ks, rows[j], 0) == 0 {
      FastCmpFrom(fs, ks, rows[j], i, 0);
    }
  }
}
