/**
 Decomposing a search key for the fast path, and exactly when the decomposed key sends
 every search to the same child as the comparator the slow path uses.
*/
module FastKeys {
  import opened PageSearch
  import opened FastPath
  import opened FastFind

  // ---------------------------------------------------------------------------
  // Search keys
  // ---------------------------------------------------------------------------

  datatype BoundValue = Unbounded | NullValue | Plain(d: Datum)

  /** One column of a bound: its value, direction flags, and whether its type is the index column's. */
  datatype BoundCol = BoundCol(value: BoundValue, lower: bool, upper: bool, inclusive: bool, sameType: bool)

  /** How the comparison ends when no column decides: a plain bound is equal, the unique
      bounds stand before or after all rows with the same unique columns. */
  datatype Ending = Equal | BeforeAll | AfterAll

  /** The flags of a tuple's own column: a lower, inclusive value. */
  function TupleCol(c: Cell): BoundCol {
    BoundCol(if c.Null? then NullValue else Plain(c.d), true, false, true, true)
  }

  /** A tuple, compared column by column, is the bound made of its columns. */
  function TupleBound(t: Row): seq<BoundCol> {
    seq(|t|, i requires 0 <= i < |t| => TupleCol(t[i]))
  }

  /** What an exclusive bound says about a row equal to it in this column. */
  function ExclusiveCmp(b: BoundCol): int {
    if b.lower then (if b.inclusive then -1 else 1)
    else if b.upper then (if b.inclusive then 1 else -1)
    else 0
  }

  /** A bound column against a cell. */
  function ColCmp(f: Field, b: BoundCol, c: Cell): int
    requires !b.value.Unbounded?
  {
    if b.value.Plain? && c.Value? then
      var cmp := StoredCmp(f, b.value.d, c.d);
      if cmp == 0 && !b.inclusive then ExclusiveCmp(b) else cmp
    else if b.value.NullValue? && c.Null? then
      (if b.inclusive then 0 else ExclusiveCmp(b))
    else if c.Null? then
      (if f.nullFirst then 1 else -1)
    else
      (if f.nullFirst then -1 else 1)
  }

  /** The slow comparison of a bound with a row over its first `n` columns, from column `i` on. */
  function SlowCmp(fs: seq<Field>, bs: seq<BoundCol>, ending: Ending, n: nat, r: Row, i: nat): int
    requires i <= n <= |fs| && n <= |bs| && |r| == |fs|
    decreases n - i
  {
    if i == n then
      (match ending case Equal => 0 case BeforeAll => -1 case AfterAll => 1)
    else if bs[i].value.Unbounded? then
      (if bs[i].lower then -1 else 1)
    else if ColCmp(fs[i], bs[i], r[i]) != 0 then
      ColCmp(fs[i], bs[i], r[i])
    else
      SlowCmp(fs, bs, ending, n, r, i + 1)
  }

  /** The comparator handed to the slow search. */
  function SlowKey(fs: seq<Field>, bs: seq<BoundCol>, ending: Ending, n: nat): Row -> int
    requires n <= |fs| && n <= |bs|
  {
    (r: Row) => if |r| == |fs| then SlowCmp(fs, bs, ending, n, r, 0) else 0
  }

  // ---------------------------------------------------------------------------
  // The comparator is monotone, so the slow search is right for every bound
  // ---------------------------------------------------------------------------

  /** Only bounds that end in equality may look at fewer columns than the order of rows does. */
  predicate Complete(fs: seq<Field>, ending: Ending, n: nat) {
    ending == Equal ==> n == |fs|
  }

  /** A cell that is lower in storage order does not compare higher; two different cells are not both equal. */
  lemma ColMonotone(f: Field, b: BoundCol, x: Cell, y: Cell)
    requires !b.value.Unbounded? && CellCmp(f, x, y) <= 0
    ensures ColCmp(f, b, y) >= 0 && CellCmp(f, x, y) < 0 ==> ColCmp(f, b, x) >= 1
    ensures CellCmp(f, x, y) == 0 ==> ColCmp(f, b, x) == ColCmp(f, b, y)
  {
  }

  lemma {:induction false} SlowMonotone(fs: seq<Field>, bs: seq<BoundCol>, ending: Ending, n: nat, x: Row, y: Row,
                                        i: nat)
    requires i <= n <= |fs| && n <= |bs| && |x| == |fs| && |y| == |fs|
    requires RowCmp(fs, x, y, i) <= 0
    ensures SlowCmp(fs, bs, ending, n, y, i) >= 0 ==> SlowCmp(fs, bs, ending, n, x, i) >= 0
    ensures SlowCmp(fs, bs, ending, n, y, i) >= 1 ==> SlowCmp(fs, bs, ending, n, x, i) >= 1
    ensures Complete(fs, ending, n) && RowCmp(fs, x, y, i) < 0 && SlowCmp(fs, bs, ending, n, y, i) >= 0 ==>
              SlowCmp(fs, bs, ending, n, x, i) >= 1
    decreases n - i
  {
    if i < n && !bs[i].value.Unbounded? {
      ColMonotone(fs[i], bs[i], x[i], y[i]);
      if CellCmp(fs[i], x[i], y[i]) == 0 {
        SlowMonotone(fs, bs, ending, n, x, y, i + 1);
      }
    }
  }

  /** The order of rows is antisymmetric up to equal comparison. */
  lemma {:induction false} RowCmpFlip(fs: seq<Field>, x: Row, y: Row, i: nat)
    requires i <= |fs| && |x| == |fs| && |y| == |fs|
    ensures RowCmp(fs, x, y, i) == -RowCmp(fs, y, x, i)
    decreases |fs| - i
  {
    if i < |fs| {
      RowCmpFlip(fs, x, y, i + 1);
    }
  }

  /** Every bound gives a comparator the slow search can use. */
  lemma SlowKeyMonotone(fs: seq<Field>, bs: seq<BoundCol>, ending: Ending, n: nat)
    requires n <= |fs| && n <= |bs| && Complete(fs, ending, n)
    ensures Monotone(Le(fs), SlowKey(fs, bs, ending, n))
  {
    var kcmp := SlowKey(fs, bs, ending, n);
    forall a, b | Le(fs)(a, b)
      ensures kcmp(b) >= 0 ==> kcmp(a) >= 0
      ensures kcmp(b) >= 1 ==> kcmp(a) >= 1
      ensures Below(Le(fs), a, b) && kcmp(b) >= 0 ==> kcmp(a) >= 1
    {
      SlowMonotone(fs, bs, ending, n, a, b, 0);
      RowCmpFlip(fs, a, b, 0);
    }
  }

  // ---------------------------------------------------------------------------
  // Decomposition
  // ---------------------------------------------------------------------------

  /** An unbounded column, a NULL and a value, as storage positions. */
  function ColumnOf(f: Field, b: BoundCol): KeyCol {
    match b.value
    case Unbounded => if b.lower == f.ascending then First else Last
    case NullValue => if f.nullFirst then First else Last
    case Plain(d) => At(d)
  }

  /** Where the columns a bound leaves out stand: before the rows sharing its prefix, or after them. */
  function FenceOf(b: BoundCol): KeyCol {
    if b.lower == b.inclusive then First else Last
  }

  /** The decomposition of the first `m` columns of a bound that sets `nk` columns. */
  function Columns(fs: seq<Field>, bs: seq<BoundCol>, nk: nat, m: nat): (ks: seq<KeyCol>)
    requires m <= |fs| && nk <= |bs| && (nk == 0 ==> m == 0)
    ensures |ks| == m
    ensures forall i :: 0 <= i < m ==> ks[i] == if i < nk then ColumnOf(fs[i], bs[i]) else FenceOf(bs[nk - 1])
  {
    seq(m, i requires 0 <= i < m => if i < nk then ColumnOf(fs[i], bs[i]) else FenceOf(bs[nk - 1]))
  }

  /** Fills the key columns from a bound that sets `nk` columns; refuses a bound of another type.  A bound that
      sets no column leaves the key columns as they were. */
  method GetKeys(fs: seq<Field>, bs: seq<BoundCol>, nk: nat, m: nat, unset: seq<KeyCol>)
    returns (ok: bool, ks: seq<KeyCol>)
    requires m <= |fs| && nk <= |bs| && |unset| == m
    ensures ok <==> forall i :: 0 <= i < m && i < nk ==> bs[i].sameType
    ensures ok ==> ks == if nk == 0 then unset else Columns(fs, bs, nk, m)
  {
    var num := if m < nk then m else nk;
    ks := unset;
    var i := 0;
    while i < num
      invariant 0 <= i <= num && |ks| == m && (num == 0 ==> ks == unset)
      invariant forall j :: 0 <= j < i ==> bs[j].sameType && ks[j] == ColumnOf(fs[j], bs[j])
    {
      if !bs[i].sameType {
        return false, [];
      }
      ks := ks[i := ColumnOf(fs[i], bs[i])];
      i := i + 1;
    }
    if num > 0 && num < m {
      var fence := FenceOf(bs[num - 1]);
      while i < m
        invariant num <= i <= m && |ks| == m
        invariant forall j :: 0 <= j < num ==> ks[j] == ColumnOf(fs[j], bs[j])
        invariant forall j :: num <= j < i ==> ks[j] == fence
      {
        ks := ks[i := fence];
        i := i + 1;
      }
    }
    ok := true;
    assert nk > 0 ==> ks == Columns(fs, bs, nk, m);
  }

  /** Columns the bound leaves out fence off the whole run of rows that share its prefix. */
  lemma {:induction false} PrefixFence(fs: seq<Field>, bs: seq<BoundCol>, nk: nat, m: nat, r: Row, i: nat)
    requires 0 < nk <= |bs| && i <= nk < m <= |fs| && IsFixed(fs, r)
    ensures var prefix := FastCmp(fs, Columns(fs, bs, nk, nk), r, i);
            FastCmp(fs, Columns(fs, bs, nk, m), r, i) ==
            if prefix != 0 then prefix else if bs[nk - 1].lower == bs[nk - 1].inclusive then -1 else 1
    decreases nk - i
  {
    if i < nk {
      PrefixFence(fs, bs, nk, m, r, i + 1);
    }
  }
}
