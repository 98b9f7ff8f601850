/**
 Exactly which bounds the fast path decides like the slow comparator, column by column and
 for whole pages.
*/
module FastAgree {
  import opened Common
  import opened PageSearch
  import opened FastPath
  import opened FastFind
  import opened FastKeys

  // ---------------------------------------------------------------------------
  // The condition
  // ---------------------------------------------------------------------------

  /** The decomposed key passes every row from column `i` on. */
  predicate FastAlways(ks: seq<KeyCol>, v: int, i: nat)
    requires i <= |ks|
  {
    if i == |ks| then v == 0 else ks[i] == Last
  }

  /** The decomposed key passes no row from column `i` on. */
  predicate FastNever(ks: seq<KeyCol>, v: int, i: nat)
    requires i <= |ks|
  {
    if i == |ks| then v == 1 else ks[i] == First
  }

  /** The slow comparison is decided by this column for all rows, below them or not. */
  predicate SlowSide(f: Field, b: BoundCol, below: bool) {
    match b.value
    case Unbounded => b.lower == below
    case NullValue => f.nullFirst == below
    case Plain(_) => false
  }

  /** How many columns the index orders by (`n`), the fast path compares (`m`) and the bound sets (`nk`).  The slow
      comparator reads `n` columns whether or not the bound sets them. */
  predicate Shape(fs: seq<Field>, bs: seq<BoundCol>, nk: nat, n: nat, m: nat) {
    m <= n <= |fs| && n <= |bs| && nk <= |bs| && (nk == 0 ==> m == 0)
  }

  /**
   The bound agrees from column `i` on.  It fails at an unbounded descending column, at an
   exclusive value that the following columns do not fence, at a fence for columns the bound does not set when the
   slow comparator finds something else in them, at columns beyond the `m` the fast path compares, and for a
   unique bound whose ending the fast path does not represent.
  */
  predicate Agrees(fs: seq<Field>, bs: seq<BoundCol>, nk: nat, ending: Ending, n: nat, m: nat, v: int, i: nat)
    requires Shape(fs, bs, nk, n, m) && i <= m
    decreases m - i
  {
    if i == m then
      if m == n then (ending == BeforeAll ==> v == 1) && (ending == AfterAll ==> v == 0)
      else SlowSide(fs[i], bs[i], v == 1)
    else if i >= nk then
      SlowSide(fs[i], bs[i], FenceOf(bs[nk - 1]) == First)
    else
      match bs[i].value
      case Unbounded => fs[i].ascending
      case NullValue => true
      case Plain(_) =>
        if bs[i].inclusive || ExclusiveCmp(bs[i]) == 0 then Agrees(fs, bs, nk, ending, n, m, v, i + 1)
        else if bs[i].lower then FastAlways(Columns(fs, bs, nk, m), v, i + 1)
        else FastNever(Columns(fs, bs, nk, m), v, i + 1)
  }

  // ---------------------------------------------------------------------------
  // It is sufficient
  // ---------------------------------------------------------------------------

  lemma {:induction false} AgreesSame(fs: seq<Field>, bs: seq<BoundCol>, nk: nat, ending: Ending, n: nat, m: nat,
                                      v: int, r: Row, i: nat)
    requires Shape(fs, bs, nk, n, m) && i <= m && IsFixed(fs, r) && 0 <= v <= 1
    requires Agrees(fs, bs, nk, ending, n, m, v, i)
    ensures SlowCmp(fs, bs, ending, n, r, i) >= v <==> FastCmp(fs, Columns(fs, bs, nk, m), r, i) >= v
    decreases m - i
  {
    var ks := Columns(fs, bs, nk, m);
    if i < m && i < nk && bs[i].value.Plain? && (bs[i].inclusive || ExclusiveCmp(bs[i]) == 0) {
      AgreesSame(fs, bs, nk, ending, n, m, v, r, i + 1);
    }
  }

  // ---------------------------------------------------------------------------
  // It is necessary
  // ---------------------------------------------------------------------------

  function Shift(d: Datum, k: int): Datum {
    match d case Scalar(x) => Scalar(x + k) case Tid(b, o) => Tid(b + k, o)
  }

  /** A datum just above `d` in storage order when `up`, just below it otherwise. */
  function Beside(f: Field, d: Datum, up: bool): (e: Datum)
    ensures StoredCmp(f, d, e) == if up then -1 else 1
  {
    Shift(d, if f.ascending == up then 1 else -1)
  }

  function Zeros(fs: seq<Field>): (r: Row)
    ensures IsFixed(fs, r)
  {
    seq(|fs|, i => Value(Scalar(0)))
  }

  /** A comparison from column `i` on does not look at earlier columns. */
  lemma {:induction false} SlowFrom(fs: seq<Field>, bs: seq<BoundCol>, ending: Ending, n: nat, r: Row, s: Row,
                                    i: nat, c: nat)
    requires c <= i <= n <= |fs| && n <= |bs| && IsFixed(fs, r) && IsFixed(fs, s) && r[c..] == s[c..]
    ensures SlowCmp(fs, bs, ending, n, r, i) == SlowCmp(fs, bs, ending, n, s, i)
    decreases n - i
  {
    if i < n {
      assert r[i] == r[c..][i - c] && s[i] == s[c..][i - c];
      SlowFrom(fs, bs, ending, n, r, s, i + 1, c);
    }
  }

  lemma {:induction false} FastFrom(fs: seq<Field>, ks: seq<KeyCol>, r: Row, s: Row, i: nat, c: nat)
    requires c <= i <= |ks| <= |fs| && IsFixed(fs, r) && IsFixed(fs, s) && r[c..] == s[c..]
    ensures FastCmp(fs, ks, r, i) == FastCmp(fs, ks, s, i)
    decreases |ks| - i
  {
    if i < |ks| {
      assert r[i] == r[c..][i - c] && s[i] == s[c..][i - c];
      FastFrom(fs, ks, r, s, i + 1, c);
    }
  }

  /** Replacing column `i` by the bound's own value leaves the verdicts of the later columns. */
  lemma Pinned(fs: seq<Field>, bs: seq<BoundCol>, ending: Ending, n: nat, ks: seq<KeyCol>, r: Row, i: nat)
    requires i < |ks| <= n <= |fs| && n <= |bs| && IsFixed(fs, r) && bs[i].value.Plain?
    ensures var s := r[i := Value(bs[i].value.d)];
            IsFixed(fs, s) &&
            SlowCmp(fs, bs, ending, n, s, i + 1) == SlowCmp(fs, bs, ending, n, r, i + 1) &&
            FastCmp(fs, ks, s, i + 1) == FastCmp(fs, ks, r, i + 1)
  {
    var s := r[i := Value(bs[i].value.d)];
    assert r[i + 1..] == s[i + 1..];
    SlowFrom(fs, bs, ending, n, r, s, i + 1, i + 1);
    FastFrom(fs, ks, r, s, i + 1, i + 1);
  }

  /** A row on which the fast verdict from column `i` on is the given one, unless the columns rule it out. */
  lemma FastRow(fs: seq<Field>, ks: seq<KeyCol>, v: int, i: nat, pass: bool) returns (r: Row)
    requires i <= |ks| <= |fs| && 0 <= v <= 1
    requires if pass then !FastNever(ks, v, i) else !FastAlways(ks, v, i)
    ensures IsFixed(fs, r) && (FastCmp(fs, ks, r, i) >= v <==> pass)
  {
    r := Zeros(fs);
    if i < |ks| && ks[i].At? {
      r := r[i := Value(Beside(fs[i], ks[i].d, !pass))];
    }
  }

  /** A row that the slow comparison does not put on the given side, unless this column puts all rows there. */
  lemma SlowRow(fs: seq<Field>, bs: seq<BoundCol>, ending: Ending, n: nat, v: int, i: nat, below: bool) returns (r: Row)
    requires i < n <= |fs| && n <= |bs| && 0 <= v <= 1 && !SlowSide(fs[i], bs[i], below)
    ensures IsFixed(fs, r) && (SlowCmp(fs, bs, ending, n, r, i) >= v <==> below)
  {
    r := Zeros(fs);
    if bs[i].value.Plain? {
      r := r[i := Value(Beside(fs[i], bs[i].value.d, !below))];
    }
  }

  lemma {:induction false} Disagreement(fs: seq<Field>, bs: seq<BoundCol>, nk: nat, ending: Ending, n: nat, m: nat,
                                        v: int, i: nat)
    returns (r: Row)
    requires Shape(fs, bs, nk, n, m) && i <= m && 0 <= v <= 1
    requires !Agrees(fs, bs, nk, ending, n, m, v, i)
    ensures IsFixed(fs, r)
    ensures (SlowCmp(fs, bs, ending, n, r, i) >= v) != (FastCmp(fs, Columns(fs, bs, nk, m), r, i) >= v)
    decreases m - i
  {
    r := Zeros(fs);
    var ks := Columns(fs, bs, nk, m);
    if i == m {
      if m < n {
        r := SlowRow(fs, bs, ending, n, v, i, v == 1);
      }
    } else if i >= nk {
      r := SlowRow(fs, bs, ending, n, v, i, FenceOf(bs[nk - 1]) == First);
    } else if bs[i].value.Plain? {
      if bs[i].inclusive || ExclusiveCmp(bs[i]) == 0 {
        r := Disagreement(fs, bs, nk, ending, n, m, v, i + 1);
      } else {
        r := FastRow(fs, ks, v, i + 1, !bs[i].lower);
      }
      Pinned(fs, bs, ending, n, ks, r, i);
      r := r[i := Value(bs[i].value.d)];
    }
  }

  /** The fast path and the slow comparator put every row on the same side exactly when the condition holds. */
  lemma AgreesIff(fs: seq<Field>, bs: seq<BoundCol>, nk: nat, ending: Ending, n: nat, m: nat, v: int)
    requires Shape(fs, bs, nk, n, m) && 0 <= v <= 1
    ensures Agrees(fs, bs, nk, ending, n, m, v, 0) <==>
            SameSide(fs, Columns(fs, bs, nk, m), SlowKey(fs, bs, ending, n), v)
  {
    var ks, kcmp := Columns(fs, bs, nk, m), SlowKey(fs, bs, ending, n);
    if Agrees(fs, bs, nk, ending, n, m, v, 0) {
      forall r | IsFixed(fs, r) ensures kcmp(r) >= v <==> FastCmp(fs, ks, r, 0) >= v {
        AgreesSame(fs, bs, nk, ending, n, m, v, r, 0);
      }
    } else {
      var r := Disagreement(fs, bs, nk, ending, n, m, v, 0);
      assert kcmp(r) == SlowCmp(fs, bs, ending, n, r, 0);
    }
  }

  // ---------------------------------------------------------------------------
  // Whole pages
  // ---------------------------------------------------------------------------

  /** On every non-leaf page an answer of the fast search is the slow search's child. */
  ghost predicate AgreesOnPages(fs: seq<Field>, ks: seq<KeyCol>, kcmp: Row -> int, v: int)
    requires |ks| <= |fs|
  {
    forall p: Page<Row>, loc :: FastPage(fs, p) && FastAnswer(fs, ks, p, v, loc) ==> LastPassed(p, kcmp, v, loc)
  }

  /** A key that passes every high key is always left to the slow search. */
  lemma NeverAnswers(fs: seq<Field>, ks: seq<KeyCol>, v: int, p: Page<Row>, loc: Locator)
    requires |ks| <= |fs| && 0 <= v <= 1 && FastAlways(ks, v, 0)
    ensures !FastAnswer(fs, ks, p, v, loc)
  {
  }

  lemma DatumCmpTrans(a: Datum, b: Datum, c: Datum)
    requires DatumCmp(a, b) <= 0 && DatumCmp(b, c) < 0
    ensures DatumCmp(a, c) < 0
  {
  }

  lemma DatumCmpTransDown(a: Datum, b: Datum, c: Datum)
    requires DatumCmp(a, b) >= 0 && DatumCmp(b, c) > 0
    ensures DatumCmp(a, c) > 0
  {
  }

  /** A datum above two others in storage order. */
  lemma AboveBoth(f: Field, a: Datum, b: Datum) returns (x: Datum)
    ensures StoredCmp(f, a, x) < 0 && StoredCmp(f, b, x) < 0
  {
    var top := if StoredCmp(f, a, b) >= 0 then a else b;
    x := Beside(f, top, true);
    if f.ascending {
      DatumCmpTrans(a, top, x);
      DatumCmpTrans(b, top, x);
    } else {
      DatumCmpTransDown(a, top, x);
      DatumCmpTransDown(b, top, x);
    }
  }

  /** A high key above a given row that the key does not pass. */
  lemma HikeyAbove(fs: seq<Field>, ks: seq<KeyCol>, v: int, w: Row) returns (h: Row)
    requires 0 < |fs| && |ks| <= |fs| && 0 <= v <= 1 && IsFixed(fs, w) && !FastAlways(ks, v, 0)
    ensures IsFixed(fs, h) && Below(Le(fs), w, h) && FastCmp(fs, ks, h, 0) < v
  {
    var d := if |ks| > 0 && ks[0].At? then ks[0].d else w[0].d;
    var x := AboveBoth(fs[0], w[0].d, d);
    h := w[0 := Value(x)];
    RowCmpFlip(fs, w, h, 0);
    assert RowCmp(fs, w, h, 0) == StoredCmp(fs[0], w[0].d, x);
  }

  /** A page with one chunk: the keyless item and one keyed item. */
  function TwoItemPage(w: Row, h: Row): Page<Row> {
    Page(false, false, true, [Chunk([Item(w, 0), Item(w, 1)], h, true)])
  }

  lemma TwoItemPageOk(fs: seq<Field>, w: Row, h: Row)
    requires IsFixed(fs, w) && IsFixed(fs, h) && Below(Le(fs), w, h)
    ensures var p := TwoItemPage(w, h); FastPage(fs, p) && Items(p) == [Item(w, 0), Item(w, 1)]
  {
    TwoItems(w, h);
    OneChunkOrdered(Le(fs), TwoItemPage(w, h));
  }

  /** A page with one chunk and at most one keyed item is in order. */
  lemma OneChunkOrdered(le: (Row, Row) -> bool, p: Page<Row>)
    requires |p.chunks| == 1 && !p.leaf && |Items(p)| <= 2
    ensures Ordered(le, p)
  {
  }

  lemma TwoItems(w: Row, h: Row)
    ensures Items(TwoItemPage(w, h)) == [Item(w, 0), Item(w, 1)]
  {
    var p := TwoItemPage(w, h);
    assert Flat(p, 1) == Flat(p, 0) + p.chunks[0].items;
  }

  /** On such a page the fast search answers, with the second item exactly when it passes its row. */
  lemma TwoItemAnswer(fs: seq<Field>, ks: seq<KeyCol>, v: int, w: Row, h: Row) returns (loc: Locator)
    requires |ks| <= |fs| && IsFixed(fs, w) && IsFixed(fs, h) && FastCmp(fs, ks, h, 0) < v
    ensures FastAnswer(fs, ks, TwoItemPage(w, h), v, loc)
    ensures loc == Locator(0, if FastCmp(fs, ks, w, 0) >= v then 1 else 0)
  {
    var p := TwoItemPage(w, h);
    var low := if FastCmp(fs, ks, w, 0) >= v then 2 else 1;
    loc := Locator(0, low - 1);
    assert FastChunk(fs, ks, p, v, 0);
    assert FastItem(fs, ks, p, v, 0, low);
    assert loc == StepBack(p, 0, low);
  }

  /** A row the two comparisons disagree on makes a page on which the searches choose different children. */
  lemma DifferentChildren(fs: seq<Field>, ks: seq<KeyCol>, kcmp: Row -> int, v: int, w: Row)
    requires 0 < |fs| && |ks| <= |fs| && 0 <= v <= 1 && !FastAlways(ks, v, 0)
    requires IsFixed(fs, w) && (kcmp(w) >= v) != (FastCmp(fs, ks, w, 0) >= v)
    ensures !AgreesOnPages(fs, ks, kcmp, v)
  {
    var h := HikeyAbove(fs, ks, v, w);
    var p := TwoItemPage(w, h);
    TwoItemPageOk(fs, w, h);
    var loc := TwoItemAnswer(fs, ks, v, w, h);
    assert Offset(p, loc) == loc.item;
    if LastPassed(p, kcmp, v, loc) {
      PassedBefore(p, kcmp, v, loc.item + 1, 1);
    }
  }

  /**
   For every bound: the fast search agrees with the slow one on every page exactly when the bound
   agrees column by column, or its first column keeps the fast search from ever answering.
  */
  lemma PagesAgreeIff(fs: seq<Field>, bs: seq<BoundCol>, nk: nat, ending: Ending, n: nat, m: nat, hikeySearch: bool)
    requires Shape(fs, bs, nk, n, m) && 0 < |fs| && Complete(fs, ending, n)
    ensures var v, ks := Level(hikeySearch), Columns(fs, bs, nk, m);
            AgreesOnPages(fs, ks, SlowKey(fs, bs, ending, n), v) <==>
            (Agrees(fs, bs, nk, ending, n, m, v, 0) || FastAlways(ks, v, 0))
  {
    var v, ks, kcmp := Level(hikeySearch), Columns(fs, bs, nk, m), SlowKey(fs, bs, ending, n);
    AgreesIff(fs, bs, nk, ending, n, m, v);
    if FastAlways(ks, v, 0) {
      forall p: Page<Row>, loc ensures !FastAnswer(fs, ks, p, v, loc) {
        NeverAnswers(fs, ks, v, p, loc);
      }
    } else if Agrees(fs, bs, nk, ending, n, m, v, 0) {
      SlowKeyMonotone(fs, bs, ending, n);
      forall p: Page<Row>, loc | FastPage(fs, p) && FastAnswer(fs, ks, p, v, loc) ensures LastPassed(p, kcmp, v, loc) {
        FastIsSlow(fs, ks, p, kcmp, hikeySearch, loc);
      }
    } else {
      var w := Disagreement(fs, bs, nk, ending, n, m, v, 0);
      DifferentChildren(fs, ks, kcmp, v, w);
    }
  }

  // ---------------------------------------------------------------------------
  // What follows for the kinds of keys
  // ---------------------------------------------------------------------------

  /** A tuple key on an index whose compared columns are all of its key columns always agrees. */
  lemma {:induction false} TupleAgrees(fs: seq<Field>, t: Row, v: int, i: nat)
    requires |t| == |fs| && i <= |fs| && 0 <= v <= 1
    ensures Agrees(fs, TupleBound(t), |fs|, Equal, |fs|, |fs|, v, i)
    decreases |fs| - i
  {
    if i < |fs| {
      TupleAgrees(fs, t, v, i + 1);
    }
  }

  /** An exclusive upper bound on one ascending column: the fast path passes a row equal to it, the slow one does
      not. */
  lemma ExclusiveUpperDisagrees(d: Datum)
    ensures var fs := [Field(true, false)];
            var bs := [BoundCol(Plain(d), false, true, false, true)];
            !AgreesOnPages(fs, Columns(fs, bs, 1, 1), SlowKey(fs, bs, Equal, 1), 0)
  {
    var fs := [Field(true, false)];
    var bs := [BoundCol(Plain(d), false, true, false, true)];
    PagesAgreeIff(fs, bs, 1, Equal, 1, 1, false);
    assert Columns(fs, bs, 1, 1)[0] == At(d);
  }

  /** An index that orders rows by more columns than the fast path compares: `u = d` with the
      remaining column unbounded below starts the fast search after the rows it should start before. */
  lemma ShortKeyDisagrees(d: Datum)
    ensures var fs := [Field(true, false), Field(true, false)];
            var bs := [BoundCol(Plain(d), true, false, true, true), BoundCol(Unbounded, true, false, false, true)];
            !AgreesOnPages(fs, Columns(fs, bs, 2, 1), SlowKey(fs, bs, Equal, 2), 0)
  {
    var fs := [Field(true, false), Field(true, false)];
    var bs := [BoundCol(Plain(d), true, false, true, true), BoundCol(Unbounded, true, false, false, true)];
    PagesAgreeIff(fs, bs, 2, Equal, 2, 1, false);
    assert Columns(fs, bs, 2, 1)[0] == At(d);
  }

  // ---------------------------------------------------------------------------
  // The combined search
  // ---------------------------------------------------------------------------

  /** Searching below everything finds the first item. */
  lemma FirstFound(fs: seq<Field>, ks: seq<KeyCol>, p: Page<Row>, loc: Locator)
    requires WellFormed(Le(fs), p) && !p.leaf && 0 < |ks| <= |fs| && ks[0] == First && FastAnswer(fs, ks, p, 0, loc)
    ensures 0 <= loc.chunk < |p.chunks| && 0 <= loc.item < |p.chunks[loc.chunk].items| && Offset(p, loc) == 0
  {
    var low := (r: Row) => -1;
    FastIsSlow(fs, ks, p, low, false, loc);
    if Offset(p, loc) > 0 {
      PassedBefore(p, low, 0, Offset(p, loc) + 1, 1);
    }
  }

  /** A bound as a search states it: an array of columns, how many of them are set, and how it ends. */
  datatype Bound = Bound(cols: seq<BoundCol>, nkeys: nat, ending: Ending)

  /** The same target, its key given by the slow comparator over `n` columns. */
  function SlowTarget(fs: seq<Field>, t: Target<Bound>, n: nat): Target<Row -> int>
    requires n <= |fs| && (t.Ordinary? || t.HighKey? ==> n <= |t.k.cols|)
  {
    match t
    case Ordinary(b) => Ordinary(SlowKey(fs, b.cols, b.ending, n))
    case HighKey(b) => HighKey(SlowKey(fs, b.cols, b.ending, n))
    case Rightmost => Rightmost
    case Leftmost => Leftmost
  }

  /** The key columns for each kind of key; none when the bound's types do not match. */
  method KeyColumns(fs: seq<Field>, t: Target<Bound>, m: nat, unset: seq<KeyCol>) returns (ok: bool, ks: seq<KeyCol>)
    requires m <= |fs| && |unset| == m && (t.Ordinary? || t.HighKey? ==> t.k.nkeys <= |t.k.cols|)
    ensures ok ==> |ks| == m
    ensures ok && t.Leftmost? ==> forall i :: 0 <= i < m ==> ks[i] == First
    ensures ok && t.Rightmost? ==> forall i :: 0 <= i < m ==> ks[i] == Last
    ensures ok && (t.Ordinary? || t.HighKey?) ==>
      ks == if t.k.nkeys == 0 then unset else Columns(fs, t.k.cols, t.k.nkeys, m)
    ensures !ok <==> (t.Ordinary? || t.HighKey?) && exists i :: 0 <= i < m && i < t.k.nkeys && !t.k.cols[i].sameType
  {
    if t.Leftmost? || t.Rightmost? {
      ok, ks := true, seq(m, i => if t.Leftmost? then First else Last);
    } else {
      ok, ks := GetKeys(fs, t.k.cols, t.k.nkeys, m, unset);
    }
  }

  /** The exact condition for a target: a bound agrees, or its first column keeps the fast search from answering. */
  predicate TargetAgrees(fs: seq<Field>, t: Target<Bound>, n: nat, m: nat) {
    t.Ordinary? || t.HighKey? ==>
      Shape(fs, t.k.cols, t.k.nkeys, n, m) && Complete(fs, t.k.ending, n) &&
      (Agrees(fs, t.k.cols, t.k.nkeys, t.k.ending, n, m, Level(t.HighKey?), 0) ||
       FastAlways(Columns(fs, t.k.cols, t.k.nkeys, m), Level(t.HighKey?), 0))
  }

  /**
   The child of a non-leaf page for a key: the fast search first, the slow one when it gives no
   answer.  Under the exact condition on the bound it is the child the slow search alone finds.
  */
  method FindChild(fs: seq<Field>, t: Target<Bound>, n: nat, m: nat, unset: seq<KeyCol>, p: Page<Row>)
    returns (loc: Locator)
    requires FastPage(fs, p) && m <= n <= |fs| && 0 < |fs| && |unset| == m && TargetAgrees(fs, t, n, m)
    ensures Chosen(p, SlowTarget(fs, t, n), loc)
  {
    var ok, ks := KeyColumns(fs, t, m, unset);
    if ok {
      var r := FindDownlinkFast(fs, ks, t.HighKey?, p);
      if r.Ok? {
        FastChild(fs, t, n, ks, p, r.loc);
        return r.loc;
      }
    }
    if t.Ordinary? || t.HighKey? {
      SlowKeyMonotone(fs, t.k.cols, t.k.ending, n);
    }
    loc := FindDownlink(p, SlowTarget(fs, t, n), Le(fs));
  }

  lemma FastChild(fs: seq<Field>, t: Target<Bound>, n: nat, ks: seq<KeyCol>, p: Page<Row>, loc: Locator)
    requires FastPage(fs, p) && |ks| <= n <= |fs| && 0 < |fs| && TargetAgrees(fs, t, n, |ks|)
    requires t.Leftmost? ==> forall i :: 0 <= i < |ks| ==> ks[i] == First
    requires t.Rightmost? ==> forall i :: 0 <= i < |ks| ==> ks[i] == Last
    requires t.Ordinary? || t.HighKey? ==> ks == Columns(fs, t.k.cols, t.k.nkeys, |ks|)
    requires FastAnswer(fs, ks, p, Level(t.HighKey?), loc)
    ensures Chosen(p, SlowTarget(fs, t, n), loc)
  {
    var v := Level(t.HighKey?);
    if FastAlways(ks, v, 0) {
      NeverAnswers(fs, ks, v, p, loc);
    } else if t.Leftmost? {
      FirstFound(fs, ks, p, loc);
    } else {
      PagesAgreeIff(fs, t.k.cols, t.k.nkeys, t.k.ending, n, |ks|, t.HighKey?);
    }
  }
}
