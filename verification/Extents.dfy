/**
 Checking that the busy and the free extents of a data file tile it exactly.
*/
module Extents {

  datatype Extent = Extent(off: nat, len: nat)

  /** Order by offset, then by length. */
  function ExtentCmp(a: Extent, b: Extent): int {
    if a.off != b.off then (if a.off > b.off then 1 else -1)
    else if a.len != b.len then (if a.len > b.len then 1 else -1)
    else 0
  }

  lemma ExtentOrder(a: Extent, b: Extent)
    ensures ExtentCmp(a, b) < 0 <==> a.off < b.off || (a.off == b.off && a.len < b.len)
    ensures ExtentCmp(a, b) == 0 <==> a == b
  {
  }

  // ---------------------------------------------------------------------------
  // What is to be decided
  // ---------------------------------------------------------------------------

  predicate Contains(e: Extent, x: int) {
    e.off <= x < e.off + e.len
  }

  /** How many of the extents contain block `x`. */
  function Count(es: seq<Extent>, x: int): nat {
    if es == [] then 0 else Count(es[..|es| - 1], x) + if Contains(es[|es| - 1], x) then 1 else 0
  }

  /** Blocks in all extents together. */
  function Total(es: seq<Extent>): nat {
    if es == [] then 0 else Total(es[..|es| - 1]) + es[|es| - 1].len
  }

  /** Every block below `n` lies in exactly one extent, and no other block in any. */
  ghost predicate TilesTo(busy: seq<Extent>, free: seq<Extent>, n: nat) {
    forall x {:trigger Count(busy, x)} :: Count(busy, x) + Count(free, x) == if 0 <= x < n then 1 else 0
  }

  ghost predicate Tiles(busy: seq<Extent>, free: seq<Extent>) {
    exists n: nat :: TilesTo(busy, free, n)
  }

  ghost predicate Positive(es: seq<Extent>) {
    forall i :: 0 <= i < |es| ==> es[i].len > 0
  }

  // ---------------------------------------------------------------------------
  // Counting
  // ---------------------------------------------------------------------------

  lemma {:induction false} CountAppend(a: seq<Extent>, b: seq<Extent>, x: int)
    ensures Count(a + b, x) == Count(a, x) + Count(b, x)
    decreases |b|
  {
    if b == [] {
      assert a + b == a;
    } else {
      assert (a + b)[..|a + b| - 1] == a + b[..|b| - 1];
      CountAppend(a, b[..|b| - 1], x);
    }
  }

  lemma CountOne(a: seq<Extent>, i: nat, x: int)
    requires i < |a|
    ensures Count(a[..i + 1], x) == Count(a[..i], x) + if Contains(a[i], x) then 1 else 0
  {
    assert a[..i + 1][..i] == a[..i];
  }

  /** An extent from position `i` on that contains `x` is counted beyond the first `i`. */
  lemma CountLater(a: seq<Extent>, i: nat, j: nat, x: int)
    requires i <= j < |a| && Contains(a[j], x)
    ensures Count(a, x) >= Count(a[..i], x) + 1
  {
    assert a == a[..i] + a[i..j] + a[j..j + 1] + a[j + 1..];
    CountAppend(a[..i] + a[i..j] + a[j..j + 1], a[j + 1..], x);
    CountAppend(a[..i] + a[i..j], a[j..j + 1], x);
    CountAppend(a[..i], a[i..j], x);
    assert a[j..j + 1] == [] + [a[j]];
  }

  /** If none of the later extents reaches down to `x`, only the first `i` count. */
  lemma {:induction false} CountNone(a: seq<Extent>, i: nat, x: int)
    requires i <= |a| && (forall j :: i <= j < |a| ==> a[j].off > x)
    ensures Count(a, x) == Count(a[..i], x)
    decreases |a|
  {
    if i < |a| {
      CountNone(a[..|a| - 1], i, x);
      assert a[..|a| - 1][..i] == a[..i];
    } else {
      assert a[..i] == a;
    }
  }

  // ---------------------------------------------------------------------------
  // Sorting
  // ---------------------------------------------------------------------------

  ghost predicate IsSorted(es: seq<Extent>) {
    forall i, j :: 0 <= i < j < |es| ==> ExtentCmp(es[i], es[j]) <= 0
  }

  function Insert(es: seq<Extent>, e: Extent): (r: seq<Extent>)
    ensures |r| == |es| + 1
  {
    if es == [] || ExtentCmp(es[|es| - 1], e) <= 0 then es + [e]
    else Insert(es[..|es| - 1], e) + [es[|es| - 1]]
  }

  /** The extents in order; what the sort routine leaves in the array. */
  function Sort(es: seq<Extent>): (r: seq<Extent>)
    ensures |r| == |es|
  {
    if es == [] then [] else Insert(Sort(es[..|es| - 1]), es[|es| - 1])
  }

  /** Inserting adds exactly one extent. */
  lemma {:induction false} InsertAdds(es: seq<Extent>, e: Extent)
    ensures var r := Insert(es, e); multiset(r) == multiset(es) + multiset{e} && Total(r) == Total(es) + e.len
  {
    if es == [] || ExtentCmp(es[|es| - 1], e) <= 0 {
      assert (es + [e])[..|es|] == es;
    } else {
      var n := |es| - 1;
      InsertAdds(es[..n], e);
      var r := Insert(es[..n], e);
      assert es == es[..n] + [es[n]];
      assert (r + [es[n]])[..|r|] == r;
    }
  }

  lemma {:induction false} InsertBounded(es: seq<Extent>, e: Extent, top: Extent)
    requires ExtentCmp(e, top) <= 0 && forall i :: 0 <= i < |es| ==> ExtentCmp(es[i], top) <= 0
    ensures forall i :: 0 <= i < |Insert(es, e)| ==> ExtentCmp(Insert(es, e)[i], top) <= 0
  {
    if es != [] && ExtentCmp(es[|es| - 1], e) > 0 {
      InsertBounded(es[..|es| - 1], e, top);
    }
  }

  lemma CmpTrans(a: Extent, b: Extent, c: Extent)
    requires ExtentCmp(a, b) <= 0 && ExtentCmp(b, c) <= 0
    ensures ExtentCmp(a, c) <= 0
  {
  }

  /** Inserting keeps order. */
  lemma {:induction false} InsertSorted(es: seq<Extent>, e: Extent)
    requires IsSorted(es)
    ensures IsSorted(Insert(es, e))
  {
    if es == [] {
    } else if ExtentCmp(es[|es| - 1], e) <= 0 {
      forall i | 0 <= i < |es| ensures ExtentCmp(es[i], e) <= 0 {
        CmpTrans(es[i], es[|es| - 1], e);
      }
    } else {
      var n := |es| - 1;
      InsertSorted(es[..n], e);
      InsertBounded(es[..n], e, es[n]);
    }
  }

  lemma {:induction false} InsertCounts(es: seq<Extent>, e: Extent, x: int)
    ensures Count(Insert(es, e), x) == Count(es, x) + if Contains(e, x) then 1 else 0
  {
    if es == [] || ExtentCmp(es[|es| - 1], e) <= 0 {
      assert (es + [e])[..|es|] == es;
    } else {
      var n := |es| - 1;
      InsertCounts(es[..n], e, x);
      var r := Insert(es[..n], e);
      assert (r + [es[n]])[..|r|] == r;
    }
  }

  /** Sorting permutes the extents into order. */
  lemma {:induction false} SortKeeps(es: seq<Extent>)
    ensures IsSorted(Sort(es)) && multiset(Sort(es)) == multiset(es) && Total(Sort(es)) == Total(es)
  {
    if es != [] {
      var n := |es| - 1;
      SortKeeps(es[..n]);
      InsertAdds(Sort(es[..n]), es[n]);
      InsertSorted(Sort(es[..n]), es[n]);
      assert es == es[..n] + [es[n]];
    }
  }

  lemma {:induction false} SortCounts(es: seq<Extent>, x: int)
    ensures Count(Sort(es), x) == Count(es, x)
  {
    if es != [] {
      SortCounts(es[..|es| - 1], x);
      InsertCounts(Sort(es[..|es| - 1]), es[|es| - 1], x);
    }
  }

  lemma SortPositive(es: seq<Extent>)
    requires Positive(es)
    ensures Positive(Sort(es))
  {
    SortKeeps(es);
    forall i | 0 <= i < |Sort(es)| ensures Sort(es)[i].len > 0 {
      assert Sort(es)[i] in multiset(es);
    }
  }

  lemma SortTiles(busy: seq<Extent>, free: seq<Extent>, n: nat)
    ensures TilesTo(Sort(busy), Sort(free), n) <==> TilesTo(busy, free, n)
  {
    forall x ensures Count(Sort(busy), x) == Count(busy, x) && Count(Sort(free), x) == Count(free, x) {
      SortCounts(busy, x);
      SortCounts(free, x);
    }
  }

  // ---------------------------------------------------------------------------
  // The check
  // ---------------------------------------------------------------------------

  /** The first `b` busy and `f` free extents tile the blocks below `next`. */
  ghost predicate TiledSoFar(busy: seq<Extent>, free: seq<Extent>, b: nat, f: nat, next: nat) {
    b <= |busy| && f <= |free| && TilesTo(busy[..b], free[..f], next) && next == Total(busy[..b]) + Total(free[..f])
  }

  /** Taking an extent that begins where the tiling ends extends the tiling. */
  lemma TakeBusy(busy: seq<Extent>, free: seq<Extent>, b: nat, f: nat, next: nat)
    requires TiledSoFar(busy, free, b, f, next) && b < |busy| && busy[b].off == next
    ensures TiledSoFar(busy, free, b + 1, f, next + busy[b].len)
  {
    forall x {:trigger Count(busy[..b + 1], x)}
      ensures Count(busy[..b + 1], x) + Count(free[..f], x) == if 0 <= x < next + busy[b].len then 1 else 0
    {
      CountOne(busy, b, x);
      assert Count(busy[..b], x) + Count(free[..f], x) == if 0 <= x < next then 1 else 0;
    }
    assert busy[..b + 1][..b] == busy[..b];
  }

  lemma TakeFree(busy: seq<Extent>, free: seq<Extent>, b: nat, f: nat, next: nat)
    requires TiledSoFar(busy, free, b, f, next) && f < |free| && free[f].off == next
    ensures TiledSoFar(busy, free, b, f + 1, next + free[f].len)
  {
    forall x {:trigger Count(busy[..b], x)}
      ensures Count(busy[..b], x) + Count(free[..f + 1], x) == if 0 <= x < next + free[f].len then 1 else 0
    {
      CountOne(free, f, x);
      assert Count(busy[..b], x) + Count(free[..f], x) == if 0 <= x < next then 1 else 0;
    }
    assert free[..f + 1][..f] == free[..f];
  }

  /** An extent that begins inside the tiling covers a block twice. */
  lemma OverlapBusy(busy: seq<Extent>, free: seq<Extent>, b: nat, f: nat, next: nat)
    requires TiledSoFar(busy, free, b, f, next) && b < |busy| && busy[b].len > 0 && busy[b].off < next
    ensures !Tiles(busy, free)
  {
    var x := busy[b].off;
    CountLater(busy, b, b, x);
    CountAppend(free[..f], free[f..], x);
    assert free == free[..f] + free[f..];
    assert Count(busy[..b], x) + Count(free[..f], x) == 1;
    forall n: nat ensures !TilesTo(busy, free, n) {
      assert Count(busy, x) + Count(free, x) >= 2;
    }
  }

  lemma OverlapFree(busy: seq<Extent>, free: seq<Extent>, b: nat, f: nat, next: nat)
    requires TiledSoFar(busy, free, b, f, next) && f < |free| && free[f].len > 0 && free[f].off < next
    ensures !Tiles(busy, free)
  {
    var x := free[f].off;
    CountLater(free, f, f, x);
    CountAppend(busy[..b], busy[b..], x);
    assert busy == busy[..b] + busy[b..];
    assert Count(busy[..b], x) + Count(free[..f], x) == 1;
    forall n: nat ensures !TilesTo(busy, free, n) {
      assert Count(busy, x) + Count(free, x) >= 2;
    }
  }

  /** If all remaining extents begin beyond the tiling and there is one, the next block is in no extent
      although a later block is. */
  lemma Gap(busy: seq<Extent>, free: seq<Extent>, b: nat, f: nat, next: nat, y: int)
    requires TiledSoFar(busy, free, b, f, next) && y > next
    requires (forall j :: b <= j < |busy| ==> busy[j].off > next) &&
      (forall j :: f <= j < |free| ==> free[j].off > next)
    requires Count(busy, y) + Count(free, y) > 0
    ensures !Tiles(busy, free)
  {
    CountNone(busy, b, next);
    CountNone(free, f, next);
    assert Count(busy[..b], next) + Count(free[..f], next) == 0;
    assert Count(busy, next) + Count(free, next) == 0;
    forall n: nat ensures !TilesTo(busy, free, n) {
      NotBoth(busy, free, n, next, y);
    }
  }

  lemma NotBoth(busy: seq<Extent>, free: seq<Extent>, n: nat, x: nat, y: int)
    requires x < y && Count(busy, x) + Count(free, x) == 0 && Count(busy, y) + Count(free, y) > 0
    ensures !TilesTo(busy, free, n)
  {
  }

  /** Extents after position `i` of a sorted array begin no earlier. */
  lemma SortedOff(es: seq<Extent>, i: nat)
    requires IsSorted(es) && i < |es|
    ensures forall j :: i <= j < |es| ==> es[j].off >= es[i].off
  {
    forall j | i <= j < |es| ensures es[j].off >= es[i].off {
      assert i < j ==> ExtentCmp(es[i], es[j]) <= 0;
    }
  }

  /** Passes over the extents that begin before the tiling ends; any such extent refutes the tiling. */
  method SkipBusy(busy: seq<Extent>, ghost free: seq<Extent>, b: nat, ghost f: nat, next: nat, ok: bool)
    returns (i: nat, result: bool)
    requires Positive(busy) && b <= |busy| && (ok ==> TiledSoFar(busy, free, b, f, next)) &&
      (!ok ==> !Tiles(busy, free))
    ensures b <= i <= |busy| && (i < |busy| ==> busy[i].off >= next)
    ensures result ==> ok && i == b
    ensures !result ==> !Tiles(busy, free)
  {
    i, result := b, ok;
    while i < |busy| && next > busy[i].off
      invariant b <= i <= |busy| && (result ==> ok && i == b) && (!result ==> !Tiles(busy, free))
    {
      if result {
        OverlapBusy(busy, free, b, f, next);
      }
      result := false;
      i := i + 1;
    }
  }

  method SkipFree(ghost busy: seq<Extent>, free: seq<Extent>, ghost b: nat, f: nat, next: nat, ok: bool)
    returns (i: nat, result: bool)
    requires Positive(free) && f <= |free| && (ok ==> TiledSoFar(busy, free, b, f, next)) &&
      (!ok ==> !Tiles(busy, free))
    ensures f <= i <= |free| && (i < |free| ==> free[i].off >= next)
    ensures result ==> ok && i == f
    ensures !result ==> !Tiles(busy, free)
  {
    i, result := f, ok;
    while i < |free| && next > free[i].off
      invariant f <= i <= |free| && (result ==> ok && i == f) && (!result ==> !Tiles(busy, free))
    {
      if result {
        OverlapFree(busy, free, b, f, next);
      }
      result := false;
      i := i + 1;
    }
  }

  /** The next extent in order leaves a gap. */
  lemma GapBefore(busy: seq<Extent>, free: seq<Extent>, b: nat, f: nat, next: nat)
    requires IsSorted(busy) && IsSorted(free) && Positive(busy) && Positive(free) && TiledSoFar(busy, free, b, f, next)
    requires b < |busy| || f < |free|
    requires (b < |busy| ==> busy[b].off > next) && (f < |free| ==> free[f].off > next)
    ensures !Tiles(busy, free)
  {
    if b < |busy| { SortedOff(busy, b); }
    if f < |free| { SortedOff(free, f); }
    var y := if b < |busy| then busy[b].off else free[f].off;
    if b < |busy| { CountLater(busy, b, b, y); } else { CountLater(free, f, f, y); }
    Gap(busy, free, b, f, next, y);
  }

  /** The state of the walk: everything so far tiles, or a tiling has been refuted. */
  ghost predicate WalkOk(busy: seq<Extent>, free: seq<Extent>, b: nat, f: nat, cur: Extent, ok: bool) {
    b <= |busy| && f <= |free| &&
    if ok then TiledSoFar(busy, free, b, f, cur.off + cur.len) else !Tiles(busy, free)
  }

  /** The next extent in order, which does not begin before the tiling ends, is taken; a gap refutes the tiling. */
  method TakeNext(busy: seq<Extent>, free: seq<Extent>, b: nat, f: nat, cur: Extent, ok: bool)
    returns (b': nat, f': nat, next: Extent, result: bool)
    requires IsSorted(busy) && IsSorted(free) && Positive(busy) && Positive(free) && WalkOk(busy, free, b, f, cur, ok)
    requires (b < |busy| || f < |free|) && (b < |busy| ==> busy[b].off >= cur.off + cur.len)
    requires f < |free| ==> free[f].off >= cur.off + cur.len
    ensures WalkOk(busy, free, b', f', next, result) && b' + f' == b + f + 1
  {
    var end := cur.off + cur.len;
    b', f', result := b, f, ok;
    if f >= |free| || (b < |busy| && ExtentCmp(free[f], busy[b]) > 0) {
      next := busy[b];
      if end != next.off {
        if ok { GapBefore(busy, free, b, f, end); }
        result := false;
      } else if ok {
        TakeBusy(busy, free, b, f, end);
      }
      b' := b + 1;
    } else {
      next := free[f];
      if end != next.off {
        if ok { GapBefore(busy, free, b, f, end); }
        result := false;
      } else if ok {
        TakeFree(busy, free, b, f, end);
      }
      f' := f + 1;
    }
  }

  /** Walks both sorted arrays in step and checks that each extent begins where the one before ended. */
  method CheckSorted(busy: seq<Extent>, free: seq<Extent>) returns (result: bool)
    requires IsSorted(busy) && IsSorted(free) && Positive(busy) && Positive(free)
    ensures result ==> TilesTo(busy, free, Total(busy) + Total(free))
    ensures !result ==> !Tiles(busy, free)
  {
    var b: nat, f: nat, cur := 0, 0, Extent(0, 0);
    result := true;
    while true
      invariant WalkOk(busy, free, b, f, cur, result)
      decreases |busy| - b + |free| - f
    {
      var next := cur.off + cur.len;
      b, result := SkipBusy(busy, free, b, f, next, result);
      f, result := SkipFree(busy, free, b, f, next, result);
      if f >= |free| && b >= |busy| {
        assert busy[..b] == busy && free[..f] == free;
        break;
      }
      b, f, cur, result := TakeNext(busy, free, b, f, cur, result);
    }
  }

  /** Sorts both arrays and checks them: true exactly when the extents tile an interval from 0. */
  method CheckExtents(busy: seq<Extent>, free: seq<Extent>) returns (result: bool)
    requires Positive(busy) && Positive(free)
    ensures result <==> Tiles(busy, free)
    ensures result ==> TilesTo(busy, free, Total(busy) + Total(free))
  {
    SortKeeps(busy);
    SortKeeps(free);
    SortPositive(busy);
    SortPositive(free);
    forall n: nat ensures TilesTo(Sort(busy), Sort(free), n) <==> TilesTo(busy, free, n) { SortTiles(busy, free, n); }
    result := CheckSorted(Sort(busy), Sort(free));
  }

  /** The length an interval is tiled to is determined by the extents. */
  lemma TilesOnce(busy: seq<Extent>, free: seq<Extent>, m: nat, n: nat)
    requires TilesTo(busy, free, m) && TilesTo(busy, free, n)
    ensures m == n
  {
    var x := if m < n then m else n;
    assert Count(busy, x) + Count(free, x) == if 0 <= x < m then 1 else 0;
  }

  /** With the comparison of block counts: the check passes exactly when every block of the file lies in one
      extent and nothing lies outside the file. */
  method CheckFile(busy: seq<Extent>, free: seq<Extent>, fileLength: nat) returns (ok: bool)
    requires Positive(busy) && Positive(free)
    ensures ok <==> TilesTo(busy, free, fileLength)
  {
    ok := CheckExtents(busy, free);
    if ok {
      if TilesTo(busy, free, fileLength) {
        TilesOnce(busy, free, fileLength, Total(busy) + Total(free));
      }
      ok := fileLength == Total(busy) + Total(free);
    }
  }
}
