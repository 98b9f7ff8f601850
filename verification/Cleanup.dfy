/**
 Freeing all in-memory pages of a tree: one walk marks every page, a second one frees them bottom up.

 A downlink is a block with the change count it had when the link was made.  A link whose block has
 since been given a higher count is stale and is passed over.
*/
module Cleanup {

  datatype Link = Link(blk: nat, cc: nat)

  /** A page in memory: its change count, its in-memory children, and the mark of the first walk. */
  datatype Page = Page(cc: nat, kids: seq<Link>, marked: bool)

  type Pool = map<nat, Page>

  /** What hangs below a link: nothing any more, or a page and what hangs below each of its links. */
  datatype Shape = Stale | Live(blk: nat, kids: seq<Shape>)

  /** The blocks below a link, parents first. */
  function TopDown(s: Shape): seq<nat>
    decreases s
  {
    match s
    case Stale => []
    case Live(b, kids) => [b] + TopDownAll(kids)
  }

  function TopDownAll(ks: seq<Shape>): seq<nat>
    decreases ks
  {
    if ks == [] then [] else TopDownAll(ks[..|ks| - 1]) + TopDown(ks[|ks| - 1])
  }

  /** The blocks below a link, children first. */
  function BottomUp(s: Shape): seq<nat>
    decreases s
  {
    match s
    case Stale => []
    case Live(b, kids) => BottomUpAll(kids) + [b]
  }

  function BottomUpAll(ks: seq<Shape>): seq<nat>
    decreases ks
  {
    if ks == [] then [] else BottomUpAll(ks[..|ks| - 1]) + BottomUp(ks[|ks| - 1])
  }

  /** The pool has this shape below the link. */
  ghost predicate Matches(pool: Pool, l: Link, s: Shape)
    decreases s, 0
  {
    l.blk in pool &&
    match s
    case Stale => l.cc < pool[l.blk].cc
    case Live(b, kids) => b == l.blk && l.cc == pool[b].cc && MatchesAll(pool, pool[b].kids, kids)
  }

  ghost predicate MatchesAll(pool: Pool, ls: seq<Link>, ks: seq<Shape>)
    decreases ks, 1
  {
    |ls| == |ks| && forall i :: 0 <= i < |ks| ==> Matches(pool, ls[i], ks[i])
  }

  ghost predicate Distinct(bs: seq<nat>) {
    forall i, j :: 0 <= i < j < |bs| ==> bs[i] != bs[j]
  }

  // ---------------------------------------------------------------------------
  // Marking and freeing a list of blocks
  // ---------------------------------------------------------------------------

  function MarkAll(pool: Pool, bs: seq<nat>): (r: Pool)
    ensures r.Keys == pool.Keys
  {
    if bs == [] then pool
    else
      var p, b := MarkAll(pool, bs[..|bs| - 1]), bs[|bs| - 1];
      if b in p then p[b := p[b].(marked := true)] else p
  }

  /** Freeing a block raises its change count. */
  function FreeAll(pool: Pool, bs: seq<nat>): (r: Pool)
    ensures r.Keys == pool.Keys
  {
    if bs == [] then pool
    else
      var p, b := FreeAll(pool, bs[..|bs| - 1]), bs[|bs| - 1];
      if b in p then p[b := p[b].(cc := p[b].cc + 1)] else p
  }

  lemma {:induction false} MarkAppend(pool: Pool, a: seq<nat>, b: seq<nat>)
    ensures MarkAll(pool, a + b) == MarkAll(MarkAll(pool, a), b)
    decreases |b|
  {
    if b == [] {
      assert a + b == a;
    } else {
      assert (a + b)[..|a + b| - 1] == a + b[..|b| - 1];
      MarkAppend(pool, a, b[..|b| - 1]);
    }
  }

  lemma {:induction false} FreeAppend(pool: Pool, a: seq<nat>, b: seq<nat>)
    ensures FreeAll(pool, a + b) == FreeAll(FreeAll(pool, a), b)
    decreases |b|
  {
    if b == [] {
      assert a + b == a;
    } else {
      assert (a + b)[..|a + b| - 1] == a + b[..|b| - 1];
      FreeAppend(pool, a, b[..|b| - 1]);
    }
  }

  /** Marking changes nothing but marks, and marks exactly the listed blocks. */
  lemma {:induction false} MarkedIs(pool: Pool, bs: seq<nat>, b: nat)
    requires b in pool
    ensures MarkAll(pool, bs)[b] == if b in bs then pool[b].(marked := true) else pool[b]
  {
    if bs != [] {
      MarkedIs(pool, bs[..|bs| - 1], b);
      assert bs == bs[..|bs| - 1] + [bs[|bs| - 1]];
    }
  }

  /** Freeing distinct blocks raises the count of each of them once and leaves all others alone. */
  lemma {:induction false} FreedIs(pool: Pool, bs: seq<nat>, b: nat)
    requires b in pool && Distinct(bs)
    ensures FreeAll(pool, bs)[b] == if b in bs then pool[b].(cc := pool[b].cc + 1) else pool[b]
  {
    if bs != [] {
      FreedIs(pool, bs[..|bs| - 1], b);
      assert bs == bs[..|bs| - 1] + [bs[|bs| - 1]];
    }
  }

  // ---------------------------------------------------------------------------
  // Shapes
  // ---------------------------------------------------------------------------

  /** Counts only go up, and the pages of the shape are as they were. */
  ghost predicate Untouched(a: Pool, b: Pool, bs: seq<nat>) {
    a.Keys == b.Keys && (forall x :: x in a ==> a[x].cc <= b[x].cc) &&
    (forall x :: x in bs && x in a ==> a[x].cc == b[x].cc && a[x].kids == b[x].kids)
  }

  lemma {:induction false} KidBlocks(ks: seq<Shape>, i: nat, x: nat)
    requires i < |ks| && x in TopDown(ks[i])
    ensures x in TopDownAll(ks)
    decreases |ks|
  {
    if i < |ks| - 1 {
      KidBlocks(ks[..|ks| - 1], i, x);
    }
  }

  /** The shape stays when only other pages change. */
  lemma {:induction false} MatchesStays(a: Pool, b: Pool, l: Link, s: Shape)
    requires Matches(a, l, s) && Untouched(a, b, TopDown(s))
    ensures Matches(b, l, s)
    decreases s
  {
    if s.Live? {
      assert s.blk in TopDown(s);
      forall i | 0 <= i < |s.kids| ensures Matches(b, b[s.blk].kids[i], s.kids[i]) {
        forall x | x in TopDown(s.kids[i]) ensures x in TopDown(s) { KidBlocks(s.kids, i, x); }
        MatchesStays(a, b, a[s.blk].kids[i], s.kids[i]);
      }
    }
  }

  /** Both orders list the same blocks. */
  lemma {:induction false} SameBlocks(s: Shape, x: nat)
    ensures x in TopDown(s) <==> x in BottomUp(s)
    decreases s, 0
  {
    if s.Live? {
      SameBlocksAll(s.kids, x);
    }
  }

  lemma {:induction false} SameBlocksAll(ks: seq<Shape>, x: nat)
    ensures x in TopDownAll(ks) <==> x in BottomUpAll(ks)
    decreases ks, 1
  {
    if ks != [] {
      SameBlocksAll(ks[..|ks| - 1], x);
      SameBlocks(ks[|ks| - 1], x);
    }
  }

  lemma BottomUpOne(ks: seq<Shape>, i: nat)
    requires i < |ks|
    ensures BottomUpAll(ks[..i + 1]) == BottomUpAll(ks[..i]) + BottomUp(ks[i])
  {
    assert ks[..i + 1][..i] == ks[..i];
  }

  lemma TopDownOne(ks: seq<Shape>, i: nat)
    requires i < |ks|
    ensures TopDownAll(ks[..i + 1]) == TopDownAll(ks[..i]) + TopDown(ks[i])
  {
    assert ks[..i + 1][..i] == ks[..i];
  }

  lemma {:induction false} BottomUpPrefix(ks: seq<Shape>, i: nat)
    requires i <= |ks|
    ensures BottomUpAll(ks[..i]) <= BottomUpAll(ks)
    decreases |ks| - i
  {
    if i < |ks| {
      BottomUpOne(ks, i);
      BottomUpPrefix(ks, i + 1);
    } else {
      assert ks[..i] == ks;
    }
  }

  /** Two adjacent parts of a list without repetitions have nothing in common. */
  lemma PartsApart(all: seq<nat>, before: seq<nat>, here: seq<nat>, x: nat)
    requires Distinct(all) && before + here <= all && x in here
    ensures x !in before && x in all && Distinct(here)
  {
    assert forall j :: 0 <= j < |before| ==> all[j] == before[j];
    assert forall j :: 0 <= j < |here| ==> all[|before| + j] == here[j];
    var j :| 0 <= j < |here| && here[j] == x;
    assert all[|before| + j] == x;
  }

  /** In a tree the blocks below one child are not among those below earlier children. */
  lemma KidsApart(s: Shape, i: nat, x: nat)
    requires s.Live? && Distinct(BottomUp(s)) && i < |s.kids| && x in BottomUp(s.kids[i])
    ensures x !in BottomUpAll(s.kids[..i]) && Distinct(BottomUp(s.kids[i])) && x in BottomUp(s)
  {
    BottomUpOne(s.kids, i);
    BottomUpPrefix(s.kids, i + 1);
    PartsApart(BottomUp(s), BottomUpAll(s.kids[..i]), BottomUp(s.kids[i]), x);
  }

  // ---------------------------------------------------------------------------
  // The walks
  // ---------------------------------------------------------------------------

  lemma MarkKeepsShape(pool: Pool, bs: seq<nat>, l: Link, s: Shape)
    requires Matches(pool, l, s)
    ensures Matches(MarkAll(pool, bs), l, s)
  {
    var r := MarkAll(pool, bs);
    forall x | x in pool ensures pool[x].cc == r[x].cc && pool[x].kids == r[x].kids { MarkedIs(pool, bs, x); }
    MatchesStays(pool, r, l, s);
  }

  lemma FreeKeepsShape(pool: Pool, bs: seq<nat>, l: Link, s: Shape)
    requires Matches(pool, l, s) && Distinct(bs) && (forall x :: x in BottomUp(s) ==> x !in bs)
    ensures Matches(FreeAll(pool, bs), l, s)
  {
    var r := FreeAll(pool, bs);
    forall x | x in pool ensures pool[x].cc <= r[x].cc && (x in TopDown(s) ==> pool[x] == r[x]) {
      FreedIs(pool, bs, x);
      SameBlocks(s, x);
    }
    MatchesStays(pool, r, l, s);
  }

  /** The pages in memory and the blocks freed so far, in order. */
  datatype Pages = Pages(pool: Pool, freed: seq<nat>)

  /** The pages after a list of blocks has been freed. */
  function Freed(pg: Pages, bs: seq<nat>): Pages {
    Pages(FreeAll(pg.pool, bs), pg.freed + bs)
  }

  lemma FreedAppend(pg: Pages, a: seq<nat>, b: seq<nat>)
    ensures Freed(Freed(pg, a), b) == Freed(pg, a + b)
  {
    FreeAppend(pg.pool, a, b);
    assert pg.freed + a + b == pg.freed + (a + b);
  }

  /** The first walk: marks the page and everything below it. */
  method MarkPage(pool: Pool, l: Link, ghost s: Shape) returns (out: Pool)
    requires Matches(pool, l, s)
    ensures out == MarkAll(pool, TopDown(s))
    decreases s
  {
    if pool[l.blk].cc != l.cc {
      return pool;
    }
    var kids := pool[l.blk].kids;
    out := pool[l.blk := pool[l.blk].(marked := true)];
    assert out == MarkAll(pool, [l.blk]) by { assert [l.blk][..0] == []; }
    var i := 0;
    while i < |kids|
      invariant 0 <= i <= |kids| && out == MarkAll(pool, [l.blk] + TopDownAll(s.kids[..i]))
    {
      MarkKeepsShape(pool, [l.blk] + TopDownAll(s.kids[..i]), kids[i], s.kids[i]);
      out := MarkPage(out, kids[i], s.kids[i]);
      MarkedSoFar(pool, l.blk, s.kids, i);
      i := i + 1;
    }
    assert s.kids[..i] == s.kids;
  }

  lemma MarkedSoFar(start: Pool, b: nat, ks: seq<Shape>, i: nat)
    requires i < |ks|
    ensures MarkAll(MarkAll(start, [b] + TopDownAll(ks[..i])), TopDown(ks[i])) ==
            MarkAll(start, [b] + TopDownAll(ks[..i + 1]))
  {
    TopDownOne(ks, i);
    MarkAppend(start, [b] + TopDownAll(ks[..i]), TopDown(ks[i]));
    assert [b] + TopDownAll(ks[..i + 1]) == [b] + TopDownAll(ks[..i]) + TopDown(ks[i]);
  }

  /** The second walk: frees everything below the page, then the page; every page freed is marked. */
  method FreePage(pg: Pages, l: Link, ghost s: Shape) returns (out: Pages)
    requires Matches(pg.pool, l, s) && Distinct(BottomUp(s)) && AllMarked(pg.pool, BottomUp(s))
    ensures out == Freed(pg, BottomUp(s))
    decreases s
  {
    if pg.pool[l.blk].cc != l.cc {
      return pg;
    }
    var kids := pg.pool[l.blk].kids;
    forall i {:trigger KidReady(pg.pool, kids, s.kids, i)} | 0 <= i < |kids|
      ensures KidReady(pg.pool, kids, s.kids, i)
    {
      ReadyToFree(pg.pool, kids, s, i);
    }
    out := FreeKids(pg, kids, s.kids);
    StillThere(pg.pool, s);
    FreedAppend(pg, BottomUpAll(s.kids), [l.blk]);
    out := FreeBlock(out, l);
  }

  method FreeKids(pg: Pages, kids: seq<Link>, ghost ks: seq<Shape>) returns (out: Pages)
    requires |kids| == |ks|
    requires forall i {:trigger KidReady(pg.pool, kids, ks, i)} :: 0 <= i < |kids| ==> KidReady(pg.pool, kids, ks, i)
    ensures out == Freed(pg, BottomUpAll(ks))
    decreases ks
  {
    out := pg;
    var i := 0;
    while i < |kids|
      invariant 0 <= i <= |kids| && out == Freed(pg, BottomUpAll(ks[..i]))
    {
      assert KidReady(pg.pool, kids, ks, i);
      out := FreePage(out, kids[i], ks[i]);
      FreedSoFar(pg, ks, i);
      i := i + 1;
    }
    assert ks[..i] == ks;
  }

  /** Gives one marked block back; it still has the change count of the link. */
  method FreeBlock(pg: Pages, l: Link) returns (out: Pages)
    requires l.blk in pg.pool && pg.pool[l.blk].marked && pg.pool[l.blk].cc == l.cc
    ensures out == Freed(pg, [l.blk])
  {
    assert FreeAll(pg.pool, [l.blk]) == pg.pool[l.blk := pg.pool[l.blk].(cc := pg.pool[l.blk].cc + 1)] by {
      assert [l.blk][..|[l.blk]| - 1] == [] && FreeAll(pg.pool, []) == pg.pool;
    }
    out := Pages(pg.pool[l.blk := pg.pool[l.blk].(cc := pg.pool[l.blk].cc + 1)], pg.freed + [l.blk]);
  }

  class TreePages {
    var pages: Pages

    constructor (pool: Pool)
      ensures pages == Pages(pool, [])
    {
      pages := Pages(pool, []);
    }

    /**
     Marks all pages of the tree, then frees them.  The pages freed are exactly those reached through links
     that are not stale, each once, children first; nothing is freed before all are marked.
    */
    method CleanupPages(root: Link, ghost s: Shape)
      requires Matches(pages.pool, root, s) && Distinct(BottomUp(s)) &&
        (forall x :: x in BottomUp(s) ==> x in pages.pool)
      modifies this
      ensures pages.freed == old(pages.freed) + BottomUp(s)
      ensures pages.pool == FreeAll(MarkAll(old(pages.pool), TopDown(s)), BottomUp(s))
    {
      var marked := MarkPage(pages.pool, root, s);
      AllAreMarked(pages.pool, root, s);
      pages := FreePage(Pages(marked, pages.freed), root, s);
    }
  }

  /** After the first walk the tree has its shape, and every page of it is marked. */
  lemma AllAreMarked(start: Pool, root: Link, s: Shape)
    requires Matches(start, root, s) && (forall x :: x in BottomUp(s) ==> x in start)
    ensures Matches(MarkAll(start, TopDown(s)), root, s) && AllMarked(MarkAll(start, TopDown(s)), BottomUp(s))
  {
    MarkKeepsShape(start, TopDown(s), root, s);
    forall x | x in BottomUp(s) ensures MarkAll(start, TopDown(s))[x].marked {
      SameBlocks(s, x);
      MarkedIs(start, TopDown(s), x);
    }
  }

  lemma FreedSoFar(pg: Pages, ks: seq<Shape>, i: nat)
    requires i < |ks|
    ensures Freed(Freed(pg, BottomUpAll(ks[..i])), BottomUp(ks[i])) == Freed(pg, BottomUpAll(ks[..i + 1]))
  {
    BottomUpOne(ks, i);
    FreedAppend(pg, BottomUpAll(ks[..i]), BottomUp(ks[i]));
  }

  ghost predicate AllMarked(pool: Pool, bs: seq<nat>) {
    forall x :: x in bs ==> x in pool && pool[x].marked
  }

  /** With the children before it freed, child `i` still has its shape and its marks. */
  ghost predicate KidReady(start: Pool, kids: seq<Link>, ks: seq<Shape>, i: int)
    requires 0 <= i < |kids| == |ks|
  {
    var now := FreeAll(start, BottomUpAll(ks[..i]));
    Matches(now, kids[i], ks[i]) && Distinct(BottomUp(ks[i])) && AllMarked(now, BottomUp(ks[i]))
  }

  lemma ReadyToFree(start: Pool, kids: seq<Link>, s: Shape, i: nat)
    requires s.Live? && MatchesAll(start, kids, s.kids) && Distinct(BottomUp(s)) && AllMarked(start, BottomUp(s)) &&
      i < |kids|
    ensures KidReady(start, kids, s.kids, i)
  {
    var bs := BottomUpAll(s.kids[..i]);
    BottomUpPrefix(s.kids, i);
    assert bs <= BottomUp(s);
    assert Distinct(bs);
    forall x | x in BottomUp(s.kids[i]) ensures x !in bs && x in BottomUp(s) { KidsApart(s, i, x); }
    FreeKeepsShape(start, bs, kids[i], s.kids[i]);
    forall x | x in BottomUp(s.kids[i]) ensures FreeAll(start, bs)[x].marked { FreedIs(start, bs, x); }
    KidDistinct(s, i);
  }

  lemma KidDistinct(s: Shape, i: nat)
    requires s.Live? && Distinct(BottomUp(s)) && i < |s.kids|
    ensures Distinct(BottomUp(s.kids[i]))
  {
    if BottomUp(s.kids[i]) != [] {
      KidsApart(s, i, BottomUp(s.kids[i])[0]);
    }
  }

  /** The page itself is not among the pages below it. */
  lemma StillThere(start: Pool, s: Shape)
    requires s.Live? && s.blk in start && Distinct(BottomUp(s))
    ensures FreeAll(start, BottomUpAll(s.kids))[s.blk] == start[s.blk]
  {
    var bs := BottomUpAll(s.kids);
    assert forall j :: 0 <= j < |bs| ==> BottomUp(s)[j] == bs[j];
    assert BottomUp(s)[|bs|] == s.blk;
    FreedIs(start, bs, s.blk);
  }

  // ---------------------------------------------------------------------------
  // Children before parents
  // ---------------------------------------------------------------------------

  /** `path` leads from the top of the shape down to one of its pages. */
  ghost predicate PathIn(s: Shape, path: seq<nat>)
    decreases |path|
  {
    s.Live? && path != [] && path[0] == s.blk &&
    (|path| == 1 || exists i :: 0 <= i < |s.kids| && PathIn(s.kids[i], path[1..]))
  }

  lemma {:induction false} PathListed(s: Shape, path: seq<nat>, k: nat)
    requires PathIn(s, path) && k < |path|
    ensures path[k] in BottomUp(s)
    decreases |path|
  {
    if k > 0 {
      var i :| 0 <= i < |s.kids| && PathIn(s.kids[i], path[1..]);
      PathListed(s.kids[i], path[1..], k - 1);
      KidListed(s, i, path[k]);
    }
  }

  lemma KidListed(s: Shape, i: nat, x: nat)
    requires s.Live? && i < |s.kids| && x in BottomUp(s.kids[i])
    ensures x in BottomUp(s)
  {
    BottomUpOne(s.kids, i);
    BottomUpPrefix(s.kids, i + 1);
    var before, here := BottomUpAll(s.kids[..i]), BottomUp(s.kids[i]);
    var j :| 0 <= j < |here| && here[j] == x;
    assert BottomUp(s)[|before| + j] == x;
  }

  lemma WholePathListed(s: Shape, path: seq<nat>)
    requires PathIn(s, path)
    ensures path[|path| - 1] in BottomUp(s)[..|BottomUp(s)|]
  {
    PathListed(s, path, |path| - 1);
    assert BottomUp(s)[..|BottomUp(s)|] == BottomUp(s);
  }

  /** The first `n` blocks freed contain a page only after everything below it. */
  lemma {:induction false} UnfreedPathStays(s: Shape, path: seq<nat>, n: nat, k: nat)
    requires Distinct(BottomUp(s)) && PathIn(s, path) && n <= |BottomUp(s)| && k < |path|
    requires path[|path| - 1] !in BottomUp(s)[..n]
    ensures path[k] !in BottomUp(s)[..n]
    decreases |path|
  {
    var all, kids := BottomUp(s), BottomUpAll(s.kids);
    if n == |all| {
      WholePathListed(s, path);
    } else if k == 0 {
      assert all[|kids|] == s.blk;
      assert forall j :: 0 <= j < n ==> all[j] != s.blk;
    } else {
      var i :| 0 <= i < |s.kids| && PathIn(s.kids[i], path[1..]);
      KidPath(s, path, n, k, i);
    }
  }

  /** The same within the child the path goes through. */
  lemma {:induction false} KidPath(s: Shape, path: seq<nat>, n: nat, k: nat, i: nat)
    requires Distinct(BottomUp(s)) && PathIn(s, path) && n < |BottomUp(s)| && 0 < k < |path|
    requires path[|path| - 1] !in BottomUp(s)[..n] && i < |s.kids| && PathIn(s.kids[i], path[1..])
    ensures path[k] !in BottomUp(s)[..n]
    decreases |path|, 0
  {
    var all, before, here := BottomUp(s), BottomUpAll(s.kids[..i]), BottomUp(s.kids[i]);
    BottomUpOne(s.kids, i);
    BottomUpPrefix(s.kids, i + 1);
    assert before + here <= all;
    KidDistinct(s, i);
    PathListed(s.kids[i], path[1..], |path| - 2);
    PathListed(s.kids[i], path[1..], k - 1);
    var m := if n <= |before| then 0 else if n <= |before| + |here| then n - |before| else |here|;
    InSlice(all, before, here, n, m, path[|path| - 1]);
    InSlice(all, before, here, n, m, path[k]);
    UnfreedPathStays(s.kids[i], path[1..], m, k - 1);
  }

  /** A block of one child is among the first `n` of all exactly when it is among the first `m` of that child. */
  lemma InSlice(all: seq<nat>, before: seq<nat>, here: seq<nat>, n: nat, m: nat, x: nat)
    requires before + here <= all && Distinct(all) && n <= |all| && x in here
    requires m == if n <= |before| then 0 else if n <= |before| + |here| then n - |before| else |here|
    ensures x in all[..n] <==> x in here[..m]
  {
    var j :| 0 <= j < |here| && here[j] == x;
    assert all[|before| + j] == x;
    assert Distinct(here) by {
      assert forall i :: 0 <= i < |here| ==> all[|before| + i] == here[i];
    }
    InPrefix(all, |before| + j, n);
    InPrefix(here, j, m);
  }

  lemma InPrefix(xs: seq<nat>, j: nat, n: nat)
    requires Distinct(xs) && j < |xs| && n <= |xs|
    ensures xs[j] in xs[..n] <==> j < n
  {
    if j < n {
      assert xs[..n][j] == xs[j];
    }
  }
}
