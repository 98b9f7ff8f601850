/**
 Reads after a leaf merge are the reads before it.
*/
module MergeReads {
  import opened Common
  import opened Merge

  /** The tuple with a key. */
  function Find(ts: seq<Tuple>, k: int): Option<Tuple> {
    if ts == [] then None
    else if ts[|ts| - 1].key == k then Some(ts[|ts| - 1])
    else Find(ts[..|ts| - 1], k)
  }

  /** What snapshot `s` sees of key `k` on an image. */
  function Sees(vis: (Tuple, nat) -> Option<int>, p: Leaf, k: int, s: nat): Option<int> {
    var x := Find(p.tuples, k);
    if x.None? then None else vis(x.value, s)
  }

  /** Everything snapshot `s` sees on an image, in page order. */
  function SeesAll(vis: (Tuple, nat) -> Option<int>, ts: seq<Tuple>, s: nat): seq<int> {
    if ts == [] then []
    else
      var v := vis(ts[|ts| - 1], s);
      SeesAll(vis, ts[..|ts| - 1], s) + if v.None? then [] else [v.value]
  }

  /** A deletion that everybody has seen finish hides the tuple from all snapshots newer than it. */
  ghost predicate HidesDeleted(vis: (Tuple, nat) -> Option<int>) {
    forall x: Tuple, s: nat :: x.finished && x.deleted && x.csn < s ==> vis(x, s) == None
  }

  /** The boundary key divides the two pages. */
  ghost predicate Neighbours(left: Leaf, right: Leaf) {
    left.hikey.Some? &&
    (forall i :: 0 <= i < |left.tuples| ==> left.tuples[i].key < left.hikey.value) &&
    (forall i :: 0 <= i < |right.tuples| ==> right.tuples[i].key >= left.hikey.value)
  }

  /** The page a search reaches before the merge. */
  function Half(left: Leaf, right: Leaf, t: Target<int>): Leaf {
    if left.hikey.Some? && Passes(t, left.hikey.value) then right else left
  }

  ghost predicate InStore(store: Store, p: Leaf) {
    p.undo.Some? ==> p.undo.value in store
  }

  // ---------------------------------------------------------------------------
  // What the walk through undo ends with
  // ---------------------------------------------------------------------------

  /** Pages as they were written, the newest first: each is reached from the one before through its image in undo. */
  ghost predicate Images(store: Store, pages: seq<Leaf>) {
    forall i {:trigger pages[i]} :: 0 <= i < |pages| - 1 ==>
      pages[i].undo.Some? && pages[i].undo.value in store && store[pages[i].undo.value] == PageImage(pages[i + 1])
  }

  /** Over a chain of page images the walk, begun anywhere, ends with the first page that is older than the snapshot
      or leads nowhere. */
  lemma {:induction false} WalkFindsFirstOlder(store: Store, pages: seq<Leaf>, s: nat, t: Target<int>, i: nat, k: nat)
    requires Ordered(store) && Images(store, pages) && i <= k < |pages| && InStore(store, pages[|pages| - 1])
    requires forall j :: i <= j < k ==> pages[j].csn >= s
    requires pages[k].csn < s || pages[k].undo == None
    ensures InStore(store, pages[i]) && Walk(store, pages[i], s, t) == pages[k]
    decreases k - i
  {
    var p := pages[i];
    if i < k {
      WalkFindsFirstOlder(store, pages, s, t, i + 1, k);
      assert store[p.undo.value] == PageImage(pages[i + 1]);
    }
  }

  /** One step back in time, whatever kind of record it takes. */
  ghost predicate StepsBack(r: Record, newer: Leaf, older: Leaf, t: Target<int>) {
    match r
    case PageImage(p) => older == p
    case SplitDiff(csn, undo) => older == Leaf(newer.tuples, newer.hikey, csn, undo)
    case MergeFull(left, right) => older == if left.hikey.Some? && Passes(t, left.hikey.value) then right else left
    case MergeDiff(b, leftCsn, rightCsn, leftUndo, rightUndo) =>
      // the tuples on the target's side of the boundary
      (forall x :: x in older.tuples <==> x in newer.tuples && (x.key >= b <==> Passes(t, b))) &&
      (if Passes(t, b) then older.hikey == newer.hikey && older.csn == rightCsn && older.undo == rightUndo
       else older.hikey == Some(b) && older.csn == leftCsn && older.undo == leftUndo)
  }

  lemma {:induction false} SidesHave(ts: seq<Tuple>, b: int, x: Tuple)
    ensures x in Below(ts, b) <==> x in ts && x.key < b
    ensures x in AtOrAbove(ts, b) <==> x in ts && x.key >= b
  {
    if ts != [] {
      var n := |ts| - 1;
      SidesHave(ts[..n], b, x);
      assert x in ts <==> x in ts[..n] || x == ts[n];
    }
  }

  lemma OlderStepsBack(r: Record, img: Leaf, t: Target<int>)
    ensures StepsBack(r, img, Older(r, img, t), t)
  {
    if r.MergeDiff? {
      forall x ensures x in Below(img.tuples, r.boundary) <==> x in img.tuples && x.key < r.boundary {
        SidesHave(img.tuples, r.boundary, x);
      }
      forall x ensures x in AtOrAbove(img.tuples, r.boundary) <==> x in img.tuples && x.key >= r.boundary {
        SidesHave(img.tuples, r.boundary, x);
      }
    }
  }

  /** The walk goes on from this page. */
  ghost predicate GoesOn(store: Store, pages: seq<Leaf>, s: nat, t: Target<int>, i: int)
    requires 0 <= i < |pages| - 1
  {
    pages[i].csn >= s && pages[i].undo.Some? && pages[i].undo.value in store &&
    StepsBack(store[pages[i].undo.value], pages[i], pages[i + 1], t)
  }

  /** The pages the walk visits: all but the last are too new and lead on, and the last is old enough or leads
      nowhere. */
  ghost predicate Visited(store: Store, pages: seq<Leaf>, s: nat, t: Target<int>) {
    pages != [] && (pages[|pages| - 1].csn < s || pages[|pages| - 1].undo == None) &&
    forall i {:trigger GoesOn(store, pages, s, t, i)} :: 0 <= i < |pages| - 1 ==> GoesOn(store, pages, s, t, i)
  }

  lemma VisitedFirst(store: Store, img: Leaf, rest: seq<Leaf>, s: nat, t: Target<int>)
    requires Visited(store, rest, s, t) && img.csn >= s && img.undo.Some? && img.undo.value in store
    requires StepsBack(store[img.undo.value], img, rest[0], t)
    ensures Visited(store, [img] + rest, s, t)
  {
    var pages := [img] + rest;
    forall i {:trigger GoesOn(store, pages, s, t, i)} | 0 <= i < |pages| - 1 ensures GoesOn(store, pages, s, t, i) {
      if i > 0 {
        assert GoesOn(store, rest, s, t, i - 1);
        assert pages[i] == rest[i - 1] && pages[i + 1] == rest[i];
      }
    }
  }

  /** Every walk visits such pages and ends with the last of them. */
  lemma {:induction false} WalkVisits(store: Store, img: Leaf, s: nat, t: Target<int>) returns (pages: seq<Leaf>)
    requires Ordered(store) && InStore(store, img)
    ensures Visited(store, pages, s, t) && pages[0] == img && pages[|pages| - 1] == Walk(store, img, s, t)
    decreases if img.undo.Some? then img.undo.value + 1 else 0
  {
    if img.csn >= s && img.undo.Some? {
      assert RecordOk(store, img.undo.value);
      var r := store[img.undo.value];
      var older := Older(r, img, t);
      OlderStepsBack(r, img, t);
      assert older.undo.Some? ==> older.undo.value in Leads(r);
      var rest := WalkVisits(store, older, s, t);
      VisitedFirst(store, img, rest, s, t);
      pages := [img] + rest;
    } else {
      pages := [img];
    }
  }

  // ---------------------------------------------------------------------------
  // Taking the merged page apart again
  // ---------------------------------------------------------------------------

  lemma {:induction false} KeptAll(ts: seq<Tuple>, csn: nat)
    requires forall i :: 0 <= i < |ts| ==> !Droppable(ts[i], csn)
    ensures Kept(ts, csn) == ts
  {
    if ts != [] {
      KeptAll(ts[..|ts| - 1], csn);
    }
  }

  /** Filtering by a boundary cuts a sequence where it crosses the boundary. */
  lemma {:induction false} CutAt(ts: seq<Tuple>, b: int, n: nat)
    requires n <= |ts| && (forall i :: 0 <= i < n ==> ts[i].key < b) && (forall i :: n <= i < |ts| ==> ts[i].key >= b)
    ensures Below(ts, b) == ts[..n] && AtOrAbove(ts, b) == ts[n..]
    decreases |ts|
  {
    if ts != [] {
      var m := |ts| - 1;
      CutAt(ts[..m], b, if n <= m then n else m);
      if n <= m {
        assert ts[..m][..n] == ts[..n] && ts[..m][n..] + [ts[m]] == ts[n..];
      } else {
        assert ts[..m][..m] + [ts[m]] == ts[..n] && ts[n..] == [] && ts[..m][m..] == [];
      }
    }
  }

  lemma TakenApart(xs: seq<Tuple>, ys: seq<Tuple>, b: int)
    requires forall i :: 0 <= i < |xs| ==> xs[i].key < b
    requires forall i :: 0 <= i < |ys| ==> ys[i].key >= b
    ensures Below(xs + ys, b) == xs && AtOrAbove(xs + ys, b) == ys
  {
    CutAt(xs + ys, b, |xs|);
  }

  /** The undo record gives back the exact page, header and all, whichever kind of record was written. */
  lemma HalfRestored(left: Leaf, right: Leaf, csn: nat, merged: Leaf, rec: Record, t: Target<int>)
    requires Neighbours(left, right) && merged.tuples == Kept(left.tuples, csn) + Kept(right.tuples, csn)
    requires merged.hikey == right.hikey
    requires rec == MergeFull(left, right) ||
             (!Drops(left, csn) && !Drops(right, csn) &&
              rec == MergeDiff(left.hikey.value, left.csn, right.csn, left.undo, right.undo))
    ensures Older(rec, merged, t) == Half(left, right, t)
  {
    if rec.MergeDiff? {
      KeptAll(left.tuples, csn);
      KeptAll(right.tuples, csn);
      TakenApart(left.tuples, right.tuples, left.hikey.value);
    }
  }

  /** New records do not change older chains. */
  lemma {:induction false} WalkSame(store: Store, later: Store, img: Leaf, s: nat, t: Target<int>)
    requires Ordered(store) && Ordered(later) && InStore(store, img)
    requires forall u :: u in store ==> u in later && later[u] == store[u]
    ensures Walk(later, img, s, t) == Walk(store, img, s, t)
    decreases if img.undo.Some? then img.undo.value + 1 else 0
  {
    if img.csn >= s && img.undo.Some? {
      var older := Older(store[img.undo.value], img, t);
      assert RecordOk(store, img.undo.value);
      assert older.undo.Some? ==> older.undo.value in Leads(store[img.undo.value]);
      WalkSame(store, later, older, s, t);
    }
  }

  // ---------------------------------------------------------------------------
  // Reading the merged page itself
  // ---------------------------------------------------------------------------

  lemma {:induction false} FindAppend(xs: seq<Tuple>, ys: seq<Tuple>, k: int)
    ensures Find(xs + ys, k) == if Find(ys, k).Some? then Find(ys, k) else Find(xs, k)
    decreases |ys|
  {
    var all := xs + ys;
    if ys == [] {
      assert all == xs;
    } else {
      assert all[..|all| - 1] == xs + ys[..|ys| - 1];
      FindAppend(xs, ys[..|ys| - 1], k);
    }
  }

  lemma {:induction false} FindIsKey(ts: seq<Tuple>, k: int)
    ensures Find(ts, k).Some? ==> exists i :: 0 <= i < |ts| && ts[i] == Find(ts, k).value && ts[i].key == k
  {
    if ts != [] && ts[|ts| - 1].key != k {
      FindIsKey(ts[..|ts| - 1], k);
    }
  }

  ghost predicate UniqueKeys(ts: seq<Tuple>) {
    forall i, j :: 0 <= i < j < |ts| ==> ts[i].key != ts[j].key
  }

  /** Dropping tuples that a snapshot cannot see changes nothing for it. */
  lemma {:induction false} KeptSees(vis: (Tuple, nat) -> Option<int>, ts: seq<Tuple>, csn: nat, s: nat, k: int)
    requires HidesDeleted(vis) && csn < s && UniqueKeys(ts)
    ensures (if Find(Kept(ts, csn), k).None? then None else vis(Find(Kept(ts, csn), k).value, s)) ==
            (if Find(ts, k).None? then None else vis(Find(ts, k).value, s))
  {
    if ts != [] {
      var n := |ts| - 1;
      KeptSees(vis, ts[..n], csn, s, k);
      var last := if Droppable(ts[n], csn) then [] else [ts[n]];
      FindAppend(Kept(ts[..n], csn), last, k);
      if ts[n].key == k {
        FindIsKey(ts[..n], k);
      }
    }
  }

  lemma {:induction false} KeptSeesAll(vis: (Tuple, nat) -> Option<int>, ts: seq<Tuple>, csn: nat, s: nat)
    requires HidesDeleted(vis) && csn < s
    ensures SeesAll(vis, Kept(ts, csn), s) == SeesAll(vis, ts, s)
  {
    if ts != [] {
      var n := |ts| - 1;
      KeptSeesAll(vis, ts[..n], csn, s);
      SeesAllAppend(vis, Kept(ts[..n], csn), [ts[n]], s);
      assert Kept(ts[..n], csn) + [] == Kept(ts[..n], csn) && [ts[n]][..0] == [];
    }
  }

  lemma {:induction false} SeesAllAppend(vis: (Tuple, nat) -> Option<int>, xs: seq<Tuple>, ys: seq<Tuple>, s: nat)
    ensures SeesAll(vis, xs + ys, s) == SeesAll(vis, xs, s) + SeesAll(vis, ys, s)
    decreases |ys|
  {
    var all := xs + ys;
    if ys == [] {
      assert all == xs;
    } else {
      assert all[..|all| - 1] == xs + ys[..|ys| - 1];
      SeesAllAppend(vis, xs, ys[..|ys| - 1], s);
    }
  }

  // ---------------------------------------------------------------------------
  // The theorem
  // ---------------------------------------------------------------------------

  /** A snapshot that finds the merged page older than itself sees, key by key, what the two pages held. */
  lemma LiveSees(vis: (Tuple, nat) -> Option<int>, left: Leaf, right: Leaf, csn: nat, merged: Leaf, s: nat, k: int)
    requires HidesDeleted(vis) && Neighbours(left, right) && UniqueKeys(left.tuples) && UniqueKeys(right.tuples)
    requires merged.tuples == Kept(left.tuples, csn) + Kept(right.tuples, csn)
    requires csn < s || (!Drops(left, csn) && !Drops(right, csn))
    ensures Sees(vis, merged, k, s) == Sees(vis, Half(left, right, Ordinary(k)), k, s)
  {
    FindAppend(Kept(left.tuples, csn), Kept(right.tuples, csn), k);
    FindIsKey(left.tuples, k);
    FindIsKey(right.tuples, k);
    if csn < s {
      KeptSees(vis, left.tuples, csn, s, k);
      KeptSees(vis, right.tuples, csn, s, k);
    } else {
      KeptAll(left.tuples, csn);
      KeptAll(right.tuples, csn);
    }
    KeptFinds(left.tuples, csn, k);
    KeptFinds(right.tuples, csn, k);
  }

  lemma {:induction false} KeptFinds(ts: seq<Tuple>, csn: nat, k: int)
    ensures Find(ts, k).None? ==> Find(Kept(ts, csn), k).None?
  {
    if ts != [] {
      var n := |ts| - 1;
      KeptFinds(ts[..n], csn, k);
      var last := if Droppable(ts[n], csn) then [] else [ts[n]];
      FindAppend(Kept(ts[..n], csn), last, k);
    }
  }

  /** The snapshot still finds a page's history when it needs it: history it needs is retained. */
  ghost predicate RetainsNeeded(p: Leaf, s: nat, retain: nat) {
    p.csn >= s ==> p.undo.Some? && p.undo.value >= retain
  }

  /** The result of a merge, as the merge itself promises it. */
  ghost predicate Merged(left: Leaf, right: Leaf, csn: nat, retain: nat, at: nat, merged: Leaf, rec: Option<Record>) {
    left.hikey.Some? &&
    merged.tuples == Kept(left.tuples, csn) + Kept(right.tuples, csn) && merged.hikey == right.hikey &&
    match rec
    case None =>
      NotRetained(left, retain) && NotRetained(right, retain) && !Drops(left, csn) && !Drops(right, csn) &&
      merged.csn == FROZEN && merged.undo == None
    case Some(r) =>
      merged.csn == csn && merged.undo == Some(at) &&
      (r == MergeFull(left, right) ||
       (!Drops(left, csn) && !Drops(right, csn) &&
        r == MergeDiff(left.hikey.value, left.csn, right.csn, left.undo, right.undo)))
  }

  function After(store: Store, at: nat, rec: Option<Record>): Store {
    if rec.Some? then store[at := rec.value] else store
  }

  lemma AfterOrdered(store: Store, left: Leaf, right: Leaf, csn: nat, retain: nat, at: nat, merged: Leaf,
                     rec: Option<Record>)
    requires Ordered(store) && InStore(store, left) && InStore(store, right) && (forall u :: u in store ==> u < at)
    requires Merged(left, right, csn, retain, at, merged, rec)
    ensures Ordered(After(store, at, rec)) && InStore(After(store, at, rec), merged)
  {
    var later := After(store, at, rec);
    forall u {:trigger RecordOk(later, u)} | u in later ensures RecordOk(later, u) {
      if u in store {
        assert RecordOk(store, u);
      }
    }
  }

  /** A snapshot not newer than the merge gets back exactly the page image it got before it. */
  lemma OldSnapshotsReadTheSamePage(store: Store, left: Leaf, right: Leaf, csn: nat, retain: nat, at: nat, merged: Leaf,
                                    rec: Option<Record>, s: nat, t: Target<int>)
    requires Ordered(store) && InStore(store, left) && InStore(store, right) && (forall u :: u in store ==> u < at)
    requires Neighbours(left, right) && Merged(left, right, csn, retain, at, merged, rec) && rec.Some? && s <= csn
    ensures Ordered(After(store, at, rec)) && InStore(After(store, at, rec), merged)
    ensures Walk(After(store, at, rec), merged, s, t) == Walk(store, Half(left, right, t), s, t)
  {
    AfterOrdered(store, left, right, csn, retain, at, merged, rec);
    HalfRestored(left, right, csn, merged, rec.value, t);
    WalkSame(store, After(store, at, rec), Half(left, right, t), s, t);
  }

  /** For every snapshot and every key, the row read after the merge is the row read before it. */
  lemma ReadsPreserved(vis: (Tuple, nat) -> Option<int>, store: Store, left: Leaf, right: Leaf, csn: nat, retain: nat,
                       at: nat, merged: Leaf, rec: Option<Record>, s: nat, k: int)
    requires HidesDeleted(vis) && s > FROZEN
    requires Ordered(store) && InStore(store, left) && InStore(store, right) && (forall u :: u in store ==> u < at)
    requires Neighbours(left, right) && UniqueKeys(left.tuples) && UniqueKeys(right.tuples)
    requires left.csn < csn && right.csn < csn && RetainsNeeded(left, s, retain) && RetainsNeeded(right, s, retain)
    requires Merged(left, right, csn, retain, at, merged, rec)
    ensures Ordered(After(store, at, rec)) && InStore(After(store, at, rec), merged)
    ensures Sees(vis, Walk(After(store, at, rec), merged, s, Ordinary(k)), k, s) ==
            Sees(vis, Walk(store, Half(left, right, Ordinary(k)), s, Ordinary(k)), k, s)
  {
    AfterOrdered(store, left, right, csn, retain, at, merged, rec);
    if rec.Some? && s <= csn {
      OldSnapshotsReadTheSamePage(store, left, right, csn, retain, at, merged, rec, s, Ordinary(k));
    } else {
      LiveSees(vis, left, right, csn, merged, s, k);
    }
  }

  /** A scan by a snapshot that reads the merged page itself sees the rows of the left page, then those of the right. */
  lemma ScanPreserved(vis: (Tuple, nat) -> Option<int>, left: Leaf, right: Leaf, csn: nat, retain: nat,
                      at: nat, merged: Leaf, rec: Option<Record>, s: nat)
    requires HidesDeleted(vis) && merged.csn < s && Merged(left, right, csn, retain, at, merged, rec)
    ensures SeesAll(vis, merged.tuples, s) == SeesAll(vis, left.tuples, s) + SeesAll(vis, right.tuples, s)
  {
    SeesAllAppend(vis, Kept(left.tuples, csn), Kept(right.tuples, csn), s);
    if rec.Some? {
      KeptSeesAll(vis, left.tuples, csn, s);
      KeptSeesAll(vis, right.tuples, csn, s);
    } else {
      KeptAll(left.tuples, csn);
      KeptAll(right.tuples, csn);
    }
  }

  /** The merge as it runs, with its promise to every snapshot. */
  method MergeAndKeepReads(ghost vis: (Tuple, nat) -> Option<int>, ghost store: Store, left: Leaf, right: Leaf,
                           csn: nat, retain: nat, seqScans: nat, at: nat)
    returns (merged: Leaf, rec: Option<Record>)
    requires HidesDeleted(vis) && Ordered(store) && InStore(store, left) && InStore(store, right)
    requires forall u :: u in store ==> u < at
    requires Neighbours(left, right) && UniqueKeys(left.tuples) && UniqueKeys(right.tuples)
    requires left.csn < csn && right.csn < csn
    ensures Ordered(After(store, at, rec)) && InStore(After(store, at, rec), merged) && merged.hikey == right.hikey
    ensures forall s: nat, k: int ::
              s > FROZEN && RetainsNeeded(left, s, retain) && RetainsNeeded(right, s, retain) ==>
              Sees(vis, Walk(After(store, at, rec), merged, s, Ordinary(k)), k, s) ==
              Sees(vis, Walk(store, Half(left, right, Ordinary(k)), s, Ordinary(k)), k, s)
  {
    merged, rec := MergeLeaves(left, right, csn, retain, seqScans, at);
    assert Merged(left, right, csn, retain, at, merged, rec);
    AfterOrdered(store, left, right, csn, retain, at, merged, rec);
    forall s: nat, k: int | s > FROZEN && RetainsNeeded(left, s, retain) && RetainsNeeded(right, s, retain)
      ensures Sees(vis, Walk(After(store, at, rec), merged, s, Ordinary(k)), k, s) ==
              Sees(vis, Walk(store, Half(left, right, Ordinary(k)), s, Ordinary(k)), k, s)
    {
      ReadsPreserved(vis, store, left, right, csn, retain, at, merged, rec, s, k);
    }
  }
}
