/**
 Merging two neighbouring leaf pages without changing what any snapshot reads.

 Every page has a commit sequence number (csn) and an undo location.  A reader whose snapshot is
 not newer than the page's csn walks the undo chain back to an older image.  The merge writes the
 union of both pages over the left one; dropped tuples and older history stay reachable through an
 undo record, which is left out only when no reader can need it.

 Which version of a tuple a snapshot sees is given by `vis`; it is taken to hide a deleted tuple from
 every snapshot newer than the deletion (see `HidesDeleted`).
*/
module Merge {
  import opened Common

  /** A leaf tuple: whether its last change is finished for everybody, whether that was a deletion, and its csn. */
  datatype Tuple = Tuple(key: int, finished: bool, deleted: bool, csn: nat, row: int)

  /** A rightmost leaf has no high key. */
  datatype Leaf = Leaf(tuples: seq<Tuple>, hikey: Option<int>, csn: nat, undo: Option<nat>)

  /** Frozen pages are older than every snapshot; csns handed out are larger. */
  const FROZEN: nat := 0

  /** Undo records: a whole page image, the header of a page before a split that dropped nothing, both pages
      before a merge, or only what a merge that dropped nothing needs to take its pages apart again. */
  datatype Record =
      PageImage(page: Leaf)
    | SplitDiff(csn: nat, undo: Option<nat>)
    | MergeFull(left: Leaf, right: Leaf)
    | MergeDiff(boundary: int, leftCsn: nat, rightCsn: nat, leftUndo: Option<nat>, rightUndo: Option<nat>)

  type Store = map<nat, Record>

  // ---------------------------------------------------------------------------
  // Reading through undo
  // ---------------------------------------------------------------------------

  function Below(ts: seq<Tuple>, boundary: int): seq<Tuple> {
    if ts == [] then []
    else Below(ts[..|ts| - 1], boundary) + if ts[|ts| - 1].key < boundary then [ts[|ts| - 1]] else []
  }

  function AtOrAbove(ts: seq<Tuple>, boundary: int): seq<Tuple> {
    if ts == [] then []
    else AtOrAbove(ts[..|ts| - 1], boundary) + if ts[|ts| - 1].key >= boundary then [ts[|ts| - 1]] else []
  }

  /** The older image a record gives, from the newer image carried along the chain. */
  function Older(r: Record, img: Leaf, t: Target<int>): Leaf {
    match r
    case PageImage(p) => p
    case SplitDiff(csn, undo) => img.(csn := csn, undo := undo)
    case MergeFull(left, right) => if left.hikey.Some? && Passes(t, left.hikey.value) then right else left
    case MergeDiff(b, leftCsn, rightCsn, leftUndo, rightUndo) =>
      if Passes(t, b) then Leaf(AtOrAbove(img.tuples, b), img.hikey, rightCsn, rightUndo)
      else Leaf(Below(img.tuples, b), Some(b), leftCsn, leftUndo)
  }

  /** Undo locations a record leads to. */
  function Leads(r: Record): set<nat> {
    match r
    case PageImage(p) => Location(p.undo)
    case SplitDiff(_, undo) => Location(undo)
    case MergeFull(left, right) => Location(left.undo) + Location(right.undo)
    case MergeDiff(_, _, _, leftUndo, rightUndo) => Location(leftUndo) + Location(rightUndo)
  }

  function Location(u: Option<nat>): set<nat> {
    if u.Some? then {u.value} else {}
  }

  /** Records are written in order: each leads to earlier ones. */
  ghost predicate Ordered(store: Store) {
    forall u {:trigger RecordOk(store, u)} :: u in store ==> RecordOk(store, u)
  }

  ghost predicate RecordOk(store: Store, u: nat)
    requires u in store
  {
    forall l :: l in Leads(store[u]) ==> l < u && l in store
  }

  /** The image the walk ends with: the first one older than the snapshot. */
  function Walk(store: Store, img: Leaf, s: nat, t: Target<int>): Leaf
    requires Ordered(store) && (img.undo.Some? ==> img.undo.value in store)
    decreases if img.undo.Some? then img.undo.value + 1 else 0
  {
    if img.csn >= s && img.undo.Some? then
      assert RecordOk(store, img.undo.value);
      Walk(store, Older(store[img.undo.value], img, t), s, t)
    else img
  }

  // ---------------------------------------------------------------------------
  // The merge
  // ---------------------------------------------------------------------------

  /** A tuple the merge drops: its deletion is finished for everybody and older than the merge. */
  predicate Droppable(x: Tuple, csn: nat) {
    x.finished && x.deleted && x.csn < csn
  }

  function Kept(ts: seq<Tuple>, csn: nat): seq<Tuple> {
    if ts == [] then []
    else Kept(ts[..|ts| - 1], csn) + if Droppable(ts[|ts| - 1], csn) then [] else [ts[|ts| - 1]]
  }

  lemma {:induction false} KeptHas(ts: seq<Tuple>, csn: nat, x: Tuple)
    ensures x in Kept(ts, csn) <==> x in ts && !(x.finished && x.deleted && x.csn < csn)
  {
    if ts != [] {
      var n := |ts| - 1;
      KeptHas(ts[..n], csn, x);
      assert x in ts <==> x in ts[..n] || x == ts[n];
    }
  }

  /** Copies the tuples that are not dropped behind those already taken. */
  method TakeItems(items: seq<Tuple>, ts: seq<Tuple>, csn: nat) returns (r: seq<Tuple>)
    ensures r == items + Kept(ts, csn)
    ensures forall x :: x in r <==> x in items || (x in ts && !(x.finished && x.deleted && x.csn < csn))
  {
    r := items;
    var i := 0;
    while i < |ts|
      invariant 0 <= i <= |ts| && r == items + Kept(ts[..i], csn)
    {
      assert ts[..i + 1][..i] == ts[..i];
      if !Droppable(ts[i], csn) {
        r := r + [ts[i]];
      }
      i := i + 1;
    }
    assert ts[..i] == ts;
    forall x ensures x in r <==> x in items || (x in ts && !(x.finished && x.deleted && x.csn < csn)) {
      KeptHas(ts, csn, x);
    }
  }

  /** Whether the merge would drop a tuple of the page. */
  method DropsTuple(p: Leaf, csn: nat) returns (b: bool)
    ensures b <==> exists i :: 0 <= i < |p.tuples| && Droppable(p.tuples[i], csn)
  {
    b := false;
    for i := 0 to |p.tuples|
      invariant !b && forall j :: 0 <= j < i ==> !Droppable(p.tuples[j], csn)
    {
      if Droppable(p.tuples[i], csn) {
        return true;
      }
    }
  }

  ghost predicate Drops(p: Leaf, csn: nat) {
    exists i :: 0 <= i < |p.tuples| && Droppable(p.tuples[i], csn)
  }

  /** No reader of the page's older history is left. */
  predicate NotRetained(p: Leaf, retain: nat) {
    p.undo.Some? ==> p.undo.value < retain
  }

  /**
   The merged page and the record written for it, if any.  `csn` is the number just handed out,
   `retain` the oldest undo location a reader may still visit, and `at` where the record goes.
  */
  method MergeLeaves(left: Leaf, right: Leaf, csn: nat, retain: nat, seqScans: nat, at: nat)
    returns (merged: Leaf, rec: Option<Record>)
    requires left.hikey.Some?
    ensures merged.tuples == Kept(left.tuples, csn) + Kept(right.tuples, csn) && merged.hikey == right.hikey
    ensures rec.None? <==> (NotRetained(left, retain) && NotRetained(right, retain) &&
                            !Drops(left, csn) && !Drops(right, csn) && seqScans == 0)
    ensures rec.None? ==>
      (left.undo.Some? ==> left.undo.value < retain) && (right.undo.Some? ==> right.undo.value < retain) &&
      forall x :: x in left.tuples || x in right.tuples ==> !(x.finished && x.deleted && x.csn < csn)
    ensures rec.None? ==> merged.csn == FROZEN && merged.undo == None
    ensures rec.Some? ==> merged.csn == csn && merged.undo == Some(at)
    ensures rec.Some? && (Drops(left, csn) || Drops(right, csn)) ==> rec.value == MergeFull(left, right)
    ensures rec.Some? && !Drops(left, csn) && !Drops(right, csn) ==>
              rec.value == MergeDiff(left.hikey.value, left.csn, right.csn, left.undo, right.undo)
  {
    var dropsLeft := DropsTuple(left, csn);
    var dropsRight := DropsTuple(right, csn);
    if NotRetained(left, retain) && NotRetained(right, retain) && !dropsLeft && !dropsRight && seqScans == 0 {
      rec := None;
    } else if dropsLeft || dropsRight {
      rec := Some(MergeFull(left, right));
    } else {
      rec := Some(MergeDiff(left.hikey.value, left.csn, right.csn, left.undo, right.undo));
    }
    var items := TakeItems([], left.tuples, csn);
    items := TakeItems(items, right.tuples, csn);
    merged := if rec.None? then Leaf(items, right.hikey, FROZEN, None) else Leaf(items, right.hikey, csn, Some(at));
  }
}
