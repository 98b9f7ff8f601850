/**
 The structural steps of insertion and deletion on the position graph: extending a
 path down, replacing a node, removing an entry, freeing an emptied node, resetting
 the root, and putting a new root on top.
*/
module RadixSteps {
  import opened RadixNode
  import opened RadixKey
  import opened RadixGraph

  // ---------------------------------------------------------------------------
  // Growing
  // ---------------------------------------------------------------------------

  /** Hang a fresh one-chunk node in a hole; the hole moves down into it. */
  ghost function ExtendDown(g: Graph, q: Pos, c: uint8, p: Ptr, d: uint8): Graph
    requires q in g.ents && q.level > 0
  {
    AddNode(SetEntry(g, q, c, Child(p)), Kid(q, c), p, map[d := Unset])
  }

  lemma ExtendDownWf(g: Graph, q: Pos, c: uint8, p: Ptr, d: uint8)
    requires Wf(g, Hole(q, c)) && q.level > 0 && p !in g.pos
    ensures Wf(ExtendDown(g, q, c, p, d), Hole(Kid(q, c), d))
  {
    var g' := ExtendDown(g, q, c, p, d);
    var q' := Kid(q, c);
    AddedPlaced(SetEntry(g, q, c, Child(p)), q', p, map[d := Unset]);
    forall r {:trigger Reached(g', r)} | r in g'.at && r.level < g'.top ensures Reached(g', r) {
      DownReached(g, q, c, p, d, r);
    }
    forall r, e {:trigger Linked(g', r, e)} | r in g'.ents && e in g'.ents[r] && Hole(q', d) != Hole(r, e)
      ensures Linked(g', r, e)
    {
      DownLinked(g, q, c, p, d, r, e);
    }
    if q'.level > 0 && Kid(q', d) in g.at {
      ReachedHere(g, Hole(q, c), Kid(q', d));
    }
  }

  lemma DownReached(g: Graph, q: Pos, c: uint8, p: Ptr, d: uint8, r: Pos)
    requires Wf(g, Hole(q, c)) && q.level > 0 && r in ExtendDown(g, q, c, p, d).at && r.level < g.top
    ensures Reached(ExtendDown(g, q, c, p, d), r)
  {
    if r == Kid(q, c) {
      KidParent(q, c);
      assert d in ExtendDown(g, q, c, p, d).ents[r];
    } else {
      ReachedHere(g, Hole(q, c), r);
    }
  }

  lemma DownLinked(g: Graph, q: Pos, c: uint8, p: Ptr, d: uint8, r: Pos, e: uint8)
    requires Wf(g, Hole(q, c)) && q.level > 0 && r in ExtendDown(g, q, c, p, d).ents
    requires e in ExtendDown(g, q, c, p, d).ents[r] && Hole(Kid(q, c), d) != Hole(r, e)
    ensures Linked(ExtendDown(g, q, c, p, d), r, e)
  {
    if r != q || e != c {
      assert Linked(g, r, e);
    }
  }

  lemma ExtendDownView(g: Graph, q: Pos, c: uint8, p: Ptr, d: uint8)
    requires Wf(g, Hole(q, c)) && q.level > 0
    ensures View(ExtendDown(g, q, c, p, d)) == View(g)
  {
    ViewSame(g, ExtendDown(g, q, c, p, d));
  }

  /** Moving a node to a fresh address and redirecting its parent's slot changes nothing else. */
  lemma MoveNodeWf(g: Graph, h: Hole, q: Pos, p: Ptr)
    requires Wf(g, h) && q in g.at && p !in g.pos
    ensures Wf(MoveNode(g, q, p), h)
  {
    var g' := MoveNode(g, q, p);
    MovedPlaced(g, q, p);
    if q.level < g.top {
      ReachedHere(g, h, q);
    }
    forall r {:trigger Reached(g', r)} | r in g'.at && r.level < g'.top ensures Reached(g', r) {
      ReachedHere(g, h, r);
    }
    forall r, e {:trigger Linked(g', r, e)} | r in g'.ents && e in g'.ents[r] && h != Hole(r, e)
      ensures Linked(g', r, e)
    {
      MovedLinked(g, h, q, p, r, e);
    }
  }

  lemma MovedLinked(g: Graph, h: Hole, q: Pos, p: Ptr, r: Pos, e: uint8)
    requires Wf(g, h) && q in g.at && r in g.ents && e in g.ents[r] && h != Hole(r, e)
    requires q.level < g.top ==> Reached(g, q)
    ensures Linked(MoveNode(g, q, p), r, e)
  {
    assert Linked(g, r, e);
  }

  lemma MoveNodeView(g: Graph, h: Hole, q: Pos, p: Ptr)
    requires Wf(g, h) && q in g.at
    ensures View(MoveNode(g, q, p)) == View(g)
  {
    ViewSame(g, MoveNode(g, q, p));
  }

  /** Put a one-chunk node above a non-empty root. */
  ghost function ExtendUp(g: Graph, p: Ptr): Graph
    requires Root(g) in g.at
  {
    AddNode(g.(top := g.top + 1), Pos(g.top + 1, 0), p, map[0 := Child(g.at[Root(g)])])
  }

  lemma ExtendUpWf(g: Graph, p: Ptr)
    requires Wf(g, NoHole) && g.ents[Root(g)] != map[] && g.top < MAX_LEVEL && p !in g.pos
    ensures Wf(ExtendUp(g, p), NoHole) && ExtendUp(g, p).ents[Root(ExtendUp(g, p))] != map[]
  {
    var g' := ExtendUp(g, p);
    forall r {:trigger Reached(g', r)} | r in g'.at && r.level < g'.top ensures Reached(g', r) {
      if r.level < g.top {
        ReachedHere(g, NoHole, r);
      }
    }
    forall r, e {:trigger Linked(g', r, e)} | r in g'.ents && e in g'.ents[r] ensures Linked(g', r, e) {
      if r != Root(g') {
        assert Linked(g, r, e);
      }
    }
    assert 0 in g'.ents[Root(g')];
  }

  lemma ExtendUpView(g: Graph, p: Ptr)
    requires Wf(g, NoHole)
    ensures View(ExtendUp(g, p)) == View(g)
  {
    ViewSame(g, ExtendUp(g, p));
  }

  /** A tree that is one root node with the given entries. */
  ghost function Single(l: nat, p: Ptr, m: Entries): Graph {
    Graph(l, map[Pos(l, 0) := p], map[p := Pos(l, 0)], map[Pos(l, 0) := m])
  }

  lemma SingleEmpty(p: Ptr)
    ensures Wf(Single(0, p, map[]), NoHole) && View(Single(0, p, map[])) == map[]
  {
  }

  /** The empty tree raised to the level of its first large key. */
  lemma SingleRaised(l: nat, p: Ptr, c: uint8)
    requires 0 < l <= MAX_LEVEL
    ensures Wf(Single(l, p, map[c := Unset]), Hole(Pos(l, 0), c))
    ensures View(Single(l, p, map[c := Unset])) == map[]
  {
    assert c in Single(l, p, map[c := Unset]).ents[Pos(l, 0)];
  }

  // ---------------------------------------------------------------------------
  // Shrinking
  // ---------------------------------------------------------------------------

  /** The key stored under chunk `c` of level-0 position `q`. */
  function KeyAt(q: Pos, c: uint8): nat {
    q.prefix * 256 + c
  }

  /** The map without what entry `c` of `q` stored. */
  ghost function ViewWithout(g: Graph, q: Pos, c: uint8): map<Key, Value> {
    map k: Key | k in View(g) && (q.level > 0 || k != KeyAt(q, c)) :: View(g)[k]
  }

  /** Entry `c` of `q` may go: it is a value, or the hole left by a freed child. */
  ghost predicate Removable(g: Graph, h: Hole, q: Pos, c: uint8) {
    Wf(g, h) && q in g.ents && c in g.ents[q] &&
    (h == Hole(q, c) || (h == NoHole && q.level == 0))
  }

  /** Removing an entry from a node that keeps another. */
  lemma RemoveEntryWf(g: Graph, h: Hole, q: Pos, c: uint8)
    requires Removable(g, h, q, c) && g.ents[q].Keys != {c}
    ensures Wf(DelEntry(g, q, c), NoHole)
  {
    var g' := DelEntry(g, q, c);
    var other :| other in g.ents[q] && other != c;
    assert other in g'.ents[q];
    forall r {:trigger Reached(g', r)} | r in g'.at && r.level < g'.top ensures Reached(g', r) {
      ReachedHere(g, h, r);
      assert r.level + 1 == q.level && Parent(r) == q && r.prefix % 256 == c ==> r == Kid(q, c);
    }
    forall r, e {:trigger Linked(g', r, e)} | r in g'.ents && e in g'.ents[r] ensures Linked(g', r, e) {
      assert Linked(g, r, e);
    }
  }

  /** A tree with the entry gone, and every other value in place. */
  lemma RemovedView(g: Graph, h: Hole, q: Pos, c: uint8, g': Graph)
    requires Removable(g, h, q, c)
    requires forall k: Key {:trigger Has(g, k)} :: Has(g', k) <==> Has(g, k) && (q.level > 0 || k != KeyAt(q, c))
    requires forall k: Key {:trigger Has(g, k)} :: Has(g, k) && Has(g', k) ==>
               g.ents[Home(k, 0)][k % 256] == g'.ents[Home(k, 0)][k % 256]
    ensures View(g') == ViewWithout(g, q, c)
  {
    forall k: Key ensures k in View(g') <==> k in ViewWithout(g, q, c) {
      assert Has(g, k) <==> k in View(g);
    }
    forall k: Key | k in View(g') ensures View(g')[k] == ViewWithout(g, q, c)[k] {
      assert Has(g, k);
    }
  }

  lemma RemoveEntryView(g: Graph, h: Hole, q: Pos, c: uint8)
    requires Removable(g, h, q, c)
    ensures View(DelEntry(g, q, c)) == ViewWithout(g, q, c)
  {
    var g' := DelEntry(g, q, c);
    forall k: Key {:trigger Has(g, k)}
      ensures Has(g', k) <==> Has(g, k) && (q.level > 0 || k != KeyAt(q, c))
      ensures Has(g, k) && Has(g', k) ==> g.ents[Home(k, 0)][k % 256] == g'.ents[Home(k, 0)][k % 256]
    {
      HomeZero(k);
    }
    RemovedView(g, h, q, c, g');
  }

  /** Freeing a non-root node whose only entry goes leaves a hole in its parent. */
  ghost function FreeNode(g: Graph, q: Pos): Graph
    requires q in g.at && q.level < g.top && Reached(g, q)
  {
    SetEntry(DropNode(g, q), Parent(q), q.prefix % 256, Unset)
  }

  lemma FreeNodeWf(g: Graph, h: Hole, q: Pos, c: uint8)
    requires Removable(g, h, q, c) && g.ents[q].Keys == {c} && q.level < g.top && Reached(g, q)
    ensures Wf(FreeNode(g, q), Hole(Parent(q), q.prefix % 256))
  {
    var g', h' := FreeNode(g, q), Hole(Parent(q), q.prefix % 256);
    assert Kid(Parent(q), q.prefix % 256) == q;
    DroppedPlaced(g, q);
    forall r {:trigger Reached(g', r)} | r in g'.at && r.level < g'.top ensures Reached(g', r) {
      ReachedHere(g, h, r);
      assert Parent(r) == q ==> r == Kid(q, c);
    }
    forall r, e {:trigger Linked(g', r, e)} | r in g'.ents && e in g'.ents[r] && h' != Hole(r, e)
      ensures Linked(g', r, e)
    {
      assert Linked(g, r, e);
      if r.level > 0 {
        KidParent(r, e);
      }
    }
  }

  lemma FreeNodeView(g: Graph, h: Hole, q: Pos, c: uint8)
    requires Removable(g, h, q, c) && g.ents[q].Keys == {c} && q.level < g.top && Reached(g, q)
    ensures View(FreeNode(g, q)) == ViewWithout(g, q, c)
  {
    var g' := FreeNode(g, q);
    forall k: Key {:trigger Has(g, k)}
      ensures Has(g', k) <==> Has(g, k) && (q.level > 0 || k != KeyAt(q, c))
      ensures Has(g, k) && Has(g', k) ==> g.ents[Home(k, 0)][k % 256] == g'.ents[Home(k, 0)][k % 256]
    {
      HomeZero(k);
    }
    RemovedView(g, h, q, c, g');
  }

  /** Every position below the root hangs under some entry of the root. */
  lemma {:induction false} UnderRoot(g: Graph, h: Hole, q: Pos) returns (c: uint8)
    requires Wf(g, h) && q in g.at && q.level < g.top
    ensures c in g.ents[Root(g)] && Kid(Root(g), c) in g.at
    decreases g.top - q.level
  {
    ReachedHere(g, h, q);
    if q.level + 1 == g.top {
      c := q.prefix % 256;
      assert Kid(Root(g), c) == q;
    } else {
      c := UnderRoot(g, h, Parent(q));
    }
  }

  /** When the root's only entry goes, nothing else is left. */
  lemma OnlyRoot(g: Graph, h: Hole, c: uint8)
    requires Removable(g, h, Root(g), c) && g.ents[Root(g)].Keys == {c}
    ensures g.at.Keys == {Root(g)} && ViewWithout(g, Root(g), c) == map[]
  {
    forall q | q in g.at ensures q == Root(g) {
      if q.level < g.top {
        var e := UnderRoot(g, h, q);
      }
    }
    forall k: Key | k in View(g) ensures g.top == 0 && k == KeyAt(Root(g), c) {
      assert Has(g, k);
      HomeZero(k);
    }
  }

  // ---------------------------------------------------------------------------
  // Emptiness
  // ---------------------------------------------------------------------------

  /** Below any entry there is a stored key. */
  lemma {:induction false} SomeKey(g: Graph, q: Pos) returns (k: Key)
    requires Wf(g, NoHole) && q in g.at && g.ents[q] != map[]
    ensures Has(g, k)
    decreases q.level
  {
    assert g.ents[q].Keys != {};
    var c :| c in g.ents[q];
    assert Linked(g, q, c);
    if q.level == 0 {
      var j := KeyAt(q, c);
      HomeZero(j);
      KeyInRange(g, q, j);
      k := j;
    } else {
      ReachedHere(g, NoHole, Kid(q, c));
      k := SomeKey(g, Kid(q, c));
    }
  }

  lemma KeyInRange(g: Graph, q: Pos, j: nat)
    requires Wf(g, NoHole) && q in g.at && q.level == 0 && Home(j, 0) == q
    ensures j < KEY_LIMIT
  {
    PathUp(g, NoHole, j, 0, g.top);
    FitsIff(j, g.top);
    MaxValMono(g.top, MAX_LEVEL);
    TopMax();
  }

  lemma {:induction false} MaxValMono(l: nat, l': nat)
    requires l <= l'
    ensures MaxVal(l) <= MaxVal(l')
    decreases l'
  {
    if l < l' {
      MaxValMono(l, l' - 1);
    }
  }

  /** The tree stores nothing exactly when its root is empty. */
  lemma EmptyIffRootEmpty(g: Graph)
    requires Wf(g, NoHole)
    ensures View(g) == map[] <==> g.ents[Root(g)] == map[]
  {
    if g.ents[Root(g)] != map[] {
      var k := SomeKey(g, Root(g));
      assert k in View(g);
    } else {
      assert forall k: Key :: !Has(g, k);
    }
  }
}
