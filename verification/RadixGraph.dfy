/**
 The tree of nodes seen as a graph: which positions exist, which node address is at
 each position, and what entries that node holds.  A position is a level and the
 key bytes above that level, so a key names one position per level.  All facts about
 the shape of the tree are first-order facts about positions, and every structural
 step of the algorithms is one function here with the facts it keeps.
*/
module RadixGraph {
  import opened RadixNode
  import opened RadixKey

  datatype Pos = Pos(level: nat, prefix: nat)

  function Kid(q: Pos, c: uint8): Pos
    requires q.level > 0
  {
    Pos(q.level - 1, q.prefix * 256 + c)
  }

  function Parent(q: Pos): Pos {
    Pos(q.level + 1, q.prefix / 256)
  }

  /** The position at level `l` on the path of key `k`. */
  function Home(k: nat, l: nat): Pos {
    Pos(l, Shr(k, l + 1))
  }

  /** A reserved or cleared slot: chunk `c` of the node at `q` is present but holds nothing yet. */
  datatype Hole = NoHole | Hole(q: Pos, c: uint8)

  datatype Graph = Graph(top: nat, at: map<Pos, Ptr>, pos: map<Ptr, Pos>, ents: map<Pos, Entries>)

  function Root(g: Graph): Pos {
    Pos(g.top, 0)
  }

  ghost predicate Linked(g: Graph, q: Pos, c: uint8)
    requires q in g.ents && c in g.ents[q]
  {
    var s := g.ents[q][c];
    if q.level == 0 then s.Leaf?
    else s.Child? && Kid(q, c) in g.at && g.at[Kid(q, c)] == s.ptr
  }

  /** Below the root every position is reached through its parent and is not empty. */
  ghost predicate Reached(g: Graph, q: Pos) {
    q in g.ents && g.ents[q] != map[] &&
    Parent(q) in g.ents && (q.prefix % 256) in g.ents[Parent(q)]
  }

  ghost predicate HoleOk(g: Graph, h: Hole) {
    h.Hole? ==>
      h.q in g.ents && h.c in g.ents[h.q] && g.ents[h.q][h.c].Unset? &&
      (h.q.level > 0 ==> Kid(h.q, h.c) !in g.at)
  }

  /** Each position has its own node, and each node its own position. */
  ghost predicate Placed(g: Graph) {
    (forall q :: q in g.at ==> g.at[q] in g.pos && g.pos[g.at[q]] == q) &&
    (forall p :: p in g.pos ==> g.pos[p] in g.at && g.at[g.pos[p]] == p)
  }

  ghost predicate Wf(g: Graph, h: Hole) {
    g.top <= MAX_LEVEL && g.at.Keys == g.ents.Keys && Root(g) in g.at && HoleOk(g, h) &&
    (forall q :: q in g.at ==> q.level <= g.top && (q.level == g.top ==> q.prefix == 0)) &&
    Placed(g) &&
    (forall q, c {:trigger Linked(g, q, c)} ::
       q in g.ents && c in g.ents[q] && h != Hole(q, c) ==> Linked(g, q, c)) &&
    (forall q {:trigger Reached(g, q)} :: q in g.at && q.level < g.top ==> Reached(g, q)) &&
    (g.ents[Root(g)] == map[] ==> g.top == 0)
  }

  ghost predicate Has(g: Graph, k: int) {
    0 <= k < KEY_LIMIT && Home(k, 0) in g.ents && (k % 256) in g.ents[Home(k, 0)] &&
    g.ents[Home(k, 0)][k % 256].Leaf?
  }

  /** The abstract map the tree stores. */
  ghost function View(g: Graph): map<Key, Value> {
    map k: Key | 0 <= k < KEY_LIMIT && Has(g, k) :: g.ents[Home(k, 0)][k % 256].value
  }

  // ---------------------------------------------------------------------------
  // Paths
  // ---------------------------------------------------------------------------

  lemma HomeKid(k: nat, l: nat)
    requires l > 0
    ensures Kid(Home(k, l), Chunk(k, l)) == Home(k, l - 1)
    ensures Parent(Home(k, l - 1)) == Home(k, l) && Home(k, l - 1).prefix % 256 == Chunk(k, l)
  {
  }

  lemma KidParent(q: Pos, c: uint8)
    requires q.level > 0
    ensures Parent(Kid(q, c)) == q && Kid(q, c).prefix % 256 == c
  {
  }

  lemma HomeZero(k: nat)
    ensures Home(k, 0) == Pos(0, k / 256)
  {
    assert Shr(k, 1) == Shr(k, 0) / 256;
  }

  lemma ReachedHere(g: Graph, h: Hole, q: Pos)
    requires Wf(g, h) && q in g.at && q.level < g.top
    ensures Reached(g, q)
  {
  }

  /** A key whose position exists at one level has all positions above, each leading to the next. */
  lemma {:induction false} PathUp(g: Graph, h: Hole, k: nat, l: nat, l': nat)
    requires Wf(g, h) && l <= l' <= g.top && Home(k, l) in g.at
    ensures Home(k, l') in g.at
    ensures l < l' ==> Chunk(k, l') in g.ents[Home(k, l')]
    decreases l'
  {
    if l < l' {
      PathUp(g, h, k, l, l' - 1);
      HomeKid(k, l');
      assert Reached(g, Home(k, l' - 1));
    }
  }

  /** A stored key fits under the tree's top level. */
  lemma HasFits(g: Graph, h: Hole, k: nat)
    requires Wf(g, h) && Has(g, k)
    ensures k <= MaxVal(g.top)
  {
    PathUp(g, h, k, 0, g.top);
    FitsIff(k, g.top);
  }

  /** A key that stops matching at some level is not stored. */
  lemma MissingChunk(g: Graph, h: Hole, k: nat, l: nat)
    requires Wf(g, h) && Home(k, l) in g.at && Chunk(k, l) !in g.ents[Home(k, l)]
    ensures !Has(g, k)
  {
    if Has(g, k) {
      PathUp(g, h, k, 0, l);
    }
  }

  lemma FitsRoot(g: Graph, h: Hole, k: nat)
    requires Wf(g, h) && k <= MaxVal(g.top)
    ensures Home(k, g.top) == Root(g)
  {
    FitsIff(k, g.top);
  }

  // ---------------------------------------------------------------------------
  // Steps
  // ---------------------------------------------------------------------------

  ghost function SetEntry(g: Graph, q: Pos, c: uint8, s: Slot): Graph
    requires q in g.ents
  {
    var m: Entries := g.ents[q][c := s];
    g.(ents := g.ents[q := m])
  }

  ghost function DelEntry(g: Graph, q: Pos, c: uint8): Graph
    requires q in g.ents
  {
    var m: Entries := g.ents[q] - {c};
    g.(ents := g.ents[q := m])
  }

  /** Put a node at a new position. */
  ghost function AddNode(g: Graph, q: Pos, p: Ptr, m: Entries): Graph {
    g.(at := g.at[q := p], pos := g.pos[p := q], ents := g.ents[q := m])
  }

  /** Take the node at a position away. */
  ghost function DropNode(g: Graph, q: Pos): Graph
    requires q in g.at
  {
    g.(at := g.at - {q}, pos := g.pos - {g.at[q]}, ents := g.ents - {q})
  }

  /** Put the node of a position at another address. */
  ghost function Moved(g: Graph, q: Pos, p: Ptr): Graph
    requires q in g.at
  {
    g.(at := g.at[q := p], pos := (g.pos - {g.at[q]})[p := q])
  }

  lemma AddedPlaced(g: Graph, q: Pos, p: Ptr, m: Entries)
    requires Placed(g) && q !in g.at && p !in g.pos
    ensures Placed(AddNode(g, q, p, m))
  {
  }

  lemma DroppedPlaced(g: Graph, q: Pos)
    requires Placed(g) && q in g.at
    ensures Placed(DropNode(g, q))
  {
  }

  lemma MovedPlaced(g: Graph, q: Pos, p: Ptr)
    requires Placed(g) && q in g.at && p !in g.pos
    ensures Placed(Moved(g, q, p)) && Moved(g, q, p).pos.Keys == g.pos.Keys - {g.at[q]} + {p}
  {
    var g' := Moved(g, q, p);
    forall r | r in g'.at ensures g'.at[r] in g'.pos && g'.pos[g'.at[r]] == r {
      assert r in g.at;
    }
    forall a | a in g'.pos ensures g'.pos[a] in g'.at && g'.at[g'.pos[a]] == a {
      assert a == p || (a in g.pos && a != g.at[q]);
    }
  }

  /** Put the node of a position at another address, and tell its parent. */
  ghost function MoveNode(g: Graph, q: Pos, p: Ptr): Graph
    requires q in g.at
  {
    if q.level < g.top && Parent(q) in g.ents
    then SetEntry(Moved(g, q, p), Parent(q), q.prefix % 256, Child(p))
    else Moved(g, q, p)
  }

  /** Changing one entry keeps the tree well formed when the new entry is linked, or is the one hole. */
  lemma SetEntryWf(g: Graph, h: Hole, q: Pos, c: uint8, s: Slot, h': Hole)
    requires Wf(g, h) && q in g.ents && (h == NoHole || h == Hole(q, c))
    requires h' == NoHole || h' == Hole(q, c)
    requires h' == NoHole && q.level == 0 ==> s.Leaf?
    requires h' == NoHole && q.level > 0 ==> s.Child? && Kid(q, c) in g.at && g.at[Kid(q, c)] == s.ptr
    requires h' != NoHole ==> s.Unset? && (q.level > 0 ==> Kid(q, c) !in g.at)
    ensures Wf(SetEntry(g, q, c, s), h')
  {
    var g' := SetEntry(g, q, c, s);
    forall r {:trigger Reached(g', r)} | r in g'.at && r.level < g'.top ensures Reached(g', r) {
      assert Reached(g, r);
    }
    forall r, d {:trigger Linked(g', r, d)} | r in g'.ents && d in g'.ents[r] && h' != Hole(r, d)
      ensures Linked(g', r, d)
    {
      if r != q || d != c {
        assert Linked(g, r, d);
      }
    }
  }

  /** Two trees with the same level-0 values hold the same map. */
  lemma ViewSame(g: Graph, g': Graph)
    requires forall k: Key {:trigger Has(g, k)} :: Has(g, k) <==> Has(g', k)
    requires forall k: Key {:trigger Has(g, k)} :: Has(g, k) && Has(g', k) ==>
               g.ents[Home(k, 0)][k % 256] == g'.ents[Home(k, 0)][k % 256]
    ensures View(g) == View(g')
  {
  }

  /** An entry above level 0, or one that neither was nor becomes a value, is invisible in the map. */
  lemma SetEntryView(g: Graph, q: Pos, c: uint8, s: Slot)
    requires q in g.ents
    requires q.level > 0 || (!s.Leaf? && (c in g.ents[q] ==> !g.ents[q][c].Leaf?))
    ensures View(SetEntry(g, q, c, s)) == View(g)
  {
    ViewSame(g, SetEntry(g, q, c, s));
  }

  /** Reserving a chunk leaves a hole there and stores nothing. */
  lemma Reserve(g: Graph, q: Pos, c: uint8)
    requires Wf(g, NoHole) && q in g.ents && c !in g.ents[q]
    ensures Wf(SetEntry(g, q, c, Unset), Hole(q, c))
    ensures View(SetEntry(g, q, c, Unset)) == View(g)
  {
    if q.level > 0 && Kid(q, c) in g.at {
      ReachedHere(g, NoHole, Kid(q, c));
    }
    SetEntryWf(g, NoHole, q, c, Unset, Hole(q, c));
    SetEntryView(g, q, c, Unset);
  }

  /** Writing a value at level 0 puts that key in the map. */
  lemma SetValueView(g: Graph, k: Key, v: Value)
    requires Home(k, 0) in g.ents
    ensures View(SetEntry(g, Home(k, 0), k % 256, Leaf(v))) == View(g)[k := v]
  {
    var g' := SetEntry(g, Home(k, 0), k % 256, Leaf(v));
    assert Has(g', k);
    forall j: Key {:trigger Has(g', j)} | j != k
      ensures Has(g', j) <==> Has(g, j)
      ensures Has(g, j) && Has(g', j) ==> g'.ents[Home(j, 0)][j % 256] == g.ents[Home(j, 0)][j % 256]
    {
      HomeZero(j);
      HomeZero(k);
    }
  }

  /** Filling a level-0 hole, or overwriting a value, stores the key. */
  lemma StoreValue(g: Graph, h: Hole, k: Key, v: Value)
    requires Wf(g, h) && Home(k, 0) in g.ents && (k % 256) in g.ents[Home(k, 0)]
    requires h == NoHole || h == Hole(Home(k, 0), k % 256)
    ensures var g' := SetEntry(g, Home(k, 0), k % 256, Leaf(v));
            Wf(g', NoHole) && View(g') == View(g)[k := v]
    ensures k in View(g) <==> h == NoHole
  {
    SetEntryWf(g, h, Home(k, 0), k % 256, Leaf(v), NoHole);
    SetValueView(g, k, v);
    if h == NoHole {
      assert Linked(g, Home(k, 0), k % 256);
    }
  }
}
