/**
 The node store under the position graph: every allocated node is at exactly one
 position and stands for that position's entries.  Each lemma says how one write to
 memory carries one step of the graph.
*/
module RadixMemory {
  import opened RadixNode
  import opened RadixKey
  import opened RadixGraph
  import opened RadixSteps

  type Memory = map<Ptr, Node>

  ghost predicate Holds(mem: Memory, g: Graph, q: Pos) {
    q in g.at && q in g.ents && g.at[q] in mem && Rep(mem[g.at[q]], g.ents[q])
  }

  /** The allocated nodes are exactly those in the tree, and each stands for its entries. */
  ghost predicate MemRep(mem: Memory, g: Graph) {
    mem.Keys == g.pos.Keys && Placed(g) &&
    (forall q {:trigger Holds(mem, g, q)} :: q in g.at ==> Holds(mem, g, q))
  }

  lemma {:induction false} FreshAddress(used: set<Ptr>)
    ensures exists p: Ptr :: p !in used
  {
    var m := Bound(used);
    assert m !in used;
  }

  lemma {:induction false} Bound(used: set<Ptr>) returns (m: Ptr)
    ensures forall p :: p in used ==> p < m
  {
    if used == {} {
      m := 0;
    } else {
      var p :| p in used;
      var b := Bound(used - {p});
      m := if p < b then b else p + 1;
      assert forall q :: q in used ==> q == p || q in used - {p};
    }
  }

  /** Changing the node at one position. */
  lemma UpdateNode(mem: Memory, g: Graph, q: Pos, n': Node, m': Entries)
    requires MemRep(mem, g) && q in g.at && Rep(n', m')
    ensures MemRep(mem[g.at[q] := n'], g.(ents := g.ents[q := m']))
  {
    var mem', g' := mem[g.at[q] := n'], g.(ents := g.ents[q := m']);
    forall r {:trigger Holds(mem', g', r)} | r in g'.at ensures Holds(mem', g', r) {
      assert Holds(mem, g, r);
    }
  }

  /** Hanging a new node at a new position. */
  lemma NewNode(mem: Memory, g: Graph, q: Pos, p: Ptr, n': Node, m': Entries)
    requires MemRep(mem, g) && q !in g.at && p !in mem && Rep(n', m')
    ensures MemRep(mem[p := n'], AddNode(g, q, p, m'))
  {
    var mem', g' := mem[p := n'], AddNode(g, q, p, m');
    forall r {:trigger Holds(mem', g', r)} | r in g'.at ensures Holds(mem', g', r) {
      if r != q {
        assert Holds(mem, g, r);
      }
    }
  }

  /** Freeing the node at a position. */
  lemma FreedNode(mem: Memory, g: Graph, q: Pos)
    requires MemRep(mem, g) && q in g.at
    ensures MemRep(mem - {g.at[q]}, DropNode(g, q))
  {
    var mem', g' := mem - {g.at[q]}, DropNode(g, q);
    forall r {:trigger Holds(mem', g', r)} | r in g'.at ensures Holds(mem', g', r) {
      assert Holds(mem, g, r);
    }
  }

  /** Moving the node at a position to a fresh address. */
  lemma MovedNode(mem: Memory, g: Graph, q: Pos, p: Ptr)
    requires MemRep(mem, g) && q in g.at && p !in mem
    ensures Holds(mem, g, q)
    ensures MemRep((mem - {g.at[q]})[p := mem[g.at[q]]], Moved(g, q, p))
  {
    assert Holds(mem, g, q);
    MovedPlaced(g, q, p);
    var mem', g' := (mem - {g.at[q]})[p := mem[g.at[q]]], Moved(g, q, p);
    assert mem'.Keys == g'.pos.Keys;
    forall r {:trigger Holds(mem', g', r)} | r in g'.at ensures Holds(mem', g', r) {
      assert Holds(mem, g, r);
    }
  }

  /** The node with one child slot overwritten. */
  function Stored(n: Node, i: int, s: Slot): Node
    requires 0 <= i < |n.children|
  {
    n.(children := n.children[i := s])
  }

  /** Overwriting a used slot of the node at `q`. */
  lemma WrittenSlot(mem: Memory, g: Graph, q: Pos, c: uint8, i: int, s: Slot)
    requires MemRep(mem, g) && Holds(mem, g, q) && SlotIs(mem[g.at[q]], c, i)
    ensures MemRep(mem[g.at[q] := Stored(mem[g.at[q]], i, s)], SetEntry(g, q, c, s))
    ensures SlotIs(Stored(mem[g.at[q]], i, s), c, i)
  {
    var m: Entries := g.ents[q][c := s];
    StoreSlot(mem[g.at[q]], g.ents[q], c, i, s);
    UpdateNode(mem, g, q, Stored(mem[g.at[q]], i, s), m);
    assert SetEntry(g, q, c, s) == g.(ents := g.ents[q := m]);
  }

  /** Replacing the node at `q` by another node at a fresh address. */
  lemma ReplacedNode(mem: Memory, g: Graph, q: Pos, p: Ptr, n': Node, m': Entries)
    requires MemRep(mem, g) && q in g.at && p !in mem && Rep(n', m')
    ensures MemRep((mem - {g.at[q]})[p := n'], Moved(g.(ents := g.ents[q := m']), q, p))
  {
    UpdateNode(mem, g, q, n', m');
    var mem1, g1 := mem[g.at[q] := n'], g.(ents := g.ents[q := m']);
    MovedNode(mem1, g1, q, p);
    assert (mem1 - {g.at[q]})[p := n'] == (mem - {g.at[q]})[p := n'];
  }

  // ---------------------------------------------------------------------------
  // The whole state
  // ---------------------------------------------------------------------------

  /** The address of a slot: the root pointer of the tree, or one child slot of a node. */
  datatype SlotRef = RootSlot | NodeSlot(ptr: Ptr, idx: int)

  /** Memory and root pointer stand for a well-formed graph with at most one hole. */
  ghost predicate Inv(mem: Memory, root: Ptr, g: Graph, h: Hole) {
    Wf(g, h) && MemRep(mem, g) && root == g.at[Root(g)]
  }

  /** `ref` is the slot that holds the pointer to the node at `q`. */
  ghost predicate SlotFor(mem: Memory, g: Graph, ref: SlotRef, q: Pos) {
    q in g.at &&
    if q.level == g.top then ref == RootSlot
    else ref.NodeSlot? && Parent(q) in g.at && ref.ptr == g.at[Parent(q)] && ref.ptr in mem &&
         SlotIs(mem[ref.ptr], q.prefix % 256, ref.idx)
  }

  lemma NodeHere(mem: Memory, root: Ptr, g: Graph, h: Hole, q: Pos)
    requires Inv(mem, root, g, h) && q in g.at
    ensures q in g.ents && g.at[q] in mem && Rep(mem[g.at[q]], g.ents[q]) && Holds(mem, g, q)
  {
    assert Holds(mem, g, q);
  }

  lemma WriteKeeps(mem: Memory, root: Ptr, g: Graph, h: Hole, q: Pos, c: uint8, i: int, s: Slot, h': Hole)
    requires Inv(mem, root, g, h) && q in g.at && g.at[q] in mem && SlotIs(mem[g.at[q]], c, i)
    requires Wf(SetEntry(g, q, c, s), h')
    ensures Inv(mem[g.at[q] := Stored(mem[g.at[q]], i, s)], root, SetEntry(g, q, c, s), h')
    ensures SlotIs(Stored(mem[g.at[q]], i, s), c, i)
  {
    NodeHere(mem, root, g, h, q);
    WrittenSlot(mem, g, q, c, i, s);
  }

  lemma UpdateKeeps(mem: Memory, root: Ptr, g: Graph, h: Hole, q: Pos, n': Node, m': Entries, h': Hole)
    requires Inv(mem, root, g, h) && q in g.at && Rep(n', m')
    requires Wf(g.(ents := g.ents[q := m']), h')
    ensures Inv(mem[g.at[q] := n'], root, g.(ents := g.ents[q := m']), h')
  {
    UpdateNode(mem, g, q, n', m');
  }

  /** The memory after the node at `q` moved to `p` with content `n'` and the slot `ref` was redirected. */
  function ReplaceIn(mem: Memory, ptr: Ptr, p: Ptr, n': Node, ref: SlotRef): Memory {
    var mem1 := (mem - {ptr})[p := n'];
    if ref.NodeSlot? && ref.ptr in mem1 && 0 <= ref.idx < |mem1[ref.ptr].children|
    then mem1[ref.ptr := Stored(mem1[ref.ptr], ref.idx, Child(p))]
    else mem1
  }

  lemma ParentDiffers(g: Graph, h: Hole, q: Pos)
    requires Wf(g, h) && q in g.at && q.level < g.top
    ensures Parent(q) in g.at && g.at[Parent(q)] != g.at[q] && q.prefix % 256 in g.ents[Parent(q)]
  {
    ReachedHere(g, h, q);
  }

  /** Replacing the node at `q` keeps the invariant. */
  lemma ReplaceKeeps(mem: Memory, root: Ptr, g: Graph, h: Hole, q: Pos, ref: SlotRef, p: Ptr,
                     n': Node, m': Entries, h': Hole)
    requires Inv(mem, root, g, h) && SlotFor(mem, g, ref, q) && Rep(n', m') && p !in mem
    requires Wf(g.(ents := g.ents[q := m']), h')
    ensures var g' := MoveNode(g.(ents := g.ents[q := m']), q, p);
            Inv(ReplaceIn(mem, g.at[q], p, n', ref), if ref == RootSlot then p else root, g', h')
  {
    ReplacedNode(mem, g, q, p, n', m');
    var g1 := g.(ents := g.ents[q := m']);
    MoveNodeWf(g1, h', q, p);
    if ref != RootSlot {
      ParentDiffers(g, h, q);
      ReplaceParent(mem, g, q, ref, p, n', g1);
    }
  }

  lemma ReplacedAt(mem: Memory, root: Ptr, g: Graph, h: Hole, q: Pos, ref: SlotRef, p: Ptr, n': Node)
    requires Inv(mem, root, g, h) && SlotFor(mem, g, ref, q) && p !in mem
    ensures p in ReplaceIn(mem, g.at[q], p, n', ref) && ReplaceIn(mem, g.at[q], p, n', ref)[p] == n'
  {
  }

  lemma ReplaceParent(mem: Memory, g: Graph, q: Pos, ref: SlotRef, p: Ptr, n': Node, g1: Graph)
    requires q in g.at && q.level < g.top && p !in mem && g1.top == g.top && q in g1.at
    requires SlotFor(mem, g, ref, q) && Parent(q) in g1.ents && ref.ptr != g.at[q]
    requires MemRep((mem - {g.at[q]})[p := n'], Moved(g1, q, p)) && g1.at == g.at
    ensures MemRep(ReplaceIn(mem, g.at[q], p, n', ref), MoveNode(g1, q, p))
  {
    var mem1, g2 := (mem - {g.at[q]})[p := n'], Moved(g1, q, p);
    assert Holds(mem1, g2, Parent(q));
    WrittenSlot(mem1, g2, Parent(q), q.prefix % 256, ref.idx, Child(p));
  }
}
