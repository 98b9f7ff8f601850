/**
 What each write of insertion and deletion does to the whole state: memory, root
 pointer and graph move together and keep the invariant.
*/
module RadixUpdate {
  import opened RadixNode
  import opened RadixKey
  import opened RadixGraph
  import opened RadixSteps
  import opened RadixMemory

  lemma NotStored(g: Graph, k: Key)
    requires Wf(g, NoHole) && k > MaxVal(g.top)
    ensures k !in View(g)
  {
    if Has(g, k) {
      HasFits(g, NoHole, k);
    }
  }

  /** What the slot found on a key's path leads to. */
  lemma FollowSlot(mem: Memory, root: Ptr, g: Graph, k: Key, l: nat, i: int)
    requires Inv(mem, root, g, NoHole) && Home(k, l) in g.at && g.at[Home(k, l)] in mem
    requires SlotIs(mem[g.at[Home(k, l)]], Chunk(k, l), i)
    ensures var s := mem[g.at[Home(k, l)]].children[i];
            if l == 0 then s.Leaf? && k in View(g) && View(g)[k] == s.value
            else s.Child? && Home(k, l - 1) in g.at && s.ptr == g.at[Home(k, l - 1)]
  {
    NodeHere(mem, root, g, NoHole, Home(k, l));
    SlotHolds(mem[g.at[Home(k, l)]], g.ents[Home(k, l)], Chunk(k, l), i);
    assert Linked(g, Home(k, l), Chunk(k, l));
    if l == 0 {
      assert Shr(k, 0) == k;
      assert Has(g, k);
    } else {
      HomeKid(k, l);
    }
  }

  // ---------------------------------------------------------------------------
  // Starting nodes
  // ---------------------------------------------------------------------------

  function EmptyNode4(): Node {
    Node4(FANOUT_4, 0, seq(FANOUT_4_MAX, _ => 0), seq(FANOUT_4, _ => Unset))
  }

  lemma StartsEmpty(p: Ptr)
    ensures Inv(map[p := EmptyNode4()], p, Single(0, p, map[]), NoHole) && View(Single(0, p, map[])) == map[]
  {
    SingleEmpty(p);
    assert Holds(map[p := EmptyNode4()], Single(0, p, map[]), Pos(0, 0));
  }

  /** A node4 with one reserved chunk. */
  function OneChunk(c: uint8): Node {
    Node4(FANOUT_4, 1, seq<uint8>(FANOUT_4_MAX, _ => 0)[0 := c], seq(FANOUT_4, _ => Unset))
  }

  lemma OneChunkRep(c: uint8)
    ensures Rep(OneChunk(c), map[c := Unset]) && SlotIs(OneChunk(c), c, 0)
  {
    var n := OneChunk(c);
    assert n.chunks[..1] == [c] && n.children[..1] == [Unset];
  }

  // ---------------------------------------------------------------------------
  // Insertion
  // ---------------------------------------------------------------------------

  lemma GrownChunk(mem: Memory, root: Ptr, g: Graph, q: Pos, ref: SlotRef, p: Ptr, n': Node, c: uint8)
    requires Inv(mem, root, g, NoHole) && SlotFor(mem, g, ref, q) && q in g.ents && c !in g.ents[q]
    requires p !in mem && Rep(n', g.ents[q][c := Unset])
    ensures var g', mem' := MoveNode(SetEntry(g, q, c, Unset), q, p), ReplaceIn(mem, g.at[q], p, n', ref);
            Inv(mem', if ref == RootSlot then p else root, g', Hole(q, c)) &&
            View(g') == View(g) && g'.top == g.top && q in g'.at && g'.at[q] == p && p in mem' && mem'[p] == n'
  {
    Reserve(g, q, c);
    ReplaceKeeps(mem, root, g, NoHole, q, ref, p, n', g.ents[q][c := Unset], Hole(q, c));
    ReplacedAt(mem, root, g, NoHole, q, ref, p, n');
    MoveNodeView(SetEntry(g, q, c, Unset), Hole(q, c), q, p);
  }

  lemma AddedChunk(mem: Memory, root: Ptr, g: Graph, q: Pos, n': Node, c: uint8)
    requires Inv(mem, root, g, NoHole) && q in g.ents && c !in g.ents[q] && Rep(n', g.ents[q][c := Unset])
    ensures Inv(mem[g.at[q] := n'], root, SetEntry(g, q, c, Unset), Hole(q, c))
    ensures View(SetEntry(g, q, c, Unset)) == View(g)
  {
    Reserve(g, q, c);
    UpdateKeeps(mem, root, g, NoHole, q, n', g.ents[q][c := Unset], Hole(q, c));
  }

  /** The key's path is in place down to level `l`, where the slot for its chunk is reserved. */
  ghost predicate Awaiting(mem: Memory, root: Ptr, g: Graph, k: Key, l: nat, ptr: Ptr, i: int) {
    Inv(mem, root, g, Hole(Home(k, l), Chunk(k, l))) &&
    ptr == g.at[Home(k, l)] && ptr in mem && SlotIs(mem[ptr], Chunk(k, l), i)
  }

  /** Memory with a new one-chunk node at `p`, linked from a slot. */
  function Chain(mem: Memory, ptr: Ptr, i: int, p: Ptr, d: uint8): Memory
    requires ptr in mem && 0 <= i < |mem[ptr].children|
  {
    mem[ptr := Stored(mem[ptr], i, Child(p))][p := OneChunk(d)]
  }

  /** One step of the chain: a new node in the hole, with the next chunk reserved. */
  lemma ChainedNode(mem: Memory, root: Ptr, g: Graph, k: Key, l: nat, ptr: Ptr, i: int, p: Ptr)
    requires l > 0 && Awaiting(mem, root, g, k, l, ptr, i) && p !in mem
    ensures var g' := ExtendDown(g, Home(k, l), Chunk(k, l), p, Chunk(k, l - 1));
            Awaiting(Chain(mem, ptr, i, p, Chunk(k, l - 1)), root, g', k, l - 1, p, 0) &&
            View(g') == View(g) && g'.top == g.top
  {
    var q, c, d := Home(k, l), Chunk(k, l), Chunk(k, l - 1);
    HomeKid(k, l);
    NodeHere(mem, root, g, Hole(q, c), q);
    WrittenSlot(mem, g, q, c, i, Child(p));
    OneChunkRep(d);
    NewNode(mem[ptr := Stored(mem[ptr], i, Child(p))], SetEntry(g, q, c, Child(p)), Kid(q, c), p, OneChunk(d),
      map[d := Unset]);
    ExtendDownWf(g, q, c, p, d);
    ExtendDownView(g, q, c, p, d);
  }

  /** The pointer stored in the slot that leads to `q`. */
  lemma ChildPtrIs(mem: Memory, root: Ptr, g: Graph, ref: SlotRef, q: Pos)
    requires Inv(mem, root, g, NoHole) && SlotFor(mem, g, ref, q) && ref.NodeSlot?
    ensures mem[ref.ptr].children[ref.idx] == Child(g.at[q])
  {
    var c := q.prefix % 256;
    ReachedHere(g, NoHole, q);
    NodeHere(mem, root, g, NoHole, Parent(q));
    SlotHolds(mem[ref.ptr], g.ents[Parent(q)], c, ref.idx);
    assert Linked(g, Parent(q), c);
    assert Kid(Parent(q), c) == q;
  }

  /** A new root above a non-empty tree. */
  lemma RaisedRoot(mem: Memory, root: Ptr, g: Graph, p: Ptr)
    requires Inv(mem, root, g, NoHole) && g.ents[Root(g)] != map[] && g.top < MAX_LEVEL && p !in mem
    ensures var g' := ExtendUp(g, p);
            Inv(mem[p := Stored(OneChunk(0), 0, Child(root))], p, g', NoHole) &&
            View(g') == View(g) && g'.top == g.top + 1 && g'.ents[Root(g')] != map[]
  {
    RootNodeRep(root);
    RaisedMemory(mem, root, g, p, Stored(OneChunk(0), 0, Child(root)));
    ExtendUpWf(g, p);
    ExtendUpView(g, p);
  }

  lemma RaisedMemory(mem: Memory, root: Ptr, g: Graph, p: Ptr, n: Node)
    requires MemRep(mem, g) && Root(g) in g.at && root == g.at[Root(g)] && Pos(g.top + 1, 0) !in g.at && p !in mem
    requires Rep(n, map[0 := Child(root)])
    ensures MemRep(mem[p := n], ExtendUp(g, p))
  {
    RaisedTop(mem, g);
    NewNode(mem, g.(top := g.top + 1), Pos(g.top + 1, 0), p, n, map[0 := Child(root)]);
  }

  lemma RootNodeRep(root: Ptr)
    ensures Rep(Stored(OneChunk(0), 0, Child(root)), map[0 := Child(root)])
  {
    OneChunkRep(0);
    StoreSlot(OneChunk(0), map[0 := Unset], 0, 0, Child(root));
    assert map[0 := Unset][0 := Child(root)] == map[0 := Child(root)];
  }

  lemma RaisedTop(mem: Memory, g: Graph)
    requires MemRep(mem, g)
    ensures MemRep(mem, g.(top := g.top + 1))
  {
    var g1 := g.(top := g.top + 1);
    forall q {:trigger Holds(mem, g1, q)} | q in g1.at ensures Holds(mem, g1, q) {
      assert Holds(mem, g, q);
    }
  }

  /** An empty tree is one empty node4 at level 0. */
  lemma EmptyShape(mem: Memory, root: Ptr, g: Graph)
    requires Inv(mem, root, g, NoHole) && View(g) == map[]
    ensures g.top == 0 && g == Single(0, root, map[])
    ensures mem.Keys == {root} && mem[root].Node4? && mem[root].count == 0
  {
    EmptyIffRootEmpty(g);
    NodeHere(mem, root, g, NoHole, Root(g));
    assert forall q :: q in g.at ==> q == Pos(0, 0);
    assert forall p :: p in g.pos ==> p == root;
  }

  /** The empty root takes the first chunk of a key too large for level 0. */
  lemma StartedTree(mem: Memory, root: Ptr, g: Graph, k: Key, l: nat)
    requires Inv(mem, root, g, NoHole) && View(g) == map[] && 0 < l <= MAX_LEVEL && Home(k, l) == Pos(l, 0)
    ensures var g' := Single(l, root, map[Chunk(k, l) := Unset]);
            Awaiting(map[root := OneChunk(Chunk(k, l))], root, g', k, l, root, 0) && View(g') == map[]
  {
    var c := Chunk(k, l);
    SingleRaised(l, root, c);
    OneChunkRep(c);
    var mem', g' := map[root := OneChunk(c)], Single(l, root, map[c := Unset]);
    assert Holds(mem', g', Pos(l, 0));
  }

  /** Writing the value completes the insertion. */
  lemma ValueStored(mem: Memory, root: Ptr, g: Graph, h: Hole, k: Key, i: int, v: Value)
    requires Inv(mem, root, g, h) && Home(k, 0) in g.at && g.at[Home(k, 0)] in mem
    requires SlotIs(mem[g.at[Home(k, 0)]], k % 256, i) && (h == NoHole || h == Hole(Home(k, 0), k % 256))
    ensures var ptr, g' := g.at[Home(k, 0)], SetEntry(g, Home(k, 0), k % 256, Leaf(v));
            Inv(mem[ptr := Stored(mem[ptr], i, Leaf(v))], root, g', NoHole) && View(g') == View(g)[k := v]
    ensures k in View(g) <==> h == NoHole
  {
    var q := Home(k, 0);
    NodeHere(mem, root, g, h, q);
    SlotHolds(mem[g.at[q]], g.ents[q], k % 256, i);
    StoreValue(g, h, k, v);
    WriteKeeps(mem, root, g, h, q, k % 256, i, Leaf(v), NoHole);
  }

  // ---------------------------------------------------------------------------
  // Deletion
  // ---------------------------------------------------------------------------

  /** Positions at level `l` and above kept their nodes. */
  ghost predicate Above(mem: Memory, g: Graph, mem': Memory, g': Graph, l: nat) {
    g'.top == g.top &&
    (forall r :: r in g.at && r.level >= l ==>
       r in g'.at && g'.at[r] == g.at[r] && g.at[r] in mem && g.at[r] in mem' && mem'[g.at[r]] == mem[g.at[r]])
  }

  lemma RemovedInPlace(mem: Memory, root: Ptr, g: Graph, h: Hole, q: Pos, c: uint8, n': Node)
    requires Inv(mem, root, g, h) && Removable(g, h, q, c) && g.ents[q].Keys != {c} && Rep(n', g.ents[q] - {c})
    ensures Inv(mem[g.at[q] := n'], root, DelEntry(g, q, c), NoHole)
    ensures View(DelEntry(g, q, c)) == ViewWithout(g, q, c)
  {
    RemoveEntryWf(g, h, q, c);
    RemoveEntryView(g, h, q, c);
    UpdateKeeps(mem, root, g, h, q, n', g.ents[q] - {c}, NoHole);
  }

  lemma RemovedAndShrunk(mem: Memory, root: Ptr, g: Graph, h: Hole, q: Pos, ref: SlotRef, c: uint8, p: Ptr, n': Node)
    requires Inv(mem, root, g, h) && Removable(g, h, q, c) && g.ents[q].Keys != {c} && Rep(n', g.ents[q] - {c})
    requires SlotFor(mem, g, ref, q) && p !in mem
    ensures var g', mem' := MoveNode(DelEntry(g, q, c), q, p), ReplaceIn(mem, g.at[q], p, n', ref);
            Inv(mem', if ref == RootSlot then p else root, g', NoHole) && g'.top == g.top &&
            View(g') == ViewWithout(g, q, c)
  {
    RemoveEntryWf(g, h, q, c);
    RemoveEntryView(g, h, q, c);
    ReplaceKeeps(mem, root, g, h, q, ref, p, n', g.ents[q] - {c}, NoHole);
    MoveNodeView(DelEntry(g, q, c), NoHole, q, p);
  }

  /** Memory with the node at `ptr` freed and the slot that led to it cleared. */
  function FreeIn(mem: Memory, ptr: Ptr, ref: SlotRef): Memory
    requires ref.NodeSlot? && ref.ptr in mem && ref.ptr != ptr && 0 <= ref.idx < |mem[ref.ptr].children|
  {
    (mem - {ptr})[ref.ptr := Stored(mem[ref.ptr], ref.idx, Unset)]
  }

  lemma FreedKeeps(mem: Memory, root: Ptr, g: Graph, h: Hole, q: Pos, ref: SlotRef, c: uint8)
    requires Inv(mem, root, g, h) && Removable(g, h, q, c) && g.ents[q].Keys == {c}
    requires q.level < g.top && SlotFor(mem, g, ref, q)
    ensures Reached(g, q) && ref.ptr != g.at[q]
    ensures var g', mem' := FreeNode(g, q), FreeIn(mem, g.at[q], ref);
            Inv(mem', root, g', Hole(Parent(q), q.prefix % 256)) && View(g') == ViewWithout(g, q, c) &&
            g'.at[Parent(q)] == ref.ptr && SlotIs(mem'[ref.ptr], q.prefix % 256, ref.idx)
  {
    ParentDiffers(g, h, q);
    ReachedHere(g, h, q);
    NodeHere(mem, root, g, h, Parent(q));
    FreedNode(mem, g, q);
    var mem1, g1 := mem - {g.at[q]}, DropNode(g, q);
    assert Holds(mem1, g1, Parent(q));
    WrittenSlot(mem1, g1, Parent(q), q.prefix % 256, ref.idx, Unset);
    FreeNodeWf(g, h, q, c);
    FreeNodeView(g, h, q, c);
  }

  lemma FreedAbove(mem: Memory, root: Ptr, g: Graph, h: Hole, q: Pos, ref: SlotRef)
    requires Inv(mem, root, g, h) && q in g.at && q.level < g.top && SlotFor(mem, g, ref, q)
    requires Reached(g, q) && ref.ptr != g.at[q]
    ensures Above(mem, g, FreeIn(mem, g.at[q], ref), FreeNode(g, q), q.level + 2)
  {
    forall r | r in g.at && r.level >= q.level + 2
      ensures g.at[r] in mem && g.at[r] != g.at[q] && g.at[r] != ref.ptr
    {
      NodeHere(mem, root, g, h, r);
    }
  }

  lemma OthersDiffer(mem: Memory, root: Ptr, g: Graph, h: Hole, q: Pos, l: nat)
    requires Inv(mem, root, g, h) && q in g.at && q.level < l
    ensures forall r :: r in g.at && r.level >= l ==> g.at[r] in mem && g.at[r] != g.at[q]
  {
    forall r | r in g.at && r.level >= l ensures g.at[r] in mem && g.at[r] != g.at[q] {
      NodeHere(mem, root, g, h, r);
    }
  }

  /** Changing a node in place touches neither its parent's slot nor anything above. */
  lemma InPlaceAbove(mem: Memory, root: Ptr, g: Graph, h: Hole, q: Pos, ref: SlotRef, c: uint8, n': Node)
    requires Inv(mem, root, g, h) && q in g.ents && SlotFor(mem, g, ref, q)
    ensures SlotFor(mem[g.at[q] := n'], DelEntry(g, q, c), ref, q)
    ensures Above(mem, g, mem[g.at[q] := n'], DelEntry(g, q, c), q.level + 2)
  {
    OthersDiffer(mem, root, g, h, q, q.level + 1);
  }

  /** Replacing a node redirects its parent's slot and touches nothing above. */
  lemma ReplacedAbove(mem: Memory, root: Ptr, g: Graph, h: Hole, q: Pos, ref: SlotRef, c: uint8, p: Ptr, n': Node)
    requires Inv(mem, root, g, h) && Removable(g, h, q, c) && SlotFor(mem, g, ref, q) && p !in mem && ref.NodeSlot?
    ensures var g', mem' := MoveNode(DelEntry(g, q, c), q, p), ReplaceIn(mem, g.at[q], p, n', ref);
            SlotFor(mem', g', ref, q) && Above(mem, g, mem', g', q.level + 2)
  {
    OthersDiffer(mem, root, g, h, q, q.level + 1);
    OthersDiffer(mem, root, g, h, Parent(q), q.level + 2);
  }

  lemma RootReset(mem: Memory, root: Ptr, g: Graph, h: Hole, c: uint8, n': Node)
    requires Inv(mem, root, g, h) && Removable(g, h, Root(g), c) && g.ents[Root(g)].Keys == {c} && Rep(n', map[])
    ensures Inv(mem[root := n'], root, Single(0, root, map[]), NoHole)
    ensures View(Single(0, root, map[])) == ViewWithout(g, Root(g), c)
  {
    OnlyRoot(g, h, c);
    SingleEmpty(root);
    assert forall p :: p in g.pos ==> p == root;
    var mem', g' := mem[root := n'], Single(0, root, map[]);
    assert Holds(mem', g', Pos(0, 0));
  }

  lemma OnlyEntry(n: Node, m: Entries, c: uint8)
    requires Rep(n, m) && n.Node4? && n.count == 1 && c in m
    ensures m.Keys == {c}
  {
    assert forall d :: d in m ==> n.chunks[..1][0] == d;
  }

  lemma SeveralEntries(n: Node, m: Entries, c: uint8)
    requires Rep(n, m) && c in m && !(n.Node4? && n.count == 1)
    ensures |m| > 1 && m.Keys != {c}
  {
    assert |m.Keys| == |m|;
    assert m.Keys - {c} != m.Keys;
  }

  /** A node4 with its count set to zero. */
  function Emptied(n: Node): Node
    requires n.Node4?
  {
    Node4(n.fanout, 0, n.chunks, n.children)
  }

  lemma EmptiedRep(n: Node, m: Entries)
    requires Rep(n, m) && n.Node4?
    ensures Rep(Emptied(n), map[])
  {
  }

  predicate SameKind(n: Node, n': Node) {
    (n.Node4? && n'.Node4?) || (n.Node16? && n'.Node16?) || (n.Node48? && n'.Node48?) || (n.Node256? && n'.Node256?)
  }

  /** At level 0 the key's chunk is a removable entry. */
  lemma DeletesKey(g: Graph, k: Key)
    requires Wf(g, NoHole) && k in View(g)
    ensures Removable(g, NoHole, Home(k, 0), Chunk(k, 0)) && KeyAt(Home(k, 0), Chunk(k, 0)) == k
    ensures ViewWithout(g, Home(k, 0), Chunk(k, 0)) == View(g) - {k}
  {
    HomeZero(k);
    assert Shr(k, 0) == k;
    assert Has(g, k);
  }

  lemma NotBelow(k: nat, a: nat, b: nat)
    requires Shr(k, a + 1) == 0 && Shr(k, b + 1) != 0
    ensures b < a
  {
    if a <= b {
      ShrZero(k, a + 1, b + 1);
    }
  }

  /** A key beyond the tree's height needs a taller tree, of one of the eight levels. */
  lemma TallEnough(k: Key, l: nat)
    requires k > MaxVal(l)
    ensures l < KeyLevel(k) <= MAX_LEVEL && k <= MaxVal(KeyLevel(k)) && Home(k, KeyLevel(k)) == Pos(KeyLevel(k), 0)
  {
    KeyLevelBound(k);
    KeyLevelLeast(k);
    FitsIff(k, KeyLevel(k));
    FitsIff(k, l);
    NotBelow(k, KeyLevel(k), l);
  }
}
