/**
 The adaptive radix tree: a mutable ordered map from 64-bit keys to values.

 The control block holds the root pointer, the height and the node store; the store
 maps addresses to nodes, so that allocating, freeing and redirecting a parent's slot
 are visible.  The ghost graph `g` records which node is at which position.  The
 internal operations take the control block and return it changed; the class `RadixTree`
 at the end holds it and updates it in place, and `Contents()` is the map it stands for.
*/
module RadixTree {
  import opened Common
  import opened RadixNode
  import opened RadixInsert
  import opened RadixRemove
  import opened RadixKey
  import opened RadixGraph
  import opened RadixSteps
  import opened RadixMemory
  import opened RadixUpdate

  datatype Control = Control(mem: Memory, root: Ptr, startLevel: nat, maxVal: int)

  /** The control block stands for the graph, with at most one reserved or cleared slot. */
  ghost predicate Good(t: Control, g: Graph, h: Hole) {
    Inv(t.mem, t.root, g, h) && t.startLevel == g.top && t.maxVal == MaxVal(t.startLevel)
  }

  method FreshPtr(mem: Memory) returns (p: Ptr)
    ensures p !in mem
  {
    FreshAddress(mem.Keys);
    p :| p !in mem;
  }

  /** The address a slot holds. */
  method Follow(t: Control, ref: SlotRef, ghost g: Graph, ghost q: Pos) returns (ptr: Ptr)
    requires Good(t, g, NoHole) && SlotFor(t.mem, g, ref, q)
    ensures ptr == g.at[q] && ptr in t.mem && q in g.ents && Rep(t.mem[ptr], g.ents[q])
  {
    NodeHere(t.mem, t.root, g, NoHole, q);
    if ref == RootSlot {
      ptr := t.root;
    } else {
      ChildPtrIs(t.mem, t.root, g, ref, q);
      ptr := t.mem[ref.ptr].children[ref.idx].ptr;
    }
  }

  // ---------------------------------------------------------------------------
  // Find
  // ---------------------------------------------------------------------------

  method FindIn(t: Control, key: Key, ghost g: Graph) returns (r: Option<Value>)
    requires Good(t, g, NoHole)
    ensures r == if key in View(g) then Some(View(g)[key]) else None
  {
    if key > t.maxVal {
      NotStored(g, key);
      return None;
    }
    FitsRoot(g, NoHole, key);
    r := None;
    var ptr, level := t.root, t.startLevel as int;
    while level >= 0
      invariant -1 <= level <= t.startLevel
      invariant level >= 0 ==> Home(key, level) in g.at && ptr == g.at[Home(key, level)]
      invariant level < 0 ==> r.Some? && key in View(g) && r.value == View(g)[key]
    {
      NodeHere(t.mem, t.root, g, NoHole, Home(key, level));
      var i := Search(t.mem[ptr], Chunk(key, level), g.ents[Home(key, level)]);
      if i < 0 {
        MissingChunk(g, NoHole, key, level);
        return None;
      }
      var slot := t.mem[ptr].children[i];
      FollowSlot(t.mem, t.root, g, key, level, i);
      if level == 0 {
        r := Some(slot.value);
      } else {
        ptr := slot.ptr;
      }
      level := level - 1;
    }
  }

  // ---------------------------------------------------------------------------
  // Set
  // ---------------------------------------------------------------------------

  /** Reserve a slot for chunk `c` in the node at `q`, growing the node when it is full. */
  method InsertChunk(t: Control, ref: SlotRef, ptr: Ptr, c: uint8, ghost g: Graph, ghost q: Pos)
    returns (t': Control, ptr': Ptr, i: int, ghost g': Graph)
    requires Good(t, g, NoHole) && SlotFor(t.mem, g, ref, q) && ptr == g.at[q]
    requires q in g.ents && c !in g.ents[q]
    ensures Good(t', g', Hole(q, c)) && View(g') == View(g)
    ensures q in g'.at && ptr' == g'.at[q] && ptr' in t'.mem && SlotIs(t'.mem[ptr'], c, i)
  {
    NodeHere(t.mem, t.root, g, NoHole, q);
    var n := t.mem[ptr];
    var n', p := NodeInsert(n, c, g.ents[q]);
    i := p;
    if MustGrow(n) {
      ptr' := FreshPtr(t.mem);
      GrownChunk(t.mem, t.root, g, q, ref, ptr', n', c);
      t' := t.(mem := ReplaceIn(t.mem, ptr, ptr', n', ref), root := if ref == RootSlot then ptr' else t.root);
      g' := MoveNode(SetEntry(g, q, c, Unset), q, ptr');
    } else {
      ptr' := ptr;
      AddedChunk(t.mem, t.root, g, q, n', c);
      t' := t.(mem := t.mem[ptr := n']);
      g' := SetEntry(g, q, c, Unset);
    }
  }

  /** The key's path is in place down to level `l`, where the slot for its chunk is reserved. */
  ghost predicate Reserved(t: Control, g: Graph, key: Key, l: nat, ptr: Ptr, i: int) {
    Good(t, g, Hole(Home(key, l), Chunk(key, l))) && Awaiting(t.mem, t.root, g, key, l, ptr, i)
  }

  /** Fill a hole above level 0 with a chain of one-chunk nodes down to the key's level-0 slot. */
  method ExtendPath(t: Control, ptr: Ptr, i: int, key: Key, level: nat, ghost g: Graph)
    returns (t': Control, ptr': Ptr, i': int, ghost g': Graph)
    requires Reserved(t, g, key, level, ptr, i)
    ensures Reserved(t', g', key, 0, ptr', i') && View(g') == View(g)
  {
    t', ptr', i', g' := t, ptr, i, g;
    var l := level;
    while l > 0
      invariant Reserved(t', g', key, l, ptr', i') && View(g') == View(g)
    {
      t', ptr', g' := ExtendOne(t', ptr', i', key, l, g');
      i', l := 0, l - 1;
    }
  }

  /** Allocate the next node of the chain and link it. */
  method ExtendOne(t: Control, ptr: Ptr, i: int, key: Key, l: nat, ghost g: Graph)
    returns (t': Control, p: Ptr, ghost g': Graph)
    requires l > 0 && Reserved(t, g, key, l, ptr, i)
    ensures Reserved(t', g', key, l - 1, p, 0) && View(g') == View(g)
  {
    p := FreshPtr(t.mem);
    ChainedNode(t.mem, t.root, g, key, l, ptr, i, p);
    t' := t.(mem := Chain(t.mem, ptr, i, p, Chunk(key, l - 1)));
    g' := ExtendDown(g, Home(key, l), Chunk(key, l), p, Chunk(key, l - 1));
  }

  /** Reserve a slot for a key whose path ends at this node, and the path down to level 0. */
  method NewSlot(t: Control, ref: SlotRef, at: Ptr, key: Key, level: nat, ghost g: Graph)
    returns (t': Control, ptr: Ptr, i: int, ghost g': Graph)
    requires Good(t, g, NoHole) && SlotFor(t.mem, g, ref, Home(key, level)) && at == g.at[Home(key, level)]
    requires at in t.mem && Home(key, level) in g.ents && Chunk(key, level) !in g.ents[Home(key, level)]
    ensures Good(t', g', Hole(Home(key, 0), key % 256)) && View(g') == View(g)
    ensures Home(key, 0) in g'.at && ptr == g'.at[Home(key, 0)] && ptr in t'.mem && SlotIs(t'.mem[ptr], key % 256, i)
  {
    t', ptr, i, g' := InsertChunk(t, ref, at, Chunk(key, level), g, Home(key, level));
    t', ptr, i, g' := ExtendPath(t', ptr, i, key, level, g');
    assert Shr(key, 0) == key;
  }

  /** Find the key's level-0 slot, reserving it and the path to it when the key is new. */
  method GetSlot(t: Control, ref: SlotRef, key: Key, level: nat, ghost g: Graph)
    returns (t': Control, ptr: Ptr, i: int, found: bool, ghost g': Graph)
    requires Good(t, g, NoHole) && SlotFor(t.mem, g, ref, Home(key, level))
    ensures Good(t', g', if found then NoHole else Hole(Home(key, 0), key % 256)) && View(g') == View(g)
    ensures Home(key, 0) in g'.at && ptr == g'.at[Home(key, 0)] && ptr in t'.mem && SlotIs(t'.mem[ptr], key % 256, i)
    decreases level
  {
    var c := Chunk(key, level);
    ptr := Follow(t, ref, g, Home(key, level));
    i := Search(t.mem[ptr], c, g.ents[Home(key, level)]);
    if i < 0 {
      found := false;
      t', ptr, i, g' := NewSlot(t, ref, ptr, key, level, g);
    } else if level == 0 {
      found, t', g' := true, t, g;
      assert Shr(key, 0) == key;
    } else {
      FollowSlot(t.mem, t.root, g, key, level, i);
      HomeKid(key, level);
      t', ptr, i, found, g' := GetSlot(t, NodeSlot(ptr, i), key, level - 1, g);
    }
  }

  /** Put new roots on top until the tree is tall enough for the key. */
  method ExtendUpTo(t: Control, key: Key, ghost g: Graph) returns (t': Control, ghost g': Graph)
    requires Good(t, g, NoHole) && View(g) != map[] && key > t.maxVal
    ensures Good(t', g', NoHole) && View(g') == View(g) && key <= t'.maxVal
  {
    var target := KeyLevel(key);
    TallEnough(key, t.startLevel);
    EmptyIffRootEmpty(g);
    t', g' := t, g;
    var level := t.startLevel;
    while level < target
      invariant Inv(t'.mem, t'.root, g', NoHole) && level == g'.top <= target
      invariant View(g') == View(g) && g'.ents[Root(g')] != map[]
    {
      var p := FreshPtr(t'.mem);
      RaisedRoot(t'.mem, t'.root, g', p);
      t' := t'.(mem := t'.mem[p := Stored(OneChunk(0), 0, Child(t'.root))], root := p);
      g' := ExtendUp(g', p);
      level := level + 1;
    }
    t' := t'.(startLevel := target, maxVal := MaxVal(target));
  }

  /** The first key of an empty tree, when it does not fit at level 0. */
  method StartTree(t: Control, key: Key, ghost g: Graph) returns (t': Control, ptr: Ptr, i: int, ghost g': Graph)
    requires Good(t, g, NoHole) && View(g) == map[] && key > t.maxVal
    ensures Good(t', g', Hole(Home(key, 0), key % 256)) && View(g') == map[]
    ensures ptr == g'.at[Home(key, 0)] && ptr in t'.mem && SlotIs(t'.mem[ptr], key % 256, i)
  {
    var level := KeyLevel(key);
    TallEnough(key, t.startLevel);
    EmptyShape(t.mem, t.root, g);
    StartedTree(t.mem, t.root, g, key, level);
    t' := Control(map[t.root := OneChunk(Chunk(key, level))], t.root, level, MaxVal(level));
    g' := Single(level, t.root, map[Chunk(key, level) := Unset]);
    t', ptr, i, g' := ExtendPath(t', t.root, 0, key, level, g');
    assert Shr(key, 0) == key;
  }

  method SetIn(t: Control, noKeys: bool, key: Key, v: Value, ghost g: Graph)
    returns (t': Control, found: bool, ghost g': Graph)
    requires Good(t, g, NoHole) && (noKeys <==> View(g) == map[])
    ensures Good(t', g', NoHole) && View(g') == View(g)[key := v]
    ensures found <==> key in View(g)
  {
    var ptr, i;
    if key > t.maxVal && noKeys {
      found := false;
      t', ptr, i, g' := StartTree(t, key, g);
    } else {
      t', g' := t, g;
      if key > t.maxVal {
        t', g' := ExtendUpTo(t, key, g);
      }
      FitsRoot(g', NoHole, key);
      t', ptr, i, found, g' := GetSlot(t', RootSlot, key, t'.startLevel, g');
    }
    ValueStored(t'.mem, t'.root, g', if found then NoHole else Hole(Home(key, 0), key % 256), key, i, v);
    t' := t'.(mem := t'.mem[ptr := Stored(t'.mem[ptr], i, Leaf(v))]);
    g' := SetEntry(g', Home(key, 0), key % 256, Leaf(v));
  }

  // ---------------------------------------------------------------------------
  // Delete
  // ---------------------------------------------------------------------------

  /**
   Take chunk `c` out of the node at `q`.  The last chunk of the root leaves an empty
   tree; the last chunk of another node frees it and clears the slot that led to it.
  */
  method RemoveChunk(t: Control, ref: SlotRef, ptr: Ptr, i: int, c: uint8, ghost g: Graph, ghost q: Pos, ghost h: Hole)
    returns (t': Control, ghost freed: bool, ghost g': Graph)
    requires Good(t, g, h) && Removable(g, h, q, c)
    requires SlotFor(t.mem, g, ref, q) && ptr == g.at[q] && ptr in t.mem && SlotIs(t.mem[ptr], c, i)
    ensures View(g') == ViewWithout(g, q, c) && Outcome(t, g, t', g', ref, q, freed)
  {
    NodeHere(t.mem, t.root, g, h, q);
    var n := t.mem[ptr];
    freed := false;
    if n.Node4? && n.count == 1 {
      OnlyEntry(n, g.ents[q], c);
      if ref == RootSlot {
        EmptiedRep(n, g.ents[q]);
        RootReset(t.mem, t.root, g, h, c, Emptied(n));
        t' := Control(t.mem[ptr := Emptied(n)], t.root, 0, MaxVal(0));
        g' := Single(0, t.root, map[]);
      } else {
        FreedKeeps(t.mem, t.root, g, h, q, ref, c);
        FreedAbove(t.mem, t.root, g, h, q, ref);
        t' := t.(mem := FreeIn(t.mem, ptr, ref));
        g' := FreeNode(g, q);
        freed := true;
      }
    } else {
      t', g' := RemoveKeepingNode(t, ref, ptr, i, c, g, q, h);
    }
  }

  /** The node at `q` is gone and the slot that led to it is the hole. */
  ghost predicate Cleared(t: Control, g: Graph, ref: SlotRef, q: Pos) {
    q.level < g.top && Good(t, g, Hole(Parent(q), q.prefix % 256)) &&
    ref.NodeSlot? && ref.ptr in t.mem && g.at[Parent(q)] == ref.ptr &&
    SlotIs(t.mem[ref.ptr], q.prefix % 256, ref.idx)
  }

  /**
   What removing something below slot `ref` leaves: the slot cleared and the node at `q`
   gone, or the slot still leading to `q`; nodes above the slot's own are untouched.
  */
  ghost predicate Outcome(t: Control, g: Graph, t': Control, g': Graph, ref: SlotRef, q: Pos, freed: bool) {
    (freed ==> Cleared(t', g', ref, q)) &&
    (!freed ==> Good(t', g', NoHole) && (ref.NodeSlot? ==> SlotFor(t'.mem, g', ref, q))) &&
    (ref.NodeSlot? ==> Above(t.mem, g, t'.mem, g', q.level + 2))
  }

  method RemoveKeepingNode(t: Control, ref: SlotRef, ptr: Ptr, i: int, c: uint8, ghost g: Graph, ghost q: Pos,
                           ghost h: Hole)
    returns (t': Control, ghost g': Graph)
    requires Good(t, g, h) && Removable(g, h, q, c)
    requires SlotFor(t.mem, g, ref, q) && ptr == g.at[q] && ptr in t.mem && SlotIs(t.mem[ptr], c, i)
    requires !(t.mem[ptr].Node4? && t.mem[ptr].count == 1)
    ensures View(g') == ViewWithout(g, q, c) && Outcome(t, g, t', g', ref, q, false)
  {
    NodeHere(t.mem, t.root, g, h, q);
    var n := t.mem[ptr];
    SeveralEntries(n, g.ents[q], c);
    var n' := NodeDelete(n, c, i, g.ents[q]);
    if SameKind(n, n') {
      KeptInPlace(t, g, h, q, ref, c, n');
      t' := t.(mem := t.mem[ptr := n']);
      g' := DelEntry(g, q, c);
    } else {
      var p := FreshPtr(t.mem);
      KeptShrunk(t, g, h, q, ref, c, p, n');
      t' := t.(mem := ReplaceIn(t.mem, ptr, p, n', ref), root := if ref == RootSlot then p else t.root);
      g' := MoveNode(DelEntry(g, q, c), q, p);
    }
  }

  lemma KeptInPlace(t: Control, g: Graph, h: Hole, q: Pos, ref: SlotRef, c: uint8, n': Node)
    requires Good(t, g, h) && Removable(g, h, q, c) && g.ents[q].Keys != {c} && Rep(n', g.ents[q] - {c})
    requires SlotFor(t.mem, g, ref, q)
    ensures var t', g' := t.(mem := t.mem[g.at[q] := n']), DelEntry(g, q, c);
            View(g') == ViewWithout(g, q, c) && Outcome(t, g, t', g', ref, q, false)
  {
    RemovedInPlace(t.mem, t.root, g, h, q, c, n');
    InPlaceAbove(t.mem, t.root, g, h, q, ref, c, n');
  }

  lemma KeptShrunk(t: Control, g: Graph, h: Hole, q: Pos, ref: SlotRef, c: uint8, p: Ptr, n': Node)
    requires Good(t, g, h) && Removable(g, h, q, c) && g.ents[q].Keys != {c} && Rep(n', g.ents[q] - {c})
    requires SlotFor(t.mem, g, ref, q) && p !in t.mem
    ensures var t' := t.(mem := ReplaceIn(t.mem, g.at[q], p, n', ref), root := if ref == RootSlot then p else t.root);
            var g' := MoveNode(DelEntry(g, q, c), q, p);
            View(g') == ViewWithout(g, q, c) && Outcome(t, g, t', g', ref, q, false)
  {
    RemovedAndShrunk(t.mem, t.root, g, h, q, ref, c, p, n');
    if ref.NodeSlot? {
      ReplacedAbove(t.mem, t.root, g, h, q, ref, c, p, n');
    }
  }

  method DeleteRecursive(t: Control, ref: SlotRef, key: Key, level: nat, ghost g: Graph)
    returns (t': Control, deleted: bool, ghost freed: bool, ghost g': Graph)
    requires Good(t, g, NoHole) && SlotFor(t.mem, g, ref, Home(key, level))
    ensures deleted <==> key in View(g)
    ensures View(g') == View(g) - {key}
    ensures Outcome(t, g, t', g', ref, Home(key, level), freed)
    decreases level, 1
  {
    var ptr := Follow(t, ref, g, Home(key, level));
    var i := Search(t.mem[ptr], Chunk(key, level), g.ents[Home(key, level)]);
    if i < 0 {
      NothingDeleted(t, ref, key, level, g);
      t', deleted, freed, g' := t, false, false, g;
    } else if level == 0 {
      t', freed, g' := DeleteAtLeaf(t, ref, ptr, i, key, g);
      deleted := true;
    } else {
      t', deleted, freed, g' := DeleteBelow(t, ref, ptr, i, key, level, g);
    }
  }

  /** Above the lowest level the key is deleted below the slot of its chunk, which is taken out if that cleared it. */
  method DeleteBelow(t: Control, ref: SlotRef, ptr: Ptr, i: int, key: Key, level: nat, ghost g: Graph)
    returns (t': Control, deleted: bool, ghost freed: bool, ghost g': Graph)
    requires Good(t, g, NoHole) && level > 0 && SlotFor(t.mem, g, ref, Home(key, level)) && Home(key, level) in g.at
    requires ptr == g.at[Home(key, level)] && ptr in t.mem && SlotIs(t.mem[ptr], Chunk(key, level), i)
    ensures deleted <==> key in View(g)
    ensures View(g') == View(g) - {key}
    ensures Outcome(t, g, t', g', ref, Home(key, level), freed)
    decreases level, 0
  {
    ChildSlot(t, ptr, i, key, level, g);
    t', deleted, freed, g' := DeleteRecursive(t, NodeSlot(ptr, i), key, level - 1, g);
    t', freed, g' := DropEmptied(t, g, t', g', ref, ptr, i, key, level, freed);
  }

  lemma ChildSlot(t: Control, ptr: Ptr, i: int, key: Key, level: nat, g: Graph)
    requires Good(t, g, NoHole) && level > 0 && Home(key, level) in g.at && ptr == g.at[Home(key, level)]
    requires ptr in t.mem && SlotIs(t.mem[ptr], Chunk(key, level), i)
    ensures SlotFor(t.mem, g, NodeSlot(ptr, i), Home(key, level - 1))
  {
    FollowSlot(t.mem, t.root, g, key, level, i);
    HomeKid(key, level);
  }

  lemma NothingDeleted(t: Control, ref: SlotRef, key: Key, level: nat, g: Graph)
    requires Good(t, g, NoHole) && SlotFor(t.mem, g, ref, Home(key, level)) && Home(key, level) in g.ents
    requires Chunk(key, level) !in g.ents[Home(key, level)]
    ensures key !in View(g) && View(g) == View(g) - {key}
    ensures Outcome(t, g, t, g, ref, Home(key, level), false)
  {
    MissingChunk(g, NoHole, key, level);
  }

  /** At the lowest level the key's chunk is taken out of its node. */
  method DeleteAtLeaf(t: Control, ref: SlotRef, ptr: Ptr, i: int, key: Key, ghost g: Graph)
    returns (t': Control, ghost freed: bool, ghost g': Graph)
    requires Good(t, g, NoHole) && SlotFor(t.mem, g, ref, Home(key, 0)) && Home(key, 0) in g.ents
    requires ptr == g.at[Home(key, 0)] && ptr in t.mem && SlotIs(t.mem[ptr], Chunk(key, 0), i)
    requires Chunk(key, 0) in g.ents[Home(key, 0)]
    ensures key in View(g) && View(g') == View(g) - {key} && Outcome(t, g, t', g', ref, Home(key, 0), freed)
  {
    FollowSlot(t.mem, t.root, g, key, 0, i);
    DeletesKey(g, key);
    t', freed, g' := RemoveChunk(t, ref, ptr, i, Chunk(key, 0), g, Home(key, 0), NoHole);
  }

  /** Back from the level below: a slot that was cleared there is taken out here. */
  method DropEmptied(ghost t: Control, ghost g: Graph, t1: Control, ghost g1: Graph, ref: SlotRef, ptr: Ptr, i: int,
                     key: Key, level: nat, ghost below: bool)
    returns (t': Control, ghost freed: bool, ghost g': Graph)
    requires level > 0 && Good(t, g, NoHole) && SlotFor(t.mem, g, ref, Home(key, level)) &&
      ptr == g.at[Home(key, level)]
    requires Outcome(t, g, t1, g1, NodeSlot(ptr, i), Home(key, level - 1), below)
    ensures View(g') == View(g1) && Outcome(t, g, t', g', ref, Home(key, level), freed)
  {
    var c := Chunk(key, level);
    AfterChild(t, g, t1, g1, ref, ptr, i, key, level, below);
    t', freed, g' := t1, false, g1;
    if t1.mem[ptr].children[i].Unset? {
      t', freed, g' := RemoveChunk(t1, ref, ptr, i, c, g1, Home(key, level), Hole(Home(key, level), c));
      AboveTrans(t.mem, g, t1.mem, g1, t'.mem, g', level, ref);
    }
  }

  lemma AboveTrans(mem: Memory, g: Graph, mem1: Memory, g1: Graph, mem2: Memory, g2: Graph, l: nat, ref: SlotRef)
    requires Above(mem, g, mem1, g1, l + 1)
    ensures ref.NodeSlot? && Above(mem1, g1, mem2, g2, l + 2) ==> Above(mem, g, mem2, g2, l + 2)
  {
  }

  /** Back at a node after deleting below its slot `i`: the slot is either the hole or still linked. */
  lemma AfterChild(t: Control, g: Graph, t': Control, g': Graph, ref: SlotRef, ptr: Ptr, i: int,
                   key: Key, level: nat, freed: bool)
    requires level > 0 && Good(t, g, NoHole) && SlotFor(t.mem, g, ref, Home(key, level)) &&
      ptr == g.at[Home(key, level)]
    requires Outcome(t, g, t', g', NodeSlot(ptr, i), Home(key, level - 1), freed)
    ensures ptr in t'.mem && 0 <= i < |t'.mem[ptr].children| && SlotFor(t'.mem, g', ref, Home(key, level))
    ensures ptr == g'.at[Home(key, level)] && SlotIs(t'.mem[ptr], Chunk(key, level), i)
    ensures Above(t.mem, g, t'.mem, g', level + 1)
    ensures t'.mem[ptr].children[i].Unset? <==> freed
    ensures freed ==> Good(t', g', Hole(Home(key, level), Chunk(key, level)))
    ensures freed ==> Removable(g', Hole(Home(key, level), Chunk(key, level)), Home(key, level), Chunk(key, level))
    ensures freed ==> ViewWithout(g', Home(key, level), Chunk(key, level)) == View(g')
    ensures !freed ==> Good(t', g', NoHole)
  {
    HomeKid(key, level);
    if freed {
      ClearedHere(t', g', NodeSlot(ptr, i), Home(key, level - 1));
    } else {
      ChildPtrIs(t'.mem, t'.root, g', NodeSlot(ptr, i), Home(key, level - 1));
    }
  }

  /** The cleared slot holds nothing, and taking it out of its node changes no binding. */
  lemma ClearedHere(t: Control, g: Graph, ref: SlotRef, q: Pos)
    requires Cleared(t, g, ref, q)
    ensures var p, c := Parent(q), q.prefix % 256;
            t.mem[ref.ptr].children[ref.idx].Unset? && Removable(g, Hole(p, c), p, c) &&
            ViewWithout(g, p, c) == View(g)
  {
    var p, c := Parent(q), q.prefix % 256;
    NodeHere(t.mem, t.root, g, Hole(p, c), p);
    SlotHolds(t.mem[ref.ptr], g.ents[p], c, ref.idx);
  }

  method DeleteIn(t: Control, key: Key, ghost g: Graph) returns (t': Control, deleted: bool, ghost g': Graph)
    requires Good(t, g, NoHole)
    ensures Good(t', g', NoHole) && View(g') == View(g) - {key}
    ensures deleted <==> key in View(g)
  {
    if key > t.maxVal {
      NotStored(g, key);
      return t, false, g;
    }
    FitsRoot(g, NoHole, key);
    ghost var freed;
    t', deleted, freed, g' := DeleteRecursive(t, RootSlot, key, t.startLevel, g);
  }

  // ---------------------------------------------------------------------------
  // The tree as an object
  // ---------------------------------------------------------------------------

  class RadixTree {
    var ctl: Control
    var numKeys: int
    ghost var g: Graph

    ghost predicate Valid()
      reads this
    {
      Good(ctl, g, NoHole) && numKeys == |View(g)|
    }

    /** The map the tree stands for. */
    ghost function Contents(): map<Key, Value>
      reads this
    {
      View(g)
    }

    constructor ()
      ensures Valid() && Contents() == map[]
    {
      ctl := Control(map[0 := EmptyNode4()], 0, 0, MaxVal(0));
      numKeys := 0;
      g := Single(0, 0, map[]);
      StartsEmpty(0);
    }

    /** The value bound to the key, if any. */
    method Find(key: Key) returns (r: Option<Value>)
      requires Valid()
      ensures r == if key in Contents() then Some(Contents()[key]) else None
    {
      r := FindIn(ctl, key, g);
    }

    /** Bind the key to the value; the result says whether the key was there before. */
    method Set(key: Key, v: Value) returns (found: bool)
      requires Valid()
      modifies this
      ensures Valid()
      ensures Contents() == old(Contents())[key := v]
      ensures found <==> key in old(Contents())
    {
      ghost var g';
      var t';
      t', found, g' := SetIn(ctl, numKeys == 0, key, v, g);
      ctl, g := t', g';
      if !found {
        numKeys := numKeys + 1;
      }
    }

    /** Remove the key; the result says whether it was there. */
    method Delete(key: Key) returns (deleted: bool)
      requires Valid()
      modifies this
      ensures Valid()
      ensures Contents() == old(Contents()) - {key}
      ensures deleted <==> key in old(Contents())
    {
      ghost var g';
      var t';
      t', deleted, g' := DeleteIn(ctl, key, g);
      SizeWithout(View(g), key);
      ctl, g := t', g';
      if deleted {
        numKeys := numKeys - 1;
      }
    }
  }

  lemma SizeWithout(m: map<Key, Value>, k: Key)
    ensures |m - {k}| == if k in m then |m| - 1 else |m|
  {
    assert (m - {k}).Keys == m.Keys - {k};
  }
}
