/**
 Ordered iteration over the radix tree with an explicit stack of per-level cursors and
 a key that is assembled chunk by chunk.

 A cursor stands for the next chunk its node has still to offer, so the cursor at the
 current level splits the stored keys in two: those already produced (`Produced`) and
 those still to come.  Moving down or up the stack leaves that split where it is, and
 producing a key moves it past exactly that key.
*/
module RadixIter {
  import opened Common
  import opened RadixNode
  import opened RadixKey
  import opened RadixGraph
  import opened RadixSteps
  import opened RadixMemory
  import opened RadixUpdate
  import opened RadixTree

  // ---------------------------------------------------------------------------
  // Replacing one chunk of a key
  // ---------------------------------------------------------------------------

  /** `k` with its chunk at level `l` replaced by `c`. */
  function SetChunk(k: nat, l: nat, c: uint8): nat {
    if l == 0 then k / 256 * 256 + c else SetChunk(k / 256, l - 1, c) * 256 + k % 256
  }

  lemma {:induction false} SetChunkShr(k: nat, l: nat, c: uint8)
    ensures Shr(SetChunk(k, l, c), l) == Shr(k, l + 1) * 256 + c
    ensures Shr(SetChunk(k, l, c), l + 1) == Shr(k, l + 1)
  {
    var k' := SetChunk(k, l, c);
    if l > 0 {
      assert k' / 256 == SetChunk(k / 256, l - 1, c);
      SetChunkShr(k / 256, l - 1, c);
      ShrInner(k', l - 1);
      ShrInner(k, l);
      ShrInner(k', l);
    } else {
      assert Shr(k, 1) == k / 256;
    }
  }

  lemma {:induction false} ShrAgree(a: nat, b: nat, l: nat, l': nat)
    requires Shr(a, l) == Shr(b, l) && l <= l'
    ensures Shr(a, l') == Shr(b, l')
    decreases l'
  {
    if l < l' {
      ShrAgree(a, b, l, l' - 1);
    }
  }

  lemma SetChunkFits(k: Key, l: nat, c: uint8, top: nat)
    requires l <= top <= MAX_LEVEL && Shr(k, top + 1) == 0
    ensures Shr(SetChunk(k, l, c), top + 1) == 0 && SetChunk(k, l, c) < KEY_LIMIT
  {
    var k' := SetChunk(k, l, c);
    SetChunkShr(k, l, c);
    ShrAgree(k', k, l + 1, top + 1);
    FitsIff(k', top);
    MaxValMono(top, MAX_LEVEL);
    TopMax();
  }

  // ---------------------------------------------------------------------------
  // A cursor over one node
  // ---------------------------------------------------------------------------

  /** Is `idx` a cursor of node `n`? */
  ghost predicate CursorOk(n: Node, idx: nat) {
    match n
    case Node4(_, count, chunks, _) => idx <= count <= |chunks|
    case Node16(_, count, chunks, _) => idx <= count <= |chunks| && count <= 256
    case Node48(_, _, _, _, _) => idx <= 256
    case Node256(_, _, _, _) => idx <= 256
  }

  /** The least chunk the cursor has not passed. */
  ghost function NextChunk(n: Node, idx: nat): int
    requires CursorOk(n, idx)
  {
    match n
    case Node4(_, _, chunks, _) => if idx == 0 then 0 else chunks[idx - 1] + 1
    case Node16(_, _, chunks, _) => if idx == 0 then 0 else chunks[idx - 1] + 1
    case Node48(_, _, _, _, _) => idx
    case Node256(_, _, _, _) => idx
  }

  /** What advancing a cursor of node `n` gives: the least used chunk it has not passed, or none. */
  ghost predicate Advanced(n: Node, m: Entries, idx: nat, more: bool, c: uint8, i: int, idx': nat) {
    CursorOk(n, idx) && CursorOk(n, idx') && idx' <= 256 &&
    (!more ==> idx' == idx && forall d :: d in m ==> d < NextChunk(n, idx)) &&
    (more ==> idx < idx' && SlotIs(n, c, i) && NextChunk(n, idx') == c + 1 && NextChunk(n, idx) <= c &&
              forall d :: d in m && NextChunk(n, idx) <= d ==> c <= d)
  }

  method NodeNext(n: Node, idx: nat, ghost m: Entries) returns (more: bool, c: uint8, i: int, idx': nat)
    requires Rep(n, m) && CursorOk(n, idx)
    ensures Advanced(n, m, idx, more, c, i, idx')
  {
    match n {
      case Node4(_, _, _, _) => more, c, i, idx' := NextSorted(n, idx, m);
      case Node16(_, _, _, _) => more, c, i, idx' := NextSorted(n, idx, m);
      case Node48(_, _, _, _, _) => more, c, i, idx' := Next48(n, idx, m);
      case Node256(_, _, _, _) => more, c, i, idx' := Next256(n, idx, m);
    }
  }

  method NextSorted(n: Node, idx: nat, ghost m: Entries) returns (more: bool, c: uint8, i: int, idx': nat)
    requires Rep(n, m) && CursorOk(n, idx) && (n.Node4? || n.Node16?)
    ensures Advanced(n, m, idx, more, c, i, idx')
  {
    SortedAdvanced(n, m, idx);
    if idx < n.count {
      more, c, i, idx' := true, n.chunks[idx], idx, idx + 1;
    } else {
      more, c, i, idx' := false, 0, 0, idx;
    }
  }

  lemma SortedAdvanced(n: Node, m: Entries, idx: nat)
    requires Rep(n, m) && CursorOk(n, idx) && (n.Node4? || n.Node16?)
    ensures idx < n.count ==> Advanced(n, m, idx, true, n.chunks[idx], idx, idx + 1)
    ensures idx == n.count ==> Advanced(n, m, idx, false, 0, 0, idx)
  {
    match n {
      case Node4(_, count, chunks, children) => SortedNext(chunks, children, count, m, idx);
      case Node16(_, count, chunks, children) => SortedNext(chunks, children, count, m, idx);
    }
  }

  /** In a sorted chunk array the chunk at the cursor is the least one not passed. */
  lemma SortedNext(chunks: seq<uint8>, children: seq<Slot>, count: nat, m: Entries, idx: nat)
    requires idx <= count <= |chunks| && count <= |children| && RepArrays(chunks[..count], children[..count], m)
    ensures idx < count ==> (idx == 0 || chunks[idx - 1] < chunks[idx]) &&
                            forall d :: d in m && (idx == 0 || chunks[idx - 1] < d) ==> chunks[idx] <= d
    ensures idx == count ==> forall d :: d in m ==> idx > 0 && d <= chunks[idx - 1]
  {
    var ks := chunks[..count];
    AscendingChunks(ks, children[..count], m, idx);
    assert idx < count ==> ks[idx] == chunks[idx];
    assert idx > 0 ==> ks[idx - 1] == chunks[idx - 1];
  }

  method Next48(n: Node, idx: nat, ghost m: Entries) returns (more: bool, c: uint8, i: int, idx': nat)
    requires Rep(n, m) && CursorOk(n, idx) && n.Node48?
    ensures Advanced(n, m, idx, more, c, i, idx')
  {
    more, c, i, idx' := false, 0, 0, idx;
    var d := NextUsed48(n.slotIdxs, idx, m);
    if d < MAX_SLOTS {
      more, c, i, idx' := true, d, n.slotIdxs[d], d + 1;
    }
  }

  method Next256(n: Node, idx: nat, ghost m: Entries) returns (more: bool, c: uint8, i: int, idx': nat)
    requires Rep(n, m) && CursorOk(n, idx) && n.Node256?
    ensures Advanced(n, m, idx, more, c, i, idx')
  {
    more, c, i, idx' := false, 0, 0, idx;
    var d := NextUsed256(n.isset, idx, m);
    if d < MAX_SLOTS {
      more, c, i, idx' := true, d, d, d + 1;
    }
  }

  method NextUsed48(slotIdxs: seq<uint8>, idx: nat, ghost m: Entries) returns (d: nat)
    requires |slotIdxs| == MAX_SLOTS && idx <= MAX_SLOTS
    requires forall c: uint8 :: c in m <==> slotIdxs[c] != INVALID_SLOT_IDX
    ensures idx <= d <= MAX_SLOTS && (d < MAX_SLOTS ==> d in m && slotIdxs[d] != INVALID_SLOT_IDX)
    ensures forall e :: e in m && idx <= e ==> d <= e
  {
    d := idx;
    while d < MAX_SLOTS && slotIdxs[d] == INVALID_SLOT_IDX
      invariant idx <= d <= MAX_SLOTS && forall e :: e in m && idx <= e ==> d <= e
    {
      d := d + 1;
    }
  }

  method NextUsed256(isset: seq<bool>, idx: nat, ghost m: Entries) returns (d: nat)
    requires |isset| == MAX_SLOTS && idx <= MAX_SLOTS && forall c: uint8 :: c in m <==> isset[c]
    ensures idx <= d <= MAX_SLOTS && (d < MAX_SLOTS ==> d in m && isset[d])
    ensures forall e :: e in m && idx <= e ==> d <= e
  {
    d := idx;
    while d < MAX_SLOTS && !isset[d]
      invariant idx <= d <= MAX_SLOTS && forall e :: e in m && idx <= e ==> d <= e
    {
      d := d + 1;
    }
  }

  lemma AscendingChunks(ks: seq<uint8>, vs: seq<Slot>, m: Entries, idx: nat)
    requires RepArrays(ks, vs, m) && idx <= |ks|
    ensures idx < |ks| ==> forall d :: d in m && (idx == 0 || ks[idx - 1] < d) ==> ks[idx] <= d
    ensures idx == |ks| ==> forall d :: d in m ==> idx > 0 && d <= ks[idx - 1]
  {
    forall d | d in m ensures exists j :: 0 <= j < |ks| && ks[j] == d {
    }
  }

  // ---------------------------------------------------------------------------
  // The stack of cursors
  // ---------------------------------------------------------------------------

  datatype Iter = Iter(nodes: seq<Ptr>, idxs: seq<nat>, topLevel: nat, curLevel: nat, key: Key)

  /** Level `l` of the stack holds the node on the key's path and a cursor into it;
      above the current level the cursor has just passed the key's chunk. */
  ghost predicate LevelOk(t: Control, g: Graph, it: Iter, l: nat)
    requires |it.nodes| == |it.idxs| == 8 && l < 8
  {
    Home(it.key, l) in g.at && it.nodes[l] == g.at[Home(it.key, l)] && it.nodes[l] in t.mem &&
    CursorOk(t.mem[it.nodes[l]], it.idxs[l]) &&
    (l > it.curLevel ==> NextChunk(t.mem[it.nodes[l]], it.idxs[l]) == Chunk(it.key, l) + 1)
  }

  ghost predicate IterOk(t: Control, g: Graph, it: Iter) {
    Good(t, g, NoHole) && |it.nodes| == |it.idxs| == 8 &&
    it.topLevel == g.top && it.curLevel <= g.top + 1 && Shr(it.key, g.top + 1) == 0 &&
    (forall l {:trigger LevelOk(t, g, it, l)} :: it.curLevel <= l <= g.top ==> LevelOk(t, g, it, l))
  }

  /** The boundary at the current level, as a prefix down to that level. */
  ghost function Boundary(t: Control, g: Graph, it: Iter): int
    requires IterOk(t, g, it) && it.curLevel <= g.top
  {
    assert LevelOk(t, g, it, it.curLevel);
    Shr(it.key, it.curLevel + 1) * 256 + NextChunk(t.mem[it.nodes[it.curLevel]], it.idxs[it.curLevel])
  }

  /** Has the iteration passed key `k`? */
  ghost predicate Produced(t: Control, g: Graph, it: Iter, k: Key)
    requires IterOk(t, g, it)
  {
    it.curLevel > g.top || Shr(k, it.curLevel) < Boundary(t, g, it)
  }

  method BeginIterate(t: Control, ghost g: Graph) returns (it: Iter)
    requires Good(t, g, NoHole)
    ensures IterOk(t, g, it) && forall k :: k in View(g) ==> !Produced(t, g, it, k)
  {
    it := Iter(seq(8, _ => 0)[t.startLevel := t.root], seq(8, _ => 0), t.startLevel, t.startLevel, 0);
    BeginsAtRoot(t, g, it);
  }

  /** The first cursor stands before everything in the root. */
  lemma BeginsAtRoot(t: Control, g: Graph, it: Iter)
    requires Good(t, g, NoHole) && |it.nodes| == |it.idxs| == 8 && it.topLevel == it.curLevel == t.startLevel
    requires it.key == 0 && it.nodes[t.startLevel] == t.root && it.idxs[t.startLevel] == 0
    ensures IterOk(t, g, it) && forall k :: k in View(g) ==> !Produced(t, g, it, k)
  {
    ShrZero(0, 0, g.top + 1);
    NodeHere(t.mem, t.root, g, NoHole, Root(g));
    assert LevelOk(t, g, it, g.top);
  }

  // ---------------------------------------------------------------------------
  // Moving over the stack
  // ---------------------------------------------------------------------------

  /** The cursor at the current level moved past chunk `c`. */
  function Advance(it: Iter, idx': nat, c: uint8): Iter
    requires |it.nodes| == |it.idxs| == 8 && it.curLevel <= it.topLevel <= MAX_LEVEL &&
      Shr(it.key, it.topLevel + 1) == 0
  {
    SetChunkFits(it.key, it.curLevel, c, it.topLevel);
    it.(idxs := it.idxs[it.curLevel := idx'], key := SetChunk(it.key, it.curLevel, c))
  }

  /** What one step of a cursor has established about its node. */
  ghost predicate Stepped(t: Control, g: Graph, it: Iter, c: uint8, idx': nat)
    requires IterOk(t, g, it) && it.curLevel <= g.top
  {
    var q := Home(it.key, it.curLevel);
    LevelOk(t, g, it, it.curLevel) && q in g.ents && c in g.ents[q] &&
    CursorOk(t.mem[it.nodes[it.curLevel]], idx') && NextChunk(t.mem[it.nodes[it.curLevel]], idx') == c + 1 &&
    NextChunk(t.mem[it.nodes[it.curLevel]], it.idxs[it.curLevel]) <= c &&
    (forall d :: d in g.ents[q] && NextChunk(t.mem[it.nodes[it.curLevel]], it.idxs[it.curLevel]) <= d ==> c <= d)
  }

  /** Levels from the current one up are as before, with the key's new chunk just passed. */
  lemma AdvanceLevels(t: Control, g: Graph, it: Iter, c: uint8, idx': nat, l: nat)
    requires IterOk(t, g, it) && it.curLevel <= l <= g.top && Stepped(t, g, it, c, idx')
    ensures var it' := Advance(it, idx', c);
            Home(it'.key, l) in g.at && it'.nodes[l] == g.at[Home(it'.key, l)] && it'.nodes[l] in t.mem &&
            CursorOk(t.mem[it'.nodes[l]], it'.idxs[l]) &&
            NextChunk(t.mem[it'.nodes[l]], it'.idxs[l]) == Chunk(it'.key, l) + 1
  {
    var it' := Advance(it, idx', c);
    SetChunkShr(it.key, it.curLevel, c);
    assert LevelOk(t, g, it, l);
    ShrAgree(it'.key, it.key, it.curLevel + 1, l + 1);
    if l > it.curLevel {
      ShrAgree(it'.key, it.key, it.curLevel + 1, l);
    }
  }

  /** A stored key at or after the boundary is at or after the chunk the cursor stopped at. */
  lemma SkippedNothing(t: Control, g: Graph, it: Iter, c: uint8, idx': nat, k: Key)
    requires IterOk(t, g, it) && it.curLevel <= g.top && Stepped(t, g, it, c, idx') && k in View(g)
    ensures Produced(t, g, it, k) <==> Shr(k, it.curLevel) < Shr(it.key, it.curLevel + 1) * 256 + c
  {
    var l := it.curLevel;
    assert Has(g, k);
    if Shr(k, l + 1) == Shr(it.key, l + 1) {
      PathUp(g, NoHole, k, 0, l);
      PresentChunk(g, k, l);
    }
  }

  /** A stored key's chunk is used at every level of its path. */
  lemma PresentChunk(g: Graph, k: Key, l: nat)
    requires Wf(g, NoHole) && Has(g, k) && l <= g.top
    ensures Home(k, l) in g.at && Chunk(k, l) in g.ents[Home(k, l)]
  {
    PathUp(g, NoHole, k, 0, l);
    assert Shr(k, 0) == k;
  }

  /** Moving down into the child of chunk `c`. */
  function Down(it: Iter, idx': nat, c: uint8, child: Ptr): Iter
    requires |it.nodes| == |it.idxs| == 8 && 0 < it.curLevel <= it.topLevel <= MAX_LEVEL &&
      Shr(it.key, it.topLevel + 1) == 0
  {
    var it1 := Advance(it, idx', c);
    it1.(curLevel := it.curLevel - 1, nodes := it1.nodes[it.curLevel - 1 := child],
      idxs := it1.idxs[it.curLevel - 1 := 0])
  }

  lemma MovedDown(t: Control, g: Graph, it: Iter, c: uint8, idx': nat)
    requires IterOk(t, g, it) && 0 < it.curLevel <= g.top && Stepped(t, g, it, c, idx')
    ensures g.ents[Home(it.key, it.curLevel)][c].Child?
    ensures IterOk(t, g, Down(it, idx', c, g.ents[Home(it.key, it.curLevel)][c].ptr))
  {
    var l, q := it.curLevel, Home(it.key, it.curLevel);
    assert Linked(g, q, c);
    var it' := Down(it, idx', c, g.ents[q][c].ptr);
    SetChunkShr(it.key, l, c);
    SetChunkFits(it.key, l, c, it.topLevel);
    assert Home(it'.key, l - 1) == Kid(q, c);
    NodeHere(t.mem, t.root, g, NoHole, Kid(q, c));
    forall j {:trigger LevelOk(t, g, it', j)} | it'.curLevel <= j <= g.top ensures LevelOk(t, g, it', j) {
      if j >= l {
        AdvanceLevels(t, g, it, c, idx', j);
      }
    }
  }

  lemma DownSame(t: Control, g: Graph, it: Iter, c: uint8, idx': nat, k: Key)
    requires IterOk(t, g, it) && 0 < it.curLevel <= g.top && Stepped(t, g, it, c, idx') && k in View(g)
    requires g.ents[Home(it.key, it.curLevel)][c].Child?
    requires IterOk(t, g, Down(it, idx', c, g.ents[Home(it.key, it.curLevel)][c].ptr))
    ensures Produced(t, g, Down(it, idx', c, g.ents[Home(it.key, it.curLevel)][c].ptr), k) <==> Produced(t, g, it, k)
  {
    var l := it.curLevel;
    SkippedNothing(t, g, it, c, idx', k);
    SetChunkShr(it.key, l, c);
    var it' := Down(it, idx', c, g.ents[Home(it.key, l)][c].ptr);
    assert LevelOk(t, g, it', l - 1);
    NodeStart(t.mem[it'.nodes[l - 1]]);
    assert Shr(k, l) == Shr(k, l - 1) / 256;
  }

  lemma NodeStart(n: Node)
    ensures CursorOk(n, 0) ==> NextChunk(n, 0) == 0
  {
  }

  /** Moving up when the node at the current level has nothing more. */
  function Up(it: Iter): Iter {
    it.(curLevel := it.curLevel + 1)
  }

  ghost predicate Exhausted(t: Control, g: Graph, it: Iter)
    requires IterOk(t, g, it) && it.curLevel <= g.top
  {
    var q := Home(it.key, it.curLevel);
    LevelOk(t, g, it, it.curLevel) && q in g.ents &&
    (forall d :: d in g.ents[q] ==> d < NextChunk(t.mem[it.nodes[it.curLevel]], it.idxs[it.curLevel]))
  }

  lemma MovedUp(t: Control, g: Graph, it: Iter)
    requires IterOk(t, g, it) && it.curLevel <= g.top
    ensures IterOk(t, g, Up(it))
  {
    var it' := Up(it);
    forall l {:trigger LevelOk(t, g, it', l)} | it'.curLevel <= l <= g.top ensures LevelOk(t, g, it', l) {
      assert LevelOk(t, g, it, l);
    }
  }

  lemma UpSame(t: Control, g: Graph, it: Iter, k: Key)
    requires IterOk(t, g, it) && it.curLevel <= g.top && Exhausted(t, g, it) && IterOk(t, g, Up(it)) && k in View(g)
    ensures Produced(t, g, Up(it), k) <==> Produced(t, g, it, k)
  {
    var l := it.curLevel;
    assert Has(g, k);
    PresentChunk(g, k, l);
    assert Shr(k, l + 1) == Shr(k, l) / 256;
    if l == g.top {
      HasFits(g, NoHole, k);
      FitsIff(k, g.top);
    } else {
      assert LevelOk(t, g, it, l + 1);
      assert LevelOk(t, g, Up(it), l + 1);
    }
  }

  // ---------------------------------------------------------------------------
  // Producing the next pair
  // ---------------------------------------------------------------------------

  /** Work left at level `l` of the stack. */
  function Left(it: Iter, l: nat): nat {
    if l < it.curLevel || l > it.topLevel || l >= |it.idxs| || it.idxs[l] > 256 then 0 else 257 - it.idxs[l]
  }

  /** The levels from `l` up read as one number, the top level most significant. */
  function Rank(it: Iter, l: nat): nat
    decreases 8 - l
  {
    if l >= 8 then 0 else Rank(it, l + 1) * 258 + Left(it, l)
  }

  lemma {:induction false} RankSame(it: Iter, it': Iter, l: nat)
    requires forall j :: l <= j < 8 ==> Left(it', j) == Left(it, j)
    ensures Rank(it', l) == Rank(it, l)
    decreases 8 - l
  {
    if l < 8 {
      RankSame(it, it', l + 1);
    }
  }

  /** Losing at one level, with the levels above unchanged, lowers the rank. */
  lemma {:induction false} RankDrops(it: Iter, it': Iter, j: nat, l: nat)
    requires l <= j < 8 && Left(it', j) < Left(it, j)
    requires forall i :: j < i < 8 ==> Left(it', i) == Left(it, i)
    ensures Rank(it', l) < Rank(it, l)
    decreases 8 - l
  {
    if l == j {
      RankSame(it, it', l + 1);
    } else {
      RankDrops(it, it', j, l + 1);
    }
  }

  type Pair = (Key, Value)

  /** The pair is the least one not yet produced, and it is now produced. */
  ghost predicate Yields(t: Control, g: Graph, it: Iter, it': Iter, p: Pair)
    requires IterOk(t, g, it) && IterOk(t, g, it')
  {
    p.0 in View(g) && View(g)[p.0] == p.1 && !Produced(t, g, it, p.0) &&
    (forall j :: j in View(g) ==> (Produced(t, g, it', j) <==> j <= p.0)) &&
    (forall j :: j in View(g) ==> (Produced(t, g, it, j) <==> j < p.0))
  }

  ghost predicate SameProduced(t: Control, g: Graph, it: Iter, it': Iter)
    requires IterOk(t, g, it) && IterOk(t, g, it')
  {
    forall k :: k in View(g) ==> (Produced(t, g, it', k) <==> Produced(t, g, it, k))
  }

  lemma Yielded(t: Control, g: Graph, it: Iter, c: uint8, idx': nat)
    requires IterOk(t, g, it) && it.curLevel == 0 && Stepped(t, g, it, c, idx')
    ensures g.ents[Home(it.key, 0)][c].Leaf?
    ensures var it' := Advance(it, idx', c);
            IterOk(t, g, it') && Yields(t, g, it, it', (it'.key, g.ents[Home(it.key, 0)][c].value))
  {
    var q, it' := Home(it.key, 0), Advance(it, idx', c);
    assert Linked(g, q, c);
    SetChunkShr(it.key, 0, c);
    SetChunkFits(it.key, 0, c, it.topLevel);
    HomeZero(it'.key);
    HomeZero(it.key);
    assert Shr(it'.key, 0) == it'.key && it'.key % 256 == c;
    assert Has(g, it'.key);
    forall l {:trigger LevelOk(t, g, it', l)} | it'.curLevel <= l <= g.top ensures LevelOk(t, g, it', l) {
      AdvanceLevels(t, g, it, c, idx', l);
    }
    AdvanceLevels(t, g, it, c, idx', 0);
    forall j | j in View(g) ensures Produced(t, g, it', j) <==> j <= it'.key {
      assert Shr(j, 0) == j;
    }
    forall j | j in View(g) ensures Produced(t, g, it, j) <==> j < it'.key {
      SkippedNothing(t, g, it, c, idx', j);
      assert Shr(j, 0) == j;
    }
  }

  /** One turn of the loop: advance the cursor at the current level, then produce, go down or go up. */
  method Turn(t: Control, it: Iter, ghost g: Graph) returns (it': Iter, r: Option<Pair>)
    requires IterOk(t, g, it) && it.curLevel <= it.topLevel
    ensures IterOk(t, g, it')
    ensures r.Some? ==> Yields(t, g, it, it', r.value)
    ensures r.None? ==> SameProduced(t, g, it, it') && Rank(it', 0) < Rank(it, 0)
  {
    assert LevelOk(t, g, it, it.curLevel);
    ghost var q := Home(it.key, it.curLevel);
    NodeHere(t.mem, t.root, g, NoHole, q);
    var n := t.mem[it.nodes[it.curLevel]];
    var more, c, i, idx' := NodeNext(n, it.idxs[it.curLevel], g.ents[q]);
    if !more {
      it', r := Up(it), None;
      TurnedUp(t, g, it);
    } else {
      SlotHolds(n, g.ents[q], c, i);
      if it.curLevel == 0 {
        Yielded(t, g, it, c, idx');
        it' := Advance(it, idx', c);
        r := Some((it'.key, n.children[i].value));
      } else {
        TurnedDown(t, g, it, c, idx');
        it', r := Down(it, idx', c, n.children[i].ptr), None;
      }
    }
  }

  lemma TurnedUp(t: Control, g: Graph, it: Iter)
    requires IterOk(t, g, it) && it.curLevel <= g.top && Exhausted(t, g, it) && it.idxs[it.curLevel] <= 256
    ensures IterOk(t, g, Up(it)) && SameProduced(t, g, it, Up(it)) && Rank(Up(it), 0) < Rank(it, 0)
  {
    MovedUp(t, g, it);
    forall k | k in View(g) ensures Produced(t, g, Up(it), k) <==> Produced(t, g, it, k) {
      UpSame(t, g, it, k);
    }
    RankDrops(it, Up(it), it.curLevel, 0);
  }

  lemma TurnedDown(t: Control, g: Graph, it: Iter, c: uint8, idx': nat)
    requires IterOk(t, g, it) && 0 < it.curLevel <= g.top && Stepped(t, g, it, c, idx')
    requires it.idxs[it.curLevel] < idx' <= 256
    ensures g.ents[Home(it.key, it.curLevel)][c].Child?
    ensures var it' := Down(it, idx', c, g.ents[Home(it.key, it.curLevel)][c].ptr);
            IterOk(t, g, it') && SameProduced(t, g, it, it') && Rank(it', 0) < Rank(it, 0)
  {
    MovedDown(t, g, it, c, idx');
    var it' := Down(it, idx', c, g.ents[Home(it.key, it.curLevel)][c].ptr);
    forall k | k in View(g) ensures Produced(t, g, it', k) <==> Produced(t, g, it, k) {
      DownSame(t, g, it, c, idx', k);
    }
    RankDrops(it, it', it.curLevel, 0);
  }

  lemma YieldsThrough(t: Control, g: Graph, it: Iter, it0: Iter, it': Iter, p: Pair)
    requires IterOk(t, g, it) && IterOk(t, g, it0) && IterOk(t, g, it')
    requires SameProduced(t, g, it, it0) && Yields(t, g, it0, it', p)
    ensures Yields(t, g, it, it', p)
  {
  }

  /** The next pair in key order, or none when every stored key has been produced. */
  method IterateNext(t: Control, it: Iter, ghost g: Graph) returns (it': Iter, r: Option<Pair>)
    requires IterOk(t, g, it)
    ensures IterOk(t, g, it')
    ensures r.Some? ==> Yields(t, g, it, it', r.value)
    ensures r.None? ==> forall k :: k in View(g) ==> Produced(t, g, it, k) && Produced(t, g, it', k)
  {
    it', r := it, None;
    while it'.curLevel <= it'.topLevel
      invariant IterOk(t, g, it') && SameProduced(t, g, it, it') && r.None?
      decreases Rank(it', 0)
    {
      ghost var it0 := it';
      it', r := Turn(t, it', g);
      if r.Some? {
        YieldsThrough(t, g, it, it0, it', r.value);
        return;
      }
    }
  }

  // ---------------------------------------------------------------------------
  // A whole iteration
  // ---------------------------------------------------------------------------

  ghost predicate Ascending(ps: seq<Pair>) {
    forall i, j :: 0 <= i < j < |ps| ==> ps[i].0 < ps[j].0
  }

  /** The list holds exactly the pairs produced so far, in ascending key order. */
  ghost predicate Listed(t: Control, g: Graph, it: Iter, ps: seq<Pair>)
    requires IterOk(t, g, it)
  {
    Ascending(ps) &&
    (forall i :: 0 <= i < |ps| ==> ps[i].0 in View(g) && View(g)[ps[i].0] == ps[i].1 && Produced(t, g, it, ps[i].0)) &&
    (forall k :: k in View(g) && Produced(t, g, it, k) ==> (k, View(g)[k]) in ps)
  }

  ghost function Remaining(t: Control, g: Graph, it: Iter): set<Key>
    requires IterOk(t, g, it)
  {
    set k | k in View(g) && !Produced(t, g, it, k)
  }

  lemma ListOne(t: Control, g: Graph, it: Iter, it': Iter, ps: seq<Pair>, p: Pair)
    requires IterOk(t, g, it) && IterOk(t, g, it') && Listed(t, g, it, ps) && Yields(t, g, it, it', p)
    ensures Listed(t, g, it', ps + [p]) && Remaining(t, g, it') < Remaining(t, g, it)
  {
    var qs := ps + [p];
    forall k | k in View(g) && Produced(t, g, it', k) ensures (k, View(g)[k]) in qs {
      if k == p.0 {
        assert qs[|ps|] == (k, View(g)[k]);
      }
    }
    assert p.0 in Remaining(t, g, it) && p.0 !in Remaining(t, g, it');
  }

  /** Running an iteration to its end lists every stored pair once, in ascending key order. */
  method Scan(t: Control, ghost g: Graph) returns (ps: seq<Pair>)
    requires Good(t, g, NoHole)
    ensures Ascending(ps)
    ensures forall i :: 0 <= i < |ps| ==> ps[i].0 in View(g) && View(g)[ps[i].0] == ps[i].1
    ensures forall k :: k in View(g) ==> (k, View(g)[k]) in ps
  {
    var it := BeginIterate(t, g);
    ps := [];
    while true
      invariant IterOk(t, g, it) && Listed(t, g, it, ps)
      decreases Remaining(t, g, it)
    {
      var it', r := IterateNext(t, it, g);
      if r.None? {
        return;
      }
      ListOne(t, g, it, it', ps, r.value);
      ps, it := ps + [r.value], it';
    }
  }
}
