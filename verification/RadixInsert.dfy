/**
 Searching one node, and adding a chunk to it: finding the insert position, shifting
 or copying the parallel arrays, and growing to the next representation when full.
*/
module RadixInsert {
  import opened RadixNode

  /** The index of the slot used for chunk `c`, or -1 when the node has none. */
  method Search(n: Node, c: uint8, ghost m: Entries) returns (i: int)
    requires Rep(n, m)
    ensures i >= 0 <==> c in m
    ensures i >= 0 ==> SlotIs(n, c, i)
  {
    match n {
      case Node4(_, count, chunks, children) =>
        i := SearchChunks(chunks, count, c);
        assert c in m ==> c in chunks[..count];
        assert i >= 0 ==> chunks[..count][i] == c;
      case Node16(_, count, chunks, children) =>
        i := SearchChunks(chunks, count, c);
        assert c in m ==> c in chunks[..count];
        assert i >= 0 ==> chunks[..count][i] == c;
      case Node48(_, _, _, slotIdxs, _) =>
        i := if slotIdxs[c] == INVALID_SLOT_IDX then -1 else slotIdxs[c];
      case Node256(_, _, isset, _) =>
        i := if isset[c] then c else -1;
    }
  }

  method SearchChunks(chunks: seq<uint8>, count: nat, c: uint8) returns (i: int)
    requires count <= |chunks|
    ensures i >= 0 ==> i < count && chunks[i] == c
    ensures i < 0 ==> c !in chunks[..count]
  {
    i := 0;
    while i < count
      invariant 0 <= i <= count
      invariant c !in chunks[..i]
    {
      if chunks[i] == c {
        return;
      }
      i := i + 1;
    }
    i := -1;
  }

  /** The first position whose chunk is not below `c` (node4). */
  method InsertPos4(chunks: seq<uint8>, c: uint8, count: nat) returns (p: nat)
    requires count <= |chunks| && Sorted(chunks[..count])
    ensures p <= count
    ensures forall i :: 0 <= i < p ==> chunks[i] < c
    ensures forall i :: p <= i < count ==> c <= chunks[i]
  {
    p := 0;
    while p < count
      invariant 0 <= p <= count
      invariant forall i :: 0 <= i < p ==> chunks[i] < c
    {
      if chunks[p] >= c {
        assert forall i :: p <= i < count ==> chunks[i] == chunks[..count][i];
        return;
      }
      p := p + 1;
    }
  }

  /** The first position whose chunk is above `c` (node16), after first trying the end. */
  method InsertPos16(chunks: seq<uint8>, c: uint8, count: nat) returns (p: nat)
    requires 0 < count <= |chunks| && Sorted(chunks[..count]) && c !in chunks[..count]
    ensures p <= count
    ensures forall i :: 0 <= i < p ==> chunks[i] < c
    ensures forall i :: p <= i < count ==> c < chunks[i]
  {
    assert forall i :: 0 <= i < count ==> chunks[i] == chunks[..count][i];
    if chunks[count - 1] < c {
      return count;
    }
    p := 0;
    while p < count
      invariant 0 <= p <= count
      invariant forall i :: 0 <= i < p ==> chunks[i] < c
    {
      if chunks[p] > c {
        return;
      }
      assert chunks[p] in chunks[..count];
      p := p + 1;
    }
  }

  /** Move the elements at `p` and after one place right and put `x` in the gap. */
  method ShiftForInsert<T>(a: seq<T>, count: nat, p: nat, x: T) returns (b: seq<T>)
    requires p <= count < |a|
    ensures |b| == |a| && b[p] == x
    ensures b[..count + 1] == InsertAt(a[..count], p, x)
  {
    b := a;
    var i := count - 1;
    while i >= p
      invariant p - 1 <= i < count && |b| == |a|
      invariant forall j :: 0 <= j <= i + 1 ==> b[j] == a[j]
      invariant forall j :: i + 1 < j <= count ==> b[j] == a[j - 1]
    {
      b := b[i + 1 := b[i]];
      i := i - 1;
    }
    b := b[p := x];
  }

  /** Copy `count` elements, leaving a gap at `p`, and put `x` there. */
  method CopyForInsert<T>(dst: seq<T>, src: seq<T>, count: nat, p: nat, x: T) returns (b: seq<T>)
    requires p <= count <= |src| && count < |dst|
    ensures |b| == |dst| && b[p] == x
    ensures b[..count + 1] == InsertAt(src[..count], p, x)
  {
    b := dst;
    var i := 0;
    while i < count
      invariant 0 <= i <= count && |b| == |dst|
      invariant forall j :: 0 <= j < i && j < p ==> b[j] == src[j]
      invariant forall j :: p < j <= i ==> b[j] == src[j - 1]
    {
      b := b[i + (if i >= p then 1 else 0) := src[i]];
      i := i + 1;
    }
    b := b[p := x];
  }

  /** The first `count` chunks and children, with the new chunk put in at `p`. */
  lemma AddedArrays(chunks: seq<uint8>, children: seq<Slot>, count: nat, m: Entries, p: nat, c: uint8,
                    ks: seq<uint8>, vs: seq<Slot>)
    requires count <= |chunks| && count <= |children| && RepArrays(chunks[..count], children[..count], m) && c !in m
    requires p <= count && (forall i :: 0 <= i < p ==> chunks[i] < c) && (forall i :: p <= i < count ==> c <= chunks[i])
    requires ks == InsertAt(chunks[..count], p, c) && vs == InsertAt(children[..count], p, Unset)
    ensures RepArrays(ks, vs, m[c := Unset]) && |m[c := Unset]| == |m| + 1
  {
    InsertArrays(chunks[..count], children[..count], m, p, c, Unset);
    assert m[c := Unset].Keys == m.Keys + {c};
  }

  method AddChild4(n: Node, c: uint8, ghost m: Entries) returns (n': Node, p: nat)
    requires Rep(n, m) && n.Node4? && n.count < n.fanout && c !in m
    ensures SlotIs(n', c, p) && n'.children[p] == Unset && Rep(n', m[c := Unset]) && n'.Node4? && n'.fanout == n.fanout
  {
    p := InsertPos4(n.chunks, c, n.count);
    var ks := ShiftForInsert(n.chunks, n.count, p, c);
    var vs := ShiftForInsert(n.children, n.count, p, Unset);
    AddedArrays(n.chunks, n.children, n.count, m, p, c, ks[..n.count + 1], vs[..n.count + 1]);
    n' := Node4(n.fanout, n.count + 1, ks, vs);
  }

  method AddChild16(n: Node, c: uint8, ghost m: Entries) returns (n': Node, p: nat)
    requires Rep(n, m) && n.Node16? && n.count < n.fanout && c !in m
    ensures SlotIs(n', c, p) && n'.children[p] == Unset && Rep(n', m[c := Unset]) && n'.Node16? && n'.fanout == n.fanout
  {
    p := InsertPos16(n.chunks, c, n.count);
    var ks := ShiftForInsert(n.chunks, n.count, p, c);
    var vs := ShiftForInsert(n.children, n.count, p, Unset);
    AddedArrays(n.chunks, n.children, n.count, m, p, c, ks[..n.count + 1], vs[..n.count + 1]);
    n' := Node16(n.fanout, n.count + 1, ks, vs);
  }

  method GrowNode4(n: Node, c: uint8, ghost m: Entries) returns (n': Node, p: nat)
    requires Rep(n, m) && n.Node4? && n.count == n.fanout && c !in m
    ensures SlotIs(n', c, p) && n'.children[p] == Unset && Rep(n', m[c := Unset]) && n'.Node16? &&
      n'.fanout == FANOUT_16_LO
  {
    p := InsertPos4(n.chunks, c, FANOUT_4);
    var ks := CopyForInsert<uint8>(seq(FANOUT_16_HI, _ => 0), n.chunks, FANOUT_4, p, c);
    var vs := CopyForInsert(seq(FANOUT_16_LO, _ => Unset), n.children, FANOUT_4, p, Unset);
    AddedArrays(n.chunks, n.children, n.count, m, p, c, ks[..n.count + 1], vs[..n.count + 1]);
    n' := Node16(FANOUT_16_LO, n.count + 1, ks, vs);
  }

  /** A full low-class node16 becomes a high-class node16. */
  method GrowNode16Lo(n: Node, c: uint8, ghost m: Entries) returns (n': Node, p: nat)
    requires Rep(n, m) && n.Node16? && n.fanout == FANOUT_16_LO && n.count == n.fanout && c !in m
    ensures SlotIs(n', c, p) && n'.children[p] == Unset && Rep(n', m[c := Unset]) && n'.Node16? &&
      n'.fanout == FANOUT_16_HI
  {
    p := InsertPos16(n.chunks, c, n.count);
    var ks := CopyForInsert<uint8>(seq(FANOUT_16_HI, _ => 0), n.chunks, FANOUT_16_LO, p, c);
    var vs := CopyForInsert(seq(FANOUT_16_HI, _ => Unset), n.children, FANOUT_16_LO, p, Unset);
    AddedArrays(n.chunks, n.children, n.count, m, p, c, ks[..n.count + 1], vs[..n.count + 1]);
    n' := Node16(FANOUT_16_HI, n.count + 1, ks, vs);
  }

  // ---------------------------------------------------------------------------
  // node48 and node256
  // ---------------------------------------------------------------------------

  ghost function Upto(k: nat): (r: set<int>)
    ensures |r| == k && forall s :: s in r <==> 0 <= s < k
  {
    if k == 0 then {} else Upto(k - 1) + {k - 1}
  }

  lemma SubsetSize(a: set<int>, b: set<int>)
    requires a <= b
    ensures |a| <= |b|
  {
    assert b == a + (b - a);
  }

  lemma AtMost256(m: Entries)
    ensures |m| <= 256
  {
    var keys: set<int> := m.Keys;
    SubsetSize(keys, Upto(256));
  }

  /** A bitmap with fewer set bits than places has a clear one. */
  lemma SomeBitClear(isset: seq<bool>)
    requires |SetBits(isset)| < |isset|
    ensures false in isset
  {
    assert !(Upto(|isset|) <= SetBits(isset)) by {
      if Upto(|isset|) <= SetBits(isset) {
        SubsetSize(Upto(|isset|), SetBits(isset));
      }
    }
    var s :| s in Upto(|isset|) && s !in SetBits(isset);
    assert !isset[s];
  }

  lemma SetBit(isset: seq<bool>, p: nat)
    requires p < |isset| && !isset[p]
    ensures |SetBits(isset[p := true])| == |SetBits(isset)| + 1
  {
    assert SetBits(isset[p := true]) == SetBits(isset) + {p};
  }

  lemma ClearBit(isset: seq<bool>, p: nat)
    requires p < |isset| && isset[p]
    ensures |SetBits(isset[p := false])| == |SetBits(isset)| - 1
  {
    assert SetBits(isset) == SetBits(isset[p := false]) + {p};
  }

  lemma DenseBits(isset: seq<bool>, k: nat)
    requires k <= |isset| && forall s :: 0 <= s < |isset| ==> (isset[s] <==> s < k)
    ensures |SetBits(isset)| == k
  {
    assert SetBits(isset) == Upto(k);
  }

  /** The lowest clear bit. */
  method FirstClear(isset: seq<bool>) returns (p: nat)
    requires false in isset
    ensures p < |isset| && !isset[p] && forall s :: 0 <= s < p ==> isset[s]
  {
    p := 0;
    while isset[p]
      invariant p < |isset| && forall s :: 0 <= s < p ==> isset[s]
      decreases |isset| - p
    {
      p := p + 1;
    }
  }

  /** Taking a clear slot for an unused chunk keeps the indexes consistent with the bits. */
  lemma IndexesInsert(slotIdxs: seq<uint8>, isset: seq<bool>, c: uint8, p: nat)
    requires IndexesMatch(slotIdxs, isset) && |slotIdxs| == MAX_SLOTS && p < |isset| <= FANOUT_48
    requires slotIdxs[c] == INVALID_SLOT_IDX && !isset[p]
    ensures IndexesMatch(slotIdxs[c := p], isset[p := true])
  {
    var idx, bits := slotIdxs[c := p], isset[p := true];
    forall t | 0 <= t < |bits| && bits[t] ensures t in idx {
      if t == p {
        assert idx[c] == t;
      } else {
        var d :| 0 <= d < |slotIdxs| && slotIdxs[d] == t;
        assert idx[d] == t;
      }
    }
    forall a, b | 0 <= a < b < |idx| && idx[a] != INVALID_SLOT_IDX ensures idx[a] != idx[b] {
      assert a != c ==> idx[a] == slotIdxs[a];
      assert b != c ==> idx[b] == slotIdxs[b];
    }
  }

  lemma IndexInsert(isset: seq<bool>, slotIdxs: seq<uint8>, children: seq<Slot>, m: Entries,
                    c: uint8, p: nat, s: Slot)
    requires RepIndexed(isset, slotIdxs, children, m) && c !in m && p < FANOUT_48 && !isset[p]
    ensures RepIndexed(isset[p := true], slotIdxs[c := p], children[p := s], m[c := s])
  {
    SetBit(isset, p);
    IndexesInsert(slotIdxs, isset, c, p);
    forall d | d in m ensures slotIdxs[d] != p {
      assert isset[slotIdxs[d]];
    }
  }

  method AddChild48(n: Node, c: uint8, ghost m: Entries) returns (n': Node, p: nat)
    requires Rep(n, m) && n.Node48? && n.count < n.fanout && c !in m
    ensures SlotIs(n', c, p) && n'.children[p] == Unset && Rep(n', m[c := Unset]) && n'.Node48? && n'.fanout == n.fanout
  {
    SomeBitClear(n.isset);
    p := FirstClear(n.isset);
    IndexInsert(n.isset, n.slotIdxs, n.children, m, c, p, Unset);
    n' := Node48(n.fanout, n.count + 1, n.isset[p := true], n.slotIdxs[c := p], n.children[p := Unset]);
  }

  /** A full high-class node16 becomes a node48 with its entries in the first slots. */
  method GrowNode16Hi(n: Node, c: uint8, ghost m: Entries) returns (n': Node, p: nat)
    requires Rep(n, m) && n.Node16? && n.fanout == FANOUT_16_HI && n.count == n.fanout && c !in m
    ensures SlotIs(n', c, p) && n'.children[p] == Unset && Rep(n', m[c := Unset]) && n'.Node48? &&
      n'.fanout == FANOUT_48
  {
    p := FANOUT_16_HI;
    assert n.chunks[..n.count] == n.chunks && n.children[..n.count] == n.children;
    var isset, slotIdxs, children := SpreadAndAdd(n.chunks, n.children, c, m);
    n' := Node48(FANOUT_48, n.count + 1, isset, slotIdxs, children);
  }

  /** The arrays of a full high-class node16 as those of a node48, with the next slot taken for the new chunk. */
  method SpreadAndAdd(chunks: seq<uint8>, vs: seq<Slot>, c: uint8, ghost m: Entries)
    returns (isset: seq<bool>, slotIdxs: seq<uint8>, children: seq<Slot>)
    requires RepArrays(chunks, vs, m) && |chunks| == |m| == FANOUT_16_HI && c !in m
    ensures RepIndexed(isset, slotIdxs, children, m[c := Unset])
    ensures slotIdxs[c] == FANOUT_16_HI && children[FANOUT_16_HI] == Unset
  {
    isset, slotIdxs, children := SpreadArrays(chunks, vs, m);
    IndexInsert(isset, slotIdxs, children, m, c, FANOUT_16_HI, Unset);
    isset := isset[FANOUT_16_HI := true];
    slotIdxs := slotIdxs[c := FANOUT_16_HI];
    children := children[FANOUT_16_HI := Unset];
  }

  method SpreadArrays(chunks: seq<uint8>, vs: seq<Slot>, ghost m: Entries)
    returns (isset: seq<bool>, slotIdxs: seq<uint8>, children: seq<Slot>)
    requires RepArrays(chunks, vs, m) && |chunks| == |m| == FANOUT_16_HI
    ensures RepIndexed(isset, slotIdxs, children, m) && !isset[FANOUT_16_HI]
  {
    slotIdxs := IndexChunks(chunks);
    children := vs + seq(FANOUT_48 - FANOUT_16_HI, _ => Unset);
    isset := seq(FANOUT_48, i => i < FANOUT_16_HI);
    DenseBits(isset, FANOUT_16_HI);
    IndexedFromArrays(chunks, vs, m, isset, slotIdxs, children);
  }

  method IndexChunks(chunks: seq<uint8>) returns (slotIdxs: seq<uint8>)
    requires |chunks| == FANOUT_16_HI && Sorted(chunks)
    ensures |slotIdxs| == MAX_SLOTS
    ensures forall j :: 0 <= j < |chunks| ==> slotIdxs[chunks[j]] == j
    ensures forall d: uint8 :: slotIdxs[d] != INVALID_SLOT_IDX ==> slotIdxs[d] < |chunks| && chunks[slotIdxs[d]] == d
  {
    slotIdxs := seq(MAX_SLOTS, _ => INVALID_SLOT_IDX);
    var i := 0;
    while i < FANOUT_16_HI
      invariant 0 <= i <= FANOUT_16_HI && |slotIdxs| == MAX_SLOTS
      invariant forall j :: 0 <= j < i ==> slotIdxs[chunks[j]] == j
      invariant forall d: uint8 :: slotIdxs[d] != INVALID_SLOT_IDX ==> slotIdxs[d] < i && chunks[slotIdxs[d]] == d
    {
      slotIdxs := slotIdxs[chunks[i] := i];
      i := i + 1;
    }
  }

  lemma IndexedFromArrays(ks: seq<uint8>, vs: seq<Slot>, m: Entries,
                          isset: seq<bool>, slotIdxs: seq<uint8>, children: seq<Slot>)
    requires RepArrays(ks, vs, m) && |ks| == |m| == FANOUT_16_HI
    requires |isset| == |children| == FANOUT_48 && |slotIdxs| == MAX_SLOTS
    requires forall j :: 0 <= j < |ks| ==> slotIdxs[ks[j]] == j && children[j] == vs[j]
    requires forall d: uint8 :: slotIdxs[d] != INVALID_SLOT_IDX ==> slotIdxs[d] < |ks| && ks[slotIdxs[d]] == d
    requires forall s :: 0 <= s < |isset| ==> (isset[s] <==> s < |ks|)
    requires |SetBits(isset)| == |m|
    ensures RepIndexed(isset, slotIdxs, children, m)
  {
    forall s | 0 <= s < |isset| && isset[s] ensures s in slotIdxs {
      assert slotIdxs[ks[s]] == s;
    }
    forall c: uint8 ensures c in m <==> slotIdxs[c] != INVALID_SLOT_IDX {
      if c in m {
        var j :| 0 <= j < |ks| && ks[j] == c;
      }
    }
    forall c | c in m ensures m[c] == children[slotIdxs[c]] {
      var j :| 0 <= j < |ks| && ks[j] == c;
    }
    forall c, d | 0 <= c < d < |slotIdxs| && slotIdxs[c] != INVALID_SLOT_IDX ensures slotIdxs[c] != slotIdxs[d] {
      assert ks[slotIdxs[c]] == c;
    }
  }

  method AddChild256(n: Node, c: uint8, ghost m: Entries) returns (n': Node, p: nat)
    requires Rep(n, m) && n.Node256? && c !in m
    ensures SlotIs(n', c, p) && n'.children[p] == Unset && Rep(n', m[c := Unset]) && n'.Node256? &&
      n'.fanout == n.fanout
  {
    p := c;
    AtMost256(m[c := Unset]);
    n' := Node256(n.fanout, (n.count + 1) % 256, n.isset[c := true], n.children[c := Unset]);
  }

  /** A full node48 becomes a node256: every used chunk moves to the slot it names. */
  method GrowNode48(n: Node, c: uint8, ghost m: Entries) returns (n': Node, p: nat)
    requires Rep(n, m) && n.Node48? && n.count == n.fanout && c !in m
    ensures SlotIs(n', c, p) && n'.children[p] == Unset && Rep(n', m[c := Unset]) && n'.Node256? && n'.fanout == 0
  {
    var isset, children := seq(MAX_SLOTS, _ => false), seq(MAX_SLOTS, _ => Unset);
    var i := 0;
    while i < MAX_SLOTS
      invariant 0 <= i <= MAX_SLOTS && |isset| == |children| == MAX_SLOTS
      invariant forall d: uint8 :: isset[d] <==> d < i && d in m
      invariant forall d :: d in m && d < i ==> children[d] == m[d]
    {
      var offset := n.slotIdxs[i];
      if offset != INVALID_SLOT_IDX {
        isset := isset[i := true];
        children := children[i := n.children[offset]];
      }
      i := i + 1;
    }
    var new256 := Node256(0, n.count, isset, children);
    n', p := AddChild256(new256, c, m);
  }

  /** Does the node have to be replaced by a larger one before it can take a chunk? */
  predicate MustGrow(n: Node) {
    !n.Node256? && n.count == n.fanout
  }

  /** Reserve a slot for an unused chunk, growing the node when it is full. */
  method NodeInsert(n: Node, c: uint8, ghost m: Entries) returns (n': Node, p: nat)
    requires Rep(n, m) && c !in m
    ensures SlotIs(n', c, p) && n'.children[p] == Unset && Rep(n', m[c := Unset])
    ensures n'.fanout == n.fanout <==> !MustGrow(n)
  {
    match n {
      case Node4(_, _, _, _) =>
        if MustGrow(n) { n', p := GrowNode4(n, c, m); } else { n', p := AddChild4(n, c, m); }
      case Node16(_, _, _, _) =>
        if MustGrow(n) {
          if n.fanout < FANOUT_16_HI { n', p := GrowNode16Lo(n, c, m); } else { n', p := GrowNode16Hi(n, c, m); }
        } else {
          n', p := AddChild16(n, c, m);
        }
      case Node48(_, _, _, _, _) =>
        if MustGrow(n) { n', p := GrowNode48(n, c, m); } else { n', p := AddChild48(n, c, m); }
      case Node256(_, _, _, _) =>
        n', p := AddChild256(n, c, m);
    }
  }
}
