/**
 Taking a chunk out of one node, and shrinking it to the next smaller representation
 when it falls to the kind's threshold.  The last chunk of a node4 is the tree's
 business: the node is then freed, or kept empty when it is the root.
*/
module RadixRemove {
  import opened RadixNode
  import opened RadixInsert

  /** Close the gap left by the element at `p`. */
  method ShiftAndDelete<T>(a: seq<T>, count: nat, p: nat) returns (b: seq<T>)
    requires p < count <= |a|
    ensures |b| == |a|
    ensures b[..count - 1] == RemoveAt(a[..count], p)
  {
    b := a;
    var i := p;
    while i < count - 1
      invariant p <= i <= count - 1 && |b| == |a|
      invariant forall j :: 0 <= j < p ==> b[j] == a[j]
      invariant forall j :: p <= j < i ==> b[j] == a[j + 1]
      invariant forall j :: i <= j < |a| ==> b[j] == a[j]
    {
      b := b[i := b[i + 1]];
      i := i + 1;
    }
  }

  /** Copy `count` elements, skipping the one at `p`. */
  method CopyAndDelete<T>(dst: seq<T>, src: seq<T>, count: nat, p: nat) returns (b: seq<T>)
    requires p < count <= |src| && count - 1 <= |dst|
    ensures |b| == |dst|
    ensures b[..count - 1] == RemoveAt(src[..count], p)
  {
    b := dst;
    var i := 0;
    while i < count - 1
      invariant 0 <= i <= count - 1 && |b| == |dst|
      invariant forall j :: 0 <= j < i ==> b[j] == src[if j >= p then j + 1 else j]
    {
      b := b[i := src[i + (if i >= p then 1 else 0)]];
      i := i + 1;
    }
  }

  lemma MapMinusSize(m: Entries, c: uint8)
    requires c in m
    ensures |m - {c}| == |m| - 1
  {
    assert (m - {c}).Keys == m.Keys - {c};
  }

  /** The first `count` chunks and children without the ones at `p`. */
  lemma DeletedArrays(chunks: seq<uint8>, children: seq<Slot>, count: nat, m: Entries, p: nat,
                      ks: seq<uint8>, vs: seq<Slot>)
    requires p < count <= |chunks| && count <= |children| && RepArrays(chunks[..count], children[..count], m)
    requires ks == RemoveAt(chunks[..count], p) && vs == RemoveAt(children[..count], p)
    ensures RepArrays(ks, vs, m - {chunks[p]}) && |m - {chunks[p]}| == |m| - 1
  {
    assert chunks[..count][p] == chunks[p];
    RemoveArrays(chunks[..count], children[..count], m, p);
    MapMinusSize(m, chunks[p]);
  }

  /** A node4 with at least two entries. */
  method RemoveChild4(n: Node, c: uint8, p: nat, ghost m: Entries) returns (n': Node)
    requires Rep(n, m) && n.Node4? && n.count > 1 && SlotIs(n, c, p)
    ensures Rep(n', m - {c}) && n'.Node4?
  {
    var ks := ShiftAndDelete(n.chunks, n.count, p);
    var vs := ShiftAndDelete(n.children, n.count, p);
    DeletedArrays(n.chunks, n.children, n.count, m, p, ks[..n.count - 1], vs[..n.count - 1]);
    n' := Node4(n.fanout, n.count - 1, ks, vs);
  }

  method RemoveChild16(n: Node, c: uint8, p: nat, ghost m: Entries) returns (n': Node)
    requires Rep(n, m) && n.Node16? && SlotIs(n, c, p)
    ensures Rep(n', m - {c}) && (n'.Node16? <==> n.count > 4)
  {
    if n.count <= 4 {
      n' := ShrinkNode16(n, c, p, m);
      return;
    }
    var ks := ShiftAndDelete(n.chunks, n.count, p);
    var vs := ShiftAndDelete(n.children, n.count, p);
    DeletedArrays(n.chunks, n.children, n.count, m, p, ks[..n.count - 1], vs[..n.count - 1]);
    n' := Node16(n.fanout, n.count - 1, ks, vs);
  }

  /** Move a node16 to a node4, leaving out the chunk at `p`. */
  method ShrinkNode16(n: Node, c: uint8, p: nat, ghost m: Entries) returns (n': Node)
    requires Rep(n, m) && n.Node16? && n.count <= 4 && SlotIs(n, c, p)
    ensures Rep(n', m - {c}) && n'.Node4?
  {
    var ks := CopyAndDelete<uint8>(seq(FANOUT_4_MAX, _ => 0), n.chunks, n.count, p);
    var vs := CopyAndDelete(seq(FANOUT_4, _ => Unset), n.children, n.count, p);
    DeletedArrays(n.chunks, n.children, n.count, m, p, ks[..n.count - 1], vs[..n.count - 1]);
    n' := Node4(FANOUT_4, n.count - 1, ks, vs);
  }

  /** Giving up the slot of a used chunk keeps the indexes consistent with the bits. */
  lemma IndexesRemove(slotIdxs: seq<uint8>, isset: seq<bool>, c: uint8)
    requires IndexesMatch(slotIdxs, isset) && |slotIdxs| == MAX_SLOTS && slotIdxs[c] != INVALID_SLOT_IDX
    requires |isset| == FANOUT_48
    ensures IndexesMatch(slotIdxs[c := INVALID_SLOT_IDX], isset[slotIdxs[c] := false])
  {
    var idx, bits := slotIdxs[c := INVALID_SLOT_IDX], isset[slotIdxs[c] := false];
    forall t | 0 <= t < |bits| && bits[t] ensures t in idx {
      var d :| 0 <= d < |slotIdxs| && slotIdxs[d] == t;
      assert idx[d] == t;
    }
    forall d | 0 <= d < |idx| && idx[d] != INVALID_SLOT_IDX ensures idx[d] < |bits| && bits[idx[d]] {
      assert slotIdxs[d] != slotIdxs[c];
    }
  }

  lemma IndexRemove(isset: seq<bool>, slotIdxs: seq<uint8>, children: seq<Slot>, m: Entries, c: uint8)
    requires RepIndexed(isset, slotIdxs, children, m) && c in m
    ensures RepIndexed(isset[slotIdxs[c] := false], slotIdxs[c := INVALID_SLOT_IDX], children, m - {c})
  {
    ClearBit(isset, slotIdxs[c]);
    MapMinusSize(m, c);
    IndexesRemove(slotIdxs, isset, c);
  }

  method RemoveChild48(n: Node, c: uint8, p: nat, ghost m: Entries) returns (n': Node)
    requires Rep(n, m) && n.Node48? && SlotIs(n, c, p) && c in m
    ensures Rep(n', m - {c}) && (n'.Node48? <==> n.count > SHRINK_48 + 1)
  {
    MapMinusSize(m, c);
    IndexRemove(n.isset, n.slotIdxs, n.children, m, c);
    var isset, slotIdxs := n.isset[p := false], n.slotIdxs[c := INVALID_SLOT_IDX];
    if n.count - 1 <= SHRINK_48 {
      n' := ShrinkNode48(n.count - 1, isset, slotIdxs, n.children, m - {c});
    } else {
      n' := Node48(n.fanout, n.count - 1, isset, slotIdxs, n.children);
    }
  }

  /** `seen` is the part of `m` below chunk `c`. */
  ghost predicate Below(m: Entries, c: int, seen: Entries) {
    (forall d :: d in seen <==> d in m && d < c) &&
    (forall d :: d in seen ==> seen[d] == m[d])
  }

  lemma BelowStep(m: Entries, c: uint8, seen: Entries)
    requires Below(m, c, seen)
    ensures c in m ==> c !in seen && Below(m, c + 1, seen[c := m[c]])
    ensures c !in m ==> Below(m, c + 1, seen)
    ensures c + 1 == MAX_SLOTS ==> (if c in m then seen[c := m[c]] else seen) == m
  {
  }

  /** Collect the used chunks of a node48 in ascending order. */
  method ShrinkNode48(count: uint8, isset: seq<bool>, slotIdxs: seq<uint8>, children: seq<Slot>, ghost m: Entries)
    returns (n': Node)
    requires RepIndexed(isset, slotIdxs, children, m) && count == |m| == SHRINK_48
    ensures Rep(n', m) && n'.Node16?
  {
    var ks, vs := CollectUsed(slotIdxs, children, m);
    n' := Node16(FANOUT_16_LO, count, ks + seq(FANOUT_16_HI - |ks|, _ => 0), vs + seq(FANOUT_16_LO - |vs|, _ => Unset));
    assert n'.chunks[..count] == ks && n'.children[..count] == vs;
  }

  method CollectUsed(slotIdxs: seq<uint8>, children: seq<Slot>, ghost m: Entries)
    returns (ks: seq<uint8>, vs: seq<Slot>)
    requires |slotIdxs| == MAX_SLOTS
    requires forall c: uint8 :: c in m <==> slotIdxs[c] != INVALID_SLOT_IDX
    requires forall c :: c in m ==> slotIdxs[c] < |children| && m[c] == children[slotIdxs[c]]
    ensures RepArrays(ks, vs, m) && |ks| == |m|
  {
    ks, vs := [], [];
    var c := 0;
    ghost var seen: Entries := map[];
    while c < MAX_SLOTS
      invariant 0 <= c <= MAX_SLOTS && Below(m, c, seen)
      invariant RepArrays(ks, vs, seen) && |ks| == |seen|
      invariant c == MAX_SLOTS ==> seen == m
    {
      BelowStep(m, c, seen);
      if slotIdxs[c] != INVALID_SLOT_IDX {
        Append(ks, vs, seen, c, m[c]);
        seen := seen[c := m[c]];
        ks, vs := ks + [c], vs + [children[slotIdxs[c]]];
      }
      c := c + 1;
    }
  }

  lemma Append(ks: seq<uint8>, vs: seq<Slot>, m: Entries, c: uint8, s: Slot)
    requires RepArrays(ks, vs, m) && forall d :: d in m ==> d < c
    ensures RepArrays(ks + [c], vs + [s], m[c := s])
  {
    InsertArrays(ks, vs, m, |ks|, c, s);
    assert InsertAt(ks, |ks|, c) == ks + [c] && InsertAt(vs, |vs|, s) == vs + [s];
  }

  method RemoveChild256(n: Node, c: uint8, ghost m: Entries) returns (n': Node)
    requires Rep(n, m) && n.Node256? && c in m
    ensures Rep(n', m - {c}) && (n'.Node256? <==> |m| > SHRINK_256 + 1)
  {
    MapMinusSize(m, c);
    AtMost256(m);
    var isset := n.isset[c := false];
    var count := (n.count + 255) % 256;
    if count <= SHRINK_256 {
      n' := ShrinkNode256(count, isset, n.children, m - {c});
    } else {
      n' := Node256(n.fanout, count, isset, n.children);
    }
  }

  /** The bitmap whose first `k` bits are set. */
  function Dense(k: nat): (bits: seq<bool>) {
    seq(FANOUT_48, i => i < k)
  }

  /** Pack the used children of a node256 into the first slots of a node48. */
  method ShrinkNode256(count: uint8, isset: seq<bool>, children: seq<Slot>, ghost m: Entries)
    returns (n': Node)
    requires RepDirect(isset, children, m) && count == |m| == SHRINK_256
    ensures Rep(n', m) && n'.Node48?
  {
    var slotIdxs, packed := PackUsed(isset, children, m);
    n' := Node48(FANOUT_48, count, Dense(count), slotIdxs, packed);
  }

  method PackUsed(isset: seq<bool>, children: seq<Slot>, ghost m: Entries)
    returns (slotIdxs: seq<uint8>, packed: seq<Slot>)
    requires |isset| == |children| == MAX_SLOTS && |m| < FANOUT_48
    requires forall c: uint8 :: c in m <==> isset[c]
    requires forall c :: c in m ==> m[c] == children[c]
    ensures RepIndexed(Dense(|m|), slotIdxs, packed, m)
  {
    slotIdxs, packed := seq(MAX_SLOTS, _ => INVALID_SLOT_IDX), seq(FANOUT_48, _ => Unset);
    var k, c := 0, 0;
    ghost var seen: Entries := map[];
    DenseBits(Dense(0), 0);
    while c < MAX_SLOTS
      invariant 0 <= c <= MAX_SLOTS && Below(m, c, seen)
      invariant k == |seen| && RepIndexed(Dense(k), slotIdxs, packed, seen)
      invariant c == MAX_SLOTS ==> seen == m
    {
      BelowStep(m, c, seen);
      if isset[c] {
        StillRoom(m, c, seen);
        PackOne(seen, c, m[c], slotIdxs, packed);
        seen := seen[c := m[c]];
        slotIdxs, packed := slotIdxs[c := k], packed[k := children[c]];
        k := k + 1;
      }
      c := c + 1;
    }
  }

  lemma StillRoom(m: Entries, c: uint8, seen: Entries)
    requires Below(m, c, seen) && c in m
    ensures |seen| < |m|
  {
    var a: set<int>, b: set<int> := seen.Keys + {c}, m.Keys;
    SubsetSize(a, b);
  }

  lemma PackOne(seen: Entries, c: uint8, s: Slot, slotIdxs: seq<uint8>, packed: seq<Slot>)
    requires RepIndexed(Dense(|seen|), slotIdxs, packed, seen) && c !in seen && |seen| < FANOUT_48
    ensures RepIndexed(Dense(|seen| + 1), slotIdxs[c := |seen|], packed[|seen| := s], seen[c := s])
  {
    var k := |seen|;
    IndexInsert(Dense(k), slotIdxs, packed, seen, c, k, s);
    assert Dense(k)[k := true] == Dense(k + 1);
  }

  /** Remove a used chunk from a node that keeps at least one entry. */
  method NodeDelete(n: Node, c: uint8, p: nat, ghost m: Entries) returns (n': Node)
    requires Rep(n, m) && SlotIs(n, c, p) && |m| > 1
    ensures c in m && Rep(n', m - {c})
  {
    SlotHolds(n, m, c, p);
    match n {
      case Node4(_, _, _, _) => n' := RemoveChild4(n, c, p, m);
      case Node16(_, _, _, _) => n' := RemoveChild16(n, c, p, m);
      case Node48(_, _, _, _, _) => n' := RemoveChild48(n, c, p, m);
      case Node256(_, _, _, _) => n' := RemoveChild256(n, c, m);
    }
  }
}
