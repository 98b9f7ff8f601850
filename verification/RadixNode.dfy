/**
 The four node representations of the adaptive radix tree and what a node stands for.

 A node is a value; the tree stores nodes by address.  Every representation stands
 for the same thing, a map from a one-byte key chunk to a slot, and `Rep(n, m)` says
 that node `n` stands for map `m`.  The operations on one node are specified by what
 they do to that map: slots are written here, entries are found and added in
 `RadixInsert` and removed in `RadixRemove`.
*/
module RadixNode {

  type uint8 = x: int | 0 <= x < 256
  type Ptr = nat
  type Value = int

  /** A child slot: a pointer to a node one level down, an embedded value, or a slot
      that is reserved or cleared and holds neither. */
  datatype Slot = Unset | Child(ptr: Ptr) | Leaf(value: Value)

  type Entries = map<uint8, Slot>

  datatype Node =
    | Node4(fanout: uint8, count: uint8, chunks: seq<uint8>, children: seq<Slot>)
    | Node16(fanout: uint8, count: uint8, chunks: seq<uint8>, children: seq<Slot>)
    | Node48(fanout: uint8, count: uint8, isset: seq<bool>, slotIdxs: seq<uint8>, children: seq<Slot>)
    | Node256(fanout: uint8, count: uint8, isset: seq<bool>, children: seq<Slot>)

  const FANOUT_4_MAX := 5
  const FANOUT_4 := 4
  const FANOUT_16_LO := 16
  const FANOUT_16_HI := 32
  const FANOUT_48 := 64
  const MAX_SLOTS := 256
  const INVALID_SLOT_IDX: uint8 := 0xFF
  const SHRINK_48 := 12      // three quarters of FANOUT_16_LO
  const SHRINK_256 := 48     // three quarters of FANOUT_48

  // ---------------------------------------------------------------------------
  // What a node stands for, and its representation invariant
  // ---------------------------------------------------------------------------

  ghost predicate Sorted(ks: seq<uint8>) {
    forall i, j :: 0 <= i < j < |ks| ==> ks[i] < ks[j]
  }

  /** A sorted chunk array and the child array beside it stand for `m`. */
  ghost predicate RepArrays(ks: seq<uint8>, vs: seq<Slot>, m: Entries) {
    |ks| == |vs| && Sorted(ks) &&
    (forall i :: 0 <= i < |ks| ==> ks[i] in m && m[ks[i]] == vs[i]) &&
    (forall c :: c in m ==> c in ks)
  }

  /** node48: used chunks have distinct slot indexes, and exactly those slots are set. */
  ghost predicate IndexesMatch(slotIdxs: seq<uint8>, isset: seq<bool>) {
    (forall c :: 0 <= c < |slotIdxs| && slotIdxs[c] != INVALID_SLOT_IDX ==>
       slotIdxs[c] < |isset| && isset[slotIdxs[c]]) &&
    (forall c, d :: 0 <= c < d < |slotIdxs| && slotIdxs[c] != INVALID_SLOT_IDX ==>
       slotIdxs[c] != slotIdxs[d]) &&
    (forall s :: 0 <= s < |isset| && isset[s] ==> s in slotIdxs)
  }

  ghost function SetBits(isset: seq<bool>): set<int> {
    set s | 0 <= s < |isset| && isset[s]
  }

  ghost predicate RepIndexed(isset: seq<bool>, slotIdxs: seq<uint8>, children: seq<Slot>, m: Entries) {
    |isset| == |children| == FANOUT_48 && |slotIdxs| == MAX_SLOTS &&
    IndexesMatch(slotIdxs, isset) && |SetBits(isset)| == |m| &&
    (forall c: uint8 :: c in m <==> slotIdxs[c] != INVALID_SLOT_IDX) &&
    (forall c :: c in m ==> m[c] == children[slotIdxs[c]])
  }

  ghost predicate RepDirect(isset: seq<bool>, children: seq<Slot>, m: Entries) {
    |isset| == |children| == MAX_SLOTS &&
    (forall c: uint8 :: c in m <==> isset[c]) &&
    (forall c :: c in m ==> m[c] == children[c])
  }

  /**
   Node `n` stands for map `m`.  This is also the representation invariant: strictly
   sorted chunk arrays, node48 indexes injective and matching the set bits, a count
   equal to the number of entries (modulo 256 for node256, whose uint8 count wraps),
   and counts at or above the size the kind shrinks at.
  */
  ghost predicate Rep(n: Node, m: Entries) {
    match n
    case Node4(fanout, count, chunks, children) =>
      fanout == FANOUT_4 && |chunks| == FANOUT_4_MAX && |children| == fanout &&
      count == |m| <= fanout && RepArrays(chunks[..count], children[..count], m)
    case Node16(fanout, count, chunks, children) =>
      (fanout == FANOUT_16_LO || fanout == FANOUT_16_HI) &&
      |chunks| == FANOUT_16_HI && |children| == fanout &&
      4 <= count == |m| <= fanout && RepArrays(chunks[..count], children[..count], m)
    case Node48(fanout, count, isset, slotIdxs, children) =>
      fanout == FANOUT_48 && 13 <= count == |m| <= fanout &&
      RepIndexed(isset, slotIdxs, children, m)
    case Node256(fanout, count, isset, children) =>
      fanout == 0 && 49 <= |m| <= MAX_SLOTS && count == |m| % 256 &&
      RepDirect(isset, children, m)
  }

  /** `children[i]` is the slot that node `n` uses for chunk `c`. */
  ghost predicate SlotIs(n: Node, c: uint8, i: int) {
    0 <= i < |n.children| &&
    match n
    case Node4(_, count, chunks, _) => i < count && i < |chunks| && chunks[i] == c
    case Node16(_, count, chunks, _) => i < count && i < |chunks| && chunks[i] == c
    case Node48(_, _, _, slotIdxs, _) => c < |slotIdxs| && slotIdxs[c] == i
    case Node256(_, _, isset, _) => i == c && i < |isset| && isset[i]
  }

  lemma SlotHolds(n: Node, m: Entries, c: uint8, i: int)
    requires Rep(n, m) && SlotIs(n, c, i)
    ensures c in m && m[c] == n.children[i]
  {
    if n.Node4? || n.Node16? {
      assert n.chunks[..n.count][i] == c;
    }
  }

  /** Storing into a used slot changes that chunk's entry and no other. */
  lemma StoreSlot(n: Node, m: Entries, c: uint8, i: int, s: Slot)
    requires Rep(n, m) && SlotIs(n, c, i)
    ensures c in m && m[c] == n.children[i]
    ensures Rep(n.(children := n.children[i := s]), m[c := s])
    ensures SlotIs(n.(children := n.children[i := s]), c, i)
  {
    SlotHolds(n, m, c, i);
    assert m[c := s].Keys == m.Keys;
    match n {
      case Node4(_, count, chunks, children) =>
        StoreArrays(chunks[..count], children[..count], m, i, s);
        assert children[i := s][..count] == children[..count][i := s];
      case Node16(_, count, chunks, children) =>
        StoreArrays(chunks[..count], children[..count], m, i, s);
        assert children[i := s][..count] == children[..count][i := s];
      case Node48(_, _, isset, slotIdxs, children) =>
        StoreIndexed(isset, slotIdxs, children, m, c, s);
      case Node256(_, _, _, _) =>
    }
  }

  lemma StoreIndexed(isset: seq<bool>, slotIdxs: seq<uint8>, children: seq<Slot>, m: Entries, c: uint8, s: Slot)
    requires RepIndexed(isset, slotIdxs, children, m) && c in m
    ensures RepIndexed(isset, slotIdxs, children[slotIdxs[c] := s], m[c := s])
  {
    assert m[c := s].Keys == m.Keys;
  }

  lemma StoreArrays(ks: seq<uint8>, vs: seq<Slot>, m: Entries, i: int, s: Slot)
    requires RepArrays(ks, vs, m) && 0 <= i < |ks|
    ensures RepArrays(ks, vs[i := s], m[ks[i] := s])
  {
  }

  // ---------------------------------------------------------------------------
  // One element put in or taken out of the parallel arrays
  // ---------------------------------------------------------------------------

  ghost function InsertAt<T>(s: seq<T>, p: nat, x: T): seq<T>
    requires p <= |s|
  {
    s[..p] + [x] + s[p..]
  }

  ghost function RemoveAt<T>(s: seq<T>, p: nat): seq<T>
    requires p < |s|
  {
    s[..p] + s[p + 1..]
  }

  /** `t` is `s` with `x` put in at `p`, element by element. */
  ghost predicate Shifted<T>(s: seq<T>, t: seq<T>, p: nat, x: T) {
    p <= |s| && |t| == |s| + 1 && t[p] == x &&
    (forall i :: 0 <= i < p ==> t[i] == s[i]) && (forall i :: p < i < |t| ==> t[i] == s[i - 1])
  }

  lemma InsertShifts<T>(s: seq<T>, p: nat, x: T)
    requires p <= |s|
    ensures Shifted(s, InsertAt(s, p, x), p, x)
  {
  }

  lemma RemoveShifts<T>(s: seq<T>, p: nat)
    requires p < |s|
    ensures Shifted(RemoveAt(s, p), s, p, s[p])
  {
  }

  lemma ShiftedSorted(ks: seq<uint8>, ks': seq<uint8>, p: nat, c: uint8)
    requires Shifted(ks, ks', p, c) && Sorted(ks)
    requires (forall i :: 0 <= i < p ==> ks[i] < c) && (forall i :: p <= i < |ks| ==> c < ks[i])
    ensures Sorted(ks')
  {
    forall i, j | 0 <= i < j < |ks'| ensures ks'[i] < ks'[j] {
      var a, b := if i <= p then i else i - 1, if j <= p then j else j - 1;
      assert i != p ==> ks'[i] == ks[a];
      assert j != p ==> ks'[j] == ks[b];
    }
  }

  /** Every element of the shorter sequence is found in the longer one. */
  lemma ShiftedHas(ks: seq<uint8>, ks': seq<uint8>, p: nat, c: uint8, i: nat)
    requires Shifted(ks, ks', p, c) && i < |ks|
    ensures ks[i] in ks'
  {
    assert ks'[if i < p then i else i + 1] == ks[i];
  }

  lemma InsertArrays(ks: seq<uint8>, vs: seq<Slot>, m: Entries, p: nat, c: uint8, s: Slot)
    requires RepArrays(ks, vs, m) && p <= |ks| && c !in m
    requires forall i :: 0 <= i < p ==> ks[i] < c
    requires forall i :: p <= i < |ks| ==> c <= ks[i]
    ensures RepArrays(InsertAt(ks, p, c), InsertAt(vs, p, s), m[c := s])
  {
    InsertShifts(ks, p, c);
    InsertShifts(vs, p, s);
    InsertedArrays(ks, vs, InsertAt(ks, p, c), InsertAt(vs, p, s), m, p, c, s);
  }

  lemma InsertedArrays(ks: seq<uint8>, vs: seq<Slot>, ks': seq<uint8>, vs': seq<Slot>, m: Entries, p: nat, c: uint8,
                       s: Slot)
    requires RepArrays(ks, vs, m) && p <= |ks| && c !in m
    requires (forall i :: 0 <= i < p ==> ks[i] < c) && (forall i :: p <= i < |ks| ==> c <= ks[i])
    requires Shifted(ks, ks', p, c) && Shifted(vs, vs', p, s)
    ensures RepArrays(ks', vs', m[c := s])
  {
    ShiftedSorted(ks, ks', p, c);
    forall i | 0 <= i < |ks'| ensures ks'[i] in m[c := s] && m[c := s][ks'[i]] == vs'[i] {
      var a := if i <= p then i else i - 1;
      assert i != p ==> ks'[i] == ks[a] && vs'[i] == vs[a];
    }
    forall d | d in m[c := s] ensures d in ks' {
      if d == c {
        assert ks'[p] == d;
      } else {
        var i :| 0 <= i < |ks| && ks[i] == d;
        ShiftedHas(ks, ks', p, c, i);
      }
    }
  }

  lemma RemoveArrays(ks: seq<uint8>, vs: seq<Slot>, m: Entries, p: nat)
    requires RepArrays(ks, vs, m) && p < |ks|
    ensures RepArrays(RemoveAt(ks, p), RemoveAt(vs, p), m - {ks[p]})
  {
    RemoveShifts(ks, p);
    RemoveShifts(vs, p);
    RemovedArrays(RemoveAt(ks, p), RemoveAt(vs, p), ks, vs, m, p);
  }

  lemma RemovedArrays(ks: seq<uint8>, vs: seq<Slot>, ks': seq<uint8>, vs': seq<Slot>, m: Entries, p: nat)
    requires RepArrays(ks', vs', m) && p < |ks'|
    requires Shifted(ks, ks', p, ks'[p]) && Shifted(vs, vs', p, vs'[p])
    ensures RepArrays(ks, vs, m - {ks'[p]})
  {
    forall i, j | 0 <= i < j < |ks| ensures ks[i] < ks[j] {
      assert ks'[if i < p then i else i + 1] == ks[i] && ks'[if j < p then j else j + 1] == ks[j];
    }
    forall i | 0 <= i < |ks| ensures ks[i] in m - {ks'[p]} && m[ks[i]] == vs[i] {
      var a := if i < p then i else i + 1;
      assert ks'[a] == ks[i] && vs'[a] == vs[i];
    }
    forall d | d in m - {ks'[p]} ensures d in ks {
      var i :| 0 <= i < |ks'| && ks'[i] == d;
      assert ks[if i < p then i else i - 1] == d;
    }
  }
}
