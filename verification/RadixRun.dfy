/**
 Whole runs of the radix tree, and what every reachable tree looks like inside.
*/
module RadixRun {
  import opened Common
  import opened RadixNode
  import opened RadixKey
  import opened RadixGraph
  import opened RadixSteps
  import opened RadixMemory
  import opened RadixUpdate
  import opened RadixTree
  import RadixIter

  // ---------------------------------------------------------------------------
  // Runs refine a map
  // ---------------------------------------------------------------------------

  datatype Op = Set(key: Key, v: Value) | Delete(key: Key) | Find(key: Key)

  datatype Reply = WasPresent(b: bool) | Got(r: Option<Value>)

  /** The map after the operations, starting from an empty one. */
  function MapAfter(ops: seq<Op>): map<Key, Value> {
    if ops == [] then map[]
    else
      MapStep(MapAfter(ops[..|ops| - 1]), ops[|ops| - 1])
  }

  function MapStep(m: map<Key, Value>, op: Op): map<Key, Value> {
    match op
    case Set(k, v) => m[k := v]
    case Delete(k) => m - {k}
    case Find(_) => m
  }

  /** What an operation answers when the map before it is `m`. */
  function ReplyOf(m: map<Key, Value>, op: Op): Reply {
    match op
    case Set(k, _) => WasPresent(k in m)
    case Delete(k) => WasPresent(k in m)
    case Find(k) => Got(if k in m then Some(m[k]) else None)
  }

  /** One operation on a tree. */
  method Do(t: RadixTree, op: Op) returns (reply: Reply)
    requires t.Valid()
    modifies t
    ensures t.Valid() && t.Contents() == MapStep(old(t.Contents()), op) && reply == ReplyOf(old(t.Contents()), op)
  {
    match op {
      case Set(k, v) =>
        var b := t.Set(k, v);
        reply := WasPresent(b);
      case Delete(k) =>
        var b := t.Delete(k);
        reply := WasPresent(b);
      case Find(k) =>
        var r := t.Find(k);
        reply := Got(r);
    }
  }

  /** The replies are those of a map, so far. */
  ghost predicate Replied(ops: seq<Op>, replies: seq<Reply>) {
    |replies| <= |ops| && forall i :: 0 <= i < |replies| ==> replies[i] == ReplyOf(MapAfter(ops[..i]), ops[i])
  }

  lemma RepliedOne(ops: seq<Op>, before: seq<Op>, op: Op, replies: seq<Reply>, r: Reply)
    requires ops == before + [op] && |replies| == |before| && Replied(before, replies)
    requires r == ReplyOf(MapAfter(before), op)
    ensures Replied(ops, replies + [r]) && MapAfter(ops) == MapStep(MapAfter(before), op)
  {
    assert ops[..|ops| - 1] == before;
    var all := replies + [r];
    forall i {:trigger all[i]} | 0 <= i < |all| ensures all[i] == ReplyOf(MapAfter(ops[..i]), ops[i]) {
      if i < |before| {
        assert before[..i] == ops[..i] && all[i] == replies[i] && ops[i] == before[i];
      } else {
        assert ops[..i] == before;
      }
    }
  }

  /** One operation more. */
  method DoNext(t: RadixTree, ghost ops: seq<Op>, ghost before: seq<Op>, op: Op, replies: seq<Reply>)
    returns (all: seq<Reply>)
    requires t.Valid() && t.Contents() == MapAfter(before) && |replies| == |before| && Replied(before, replies)
    requires ops == before + [op]
    modifies t
    ensures |all| == |ops| && Replied(ops, all) && t.Valid() && t.Contents() == MapAfter(ops)
  {
    var r := Do(t, op);
    RepliedOne(ops, before, op, replies, r);
    all := replies + [r];
  }

  /** Any sequence of operations on an empty tree gives the replies of a map and leaves the map's contents. */
  method Replay(t: RadixTree, ops: seq<Op>) returns (replies: seq<Reply>)
    requires t.Valid() && t.Contents() == map[]
    modifies t
    ensures |replies| == |ops| && Replied(ops, replies) && t.Valid() && t.Contents() == MapAfter(ops)
  {
    if ops == [] {
      return [];
    }
    var n := |ops| - 1;
    replies := Replay(t, ops[..n]);
    replies := DoNext(t, ops, ops[..n], ops[n], replies);
  }

  /** The same for a new tree: the replies and the key count are those of the map. */
  method Run(ops: seq<Op>) returns (replies: seq<Reply>, numKeys: int)
    ensures |replies| == |ops| && Replied(ops, replies)
    ensures numKeys == |MapAfter(ops)|
  {
    var t := new RadixTree();
    replies := Replay(t, ops);
    numKeys := t.numKeys;
  }

  /** After any sequence of operations an iteration lists the map's bindings, each once, in ascending key order. */
  method RunAndScan(ops: seq<Op>) returns (ps: seq<(Key, Value)>)
    ensures RadixIter.Ascending(ps)
    ensures forall i :: 0 <= i < |ps| ==> ps[i].0 in MapAfter(ops) && MapAfter(ops)[ps[i].0] == ps[i].1
    ensures forall k :: k in MapAfter(ops) ==> (k, MapAfter(ops)[k]) in ps
    ensures |ps| == |MapAfter(ops)|
  {
    var t := new RadixTree();
    var replies := Replay(t, ops);
    ps := RadixIter.Scan(t.ctl, t.g);
    AsManyAsBound(ps, MapAfter(ops));
  }

  /** A strictly ascending list of all bindings of a map is as long as the map is large. */
  lemma AsManyAsBound(ps: seq<(Key, Value)>, m: map<Key, Value>)
    requires RadixIter.Ascending(ps) && forall i :: 0 <= i < |ps| ==> ps[i].0 in m
    requires forall k :: k in m ==> (k, m[k]) in ps
    ensures |ps| == |m|
  {
    var keys := seq(|ps|, i requires 0 <= i < |ps| => ps[i].0);
    assert forall k :: k in m ==> k in keys by {
      forall k | k in m ensures k in keys {
        var i :| 0 <= i < |ps| && ps[i] == (k, m[k]);
        assert keys[i] == k;
      }
    }
    DistinctFill(keys, m.Keys);
  }

  lemma {:induction false} DistinctFill(keys: seq<Key>, s: set<Key>)
    requires forall i, j :: 0 <= i < j < |keys| ==> keys[i] != keys[j]
    requires forall k :: k in s <==> k in keys
    ensures |keys| == |s|
  {
    if keys == [] {
      assert s == {};
    } else {
      var n := |keys| - 1;
      forall k ensures k in s - {keys[n]} <==> k in keys[..n] {
        if k in keys[..n] {
          var i :| 0 <= i < n && keys[..n][i] == k;
          assert keys[i] == k;
        }
      }
      DistinctFill(keys[..n], s - {keys[n]});
    }
  }

  // ---------------------------------------------------------------------------
  // What every reachable tree looks like
  // ---------------------------------------------------------------------------

  /** The invariant of one node, without reference to what it stands for. */
  ghost predicate NodeOk(n: Node) {
    match n
    case Node4(_, count, chunks, _) => count <= 4 && count <= |chunks| && Sorted(chunks[..count])
    case Node16(fanout, count, chunks, _) => 4 <= count <= fanout && count <= |chunks| && Sorted(chunks[..count])
    case Node48(_, count, isset, slotIdxs, _) =>
      13 <= count <= 64 && count == |SetBits(isset)| && IndexesMatch(slotIdxs, isset)
    case Node256(_, count, isset, _) => 49 <= |SetBits(isset)| <= 256 && count == |SetBits(isset)| % 256
  }

  lemma DirectBits(isset: seq<bool>, children: seq<Slot>, m: Entries)
    requires RepDirect(isset, children, m)
    ensures |SetBits(isset)| == |m|
  {
    var keys := set c | c in m :: c as int;
    assert keys == SetBits(isset) by {
      forall s | s in SetBits(isset) ensures s in keys { assert (s as uint8) in m; }
    }
    assert keys == m.Keys;
  }

  /** In every reachable tree each allocated node keeps its invariant: sorted chunks, injective slot indexes that
      match the set bits, a count that matches (modulo 256 in the largest kind), and counts above the size at
      which the kind shrinks. */
  lemma EveryNodeOk(t: Control, g: Graph, p: Ptr)
    requires Good(t, g, NoHole) && p in t.mem
    ensures NodeOk(t.mem[p])
  {
    var q := g.pos[p];
    NodeHere(t.mem, t.root, g, NoHole, q);
    if t.mem[p].Node256? {
      DirectBits(t.mem[p].isset, t.mem[p].children, g.ents[q]);
    }
  }

  /** A reachable tree has no keys exactly when its root is an empty node4 and its height is 0. */
  lemma EmptyIff(t: Control, g: Graph)
    requires Good(t, g, NoHole)
    ensures View(g) == map[] <==>
            t.root in t.mem && t.mem[t.root].Node4? && t.mem[t.root].count == 0 && t.startLevel == 0
  {
    NodeHere(t.mem, t.root, g, NoHole, Root(g));
    EmptyIffRootEmpty(g);
    if View(g) == map[] {
      EmptyShape(t.mem, t.root, g);
    } else {
      assert g.ents[Root(g)] != map[];
    }
  }
}
