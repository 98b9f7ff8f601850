/**
 Merging two neighbouring non-leaf pages: every key is still routed to the same child.
*/
module MergeRouting {
  import opened Common

  /** A rightmost page has no high key. */
  datatype Node = Node(links: seq<Link<nat>>, hikey: Option<int>)

  /** The child a page sends the target to. */
  function Through(pages: map<nat, Node>, c: nat, t: Target<int>): Option<nat> {
    if c in pages && pages[c].links != [] then Some(pages[c].links[Pick(pages[c].links, t)].child) else None
  }

  /** The child of the child: through the parent, then through the page. */
  function Reached(pages: map<nat, Node>, parent: seq<Link<nat>>, t: Target<int>): Option<nat> {
    if parent == [] then None else Through(pages, parent[Pick(parent, t)].child, t)
  }

  /** Copies the downlinks of both pages; the first one of the right page gets the left page's high key. */
  method MergeNodes(left: Node, right: Node) returns (merged: Node)
    ensures merged.links == left.links + KeyFirst(right.links, left.hikey)
    ensures merged.hikey == right.hikey
  {
    var items := left.links;
    var first := true;
    for i := 0 to |right.links|
      invariant first == (i == 0)
      invariant items == left.links + KeyFirst(right.links, left.hikey)[..i]
    {
      if first {
        items := items + [Link(left.hikey, right.links[i].child)];
        first := false;
      } else {
        items := items + [right.links[i]];
      }
    }
    merged := Node(items, right.hikey);
  }

  // ---------------------------------------------------------------------------
  // Picking
  // ---------------------------------------------------------------------------

  /** Only the first link has no key, and keys ascend. */
  ghost predicate Ascending(links: seq<Link<nat>>) {
    (forall i :: 0 <= i < |links| ==> links[i].key.Some? == (i > 0)) &&
    (forall i, j :: 0 < i < j < |links| ==> links[i].key.value < links[j].key.value)
  }

  /** The merged page link by link. */
  ghost predicate Joined(all: seq<Link<nat>>, left: seq<Link<nat>>, right: seq<Link<nat>>, key: Option<int>) {
    |all| == |left| + |right| && (forall j :: 0 <= j < |left| ==> all[j] == left[j]) &&
    (right != [] ==> all[|left|] == Link(key, right[0].child)) &&
    (forall j :: |left| < j < |all| ==> all[j] == right[j - |left|])
  }

  lemma MergedIsJoined(left: seq<Link<nat>>, right: seq<Link<nat>>, key: Option<int>)
    ensures Joined(left + KeyFirst(right, key), left, right, key)
  {
    var tail := KeyFirst(right, key);
    assert |tail| == |right| && forall j :: 0 < j < |right| ==> tail[j] == right[j];
    JoinedParts(left, tail, right, key);
  }

  lemma JoinedParts(left: seq<Link<nat>>, tail: seq<Link<nat>>, right: seq<Link<nat>>, key: Option<int>)
    requires |tail| == |right| && (forall j :: 0 < j < |right| ==> tail[j] == right[j])
    requires right != [] ==> tail[0] == Link(key, right[0].child)
    ensures Joined(left + tail, left, right, key)
  {
  }

  /** A target that passes the key the right part begins at is picked as in the right page. */
  lemma PickShifted(all: seq<Link<nat>>, right: seq<Link<nat>>, k: nat, t: Target<int>)
    requires right != [] && |all| == k + |right| && PassesLink(t, all[k])
    requires forall j :: k < j < |all| ==> all[j].key == right[j - k].key
    ensures Pick(all, t) == k + Pick(right, t)
  {
    var i := Pick(right, t);
    PickMeans(right, t);
    forall j | k + i < j < |all| ensures !PassesLink(t, all[j]) {
      assert PassesLink(t, all[j]) == PassesLink(t, right[j - k]);
    }
    assert i > 0 ==> PassesLink(t, all[k + i]) == PassesLink(t, right[i]);
    PickIs(all, t, k + i);
  }

  lemma PickRight(all: seq<Link<nat>>, left: seq<Link<nat>>, right: seq<Link<nat>>, b: int, t: Target<int>)
    requires Joined(all, left, right, Some(b)) && right != [] && Passes(t, b)
    ensures Pick(all, t) == |left| + Pick(right, t) && all[Pick(all, t)].child == right[Pick(right, t)].child
  {
    PickShifted(all, right, |left|, t);
  }

  /** Any other target is picked as in the left page. */
  lemma PickLeft(all: seq<Link<nat>>, left: seq<Link<nat>>, right: seq<Link<nat>>, b: int, t: Target<int>)
    requires Joined(all, left, right, Some(b)) && left != [] && !Passes(t, b)
    requires forall i :: 0 < i < |right| ==> right[i].key.Some? && b < right[i].key.value
    ensures Pick(all, t) == Pick(left, t)
  {
    var i := Pick(left, t);
    PickMeans(left, t);
    forall j | i < j < |all| ensures !PassesLink(t, all[j]) {
      assert j < |left| ==> all[j] == left[j];
      assert j > |left| ==> all[j] == right[j - |left|];
    }
    PickIs(all, t, i);
  }

  /** Without downlink `i`, targets it took go to its left neighbour, and nothing else changes. */
  lemma PickWithout(parent: seq<Link<nat>>, i: nat, t: Target<int>)
    requires Ascending(parent) && 0 < i < |parent|
    ensures var p, rest := Pick(parent, t), parent[..i] + parent[i + 1..];
            Pick(rest, t) == if p < i then p else p - 1
  {
    var p, rest := Pick(parent, t), parent[..i] + parent[i + 1..];
    PickMeans(parent, t);
    var q := if p < i then p else p - 1;
    forall j | q < j < |rest| ensures !PassesLink(t, rest[j]) {
      assert rest[j] == if j < i then parent[j] else parent[j + 1];
    }
    PickedPasses(parent, t, p, if p == i then i - 1 else p);
    assert rest[q] == if q < i then parent[q] else parent[q + 1];
    PickIs(rest, t, q);
  }

  /** A target that passes a key passes all lower ones. */
  lemma PickedPasses(parent: seq<Link<nat>>, t: Target<int>, p: nat, q: nat)
    requires Ascending(parent) && q <= p < |parent| && (p == 0 || PassesLink(t, parent[p]))
    ensures q == 0 || PassesLink(t, parent[q])
  {
  }

  // ---------------------------------------------------------------------------
  // Routing
  // ---------------------------------------------------------------------------

  /** The pages under downlinks `i - 1` and `i` of the parent, which meet at the key of the second. */
  ghost predicate Mergeable(pages: map<nat, Node>, parent: seq<Link<nat>>, i: nat) {
    Ascending(parent) && 0 < i < |parent| &&
    (forall a, b :: 0 <= a < b < |parent| ==> parent[a].child != parent[b].child) &&
    parent[i - 1].child in pages && parent[i].child in pages &&
    var left, right := pages[parent[i - 1].child], pages[parent[i].child];
    left.links != [] && right.links != [] && left.hikey == parent[i].key &&
    (forall j :: 0 < j < |right.links| ==> right.links[j].key.Some? && parent[i].key.value < right.links[j].key.value)
  }

  /** The pages after the merge: the left one merged, the right one gone. */
  function AfterPages(pages: map<nat, Node>, parent: seq<Link<nat>>, i: nat, merged: Node): map<nat, Node>
    requires 0 < i < |parent|
  {
    pages[parent[i - 1].child := merged] - {parent[i].child}
  }

  lemma ThroughMerged(pages: map<nat, Node>, parent: seq<Link<nat>>, i: nat, merged: Node, t: Target<int>)
    requires Mergeable(pages, parent, i)
    requires var left, right := pages[parent[i - 1].child], pages[parent[i].child];
             merged.links == left.links + KeyFirst(right.links, left.hikey)
    ensures Through(AfterPages(pages, parent, i, merged), parent[i - 1].child, t) ==
            Through(pages, parent[if PassesLink(t, parent[i]) then i else i - 1].child, t)
  {
    var left, right, b := pages[parent[i - 1].child], pages[parent[i].child], parent[i].key.value;
    MergedIsJoined(left.links, right.links, left.hikey);
    if Passes(t, b) {
      PickRight(merged.links, left.links, right.links, b, t);
    } else {
      PickLeft(merged.links, left.links, right.links, b, t);
    }
  }

  /** For every target: the child of the child is the same before and after the merge. */
  lemma RoutingPreserved(pages: map<nat, Node>, parent: seq<Link<nat>>, i: nat, merged: Node, t: Target<int>)
    requires Mergeable(pages, parent, i)
    requires var left, right := pages[parent[i - 1].child], pages[parent[i].child];
             merged.links == left.links + KeyFirst(right.links, left.hikey)
    ensures Reached(AfterPages(pages, parent, i, merged), parent[..i] + parent[i + 1..], t) == Reached(pages, parent, t)
  {
    PickMeans(parent, t);
    ThroughMerged(pages, parent, i, merged, t);
    RestReached(parent, i, t);
  }

  /** Without downlink `i` the parent leads to the same child as before, or to the left neighbour of the dropped one. */
  lemma RestReached(parent: seq<Link<nat>>, i: nat, t: Target<int>)
    requires Ascending(parent) && 0 < i < |parent|
    ensures var p, rest := Pick(parent, t), parent[..i] + parent[i + 1..];
            rest != [] && rest[Pick(rest, t)] == parent[if p == i then i - 1 else p]
  {
    PickWithout(parent, i, t);
  }

  /** The merge of two non-leaf pages as it runs: the parent loses the right page's downlink, the left page takes
      over the right one's, and every target still reaches the same child. */
  method MergeAndKeepRouting(pages: map<nat, Node>, parent: seq<Link<nat>>, i: nat)
    returns (after: map<nat, Node>, rest: seq<Link<nat>>)
    requires Mergeable(pages, parent, i)
    ensures after.Keys == pages.Keys - {parent[i].child}
    ensures after[parent[i - 1].child].hikey == pages[parent[i].child].hikey
    ensures forall c :: c in after && c != parent[i - 1].child ==> after[c] == pages[c]
    ensures forall t :: Reached(after, rest, t) == Reached(pages, parent, t)
  {
    rest := parent[..i] + parent[i + 1..];
    var merged := MergeNodes(pages[parent[i - 1].child], pages[parent[i].child]);
    after := pages[parent[i - 1].child := merged] - {parent[i].child};
    forall t ensures Reached(after, rest, t) == Reached(pages, parent, t) {
      RoutingPreserved(pages, parent, i, merged, t);
    }
  }
}
