/**
 What each step of the other processes does to the tree, which steps undo which, and a run in
 which all of them happen.
*/
module DescentEffects {
  import opened Common
  import opened Descent

  /** Nothing changes but the blocks in `bs`. */
  ghost predicate OnlyBlocks(w: World, v: World, bs: set<nat>) {
    v.mem.Keys == w.mem.Keys && v.root == w.root &&
    forall b :: b in w.mem && b !in bs ==> v.mem[b] == w.mem[b]
  }

  // ---------------------------------------------------------------------------
  // Splits and merges
  // ---------------------------------------------------------------------------

  lemma Rejoined(links: seq<Downlink>, n: nat, key: Option<int>)
    requires if links == [] then n == 0 else 0 < n < |links| && links[n].key == key
    ensures links[..n] + KeyFirst(CutFirst(links[n..]), key) == links
  {
    if links != [] {
      var cut := links[n..];
      assert KeyFirst(CutFirst(cut), key) == cut by {
        assert CutFirst(cut)[1..] == cut[1..] && cut == [cut[0]] + cut[1..] && cut[0] == links[n];
      }
    }
  }

  /** A split puts a new page at the free block: the two pages together have the downlinks of the one before, the
      key between them is the left high key and the right low key, and the rightlink leads to the new page. */
  lemma SplitDoes(w: World, p: Id, b: nat, key: int, n: nat)
    requires WorldOk(w) && Enabled(w, Split(p, b, key, n))
    ensures var v, r := Apply(w, Split(p, b, key, n)), Current(w, b);
            var was, left, right := ImageOf(w, p), ImageOf(v, p), ImageOf(v, r);
            Live(v, p) && Live(v, r) && r != p && v.born == w.born[r := Birth(Some(key), Some(was.level))] &&
            left.links + KeyFirst(right.links, Some(key)) == was.links && left.level == right.level == was.level &&
            left.hikey == Some(key) && left.right == Some(r) && right.hikey == was.hikey && right.right == was.right &&
            OnlyBlocks(w, v, {p.blk, b}) && v.retired == w.retired
  {
    Rejoined(ImageOf(w, p).links, n, Some(key));
  }

  /** Absorbing gives the left page all downlinks of both and the right page's high key. */
  lemma AbsorbDoes(w: World, p: Id, r: Id)
    requires WorldOk(w) && Enabled(w, Absorb(p, r))
    ensures var v := Apply(w, Absorb(p, r));
            var left, right, img := ImageOf(w, p), ImageOf(w, r), ImageOf(v, p);
            Live(v, p) && img.level == left.level && img.hikey == right.hikey && img.right == None &&
            |img.links| == |left.links| + |right.links| &&
            (forall i :: 0 <= i < |left.links| ==> img.links[i] == left.links[i]) &&
            (forall i :: 0 <= i < |right.links| ==>
               img.links[|left.links| + i] ==
               if i == 0 then Link(left.hikey, right.links[0].child) else right.links[i]) &&
            OnlyBlocks(w, v, {p.blk}) && v.born == w.born && v.retired == w.retired
  {
  }

  /** Absorbing the new page of a split gives back the page before the split. */
  lemma AbsorbUndoesSplit(w: World, p: Id, b: nat, key: int, n: nat)
    requires WorldOk(w) && Enabled(w, Split(p, b, key, n)) && ImageOf(w, p).right == None
    ensures var v, r := Apply(w, Split(p, b, key, n)), Current(w, b);
            WorldOk(v) && Enabled(v, Absorb(p, r)) && ImageOf(Apply(v, Absorb(p, r)), p) == ImageOf(w, p)
  {
    SplitKeeps(w, p, b, key, n);
    SplitDoes(w, p, b, key, n);
  }

  /** A downlink that is added is at its place, and the others keep their order around it. */
  lemma AddLinkDoes(w: World, p: Id, at: nat, r: Id)
    requires WorldOk(w) && Enabled(w, AddLink(p, at, r))
    ensures var v := Apply(w, AddLink(p, at, r));
            var was, img := ImageOf(w, p), ImageOf(v, p);
            Live(v, p) && |img.links| == |was.links| + 1 && img.links[at] == Link(w.born[r].low, Some(r)) &&
            img.links[..at] + img.links[at + 1..] == was.links &&
            img == was.(links := img.links) && OnlyBlocks(w, v, {p.blk}) && v.born == w.born && v.retired == w.retired
  {
  }

  /** Dropping a downlink that was added gives back the page before. */
  lemma DropLinkUndoesAddLink(w: World, p: Id, at: nat, r: Id)
    requires WorldOk(w) && Enabled(w, AddLink(p, at, r))
    ensures var v := Apply(w, AddLink(p, at, r));
            WorldOk(v) && Enabled(v, DropLink(p, at)) && Apply(v, DropLink(p, at)) == w
  {
    AddLinkKeeps(w, p, at, r);
    AddLinkDoes(w, p, at, r);
    var v := Apply(w, AddLink(p, at, r));
    assert Apply(v, DropLink(p, at)).mem == w.mem;
  }

  /** A downlink that is dropped is gone, and the others keep their order. */
  lemma DropLinkDoes(w: World, p: Id, at: nat)
    requires WorldOk(w) && Enabled(w, DropLink(p, at))
    ensures var v := Apply(w, DropLink(p, at));
            var was, img := ImageOf(w, p), ImageOf(v, p);
            Live(v, p) && |img.links| == |was.links| - 1 && img == was.(links := img.links) &&
            (forall i :: 0 <= i < |img.links| ==> img.links[i] == was.links[if i < at then i else i + 1]) &&
            OnlyBlocks(w, v, {p.blk}) && v.born == w.born && v.retired == w.retired
  {
  }

  lemma ClearRightDoes(w: World, p: Id)
    requires WorldOk(w) && Live(w, p)
    ensures var v := Apply(w, ClearRight(p));
            ImageOf(v, p) == ImageOf(w, p).(right := None) && Live(v, p) &&
            OnlyBlocks(w, v, {p.blk}) && v.born == w.born && v.retired == w.retired
  {
  }

  // ---------------------------------------------------------------------------
  // Retiring a page, raising the root, eviction and loading
  // ---------------------------------------------------------------------------

  /** A retired page is dead: its block has a higher change count and is free. */
  lemma RetireDoes(w: World, p: Id, bump: nat)
    requires WorldOk(w) && Enabled(w, Retire(p, bump))
    ensures var v := Apply(w, Retire(p, bump));
            v.retired == w.retired + {p} && v.mem[p.blk].cc == w.mem[p.blk].cc + bump &&
            !Live(v, p) && Free(v, p.blk) && OnlyBlocks(w, v, {p.blk}) && v.born == w.born
  {
    NotBornYet(w, Id(p.blk, w.mem[p.blk].cc + bump));
  }

  /** The root's contents move to a new page; the root, one level higher, leads to it and to the page it was split
      from. */
  lemma GrowRootDoes(w: World, b: nat)
    requires WorldOk(w) && Enabled(w, GrowRoot(b))
    ensures var v, l, was := Apply(w, GrowRoot(b)), Current(w, b), ImageOf(w, w.root);
            var img := ImageOf(v, w.root);
            Live(v, w.root) && Live(v, l) && l != w.root && ImageOf(v, l) == was &&
            v.born == w.born[l := Birth(None, Some(was.level))] && img.level == was.level + 1 && img.hikey == None &&
            |img.links| == 2 && img.links[0].child == Some(l) && img.links[1].key == was.hikey &&
            img.links[1].child == was.right && OnlyBlocks(w, v, {w.root.blk, b}) && v.retired == w.retired
  {
  }

  lemma EvictDoes(w: World, p: Id, at: nat)
    requires WorldOk(w) && Enabled(w, Evict(p, at))
    ensures var v := Apply(w, Evict(p, at));
            var was, img := ImageOf(w, p), ImageOf(v, p);
            img == was.(links := img.links) && |img.links| == |was.links| && img.links[at].child == None &&
            (forall i :: 0 <= i < |was.links| ==> img.links[i].key == was.links[i].key) &&
            (forall i :: 0 <= i < |was.links| && i != at ==> img.links[i] == was.links[i]) &&
            Live(v, p) && OnlyBlocks(w, v, {p.blk}) && v.born == w.born && v.retired == w.retired
  {
  }

  /** A page that is loaded lives at the free block, and its parent's downlink leads to it. */
  lemma LoadDoes(w: World, p: Id, at: nat, b: nat, page: Image)
    requires WorldOk(w) && Enabled(w, Load(p, at, b, page))
    ensures var v, c := Apply(w, Load(p, at, b, page)), Current(w, b);
            var was, img := ImageOf(w, p), ImageOf(v, p);
            Live(v, c) && c != p && ImageOf(v, c) == page &&
            img == was.(links := img.links) && |img.links| == |was.links| && img.links[at].child == Some(c) &&
            (forall i :: 0 <= i < |was.links| ==> img.links[i].key == was.links[i].key) &&
            (forall i :: 0 <= i < |was.links| && i != at ==> img.links[i] == was.links[i]) &&
            v.born == w.born[c := Birth(LinkLow(was.links, at, w.born[p].low), Some(page.level))] &&
            OnlyBlocks(w, v, {p.blk, b}) && v.retired == w.retired
  {
  }

  // ---------------------------------------------------------------------------
  // Steps that belong together
  // ---------------------------------------------------------------------------

  /** `p` is the live child at downlink `i` of the live page `q`, and reaches up to the next downlink. */
  ghost predicate Child(w: World, q: Id, i: int, p: Id) {
    Live(w, q) && Live(w, p) && q != p && 0 <= i < |ImageOf(w, q).links| &&
    ImageOf(w, q).links[i].child == Some(p) &&
    ImageOf(w, p).hikey == LinkHigh(ImageOf(w, q).links, i, ImageOf(w, q).hikey)
  }

  /** A child is on the level below, and its range is part of its parent's. */
  lemma ChildInside(w: World, q: Id, i: int, p: Id)
    requires WorldOk(w) && Child(w, q, i, p)
    ensures var img := ImageOf(w, q);
            img.level == ImageOf(w, p).level + 1 &&
            w.born[p] == Birth(LinkLow(img.links, i, w.born[q].low), Some(img.level - 1))
  {
    assert BlockOk(w, q.blk) && BlockOk(w, p.blk);
    assert LinkOk(w.born, ImageOf(w, q).links, i, w.born[q].low, ImageOf(w, q).level);
  }

  /** A key inside the range of downlink `i` goes right behind it. */
  lemma PlaceBehind(low: Option<int>, img: Image, i: nat, key: int)
    requires InOrder(low, img.hikey, img.links) && i < |img.links|
    requires KeyInside(LinkLow(img.links, i, low), LinkHigh(img.links, i, img.hikey), Some(key))
    ensures Place(img.links, i + 1, key) && KeyInside(low, img.hikey, Some(key))
  {
    forall j {:trigger img.links[j]} | 0 < j < i + 1 ensures img.links[j].key.Some? && img.links[j].key.value < key {
      if j < i {
        assert Below(img.links[j].key.value, img.links[i].key);
      }
    }
    forall j {:trigger img.links[j]} | i + 1 <= j < |img.links| ensures Below(key, img.links[j].key) {
      if i + 1 < j {
        assert Below(img.links[i + 1].key.value, img.links[j].key);
      }
    }
  }

  /** A split of a child can be finished: the parent takes the new page's downlink right behind the child's, and the
      rightlink is cleared. */
  lemma SplitCanFinish(w: World, q: Id, i: nat, p: Id, b: nat, key: int, n: nat)
    requires WorldOk(w) && Child(w, q, i, p) && Enabled(w, Split(p, b, key, n))
    ensures var v, r := Apply(w, Split(p, b, key, n)), Current(w, b);
            WorldOk(v) && Enabled(v, AddLink(q, i + 1, r)) &&
            var u := Apply(v, AddLink(q, i + 1, r));
            WorldOk(u) && Enabled(u, ClearRight(p)) &&
            var z := Apply(u, ClearRight(p));
            WorldOk(z) && Child(z, q, i, p) && Child(z, q, i + 1, r) && ImageOf(z, p).right == None
  {
    var v, r, img := Apply(w, Split(p, b, key, n)), Current(w, b), ImageOf(w, q);
    ChildInside(w, q, i, p);
    SplitDoes(w, p, b, key, n);
    SplitKeeps(w, p, b, key, n);
    assert ImageOf(v, q) == img && BlockOk(w, q.blk);
    PlaceBehind(w.born[q].low, img, i, key);
    FinishSplit(v, q, i, p, r, key);
  }

  lemma FinishSplit(v: World, q: Id, i: nat, p: Id, r: Id, key: int)
    requires WorldOk(v) && Live(v, q) && Live(v, p) && Live(v, r) && p != q && p != r && q != r
    requires Enabled(v, AddLink(q, i + 1, r)) && ImageOf(v, q).links[i].child == Some(p) && v.born[r].low == Some(key)
    requires ImageOf(v, p).hikey == Some(key) &&
      ImageOf(v, r).hikey == LinkHigh(ImageOf(v, q).links, i, ImageOf(v, q).hikey)
    ensures var u := Apply(v, AddLink(q, i + 1, r));
            WorldOk(u) && Enabled(u, ClearRight(p)) &&
            var z := Apply(u, ClearRight(p));
            WorldOk(z) && Child(z, q, i, p) && Child(z, q, i + 1, r) && ImageOf(z, p).right == None
  {
    AddLinkKeeps(v, q, i + 1, r);
    AddLinkDoes(v, q, i + 1, r);
    var u := Apply(v, AddLink(q, i + 1, r));
    ClearRightKeeps(u, p);
    ClearRightDoes(u, p);
    var img, was := ImageOf(u, q), ImageOf(v, q);
    assert img.links == was.links[..i + 1] + [Link(Some(key), Some(r))] + was.links[i + 1..];
  }

  /** Two children next to each other can be merged: the parent drops the right one's downlink, the left page takes
      over its contents and range, and the right page is retired. */
  lemma NeighboursCanMerge(w: World, q: Id, i: nat, p: Id, r: Id, bump: nat)
    requires WorldOk(w) && Child(w, q, i, p) && Child(w, q, i + 1, r) && p != r && ImageOf(w, r).right == None
    requires r != w.root && bump > 0
    ensures Enabled(w, DropLink(q, i + 1)) &&
            var v := Apply(w, DropLink(q, i + 1));
            WorldOk(v) && Enabled(v, Absorb(p, r)) &&
            var u := Apply(v, Absorb(p, r));
            WorldOk(u) && Enabled(u, Retire(r, bump)) &&
            var z := Apply(u, Retire(r, bump));
            WorldOk(z) && Child(z, q, i, p) && !Live(z, r) && Free(z, r.blk)
  {
    DropLinkKeeps(w, q, i + 1);
    DropBetween(w, q, i, p, r);
    FinishMerge(Apply(w, DropLink(q, i + 1)), q, i, p, r, bump);
  }

  lemma DropBetween(w: World, q: Id, i: nat, p: Id, r: Id)
    requires WorldOk(w) && Child(w, q, i, p) && Child(w, q, i + 1, r) && p != r && ImageOf(w, r).right == None
    ensures Enabled(w, DropLink(q, i + 1)) &&
            var v := Apply(w, DropLink(q, i + 1));
            Live(v, q) && Enabled(v, Absorb(p, r)) && i < |ImageOf(v, q).links| && v.root == w.root &&
            ImageOf(v, q).links[i].child == Some(p) &&
            ImageOf(v, r).hikey == LinkHigh(ImageOf(v, q).links, i, ImageOf(v, q).hikey)
  {
    ChildInside(w, q, i, p);
    ChildInside(w, q, i + 1, r);
    assert BlockOk(w, q.blk);
    DropLinkDoes(w, q, i + 1);
  }

  lemma FinishMerge(v: World, q: Id, i: nat, p: Id, r: Id, bump: nat)
    requires WorldOk(v) && Live(v, q) && Enabled(v, Absorb(p, r)) && q != p && q != r && r != v.root && bump > 0
    requires i < |ImageOf(v, q).links| && ImageOf(v, q).links[i].child == Some(p)
    requires ImageOf(v, r).hikey == LinkHigh(ImageOf(v, q).links, i, ImageOf(v, q).hikey)
    ensures var u := Apply(v, Absorb(p, r));
            WorldOk(u) && Enabled(u, Retire(r, bump)) &&
            var z := Apply(u, Retire(r, bump));
            WorldOk(z) && Child(z, q, i, p) && !Live(z, r) && Free(z, r.blk)
  {
    AbsorbKeeps(v, p, r);
    AbsorbDoes(v, p, r);
    var u := Apply(v, Absorb(p, r));
    RetireKeeps(u, r, bump);
    RetireDoes(u, r, bump);
  }

  /** A root that was split can be raised. */
  lemma RootCanGrow(w: World, b: nat, key: int, n: nat, c: nat)
    requires WorldOk(w) && Enabled(w, Split(w.root, b, key, n)) && Free(w, c) && b != c
    ensures var v := Apply(w, Split(w.root, b, key, n));
            WorldOk(v) && Enabled(v, GrowRoot(c)) && RootLevel(Apply(v, GrowRoot(c))) == RootLevel(w) + 1
  {
    SplitKeeps(w, w.root, b, key, n);
    SplitDoes(w, w.root, b, key, n);
    GrowRootDoes(Apply(w, Split(w.root, b, key, n)), c);
  }

  /** A leaf that is evicted can be loaded again into the block it had: the same page under another identity. */
  lemma LeafCanComeBack(w: World, q: Id, i: nat, p: Id, bump: nat)
    requires WorldOk(w) && Child(w, q, i, p) && ImageOf(w, p).level == 0 && ImageOf(w, p).right == None
    requires p != w.root && bump > 0
    ensures Enabled(w, Evict(q, i)) &&
            var v := Apply(w, Evict(q, i));
            WorldOk(v) && Enabled(v, Retire(p, bump)) &&
            var u := Apply(v, Retire(p, bump));
            WorldOk(u) && Enabled(u, Load(q, i, p.blk, ImageOf(w, p))) &&
            var z := Apply(u, Load(q, i, p.blk, ImageOf(w, p)));
            Child(z, q, i, Id(p.blk, p.cc + bump)) && ImageOf(z, p) == ImageOf(w, p)
  {
    ChildInside(w, q, i, p);
    assert BlockOk(w, p.blk);
    EvictKeeps(w, q, i);
    EvictDoes(w, q, i);
    LeafLeavesAndReturns(Apply(w, Evict(q, i)), q, i, p, bump);
  }

  lemma LeafLeavesAndReturns(v: World, q: Id, i: nat, p: Id, bump: nat)
    requires WorldOk(v) && Live(v, q) && Live(v, p) && q != p && p != v.root && bump > 0
    requires i < |ImageOf(v, q).links| && ImageOf(v, q).level == 1 &&
      ImageOf(v, p).hikey == LinkHigh(ImageOf(v, q).links, i, ImageOf(v, q).hikey)
    requires ImageOf(v, p).level == 0 && ImageOf(v, p).right == None
    requires v.born[p].low == LinkLow(ImageOf(v, q).links, i, v.born[q].low)
    ensures Enabled(v, Retire(p, bump)) &&
            var u, img := Apply(v, Retire(p, bump)), ImageOf(v, p);
            WorldOk(u) && Enabled(u, Load(q, i, p.blk, img)) &&
            var z := Apply(u, Load(q, i, p.blk, img));
            Child(z, q, i, Id(p.blk, p.cc + bump)) && ImageOf(z, p) == img
  {
    assert BlockOk(v, p.blk);
    RetireKeeps(v, p, bump);
    RetireDoes(v, p, bump);
    LoadDoes(Apply(v, Retire(p, bump)), q, i, p.blk, ImageOf(v, p));
  }
}
