/**
 Descending the tree while pages split, merge and are evicted.

 A page is identified by its block and the change count the block had when the page was put
 there; freeing a block raises its change count.  Every page ever created has a low key and a
 level, which stay the same for its whole life; only the root's level grows.  A search carries
 page identities taken from downlinks and rightlinks, and accepts a page only when the block
 still has the change count it expects.
*/
module Descent {
  import opened Common

  datatype Id = Id(blk: nat, cc: nat)

  /** A downlink to a page in memory, or to one on disk, which has no identity. */
  type Downlink = Link<Option<Id>>

  /** What a reader sees of a page.  A rightmost page has no high key; the rightlink is set while a split is
      unfinished. */
  datatype Image = Image(level: nat, hikey: Option<int>, right: Option<Id>, links: seq<Downlink>)

  datatype Slot = Slot(cc: nat, img: Image)

  /** What a page keeps for its whole life: its low key, and its level, but the root's level is not fixed. */
  datatype Birth = Birth(low: Option<int>, level: Option<nat>)

  /** The blocks in memory, the root page, the births of all pages ever created, and the pages retired. */
  datatype World = World(mem: map<nat, Slot>, root: Id, born: map<Id, Birth>, retired: set<Id>)

  // ---------------------------------------------------------------------------
  // What every reachable world satisfies
  // ---------------------------------------------------------------------------

  /** The low key downlink `i` stands for: its own, or the page's for the first one. */
  function LinkLow(links: seq<Downlink>, i: int, low: Option<int>): Option<int>
    requires 0 <= i < |links|
  {
    if i == 0 then low else links[i].key
  }

  /** Where the range of downlink `i` ends: at the next key, or at the page's high key. */
  function LinkHigh(links: seq<Downlink>, i: int, hikey: Option<int>): Option<int>
    requires 0 <= i < |links|
  {
    if i + 1 < |links| then links[i + 1].key else hikey
  }

  predicate Above(low: Option<int>, k: int) {
    low.Some? ==> low.value < k
  }

  predicate Below(k: int, hikey: Option<int>) {
    hikey.Some? ==> k < hikey.value
  }

  predicate KeyInside(low: Option<int>, hikey: Option<int>, key: Option<int>) {
    key.Some? && Above(low, key.value) && Below(key.value, hikey)
  }

  /** The keys of the downlinks ascend, strictly between the page's low key and its high key. */
  ghost predicate InOrder(low: Option<int>, hikey: Option<int>, links: seq<Downlink>) {
    (hikey.Some? ==> Above(low, hikey.value)) &&
    (forall i {:trigger links[i]} :: 0 < i < |links| ==> KeyInside(low, hikey, links[i].key)) &&
    (forall i, j {:trigger links[i], links[j]} :: 0 < i < j < |links| ==> Below(links[i].key.value, links[j].key))
  }

  /** A child in memory was created one level down, with the low key its downlink stands for. */
  ghost predicate LinkOk(born: map<Id, Birth>, links: seq<Downlink>, i: int, low: Option<int>, level: nat)
    requires 0 <= i < |links|
  {
    links[i].child.Some? ==>
      level > 0 && links[i].child.value in born &&
      born[links[i].child.value] == Birth(LinkLow(links, i, low), Some(level - 1))
  }

  ghost predicate LinksOk(born: map<Id, Birth>, links: seq<Downlink>, low: Option<int>, level: nat) {
    forall i {:trigger LinkOk(born, links, i, low, level)} :: 0 <= i < |links| ==> LinkOk(born, links, i, low, level)
  }

  /** The image of a page born so: only pages above the leaves have downlinks, which are in order and lead to
      the right children; the rightlink leads to the page of the same level that starts at the high key. */
  ghost predicate Sound(born: map<Id, Birth>, birth: Birth, img: Image) {
    (birth.level.Some? ==> img.level == birth.level.value) && (img.level > 0 <==> img.links != []) &&
    (img.right.Some? ==>
       img.hikey.Some? && img.right.value in born && born[img.right.value] == Birth(img.hikey, Some(img.level))) &&
    InOrder(birth.low, img.hikey, img.links) && LinksOk(born, img.links, birth.low, img.level)
  }

  /** The page at block `b` now. */
  function Current(w: World, b: nat): Id
    requires b in w.mem
  {
    Id(b, w.mem[b].cc)
  }

  predicate Live(w: World, id: Id) {
    id.blk in w.mem && Current(w, id.blk) == id && id in w.born
  }

  ghost predicate BlockOk(w: World, b: nat)
    requires b in w.mem
  {
    Current(w, b) in w.born ==> Sound(w.born, w.born[Current(w, b)], w.mem[b].img)
  }

  ghost predicate WorldOk(w: World) {
    (forall b {:trigger BlockOk(w, b)} :: b in w.mem ==> BlockOk(w, b)) &&
    (forall id :: id in w.born ==> id.blk in w.mem && id.cc <= w.mem[id.blk].cc) &&
    (forall id :: id in w.retired ==> id.blk in w.mem && id.cc < w.mem[id.blk].cc) &&
    Live(w, w.root) && w.born[w.root] == Birth(None, None) &&
    forall id {:trigger w.born[id]} :: id in w.born && w.born[id].level == None ==> id == w.root
  }

  /** A new tree: the root is a leaf without a high key, all other blocks are free. */
  lemma NewTreeOk(blocks: set<nat>, b: nat)
    requires b in blocks
    ensures WorldOk(World(map c | c in blocks :: Slot(0, Image(0, None, None, [])), Id(b, 0),
                          map[Id(b, 0) := Birth(None, None)], {}))
  {
    var w := World(map c | c in blocks :: Slot(0, Image(0, None, None, [])), Id(b, 0),
                   map[Id(b, 0) := Birth(None, None)], {});
    forall c {:trigger BlockOk(w, c)} | c in w.mem ensures BlockOk(w, c) {
      assert w.mem[c].img.links == [];
    }
  }

  // ---------------------------------------------------------------------------
  // Steps of the other processes
  // ---------------------------------------------------------------------------

  /** A block that is free: its present change count was never handed out. */
  predicate Free(w: World, b: nat) {
    b in w.mem && Current(w, b) !in w.born
  }

  function SetImage(w: World, id: Id, img: Image): World
    requires id.blk in w.mem
  {
    w.(mem := w.mem[id.blk := Slot(w.mem[id.blk].cc, img)])
  }

  function ImageOf(w: World, id: Id): Image
    requires id.blk in w.mem
  {
    w.mem[id.blk].img
  }

  /** A new page at a free block. */
  function Create(w: World, b: nat, birth: Birth, img: Image): World
    requires b in w.mem
  {
    SetImage(w, Current(w, b), img).(born := w.born[Current(w, b) := birth])
  }

  datatype Step =
      Split(page: Id, blk: nat, key: int, n: nat)
    | AddLink(page: Id, i: nat, right: Id)
    | ClearRight(page: Id)
    | DropLink(page: Id, i: nat)
    | Absorb(page: Id, right: Id)
    | Retire(page: Id, bump: nat)
    | GrowRoot(blk: nat)
    | Evict(page: Id, i: nat)
    | Load(page: Id, i: nat, blk: nat, img: Image)

  /** The place for a downlink with key `k`: after the smaller keys and before the larger ones. */
  ghost predicate Place(links: seq<Downlink>, i: nat, k: int) {
    0 < i <= |links| &&
    (forall j {:trigger links[j]} :: 0 < j < i ==> links[j].key.Some? && links[j].key.value < k) &&
    (forall j {:trigger links[j]} :: i <= j < |links| ==> Below(k, links[j].key))
  }

  /** When a step can be taken. */
  ghost predicate Enabled(w: World, s: Step) {
    match s
    case Split(p, b, key, n) =>
      // the items from `n` on move to the new page, which begins at the split key
      Live(w, p) && Free(w, b) && KeyInside(w.born[p].low, ImageOf(w, p).hikey, Some(key)) &&
      var links := ImageOf(w, p).links;
      if links == [] then n == 0 else 0 < n < |links| && links[n].key == Some(key)
    case AddLink(p, i, r) =>
      Live(w, p) && r in w.born && w.born[r].level.Some? && w.born[r].level.value + 1 == ImageOf(w, p).level &&
      KeyInside(w.born[p].low, ImageOf(w, p).hikey, w.born[r].low) &&
      Place(ImageOf(w, p).links, i, w.born[r].low.value)
    case ClearRight(p) => Live(w, p)
    case DropLink(p, i) => Live(w, p) && 0 < i < |ImageOf(w, p).links|
    case Absorb(p, r) =>
      // neighbours; no split of the right page is in progress
      Live(w, p) && Live(w, r) && p != r && ImageOf(w, p).hikey.Some? && w.born[r].low == ImageOf(w, p).hikey &&
      ImageOf(w, r).right == None && ImageOf(w, p).level == ImageOf(w, r).level
    case Retire(p, bump) => Live(w, p) && p != w.root && bump > 0
    case GrowRoot(b) => Live(w, w.root) && Free(w, b) && ImageOf(w, w.root).right.Some?
    case Evict(p, i) => Live(w, p) && i < |ImageOf(w, p).links|
    case Load(p, i, b, img) =>
      // the page written last for this downlink
      Live(w, p) && Free(w, b) && i < |ImageOf(w, p).links| && img.right == None &&
      img.level + 1 == ImageOf(w, p).level && (img.level > 0 <==> img.links != []) &&
      InOrder(LinkLow(ImageOf(w, p).links, i, w.born[p].low), img.hikey, img.links) &&
      forall j :: 0 <= j < |img.links| ==> img.links[j].child == None
  }

  ghost function Apply(w: World, s: Step): World
    requires WorldOk(w) && Enabled(w, s)
  {
    match s
    case Split(p, b, key, n) =>
      var img := ImageOf(w, p);
      SetImage(Create(w, b, Birth(Some(key), Some(img.level)),
                      Image(img.level, img.hikey, img.right, CutFirst(img.links[n..]))),
               p, Image(img.level, Some(key), Some(Current(w, b)), img.links[..n]))
    case AddLink(p, i, r) =>
      var img := ImageOf(w, p);
      SetImage(w, p, img.(links := img.links[..i] + [Link(w.born[r].low, Some(r))] + img.links[i..]))
    case ClearRight(p) => SetImage(w, p, ImageOf(w, p).(right := None))
    case DropLink(p, i) =>
      var img := ImageOf(w, p);
      SetImage(w, p, img.(links := img.links[..i] + img.links[i + 1..]))
    case Absorb(p, r) =>
      var left, right := ImageOf(w, p), ImageOf(w, r);
      SetImage(w, p, Image(left.level, right.hikey, None, left.links + KeyFirst(right.links, left.hikey)))
    case Retire(p, bump) =>
      World(w.mem[p.blk := Slot(w.mem[p.blk].cc + bump, w.mem[p.blk].img)], w.root, w.born, w.retired + {p})
    case GrowRoot(b) =>
      var img := ImageOf(w, w.root);
      SetImage(Create(w, b, Birth(None, Some(img.level)), img), w.root,
               Image(img.level + 1, None, None, [Link(None, Some(Current(w, b))), Link(img.hikey, img.right)]))
    case Evict(p, i) =>
      var img := ImageOf(w, p);
      SetImage(w, p, img.(links := img.links[i := Link(img.links[i].key, None)]))
    case Load(p, i, b, img) =>
      var parent := ImageOf(w, p);
      SetImage(Create(w, b, Birth(LinkLow(parent.links, i, w.born[p].low), Some(img.level)), img), p,
               parent.(links := parent.links[i := Link(parent.links[i].key, Some(Current(w, b)))]))
  }

  // ---------------------------------------------------------------------------
  // Steps keep the world in order
  // ---------------------------------------------------------------------------

  ghost predicate Extends(a: map<Id, Birth>, b: map<Id, Birth>) {
    forall id :: id in a ==> id in b && a[id] == b[id]
  }

  /** Identities keep their births, so an image that was sound stays so. */
  lemma SoundLater(a: map<Id, Birth>, b: map<Id, Birth>, birth: Birth, img: Image)
    requires Extends(a, b) && Sound(a, birth, img)
    ensures Sound(b, birth, img)
  {
    forall i {:trigger LinkOk(b, img.links, i, birth.low, img.level)} | 0 <= i < |img.links|
      ensures LinkOk(b, img.links, i, birth.low, img.level)
    {
      assert LinkOk(a, img.links, i, birth.low, img.level);
    }
  }

  /** Replacing the image of a live page by a sound one. */
  lemma SetKeeps(w: World, id: Id, img: Image)
    requires WorldOk(w) && Live(w, id) && Sound(w.born, w.born[id], img)
    ensures WorldOk(SetImage(w, id, img))
  {
    var v := SetImage(w, id, img);
    forall b {:trigger BlockOk(v, b)} | b in v.mem ensures BlockOk(v, b) {
      assert BlockOk(w, b);
    }
  }

  /** Creating a page with a sound image. */
  lemma CreateKeeps(w: World, b: nat, birth: Birth, img: Image)
    requires WorldOk(w) && Free(w, b) && birth.level.Some? && Sound(w.born[Current(w, b) := birth], birth, img)
    ensures WorldOk(Create(w, b, birth, img)) && Extends(w.born, Create(w, b, birth, img).born)
  {
    var v := Create(w, b, birth, img);
    forall c {:trigger BlockOk(v, c)} | c in v.mem ensures BlockOk(v, c) {
      assert BlockOk(w, c);
      if c != b && Current(w, c) in w.born {
        SoundLater(w.born, v.born, w.born[Current(w, c)], w.mem[c].img);
      }
    }
  }

  lemma RetireKeeps(w: World, p: Id, bump: nat)
    requires WorldOk(w) && Enabled(w, Retire(p, bump))
    ensures WorldOk(Apply(w, Retire(p, bump)))
  {
    var v := Apply(w, Retire(p, bump));
    forall c {:trigger BlockOk(v, c)} | c in v.mem ensures BlockOk(v, c) {
      assert BlockOk(w, c);
      NotBornYet(w, Id(p.blk, w.mem[p.blk].cc + bump));
    }
  }

  lemma NotBornYet(w: World, id: Id)
    requires WorldOk(w) && id.blk in w.mem && id.cc > w.mem[id.blk].cc
    ensures id !in w.born
  {
  }

  /** The half of a page that moves is in order above the split key, the other half below it. */
  lemma CutInOrder(low: Option<int>, hikey: Option<int>, links: seq<Downlink>, n: nat, key: int)
    requires InOrder(low, hikey, links) && KeyInside(low, hikey, Some(key))
    requires if links == [] then n == 0 else 0 < n < |links| && links[n].key == Some(key)
    ensures InOrder(Some(key), hikey, CutFirst(links[n..])) && InOrder(low, Some(key), links[..n])
  {
    var cut := CutFirst(links[n..]);
    assert forall i {:trigger cut[i]} :: 0 < i < |cut| ==> cut[i] == links[n + i];
  }

  lemma CutLinksOk(born: map<Id, Birth>, low: Option<int>, links: seq<Downlink>, n: nat, key: Option<int>, level: nat)
    requires LinksOk(born, links, low, level)
    requires if links == [] then n == 0 else 0 < n < |links| && links[n].key == key
    ensures LinksOk(born, CutFirst(links[n..]), key, level) && LinksOk(born, links[..n], low, level)
  {
    var cut, left := CutFirst(links[n..]), links[..n];
    forall i {:trigger LinkOk(born, cut, i, key, level)} | 0 <= i < |cut| ensures LinkOk(born, cut, i, key, level) {
      assert LinkOk(born, links, n + i, low, level);
    }
    forall i {:trigger LinkOk(born, left, i, low, level)} | 0 <= i < n ensures LinkOk(born, left, i, low, level) {
      assert LinkOk(born, links, i, low, level);
    }
  }

  lemma SplitKeeps(w: World, p: Id, b: nat, key: int, n: nat)
    requires WorldOk(w) && Enabled(w, Split(p, b, key, n))
    ensures WorldOk(Apply(w, Split(p, b, key, n))) && Extends(w.born, Apply(w, Split(p, b, key, n)).born)
  {
    var img, birth := ImageOf(w, p), w.born[p];
    var moved := Image(img.level, img.hikey, img.right, CutFirst(img.links[n..]));
    var born := Birth(Some(key), Some(img.level));
    assert BlockOk(w, p.blk);
    var v := Create(w, b, born, moved);
    SoundLater(w.born, v.born, birth, img);
    CutLinksOk(v.born, birth.low, img.links, n, Some(key), img.level);
    CutInOrder(birth.low, img.hikey, img.links, n, key);
    CreateKeeps(w, b, born, moved);
    SetKeeps(v, p, Image(img.level, Some(key), Some(Current(w, b)), img.links[..n]));
  }

  /** A downlink put in its place leaves the keys in order. */
  lemma AddInOrder(low: Option<int>, hikey: Option<int>, links: seq<Downlink>, at: nat, link: Downlink)
    requires InOrder(low, hikey, links) && KeyInside(low, hikey, link.key) && Place(links, at, link.key.value)
    ensures InOrder(low, hikey, links[..at] + [link] + links[at..])
  {
    var all := links[..at] + [link] + links[at..];
    assert forall i {:trigger all[i]} :: 0 <= i < |all| ==>
      all[i] == if i < at then links[i] else if i == at then link else links[i - 1];
  }

  lemma AddLinkKeeps(w: World, p: Id, at: nat, r: Id)
    requires WorldOk(w) && Enabled(w, AddLink(p, at, r))
    ensures WorldOk(Apply(w, AddLink(p, at, r)))
  {
    var img, low := ImageOf(w, p), w.born[p].low;
    assert BlockOk(w, p.blk);
    var link := Link(w.born[r].low, Some(r));
    var links := img.links[..at] + [link] + img.links[at..];
    forall i {:trigger LinkOk(w.born, links, i, low, img.level)} | 0 <= i < |links|
      ensures LinkOk(w.born, links, i, low, img.level)
    {
      if i < at {
        assert LinkOk(w.born, img.links, i, low, img.level);
      } else if i > at {
        assert LinkOk(w.born, img.links, i - 1, low, img.level);
      }
    }
    AddInOrder(low, img.hikey, img.links, at, link);
    SetKeeps(w, p, img.(links := links));
  }

  lemma DropInOrder(low: Option<int>, hikey: Option<int>, links: seq<Downlink>, at: nat)
    requires InOrder(low, hikey, links) && 0 < at < |links|
    ensures InOrder(low, hikey, links[..at] + links[at + 1..])
  {
    var rest := links[..at] + links[at + 1..];
    assert forall i {:trigger rest[i]} :: 0 <= i < |rest| ==> rest[i] == if i < at then links[i] else links[i + 1];
  }

  lemma DropLinkKeeps(w: World, p: Id, at: nat)
    requires WorldOk(w) && Enabled(w, DropLink(p, at))
    ensures WorldOk(Apply(w, DropLink(p, at)))
  {
    var img, low := ImageOf(w, p), w.born[p].low;
    assert BlockOk(w, p.blk);
    var links := img.links[..at] + img.links[at + 1..];
    forall i {:trigger LinkOk(w.born, links, i, low, img.level)} | 0 <= i < |links|
      ensures LinkOk(w.born, links, i, low, img.level)
    {
      if i < at {
        assert LinkOk(w.born, img.links, i, low, img.level);
      } else {
        assert LinkOk(w.born, img.links, i + 1, low, img.level);
      }
    }
    DropInOrder(low, img.hikey, img.links, at);
    SetKeeps(w, p, img.(links := links));
  }

  /** Two neighbours' downlinks, the first of the right page keyed by the key between them, are in order. */
  lemma JoinInOrder(low: Option<int>, mid: int, hikey: Option<int>, xs: seq<Downlink>, ys: seq<Downlink>,
                    all: seq<Downlink>)
    requires InOrder(low, Some(mid), xs) && InOrder(Some(mid), hikey, ys) && Above(low, mid)
    requires (xs == [] <==> ys == []) && all == xs + KeyFirst(ys, Some(mid))
    ensures InOrder(low, hikey, all)
  {
    forall i {:trigger all[i]} | 0 < i < |all| ensures KeyInside(low, hikey, all[i].key) {
      JoinedKey(low, mid, hikey, xs, ys, all, i);
    }
    forall i, j {:trigger all[i], all[j]} | 0 < i < j < |all| ensures Below(all[i].key.value, all[j].key) {
      JoinedKeys(low, mid, hikey, xs, ys, all, i, j);
    }
  }

  lemma JoinedKeys(low: Option<int>, mid: int, hikey: Option<int>, xs: seq<Downlink>, ys: seq<Downlink>,
                   all: seq<Downlink>, i: nat, j: nat)
    requires InOrder(low, Some(mid), xs) && InOrder(Some(mid), hikey, ys) && Above(low, mid)
    requires (xs == [] <==> ys == []) && all == xs + KeyFirst(ys, Some(mid)) && 0 < i < j < |all|
    ensures all[i].key.Some? && Below(all[i].key.value, all[j].key)
  {
    JoinedKey(low, mid, hikey, xs, ys, all, i);
    JoinedKey(low, mid, hikey, xs, ys, all, j);
    if j < |xs| {
      assert all[i] == xs[i] && all[j] == xs[j];
    } else if i > |xs| {
      assert all[i] == ys[i - |xs|] && all[j] == ys[j - |xs|];
    }
  }

  /** Which keys come before, at and after the key between the pages. */
  lemma JoinedKey(low: Option<int>, mid: int, hikey: Option<int>, xs: seq<Downlink>, ys: seq<Downlink>,
                  all: seq<Downlink>, i: nat)
    requires InOrder(low, Some(mid), xs) && InOrder(Some(mid), hikey, ys) && Above(low, mid)
    requires (xs == [] <==> ys == []) && all == xs + KeyFirst(ys, Some(mid)) && 0 < i < |all|
    ensures KeyInside(low, hikey, all[i].key)
    ensures all[i].key.value < mid <==> i < |xs|
    ensures all[i].key.value == mid <==> i == |xs|
  {
    if i < |xs| {
      assert all[i] == xs[i];
    } else if i > |xs| {
      assert all[i] == ys[i - |xs|];
    }
  }

  lemma JoinLinksOk(born: map<Id, Birth>, low: Option<int>, mid: Option<int>, level: nat,
                    xs: seq<Downlink>, ys: seq<Downlink>, all: seq<Downlink>)
    requires LinksOk(born, xs, low, level) && LinksOk(born, ys, mid, level) && (xs == [] <==> ys == [])
    requires all == xs + KeyFirst(ys, mid)
    ensures LinksOk(born, all, low, level)
  {
    forall i {:trigger LinkOk(born, all, i, low, level)} | 0 <= i < |all| ensures LinkOk(born, all, i, low, level) {
      if i < |xs| {
        assert LinkOk(born, xs, i, low, level);
      } else {
        assert LinkOk(born, ys, i - |xs|, mid, level);
      }
    }
  }

  lemma AbsorbKeeps(w: World, p: Id, r: Id)
    requires WorldOk(w) && Enabled(w, Absorb(p, r))
    ensures WorldOk(Apply(w, Absorb(p, r)))
  {
    var left, right, low := ImageOf(w, p), ImageOf(w, r), w.born[p].low;
    assert BlockOk(w, p.blk) && BlockOk(w, r.blk);
    var links := left.links + KeyFirst(right.links, left.hikey);
    JoinLinksOk(w.born, low, left.hikey, left.level, left.links, right.links, links);
    JoinInOrder(low, left.hikey.value, right.hikey, left.links, right.links, links);
    SetKeeps(w, p, Image(left.level, right.hikey, None, links));
  }

  lemma ClearRightKeeps(w: World, p: Id)
    requires WorldOk(w) && Live(w, p)
    ensures WorldOk(Apply(w, ClearRight(p)))
  {
    var img := ImageOf(w, p);
    assert BlockOk(w, p.blk);
    SetKeeps(w, p, img.(right := None));
  }

  /** Only a child changes. */
  lemma SameKeysInOrder(low: Option<int>, hikey: Option<int>, links: seq<Downlink>, at: nat, child: Option<Id>)
    requires InOrder(low, hikey, links) && at < |links|
    ensures InOrder(low, hikey, links[at := Link(links[at].key, child)])
  {
    var all := links[at := Link(links[at].key, child)];
    assert forall i {:trigger all[i]} :: 0 <= i < |all| ==> all[i].key == links[i].key;
  }

  lemma EvictKeeps(w: World, p: Id, at: nat)
    requires WorldOk(w) && Enabled(w, Evict(p, at))
    ensures WorldOk(Apply(w, Evict(p, at)))
  {
    var img, low := ImageOf(w, p), w.born[p].low;
    assert BlockOk(w, p.blk);
    var links := img.links[at := Link(img.links[at].key, None)];
    forall i {:trigger LinkOk(w.born, links, i, low, img.level)} | 0 <= i < |links|
      ensures LinkOk(w.born, links, i, low, img.level)
    {
      assert LinkOk(w.born, img.links, i, low, img.level);
    }
    SameKeysInOrder(low, img.hikey, img.links, at, None);
    SetKeeps(w, p, img.(links := links));
  }

  lemma GrowRootKeeps(w: World, b: nat)
    requires WorldOk(w) && Enabled(w, GrowRoot(b))
    ensures WorldOk(Apply(w, GrowRoot(b))) && Extends(w.born, Apply(w, GrowRoot(b)).born)
  {
    var img, birth := ImageOf(w, w.root), Birth(None, Some(ImageOf(w, w.root).level));
    assert BlockOk(w, w.root.blk);
    var v := Create(w, b, birth, img);
    SoundLater(w.born, v.born, birth, img);
    CreateKeeps(w, b, birth, img);
    SetKeeps(v, w.root,
             Image(img.level + 1, None, None, [Link(None, Some(Current(w, b))), Link(img.hikey, img.right)]));
  }

  lemma LoadKeeps(w: World, p: Id, at: nat, b: nat, img: Image)
    requires WorldOk(w) && Enabled(w, Load(p, at, b, img))
    ensures WorldOk(Apply(w, Load(p, at, b, img))) && Extends(w.born, Apply(w, Load(p, at, b, img)).born)
  {
    var parent, low := ImageOf(w, p), w.born[p].low;
    assert BlockOk(w, p.blk);
    var birth := Birth(LinkLow(parent.links, at, low), Some(img.level));
    var v := Create(w, b, birth, img);
    SoundLater(w.born, v.born, w.born[p], parent);
    CreateKeeps(w, b, birth, img);
    var links := parent.links[at := Link(parent.links[at].key, Some(Current(w, b)))];
    forall i {:trigger LinkOk(v.born, links, i, low, parent.level)} | 0 <= i < |links|
      ensures LinkOk(v.born, links, i, low, parent.level)
    {
      assert LinkOk(v.born, parent.links, i, low, parent.level);
    }
    SameKeysInOrder(low, parent.hikey, parent.links, at, Some(Current(w, b)));
    SetKeeps(v, p, parent.(links := links));
  }

  function RootLevel(w: World): nat
    requires w.root.blk in w.mem
  {
    ImageOf(w, w.root).level
  }

  /** The tree never gets lower. */
  lemma RootStays(w: World, s: Step)
    requires WorldOk(w) && Enabled(w, s)
    ensures var v := Apply(w, s); v.root == w.root && v.root.blk in v.mem && RootLevel(w) <= RootLevel(v)
  {
  }

  /** Every step keeps the world in order; births and retirements are for ever, and the tree never gets lower. */
  lemma StepKeeps(w: World, s: Step)
    requires WorldOk(w) && Enabled(w, s)
    ensures var v := Apply(w, s);
            WorldOk(v) && Extends(w.born, v.born) && w.retired <= v.retired && v.root == w.root &&
            RootLevel(w) <= RootLevel(v)
  {
    RootStays(w, s);
    match s
    case Split(p, b, key, n) => SplitKeeps(w, p, b, key, n);
    case AddLink(p, i, r) => AddLinkKeeps(w, p, i, r);
    case ClearRight(p) => ClearRightKeeps(w, p);
    case DropLink(p, i) => DropLinkKeeps(w, p, i);
    case Absorb(p, r) => AbsorbKeeps(w, p, r);
    case Retire(p, bump) => RetireKeeps(w, p, bump);
    case GrowRoot(b) => GrowRootKeeps(w, b);
    case Evict(p, i) => EvictKeeps(w, p, i);
    case Load(p, i, b, img) => LoadKeeps(w, p, i, b, img);
  }
}
