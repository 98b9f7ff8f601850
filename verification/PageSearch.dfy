/**
 Searching inside one page: binary search over the chunk high keys, then binary search
 over the items of the chosen chunk.

 A page is a sequence of chunks; every chunk has items and a high key.  The order of
 page keys is an arbitrary relation `le`.  A search key is known only through
 the result of comparing it with a page key, `kcmp(t)`: positive when the search key is
 above `t`, zero when they compare equal, negative when it is below.
*/
module PageSearch {
  import opened Common

  /** One item: its key and what a non-leaf item points at. */
  datatype Item<T> = Item(key: T, downlink: int)

  datatype Chunk<T> = Chunk(items: seq<Item<T>>, hikey: T, keysFixed: bool)

  /** The high key of the last chunk is the page's high key; it has no meaning on a rightmost page. */
  datatype Page<T> = Page(leaf: bool, rightmost: bool, hikeysFixed: bool, chunks: seq<Chunk<T>>)

  datatype Locator = Locator(chunk: int, item: int)

  // ---------------------------------------------------------------------------
  // The page as one flat sequence of items
  // ---------------------------------------------------------------------------

  /** All items of the first `n` chunks, in order. */
  function Flat<T>(p: Page<T>, n: nat): seq<Item<T>>
    requires n <= |p.chunks|
  {
    if n == 0 then [] else Flat(p, n - 1) + p.chunks[n - 1].items
  }

  function Items<T>(p: Page<T>): seq<Item<T>> {
    Flat(p, |p.chunks|)
  }

  /** The flat position a locator stands for; the end of a chunk is the start of the next. */
  function Offset<T>(p: Page<T>, loc: Locator): int
    requires 0 <= loc.chunk <= |p.chunks|
  {
    |Flat(p, loc.chunk)| + loc.item
  }

  lemma {:induction false} FlatPrefix<T>(p: Page<T>, n: nat, m: nat)
    requires n <= m <= |p.chunks|
    ensures Flat(p, n) <= Flat(p, m)
    decreases m
  {
    if n < m {
      FlatPrefix(p, n, m - 1);
    }
  }

  /** The items of chunk `c` are the flat items from the chunk's offset on. */
  lemma ChunkItems<T>(p: Page<T>, c: nat)
    requires c < |p.chunks|
    ensures var base, xs := |Flat(p, c)|, p.chunks[c].items;
            base + |xs| <= |Items(p)| && Items(p)[base..base + |xs|] == xs
  {
    FlatPrefix(p, c + 1, |p.chunks|);
    FlatPrefix(p, c, c + 1);
    assert Flat(p, c + 1) == Flat(p, c) + p.chunks[c].items;
  }

  // ---------------------------------------------------------------------------
  // Order
  // ---------------------------------------------------------------------------

  predicate Below<T>(le: (T, T) -> bool, a: T, b: T) {
    le(a, b) && !le(b, a)
  }

  /** Comparing with the search key respects the order of page keys, and page keys that
      differ in order do not both compare equal to it. */
  ghost predicate Monotone<T(!new)>(le: (T, T) -> bool, kcmp: T -> int) {
    (forall a, b :: le(a, b) && kcmp(b) >= 0 ==> kcmp(a) >= 0) &&
    (forall a, b :: le(a, b) && kcmp(b) >= 1 ==> kcmp(a) >= 1) &&
    (forall a, b :: Below(le, a, b) && kcmp(b) >= 0 ==> kcmp(a) >= 1)
  }

  /** The first item of a non-leaf page has no key and stands below every key. */
  predicate Keyless<T>(p: Page<T>, i: int) {
    !p.leaf && i == 0
  }

  /** Items ascend, and each chunk's high key separates its items from the later ones. */
  ghost predicate Ordered<T>(le: (T, T) -> bool, p: Page<T>) {
    (forall i, j :: 0 <= i < j < |Items(p)| && !Keyless(p, i) ==> le(Items(p)[i].key, Items(p)[j].key)) &&
    (forall c, i :: 0 <= c < |p.chunks| - 1 && 0 <= i < |Flat(p, c + 1)| && i < |Items(p)| && !Keyless(p, i) ==>
       Below(le, Items(p)[i].key, p.chunks[c].hikey)) &&
    (forall c, i :: 0 <= c < |p.chunks| - 1 && |Flat(p, c + 1)| <= i < |Items(p)| && !Keyless(p, i) ==>
       le(p.chunks[c].hikey, Items(p)[i].key)) &&
    (forall c, d :: 0 <= c < d < |p.chunks| - 1 ==> le(p.chunks[c].hikey, p.chunks[d].hikey))
  }

  ghost predicate WellFormed<T>(le: (T, T) -> bool, p: Page<T>) {
    |p.chunks| > 0 && Ordered(le, p) && (!p.leaf ==> forall c :: 0 <= c < |p.chunks| ==> p.chunks[c].items != [])
  }

  // ---------------------------------------------------------------------------
  // What a search must return
  // ---------------------------------------------------------------------------

  /** The comparison result from which an item counts as passed: on non-leaf pages an item equal
      to the key is passed, on leaves and for a high-key search it is not. */
  function PassLevel<T>(p: Page<T>, hikeySearch: bool): int {
    if !p.leaf && !hikeySearch then 0 else 1
  }

  /** The search passes the item at flat position `i`. */
  ghost predicate Passed<T>(p: Page<T>, kcmp: T -> int, v: int, i: int)
    requires 0 <= i < |Items(p)|
  {
    Keyless(p, i) || kcmp(Items(p)[i].key) >= v
  }

  /** `off` splits the page: everything before it is passed, nothing from it on is. */
  ghost predicate SplitsAt<T>(p: Page<T>, kcmp: T -> int, v: int, off: int) {
    0 <= off <= |Items(p)| &&
    (forall i :: 0 <= i < off ==> Passed(p, kcmp, v, i)) &&
    (forall i :: off <= i < |Items(p)| ==> !Passed(p, kcmp, v, i))
  }

  lemma PassedBefore<T>(p: Page<T>, kcmp: T -> int, v: int, off: int, i: int)
    requires SplitsAt(p, kcmp, v, off) && 0 <= i < |Items(p)|
    ensures Passed(p, kcmp, v, i) <==> i < off
  {
  }

  /** There is at most one such position. */
  lemma SplitUnique<T>(p: Page<T>, kcmp: T -> int, v: int, a: int, b: int)
    requires SplitsAt(p, kcmp, v, a) && SplitsAt(p, kcmp, v, b)
    ensures a == b
  {
    var i := if a < b then a else b;
    if i < |Items(p)| {
      PassedBefore(p, kcmp, v, a, i);
      PassedBefore(p, kcmp, v, b, i);
    }
  }

  // ---------------------------------------------------------------------------
  // The search
  // ---------------------------------------------------------------------------

  /** What the chunk search decides: `c` is the first chunk whose high key is not passed, or the last one. */
  ghost predicate ChunkFor<T>(p: Page<T>, kcmp: T -> int, hikeySearch: bool, c: int) {
    0 <= c < |p.chunks| &&
    (forall d :: 0 <= d < c ==> kcmp(p.chunks[d].hikey) >= (if hikeySearch then 1 else 0)) &&
    (c < |p.chunks| - 1 ==> kcmp(p.chunks[c].hikey) < (if hikeySearch then 1 else 0))
  }

  method SearchChunks<T(!new)>(p: Page<T>, kcmp: T -> int, hikeySearch: bool, ghost le: (T, T) -> bool)
    returns (low: int)
    requires WellFormed(le, p) && Monotone(le, kcmp)
    ensures ChunkFor(p, kcmp, hikeySearch, low)
  {
    low := 0;
    var high := |p.chunks| - 1;
    var target := if hikeySearch then 1 else 0;
    while high > low
      invariant 0 <= low <= high < |p.chunks|
      invariant forall c :: 0 <= c < low ==> kcmp(p.chunks[c].hikey) >= target
      invariant high < |p.chunks| - 1 ==> kcmp(p.chunks[high].hikey) < target
    {
      var mid := low + (high - low) / 2;
      if kcmp(p.chunks[mid].hikey) >= target {
        HikeysPassed(p, kcmp, target, mid, le);
        low := mid + 1;
      } else {
        high := mid;
      }
    }
  }

  /** If a chunk's high key is passed, so are those before it. */
  lemma HikeysPassed<T(!new)>(p: Page<T>, kcmp: T -> int, v: int, mid: int, le: (T, T) -> bool)
    requires WellFormed(le, p) && Monotone(le, kcmp) && 0 <= v <= 1
    requires 0 <= mid < |p.chunks| - 1 && kcmp(p.chunks[mid].hikey) >= v
    ensures forall c :: 0 <= c <= mid ==> kcmp(p.chunks[c].hikey) >= v
  {
    forall c | 0 <= c < mid ensures kcmp(p.chunks[c].hikey) >= v {
      assert le(p.chunks[c].hikey, p.chunks[mid].hikey);
    }
  }

  /** If an item is passed, so are the items before it; if it is not, neither are those after it. */
  lemma PassedIsPrefix<T(!new)>(p: Page<T>, kcmp: T -> int, v: int, i: int, j: int, le: (T, T) -> bool)
    requires Ordered(le, p) && Monotone(le, kcmp) && 0 <= v <= 1
    requires 0 <= i <= j < |Items(p)| && Passed(p, kcmp, v, j)
    ensures Passed(p, kcmp, v, i)
  {
  }

  /** Only the first item of chunk 0 of a non-leaf page is keyless. */
  lemma KeylessIsFirst<T>(p: Page<T>, c: nat, mid: nat)
    requires c < |p.chunks|
    requires !p.leaf ==> p.chunks[0].items != []
    ensures Keyless(p, |Flat(p, c)| + mid) == (!p.leaf && mid == 0 && c == 0)
  {
    if !p.leaf && c > 0 {
      FlatPrefix(p, 1, c);
      assert Flat(p, 1) == Flat(p, 0) + p.chunks[0].items;
    }
  }

  /** The items of chunk `c` before `low` are passed and the rest of its items are not. */
  ghost predicate ItemFor<T>(p: Page<T>, kcmp: T -> int, v: int, c: int, low: int)
    requires 0 <= c < |p.chunks| && |Flat(p, c)| + |p.chunks[c].items| <= |Items(p)|
  {
    0 <= low <= |p.chunks[c].items| &&
    (forall i :: |Flat(p, c)| <= i < |Flat(p, c)| + low ==> Passed(p, kcmp, v, i)) &&
    (forall i :: |Flat(p, c)| + low <= i < |Flat(p, c)| + |p.chunks[c].items| ==> !Passed(p, kcmp, v, i))
  }

  method SearchItems<T(!new)>(p: Page<T>, c: int, kcmp: T -> int, hikeySearch: bool, ghost le: (T, T) -> bool)
    returns (low: int)
    requires 0 <= c < |p.chunks| && WellFormed(le, p) && Monotone(le, kcmp)
    ensures |Flat(p, c)| + |p.chunks[c].items| <= |Items(p)|
    ensures ItemFor(p, kcmp, PassLevel(p, hikeySearch), c, low)
    ensures forall i {:trigger p.chunks[c].items[i]} ::
      (if p.leaf || c > 0 then 0 else 1) <= i < |p.chunks[c].items| ==>
        (i < low <==> kcmp(p.chunks[c].items[i].key) >= (if p.leaf || hikeySearch then 1 else 0))
    ensures !p.leaf && c == 0 ==> low > 0
  {
    ChunkItems(p, c);
    var xs := p.chunks[c].items;
    ghost var base := |Flat(p, c)|;
    var v := PassLevel(p, hikeySearch);
    low := 0;
    var high := |xs|;
    while high > low
      invariant 0 <= low <= high <= |xs|
      invariant forall i :: base <= i < base + low ==> Passed(p, kcmp, v, i)
      invariant forall i :: base + high <= i < base + |xs| ==> !Passed(p, kcmp, v, i)
    {
      var mid := low + (high - low) / 2;
      ghost var m := base + mid;
      assert Items(p)[m] == xs[mid] by { assert Items(p)[base..base + |xs|][mid] == xs[mid]; }
      KeylessIsFirst(p, c, mid);
      var result: int;
      if !p.leaf && mid == 0 && c == 0 {
        result := 1;
      } else {
        result := kcmp(xs[mid].key);
      }
      assert Passed(p, kcmp, v, m) == (result >= v);
      if result >= v {
        forall i | base <= i <= m ensures Passed(p, kcmp, v, i) { PassedIsPrefix(p, kcmp, v, i, m, le); }
        low := mid + 1;
      } else {
        forall i | m <= i < base + |xs| ensures !Passed(p, kcmp, v, i) {
          if Passed(p, kcmp, v, i) { PassedIsPrefix(p, kcmp, v, m, i, le); }
        }
        high := mid;
      }
    }
    ItemsMean(p, c, kcmp, v, low);
  }

  /** The same in terms of the chunk's own items. */
  lemma ItemsMean<T>(p: Page<T>, c: int, kcmp: T -> int, v: int, low: int)
    requires 0 <= c < |p.chunks| && (!p.leaf ==> p.chunks[0].items != [])
    requires |Flat(p, c)| + |p.chunks[c].items| <= |Items(p)| && ItemFor(p, kcmp, v, c, low)
    ensures forall i {:trigger p.chunks[c].items[i]} ::
      (if p.leaf || c > 0 then 0 else 1) <= i < |p.chunks[c].items| ==>
        (i < low <==> kcmp(p.chunks[c].items[i].key) >= v)
    ensures !p.leaf && c == 0 ==> low > 0
  {
    var xs := p.chunks[c].items;
    forall i {:trigger xs[i]} | (if p.leaf || c > 0 then 0 else 1) <= i < |xs|
      ensures i < low <==> kcmp(xs[i].key) >= v
    {
      ItemMeans(p, c, kcmp, v, low, i);
    }
    if !p.leaf && c == 0 {
      ItemMeans(p, c, kcmp, v, low, 0);
    }
  }

  lemma ItemMeans<T>(p: Page<T>, c: int, kcmp: T -> int, v: int, low: int, i: int)
    requires 0 <= c < |p.chunks| && (!p.leaf ==> p.chunks[0].items != []) && 0 <= i < |p.chunks[c].items|
    requires |Flat(p, c)| + |p.chunks[c].items| <= |Items(p)| && ItemFor(p, kcmp, v, c, low)
    ensures i < low <==> (!p.leaf && c == i == 0) || kcmp(p.chunks[c].items[i].key) >= v
  {
    ChunkItems(p, c);
    var base, xs := |Flat(p, c)|, p.chunks[c].items;
    assert Items(p)[base..base + |xs|][i] == xs[i];
    KeylessIsFirst(p, c, i);
    assert Passed(p, kcmp, v, base + i) <==> i < low;
  }

  /** Searching the right chunk searches the page: the two levels together give the flat position. */
  lemma TwoLevelsAreFlat<T(!new)>(p: Page<T>, kcmp: T -> int, hikeySearch: bool, c: int, low: int, le: (T, T) -> bool)
    requires WellFormed(le, p) && Monotone(le, kcmp) && !(p.leaf && hikeySearch)
    requires ChunkFor(p, kcmp, hikeySearch, c) && |Flat(p, c)| + |p.chunks[c].items| <= |Items(p)|
    requires ItemFor(p, kcmp, PassLevel(p, hikeySearch), c, low)
    ensures SplitsAt(p, kcmp, PassLevel(p, hikeySearch), Offset(p, Locator(c, low)))
  {
    var v := PassLevel(p, hikeySearch);
    var base := |Flat(p, c)|;
    assert |Flat(p, c + 1)| == base + |p.chunks[c].items|;
    forall i | 0 <= i < base ensures Passed(p, kcmp, v, i) {
      if !Keyless(p, i) {
        assert Flat(p, (c - 1) + 1) == Flat(p, c);
        assert Below(le, Items(p)[i].key, p.chunks[c - 1].hikey);
      }
    }
    forall i | base + |p.chunks[c].items| <= i < |Items(p)| ensures !Passed(p, kcmp, v, i) {
      KeylessIsFirst(p, c, |p.chunks[c].items|);
      assert le(p.chunks[c].hikey, Items(p)[i].key);
    }
  }

  /** The position of flat item `off`, scanning the chunks from the right. */
  method FillBackwards<T>(p: Page<T>, off: int) returns (loc: Locator)
    requires |p.chunks| > 0 && 0 <= off <= |Items(p)|
    ensures 0 <= loc.chunk < |p.chunks| && 0 <= loc.item <= |p.chunks[loc.chunk].items|
    ensures Offset(p, loc) == off
    ensures off < |Items(p)| ==> loc.item < |p.chunks[loc.chunk].items|
  {
    var c := |p.chunks| - 1;
    while off < |Flat(p, c)|
      decreases c
      invariant 0 <= c < |p.chunks|
      invariant off <= |Flat(p, c + 1)| && (off < |Items(p)| ==> off < |Flat(p, c + 1)|)
    {
      c := c - 1;
    }
    loc := Locator(c, off - |Flat(p, c)|);
  }

  /** The search for a key on a page; on a leaf the high-key search goes to the last item. */
  method Search<T(!new)>(p: Page<T>, kcmp: T -> int, hikeySearch: bool, ghost le: (T, T) -> bool)
    returns (loc: Locator)
    requires WellFormed(le, p) && Monotone(le, kcmp)
    requires p.leaf && hikeySearch ==> Items(p) != []
    ensures 0 <= loc.chunk < |p.chunks| && 0 <= loc.item <= |p.chunks[loc.chunk].items|
    ensures p.leaf && hikeySearch ==> Offset(p, loc) == |Items(p)| - 1
    ensures !(p.leaf && hikeySearch) ==>
              ChunkFor(p, kcmp, hikeySearch, loc.chunk) && SplitsAt(p, kcmp, PassLevel(p, hikeySearch), Offset(p, loc))
    ensures !(p.leaf && hikeySearch) ==>
              forall i {:trigger Items(p)[i]} :: (if p.leaf then 0 else 1) <= i < |Items(p)| ==>
                (i < Offset(p, loc) <==> kcmp(Items(p)[i].key) >= (if p.leaf || hikeySearch then 1 else 0))
    ensures !p.leaf ==> Offset(p, loc) > 0
  {
    if p.leaf && hikeySearch {
      loc := FillBackwards(p, |Items(p)| - 1);
      return;
    }
    var c := SearchChunks(p, kcmp, hikeySearch, le);
    var i := SearchItems(p, c, kcmp, hikeySearch, le);
    TwoLevelsAreFlat(p, kcmp, hikeySearch, c, i, le);
    loc := Locator(c, i);
    SplitMeans(p, kcmp, PassLevel(p, hikeySearch), Offset(p, loc));
  }

  /** A split in terms of the comparisons. */
  lemma SplitMeans<T>(p: Page<T>, kcmp: T -> int, v: int, off: int)
    requires SplitsAt(p, kcmp, v, off)
    ensures forall i {:trigger Items(p)[i]} :: (if p.leaf then 0 else 1) <= i < |Items(p)| ==>
              (i < off <==> kcmp(Items(p)[i].key) >= v)
    ensures !p.leaf && Items(p) != [] ==> off > 0
  {
    forall i {:trigger Items(p)[i]} | (if p.leaf then 0 else 1) <= i < |Items(p)|
      ensures i < off <==> kcmp(Items(p)[i].key) >= v
    {
      PassedBefore(p, kcmp, v, off, i);
    }
    if Items(p) != [] {
      PassedBefore(p, kcmp, v, off, 0);
    }
  }

  /** One item back, over empty chunks; nothing when there is no earlier item. */
  method Prev<T>(p: Page<T>, loc: Locator) returns (found: bool, prev: Locator)
    requires 0 <= loc.chunk < |p.chunks| && 0 <= loc.item <= |p.chunks[loc.chunk].items|
    ensures found == (Offset(p, loc) > 0)
    ensures found ==> 0 <= prev.chunk < |p.chunks| && 0 <= prev.item < |p.chunks[prev.chunk].items|
    ensures found ==> Offset(p, prev) == Offset(p, loc) - 1
  {
    if loc.item > 0 {
      return true, loc.(item := loc.item - 1);
    }
    var c := loc.chunk;
    while c > 0
      invariant 0 <= c < |p.chunks| && |Flat(p, c)| == Offset(p, loc)
    {
      c := c - 1;
      if p.chunks[c].items != [] {
        return true, Locator(c, |p.chunks[c].items| - 1);
      }
    }
    return false, loc;
  }

  // ---------------------------------------------------------------------------
  // Choosing a downlink
  // ---------------------------------------------------------------------------

  /** `loc` is the last item the search passes, the one whose child covers the key. */
  ghost predicate LastPassed<T>(p: Page<T>, kcmp: T -> int, v: int, loc: Locator) {
    0 <= loc.chunk < |p.chunks| && 0 <= loc.item < |p.chunks[loc.chunk].items| &&
    SplitsAt(p, kcmp, v, Offset(p, loc) + 1)
  }

  /** The item for a target whose key is given by its comparator: the last one passed, the last or the first one. */
  ghost predicate Chosen<T>(p: Page<T>, t: Target<T -> int>, loc: Locator) {
    0 <= loc.chunk < |p.chunks| && 0 <= loc.item < |p.chunks[loc.chunk].items| &&
    match t
    case Ordinary(kcmp) => LastPassed(p, kcmp, 0, loc)
    case HighKey(kcmp) => LastPassed(p, kcmp, 1, loc)
    case Rightmost => Offset(p, loc) == |Items(p)| - 1
    case Leftmost => Offset(p, loc) == 0
  }

  lemma {:induction false} FlatGrows<T>(p: Page<T>, a: nat, b: nat)
    requires a < b <= |p.chunks| && p.chunks[a].items != []
    ensures |Flat(p, a)| + |p.chunks[a].items| <= |Flat(p, b)|
  {
    FlatPrefix(p, a + 1, b);
    assert Flat(p, a + 1) == Flat(p, a) + p.chunks[a].items;
  }

  /** A flat position that is an item has one locator. */
  lemma LocatorUnique<T>(p: Page<T>, a: Locator, b: Locator)
    requires 0 <= a.chunk < |p.chunks| && 0 <= a.item < |p.chunks[a.chunk].items|
    requires 0 <= b.chunk < |p.chunks| && 0 <= b.item < |p.chunks[b.chunk].items|
    requires Offset(p, a) == Offset(p, b)
    ensures a == b
  {
    if a.chunk < b.chunk {
      FlatGrows(p, a.chunk, b.chunk);
    } else if b.chunk < a.chunk {
      FlatGrows(p, b.chunk, a.chunk);
    }
  }

  /** The choice is determined by the page and the key. */
  lemma ChosenUnique<T>(p: Page<T>, t: Target<T -> int>, a: Locator, b: Locator)
    requires Chosen(p, t, a) && Chosen(p, t, b)
    ensures a == b
  {
    if t.Ordinary? {
      SplitUnique(p, t.k, 0, Offset(p, a) + 1, Offset(p, b) + 1);
    } else if t.HighKey? {
      SplitUnique(p, t.k, 1, Offset(p, a) + 1, Offset(p, b) + 1);
    }
    LocatorUnique(p, a, b);
  }

  /** The downlink of a non-leaf page for a key: search, then step back. */
  method FindDownlink<T(!new)>(p: Page<T>, t: Target<T -> int>, ghost le: (T, T) -> bool) returns (loc: Locator)
    requires WellFormed(le, p) && !p.leaf && (t.Ordinary? || t.HighKey? ==> Monotone(le, t.k))
    ensures Chosen(p, t, loc)
    ensures t.Ordinary? || t.HighKey? ==>
              forall i {:trigger Items(p)[i]} :: 1 <= i < |Items(p)| ==>
                (i <= Offset(p, loc) <==> t.k(Items(p)[i].key) >= (if t.HighKey? then 1 else 0))
  {
    KeylessIsFirst(p, 0, 0);
    ChunkItems(p, 0);
    assert 0 < |Items(p)|;
    match t {
      case Leftmost =>
        loc := Locator(0, 0);
      case Rightmost =>
        loc := FillBackwards(p, |Items(p)| - 1);
      case _ =>
        var at := Search(p, t.k, t.HighKey?, le);
        assert Passed(p, t.k, PassLevel(p, t.HighKey?), 0);
        var found, prev := Prev(p, at);
        loc := prev;
    }
  }
}
