/**
 The fast downlink search over a whole page, and its agreement with the two-level
 binary search.
*/
module FastFind {
  import opened PageSearch
  import opened FastPath

  ghost function Le(fs: seq<Field>): (Row, Row) -> bool {
    (a: Row, b: Row) => RowLe(fs, a, b)
  }

  /** Number of high keys stored: a rightmost page has none for its last chunk. */
  function HikeyCount(p: Page<Row>): int {
    if p.rightmost then |p.chunks| - 1 else |p.chunks|
  }

  /** The comparison result from which a row counts as passed. */
  function Level(inclusive: bool): int {
    if inclusive then 1 else 0
  }

  /** The index in chunk `c` of its first item with a key. */
  function FirstKeyed(c: int): int {
    if c == 0 then 1 else 0
  }

  /** A non-leaf page: well-formed, its own high key above the others, and rows without NULLs
      wherever the page says the format is fixed. */
  ghost predicate FastPage(fs: seq<Field>, p: Page<Row>) {
    WellFormed(Le(fs), p) && !p.leaf &&
    (!p.rightmost ==>
       forall c :: 0 <= c < |p.chunks| - 1 ==> RowLe(fs, p.chunks[c].hikey, p.chunks[|p.chunks| - 1].hikey)) &&
    (p.hikeysFixed ==> forall c :: 0 <= c < HikeyCount(p) ==> IsFixed(fs, p.chunks[c].hikey)) &&
    (forall c, i :: 0 <= c < |p.chunks| && p.chunks[c].keysFixed && FirstKeyed(c) <= i < |p.chunks[c].items| ==>
       IsFixed(fs, p.chunks[c].items[i].key))
  }

  // ---------------------------------------------------------------------------
  // What the fast search computes
  // ---------------------------------------------------------------------------

  /** `c` is the first chunk whose high key the key does not pass. */
  ghost predicate FastChunk(fs: seq<Field>, ks: seq<KeyCol>, p: Page<Row>, v: int, c: int)
    requires |ks| <= |fs|
  {
    p.hikeysFixed && 0 <= c < HikeyCount(p) && c < |p.chunks| &&
    (forall d :: 0 <= d <= c ==> IsFixed(fs, p.chunks[d].hikey)) &&
    (forall d :: 0 <= d < c ==> FastCmp(fs, ks, p.chunks[d].hikey, 0) >= v) &&
    FastCmp(fs, ks, p.chunks[c].hikey, 0) < v
  }

  /** In chunk `c` exactly the keyed items before `low` are passed. */
  ghost predicate FastItem(fs: seq<Field>, ks: seq<KeyCol>, p: Page<Row>, v: int, c: int, low: int)
    requires |ks| <= |fs|
  {
    0 <= c < |p.chunks| && p.chunks[c].keysFixed && FirstKeyed(c) <= low <= |p.chunks[c].items| &&
    (forall i :: FirstKeyed(c) <= i < |p.chunks[c].items| ==> IsFixed(fs, p.chunks[c].items[i].key)) &&
    (forall i :: FirstKeyed(c) <= i < |p.chunks[c].items| ==>
       (i < low <==> FastCmp(fs, ks, p.chunks[c].items[i].key, 0) >= v))
  }

  /** The item before position `low` of chunk `c`, in the previous chunk when `low` is 0. */
  function StepBack(p: Page<Row>, c: int, low: int): Locator
    requires 0 <= c < |p.chunks| && 0 <= low && (low == 0 ==> c > 0)
  {
    if low > 0 then Locator(c, low - 1) else Locator(c - 1, |p.chunks[c - 1].items| - 1)
  }

  /** The fast search answers `loc`; otherwise it leaves the page to the slow search. */
  ghost predicate FastAnswer(fs: seq<Field>, ks: seq<KeyCol>, p: Page<Row>, v: int, loc: Locator)
    requires |ks| <= |fs|
  {
    exists c, low :: FastChunk(fs, ks, p, v, c) && FastItem(fs, ks, p, v, c, low) &&
                     (low == 0 ==> p.chunks[c - 1].keysFixed) && loc == StepBack(p, c, low)
  }

  datatype Found = Ok(loc: Locator, downlink: int) | Slow

  function Hikeys(p: Page<Row>): (rows: seq<Row>)
    requires |p.chunks| > 0
    ensures |rows| == HikeyCount(p)
    ensures forall c :: 0 <= c < |rows| ==> rows[c] == p.chunks[c].hikey
  {
    seq(HikeyCount(p), c requires 0 <= c < HikeyCount(p) => p.chunks[c].hikey)
  }

  lemma HikeysSorted(fs: seq<Field>, p: Page<Row>)
    requires FastPage(fs, p) && p.hikeysFixed
    ensures AllFixed(fs, Hikeys(p)) && RowsSorted(fs, Hikeys(p))
  {
    var rows := Hikeys(p);
    forall a, b | 0 <= a < b < |rows| ensures RowLe(fs, rows[a], rows[b]) {
      assert b < |p.chunks| - 1 ==> Le(fs)(p.chunks[a].hikey, p.chunks[b].hikey);
    }
  }

  /** A position that splits the high keys is the only candidate chunk. */
  lemma ChunkFromSplit(fs: seq<Field>, ks: seq<KeyCol>, p: Page<Row>, v: int, chunk: int)
    requires |ks| <= |fs| && |p.chunks| > 0 && p.hikeysFixed && AllFixed(fs, Hikeys(p))
    requires 0 <= chunk <= HikeyCount(p)
    requires forall c :: 0 <= c < HikeyCount(p) ==> (c < chunk <==> FastCmp(fs, ks, Hikeys(p)[c], 0) >= v)
    ensures chunk < HikeyCount(p) ==> FastChunk(fs, ks, p, v, chunk)
    ensures forall c {:trigger FastChunk(fs, ks, p, v, c)} :: FastChunk(fs, ks, p, v, c) ==> c == chunk
  {
    var rows := Hikeys(p);
    forall c {:trigger rows[c]} | 0 <= c < |rows|
      ensures IsFixed(fs, p.chunks[c].hikey) && (c < chunk <==> FastCmp(fs, ks, p.chunks[c].hikey, 0) >= v)
    {
      assert rows[c] == p.chunks[c].hikey;
    }
    forall c {:trigger FastChunk(fs, ks, p, v, c)} | FastChunk(fs, ks, p, v, c) ensures c == chunk {
      var d := if chunk < c then chunk else c;
      assert rows[d] == p.chunks[d].hikey;
    }
    if chunk < HikeyCount(p) {
      assert forall d :: 0 <= d <= chunk ==> rows[d] == p.chunks[d].hikey;
    }
  }

  /** The first high key that is not passed; slow when the format is not fixed or all are passed. */
  method FindChunk(fs: seq<Field>, ks: seq<KeyCol>, inclusive: bool, p: Page<Row>) returns (ok: bool, chunk: int)
    requires FastPage(fs, p) && |ks| <= |fs|
    ensures ok ==> FastChunk(fs, ks, p, Level(inclusive), chunk)
    ensures !ok ==> forall c :: !FastChunk(fs, ks, p, Level(inclusive), c)
  {
    if !p.hikeysFixed {
      return false, 0;
    }
    HikeysSorted(fs, p);
    var lower, upper := Narrow(fs, Hikeys(p), ks);
    chunk := if inclusive then lower else upper;
    ok := chunk < HikeyCount(p);
    ChunkFromSplit(fs, ks, p, Level(inclusive), chunk);
  }

  /** Keyed items of a chunk are sorted. */
  lemma ChunkRowsSorted(fs: seq<Field>, p: Page<Row>, c: int, a: int, b: int)
    requires FastPage(fs, p) && 0 <= c < |p.chunks| && FirstKeyed(c) <= a < b < |p.chunks[c].items|
    ensures RowLe(fs, p.chunks[c].items[a].key, p.chunks[c].items[b].key)
  {
    ChunkItems(p, c);
    var base, xs := |Flat(p, c)|, p.chunks[c].items;
    assert Items(p)[base..base + |xs|][a] == xs[a] && Items(p)[base..base + |xs|][b] == xs[b];
    KeylessIsFirst(p, c, a);
    assert Le(fs)(Items(p)[base + a].key, Items(p)[base + b].key);
  }

  /** The first item of the chunk that is not passed. */
  method FindItem(fs: seq<Field>, ks: seq<KeyCol>, inclusive: bool, p: Page<Row>, c: int) returns (low: int)
    requires FastPage(fs, p) && |ks| <= |fs| && 0 <= c < |p.chunks| && p.chunks[c].keysFixed
    ensures FastItem(fs, ks, p, Level(inclusive), c, low)
  {
    var items := p.chunks[c].items;
    var first := FirstKeyed(c);
    var count := |items| - first;
    assert count >= 0 by { assert p.chunks[c].items != []; }
    var rows := seq(count, i requires 0 <= i < count && 0 <= first && first + count == |items| => items[first + i].key);
    assert AllFixed(fs, rows);
    assert RowsSorted(fs, rows) by {
      forall a, b | 0 <= a < b < count ensures RowLe(fs, rows[a], rows[b]) {
        ChunkRowsSorted(fs, p, c, first + a, first + b);
      }
    }
    var lower, upper := Narrow(fs, rows, ks);
    var index := if inclusive then lower else upper;
    low := first + index;
    forall i | first <= i < |items|
      ensures i < low <==> FastCmp(fs, ks, items[i].key, 0) >= Level(inclusive)
    {
      assert rows[i - first] == items[i].key;
    }
  }

  lemma OneChunk(fs: seq<Field>, ks: seq<KeyCol>, p: Page<Row>, v: int, c: int)
    requires |ks| <= |fs| && FastChunk(fs, ks, p, v, c)
    ensures forall d :: FastChunk(fs, ks, p, v, d) ==> d == c
  {
  }

  lemma OneItem(fs: seq<Field>, ks: seq<KeyCol>, p: Page<Row>, v: int, c: int, low: int)
    requires |ks| <= |fs| && FastItem(fs, ks, p, v, c, low)
    ensures forall l :: FastItem(fs, ks, p, v, c, l) ==> l == low
  {
    forall l | FastItem(fs, ks, p, v, c, l) ensures l == low {
      var i := if l < low then l else low;
      if FirstKeyed(c) <= i < |p.chunks[c].items| {
        assert FastCmp(fs, ks, p.chunks[c].items[i].key, 0) >= v <==> i < low;
      }
    }
  }

  /** Without a chunk whose items have the fixed format there is no answer. */
  lemma NoAnswer(fs: seq<Field>, ks: seq<KeyCol>, p: Page<Row>, v: int, loc: Locator)
    requires |ks| <= |fs| && forall c :: FastChunk(fs, ks, p, v, c) ==> !p.chunks[c].keysFixed
    ensures !FastAnswer(fs, ks, p, v, loc)
  {
  }

  /** Chunk and position determine the answer. */
  lemma AnswerIs(fs: seq<Field>, ks: seq<KeyCol>, p: Page<Row>, v: int, c: int, low: int, loc: Locator)
    requires |ks| <= |fs| && FastChunk(fs, ks, p, v, c) && FastItem(fs, ks, p, v, c, low)
    ensures FastAnswer(fs, ks, p, v, loc) <==> (low == 0 ==> p.chunks[c - 1].keysFixed) && loc == StepBack(p, c, low)
  {
    OneChunk(fs, ks, p, v, c);
    OneItem(fs, ks, p, v, c, low);
  }

  /** The fast search: it answers exactly when the page allows, with the item's own downlink. */
  method FindDownlinkFast(fs: seq<Field>, ks: seq<KeyCol>, inclusive: bool, p: Page<Row>) returns (r: Found)
    requires FastPage(fs, p) && |ks| <= |fs|
    ensures r.Ok? ==> FastAnswer(fs, ks, p, Level(inclusive), r.loc)
    ensures r.Ok? ==> 0 <= r.loc.chunk < |p.chunks| && 0 <= r.loc.item < |p.chunks[r.loc.chunk].items| &&
                      r.downlink == p.chunks[r.loc.chunk].items[r.loc.item].downlink
    ensures r.Slow? ==> forall loc :: !FastAnswer(fs, ks, p, Level(inclusive), loc)
  {
    ghost var v := Level(inclusive);
    var ok, c := FindChunk(fs, ks, inclusive, p);
    if ok {
      OneChunk(fs, ks, p, v, c);
    }
    if !ok || !p.chunks[c].keysFixed {
      forall loc ensures !FastAnswer(fs, ks, p, v, loc) { NoAnswer(fs, ks, p, v, loc); }
      return Slow;
    }
    var low := FindItem(fs, ks, inclusive, p, c);
    forall loc ensures FastAnswer(fs, ks, p, v, loc) <==>
                         (low == 0 ==> p.chunks[c - 1].keysFixed) && loc == StepBack(p, c, low)
    {
      AnswerIs(fs, ks, p, v, c, low, loc);
    }
    r := TakeDownlink(p, c, low);
  }

  /** The downlink before a position; the item itself holds it, in chunk 0 possibly the keyless one. */
  method TakeDownlink(p: Page<Row>, c: int, low: int) returns (r: Found)
    requires 0 <= c < |p.chunks| && FirstKeyed(c) <= low <= |p.chunks[c].items|
    requires forall d :: 0 <= d < |p.chunks| ==> p.chunks[d].items != []
    ensures r.Ok? <==> (low == 0 ==> p.chunks[c - 1].keysFixed)
    ensures r.Ok? ==> r.loc == StepBack(p, c, low) && 0 <= r.loc.chunk < |p.chunks| &&
                      0 <= r.loc.item < |p.chunks[r.loc.chunk].items| &&
                      r.downlink == p.chunks[r.loc.chunk].items[r.loc.item].downlink
  {
    if low > 0 {
      r := Ok(Locator(c, low - 1), p.chunks[c].items[low - 1].downlink);
    } else if !p.chunks[c - 1].keysFixed {
      r := Slow;
    } else {
      var prev := p.chunks[c - 1].items;
      r := Ok(Locator(c - 1, |prev| - 1), prev[|prev| - 1].downlink);
    }
  }

  // ---------------------------------------------------------------------------
  // Agreement with the slow search
  // ---------------------------------------------------------------------------

  /** On every fixed row the decomposed key and the comparator fall on the same side. */
  ghost predicate SameSide(fs: seq<Field>, ks: seq<KeyCol>, kcmp: Row -> int, v: int)
    requires |ks| <= |fs|
  {
    forall r :: IsFixed(fs, r) ==> (kcmp(r) >= v <==> FastCmp(fs, ks, r, 0) >= v)
  }

  lemma FastChunkIsChunk(fs: seq<Field>, ks: seq<KeyCol>, p: Page<Row>, kcmp: Row -> int, hikeySearch: bool, c: int)
    requires |ks| <= |fs| && SameSide(fs, ks, kcmp, Level(hikeySearch)) && FastChunk(fs, ks, p, Level(hikeySearch), c)
    ensures ChunkFor(p, kcmp, hikeySearch, c)
  {
    assert IsFixed(fs, p.chunks[c].hikey);
  }

  lemma FastItemSide(fs: seq<Field>, ks: seq<KeyCol>, p: Page<Row>, kcmp: Row -> int, v: int, c: int, low: int, i: int)
    requires !p.leaf && p.chunks != [] && p.chunks[0].items != [] && 0 <= v <= 1
    requires |ks| <= |fs| && SameSide(fs, ks, kcmp, v) && FastItem(fs, ks, p, v, c, low) && 0 <= i < |p.chunks[c].items|
    ensures |Flat(p, c)| + |p.chunks[c].items| <= |Items(p)|
    ensures Passed(p, kcmp, v, |Flat(p, c)| + i) <==> i < low
  {
    ChunkItems(p, c);
    var base, xs := |Flat(p, c)|, p.chunks[c].items;
    assert Items(p)[base..base + |xs|][i] == xs[i];
    KeylessIsFirst(p, c, i);
    if FirstKeyed(c) <= i {
      assert IsFixed(fs, xs[i].key);
    }
  }

  lemma FastItemIsItem(fs: seq<Field>, ks: seq<KeyCol>, p: Page<Row>, kcmp: Row -> int, v: int, c: int, low: int)
    requires !p.leaf && p.chunks != [] && p.chunks[0].items != [] && 0 <= v <= 1
    requires |ks| <= |fs| && SameSide(fs, ks, kcmp, v) && FastItem(fs, ks, p, v, c, low)
    ensures |Flat(p, c)| + |p.chunks[c].items| <= |Items(p)| && ItemFor(p, kcmp, v, c, low)
  {
    ChunkItems(p, c);
    var base, xs := |Flat(p, c)|, p.chunks[c].items;
    forall i | base <= i < base + |xs| ensures Passed(p, kcmp, v, i) <==> i < base + low {
      FastItemSide(fs, ks, p, kcmp, v, c, low, i - base);
    }
  }

  /** An answer of the fast search is the item the slow search stops at. */
  lemma FastIsSlow(fs: seq<Field>, ks: seq<KeyCol>, p: Page<Row>, kcmp: Row -> int, hikeySearch: bool, loc: Locator)
    requires WellFormed(Le(fs), p) && !p.leaf && |ks| <= |fs| && Monotone(Le(fs), kcmp)
    requires SameSide(fs, ks, kcmp, Level(hikeySearch)) && FastAnswer(fs, ks, p, Level(hikeySearch), loc)
    ensures LastPassed(p, kcmp, Level(hikeySearch), loc)
  {
    var v := Level(hikeySearch);
    var c, low :| FastChunk(fs, ks, p, v, c) && FastItem(fs, ks, p, v, c, low) &&
                  (low == 0 ==> p.chunks[c - 1].keysFixed) && loc == StepBack(p, c, low);
    FastChunkIsChunk(fs, ks, p, kcmp, hikeySearch, c);
    FastItemIsItem(fs, ks, p, kcmp, v, c, low);
    TwoLevelsAreFlat(p, kcmp, hikeySearch, c, low, Le(fs));
    SteppedBack(p, c, low);
  }

  lemma SteppedBack(p: Page<Row>, c: int, low: int)
    requires 0 <= c < |p.chunks| && 0 <= low <= |p.chunks[c].items| && (low == 0 ==> c > 0)
    requires forall d :: 0 <= d < |p.chunks| ==> p.chunks[d].items != []
    ensures var loc := StepBack(p, c, low);
            0 <= loc.chunk < |p.chunks| && 0 <= loc.item < |p.chunks[loc.chunk].items| &&
            Offset(p, loc) + 1 == Offset(p, Locator(c, low))
  {
    if low == 0 {
      assert Flat(p, c) == Flat(p, c - 1) + p.chunks[c - 1].items;
    }
  }
}
