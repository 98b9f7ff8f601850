/**
 Bottom-up index build: one open page per level, written out when an item no longer fits.

 A downlink is the page it leads to: pages on disk never change once written.  Whether an
 item fits and where a page is split are taken as given, see `Good`.  Keys are integers.
*/
module Build {

  import opened Common

  datatype Tuple = Tuple(key: int, data: int)

  /** An item of a leaf, or a downlink; the first downlink of a page has no key. */
  datatype Entry = Tup(t: Tuple) | Down(key: Option<int>, page: Page)

  /** A written page; a rightmost page has no high key. */
  datatype Page = Page(level: nat, entries: seq<Entry>, hikey: Option<int>)

  /** An open page with its saved low key; the first page of a level has none. */
  datatype Open = Open(entries: seq<Entry>, key: Option<int>)

  /** The page images per level up to the root level, the pages written so far and the leaf counter. */
  datatype State = State(stack: seq<Open>, written: seq<Page>, leafPages: nat)

  /** Whether an item fits at the end of a page of a level, and how many items stay left when it does not. */
  datatype Policy = Policy(fits: (int, seq<Entry>, Entry) -> bool, cut: (int, seq<Entry>, Entry) -> int)

  /** An empty page takes any item; a split leaves something left and puts the new item right. */
  ghost predicate Good(pol: Policy) {
    (forall l, e :: pol.fits(l, [], e)) &&
    (forall l, es, e :: !pol.fits(l, es, e) ==> 1 <= pol.cut(l, es, e) <= |es|)
  }

  function EntryKey(e: Entry): Option<int> {
    if e.Tup? then Some(e.t.key) else e.key
  }

  /** Above the leaves the first key of a page is cut off. */
  function CutFirstKey(level: nat, es: seq<Entry>): seq<Entry>
    requires es != []
  {
    if level == 0 || es[0].Tup? then es else es[0 := Down(None, es[0].page)]
  }

  // ---------------------------------------------------------------------------
  // Putting an item on the stack
  // ---------------------------------------------------------------------------

  /** The page written when `e` does not fit on level `level`. */
  function LeftPage(pol: Policy, st: State, level: nat, e: Entry): Page
    requires Good(pol) && level < |st.stack| && !pol.fits(level, st.stack[level].entries, e)
  {
    var all := st.stack[level].entries + [e];
    var k := pol.cut(level, st.stack[level].entries, e);
    Page(level, all[..k], EntryKey(all[k]))
  }

  /** The stack after that page is written: the rest stays open, and a root that was split gets a parent. */
  function Split(pol: Policy, st: State, level: nat, e: Entry): State
    requires Good(pol) && level < |st.stack| && !pol.fits(level, st.stack[level].entries, e)
  {
    var all := st.stack[level].entries + [e];
    var k := pol.cut(level, st.stack[level].entries, e);
    var left := LeftPage(pol, st, level, e);
    var stack := st.stack[level := Open(CutFirstKey(level, all[k..]), left.hikey)];
    State(if level + 1 == |st.stack| then stack + [Open([], None)] else stack,
          st.written + [left],
          if level == 0 then st.leafPages + 1 else st.leafPages)
  }

  function Put(pol: Policy, st: State, level: nat, e: Entry): (r: State)
    requires Good(pol) && level < |st.stack|
    ensures |st.stack| <= |r.stack| && r.stack[..level] == st.stack[..level]
    decreases |st.stack| - level + if st.stack[level].entries == [] then 0 else 1
  {
    var page := st.stack[level];
    if pol.fits(level, page.entries, e) then
      st.(stack := st.stack[level := page.(entries := page.entries + [e])])
    else
      var r := Put(pol, Split(pol, st, level, e), level + 1, Down(page.key, LeftPage(pol, st, level, e)));
      assert r.stack[..level] == r.stack[..level + 1][..level];
      r
  }

  // ---------------------------------------------------------------------------
  // When the root is raised
  // ---------------------------------------------------------------------------

  /** The item does not fit on its level, and that is the root level or the downlink to the page then written
      finds no room on the level above. */
  predicate NoRoom(pol: Policy, st: State, level: nat, e: Entry)
    requires Good(pol) && level < |st.stack|
    decreases |st.stack| - level
  {
    !pol.fits(level, st.stack[level].entries, e) &&
    (level + 1 == |st.stack| || NoRoom(pol, st, level + 1, Down(st.stack[level].key, LeftPage(pol, st, level, e))))
  }

  /** Only the levels from `level` up matter for that. */
  lemma {:induction false} NoRoomSame(pol: Policy, a: State, b: State, level: nat, e: Entry)
    requires Good(pol) && level < |a.stack| == |b.stack| &&
      forall l :: level <= l < |a.stack| ==> a.stack[l] == b.stack[l]
    ensures NoRoom(pol, a, level, e) <==> NoRoom(pol, b, level, e)
    decreases |a.stack| - level
  {
    if !pol.fits(level, a.stack[level].entries, e) && level + 1 < |a.stack| {
      NoRoomSame(pol, a, b, level + 1, Down(a.stack[level].key, LeftPage(pol, a, level, e)));
    }
  }

  /** Putting an item raises the root by one level exactly when there is no room on any level on the way. */
  lemma {:induction false} PutHeight(pol: Policy, st: State, level: nat, e: Entry)
    requires Good(pol) && level < |st.stack|
    ensures |Put(pol, st, level, e).stack| == |st.stack| + if NoRoom(pol, st, level, e) then 1 else 0
    decreases |st.stack| - level
  {
    if !pol.fits(level, st.stack[level].entries, e) && level + 1 < |st.stack| {
      var s, link := Split(pol, st, level, e), Down(st.stack[level].key, LeftPage(pol, st, level, e));
      PutHeight(pol, s, level + 1, link);
      NoRoomSame(pol, st, s, level + 1, link);
    }
  }

  // ---------------------------------------------------------------------------
  // The stream is kept
  // ---------------------------------------------------------------------------

  /** The tuples under an entry, in order. */
  function SpellEntry(e: Entry): seq<Tuple>
    decreases e
  {
    match e
    case Tup(t) => [t]
    case Down(_, p) => Spell(p.entries)
  }

  function Spell(es: seq<Entry>): seq<Tuple>
    decreases es
  {
    if es == [] then [] else Spell(es[..|es| - 1]) + SpellEntry(es[|es| - 1])
  }

  /** The tuples under the open pages from the root level down to level `l`. */
  function Spine(stack: seq<Open>, l: nat): seq<Tuple>
    decreases |stack| - l
  {
    if l >= |stack| then [] else Spine(stack, l + 1) + Spell(stack[l].entries)
  }

  lemma {:induction false} SpellAppend(xs: seq<Entry>, ys: seq<Entry>)
    ensures Spell(xs + ys) == Spell(xs) + Spell(ys)
    decreases |ys|
  {
    if ys == [] {
      assert xs + ys == xs;
    } else {
      var y := |ys| - 1;
      assert (xs + ys)[..|xs + ys| - 1] == xs + ys[..y];
      SpellAppend(xs, ys[..y]);
    }
  }

  /** Cutting the first key changes no tuple. */
  lemma SpellCut(level: nat, es: seq<Entry>)
    requires es != []
    ensures Spell(CutFirstKey(level, es)) == Spell(es)
  {
    var cs := CutFirstKey(level, es);
    assert es == es[..1] + es[1..] && cs == cs[..1] + cs[1..] && cs[1..] == es[1..];
    SpellAppend(es[..1], es[1..]);
    SpellAppend(cs[..1], cs[1..]);
    assert es[..1] == [es[0]] && cs[..1] == [cs[0]];
    assert Spell([cs[0]]) == [] + SpellEntry(cs[0]) && Spell([es[0]]) == [] + SpellEntry(es[0]);
  }

  /** Levels from `l` up are all that matters. */
  lemma {:induction false} SpineSame(a: seq<Open>, b: seq<Open>, l: nat)
    requires |a| <= |b| && (forall i :: l <= i < |a| ==> a[i].entries == b[i].entries)
    requires forall i :: |a| <= i < |b| && l <= i ==> b[i].entries == []
    ensures Spine(a, l) == Spine(b, l)
    decreases |b| - l
  {
    if l < |b| {
      SpineSame(a, b, l + 1);
    }
  }

  lemma SpellOne(es: seq<Entry>, e: Entry)
    ensures Spell(es + [e]) == Spell(es) + SpellEntry(e)
  {
    assert (es + [e])[..|es|] == es;
  }

  /** Dividing a page and the new item in two keeps what they spell. */
  lemma SpellDivided(level: nat, es: seq<Entry>, e: Entry, xs: seq<Entry>, ys: seq<Entry>)
    requires xs + ys == es + [e] && ys != []
    ensures Spell(xs) + Spell(CutFirstKey(level, ys)) == Spell(es) + SpellEntry(e)
  {
    SpellCut(level, ys);
    SpellAppend(xs, ys);
    SpellOne(es, e);
  }

  lemma Rejoined<T>(all: seq<T>, k: nat)
    requires k <= |all|
    ensures all[..k] + all[k..] == all
  {
  }

  /** The written page and the page left open spell the old page and the new item. */
  lemma SplitSpells(pol: Policy, st: State, level: nat, e: Entry)
    requires Good(pol) && level < |st.stack| && !pol.fits(level, st.stack[level].entries, e)
    ensures Spell(LeftPage(pol, st, level, e).entries) + Spell(Split(pol, st, level, e).stack[level].entries) ==
            Spell(st.stack[level].entries) + SpellEntry(e)
  {
    var es := st.stack[level].entries;
    var all, k := es + [e], pol.cut(level, es, e);
    Rejoined(all, k);
    SpellDivided(level, es, e, all[..k], all[k..]);
  }

  lemma SpineSplit(pol: Policy, st: State, level: nat, e: Entry)
    requires Good(pol) && level < |st.stack| && !pol.fits(level, st.stack[level].entries, e)
    ensures Spine(Split(pol, st, level, e).stack, level + 1) == Spine(st.stack, level + 1)
  {
    SpineSame(st.stack, Split(pol, st, level, e).stack, level + 1);
  }

  lemma SpineStep(stack: seq<Open>, l: nat)
    requires l < |stack|
    ensures Spine(stack, l) == Spine(stack, l + 1) + Spell(stack[l].entries)
  {
  }

  /** An item added to the page of a level is spelled after everything from that level up. */
  lemma FitSpells(stack: seq<Open>, level: nat, e: Entry)
    requires level < |stack|
    ensures var page := stack[level];
            Spine(stack[level := page.(entries := page.entries + [e])], level) == Spine(stack, level) + SpellEntry(e)
  {
    var page := stack[level];
    var r := stack[level := page.(entries := page.entries + [e])];
    SpellOne(page.entries, e);
    SpineSame(stack, r, level + 1);
    SpineStep(stack, level);
    SpineStep(r, level);
    Assoc(Spine(stack, level + 1), Spell(page.entries), SpellEntry(e));
  }

  lemma Assoc<T>(a: seq<T>, b: seq<T>, c: seq<T>)
    ensures (a + b) + c == a + (b + c)
  {
  }

  lemma Regroup<T>(a: seq<T>, b: seq<T>, c: seq<T>, d: seq<T>, e: seq<T>)
    requires b + c == d + e
    ensures a + b + c == a + d + e
  {
    assert a + b + c == a + (b + c) && a + d + e == a + (d + e);
  }

  /** Putting an item appends its tuples to what the open pages spell, whatever is split on the way. */
  lemma {:induction false} PutSpells(pol: Policy, st: State, level: nat, e: Entry)
    requires Good(pol) && level < |st.stack|
    ensures Spine(Put(pol, st, level, e).stack, level) == Spine(st.stack, level) + SpellEntry(e)
    decreases |st.stack| - level + if st.stack[level].entries == [] then 0 else 1
  {
    if pol.fits(level, st.stack[level].entries, e) {
      FitSpells(st.stack, level, e);
    } else {
      var s, left := Split(pol, st, level, e), LeftPage(pol, st, level, e);
      var link := Down(st.stack[level].key, left);
      PutSpells(pol, s, level + 1, link);
      SplitPutSpells(pol, st, level, e, Put(pol, s, level + 1, link).stack);
    }
  }

  lemma SplitPutSpells(pol: Policy, st: State, level: nat, e: Entry, r: seq<Open>)
    requires Good(pol) && level < |st.stack| && !pol.fits(level, st.stack[level].entries, e)
    requires level < |r| && r[..level + 1] == Split(pol, st, level, e).stack[..level + 1]
    requires Spine(r, level + 1) ==
             Spine(Split(pol, st, level, e).stack, level + 1) + Spell(LeftPage(pol, st, level, e).entries)
    ensures Spine(r, level) == Spine(st.stack, level) + SpellEntry(e)
  {
    var s, left := Split(pol, st, level, e), LeftPage(pol, st, level, e);
    assert r[level] == s.stack[level] by { assert r[..level + 1][level] == s.stack[..level + 1][level]; }
    SpineSplit(pol, st, level, e);
    SplitSpells(pol, st, level, e);
    SpineStep(r, level);
    SpineStep(st.stack, level);
    Regroup(Spine(st.stack, level + 1), Spell(left.entries), Spell(s.stack[level].entries),
            Spell(st.stack[level].entries), SpellEntry(e));
  }

  // ---------------------------------------------------------------------------
  // Every page stays within its bounds
  // ---------------------------------------------------------------------------

  /** `None` is no lower limit. */
  predicate AtLeast(k: int, low: Option<int>) {
    low.Some? ==> low.value <= k
  }

  /** `None` is no upper limit. */
  predicate Under(k: int, high: Option<int>) {
    high.Some? ==> k < high.value
  }

  /** The low key of entry `i` of a page: the page's own for the first entry. */
  function LowAt(es: seq<Entry>, i: int, low: Option<int>): Option<int>
    requires 0 <= i < |es|
  {
    if i == 0 then low else EntryKey(es[i])
  }

  /** The high key of entry `i`: the next entry's key, the page's own for the last entry. */
  function HighAt(es: seq<Entry>, i: int, high: Option<int>): Option<int>
    requires 0 <= i < |es|
  {
    if i + 1 < |es| then EntryKey(es[i + 1]) else high
  }

  /** A tuple between the limits and below the next tuple. */
  ghost predicate LeafEntryOk(es: seq<Entry>, i: int, low: Option<int>, high: Option<int>)
    requires 0 <= i < |es|
  {
    es[i].Tup? && AtLeast(es[i].t.key, low) && Under(es[i].t.key, HighAt(es, i, high)) && Under(es[i].t.key, high)
  }

  /** A downlink to a page of the level below whose low key it carries and whose high key is the next one's. */
  ghost predicate LinkOk(level: nat, es: seq<Entry>, i: int, low: Option<int>, high: Option<int>)
    requires 0 <= i < |es| && level > 0
    decreases level, 0
  {
    es[i].Down? && es[i].key.Some? == (i > 0) && es[i].page.hikey == HighAt(es, i, high) &&
    ChildOk(level - 1, es[i].page, LowAt(es, i, low))
  }

  ghost predicate ChildOk(level: nat, p: Page, low: Option<int>)
    decreases level, 2
  {
    p.level == level && p.entries != [] && EntriesOk(level, p.entries, low, p.hikey)
  }

  /** The entries of a page of the level with the given low and high keys. */
  ghost predicate EntriesOk(level: nat, es: seq<Entry>, low: Option<int>, high: Option<int>)
    decreases level, 1
  {
    if level == 0 then
      forall i {:trigger LeafEntryOk(es, i, low, high)} :: 0 <= i < |es| ==> LeafEntryOk(es, i, low, high)
    else
      forall i {:trigger LinkOk(level, es, i, low, high)} :: 0 <= i < |es| ==> LinkOk(level, es, i, low, high)
  }

  /** The part kept on the left, whose high key is the first key on the right. */
  lemma LeftOk(level: nat, all: seq<Entry>, low: Option<int>, high: Option<int>, k: nat)
    requires EntriesOk(level, all, low, high) && 1 <= k < |all|
    ensures EntriesOk(level, all[..k], low, EntryKey(all[k])) && EntryKey(all[k]).Some?
  {
    var es, mid := all[..k], EntryKey(all[k]);
    if level == 0 {
      assert LeafEntryOk(all, k, low, high);
      forall i {:trigger LeafEntryOk(es, i, low, mid)} | 0 <= i < k ensures LeafEntryOk(es, i, low, mid) {
        LeafOrder(all, low, high, i, k);
        assert LeafEntryOk(all, i, low, high);
      }
    } else {
      assert LinkOk(level, all, k, low, high);
      forall i {:trigger LinkOk(level, es, i, low, mid)} | 0 <= i < k ensures LinkOk(level, es, i, low, mid) {
        assert LinkOk(level, all, i, low, high);
      }
    }
  }

  lemma {:induction false} LeafOrder(es: seq<Entry>, low: Option<int>, high: Option<int>, i: nat, j: nat)
    requires EntriesOk(0, es, low, high) && i < j < |es|
    ensures es[i].Tup? && es[j].Tup? && es[i].t.key < es[j].t.key
    decreases j - i
  {
    assert LeafEntryOk(es, i, low, high);
    assert LeafEntryOk(es, j, low, high);
    if i + 1 < j {
      LeafOrder(es, low, high, i + 1, j);
    }
  }

  /** The part that stays open, its first key cut off above the leaves. */
  lemma RightOk(level: nat, all: seq<Entry>, low: Option<int>, high: Option<int>, k: nat)
    requires EntriesOk(level, all, low, high) && 1 <= k < |all|
    ensures EntriesOk(level, CutFirstKey(level, all[k..]), EntryKey(all[k]), high)
  {
    var es, mid := CutFirstKey(level, all[k..]), EntryKey(all[k]);
    if level == 0 {
      assert LeafEntryOk(all, k, low, high);
      forall i {:trigger LeafEntryOk(es, i, mid, high)} | 0 <= i < |es| ensures LeafEntryOk(es, i, mid, high) {
        assert LeafEntryOk(all, k + i, low, high);
        if i > 0 {
          LeafOrder(all, low, high, k, k + i);
        }
      }
    } else {
      forall i {:trigger LinkOk(level, es, i, mid, high)} | 0 <= i < |es| ensures LinkOk(level, es, i, mid, high) {
        assert LinkOk(level, all, k + i, low, high);
        assert LinkOk(level, all, k, low, high);
        assert HighAt(es, i, high) == HighAt(all, k + i, high);
        assert LowAt(es, i, mid) == LowAt(all, k + i, low);
      }
    }
  }

  /** A downlink that starts where the last child ends may be appended. */
  lemma LinkAppended(level: nat, es: seq<Entry>, low: Option<int>, mid: Option<int>, p: Page)
    requires level > 0 && EntriesOk(level, es, low, mid) && ChildOk(level - 1, p, mid)
    requires if es == [] then mid == None && low == None else mid.Some?
    ensures EntriesOk(level, es + [Down(mid, p)], low, p.hikey)
  {
    var all := es + [Down(mid, p)];
    forall i {:trigger LinkOk(level, all, i, low, p.hikey)} | 0 <= i < |all|
      ensures LinkOk(level, all, i, low, p.hikey)
    {
      if i < |es| {
        assert LinkOk(level, es, i, low, mid);
      }
    }
  }

  // ---------------------------------------------------------------------------
  // What putting an item keeps
  // ---------------------------------------------------------------------------

  /** The open page of level `l`, which ends where the page open below it begins. */
  ghost predicate OpenOk(stack: seq<Open>, l: int)
    requires 1 <= l < |stack|
  {
    EntriesOk(l, stack[l].entries, stack[l].key, stack[l - 1].key) && stack[l].entries != []
  }

  /** The open pages above `level`; every level but the root has a saved low key. */
  ghost predicate AboveOk(stack: seq<Open>, level: int)
    requires 0 <= level < |stack|
  {
    (forall l {:trigger OpenOk(stack, l)} :: level < l < |stack| ==> OpenOk(stack, l)) &&
    (forall l :: level <= l < |stack| ==> stack[l].key.Some? == (l + 1 < |stack|))
  }

  /** Splitting a level leaves the pending downlink in place for the level above. */
  lemma SplitKeeps(pol: Policy, st: State, level: nat, e: Entry, high: Option<int>)
    requires Good(pol) && level < |st.stack| && !pol.fits(level, st.stack[level].entries, e)
    requires AboveOk(st.stack, level) && EntriesOk(level, st.stack[level].entries + [e], st.stack[level].key, high)
    ensures var s, left := Split(pol, st, level, e), LeftPage(pol, st, level, e);
            EntriesOk(level, s.stack[level].entries, s.stack[level].key, high) && s.stack[level].key.Some? &&
            EntriesOk(level + 1, s.stack[level + 1].entries + [Down(st.stack[level].key, left)], s.stack[level + 1].key,
                      s.stack[level].key)
  {
    var s, left := Split(pol, st, level, e), LeftPage(pol, st, level, e);
    var all := st.stack[level].entries + [e];
    var k := pol.cut(level, st.stack[level].entries, e);
    LeftOk(level, all, st.stack[level].key, high, k);
    RightOk(level, all, st.stack[level].key, high, k);
    if level + 1 < |st.stack| {
      assert OpenOk(st.stack, level + 1);
    }
    LinkAppended(level + 1, s.stack[level + 1].entries, s.stack[level + 1].key, st.stack[level].key, left);
  }

  lemma SplitAbove(pol: Policy, st: State, level: nat, e: Entry)
    requires Good(pol) && level < |st.stack| && !pol.fits(level, st.stack[level].entries, e)
    requires AboveOk(st.stack, level)
    ensures AboveOk(Split(pol, st, level, e).stack, level + 1)
  {
    var s := Split(pol, st, level, e);
    forall l {:trigger OpenOk(s.stack, l)} | level + 1 < l < |s.stack| ensures OpenOk(s.stack, l) {
      assert OpenOk(st.stack, l);
    }
  }

  /** After the recursive put the levels from `level` on are in order again. */
  lemma AboveJoin(stack: seq<Open>, level: nat)
    requires level + 1 < |stack| && AboveOk(stack, level + 1) && OpenOk(stack, level + 1) && stack[level].key.Some?
    ensures AboveOk(stack, level)
  {
  }

  /** Putting an item that continues its level keeps every open page in its bounds. */
  lemma {:induction false} PutKeeps(pol: Policy, st: State, level: nat, e: Entry, high: Option<int>)
    requires Good(pol) && level < |st.stack| && AboveOk(st.stack, level)
    requires EntriesOk(level, st.stack[level].entries + [e], st.stack[level].key, high)
    ensures var r := Put(pol, st, level, e).stack;
            AboveOk(r, level) && EntriesOk(level, r[level].entries, r[level].key, high) && r[level].entries != []
    decreases |st.stack| - level + if st.stack[level].entries == [] then 0 else 1
  {
    var page := st.stack[level];
    if pol.fits(level, page.entries, e) {
      FitKeeps(st.stack, level, e);
    } else {
      var s, left := Split(pol, st, level, e), LeftPage(pol, st, level, e);
      SplitKeeps(pol, st, level, e, high);
      SplitAbove(pol, st, level, e);
      PutKeeps(pol, s, level + 1, Down(page.key, left), s.stack[level].key);
      var r := Put(pol, s, level + 1, Down(page.key, left)).stack;
      SameBelow(r, s.stack, level);
      AboveJoin(r, level);
    }
  }

  lemma SameBelow(a: seq<Open>, b: seq<Open>, l: nat)
    requires l < |a| && l < |b| && a[..l + 1] == b[..l + 1]
    ensures a[l] == b[l]
  {
    assert a[..l + 1][l] == b[..l + 1][l];
  }

  /** Adding an item that fits touches no other level. */
  lemma FitKeeps(stack: seq<Open>, level: nat, e: Entry)
    requires level < |stack| && AboveOk(stack, level)
    ensures AboveOk(stack[level := stack[level].(entries := stack[level].entries + [e])], level)
  {
    var r := stack[level := stack[level].(entries := stack[level].entries + [e])];
    forall l {:trigger OpenOk(r, l)} | level < l < |r| ensures OpenOk(r, l) {
      assert OpenOk(stack, l);
    }
  }
}
