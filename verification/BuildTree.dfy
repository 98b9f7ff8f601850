/**
 The finished build: feeding the sorted stream, flushing the open pages, and the search
 tree that results.
*/
module BuildTree {
  import opened Common
  import opened Build

  // ---------------------------------------------------------------------------
  // Feeding and flushing
  // ---------------------------------------------------------------------------

  function Start(): State {
    State([Open([], None)], [], 0)
  }

  function Feed(pol: Policy, input: seq<Tuple>): (st: State)
    requires Good(pol)
    ensures |st.stack| >= 1
  {
    if input == [] then Start()
    else Put(pol, Feed(pol, input[..|input| - 1]), 0, Tup(input[|input| - 1]))
  }

  /** Writes a page: it is the last one of its level, so it has no high key. */
  function LastPage(st: State, i: nat): Page
    requires i < |st.stack|
  {
    Page(i, st.stack[i].entries, None)
  }

  function Written(st: State, p: Page): State {
    State(st.stack, st.written + [p], if p.level == 0 then st.leafPages + 1 else st.leafPages)
  }

  /** The state after the open pages of the first `i` levels have been written and linked. */
  function Flush(pol: Policy, st: State, i: nat): (r: State)
    requires Good(pol) && i < |st.stack|
    ensures |st.stack| <= |r.stack|
  {
    if i == 0 then st
    else
      var s := Flush(pol, st, i - 1);
      Put(pol, Written(s, LastPage(s, i - 1)), i, Down(s.stack[i - 1].key, LastPage(s, i - 1)))
  }

  /** All levels below the root level at the start of the flush; the bound is not raised with the root. */
  function Flushed(pol: Policy, st: State): State
    requires Good(pol) && |st.stack| >= 1
  {
    Flush(pol, st, |st.stack| - 1)
  }

  /** The page written last. */
  function Root(st: State): Page
    requires |st.stack| >= 1
  {
    LastPage(st, |st.stack| - 1)
  }

  ghost predicate StrictlySorted(input: seq<Tuple>) {
    forall i, j :: 0 <= i < j < |input| ==> input[i].key < input[j].key
  }

  // ---------------------------------------------------------------------------
  // Feeding keeps the stream
  // ---------------------------------------------------------------------------

  /** After every tuple the open pages, from the root level down, spell exactly the input so far. */
  lemma {:induction false} FeedSpells(pol: Policy, input: seq<Tuple>)
    requires Good(pol)
    ensures Spine(Feed(pol, input).stack, 0) == input
  {
    if input == [] {
      assert Spine(Start().stack, 1) == [];
    } else {
      var n := |input| - 1;
      var st := Feed(pol, input[..n]);
      FeedSpells(pol, input[..n]);
      PutSpells(pol, st, 0, Tup(input[n]));
      assert Feed(pol, input) == Put(pol, st, 0, Tup(input[n]));
      LastApart(input);
    }
  }

  lemma LastApart(input: seq<Tuple>)
    requires input != []
    ensures input[..|input| - 1] + SpellEntry(Tup(input[|input| - 1])) == input
  {
  }

  /** All open pages are in their bounds, and the tuples on the open leaf are the last ones of the input. */
  ghost predicate FedOk(st: State, input: seq<Tuple>) {
    |st.stack| >= 1 && AboveOk(st.stack, 0) && EntriesOk(0, st.stack[0].entries, st.stack[0].key, None) &&
    (input != [] ==> st.stack[0].entries != [])
  }

  lemma LastTuple(st: State, input: seq<Tuple>)
    requires FedOk(st, input) && Spine(st.stack, 0) == input && input != []
    ensures var es := st.stack[0].entries; es != [] && es[|es| - 1] == Tup(input[|input| - 1])
  {
    var es := st.stack[0].entries;
    assert LeafEntryOk(es, |es| - 1, st.stack[0].key, None);
    assert Spell(es) == Spell(es[..|es| - 1]) + SpellEntry(es[|es| - 1]);
    assert Spine(st.stack, 0) == Spine(st.stack, 1) + Spell(es);
  }

  lemma TupleAppended(es: seq<Entry>, low: Option<int>, t: Tuple)
    requires EntriesOk(0, es, low, None) && es != [] && es[|es| - 1].Tup? && es[|es| - 1].t.key < t.key
    ensures EntriesOk(0, es + [Tup(t)], low, None)
  {
    var all := es + [Tup(t)];
    forall i {:trigger LeafEntryOk(all, i, low, None)} | 0 <= i < |all| ensures LeafEntryOk(all, i, low, None) {
      assert LeafEntryOk(es, |es| - 1, low, None);
      if i < |es| {
        assert LeafEntryOk(es, i, low, None);
      }
    }
  }

  lemma {:induction false} FeedKeeps(pol: Policy, input: seq<Tuple>)
    requires Good(pol) && StrictlySorted(input)
    ensures FedOk(Feed(pol, input), input)
  {
    if input != [] {
      var n := |input| - 1;
      var st := Feed(pol, input[..n]);
      FeedKeeps(pol, input[..n]);
      FeedSpells(pol, input[..n]);
      var es := st.stack[0].entries;
      if n > 0 {
        LastTuple(st, input[..n]);
        TupleAppended(es, st.stack[0].key, input[n]);
      } else {
        FirstTuple(pol, input[0]);
      }
      PutKeeps(pol, st, 0, Tup(input[n]), None);
    }
  }

  lemma FirstTuple(pol: Policy, t: Tuple)
    requires Good(pol)
    ensures EntriesOk(0, Start().stack[0].entries + [Tup(t)], None, None)
  {
    var all := Start().stack[0].entries + [Tup(t)];
    assert all == [Tup(t)];
  }

  // ---------------------------------------------------------------------------
  // Flushing
  // ---------------------------------------------------------------------------

  /** Levels from `i` up still spell everything; the levels below are written. */
  lemma {:induction false} FlushSpells(pol: Policy, st: State, i: nat)
    requires Good(pol) && i < |st.stack|
    ensures Spine(Flush(pol, st, i).stack, i) == Spine(st.stack, 0)
  {
    if i > 0 {
      var s := Flush(pol, st, i - 1);
      FlushSpells(pol, st, i - 1);
      PutSpells(pol, Written(s, LastPage(s, i - 1)), i, Down(s.stack[i - 1].key, LastPage(s, i - 1)));
      assert Spine(s.stack, i - 1) == Spine(s.stack, i) + Spell(s.stack[i - 1].entries);
    }
  }

  /** The open pages from level `i` up are in their bounds, and level `i` ends the tree. */
  ghost predicate FlushOk(stack: seq<Open>, i: nat) {
    i < |stack| && AboveOk(stack, i) && EntriesOk(i, stack[i].entries, stack[i].key, None)
  }

  lemma {:induction false} FlushKeeps(pol: Policy, st: State, i: nat)
    requires Good(pol) && i < |st.stack| && FlushOk(st.stack, 0) && (|st.stack| > 1 ==> st.stack[0].entries != [])
    ensures FlushOk(Flush(pol, st, i).stack, i)
    ensures |st.stack| > 1 ==> Flush(pol, st, i).stack[i].entries != []
  {
    if i > 0 {
      var s := Flush(pol, st, i - 1);
      FlushKeeps(pol, st, i - 1);
      var p := LastPage(s, i - 1);
      assert OpenOk(s.stack, i);
      LinkAppended(i, s.stack[i].entries, s.stack[i].key, s.stack[i - 1].key, p);
      assert AboveOk(s.stack, i);
      PutKeeps(pol, Written(s, p), i, Down(s.stack[i - 1].key, p), None);
    }
  }

  // ---------------------------------------------------------------------------
  // A page that is within its bounds holds something
  // ---------------------------------------------------------------------------

  lemma {:induction false} SpellsSomething(level: nat, es: seq<Entry>, low: Option<int>, high: Option<int>)
    requires EntriesOk(level, es, low, high) && es != []
    ensures Spell(es) != []
    decreases level
  {
    var n := |es| - 1;
    if level == 0 {
      assert LeafEntryOk(es, n, low, high);
    } else {
      assert LinkOk(level, es, n, low, high);
      assert ChildOk(level - 1, es[n].page, LowAt(es, n, low));
      SpellsSomething(level - 1, es[n].page.entries, LowAt(es, n, low), es[n].page.hikey);
    }
    assert Spell(es) == Spell(es[..n]) + SpellEntry(es[n]);
  }

  /** The root level's page is a prefix of what higher spines spell. */
  lemma {:induction false} TopIsPrefix(stack: seq<Open>, l: nat)
    requires l < |stack|
    ensures Spell(stack[|stack| - 1].entries) <= Spine(stack, l)
    decreases |stack| - l
  {
    if l + 1 < |stack| {
      TopIsPrefix(stack, l + 1);
      assert Spine(stack, l) == Spine(stack, l + 1) + Spell(stack[l].entries);
    } else {
      assert Spine(stack, l + 1) == [];
    }
  }

  // ---------------------------------------------------------------------------
  // The finished tree
  // ---------------------------------------------------------------------------

  /** The root stays where it was when the flush began. */
  ghost predicate RootKept(pol: Policy, st: State)
    requires Good(pol) && |st.stack| >= 1
  {
    |Flushed(pol, st).stack| == |st.stack|
  }

  /** The downlink that the flush pushes for level `i` finds no room up to the root level. */
  predicate PushOverflows(pol: Policy, st: State, i: nat)
    requires Good(pol) && i + 1 < |st.stack|
  {
    var s := Flush(pol, st, i);
    NoRoom(pol, s, i + 1, Down(s.stack[i].key, LastPage(s, i)))
  }

  /** Every downlink the flush pushes finds room at or below the root level. */
  predicate FlushHasRoom(pol: Policy, st: State)
    requires Good(pol)
  {
    forall i {:trigger PushOverflows(pol, st, i)} :: 0 <= i < |st.stack| - 1 ==> !PushOverflows(pol, st, i)
  }

  /** Pushing one downlink raises the root by one exactly when it finds no room. */
  lemma PushHeight(pol: Policy, s: State, t: State, i: nat, link: Entry, over: bool)
    requires Good(pol) && i + 1 < |s.stack|
    requires t == Put(pol, Written(s, LastPage(s, i)), i + 1, link) && over == NoRoom(pol, s, i + 1, link)
    ensures |t.stack| == |s.stack| + if over then 1 else 0
  {
    var w := Written(s, LastPage(s, i));
    PutHeight(pol, w, i + 1, link);
    NoRoomSame(pol, s, w, i + 1, link);
  }

  /** Flushing one level raises the root by one exactly when its downlink overflows. */
  lemma FlushHeight(pol: Policy, st: State, i: nat, s: State, t: State, over: bool)
    requires Good(pol) && i + 1 < |st.stack| && s == Flush(pol, st, i) && t == Flush(pol, st, i + 1)
    requires over == PushOverflows(pol, st, i)
    ensures |t.stack| == |s.stack| + if over then 1 else 0
  {
    PushHeight(pol, s, t, i, Down(s.stack[i].key, LastPage(s, i)), over);
  }

  /** No push of the first `n` levels overflows. */
  predicate RoomUpTo(pol: Policy, st: State, n: nat)
    requires Good(pol) && n < |st.stack|
  {
    n == 0 || (RoomUpTo(pol, st, n - 1) && !PushOverflows(pol, st, n - 1))
  }

  /** The first `n` levels are flushed without raising the root exactly when none of their pushes overflows. */
  lemma {:induction false} FlatIff(pol: Policy, st: State, n: nat, t: State, room: bool)
    requires Good(pol) && n < |st.stack| && t == Flush(pol, st, n) && room == RoomUpTo(pol, st, n)
    ensures |t.stack| >= |st.stack| && (|t.stack| == |st.stack| <==> room)
  {
    if n > 0 {
      var s := Flush(pol, st, n - 1);
      FlatIff(pol, st, n - 1, s, RoomUpTo(pol, st, n - 1));
      FlushHeight(pol, st, n - 1, s, t, PushOverflows(pol, st, n - 1));
    }
  }

  lemma {:induction false} RoomAt(pol: Policy, st: State, n: nat, i: nat)
    requires Good(pol) && i < n < |st.stack| && RoomUpTo(pol, st, n)
    ensures !PushOverflows(pol, st, i)
  {
    if i < n - 1 {
      RoomAt(pol, st, n - 1, i);
    }
  }

  lemma {:induction false} SomeOverflow(pol: Policy, st: State, n: nat) returns (i: nat, over: bool)
    requires Good(pol) && n < |st.stack| && !RoomUpTo(pol, st, n)
    ensures i < n && over == PushOverflows(pol, st, i) && over
  {
    i, over := n - 1, PushOverflows(pol, st, n - 1);
    if !over {
      i, over := SomeOverflow(pol, st, n - 1);
    }
  }

  /** The root stays where it is exactly when every push finds room. */
  lemma RootKeptIff(pol: Policy, st: State)
    requires Good(pol) && |st.stack| >= 1
    ensures RootKept(pol, st) <==> FlushHasRoom(pol, st)
  {
    var n := |st.stack| - 1;
    FlatIff(pol, st, n, Flushed(pol, st), RoomUpTo(pol, st, n));
    if RoomUpTo(pol, st, n) {
      forall i {:trigger PushOverflows(pol, st, i)} | 0 <= i < n ensures !PushOverflows(pol, st, i) {
        RoomAt(pol, st, n, i);
      }
    } else {
      var i, over := SomeOverflow(pol, st, n);
    }
  }

  /** Open pages in their bounds, ready to be flushed. */
  ghost predicate Ready(st: State) {
    FlushOk(st.stack, 0) && (|st.stack| > 1 ==> st.stack[0].entries != [])
  }

  /** When the flush raises the root, the page left open on the old root level holds something. */
  lemma LostPage(pol: Policy, st: State)
    requires Good(pol) && Ready(st) && !RootKept(pol, st)
    ensures Spell(Flushed(pol, st).stack[|st.stack| - 1].entries) != []
  {
    var n, fin := |st.stack| - 1, Flushed(pol, st);
    FlushKeeps(pol, st, n);
    SpellsSomething(n, fin.stack[n].entries, fin.stack[n].key, None);
  }

  /** The root page alone spells the spine from level `n` exactly when nothing is left below it. */
  lemma TopAlone(stack: seq<Open>, n: nat)
    requires n < |stack|
    ensures n + 1 == |stack| ==> Spell(stack[|stack| - 1].entries) == Spine(stack, n)
    ensures n + 1 < |stack| && Spell(stack[n].entries) != [] ==> Spell(stack[|stack| - 1].entries) != Spine(stack, n)
  {
    assert Spine(stack, n) == Spine(stack, n + 1) + Spell(stack[n].entries);
    if n + 1 < |stack| {
      TopIsPrefix(stack, n + 1);
    }
  }

  lemma FlushedSpells(pol: Policy, st: State, fin: State)
    requires Good(pol) && |st.stack| >= 1 && fin == Flushed(pol, st)
    ensures |fin.stack| >= |st.stack| && Spine(fin.stack, |st.stack| - 1) == Spine(st.stack, 0)
  {
    var n := |st.stack| - 1;
    FlushSpells(pol, st, n);
    assert fin == Flush(pol, st, n);
  }

  /** With the root level left alone the tree holds what the open pages spelled. */
  lemma KeptHolds(pol: Policy, st: State, fin: State)
    requires Good(pol) && Ready(st) && fin == Flushed(pol, st) && RootKept(pol, st)
    ensures Spell(Root(fin).entries) == Spine(st.stack, 0)
  {
    FlushedSpells(pol, st, fin);
    TopAlone(fin.stack, |st.stack| - 1);
  }

  /** With the root level raised it does not. */
  lemma RaisedLoses(pol: Policy, st: State, fin: State)
    requires Good(pol) && Ready(st) && fin == Flushed(pol, st) && !RootKept(pol, st)
    ensures Spell(Root(fin).entries) != Spine(st.stack, 0)
  {
    FlushedSpells(pol, st, fin);
    LostPage(pol, st);
    TopAlone(fin.stack, |st.stack| - 1);
  }

  /** With the root kept the whole tree is in bounds. */
  lemma TreeInBounds(pol: Policy, st: State)
    requires Good(pol) && Ready(st) && RootKept(pol, st)
    ensures var root := Root(Flushed(pol, st)); EntriesOk(root.level, root.entries, None, None)
  {
    var n, fin := |st.stack| - 1, Flushed(pol, st);
    FlushKeeps(pol, st, n);
    assert fin.stack[n].key == None;
  }

  lemma FeedReady(pol: Policy, input: seq<Tuple>)
    requires Good(pol) && StrictlySorted(input)
    ensures Ready(Feed(pol, input))
  {
    FeedKeeps(pol, input);
  }

  /** For sorted input the tree holds exactly the input if and only if every downlink that the flush pushes finds
      room without splitting the page of the root level. */
  lemma FinishedHoldsInput(pol: Policy, input: seq<Tuple>, st: State, fin: State)
    requires Good(pol) && StrictlySorted(input) && st == Feed(pol, input) && fin == Flushed(pol, st)
    ensures Spell(Root(fin).entries) == input <==> FlushHasRoom(pol, st)
  {
    FeedReady(pol, input);
    FeedSpells(pol, input);
    RootKeptIff(pol, st);
    if RootKept(pol, st) {
      KeptHolds(pol, st, fin);
    } else {
      RaisedLoses(pol, st, fin);
    }
  }

  // ---------------------------------------------------------------------------
  // Routing
  // ---------------------------------------------------------------------------

  /** The entries of a page as its search sees them: the first one has no key. */
  function Links(es: seq<Entry>): (links: seq<Link<Entry>>)
    ensures |links| == |es| &&
      forall i :: 0 <= i < |es| ==> links[i].key == LowAt(es, i, None) && links[i].child == es[i]
  {
    seq(|es|, i requires 0 <= i < |es| => Link(LowAt(es, i, None), es[i]))
  }

  /** The entries of the leaf a key is routed to. */
  function Route(level: nat, es: seq<Entry>, key: int): seq<Entry>
    decreases level
  {
    if level == 0 || es == [] then es
    else
      var e := Links(es)[Pick(Links(es), Ordinary(key))].child;
      if e.Tup? then [] else Route(level - 1, e.page.entries, key)
  }

  lemma {:induction false} SpelledBy(es: seq<Entry>, t: Tuple) returns (i: nat)
    requires t in Spell(es)
    ensures i < |es| && t in SpellEntry(es[i])
  {
    var n := |es| - 1;
    if t in SpellEntry(es[n]) {
      i := n;
    } else {
      i := SpelledBy(es[..n], t);
    }
  }

  /** Keys below the high key of a child are below all later keys and below the page's high key. */
  lemma {:induction false} KeysAscend(level: nat, es: seq<Entry>, low: Option<int>, high: Option<int>, k: int,
                                      i: nat, j: nat)
    requires level > 0 && EntriesOk(level, es, low, high) && i < j <= |es| && Under(k, HighAt(es, i, high))
    requires forall l :: 0 <= l < |es| ==> Spans(es, low, high, l)
    ensures j < |es| ==> EntryKey(es[j]).Some? && k < EntryKey(es[j]).value
    ensures j == |es| ==> Under(k, high)
    decreases j - i
  {
    assert i + 1 < |es| ==> LinkOk(level, es, i + 1, low, high);
    if i + 1 < j {
      assert Spans(es, low, high, i + 1);
      KeysAscend(level, es, low, high, k, i + 1, j);
    }
  }

  /** The low key of an entry is below its high key. */
  ghost predicate Spans(es: seq<Entry>, low: Option<int>, high: Option<int>, i: int)
    requires 0 <= i < |es|
  {
    var lo := LowAt(es, i, low);
    lo.Some? ==> Under(lo.value, HighAt(es, i, high))
  }

  lemma {:induction false} ChildSpans(level: nat, es: seq<Entry>, low: Option<int>, high: Option<int>, i: nat)
    requires level > 0 && EntriesOk(level, es, low, high) && i < |es|
    ensures Spans(es, low, high, i)
    decreases level, 0
  {
    assert LinkOk(level, es, i, low, high);
    var p := es[i].page;
    assert ChildOk(level - 1, p, LowAt(es, i, low));
    SpellsSomething(level - 1, p.entries, LowAt(es, i, low), p.hikey);
    InRange(level - 1, p.entries, LowAt(es, i, low), p.hikey, Spell(p.entries)[0]);
  }

  /** Every tuple under a page lies between the page's low and high keys. */
  lemma {:induction false} InRange(level: nat, es: seq<Entry>, low: Option<int>, high: Option<int>, t: Tuple)
    requires EntriesOk(level, es, low, high) && t in Spell(es)
    ensures AtLeast(t.key, low) && Under(t.key, high)
    decreases level, 1
  {
    var i := SpelledBy(es, t);
    if level == 0 {
      assert LeafEntryOk(es, i, low, high);
    } else {
      UnderChild(level, es, low, high, i, t);
      forall l | 0 <= l < |es| ensures Spans(es, low, high, l) { ChildSpans(level, es, low, high, l); }
      KeysAscend(level, es, low, high, t.key, i, |es|);
      if low.Some? && i > 0 {
        assert Spans(es, low, high, 0);
        KeysAscend(level, es, low, high, low.value, 0, i);
      }
    }
  }

  lemma {:induction false} UnderChild(level: nat, es: seq<Entry>, low: Option<int>, high: Option<int>, i: nat, t: Tuple)
    requires level > 0 && EntriesOk(level, es, low, high) && i < |es| && t in SpellEntry(es[i])
    ensures AtLeast(t.key, LowAt(es, i, low)) && Under(t.key, HighAt(es, i, high))
    decreases level, 0
  {
    assert LinkOk(level, es, i, low, high);
    assert ChildOk(level - 1, es[i].page, LowAt(es, i, low));
    InRange(level - 1, es[i].page.entries, LowAt(es, i, low), es[i].page.hikey, t);
  }

  /** The key of a tuple under child `i` is routed to child `i`. */
  lemma PicksChild(level: nat, es: seq<Entry>, low: Option<int>, high: Option<int>, i: nat, t: Tuple)
    requires level > 0 && EntriesOk(level, es, low, high) && i < |es| && t in SpellEntry(es[i])
    ensures Pick(Links(es), Ordinary(t.key)) == i
  {
    UnderChild(level, es, low, high, i, t);
    forall l | 0 <= l < |es| ensures Spans(es, low, high, l) { ChildSpans(level, es, low, high, l); }
    forall j | i < j < |es| ensures !PassesLink(Ordinary(t.key), Links(es)[j]) {
      KeysAscend(level, es, low, high, t.key, i, j);
    }
    PickIs(Links(es), Ordinary(t.key), i);
  }

  /** Every key under a page is routed to the leaf that holds it. */
  lemma {:induction false} RoutedToItsLeaf(level: nat, es: seq<Entry>, low: Option<int>, high: Option<int>, t: Tuple)
    requires EntriesOk(level, es, low, high) && t in Spell(es)
    ensures Tup(t) in Route(level, es, t.key)
    decreases level
  {
    var i := SpelledBy(es, t);
    if level == 0 {
      assert LeafEntryOk(es, i, low, high);
      assert es[i] == Tup(t);
    } else {
      PicksChild(level, es, low, high, i, t);
      assert LinkOk(level, es, i, low, high);
      assert ChildOk(level - 1, es[i].page, LowAt(es, i, low));
      RoutedToItsLeaf(level - 1, es[i].page.entries, LowAt(es, i, low), es[i].page.hikey, t);
    }
  }

  // ---------------------------------------------------------------------------
  // Counting leaf pages
  // ---------------------------------------------------------------------------

  /** Leaf pages among the written ones. */
  function LeafPages(ps: seq<Page>): nat {
    if ps == [] then 0 else LeafPages(ps[..|ps| - 1]) + if ps[|ps| - 1].level == 0 then 1 else 0
  }

  /** Leaf pages under an entry. */
  function LeavesUnder(e: Entry): nat
    decreases e
  {
    if e.Tup? then 0 else if e.page.level == 0 then 1 else Leaves(e.page.entries)
  }

  function Leaves(es: seq<Entry>): nat
    decreases es
  {
    if es == [] then 0 else Leaves(es[..|es| - 1]) + LeavesUnder(es[|es| - 1])
  }

  function SpineLeaves(stack: seq<Open>, l: nat): nat
    decreases |stack| - l
  {
    if l >= |stack| then 0 else SpineLeaves(stack, l + 1) + Leaves(stack[l].entries)
  }

  lemma {:induction false} LeavesAppend(xs: seq<Entry>, ys: seq<Entry>)
    ensures Leaves(xs + ys) == Leaves(xs) + Leaves(ys)
    decreases |ys|
  {
    if ys == [] {
      assert xs + ys == xs;
    } else {
      var y := |ys| - 1;
      assert (xs + ys)[..|xs + ys| - 1] == xs + ys[..y];
      LeavesAppend(xs, ys[..y]);
    }
  }

  lemma LeavesCut(level: nat, es: seq<Entry>)
    requires es != []
    ensures Leaves(CutFirstKey(level, es)) == Leaves(es)
  {
    var cs := CutFirstKey(level, es);
    assert es == es[..1] + es[1..] && cs == cs[..1] + cs[1..] && cs[1..] == es[1..];
    LeavesAppend(es[..1], es[1..]);
    LeavesAppend(cs[..1], cs[1..]);
    assert Leaves(es[..1]) == LeavesUnder(es[0]) by { assert es[..1][..0] == []; }
    assert Leaves(cs[..1]) == LeavesUnder(cs[0]) by { assert cs[..1][..0] == []; }
  }

  lemma LeavesOne(es: seq<Entry>, e: Entry)
    ensures Leaves(es + [e]) == Leaves(es) + LeavesUnder(e)
  {
    assert (es + [e])[..|es|] == es;
  }

  lemma {:induction false} SpineLeavesSame(a: seq<Open>, b: seq<Open>, l: nat)
    requires |a| <= |b| && (forall i :: l <= i < |a| ==> a[i].entries == b[i].entries)
    requires forall i :: |a| <= i < |b| && l <= i ==> b[i].entries == []
    ensures SpineLeaves(a, l) == SpineLeaves(b, l)
    decreases |b| - l
  {
    if l < |b| {
      SpineLeavesSame(a, b, l + 1);
    }
  }

  /** Dividing a page and the new item in two keeps the leaf pages under them. */
  lemma LeavesDivided(level: nat, es: seq<Entry>, e: Entry, xs: seq<Entry>, ys: seq<Entry>)
    requires xs + ys == es + [e] && ys != []
    ensures Leaves(xs) + Leaves(CutFirstKey(level, ys)) == Leaves(es) + LeavesUnder(e)
  {
    LeavesCut(level, ys);
    LeavesAppend(xs, ys);
    LeavesOne(es, e);
  }

  lemma SplitLeaves(pol: Policy, st: State, level: nat, e: Entry)
    requires Good(pol) && level < |st.stack| && !pol.fits(level, st.stack[level].entries, e)
    ensures Leaves(LeftPage(pol, st, level, e).entries) + Leaves(Split(pol, st, level, e).stack[level].entries) ==
            Leaves(st.stack[level].entries) + LeavesUnder(e)
    ensures SpineLeaves(Split(pol, st, level, e).stack, level + 1) == SpineLeaves(st.stack, level + 1)
  {
    var es := st.stack[level].entries;
    var all, k := es + [e], pol.cut(level, es, e);
    Rejoined(all, k);
    LeavesDivided(level, es, e, all[..k], all[k..]);
    SpineLeavesSame(st.stack, Split(pol, st, level, e).stack, level + 1);
  }

  /** Above the leaves, putting a downlink adds the leaf pages under it and writes no leaf page. */
  lemma {:induction false} PutLeaves(pol: Policy, st: State, level: nat, e: Entry)
    requires Good(pol) && 1 <= level < |st.stack|
    ensures var r := Put(pol, st, level, e);
            SpineLeaves(r.stack, level) == SpineLeaves(st.stack, level) + LeavesUnder(e) &&
            r.leafPages == st.leafPages && LeafPages(r.written) == LeafPages(st.written)
    decreases |st.stack| - level + if st.stack[level].entries == [] then 0 else 1
  {
    var page, r := st.stack[level], Put(pol, st, level, e);
    if pol.fits(level, page.entries, e) {
      LeavesOne(page.entries, e);
      SpineLeavesSame(st.stack, r.stack, level + 1);
    } else {
      var s, left := Split(pol, st, level, e), LeftPage(pol, st, level, e);
      PutLeaves(pol, s, level + 1, Down(page.key, left));
      SplitLeaves(pol, st, level, e);
      assert s.written[..|s.written| - 1] == st.written;
      assert r.stack[level] == s.stack[level] by {
        assert r.stack[..level + 1][level] == s.stack[..level + 1][level];
      }
    }
  }

  /** The counter counts the leaf pages written, which are the ones linked from the open pages. */
  ghost predicate Counted(st: State) {
    st.leafPages == LeafPages(st.written) == SpineLeaves(st.stack, 1)
  }

  lemma PutCounts(pol: Policy, st: State, t: Tuple)
    requires Good(pol) && |st.stack| >= 1 && Counted(st)
    ensures Counted(Put(pol, st, 0, Tup(t)))
  {
    var page := st.stack[0];
    if pol.fits(0, page.entries, Tup(t)) {
      SpineLeavesSame(st.stack, st.stack[0 := page.(entries := page.entries + [Tup(t)])], 1);
    } else {
      SplitCounts(pol, st, t);
    }
  }

  /** Splitting the open leaf writes one leaf page and links it. */
  lemma SplitCounts(pol: Policy, st: State, t: Tuple)
    requires Good(pol) && |st.stack| >= 1 && Counted(st) && !pol.fits(0, st.stack[0].entries, Tup(t))
    ensures Counted(Put(pol, Split(pol, st, 0, Tup(t)), 1, Down(st.stack[0].key, LeftPage(pol, st, 0, Tup(t)))))
  {
    var s, left := Split(pol, st, 0, Tup(t)), LeftPage(pol, st, 0, Tup(t));
    var link := Down(st.stack[0].key, left);
    LeafWritten(pol, st, t);
    PutLeaves(pol, s, 1, link);
    OneLeafMore(st, s, left, link, Put(pol, s, 1, link));
  }

  lemma LeafWritten(pol: Policy, st: State, t: Tuple)
    requires Good(pol) && |st.stack| >= 1 && !pol.fits(0, st.stack[0].entries, Tup(t))
    ensures var s, left := Split(pol, st, 0, Tup(t)), LeftPage(pol, st, 0, Tup(t));
            s.written == st.written + [left] && s.leafPages == st.leafPages + 1 && left.level == 0 &&
            SpineLeaves(s.stack, 1) == SpineLeaves(st.stack, 1)
  {
    SpineLeavesSame(st.stack, Split(pol, st, 0, Tup(t)).stack, 1);
  }

  lemma OneLeafMore(st: State, s: State, left: Page, link: Entry, r: State)
    requires Counted(st) && left.level == 0 && link.Down? && link.page == left
    requires s.written == st.written + [left] && s.leafPages == st.leafPages + 1
    requires SpineLeaves(s.stack, 1) == SpineLeaves(st.stack, 1)
    requires SpineLeaves(r.stack, 1) == SpineLeaves(s.stack, 1) + LeavesUnder(link)
    requires r.leafPages == s.leafPages && LeafPages(r.written) == LeafPages(s.written)
    ensures Counted(r)
  {
    assert s.written[..|s.written| - 1] == st.written;
  }

  lemma {:induction false} FeedCounts(pol: Policy, input: seq<Tuple>)
    requires Good(pol)
    ensures Counted(Feed(pol, input))
  {
    if input == [] {
      assert SpineLeaves(Start().stack, 1) == 0;
    } else {
      FeedCounts(pol, input[..|input| - 1]);
      PutCounts(pol, Feed(pol, input[..|input| - 1]), input[|input| - 1]);
    }
  }

  /** The same while flushing: leaf pages below level `i` are linked from level `i` on. */
  lemma {:induction false} FlushCounts(pol: Policy, st: State, i: nat)
    requires Good(pol) && i < |st.stack| && Counted(st)
    ensures var r := Flush(pol, st, i);
            r.leafPages == LeafPages(r.written) == SpineLeaves(r.stack, if i == 0 then 1 else i)
  {
    if i > 0 {
      var s := Flush(pol, st, i - 1);
      var p := LastPage(s, i - 1);
      var w := Written(s, p);
      FlushCounts(pol, st, i - 1);
      assert w.written[..|w.written| - 1] == s.written;
      PutLeaves(pol, w, i, Down(s.stack[i - 1].key, p));
      if i > 1 {
        assert SpineLeaves(s.stack, i - 1) == SpineLeaves(s.stack, i) + Leaves(s.stack[i - 1].entries);
      }
    }
  }

  /** With the root kept, the counter is the number of leaf pages under the root, all of them written. */
  lemma FinishedCounts(pol: Policy, input: seq<Tuple>, st: State, fin: State)
    requires Good(pol) && st == Feed(pol, input) && fin == Flushed(pol, st) && RootKept(pol, st)
    ensures var done := Written(fin, Root(fin));
            done.leafPages == LeafPages(done.written) == LeavesUnder(Down(None, Root(fin)))
  {
    var done := Written(fin, Root(fin));
    FeedCounts(pol, input);
    FlushCounts(pol, st, |st.stack| - 1);
    assert done.written[..|done.written| - 1] == fin.written;
    assert SpineLeaves(fin.stack, |fin.stack|) == 0;
  }
}
