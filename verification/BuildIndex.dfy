/**
 The build as it runs: a stack of page images changed in place.
*/
module BuildIndex {
  import opened Common
  import opened Build
  import opened BuildTree
  import opened BuildPages

  class Builder {
    var stack: seq<Open>
    var written: seq<Page>
    var leafPages: nat

    ghost function Value(): State
      reads this
    {
      State(stack, written, leafPages)
    }

    constructor ()
      ensures Value() == Start()
    {
      stack, written, leafPages := [Open([], None)], [], 0;
    }

    /** Writes a page image; a leaf page is counted. */
    method WritePage(p: Page)
      modifies this
      ensures Value() == Written(old(Value()), p)
    {
      written := written + [p];
      if p.level == 0 {
        leafPages := leafPages + 1;
      }
    }

    /** Adds an item to the open page of a level; when it does not fit, the page is split, its left
        part written and the downlink to it put one level up. */
    method PutItem(pol: Policy, level: nat, e: Entry)
      requires Good(pol) && level < |stack|
      modifies this
      ensures Value() == Put(pol, old(Value()), level, e)
      decreases |stack| - level + if stack[level].entries == [] then 0 else 1
    {
      var page := stack[level];
      if pol.fits(level, page.entries, e) {
        stack := stack[level := page.(entries := page.entries + [e])];
      } else {
        ghost var before := Value();
        var all := page.entries + [e];
        var k := pol.cut(level, page.entries, e);
        var left := Page(level, all[..k], EntryKey(all[k]));
        if level + 1 == |stack| {
          stack := stack + [Open([], None)];
        }
        WritePage(left);
        stack := stack[level := Open(CutFirstKey(level, all[k..]), left.hikey)];
        assert Value() == Split(pol, before, level, e);
        PutItem(pol, level + 1, Down(page.key, left));
      }
    }

    /** Feeds the tuples one by one. */
    method FeedAll(pol: Policy, input: seq<Tuple>)
      requires Good(pol) && Value() == Start()
      modifies this
      ensures Value() == Feed(pol, input)
    {
      var n := 0;
      while n < |input|
        invariant 0 <= n <= |input| && Value() == Feed(pol, input[..n])
      {
        PutItem(pol, 0, Tup(input[n]));
        FeedStep(pol, input, n);
        n := n + 1;
      }
      assert input[..n] == input;
    }

    /** Writes the open pages below the root level the build has when the flush begins. */
    method FlushAll(pol: Policy)
      requires Good(pol) && |stack| >= 1
      modifies this
      ensures Value() == Flushed(pol, old(Value()))
    {
      ghost var st := Value();
      var savedRootLevel := |stack| - 1;
      var i := 0;
      while i < savedRootLevel
        invariant 0 <= i <= savedRootLevel && |st.stack| == savedRootLevel + 1
        invariant Value() == Flush(pol, st, i)
      {
        var p := Page(i, stack[i].entries, None);
        var key := stack[i].key;
        WritePage(p);
        PutItem(pol, i + 1, Down(key, p));
        i := i + 1;
      }
    }

    /** Feeds the tuples, flushes the open pages, and writes the root page. */
    method WriteIndex(pol: Policy, input: seq<Tuple>) returns (root: Page)
      requires Good(pol) && Value() == Start()
      modifies this
      ensures var st := Feed(pol, input);
              root == Root(Flushed(pol, st)) && Value() == Written(Flushed(pol, st), root)
    {
      FeedAll(pol, input);
      FlushAll(pol);
      root := Page(|stack| - 1, stack[|stack| - 1].entries, None);
      WritePage(root);
    }
  }

  lemma FeedStep(pol: Policy, input: seq<Tuple>, n: nat)
    requires Good(pol) && n < |input|
    ensures Feed(pol, input[..n + 1]) == Put(pol, Feed(pol, input[..n]), 0, Tup(input[n]))
  {
    assert input[..n + 1][..n] == input[..n];
  }

  /**
   A finished build over sorted input.  The tree holds exactly the input if and only if every downlink that
   the flush pushes finds room without splitting the page of the root level; then every tuple is found by routing
   its key, and the leaf counter is the number of leaf pages in the tree.  Every page of the tree was written, as
   it is linked; exactly these were written under the same condition.
  */
  method BuildSorted(pol: Policy, input: seq<Tuple>) returns (root: Page, leafPagesNum: nat, written: seq<Page>)
    requires Good(pol) && StrictlySorted(input)
    ensures PagesUnder(Down(None, root)) <= multiset(written)
    ensures PagesUnder(Down(None, root)) == multiset(written) <==> FlushHasRoom(pol, Feed(pol, input))
    ensures Spell(root.entries) == input <==> FlushHasRoom(pol, Feed(pol, input))
    ensures FlushHasRoom(pol, Feed(pol, input)) ==>
              (forall t :: t in input ==> Tup(t) in Route(root.level, root.entries, t.key)) &&
              leafPagesNum == LeavesUnder(Down(None, root))
  {
    var b := new Builder();
    root := b.WriteIndex(pol, input);
    leafPagesNum, written := b.leafPages, b.written;
    ghost var st := Feed(pol, input);
    ghost var fin := Flushed(pol, st);
    FinishedHoldsInput(pol, input, st, fin);
    FinishedLinked(pol, input, st, fin);
    RootKeptIff(pol, st);
    if RootKept(pol, st) {
      FinishedCounts(pol, input, st, fin);
      FeedReady(pol, input);
      TreeInBounds(pol, st);
      forall t | t in input ensures Tup(t) in Route(root.level, root.entries, t.key) {
        RoutedToItsLeaf(root.level, root.entries, None, None, t);
      }
    }
  }

  // ---------------------------------------------------------------------------
  // A build that loses its last leaf
  // ---------------------------------------------------------------------------

  /** Pages of at most two items, split after the items they hold. */
  function Pairs(): (pol: Policy)
    ensures Good(pol)
  {
    Policy((l: int, es: seq<Entry>, e: Entry) => |es| < 2, (l: int, es: seq<Entry>, e: Entry) => |es|)
  }

  lemma FeedOne(pol: Policy, xs: seq<Tuple>, t: Tuple)
    requires Good(pol)
    ensures Feed(pol, xs + [t]) == Put(pol, Feed(pol, xs), 0, Tup(t))
  {
    assert (xs + [t])[..|xs|] == xs;
  }

  /** An item that fits. */
  lemma Added(st: State, level: nat, e: Entry)
    requires level < |st.stack| && |st.stack[level].entries| < 2
    ensures Put(Pairs(), st, level, e) ==
            State(st.stack[level := Open(st.stack[level].entries + [e], st.stack[level].key)], st.written, st.leafPages)
  {
  }

  /** An item that fills up a root: the full page is written and becomes the only child of a new root. */
  lemma RootSplit(st: State, level: nat, e: Entry)
    requires level + 1 == |st.stack| && |st.stack[level].entries| == 2
    ensures var page := st.stack[level];
            var left := Page(level, page.entries, EntryKey(e));
            var r := Put(Pairs(), st, level, e);
            r.stack == st.stack[..level] + [Open(CutFirstKey(level, [e]), EntryKey(e)),
                                             Open([Down(page.key, left)], None)] &&
            r.written == st.written + [left]
  {
    var page := st.stack[level];
    var left := Page(level, page.entries, EntryKey(e));
    assert (page.entries + [e])[..2] == page.entries && (page.entries + [e])[2..] == [e];
    assert LeftPage(Pairs(), st, level, e) == left;
    var s := Split(Pairs(), st, level, e);
    assert s.stack[level + 1] == Open([], None);
    Added(s, level + 1, Down(page.key, left));
    assert s.stack[level + 1].entries + [Down(page.key, left)] == [Down(page.key, left)];
  }

  /** A page that is full below the root: it is written and linked from the level above, which has room. */
  lemma LeafSplit(st: State, e: Entry)
    requires |st.stack| == 2 && |st.stack[0].entries| == 2 && |st.stack[1].entries| < 2
    ensures var page := st.stack[0];
            var left := Page(0, page.entries, EntryKey(e));
            Put(Pairs(), st, 0, e).stack ==
            [Open([e], EntryKey(e)), Open(st.stack[1].entries + [Down(page.key, left)], st.stack[1].key)]
  {
    var page := st.stack[0];
    var left := Page(0, page.entries, EntryKey(e));
    assert (page.entries + [e])[..2] == page.entries && (page.entries + [e])[2..] == [e];
    assert LeftPage(Pairs(), st, 0, e) == left;
    Added(Split(Pairs(), st, 0, e), 1, Down(page.key, left));
  }

  /** The stacks after two, four and five tuples. */
  lemma Fed(a: Tuple, b: Tuple, c: Tuple, d: Tuple, e: Tuple)
    ensures Feed(Pairs(), [a, b, c, d, e]).stack ==
            [Open([Tup(e)], Some(e.key)),
             Open([Down(None, Page(0, [Tup(a), Tup(b)], Some(c.key))),
                   Down(Some(c.key), Page(0, [Tup(c), Tup(d)], Some(e.key)))], None)]
  {
    FedFour(a, b, c, d);
    FeedOne(Pairs(), [a, b, c, d], e);
    assert [a, b, c, d, e] == [a, b, c, d] + [e];
    var st := Feed(Pairs(), [a, b, c, d]);
    LeafSplit(st, Tup(e));
    var link := Down(Some(c.key), Page(0, [Tup(c), Tup(d)], Some(e.key)));
    assert st.stack[1].entries + [link] == [st.stack[1].entries[0], link];
  }

  lemma FedFour(a: Tuple, b: Tuple, c: Tuple, d: Tuple)
    ensures Feed(Pairs(), [a, b, c, d]).stack ==
            [Open([Tup(c), Tup(d)], Some(c.key)), Open([Down(None, Page(0, [Tup(a), Tup(b)], Some(c.key)))], None)]
  {
    FedTwo(a, b);
    FeedOne(Pairs(), [a, b], c);
    assert [a, b, c] == [a, b] + [c];
    RootSplit(Feed(Pairs(), [a, b]), 0, Tup(c));
    FeedOne(Pairs(), [a, b, c], d);
    assert [a, b, c, d] == [a, b, c] + [d];
    assert CutFirstKey(0, [Tup(c)]) == [Tup(c)] && [Tup(c)] + [Tup(d)] == [Tup(c), Tup(d)];
    Added(Feed(Pairs(), [a, b, c]), 0, Tup(d));
  }

  lemma FedTwo(a: Tuple, b: Tuple)
    ensures Feed(Pairs(), [a, b]).stack == [Open([Tup(a), Tup(b)], None)]
  {
    assert [a] == [] + [a] && [a, b] == [a] + [b];
    FeedOne(Pairs(), [], a);
    Added(Start(), 0, Tup(a));
    assert Start().stack[0].entries + [Tup(a)] == [Tup(a)] && [Tup(a)] + [Tup(b)] == [Tup(a), Tup(b)];
    FeedOne(Pairs(), [a], b);
    Added(Feed(Pairs(), [a]), 0, Tup(b));
  }

  /** With pages of two items, five tuples raise the root during the flush: the tree is not the input. */
  lemma FiveTuplesLost(a: Tuple, b: Tuple, c: Tuple, d: Tuple, e: Tuple)
    requires StrictlySorted([a, b, c, d, e])
    ensures var st := Feed(Pairs(), [a, b, c, d, e]);
            !FlushHasRoom(Pairs(), st) && Spell(Root(Flushed(Pairs(), st)).entries) != [a, b, c, d, e]
  {
    var st := Feed(Pairs(), [a, b, c, d, e]);
    Fed(a, b, c, d, e);
    var p := LastPage(st, 0);
    assert Flush(Pairs(), st, 0) == st;
    RootSplit(Written(st, p), 1, Down(st.stack[0].key, p));
    RootKeptIff(Pairs(), st);
    FinishedHoldsInput(Pairs(), [a, b, c, d, e], st, Flushed(Pairs(), st));
  }
}
