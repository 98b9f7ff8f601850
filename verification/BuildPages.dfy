/**
 Every page of the finished tree was written, as it is linked, and nothing else was.
*/
module BuildPages {
  import opened Common
  import opened Build
  import opened BuildTree

  /** The pages under an entry. */
  function PagesUnder(e: Entry): multiset<Page>
    decreases e
  {
    if e.Tup? then multiset{} else PagesIn(e.page.entries) + multiset{e.page}
  }

  function PagesIn(es: seq<Entry>): multiset<Page>
    decreases es
  {
    if es == [] then multiset{} else PagesIn(es[..|es| - 1]) + PagesUnder(es[|es| - 1])
  }

  /** The pages linked from the open pages of level `l` and above. */
  function SpinePages(stack: seq<Open>, l: nat): multiset<Page>
    decreases |stack| - l
  {
    if l >= |stack| then multiset{} else SpinePages(stack, l + 1) + PagesIn(stack[l].entries)
  }

  lemma {:induction false} PagesAppend(xs: seq<Entry>, ys: seq<Entry>)
    ensures PagesIn(xs + ys) == PagesIn(xs) + PagesIn(ys)
    decreases |ys|
  {
    if ys == [] {
      assert xs + ys == xs;
    } else {
      var y := |ys| - 1;
      assert (xs + ys)[..|xs + ys| - 1] == xs + ys[..y];
      PagesAppend(xs, ys[..y]);
    }
  }

  lemma PagesOne(es: seq<Entry>, e: Entry)
    ensures PagesIn(es + [e]) == PagesIn(es) + PagesUnder(e)
  {
    assert (es + [e])[..|es|] == es;
  }

  lemma PagesCut(level: nat, es: seq<Entry>)
    requires es != []
    ensures PagesIn(CutFirstKey(level, es)) == PagesIn(es)
  {
    var cs := CutFirstKey(level, es);
    assert es == [es[0]] + es[1..] && cs == [cs[0]] + cs[1..] && cs[1..] == es[1..];
    PagesAppend([es[0]], es[1..]);
    PagesAppend([cs[0]], cs[1..]);
    PagesOne([], es[0]);
    PagesOne([], cs[0]);
    assert [] + [es[0]] == [es[0]] && [] + [cs[0]] == [cs[0]];
  }

  lemma {:induction false} SpinePagesSame(a: seq<Open>, b: seq<Open>, l: nat)
    requires |a| <= |b| && (forall i :: l <= i < |a| ==> a[i].entries == b[i].entries)
    requires forall i :: |a| <= i < |b| && l <= i ==> b[i].entries == []
    ensures SpinePages(a, l) == SpinePages(b, l)
    decreases |b| - l
  {
    if l < |b| {
      SpinePagesSame(a, b, l + 1);
    }
  }

  // ---------------------------------------------------------------------------
  // Putting an item
  // ---------------------------------------------------------------------------

  /** Dividing a page and the new item in two keeps the pages under them. */
  lemma DividedPages(level: nat, es: seq<Entry>, e: Entry, xs: seq<Entry>, ys: seq<Entry>)
    requires xs + ys == es + [e] && ys != []
    ensures PagesIn(xs) + PagesIn(CutFirstKey(level, ys)) == PagesIn(es) + PagesUnder(e)
  {
    PagesCut(level, ys);
    PagesAppend(xs, ys);
    PagesOne(es, e);
  }

  lemma SplitPages(pol: Policy, st: State, level: nat, e: Entry, s: State, left: Page)
    requires Good(pol) && level < |st.stack| && !pol.fits(level, st.stack[level].entries, e)
    requires s == Split(pol, st, level, e) && left == LeftPage(pol, st, level, e)
    ensures PagesIn(left.entries) + PagesIn(s.stack[level].entries) == PagesIn(st.stack[level].entries) + PagesUnder(e)
    ensures SpinePages(s.stack, level + 1) == SpinePages(st.stack, level + 1) && s.written == st.written + [left]
  {
    var es := st.stack[level].entries;
    var all, k := es + [e], pol.cut(level, es, e);
    var xs, ys := all[..k], all[k..];
    Rejoined(all, k);
    DividedPages(level, es, e, xs, ys);
    assert s.stack[level].entries == CutFirstKey(level, ys);
    SpinePagesSame(st.stack, s.stack, level + 1);
  }

  /** What is linked grows by the pages under the item and by the pages written on the way. */
  ghost predicate Grows(before: multiset<Page>, was: seq<Page>, item: multiset<Page>, after: multiset<Page>,
                        now: seq<Page>)
  {
    after + multiset(was) == before + item + multiset(now)
  }

  lemma {:induction false} PutPages(pol: Policy, st: State, level: nat, e: Entry, r: State)
    requires Good(pol) && level < |st.stack| && r == Put(pol, st, level, e)
    ensures Grows(SpinePages(st.stack, level), st.written, PagesUnder(e), SpinePages(r.stack, level), r.written)
    decreases |st.stack| - level + if st.stack[level].entries == [] then 0 else 1
  {
    var page := st.stack[level];
    if pol.fits(level, page.entries, e) {
      FitPages(st, r, level, e);
    } else {
      var s, left := Split(pol, st, level, e), LeftPage(pol, st, level, e);
      PutPages(pol, s, level + 1, Down(page.key, left), r);
      SplitPages(pol, st, level, e, s, left);
      assert r.stack[level] == s.stack[level] by {
        assert r.stack[..level + 1][level] == s.stack[..level + 1][level];
      }
      SplitDone(st, s, r, level, e, left);
    }
  }

  lemma FitPages(st: State, r: State, level: nat, e: Entry)
    requires level < |st.stack| && r.written == st.written
    requires r.stack == st.stack[level := st.stack[level].(entries := st.stack[level].entries + [e])]
    ensures Grows(SpinePages(st.stack, level), st.written, PagesUnder(e), SpinePages(r.stack, level), r.written)
  {
    PagesOne(st.stack[level].entries, e);
    SpinePagesSame(st.stack, r.stack, level + 1);
  }

  lemma SplitDone(st: State, s: State, r: State, level: nat, e: Entry, left: Page)
    requires level < |st.stack| && level < |s.stack| && level < |r.stack| && r.stack[level] == s.stack[level]
    requires PagesIn(left.entries) + PagesIn(s.stack[level].entries) == PagesIn(st.stack[level].entries) + PagesUnder(e)
    requires s.written == st.written + [left] && SpinePages(s.stack, level + 1) == SpinePages(st.stack, level + 1)
    requires Grows(SpinePages(s.stack, level + 1), s.written, PagesIn(left.entries) + multiset{left},
                   SpinePages(r.stack, level + 1), r.written)
    ensures Grows(SpinePages(st.stack, level), st.written, PagesUnder(e), SpinePages(r.stack, level), r.written)
  {
    SplitGrows(SpinePages(st.stack, level + 1), SpinePages(r.stack, level + 1), PagesIn(st.stack[level].entries),
               PagesIn(s.stack[level].entries), PagesIn(left.entries), PagesUnder(e), left, st.written, r.written);
  }

  /** The bookkeeping of one split: `right` stays open, `kept` goes under the page written. */
  lemma SplitGrows(above: multiset<Page>, above': multiset<Page>, here: multiset<Page>, right: multiset<Page>,
                   kept: multiset<Page>, item: multiset<Page>, left: Page, was: seq<Page>, now: seq<Page>)
    requires kept + right == here + item
    requires Grows(above, was + [left], kept + multiset{left}, above', now)
    ensures Grows(above + here, was, item, above' + right, now)
  {
    forall x ensures (above' + right + multiset(was))[x] == (above + here + item + multiset(now))[x] {
      assert (kept + right)[x] == (here + item)[x];
      assert (above' + multiset(was + [left]))[x] == (above + (kept + multiset{left}) + multiset(now))[x];
    }
  }

  // ---------------------------------------------------------------------------
  // The whole build
  // ---------------------------------------------------------------------------

  /** Exactly the pages linked from the open pages have been written. */
  ghost predicate Linked(st: State, l: nat) {
    multiset(st.written) == SpinePages(st.stack, l)
  }

  lemma PutLinked(pol: Policy, st: State, t: Tuple)
    requires Good(pol) && |st.stack| >= 1 && Linked(st, 0)
    ensures Linked(Put(pol, st, 0, Tup(t)), 0)
  {
    var r := Put(pol, st, 0, Tup(t));
    PutPages(pol, st, 0, Tup(t), r);
    Cancel(multiset(st.written), SpinePages(r.stack, 0), multiset(r.written));
  }

  lemma Cancel(m: multiset<Page>, a: multiset<Page>, b: multiset<Page>)
    requires a + m == m + b
    ensures a == b
  {
    forall x ensures a[x] == b[x] {
      assert (a + m)[x] == (m + b)[x];
    }
  }

  lemma {:induction false} FeedLinked(pol: Policy, input: seq<Tuple>)
    requires Good(pol)
    ensures Linked(Feed(pol, input), 0)
  {
    if input != [] {
      FeedLinked(pol, input[..|input| - 1]);
      PutLinked(pol, Feed(pol, input[..|input| - 1]), input[|input| - 1]);
    }
  }

  /** Writing the open page of level `i` and linking it above. */
  lemma PushLinked(pol: Policy, s: State, i: nat, link: Entry, r: State)
    requires Good(pol) && i + 1 < |s.stack| && Linked(s, i) && link.Down? && link.page == LastPage(s, i)
    requires r == Put(pol, Written(s, LastPage(s, i)), i + 1, link)
    ensures Linked(r, i + 1)
  {
    var p := LastPage(s, i);
    PutPages(pol, Written(s, p), i + 1, link, r);
    assert multiset(s.written + [p]) == multiset(s.written) + multiset{p};
    assert SpinePages(s.stack, i) == SpinePages(s.stack, i + 1) + PagesIn(p.entries);
    assert SpinePages(s.stack, i + 1) + PagesUnder(link) == multiset(s.written + [p]);
    Cancel(multiset(s.written + [p]), SpinePages(r.stack, i + 1), multiset(r.written));
  }

  lemma {:induction false} FlushLinked(pol: Policy, st: State, i: nat, r: State)
    requires Good(pol) && i < |st.stack| && Linked(st, 0) && r == Flush(pol, st, i)
    ensures Linked(r, i)
  {
    if i > 0 {
      var s := Flush(pol, st, i - 1);
      FlushLinked(pol, st, i - 1, s);
      PushLinked(pol, s, i - 1, Down(s.stack[i - 1].key, LastPage(s, i - 1)), r);
    }
  }

  /** Everything the finished tree leads to was written; nothing else was, if and only if the flush left the root
      level alone. */
  lemma FinishedLinked(pol: Policy, input: seq<Tuple>, st: State, fin: State)
    requires Good(pol) && StrictlySorted(input) && st == Feed(pol, input) && fin == Flushed(pol, st)
    ensures PagesUnder(Down(None, Root(fin))) <= multiset(Written(fin, Root(fin)).written)
    ensures PagesUnder(Down(None, Root(fin))) == multiset(Written(fin, Root(fin)).written) <==> RootKept(pol, st)
  {
    var n := |st.stack| - 1;
    FeedLinked(pol, input);
    FlushLinked(pol, st, n, fin);
    FeedReady(pol, input);
    FlushKeeps(pol, st, n);
    if n + 1 < |fin.stack| {
      LinkUnder(n, fin.stack[n].entries, fin.stack[n].key, None);
    }
    WrittenUnder(fin, n, PagesIn(fin.stack[n].entries), Root(fin));
  }

  lemma WrittenUnder(fin: State, n: nat, here: multiset<Page>, root: Page)
    requires n < |fin.stack| && Linked(fin, n) && here == PagesIn(fin.stack[n].entries) && root == Root(fin)
    requires n + 1 < |fin.stack| ==> |here| > 0
    ensures PagesUnder(Down(None, root)) <= multiset(fin.written + [root])
    ensures PagesUnder(Down(None, root)) == multiset(fin.written + [root]) <==> n + 1 == |fin.stack|
  {
    var above, top, last := SpinePages(fin.stack, n + 1), PagesIn(root.entries), n + 1 == |fin.stack|;
    if !last {
      TopPages(fin.stack, n + 1);
    }
    UnderAll(above, here, top, root, fin.written, last);
  }

  lemma UnderAll(above: multiset<Page>, here: multiset<Page>, top: multiset<Page>, root: Page, written: seq<Page>,
                 last: bool)
    requires multiset(written) == above + here
    requires if last then top == here && above == multiset{} else top <= above && |here| > 0
    ensures top + multiset{root} <= multiset(written + [root])
    ensures top + multiset{root} == multiset(written + [root]) <==> last
  {
    assert multiset(written + [root]) == above + here + multiset{root};
    if !last {
      Stranded(above, here, top, root, written);
    }
  }

  lemma {:induction false} TopPages(stack: seq<Open>, n: nat)
    requires n < |stack|
    ensures PagesIn(stack[|stack| - 1].entries) <= SpinePages(stack, n)
    decreases |stack| - n
  {
    if n + 1 < |stack| {
      TopPages(stack, n + 1);
    }
  }

  lemma LinkUnder(level: nat, es: seq<Entry>, low: Option<int>, high: Option<int>)
    requires level > 0 && es != [] && EntriesOk(level, es, low, high)
    ensures |PagesIn(es)| > 0
  {
    var e := es[|es| - 1];
    assert LinkOk(level, es, |es| - 1, low, high);
    assert e.page in PagesUnder(e);
    assert e.page in PagesIn(es);
  }

  /** A page linked from below the root is written and not under the root. */
  lemma Stranded(above: multiset<Page>, here: multiset<Page>, top: multiset<Page>, root: Page, written: seq<Page>)
    requires top <= above && |here| > 0 && multiset(written) == above + here
    ensures top + multiset{root} != multiset(written + [root])
  {
    assert multiset(written + [root]) == above + here + multiset{root};
    assert |above + here + multiset{root}| == |above| + |here| + 1;
    assert above == top + (above - top);
    assert |above| == |top| + |above - top|;
    assert |top + multiset{root}| == |top| + 1;
  }
}
