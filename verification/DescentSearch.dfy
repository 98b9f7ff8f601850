/**
 A search descending a tree that other processes change between any two of its steps.
*/
module DescentSearch {
  import opened Common
  import opened Descent
  import opened DescentEffects

  /** A page with this low key may cover the target. */
  predicate LowFits(t: Target<int>, low: Option<int>) {
    match t
    case Ordinary(k) => low.Some? ==> low.value <= k
    case HighKey(k) => low.Some? ==> low.value < k
    case Rightmost => true
    case Leftmost => low == None
  }

  /** The target lies beyond this high key, so the search moves right. */
  predicate Beyond(t: Target<int>, hikey: Option<int>) {
    hikey.Some? && Passes(t, hikey.value)
  }

  /** The page holds the target: for a key, low key <= key < high key; for a high key, low key < key <= high key. */
  predicate Covers(t: Target<int>, low: Option<int>, hikey: Option<int>) {
    match t
    case Ordinary(k) => (low.Some? ==> low.value <= k) && (hikey.Some? ==> k < hikey.value)
    case HighKey(k) => (low.Some? ==> low.value < k) && (hikey.Some? ==> k <= hikey.value)
    case Rightmost => hikey == None
    case Leftmost => low == None
  }

  /** On a page that covers the target, the search in the page chooses the one downlink whose range covers it. */
  lemma PickCovers(t: Target<int>, low: Option<int>, hikey: Option<int>, links: seq<Downlink>, i: nat)
    requires InOrder(low, hikey, links) && LowFits(t, low) && !Beyond(t, hikey) && i < |links|
    ensures Covers(t, LinkLow(links, i, low), LinkHigh(links, i, hikey)) <==> i == Pick(links, t)
  {
    PickMeans(links, t);
    var p := Pick(links, t);
    if i < p {
      assert i + 1 == p || Below(links[i + 1].key.value, links[p].key);
    } else if i == p && i + 1 < |links| {
      assert !PassesLink(t, links[i + 1]);
    } else if i > p {
      assert !PassesLink(t, links[i]);
    }
  }

  /** The search reads `at`, holds a validated image of it, or has accepted it; `path` are the pages above. */
  datatype Search =
      Seek(at: Id, path: seq<Id>)
    | Hold(at: Id, path: seq<Id>, img: Image)
    | Done(at: Id, img: Image)

  function Start(w: World): Search {
    Seek(w.root, [])
  }

  /** One level up, or the root again. */
  function StepUp(w: World, path: seq<Id>): Search {
    if path == [] then Start(w) else Seek(path[|path| - 1], path[..|path| - 1])
  }

  /** A read that fails takes the search back to the page from which it came down. */
  lemma StepUpReturns(w: World, path: seq<Id>, at: Id)
    ensures StepUp(w, path + [at]) == Seek(at, path) && StepUp(w, []) == Seek(w.root, [])
  {
  }

  /** A step of the search for level `lvl` in the world as it is. */
  ghost predicate Next(w: World, t: Target<int>, lvl: nat, s: Search, r: Search) {
    match s
    case Seek(at, path) =>
      // the change count decides whether the page is still the expected one; a failed read goes up
      (at.blk in w.mem && w.mem[at.blk].cc == at.cc && r == Hold(at, path, w.mem[at.blk].img)) ||
      r == StepUp(w, path)
    case Hold(at, path, img) =>
      if Beyond(t, img.hikey) then
        r == (if img.right.Some? then Seek(img.right.value, path) else StepUp(w, path))
      else if img.level <= lvl then
        r == Done(at, img)
      else
        img.links != [] &&
        var child := img.links[Pick(img.links, t)].child;
        r == (if child.Some? then Seek(child.value, path + [at]) else Seek(at, path))
    case Done(_, _) => r == s
  }

  // ---------------------------------------------------------------------------
  // What the search carries
  // ---------------------------------------------------------------------------

  /** An identity the search may follow: a page created with a fitting low key, on level `f` or above. */
  ghost predicate Carried(w: World, t: Target<int>, f: nat, id: Id) {
    id in w.born && LowFits(t, w.born[id].low) && (w.born[id].level.Some? ==> w.born[id].level.value >= f)
  }

  ghost predicate SearchOk(w: World, t: Target<int>, f: nat, s: Search) {
    match s
    case Seek(at, path) => Carried(w, t, f, at) && (forall i :: 0 <= i < |path| ==> Carried(w, t, f, path[i]))
    case Hold(at, path, img) =>
      Carried(w, t, f, at) && (forall i :: 0 <= i < |path| ==> Carried(w, t, f, path[i])) &&
      Sound(w.born, w.born[at], img) && img.level >= f
    case Done(at, img) => at in w.born && Covers(t, w.born[at].low, img.hikey) && img.level >= f
  }

  /** Following the chosen downlink reaches a page one level down whose low key fits. */
  lemma ChildFits(w: World, t: Target<int>, f: nat, birth: Birth, img: Image)
    requires Sound(w.born, birth, img) && LowFits(t, birth.low) && !Beyond(t, img.hikey) && img.level > f
    ensures var child := img.links[Pick(img.links, t)].child; child.Some? ==> Carried(w, t, f, child.value)
  {
    var i := Pick(img.links, t);
    PickCovers(t, birth.low, img.hikey, img.links, i);
    assert LinkOk(w.born, img.links, i, birth.low, img.level);
  }

  lemma StepUpKeeps(w: World, t: Target<int>, f: nat, path: seq<Id>)
    requires WorldOk(w) && (forall i :: 0 <= i < |path| ==> Carried(w, t, f, path[i]))
    ensures SearchOk(w, t, f, StepUp(w, path))
  {
  }

  /** A step of the search keeps what it carries; accepting happens only on a page that covers the target. */
  lemma NextKeeps(w: World, t: Target<int>, lvl: nat, f: nat, s: Search, r: Search)
    requires WorldOk(w) && f <= lvl && f <= RootLevel(w) && SearchOk(w, t, f, s) && Next(w, t, lvl, s, r)
    ensures SearchOk(w, t, f, r) && (r.Done? && !s.Done? ==> r.img.level <= lvl)
  {
    match s
    case Seek(at, path) =>
      StepUpKeeps(w, t, f, path);
      if r.Hold? {
        assert BlockOk(w, at.blk);
      }
    case Hold(at, path, img) =>
      StepUpKeeps(w, t, f, path);
      if !Beyond(t, img.hikey) && img.level > lvl {
        ChildFits(w, t, f, w.born[at], img);
      }
    case Done(_, _) =>
  }

  lemma CarriedLater(w: World, v: World, t: Target<int>, f: nat, s: Search)
    requires Extends(w.born, v.born) && SearchOk(w, t, f, s)
    ensures SearchOk(v, t, f, s)
  {
    if s.Hold? {
      SoundLater(w.born, v.born, w.born[s.at], s.img);
    }
  }

  /** Steps of others do not disturb what the search carries, nor an image it holds. */
  lemma OthersKeep(w: World, t: Target<int>, f: nat, s: Search, step: Step)
    requires WorldOk(w) && SearchOk(w, t, f, s) && Enabled(w, step)
    ensures SearchOk(Apply(w, step), t, f, s)
  {
    StepKeeps(w, step);
    CarriedLater(w, Apply(w, step), t, f, s);
  }

  // ---------------------------------------------------------------------------
  // Whole runs
  // ---------------------------------------------------------------------------

  datatype State = State(w: World, s: Search)

  /** The search moves, or another process does. */
  ghost predicate Moves(t: Target<int>, lvl: nat, a: State, b: State) {
    (a.w == b.w && Next(a.w, t, lvl, a.s, b.s)) ||
    (a.s == b.s && exists step :: WorldOk(a.w) && Enabled(a.w, step) && b.w == Apply(a.w, step))
  }

  ghost predicate MovesAt(t: Target<int>, lvl: nat, run: seq<State>, i: int)
    requires 0 <= i < |run| - 1
  {
    Moves(t, lvl, run[i], run[i + 1])
  }

  ghost predicate IsRun(t: Target<int>, lvl: nat, run: seq<State>) {
    |run| > 0 && WorldOk(run[0].w) && run[0].s == Start(run[0].w) &&
    forall i {:trigger MovesAt(t, lvl, run, i)} :: 0 <= i < |run| - 1 ==> MovesAt(t, lvl, run, i)
  }

  ghost predicate StateOk(t: Target<int>, lvl: nat, f: nat, a: State) {
    WorldOk(a.w) && f <= RootLevel(a.w) && SearchOk(a.w, t, f, a.s) && (a.s.Done? ==> a.s.img.level <= lvl)
  }

  lemma MoveKeeps(t: Target<int>, lvl: nat, f: nat, a: State, b: State)
    requires f <= lvl && StateOk(t, lvl, f, a) && Moves(t, lvl, a, b)
    ensures StateOk(t, lvl, f, b)
  {
    if a.w == b.w && Next(a.w, t, lvl, a.s, b.s) {
      NextKeeps(a.w, t, lvl, f, a.s, b.s);
    } else {
      var step :| WorldOk(a.w) && Enabled(a.w, step) && b.w == Apply(a.w, step);
      StepKeeps(a.w, step);
      OthersKeep(a.w, t, f, a.s, step);
    }
  }

  /** The level asked for, or the root's at the start if the tree was lower. */
  function Floor(lvl: nat, w: World): nat
    requires w.root.blk in w.mem
  {
    if lvl <= RootLevel(w) then lvl else RootLevel(w)
  }

  lemma {:induction false} RunKeeps(t: Target<int>, lvl: nat, run: seq<State>, n: nat)
    requires IsRun(t, lvl, run) && n < |run|
    ensures StateOk(t, lvl, Floor(lvl, run[0].w), run[n])
  {
    if n > 0 {
      RunKeeps(t, lvl, run, n - 1);
      assert MovesAt(t, lvl, run, n - 1);
      MoveKeeps(t, lvl, Floor(lvl, run[0].w), run[n - 1], run[n]);
    }
  }

  /** In every interleaving: a page the search accepts covers its target, by the low key the page was created with,
      and it is on the level asked for if the tree was that high when the search began. */
  lemma AcceptedPageCovers(t: Target<int>, lvl: nat, run: seq<State>, n: nat)
    requires IsRun(t, lvl, run) && n < |run| && run[n].s.Done?
    ensures run[n].s.at in run[n].w.born && Covers(t, run[n].w.born[run[n].s.at].low, run[n].s.img.hikey)
    ensures run[n].s.img.level <= lvl && (RootLevel(run[0].w) >= lvl ==> run[n].s.img.level == lvl)
  {
    RunKeeps(t, lvl, run, n);
  }

  /** In every interleaving: a page whose change count matches is the live page expected, with a fitting
      low key, and it was never retired. */
  lemma ValidatedPageIsLive(t: Target<int>, lvl: nat, run: seq<State>, n: nat)
    requires IsRun(t, lvl, run) && n + 1 < |run| && run[n].s.Seek? && run[n + 1].s.Hold?
    ensures var w, id := run[n].w, run[n].s.at;
            Live(w, id) && id !in w.retired && LowFits(t, w.born[id].low) &&
            run[n + 1].s == Hold(id, run[n].s.path, ImageOf(w, id))
  {
    RunKeeps(t, lvl, run, n);
    assert MovesAt(t, lvl, run, n);
  }

  lemma {:induction false} RetiredForEver(t: Target<int>, lvl: nat, run: seq<State>, m: nat, n: nat, id: Id)
    requires IsRun(t, lvl, run) && m <= n < |run| && id in run[m].w.retired
    ensures id in run[n].w.retired
    decreases n - m
  {
    if m < n {
      RetiredForEver(t, lvl, run, m, n - 1, id);
      RunKeeps(t, lvl, run, n - 1);
      assert MovesAt(t, lvl, run, n - 1);
      MovesRetired(t, lvl, run[n - 1], run[n]);
    }
  }

  lemma MovesRetired(t: Target<int>, lvl: nat, a: State, b: State)
    requires WorldOk(a.w) && Moves(t, lvl, a, b)
    ensures a.w.retired <= b.w.retired
  {
    if a.w != b.w {
      var step :| WorldOk(a.w) && Enabled(a.w, step) && b.w == Apply(a.w, step);
      StepKeeps(a.w, step);
    }
  }

  lemma RetiredNeverValidated(t: Target<int>, lvl: nat, run: seq<State>, m: nat, n: nat)
    requires IsRun(t, lvl, run) && m <= n && n + 1 < |run| && run[n].s.Seek? && run[n].s.at in run[m].w.retired
    ensures !run[n + 1].s.Hold?
  {
    if run[n + 1].s.Hold? {
      ValidatedPageIsLive(t, lvl, run, n);
      RetiredForEver(t, lvl, run, m, n, run[n].s.at);
    }
  }

  /** Once a page has been retired, no stale downlink or rightlink to it is accepted any more. */
  lemma RetiredNeverRead(t: Target<int>, lvl: nat, run: seq<State>, m: nat, n: nat, p: Id, bump: nat)
    requires IsRun(t, lvl, run) && m < n && n + 1 < |run|
    requires WorldOk(run[m].w) && Enabled(run[m].w, Retire(p, bump)) && run[m + 1].w == Apply(run[m].w, Retire(p, bump))
    requires run[n].s.Seek? && run[n].s.at == p
    ensures !run[n + 1].s.Hold? && !Live(run[n].w, p)
  {
    RetireDoes(run[m].w, p, bump);
    RetiredNeverValidated(t, lvl, run, m + 1, n);
    RetiredForEver(t, lvl, run, m + 1, n, p);
    RunKeeps(t, lvl, run, n);
  }

  // ---------------------------------------------------------------------------
  // The search finds its page
  // ---------------------------------------------------------------------------

  /** No split is unfinished, and every downlink leads to a page in memory that reaches up to the next one. */
  ghost predicate Quiet(w: World) {
    WorldOk(w) && ImageOf(w, w.root).hikey == None &&
    forall q, i {:trigger ImageOf(w, q).links[i]} :: Live(w, q) && 0 <= i < |ImageOf(w, q).links| ==>
      ImageOf(w, q).links[i].child.Some? && Child(w, q, i, ImageOf(w, q).links[i].child.value)
  }

  ghost predicate StepAt(w: World, t: Target<int>, lvl: nat, ss: seq<Search>, i: int)
    requires 0 <= i < |ss| - 1
  {
    Next(w, t, lvl, ss[i], ss[i + 1])
  }

  /** Each of these is a step of the search in the same world. */
  ghost predicate Steps(w: World, t: Target<int>, lvl: nat, ss: seq<Search>) {
    forall i {:trigger StepAt(w, t, lvl, ss, i)} :: 0 <= i < |ss| - 1 ==> StepAt(w, t, lvl, ss, i)
  }

  lemma StepsCons(w: World, t: Target<int>, lvl: nat, a: Search, b: Search, ss: seq<Search>)
    requires Steps(w, t, lvl, ss) && ss != [] && Next(w, t, lvl, a, b) && Next(w, t, lvl, b, ss[0])
    ensures Steps(w, t, lvl, [a, b] + ss)
  {
    var all := [a, b] + ss;
    forall i {:trigger StepAt(w, t, lvl, all, i)} | 0 <= i < |all| - 1 ensures StepAt(w, t, lvl, all, i) {
      if i == 0 {
        assert all[i] == a && all[i + 1] == b;
      } else if i == 1 {
        assert all[i] == b && all[i + 1] == ss[0];
      } else {
        assert StepAt(w, t, lvl, ss, i - 2) && all[i] == ss[i - 2] && all[i + 1] == ss[i - 1];
      }
    }
  }

  /** The child that the search chooses covers the target. */
  lemma ChosenChildCovers(w: World, t: Target<int>, at: Id) returns (c: Id)
    requires Quiet(w) && Live(w, at) && Covers(t, w.born[at].low, ImageOf(w, at).hikey) && ImageOf(w, at).level > 0
    ensures var img := ImageOf(w, at); img.links != [] && img.links[Pick(img.links, t)].child == Some(c)
    ensures Live(w, c) && Covers(t, w.born[c].low, ImageOf(w, c).hikey) &&
      ImageOf(w, c).level + 1 == ImageOf(w, at).level
  {
    var img, low := ImageOf(w, at), w.born[at].low;
    assert BlockOk(w, at.blk);
    var i := Pick(img.links, t);
    assert ImageOf(w, at).links[i].child.Some?;
    c := img.links[i].child.value;
    PickCovers(t, low, img.hikey, img.links, i);
    ChildInside(w, at, i, c);
  }

  lemma {:induction false} Descends(w: World, t: Target<int>, lvl: nat, at: Id, path: seq<Id>) returns (ss: seq<Search>)
    requires Quiet(w) && Live(w, at) && Covers(t, w.born[at].low, ImageOf(w, at).hikey)
    ensures |ss| > 1 && ss[0] == Seek(at, path) && Steps(w, t, lvl, ss)
    ensures var s := ss[|ss| - 1]; s.Done? && Live(w, s.at) && s.img == ImageOf(w, s.at)
    decreases ImageOf(w, at).level
  {
    var img := ImageOf(w, at);
    var seek, hold := Seek(at, path), Hold(at, path, img);
    if img.level <= lvl {
      ss := [seek, hold, Done(at, img)];
    } else {
      var c := ChosenChildCovers(w, t, at);
      var rest := Descends(w, t, lvl, c, path + [at]);
      StepsCons(w, t, lvl, seek, hold, rest);
      ss := [seek, hold] + rest;
    }
  }

  /** In a quiet tree the search ends, whatever it looks for, on a page of the level asked for (or on a lower root)
      that covers the target. */
  lemma QuietSearchEnds(w: World, t: Target<int>, lvl: nat) returns (run: seq<State>)
    requires Quiet(w)
    ensures IsRun(t, lvl, run) && (forall i :: 0 <= i < |run| ==> run[i].w == w)
    ensures var s := run[|run| - 1].s;
            s.Done? && Live(w, s.at) && s.img == ImageOf(w, s.at) && Covers(t, w.born[s.at].low, s.img.hikey) &&
            s.img.level <= lvl && (RootLevel(w) >= lvl ==> s.img.level == lvl)
  {
    var ss := Descends(w, t, lvl, w.root, []);
    run := seq(|ss|, i requires 0 <= i < |ss| => State(w, ss[i]));
    forall i {:trigger MovesAt(t, lvl, run, i)} | 0 <= i < |run| - 1 ensures MovesAt(t, lvl, run, i) {
      assert StepAt(w, t, lvl, ss, i);
      assert run[i] == State(w, ss[i]) && run[i + 1] == State(w, ss[i + 1]);
    }
    AcceptedPageCovers(t, lvl, run, |run| - 1);
  }
}
