/**
 Reading a page without a lock.

 Writers change a page only while it is locked and its reads are blocked, and unlocking such a
 page raises its change count.  A reader notes the count, loads locations one at a time, and
 trusts what it loaded only when reads are not blocked and the count is unchanged afterwards.
*/
module Seqlock {
  import opened Common

  // ---------------------------------------------------------------------------
  // The page and its writers
  // ---------------------------------------------------------------------------

  /** The page contents by location, who holds the lock, whether reads are blocked, how often the count was
      raised, and the contents the page had at each count. */
  datatype Page = Page(holder: Option<nat>, noRead: bool, count: nat,
                       cells: map<nat, int>, versions: seq<map<nat, int>>)

  /** The count is stored in 32 bits. */
  const COUNT_LIMIT: nat := 0x1_0000_0000

  datatype Write = Lock(pid: nat) | BlockReads(pid: nat) | Store(pid: nat, loc: nat, v: int) | Unlock(pid: nat)

  predicate CanWrite(p: Page, w: Write) {
    match w
    case Lock(_) => p.holder == None
    case BlockReads(pid) => p.holder == Some(pid)
    case Store(pid, _, _) => p.holder == Some(pid) && p.noRead
    case Unlock(pid) => p.holder == Some(pid)
  }

  function AfterWrite(p: Page, w: Write): Page {
    match w
    case Lock(pid) => p.(holder := Some(pid))
    case BlockReads(_) => p.(noRead := true)
    case Store(_, loc, v) => p.(cells := p.cells[loc := v])
    case Unlock(_) =>
      if p.noRead then Page(None, false, p.count + 1, p.cells, p.versions + [p.cells]) else p.(holder := None)
  }

  /** While reads are allowed the page holds the contents of its present count. */
  ghost predicate PageOk(p: Page) {
    |p.versions| == p.count + 1 && (p.noRead ==> p.holder.Some?) && (!p.noRead ==> p.cells == p.versions[p.count])
  }

  /** A page nobody has changed yet. */
  lemma NewPageOk(cells: map<nat, int>)
    ensures PageOk(Page(None, false, 0, cells, [cells]))
  {
  }

  lemma WriteKeeps(p: Page, w: Write)
    requires PageOk(p) && CanWrite(p, w)
    ensures PageOk(AfterWrite(p, w)) && p.versions <= AfterWrite(p, w).versions
  {
  }

  // ---------------------------------------------------------------------------
  // The reader
  // ---------------------------------------------------------------------------

  datatype Load = Load(loc: nat, v: int)

  /** The reader has not begun, is copying the header, works off the image it took, or is finished. */
  datatype Reader =
      Idle
    | Copying(c: nat, loads: seq<Load>)
    | Imaged(c: nat, loads: seq<Load>)
    | Ok(c: nat, loads: seq<Load>)
    | Retry

  /** The check after loading: reads are not blocked and the stored count is the noted one. */
  predicate Validates(p: Page, c: nat) {
    !p.noRead && p.count % COUNT_LIMIT == c % COUNT_LIMIT
  }

  ghost predicate Reads(p: Page, r: Reader, s: Reader) {
    match r
    case Idle => if p.noRead then s == Retry else s == Copying(p.count, [])
    case Copying(c, ls) =>
      (exists loc :: loc in p.cells && s == Copying(c, ls + [Load(loc, p.cells[loc])])) ||
      s == (if Validates(p, c) then Imaged(c, ls) else Retry)
    case Imaged(c, ls) =>
      // loads of the fast path, each round of them closed by the same check
      (exists loc :: loc in p.cells && s == Imaged(c, ls + [Load(loc, p.cells[loc])])) ||
      s == (if Validates(p, c) then Ok(c, ls) else Retry) ||
      (s == r && Validates(p, c)) || (s == Retry && !Validates(p, c))
    case Ok(_, _) => s == r
    case Retry => s == r
  }

  /** All loads are from version `c`, unless the page has been changed since or is being changed. */
  ghost predicate LoadsOk(p: Page, c: nat, ls: seq<Load>) {
    c <= p.count &&
    (p.count > c || p.noRead || FromVersion(p, c, ls))
  }

  ghost predicate FromVersion(p: Page, c: nat, ls: seq<Load>) {
    c < |p.versions| &&
    forall i :: 0 <= i < |ls| ==> ls[i].loc in p.versions[c] && ls[i].v == p.versions[c][ls[i].loc]
  }

  ghost predicate ReaderOk(p: Page, r: Reader) {
    match r
    case Idle => true
    case Copying(c, ls) => LoadsOk(p, c, ls)
    case Imaged(c, ls) => LoadsOk(p, c, ls)
    case Ok(c, ls) => FromVersion(p, c, ls)
    case Retry => true
  }

  /** The count a reader noted. */
  function Noted(p: Page, r: Reader): nat {
    match r
    case Copying(c, _) => c
    case Imaged(c, _) => c
    case _ => p.count
  }

  /** Fewer than `b` changes of the page since the reader noted the count. */
  ghost predicate Fresh(p: Page, r: Reader, b: nat) {
    p.count < Noted(p, r) + b
  }

  lemma ReadKeeps(p: Page, r: Reader, s: Reader)
    requires PageOk(p) && ReaderOk(p, r) && Reads(p, r, s) && Fresh(p, r, COUNT_LIMIT)
    ensures ReaderOk(p, s)
  {
    if r.Copying? || r.Imaged? {
      SameCount(p.count, r.c);
    }
  }

  lemma SameCount(a: nat, b: nat)
    requires b <= a < b + COUNT_LIMIT
    ensures a % COUNT_LIMIT == b % COUNT_LIMIT ==> a == b
  {
  }

  lemma WriteKeepsReader(p: Page, w: Write, r: Reader)
    requires PageOk(p) && CanWrite(p, w) && ReaderOk(p, r)
    ensures ReaderOk(AfterWrite(p, w), r)
  {
  }

  // ---------------------------------------------------------------------------
  // Whole runs
  // ---------------------------------------------------------------------------

  datatype State = State(p: Page, r: Reader)

  ghost predicate Moves(a: State, b: State) {
    (exists w :: CanWrite(a.p, w) && b == State(AfterWrite(a.p, w), a.r)) ||
    (a.p == b.p && Reads(a.p, a.r, b.r))
  }

  ghost predicate Chain(run: seq<State>) {
    forall i {:trigger run[i]} :: 0 <= i < |run| - 1 ==> Moves(run[i], run[i + 1])
  }

  /** Any interleaving of writers with the reader in which the page changes fewer than `b` times during the read. */
  ghost predicate IsRun(run: seq<State>, b: nat) {
    |run| > 0 && PageOk(run[0].p) && run[0].r == Idle && Chain(run) &&
    forall i {:trigger run[i]} :: 0 <= i < |run| ==> Fresh(run[i].p, run[i].r, b)
  }

  lemma MoveKeeps(a: State, z: State)
    requires PageOk(a.p) && ReaderOk(a.p, a.r) && Fresh(a.p, a.r, COUNT_LIMIT) && Moves(a, z)
    ensures PageOk(z.p) && ReaderOk(z.p, z.r)
  {
    if a.p == z.p && Reads(a.p, a.r, z.r) {
      ReadKeeps(a.p, a.r, z.r);
    } else {
      var w :| CanWrite(a.p, w) && z == State(AfterWrite(a.p, w), a.r);
      WriteKeeps(a.p, w);
      WriteKeepsReader(a.p, w, a.r);
    }
  }

  lemma {:induction false} RunKeeps(run: seq<State>, b: nat, n: nat)
    requires IsRun(run, b) && b <= COUNT_LIMIT && n < |run|
    ensures PageOk(run[n].p) && ReaderOk(run[n].p, run[n].r)
  {
    if n > 0 {
      RunKeeps(run, b, n - 1);
      MoveKeeps(run[n - 1], run[n]);
    }
  }

  /** A read that has succeeded loaded everything from the one version of the page it first noted. */
  ghost predicate Consistent(st: State) {
    st.r.Ok? ==> FromVersion(st.p, st.r.c, st.r.loads)
  }

  /** In every run in which the count does not come round during the read, the read is consistent. */
  lemma SuccessfulReadIsConsistent(run: seq<State>, b: nat, n: nat)
    requires IsRun(run, b) && b <= COUNT_LIMIT && n < |run|
    ensures Consistent(run[n])
  {
    RunKeeps(run, b, n);
  }

  // ---------------------------------------------------------------------------
  // The count comes round
  // ---------------------------------------------------------------------------

  /** The check passes exactly when reads are not blocked and the changes since the count was noted are a
      multiple of 2^32, not only when there were none. */
  lemma ValidatesIff(p: Page, c: nat)
    requires c <= p.count
    ensures Validates(p, c) <==> !p.noRead && (p.count - c) % COUNT_LIMIT == 0
  {
    var d := p.count - c;
    assert p.count % COUNT_LIMIT == (c % COUNT_LIMIT + d % COUNT_LIMIT) % COUNT_LIMIT;
  }

  /** A page that is not locked. */
  ghost predicate Free(p: Page) {
    PageOk(p) && p.holder == None && !p.noRead
  }

  /** One writer locks the page, blocks reads, stores or not, and unlocks. */
  lemma OneRound(a: State, store: bool) returns (run: seq<State>, z: State)
    requires Free(a.p) && a.r.Copying?
    ensures |run| > 1 && Chain(run) && run[0] == a && run[|run| - 1] == z && z.r == a.r
    ensures forall i {:trigger run[i]} :: 0 <= i < |run| ==> run[i].r == a.r && run[i].p.count <= a.p.count + 1
    ensures Free(z.p) && z.p.count == a.p.count + 1 && a.p.versions <= z.p.versions
    ensures z.p.cells == if store then a.p.cells[1 := 1] else a.p.cells
  {
    var p1 := AfterWrite(a.p, Lock(0));
    var p2 := AfterWrite(p1, BlockReads(0));
    var p3 := if store then AfterWrite(p2, Store(0, 1, 1)) else AfterWrite(p2, BlockReads(0));
    var p4 := AfterWrite(p3, Unlock(0));
    var b, c, d := State(p1, a.r), State(p2, a.r), State(p3, a.r);
    z := State(p4, a.r);
    run := [a, b, c, d, z];
    assert CanWrite(a.p, Lock(0)) && CanWrite(p1, BlockReads(0)) && CanWrite(p3, Unlock(0));
    assert CanWrite(p2, if store then Store(0, 1, 1) else BlockReads(0));
    assert Moves(a, b) && Moves(b, c) && Moves(c, d) && Moves(d, z);
  }

  lemma Joined(xs: seq<State>, ys: seq<State>)
    requires Chain(xs) && Chain(ys) && |xs| > 0 && |ys| > 0 && Moves(xs[|xs| - 1], ys[0])
    ensures Chain(xs + ys)
  {
    var run := xs + ys;
    forall i {:trigger run[i]} | 0 <= i < |run| - 1 ensures Moves(run[i], run[i + 1]) {
      if i < |xs| - 1 {
        assert run[i] == xs[i] && run[i + 1] == xs[i + 1];
      } else if i >= |xs| {
        assert run[i] == ys[i - |xs|] && run[i + 1] == ys[i - |xs| + 1];
      }
    }
  }

  /** `k` writers, one after the other, while the reader is held up. */
  lemma {:induction false} Rounds(a: State, k: nat) returns (run: seq<State>, z: State)
    requires Free(a.p) && a.r.Copying?
    ensures |run| > 0 && Chain(run) && run[0] == a && run[|run| - 1] == z && z.r == a.r
    ensures forall i {:trigger run[i]} :: 0 <= i < |run| ==> run[i].r == a.r && run[i].p.count <= a.p.count + k
    ensures Free(z.p) && z.p.count == a.p.count + k && a.p.versions <= z.p.versions && z.p.cells == a.p.cells
    decreases k
  {
    if k == 0 {
      run, z := [a], a;
    } else {
      var xs, y := OneRound(a, false);
      var ys;
      ys, z := Rounds(y, k - 1);
      run := Overlap(xs, ys);
    }
  }

  /** Two chains, the second from where the first ends. */
  lemma Overlap(xs: seq<State>, ys: seq<State>) returns (run: seq<State>)
    requires Chain(xs) && Chain(ys) && |xs| > 1 && |ys| > 0 && xs[|xs| - 1] == ys[0]
    ensures Chain(run) && run == xs[..|xs| - 1] + ys
  {
    var ws := xs[..|xs| - 1];
    assert Chain(ws) by {
      forall i {:trigger ws[i]} | 0 <= i < |ws| - 1 ensures Moves(ws[i], ws[i + 1]) {
        assert ws[i] == xs[i] && ws[i + 1] == xs[i + 1];
      }
    }
    assert Moves(ws[|ws| - 1], ys[0]) by {
      assert ws[|ws| - 1] == xs[|xs| - 2];
    }
    Joined(ws, ys);
    run := ws + ys;
  }

  /** A reader that is held up for exactly 2^32 changes succeeds with loads from two versions of the page. */
  lemma TornRead() returns (run: seq<State>)
    ensures IsRun(run, COUNT_LIMIT + 1) && !Consistent(run[|run| - 1])
  {
    var p0 := Page(None, false, 0, map[0 := 0, 1 := 0], [map[0 := 0, 1 := 0]]);
    var c1, c2 := Copying(0, []), Copying(0, [Load(0, 0)]);
    var start := [State(p0, Idle), State(p0, c1)];
    assert Moves(start[0], start[1]);
    var a := State(p0, c2);
    assert 0 in p0.cells && c2 == Copying(0, [] + [Load(0, p0.cells[0])]);
    assert Reads(p0, c1, c2);
    var xs, y := OneRound(a, true);
    var ys, z := Rounds(y, COUNT_LIMIT - 1);
    var mid := Overlap(xs, ys);
    var tail := Finish(z);
    assert Moves(start[1], mid[0]);
    Joined(start, mid);
    Joined(start + mid, tail);
    run := start + mid + tail;
    AllFresh(run, start, mid, tail);
    var e := run[|run| - 1];
    assert e == tail[2] && e.r.loads[1] == Load(1, 1) && e.p.versions[0] == p0.versions[0];
  }

  /** The held-up reader goes on: it loads the changed location, and both checks pass. */
  lemma Finish(z: State) returns (tail: seq<State>)
    requires Free(z.p) && z.p.count == COUNT_LIMIT && z.r == Copying(0, [Load(0, 0)])
    requires 1 in z.p.cells && z.p.cells[1] == 1
    ensures |tail| == 3 && Chain(tail) && Moves(z, tail[0]) && tail[2].r == Ok(0, [Load(0, 0), Load(1, 1)])
    ensures forall i {:trigger tail[i]} :: 0 <= i < 3 ==>
      tail[i].p == z.p && (tail[i].r.Ok? || Noted(z.p, tail[i].r) == 0)
  {
    var ls := [Load(0, 0), Load(1, 1)];
    assert ls == [Load(0, 0)] + [Load(1, z.p.cells[1])];
    assert Validates(z.p, 0);
    tail := [State(z.p, Copying(0, ls)), State(z.p, Imaged(0, ls)), State(z.p, Ok(0, ls))];
    assert Moves(tail[0], tail[1]) && Moves(tail[1], tail[2]);
  }

  /** In such a run the page changes at most 2^32 times during the read. */
  lemma AllFresh(run: seq<State>, start: seq<State>, mid: seq<State>, tail: seq<State>)
    requires run == start + mid + tail
    requires forall i {:trigger start[i]} :: 0 <= i < |start| ==> Fresh(start[i].p, start[i].r, COUNT_LIMIT + 1)
    requires forall i {:trigger mid[i]} :: 0 <= i < |mid| ==> Fresh(mid[i].p, mid[i].r, COUNT_LIMIT + 1)
    requires forall i {:trigger tail[i]} :: 0 <= i < |tail| ==> Fresh(tail[i].p, tail[i].r, COUNT_LIMIT + 1)
    ensures forall i {:trigger run[i]} :: 0 <= i < |run| ==> Fresh(run[i].p, run[i].r, COUNT_LIMIT + 1)
  {
  }

  /** Successful reads are consistent in every run if and only if no read lasts for 2^32 changes of the page. */
  lemma ConsistentIff(b: nat)
    ensures (forall run: seq<State>, n: nat {:trigger IsRun(run, b), run[n]} ::
               IsRun(run, b) && n < |run| ==> Consistent(run[n]))
            <==> b <= COUNT_LIMIT
  {
    if b <= COUNT_LIMIT {
      forall run: seq<State>, n: nat {:trigger IsRun(run, b), run[n]} | IsRun(run, b) && n < |run|
        ensures Consistent(run[n])
      {
        SuccessfulReadIsConsistent(run, b, n);
      }
    } else {
      var run := TornRead();
      assert IsRun(run, b) && !Consistent(run[|run| - 1]);
    }
  }
}
