/**
 Allocating row identifiers from a shared counter: fetch-and-add by the allocators, and a
 compare-and-swap loop that raises the counter above an identifier already in use.
*/
module Ctid {

  /** Offsets used per block: the largest offset is 2048 and the first is 1. */
  const PER_BLOCK: nat := 2047

  /** Offsets used per block for bridge identifiers. */
  const BRIDGE_PER_BLOCK: nat := 291

  datatype Ctid = Ctid(block: nat, offset: nat)

  predicate Less(a: Ctid, b: Ctid) {
    a.block < b.block || (a.block == b.block && a.offset < b.offset)
  }

  /** The identifier for a counter value. */
  function Decode(n: nat): Ctid {
    Ctid(n / PER_BLOCK, n % PER_BLOCK + 1)
  }

  /** The least counter value whose identifiers are all above `c`. */
  function After(c: Ctid): nat {
    c.block * PER_BLOCK + c.offset
  }

  /** Identifiers that allocation uses are ordered like the counter values behind them. */
  lemma LessMeans(a: Ctid, b: Ctid)
    requires 1 <= a.offset <= PER_BLOCK && 1 <= b.offset <= PER_BLOCK
    ensures Less(a, b) <==> After(a) < After(b)
    ensures a == b <==> After(a) == After(b)
  {
  }

  /** The first identifier is offset 1 of block 0, and no other offsets are used than 1 to 2047. */
  lemma DecodeInRange(n: nat)
    ensures 1 <= Decode(n).offset <= PER_BLOCK && Decode(0) == Ctid(0, 1) && After(Decode(n)) == n + 1
  {
  }

  lemma DecodeAscends(m: nat, n: nat)
    requires m < n
    ensures Less(Decode(m), Decode(n))
  {
    assert m == m / PER_BLOCK * PER_BLOCK + m % PER_BLOCK && n == n / PER_BLOCK * PER_BLOCK + n % PER_BLOCK;
  }

  /** From `After(c)` on every identifier is above `c`, whatever offset `c` has. */
  lemma AfterIsAbove(c: Ctid, n: nat)
    requires n >= After(c)
    ensures Less(c, Decode(n))
  {
    assert n == n / PER_BLOCK * PER_BLOCK + n % PER_BLOCK;
  }

  /** For identifiers with an offset that allocation uses, no smaller counter value would do. */
  lemma AfterIsLeast(c: Ctid)
    requires 1 <= c.offset <= PER_BLOCK
    ensures After(c) > 0 && Decode(After(c) - 1) == c
  {
    var n := After(c) - 1;
    assert n == c.block * PER_BLOCK + (c.offset - 1);
    assert n / PER_BLOCK == c.block && n % PER_BLOCK == c.offset - 1;
  }

  // ---------------------------------------------------------------------------
  // The counter and the processes that use it
  // ---------------------------------------------------------------------------

  /** A process between reading the counter and its compare-and-swap. */
  datatype Pending = Pending(seen: nat, want: nat)

  /** An update that has returned, and how many identifiers had been handed out by then. */
  datatype Finished = Finished(want: nat, handedOut: nat)

  datatype State = State(counter: nat, pending: map<nat, Pending>, given: seq<nat>, finished: seq<Finished>)

  /** One atomic access to the counter. */
  datatype Step =
      Allocate
    | Read(pid: nat, want: nat)
    | Swap(pid: nat)

  predicate Enabled(s: State, step: Step) {
    match step
    case Allocate => true
    case Read(pid, _) => pid !in s.pending
    case Swap(pid) => pid in s.pending
  }

  function Next(s: State, step: Step): State
    requires Enabled(s, step)
  {
    match step
    case Allocate =>
      s.(counter := s.counter + 1, given := s.given + [s.counter])
    case Read(pid, want) =>
      // an update looks at the counter and is done if that is already high enough
      if s.counter >= want then s.(finished := s.finished + [Finished(want, |s.given|)])
      else s.(pending := s.pending[pid := Pending(s.counter, want)])
    case Swap(pid) =>
      // the swap succeeds only if the counter is still the one seen; otherwise the update reads again
      var p := s.pending[pid];
      if s.counter == p.seen then
        s.(counter := p.want, pending := s.pending - {pid}, finished := s.finished + [Finished(p.want, |s.given|)])
      else s.(pending := s.pending - {pid})
  }

  ghost predicate Above(s: State, f: Finished) {
    f.handedOut <= |s.given| && s.counter >= f.want &&
    forall i :: f.handedOut <= i < |s.given| ==> s.given[i] >= f.want
  }

  ghost predicate Inv(s: State) {
    (forall i :: 0 <= i < |s.given| ==> s.given[i] < s.counter) &&
    (forall i, j :: 0 <= i < j < |s.given| ==> s.given[i] < s.given[j]) &&
    (forall pid :: pid in s.pending ==>
       s.pending[pid].seen <= s.counter && s.pending[pid].seen < s.pending[pid].want) &&
    (forall i {:trigger s.finished[i]} :: 0 <= i < |s.finished| ==> Above(s, s.finished[i]))
  }

  lemma NextKeeps(s: State, step: Step)
    requires Inv(s) && Enabled(s, step)
    ensures Inv(Next(s, step)) && s.counter <= Next(s, step).counter && s.given <= Next(s, step).given
    ensures s.finished <= Next(s, step).finished
  {
    var r := Next(s, step);
    forall i {:trigger r.finished[i]} | 0 <= i < |r.finished| ensures Above(r, r.finished[i]) {
      if i < |s.finished| {
        assert r.finished[i] == s.finished[i] && Above(s, s.finished[i]);
      }
    }
  }

  // ---------------------------------------------------------------------------
  // Whole runs
  // ---------------------------------------------------------------------------

  ghost predicate IsRun(run: seq<State>, steps: seq<Step>) {
    |run| == |steps| + 1 && run[0].pending == map[] && run[0].given == [] && run[0].finished == [] &&
    forall i :: 0 <= i < |steps| ==> Enabled(run[i], steps[i]) && run[i + 1] == Next(run[i], steps[i])
  }

  lemma {:induction false} RunKeeps(run: seq<State>, steps: seq<Step>, n: nat)
    requires IsRun(run, steps) && n < |run|
    ensures Inv(run[n])
  {
    if n > 0 {
      RunKeeps(run, steps, n - 1);
      NextKeeps(run[n - 1], steps[n - 1]);
    }
  }

  /** In every interleaving the identifiers handed out ascend, so no two are equal. */
  lemma AllocatedAscend(run: seq<State>, steps: seq<Step>, n: nat, i: nat, j: nat)
    requires IsRun(run, steps) && n < |run| && i < j < |run[n].given|
    ensures Less(Decode(run[n].given[i]), Decode(run[n].given[j]))
  {
    RunKeeps(run, steps, n);
    DecodeAscends(run[n].given[i], run[n].given[j]);
  }

  /** In every interleaving: an identifier handed out after an update for `c` returned is above `c`. */
  lemma UpdatedStaysAbove(run: seq<State>, steps: seq<Step>, n: nat, u: nat, c: Ctid, i: nat)
    requires IsRun(run, steps) && n < |run| && u < |run[n].finished| && run[n].finished[u].want == After(c)
    requires run[n].finished[u].handedOut <= i < |run[n].given|
    ensures Less(c, Decode(run[n].given[i]))
  {
    RunKeeps(run, steps, n);
    assert Above(run[n], run[n].finished[u]);
    AfterIsAbove(c, run[n].given[i]);
  }

  // ---------------------------------------------------------------------------
  // No call is lost and no identifier is skipped
  // ---------------------------------------------------------------------------

  /** How many of the first `n` steps are of a kind: allocations, first reads of an update, swaps that fail. */
  function Allocations(steps: seq<Step>, n: nat): nat
    requires n <= |steps|
  {
    if n == 0 then 0 else Allocations(steps, n - 1) + if steps[n - 1].Allocate? then 1 else 0
  }

  function Reads(steps: seq<Step>, n: nat): nat
    requires n <= |steps|
  {
    if n == 0 then 0 else Reads(steps, n - 1) + if steps[n - 1].Read? then 1 else 0
  }

  predicate Fails(s: State, step: Step) {
    step.Swap? && step.pid in s.pending && s.pending[step.pid].seen != s.counter
  }

  function Failures(run: seq<State>, steps: seq<Step>, n: nat): nat
    requires n <= |steps| < |run|
  {
    if n == 0 then 0 else Failures(run, steps, n - 1) + if Fails(run[n - 1], steps[n - 1]) then 1 else 0
  }

  /** Every allocation hands out one identifier.  Every read either finishes its update, waits for its swap, or led
      to a swap that failed because the counter had moved. */
  lemma {:induction false} EveryCallCounted(run: seq<State>, steps: seq<Step>, n: nat)
    requires IsRun(run, steps) && n < |run|
    ensures |run[n].given| == Allocations(steps, n)
    ensures |run[n].finished| + |run[n].pending| + Failures(run, steps, n) == Reads(steps, n)
  {
    if n > 0 {
      EveryCallCounted(run, steps, n - 1);
      var s, step := run[n - 1], steps[n - 1];
      assert run[n] == Next(s, step);
      if step.Swap? {
        assert |s.pending - {step.pid}| == |s.pending| - 1 by {
          assert (s.pending - {step.pid}).Keys == s.pending.Keys - {step.pid};
        }
      }
    }
  }

  /** Any number of identifiers can be handed out, one for each counter value. */
  lemma {:induction false} CanAllocate(first: nat, k: nat) returns (run: seq<State>, steps: seq<Step>)
    ensures IsRun(run, steps) && |steps| == k && run[0].counter == first && run[k].counter == first + k
    ensures |run[k].given| == k && forall i :: 0 <= i < k ==> run[k].given[i] == first + i
  {
    if k == 0 {
      run, steps := [State(first, map[], [], [])], [];
    } else {
      var run', steps' := CanAllocate(first, k - 1);
      run, steps := run' + [Next(run'[k - 1], Allocate)], steps' + [Allocate];
    }
  }

  /** An update that nobody disturbs raises the counter to what it asks for. */
  lemma CanUpdate(s: State, pid: nat, c: Ctid)
    requires pid !in s.pending && s.counter < After(c)
    ensures Enabled(s, Read(pid, After(c))) && Enabled(Next(s, Read(pid, After(c))), Swap(pid))
    ensures var r := Next(Next(s, Read(pid, After(c))), Swap(pid));
            r.counter == After(c) && r.finished == s.finished + [Finished(After(c), |s.given|)] && r.given == s.given
  {
  }

  /** The counter is where it began, right behind the last identifier handed out, or where an update asked for. */
  ghost predicate Tight(first: nat, s: State) {
    s.counter == first || (s.given != [] && s.given[|s.given| - 1] + 1 == s.counter) ||
    exists i :: 0 <= i < |s.finished| && s.finished[i].want == s.counter
  }

  lemma TightNext(first: nat, s: State, step: Step)
    requires Tight(first, s) && Enabled(s, step)
    ensures Tight(first, Next(s, step))
  {
    var r := Next(s, step);
    if r.counter == s.counter {
      if i :| 0 <= i < |s.finished| && s.finished[i].want == s.counter {
        assert r.finished[i] == s.finished[i];
      }
    } else if step.Swap? {
      assert r.finished[|s.finished|].want == r.counter;
    }
  }

  /** In every interleaving the counter is no higher than the calls made it. */
  lemma {:induction false} CounterTight(run: seq<State>, steps: seq<Step>, n: nat)
    requires IsRun(run, steps) && n < |run|
    ensures Tight(run[0].counter, run[n])
  {
    if n > 0 {
      CounterTight(run, steps, n - 1);
      TightNext(run[0].counter, run[n - 1], steps[n - 1]);
    }
  }

  // ---------------------------------------------------------------------------
  // Bridge identifiers
  // ---------------------------------------------------------------------------

  /** The bridge identifier for a counter value, in blocks below `maxBlock`. */
  function BridgeDecode(n: nat, maxBlock: nat): Ctid
    requires maxBlock > 0
  {
    Ctid(n / BRIDGE_PER_BLOCK % maxBlock, n % BRIDGE_PER_BLOCK + 1)
  }

  predicate Overflow(n: nat, maxBlock: nat) {
    n / BRIDGE_PER_BLOCK >= maxBlock
  }

  lemma BridgeInRange(n: nat, maxBlock: nat)
    requires maxBlock > 0
    ensures var c := BridgeDecode(n, maxBlock); c.block < maxBlock && 1 <= c.offset <= BRIDGE_PER_BLOCK
    ensures BridgeDecode(0, maxBlock) == Ctid(0, 1)
  {
  }

  /** Bridge identifiers handed out without overflow are distinct. */
  lemma BridgeDistinct(m: nat, n: nat, maxBlock: nat)
    requires maxBlock > 0 && m != n && !Overflow(m, maxBlock) && !Overflow(n, maxBlock)
    ensures BridgeDecode(m, maxBlock) != BridgeDecode(n, maxBlock)
  {
    assert m == m / BRIDGE_PER_BLOCK * BRIDGE_PER_BLOCK + m % BRIDGE_PER_BLOCK;
    assert n == n / BRIDGE_PER_BLOCK * BRIDGE_PER_BLOCK + n % BRIDGE_PER_BLOCK;
    InRange(m / BRIDGE_PER_BLOCK, maxBlock);
    InRange(n / BRIDGE_PER_BLOCK, maxBlock);
  }

  lemma InRange(q: nat, k: nat)
    requires q < k
    ensures q % k == q
  {
  }

  /** The first identifier with overflow is the first one of all again, so the flag is raised no later than needed. */
  lemma BridgeWraps(maxBlock: nat)
    requires maxBlock > 0
    ensures var n := maxBlock * BRIDGE_PER_BLOCK;
            Overflow(n, maxBlock) && BridgeDecode(n, maxBlock) == BridgeDecode(0, maxBlock) &&
            forall m: nat :: m < n ==> !Overflow(m, maxBlock)
  {
    var n := maxBlock * BRIDGE_PER_BLOCK;
    assert n / BRIDGE_PER_BLOCK == maxBlock && n % BRIDGE_PER_BLOCK == 0;
    forall m: nat | m < n ensures !Overflow(m, maxBlock) {
      assert m == m / BRIDGE_PER_BLOCK * BRIDGE_PER_BLOCK + m % BRIDGE_PER_BLOCK;
    }
  }
}
