/**
 The locks of a merge: which are taken in which order, and that all are given back.

 What a merge finds in the tree and what other processes do to it are inputs: one `Round` for
 every turn of the loop.
*/
module MergeLocks {

  /** Where a page stands: its level, and its position among the pages of that level from the left. */
  datatype Pos = Pos(level: nat, x: int)

  /** Parents come before children, and pages come before their right neighbours. */
  predicate Before(a: Pos, b: Pos) {
    a.level > b.level || (a.level == b.level && a.x < b.x)
  }

  // ---------------------------------------------------------------------------
  // Lock events
  // ---------------------------------------------------------------------------

  /** A lock waited for, a lock obtained without waiting, or a page unlocked. */
  datatype Event = Lock(p: Pos) | TryLock(p: Pos) | Unlock(p: Pos)

  function Held(log: seq<Event>): set<Pos> {
    if log == [] then {}
    else
      var before := Held(log[..|log| - 1]);
      match log[|log| - 1]
      case Lock(p) => before + {p}
      case TryLock(p) => before + {p}
      case Unlock(p) => before - {p}
  }

  /** Nothing is locked twice or unlocked without being held, and a lock is waited for only below or right of all
      held pages. */
  ghost predicate Disciplined(log: seq<Event>) {
    log == [] ||
    (Disciplined(log[..|log| - 1]) &&
     var before := Held(log[..|log| - 1]);
     match log[|log| - 1]
     case Lock(p) => forall h :: h in before ==> Before(h, p)
     case TryLock(p) => p !in before
     case Unlock(p) => p in before)
  }

  lemma Logged(log: seq<Event>, e: Event)
    ensures (log + [e])[..|log + [e]| - 1] == log && (log + [e])[|log + [e]| - 1] == e
  {
  }

  method Waited(log: seq<Event>, p: Pos) returns (r: seq<Event>)
    requires Disciplined(log) && forall h :: h in Held(log) ==> Before(h, p)
    ensures Disciplined(r) && Held(r) == Held(log) + {p} && log <= r
  {
    r := log + [Lock(p)];
    Logged(log, Lock(p));
  }

  method Tried(log: seq<Event>, p: Pos) returns (r: seq<Event>)
    requires Disciplined(log) && p !in Held(log)
    ensures Disciplined(r) && Held(r) == Held(log) + {p} && log <= r
  {
    r := log + [TryLock(p)];
    Logged(log, TryLock(p));
  }

  method Released(log: seq<Event>, p: Pos) returns (r: seq<Event>)
    requires Disciplined(log) && p in Held(log)
    ensures Disciplined(r) && Held(r) == Held(log) - {p} && log <= r
  {
    r := log + [Unlock(p)];
    Logged(log, Unlock(p));
  }

  /** At some moment since the first `from` events exactly these pages are held. */
  ghost predicate HeldAtOnce(log: seq<Event>, from: nat, ps: set<Pos>) {
    exists n {:trigger log[..n]} :: from <= n <= |log| && Held(log[..n]) == ps
  }

  lemma HeldNow(log: seq<Event>, from: nat)
    requires from <= |log|
    ensures HeldAtOnce(log, from, Held(log))
  {
    assert log[..|log|] == log;
  }

  /** What was held once stays in the log. */
  lemma HeldLater(log: seq<Event>, later: seq<Event>, from: nat, ps: set<Pos>)
    requires log <= later && HeldAtOnce(log, from, ps)
    ensures HeldAtOnce(later, from, ps)
  {
    var n :| from <= n <= |log| && Held(log[..n]) == ps;
    assert later[..n] == log[..n];
  }

  lemma HeldSince(log: seq<Event>, from: nat, earlier: nat, ps: set<Pos>)
    requires HeldAtOnce(log, from, ps) && earlier <= from
    ensures HeldAtOnce(log, earlier, ps)
  {
  }

  // ---------------------------------------------------------------------------
  // One turn of the loop
  // ---------------------------------------------------------------------------

  /** A neighbour of the target under the same parent.  `io`: an input or output of the page to be retired is
      in progress; `free`: it can be locked without waiting; `usable`: it is not being cleaned up, split or
      checkpointed; `mergeable`: the merge itself goes through. */
  datatype Neighbour = Absent | OnDisk | InIo | InMemory(pos: Pos, io: bool, free: bool, usable: bool, mergeable: bool)

  /** What one turn meets.  `above`: how many pages the path to the parent has above it; `inMemory`: the target
      is; `stuck`: it is an only child, is being split or is under a checkpoint; `sparse`: after a merge the
      parent is too sparse. */
  datatype Round = Round(parent: Pos, above: nat, target: Pos, inMemory: bool, stuck: bool,
                         right: Neighbour, left: Neighbour, sparse: bool)

  ghost predicate Placed(r: Round) {
    r.parent.level == r.target.level + 1 &&
    (r.right.InMemory? ==> Before(r.target, r.right.pos) && r.right.pos.level == r.target.level) &&
    (r.left.InMemory? ==> Before(r.left.pos, r.target) && r.left.pos.level == r.target.level)
  }

  /** How a step ended: merged (all unlocked), to be tried again or given up (all unlocked), or not merged
      with parent and target still locked. */
  datatype Outcome = Merged | Again | GivenUp | NotMerged

  /** The neighbour can be merged with, once it is locked. */
  predicate Fits(n: Neighbour) {
    n.InMemory? && !n.io && n.usable && n.mergeable
  }

  /** Waiting for an input or output of the right neighbour. */
  predicate AwaitsRight(r: Round, waitIo: bool) {
    waitIo && (r.right.InIo? || (r.right.InMemory? && r.right.io))
  }

  /** Waiting for an input or output of the left neighbour, or of the target once the left one is locked. */
  predicate AwaitsLeft(r: Round, waitIo: bool) {
    waitIo && (r.left.InIo? || (r.left.InMemory? && r.left.free && r.left.io))
  }

  /** This turn waits for an input or output and is then repeated. */
  predicate TurnAwaits(r: Round, waitIo: bool) {
    r.inMemory && !r.stuck && (AwaitsRight(r, waitIo) || (!Fits(r.right) && AwaitsLeft(r, waitIo)))
  }

  /** This turn merges: to the right if possible, else to the left if that page can be locked at once. */
  predicate TurnMerges(r: Round, waitIo: bool) {
    r.inMemory && !r.stuck && !AwaitsRight(r, waitIo) && (Fits(r.right) || (Fits(r.left) && r.left.free))
  }

  method ReleaseBoth(log: seq<Event>, a: Pos, b: Pos) returns (r: seq<Event>)
    requires Disciplined(log) && a != b && a in Held(log) && b in Held(log)
    ensures Disciplined(r) && Held(r) == Held(log) - {a} - {b} && log <= r
  {
    r := Released(log, a);
    r := Released(r, b);
  }

  /** A merge that goes through unlocks the parent, then the left page, and frees the right one. */
  method ReleaseAll(log: seq<Event>, parent: Pos, left: Pos, right: Pos) returns (r: seq<Event>)
    requires Disciplined(log) && parent != left && parent != right && left != right &&
      Held(log) == {parent, left, right}
    ensures Disciplined(r) && Held(r) == {} && log <= r
  {
    r := Released(log, parent);
    r := Released(r, left);
    r := Released(r, right);
  }

  /** Step 4: merge the right neighbour into the target. */
  method MergeRight(log: seq<Event>, r: Round, waitIo: bool) returns (out: seq<Event>, o: Outcome)
    requires Placed(r) && Disciplined(log) && Held(log) == {r.parent, r.target}
    ensures Disciplined(out) && Held(out) == if o == NotMerged then {r.parent, r.target} else {}
    ensures o == Merged <==> Fits(r.right)
    ensures o == Again <==> AwaitsRight(r, waitIo)
    ensures o != GivenUp
    ensures log <= out && (r.right.InMemory? ==> HeldAtOnce(out, |log|, {r.parent, r.target, r.right.pos}))
  {
    out := log;
    if r.right.InIo? && waitIo {
      out := ReleaseBoth(out, r.parent, r.target);
      return out, Again;
    } else if r.right.InMemory? {
      out := Waited(out, r.right.pos);
      ghost var locked := out;
      HeldNow(locked, |log|);
      if r.right.io && waitIo {
        out := ReleaseAll(out, r.parent, r.target, r.right.pos);
        o := Again;
      } else if r.right.usable && !r.right.io && r.right.mergeable {
        out := ReleaseAll(out, r.parent, r.target, r.right.pos);
        o := Merged;
      } else {
        out := Released(out, r.right.pos);
        o := NotMerged;
      }
      HeldLater(locked, out, |log|, {r.parent, r.target, r.right.pos});
      return;
    }
    return out, NotMerged;
  }

  /** Step 5: merge the target into the left neighbour, which is locked only if that needs no waiting. */
  method MergeLeft(log: seq<Event>, r: Round, waitIo: bool) returns (out: seq<Event>, o: Outcome)
    requires Placed(r) && Disciplined(log) && Held(log) == {r.parent, r.target}
    ensures Disciplined(out) && Held(out) == if o == NotMerged then {r.parent, r.target} else {}
    ensures o == Merged <==> Fits(r.left) && r.left.free
    ensures o == Again <==> AwaitsLeft(r, waitIo)
    ensures o == GivenUp <==> r.left.InMemory? && !r.left.free
    ensures log <= out &&
      (r.left.InMemory? && r.left.free ==> HeldAtOnce(out, |log|, {r.parent, r.target, r.left.pos}))
  {
    out := log;
    if r.left.InIo? && waitIo {
      out := ReleaseBoth(out, r.parent, r.target);
      return out, Again;
    } else if r.left.InMemory? {
      if !r.left.free {
        out := ReleaseBoth(out, r.parent, r.target);
        return out, GivenUp;
      }
      out := Tried(out, r.left.pos);
      ghost var locked := out;
      HeldNow(locked, |log|);
      if r.left.io && waitIo {
        out := ReleaseAll(out, r.parent, r.left.pos, r.target);
        o := Again;
      } else if r.left.usable && !r.left.io && r.left.mergeable {
        out := ReleaseAll(out, r.parent, r.left.pos, r.target);
        o := Merged;
      } else {
        out := Released(out, r.left.pos);
        o := NotMerged;
      }
      HeldLater(locked, out, |log|, {r.parent, r.target, r.left.pos});
      return;
    }
    return out, NotMerged;
  }

  /** The three pages a turn that merges holds together: the parent, the target and the neighbour it merges with. */
  function MergedPages(r: Round): set<Pos> {
    {r.parent, r.target} +
    if Fits(r.right) then {r.right.pos} else if r.left.InMemory? then {r.left.pos} else {}
  }

  /** One turn with the parent locked: lock the target, try the right neighbour, then the left one. */
  method Turn(log: seq<Event>, r: Round, waitIo: bool) returns (out: seq<Event>, o: Outcome)
    requires Placed(r) && Disciplined(log) && Held(log) == {r.parent}
    ensures Disciplined(out) && Held(out) == {} && o != NotMerged
    ensures o == Merged <==> TurnMerges(r, waitIo)
    ensures o == Again <==> TurnAwaits(r, waitIo)
    ensures log <= out && (o == Merged ==> HeldAtOnce(out, |log|, MergedPages(r)))
  {
    if !r.inMemory {
      out := Released(log, r.parent);
      return out, GivenUp;
    }
    out := Waited(log, r.target);
    ghost var from := |out|;
    if r.stuck {
      out := ReleaseBoth(out, r.parent, r.target);
      return out, GivenUp;
    }
    out, o := MergeRight(out, r, waitIo);
    if o == NotMerged {
      from := |out|;
      out, o := MergeLeft(out, r, waitIo);
    }
    if o == NotMerged {
      out := ReleaseBoth(out, r.parent, r.target);
      o := GivenUp;
    }
    if o == Merged {
      HeldSince(out, from, |log|, MergedPages(r));
    }
  }

  // ---------------------------------------------------------------------------
  // The whole merge
  // ---------------------------------------------------------------------------

  /** After this turn the parent is merged in turn: a nested merge went through, and the parent is not the root. */
  predicate Climbs(r: Round, nested: bool, waitIo: bool) {
    TurnMerges(r, waitIo) && nested && r.above > 0 && r.sparse
  }

  /** This turn is the last. */
  predicate Ends(r: Round, nested: bool, waitIo: bool) {
    !Climbs(r, nested, waitIo) && !TurnAwaits(r, waitIo)
  }

  /** For each of the first `n` turns that merges there is a moment at which exactly its parent and both its pages
      are held. */
  ghost predicate AllHeld(log: seq<Event>, rounds: seq<Round>, n: nat, waitIo: bool)
    requires n <= |rounds|
  {
    forall i {:trigger rounds[i]} :: 0 <= i < n && TurnMerges(rounds[i], waitIo) ==>
      HeldAtOnce(log, 0, MergedPages(rounds[i]))
  }

  lemma AllHeldNext(before: seq<Event>, log: seq<Event>, rounds: seq<Round>, n: nat, waitIo: bool)
    requires before <= log && n < |rounds| && AllHeld(before, rounds, n, waitIo)
    requires TurnMerges(rounds[n], waitIo) ==> HeldAtOnce(log, 0, MergedPages(rounds[n]))
    ensures AllHeld(log, rounds, n + 1, waitIo)
  {
    forall i {:trigger rounds[i]} | 0 <= i <= n && TurnMerges(rounds[i], waitIo)
      ensures HeldAtOnce(log, 0, MergedPages(rounds[i]))
    {
      if i < n {
        HeldLater(before, log, 0, MergedPages(rounds[i]));
      }
    }
  }

  /** A turn with nothing locked: the parent is found again and locked. */
  method TakeTurn(log: seq<Event>, r: Round, nested: bool, waitIo: bool)
    returns (out: seq<Event>, merged: bool, ended: bool)
    requires Placed(r) && Disciplined(log) && Held(log) == {}
    ensures Disciplined(out) && Held(out) == {} && log <= out
    ensures merged <==> TurnMerges(r, waitIo)
    ensures ended <==> Ends(r, nested, waitIo)
    ensures merged ==> HeldAtOnce(out, 0, MergedPages(r))
  {
    out := Waited(log, r.parent);
    ghost var from := |out|;
    var o;
    out, o := Turn(out, r, waitIo);
    merged := o == Merged;
    ended := o == GivenUp || (merged && !(nested && r.above > 0 && r.sparse));
    if merged {
      HeldSince(out, from, 0, MergedPages(r));
    }
  }

  ghost predicate SomeMerges(rounds: seq<Round>, n: nat, waitIo: bool)
    requires n <= |rounds|
  {
    exists i {:trigger rounds[i]} :: 0 <= i < n && TurnMerges(rounds[i], waitIo)
  }

  ghost predicate NoneEnds(rounds: seq<Round>, n: int, nested: bool, waitIo: bool)
    requires n <= |rounds|
  {
    forall i {:trigger rounds[i]} :: 0 <= i < n ==> !Ends(rounds[i], nested, waitIo)
  }

  /** The loop: turns are taken up to the first that ends it, or until there are no more. */
  method TakeTurns(log: seq<Event>, nested: bool, waitIo: bool, rounds: seq<Round>)
    returns (out: seq<Event>, success: bool, finished: bool, taken: nat)
    requires Disciplined(log) && Held(log) == {} && forall i :: 0 <= i < |rounds| ==> Placed(rounds[i])
    ensures Disciplined(out) && Held(out) == {} && log <= out && taken <= |rounds| &&
      AllHeld(out, rounds, taken, waitIo)
    ensures success <==> SomeMerges(rounds, taken, waitIo)
    ensures finished ==>
      taken > 0 && NoneEnds(rounds, taken - 1, nested, waitIo) && Ends(rounds[taken - 1], nested, waitIo)
    ensures !finished ==> taken == |rounds| && NoneEnds(rounds, taken, nested, waitIo)
  {
    out, success, finished, taken := log, false, false, 0;
    while taken < |rounds|
      invariant taken <= |rounds| && Disciplined(out) && Held(out) == {} && log <= out
      invariant AllHeld(out, rounds, taken, waitIo)
      invariant success <==> SomeMerges(rounds, taken, waitIo)
      invariant !finished && NoneEnds(rounds, taken, nested, waitIo)
    {
      ghost var before := out;
      var merged, ended;
      out, merged, ended := TakeTurn(out, rounds[taken], nested, waitIo);
      AllHeldNext(before, out, rounds, taken, waitIo);
      success := success || merged;
      taken := taken + 1;
      if ended {
        finished := true;
        return;
      }
    }
  }

  /**
   The driver.  It starts with the page locked, reserves undo space if the tree needs it, gives the page up and
   goes to its parent.  It takes turns up to the first that ends the loop; `finished` is false when the inputs
   have no such turn.
  */
  method TryMergeAndUnlock(page: Pos, needsUndo: bool, canReserve: bool, nested: bool, waitIo: bool, rounds: seq<Round>)
    returns (log: seq<Event>, reserved: bool, success: bool, finished: bool, taken: nat)
    requires forall i :: 0 <= i < |rounds| ==> Placed(rounds[i])
    ensures Disciplined(log) && Held(log) == {} && HeldAtOnce(log, 0, {page})
    ensures reserved <==> needsUndo && canReserve && !finished
    ensures taken <= |rounds| && AllHeld(log, rounds, taken, waitIo)
    ensures success <==> SomeMerges(rounds, taken, waitIo)
    ensures needsUndo && !canReserve ==> finished && taken == 0
    ensures !(needsUndo && !canReserve) ==>
      if finished then
        taken > 0 && NoneEnds(rounds, taken - 1, nested, waitIo) && Ends(rounds[taken - 1], nested, waitIo)
      else
        taken == |rounds| && NoneEnds(rounds, taken, nested, waitIo)
  {
    log := Waited([], page);
    ghost var locked := log;
    HeldNow(locked, 0);
    reserved, success, finished, taken := false, false, false, 0;
    if needsUndo && !canReserve {
      log := Released(log, page);
      finished := true;
    } else {
      reserved := needsUndo;
      log := Released(log, page);
      log, success, finished, taken := TakeTurns(log, nested, waitIo, rounds);
      if finished {
        reserved := false;
      }
    }
    HeldLater(locked, log, 0, {page});
  }

  // ---------------------------------------------------------------------------
  // The loop ends
  // ---------------------------------------------------------------------------

  /** How many of these turns wait, and how many climb. */
  function Awaits(turns: seq<Round>, waitIo: bool): nat {
    if turns == [] then 0
    else Awaits(turns[..|turns| - 1], waitIo) + if TurnAwaits(turns[|turns| - 1], waitIo) then 1 else 0
  }

  function Climbed(turns: seq<Round>, nested: bool, waitIo: bool): nat {
    if turns == [] then 0
    else Climbed(turns[..|turns| - 1], nested, waitIo) + if Climbs(turns[|turns| - 1], nested, waitIo) then 1 else 0
  }

  /** The target is on the page's level, one level up for each climb; the root is on level `top` at most. */
  ghost predicate Climbing(page: Pos, turns: seq<Round>, nested: bool, waitIo: bool, top: nat) {
    forall i {:trigger turns[i]} :: 0 <= i < |turns| ==>
      turns[i].target.level == page.level + Climbed(turns[..i], nested, waitIo) &&
      turns[i].target.level + 1 + turns[i].above <= top
  }

  /** Every turn but the last waits or climbs. */
  lemma {:induction false} TurnsCounted(turns: seq<Round>, nested: bool, waitIo: bool)
    requires forall i :: 0 <= i < |turns| ==> !Ends(turns[i], nested, waitIo)
    ensures |turns| == Awaits(turns, waitIo) + Climbed(turns, nested, waitIo)
  {
    if turns != [] {
      var rest := turns[..|turns| - 1];
      assert forall i :: 0 <= i < |rest| ==> rest[i] == turns[i];
      TurnsCounted(rest, nested, waitIo);
      MergesOrAwaits(turns[|turns| - 1], waitIo);
    }
  }

  lemma MergesOrAwaits(r: Round, waitIo: bool)
    ensures !(TurnMerges(r, waitIo) && TurnAwaits(r, waitIo))
  {
  }

  /** However the tree changes, a merge climbs no further than below the root. */
  lemma {:induction false} ClimbsBelowRoot(page: Pos, turns: seq<Round>, nested: bool, waitIo: bool, top: nat, n: nat)
    requires Climbing(page, turns, nested, waitIo, top) && n <= |turns| && page.level < top
    ensures page.level + Climbed(turns[..n], nested, waitIo) < top
  {
    if n > 0 {
      ClimbsBelowRoot(page, turns, nested, waitIo, top, n - 1);
      var r := turns[n - 1];
      assert turns[..n][..n - 1] == turns[..n - 1] && turns[..n][n - 1] == r;
    }
  }

  /** The loop takes at most one turn for each level from the page's up to below the root, and one for each wait. */
  lemma LoopEnds(page: Pos, turns: seq<Round>, nested: bool, waitIo: bool, top: nat)
    requires Climbing(page, turns, nested, waitIo, top) && page.level < top
    requires forall i :: 0 <= i < |turns| - 1 ==> !Ends(turns[i], nested, waitIo)
    ensures |turns| <= Awaits(turns, waitIo) + top - page.level
  {
    if turns != [] {
      var n := |turns| - 1;
      var rest := turns[..n];
      assert forall i :: 0 <= i < |rest| ==> rest[i] == turns[i];
      TurnsCounted(rest, nested, waitIo);
      ClimbsBelowRoot(page, turns, nested, waitIo, top, n);
    }
  }

  // ---------------------------------------------------------------------------
  // No deadlock
  // ---------------------------------------------------------------------------

  /** Every prefix of a disciplined log is disciplined: a process that waits holds only pages before the one it
      wants. */
  lemma {:induction false} PrefixDisciplined(log: seq<Event>, n: nat)
    requires Disciplined(log) && n <= |log|
    ensures Disciplined(log[..n])
    decreases |log| - n
  {
    if n < |log| {
      PrefixDisciplined(log[..|log| - 1], n);
      assert log[..|log| - 1][..n] == log[..n];
    } else {
      assert log[..n] == log;
    }
  }

  /** Process `i` has done the first `at[i]` events of its log and now waits for the next one, a lock. */
  ghost predicate Waits(logs: seq<seq<Event>>, at: seq<nat>, i: int) {
    |logs| == |at| && 0 <= i < |logs| && at[i] < |logs[i]| && logs[i][at[i]].Lock?
  }

  function Wants(logs: seq<seq<Event>>, at: seq<nat>, i: int): Pos
    requires |logs| == |at| && 0 <= i < |logs| && at[i] < |logs[i]|
  {
    logs[i][at[i]].p
  }

  lemma WaiterHoldsEarlier(logs: seq<seq<Event>>, at: seq<nat>, i: int, h: Pos)
    requires Waits(logs, at, i) && Disciplined(logs[i]) && h in Held(logs[i][..at[i]])
    ensures Before(h, Wants(logs, at, i))
  {
    var n := at[i];
    PrefixDisciplined(logs[i], n + 1);
    var p := logs[i][..n + 1];
    assert p[..|p| - 1] == logs[i][..n] && p[|p| - 1] == logs[i][n];
  }

  /** `cycle` lists processes each of which waits for a page the next one holds, the last for one the first holds. */
  ghost predicate WaitingCycle(logs: seq<seq<Event>>, at: seq<nat>, cycle: seq<nat>) {
    |cycle| > 0 && (forall c :: 0 <= c < |cycle| ==> Waits(logs, at, cycle[c])) &&
    forall c :: 0 <= c < |cycle| ==>
      var next := cycle[if c + 1 < |cycle| then c + 1 else 0];
      Wants(logs, at, cycle[c]) in Held(logs[next][..at[next]])
  }

  /** Along a chain of waiting processes the wanted pages come one after the other. */
  lemma {:induction false} ChainAscends(logs: seq<seq<Event>>, at: seq<nat>, cycle: seq<nat>, c: nat)
    requires WaitingCycle(logs, at, cycle) && 0 < c < |cycle|
    requires forall i :: 0 <= i < |logs| ==> Disciplined(logs[i])
    ensures Before(Wants(logs, at, cycle[0]), Wants(logs, at, cycle[c]))
  {
    assert Waits(logs, at, cycle[c]) && Waits(logs, at, cycle[c - 1]);
    WaiterHoldsEarlier(logs, at, cycle[c], Wants(logs, at, cycle[c - 1]));
    if c > 1 {
      ChainAscends(logs, at, cycle, c - 1);
    }
  }

  /** However many merges run at once, and wherever each has got to, they never wait for each other in a circle. */
  lemma NoWaitingCycle(logs: seq<seq<Event>>, at: seq<nat>, cycle: seq<nat>)
    requires forall i :: 0 <= i < |logs| ==> Disciplined(logs[i])
    ensures !WaitingCycle(logs, at, cycle)
  {
    if WaitingCycle(logs, at, cycle) {
      var n := |cycle| - 1;
      assert Waits(logs, at, cycle[0]) && Waits(logs, at, cycle[n]);
      WaiterHoldsEarlier(logs, at, cycle[0], Wants(logs, at, cycle[n]));
      if n > 0 {
        ChainAscends(logs, at, cycle, n);
      }
    }
  }
}
