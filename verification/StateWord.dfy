/**
 The state word of a page: its flags and counters as bits, and that it stores what `Seqlock` keeps.
*/
module StateWord {
  import opened Common
  import opened Seqlock

  // ---------------------------------------------------------------------------
  // The state word
  // ---------------------------------------------------------------------------

  // Bits 0-17 hold the tail of the waiter list, bit 18 the lock, bit 19 blocks reads, bits 20-51 hold the
  // change count and bits 52-55 the usage count.

  predicate IsLocked(s: bv64) {
    s & 0x0000000000040000 != 0
  }

  predicate ReadBlocked(s: bv64) {
    s & 0x0000000000080000 != 0
  }

  function CountOf(s: bv64): bv64 {
    s & 0x000FFFFFFFF00000
  }

  function UsageOf(s: bv64): bv64 {
    s & 0x00F0000000000000
  }

  function TailOf(s: bv64): bv64 {
    s & 0x000000000003FFFF
  }

  function LockWord(s: bv64): bv64 {
    s | 0x0000000000040000
  }

  function BlockReadWord(s: bv64): bv64 {
    s | 0x0000000000040000 | 0x0000000000080000
  }

  /** Unlocking clears both flags, installs the new waiter list, and raises the count if reads were blocked. */
  function UnlockWord(s: bv64, tail: bv64): bv64 {
    var cleared := s & !(0x000000000003FFFF | 0x0000000000040000 | 0x0000000000080000);
    if ReadBlocked(s) then
      (cleared & !0x000FFFFFFFF00000) |
        (((cleared & 0x000FFFFFFFF00000) + 0x0000000000100000) & 0x000FFFFFFFF00000) | tail
    else
      cleared | tail
  }

  /** The fields do not overlap, and together they fill the lowest 56 bits. */
  lemma FieldsFill(s: bv64)
    ensures s & 0x00FFFFFFFFFFFFFF == TailOf(s) | (s & 0x40000) | (s & 0x80000) | CountOf(s) | UsageOf(s)
    ensures IsLocked(s) <==> s & 0x40000 == 0x40000
    ensures ReadBlocked(s) <==> s & 0x80000 == 0x80000
    ensures TailOf(s) < 0x40000 && CountOf(s) & 0xFFFFF == 0 && CountOf(s) < 0x10000000000000
    ensures UsageOf(s) & 0xFFFFFFFFFFFFF == 0
  {
  }

  /** Locking and blocking reads leave the count, the waiters and the usage count alone. */
  lemma LockKeepsTheRest(s: bv64)
    ensures IsLocked(LockWord(s)) && ReadBlocked(LockWord(s)) == ReadBlocked(s)
    ensures IsLocked(BlockReadWord(s)) && ReadBlocked(BlockReadWord(s))
    ensures CountOf(LockWord(s)) == CountOf(s) && CountOf(BlockReadWord(s)) == CountOf(s)
    ensures TailOf(LockWord(s)) == TailOf(s) && TailOf(BlockReadWord(s)) == TailOf(s)
    ensures UsageOf(LockWord(s)) == UsageOf(s) && UsageOf(BlockReadWord(s)) == UsageOf(s)
  {
  }

  /** After unlocking the stored count changed exactly when reads had been blocked. */
  lemma UnlockMovesTheCount(s: bv64, tail: bv64)
    requires TailOf(tail) == tail
    ensures CountOf(UnlockWord(s, tail)) != CountOf(s) <==> ReadBlocked(s)
  {
    if ReadBlocked(s) {
      CountAfterUnlock(s, tail);
      CountStep(s);
    }
  }

  lemma CountAfterUnlock(s: bv64, tail: bv64)
    requires tail & 0x000000000003FFFF == tail
    ensures (((s & !0x00000000000FFFFF) & !0x000FFFFFFFF00000) |
             ((((s & !0x00000000000FFFFF) & 0x000FFFFFFFF00000) + 0x0000000000100000) & 0x000FFFFFFFF00000) | tail)
            & 0x000FFFFFFFF00000 == ((s & 0x000FFFFFFFF00000) + 0x0000000000100000) & 0x000FFFFFFFF00000
  {
  }

  lemma CountStep(s: bv64)
    ensures ((s & 0x000FFFFFFFF00000) + 0x0000000000100000) & 0x000FFFFFFFF00000 != s & 0x000FFFFFFFF00000
  {
  }

  /** After unlocking nobody holds the page; a step of the count never overflows into the usage count. */
  lemma UnlockFreesTheWord(s: bv64, tail: bv64)
    requires TailOf(tail) == tail
    ensures !IsLocked(UnlockWord(s, tail)) && !ReadBlocked(UnlockWord(s, tail))
    ensures UsageOf(UnlockWord(s, tail)) == UsageOf(s) && TailOf(UnlockWord(s, tail)) == tail
  {
    if ReadBlocked(s) {
      Replaced(s, ((s & !0x00000000000FFFFF) & 0x000FFFFFFFF00000) + 0x0000000000100000, tail);
    }
  }

  /** Whatever is put into the count bits, the other bits are those of the cleared word and the tail. */
  lemma Replaced(s: bv64, n: bv64, tail: bv64)
    requires tail & 0x000000000003FFFF == tail
    ensures var w := ((s & !0x00000000000FFFFF) & !0x000FFFFFFFF00000) | (n & 0x000FFFFFFFF00000) | tail;
            w & 0x0000000000040000 == 0 && w & 0x0000000000080000 == 0 &&
            w & 0x00F0000000000000 == s & 0x00F0000000000000 && w & 0x000000000003FFFF == tail
  {
  }

  // ---------------------------------------------------------------------------
  // The stored count as 32 bits
  // ---------------------------------------------------------------------------

  function Stored(s: bv64): bv32 {
    ((s >> 20) & 0xFFFFFFFF) as bv32
  }

  lemma StoredIsCount(s: bv64)
    ensures CountOf(s) == (Stored(s) as bv64) << 20 && Stored(CountOf(s)) == Stored(s)
  {
  }

  lemma SameStored(s: bv64, w: bv64)
    ensures CountOf(s) == CountOf(w) <==> Stored(s) == Stored(w)
  {
    StoredIsCount(s);
    StoredIsCount(w);
  }

  lemma NextStored(s: bv64, w: bv64)
    requires CountOf(w) == (CountOf(s) + 0x0000000000100000) & 0x000FFFFFFFF00000
    ensures Stored(w) == Stored(s) + 1
  {
    StoredIsCount(s);
    StoredIsCount(w);
    NextHigher(Stored(s), Stored(w));
  }

  lemma NextHigher(c: bv32, d: bv32)
    requires (d as bv64) << 20 == (((c as bv64) << 20) + 0x0000000000100000) & 0x000FFFFFFFF00000
    ensures d == c + 1
  {
  }

  /** Unlocking adds one to the stored count, which has 32 bits, exactly when reads had been blocked. */
  lemma UnlockCounts(s: bv64, tail: bv64)
    requires TailOf(tail) == tail
    ensures Stored(UnlockWord(s, tail)) == if ReadBlocked(s) then Stored(s) + 1 else Stored(s)
  {
    if ReadBlocked(s) {
      CountAfterUnlock(s, tail);
      NextStored(s, UnlockWord(s, tail));
    } else {
      UnlockMovesTheCount(s, tail);
      SameStored(s, UnlockWord(s, tail));
    }
  }

  // ---------------------------------------------------------------------------
  // It comes round after 2^32 changes
  // ---------------------------------------------------------------------------

  /** The stored count after `n` changes, from zero. */
  function Encode(n: nat): bv32 {
    Repeated(Next, 0, n)
  }

  function Next(c: bv32): bv32 {
    c + 1
  }

  function Repeated<W>(step: W -> W, s: W, n: nat): W {
    if n == 0 then s else step(Repeated(step, s, n - 1))
  }

  lemma {:induction false} RepeatedTwice<W(!new)>(step: W -> W, twice: W -> W, zero: W, n: nat)
    requires twice(zero) == zero && forall x {:trigger step(twice(x))} :: step(step(twice(x))) == twice(step(x))
    ensures Repeated(step, zero, n + n) == twice(Repeated(step, zero, n))
  {
    if n > 0 {
      RepeatedTwice(step, twice, zero, n - 1);
      assert Repeated(step, zero, n + n) == step(step(Repeated(step, zero, n - 1 + n - 1)));
    }
  }

  lemma {:induction false} RepeatedSame<W(!new)>(step: W -> W, zero: W, a: nat, d: nat)
    requires forall x, y {:trigger step(x), step(y)} :: step(x) == step(y) ==> x == y
    ensures Repeated(step, zero, a + d) == Repeated(step, zero, a) <==> Repeated(step, zero, d) == zero
  {
    if a > 0 {
      RepeatedSame(step, zero, a - 1, d);
    }
  }

  /** The lowest bit tells even from odd. */
  lemma {:induction false} Parity(n: nat)
    ensures Encode(n) & 1 == 0 <==> n % 2 == 0
  {
    if n > 0 {
      Parity(n - 1);
      FlipLowest(Encode(n - 1));
    }
  }

  lemma FlipLowest(c: bv32)
    ensures (c + 1) & 1 == 0 <==> c & 1 != 0
  {
  }

  /** The numbers of changes after which the bits of a mask are all clear. */
  function Clear(m: bv32): nat -> bool {
    (n: nat) => Encode(n) & m == 0
  }

  function Times(q: nat, t: nat): nat {
    q * t
  }

  ghost predicate Multiple(n: nat, q: nat) {
    exists t: nat {:trigger Times(q, t)} :: n == Times(q, t)
  }

  /** These are exactly the multiples of `q`. */
  ghost predicate Marks(clear: nat -> bool, q: nat) {
    forall n: nat {:trigger clear(n)} :: clear(n) <==> Multiple(n, q)
  }

  lemma TwiceMultiple(n: nat, q: nat, q': nat)
    requires q' == 2 * q
    ensures Multiple(n + n, q') <==> Multiple(n, q)
  {
    if Multiple(n + n, q') {
      var t: nat :| n + n == Times(q', t);
      assert n == Times(q, t);
    }
    if Multiple(n, q) {
      var t: nat :| n == Times(q, t);
      assert n + n == Times(q', t);
    }
  }

  lemma MultipleIsEven(n: nat, q: nat, q': nat)
    requires q' == 2 * q && Multiple(n, q')
    ensures n % 2 == 0
  {
    var t: nat :| n == Times(q', t);
    assert n == 2 * Times(q, t);
  }

  /** With one bit more, no odd number and the doubles of the others. */
  lemma TwiceMarked(clear: nat -> bool, clear': nat -> bool, q: nat, q': nat)
    requires q' == 2 * q && Marks(clear, q)
    requires forall n: nat {:trigger clear(n)} :: clear'(n + n) <==> clear(n)
    requires forall n: nat {:trigger clear'(n)} :: clear'(n) ==> n % 2 == 0
    ensures Marks(clear', q')
  {
    forall n: nat {:trigger clear'(n)} ensures clear'(n) <==> Multiple(n, q') {
      var e := n / 2;
      assert clear(e) <==> Multiple(e, q);
      TwiceMultiple(e, q, q');
      if Multiple(n, q') {
        MultipleIsEven(n, q, q');
      }
    }
  }

  function Twice(c: bv32): bv32 {
    c << 1
  }

  lemma EncodeTwice(n: nat)
    ensures Encode(n + n) == Twice(Encode(n))
  {
    forall c: bv32 ensures Next(Next(Twice(c))) == Twice(Next(c)) {
    }
    RepeatedTwice(Next, Twice, 0, n);
  }

  lemma MaskedTwice(c: bv32, m: bv32, m': bv32)
    requires m & 0x7FFFFFFF == m && m' == (m << 1) | 1
    ensures Twice(c) & m' == 0 <==> c & m == 0
    ensures c & m' == 0 ==> c & 1 == 0
  {
  }

  lemma ClearTwice(m: bv32, m': bv32, n: nat)
    requires m & 0x7FFFFFFF == m && m' == (m << 1) | 1
    ensures Clear(m')(n + n) <==> Clear(m)(n)
    ensures Clear(m')(n) ==> n % 2 == 0
  {
    EncodeTwice(n);
    MaskedTwice(Encode(n), m, m');
    Parity(n);
  }

  lemma MarksNext(m: bv32, q: nat, m': bv32, q': nat)
    requires q' == 2 * q && m & 0x7FFFFFFF == m && m' == (m << 1) | 1 && Marks(Clear(m), q)
    ensures Marks(Clear(m'), q')
  {
    var clear, clear' := Clear(m), Clear(m');
    forall n: nat ensures (clear'(n + n) <==> clear(n)) && (clear'(n) ==> n % 2 == 0) {
      ClearTwice(m, m', n);
    }
    TwiceMarked(clear, clear', q, q');
  }

  lemma Marks0()
    ensures Marks(Clear(0), 1)
  {
    forall n: nat ensures Clear(0)(n) && Multiple(n, 1) {
      assert n == Times(1, n);
    }
  }

  lemma Marks8()
    ensures Marks(Clear(0xFF), 0x100)
  {
    Marks0();
    MarksNext(0x0, 0x1, 0x1, 0x2);
    MarksNext(0x1, 0x2, 0x3, 0x4);
    MarksNext(0x3, 0x4, 0x7, 0x8);
    MarksNext(0x7, 0x8, 0xF, 0x10);
    MarksNext(0xF, 0x10, 0x1F, 0x20);
    MarksNext(0x1F, 0x20, 0x3F, 0x40);
    MarksNext(0x3F, 0x40, 0x7F, 0x80);
    MarksNext(0x7F, 0x80, 0xFF, 0x100);
  }

  lemma Marks16()
    ensures Marks(Clear(0xFFFF), 0x10000)
  {
    Marks8();
    MarksNext(0xFF, 0x100, 0x1FF, 0x200);
    MarksNext(0x1FF, 0x200, 0x3FF, 0x400);
    MarksNext(0x3FF, 0x400, 0x7FF, 0x800);
    MarksNext(0x7FF, 0x800, 0xFFF, 0x1000);
    MarksNext(0xFFF, 0x1000, 0x1FFF, 0x2000);
    MarksNext(0x1FFF, 0x2000, 0x3FFF, 0x4000);
    MarksNext(0x3FFF, 0x4000, 0x7FFF, 0x8000);
    MarksNext(0x7FFF, 0x8000, 0xFFFF, 0x10000);
  }

  lemma Marks24()
    ensures Marks(Clear(0xFFFFFF), 0x1000000)
  {
    Marks16();
    MarksNext(0xFFFF, 0x10000, 0x1FFFF, 0x20000);
    MarksNext(0x1FFFF, 0x20000, 0x3FFFF, 0x40000);
    MarksNext(0x3FFFF, 0x40000, 0x7FFFF, 0x80000);
    MarksNext(0x7FFFF, 0x80000, 0xFFFFF, 0x100000);
    MarksNext(0xFFFFF, 0x100000, 0x1FFFFF, 0x200000);
    MarksNext(0x1FFFFF, 0x200000, 0x3FFFFF, 0x400000);
    MarksNext(0x3FFFFF, 0x400000, 0x7FFFFF, 0x800000);
    MarksNext(0x7FFFFF, 0x800000, 0xFFFFFF, 0x1000000);
  }

  lemma Marks32()
    ensures Marks(Clear(0xFFFFFFFF), 0x100000000)
  {
    Marks24();
    MarksNext(0xFFFFFF, 0x1000000, 0x1FFFFFF, 0x2000000);
    MarksNext(0x1FFFFFF, 0x2000000, 0x3FFFFFF, 0x4000000);
    MarksNext(0x3FFFFFF, 0x4000000, 0x7FFFFFF, 0x8000000);
    MarksNext(0x7FFFFFF, 0x8000000, 0xFFFFFFF, 0x10000000);
    MarksNext(0xFFFFFFF, 0x10000000, 0x1FFFFFFF, 0x20000000);
    MarksNext(0x1FFFFFFF, 0x20000000, 0x3FFFFFFF, 0x40000000);
    MarksNext(0x3FFFFFFF, 0x40000000, 0x7FFFFFFF, 0x80000000);
    MarksNext(0x7FFFFFFF, 0x80000000, 0xFFFFFFFF, 0x100000000);
  }

  lemma SameRemainder(a: nat, d: nat)
    ensures (a + d) % COUNT_LIMIT == a % COUNT_LIMIT <==> d % COUNT_LIMIT == 0
  {
    assert (a + d) % COUNT_LIMIT == (a % COUNT_LIMIT + d % COUNT_LIMIT) % COUNT_LIMIT;
  }

  lemma AllBits(c: bv32)
    ensures c & 0xFFFFFFFF == c
  {
  }

  lemma Comes(n: nat)
    ensures Encode(n) == 0 <==> n % COUNT_LIMIT == 0
  {
    Marks32();
    AllBits(Encode(n));
    assert Clear(0xFFFFFFFF)(n) <==> Multiple(n, 0x100000000);
    MultipleOfLimit(n);
  }

  lemma MultipleOfLimit(n: nat)
    ensures Multiple(n, 0x100000000) <==> n % COUNT_LIMIT == 0
  {
    if n % COUNT_LIMIT == 0 {
      assert n == Times(0x100000000, n / COUNT_LIMIT);
    }
  }

  lemma EncodeSameAbove(a: nat, d: nat)
    ensures Encode(a + d) == Encode(a) <==> d % COUNT_LIMIT == 0
  {
    forall x: bv32, y: bv32 ensures Next(x) == Next(y) ==> x == y {
    }
    RepeatedSame(Next, 0, a, d);
    Comes(d);
  }

  /** The stored count is the same again exactly after a multiple of 2^32 changes. */
  lemma EncodeSame(a: nat, b: nat)
    ensures Encode(a) == Encode(b) <==> a % COUNT_LIMIT == b % COUNT_LIMIT
  {
    if a <= b {
      EncodeSameAbove(a, b - a);
      SameRemainder(a, b - a);
    } else {
      EncodeSameAbove(b, a - b);
      SameRemainder(b, a - b);
    }
  }

  // ---------------------------------------------------------------------------
  // The word stands for the page
  // ---------------------------------------------------------------------------

  /** The word has the page's flags, and the page's count as far as 32 bits hold it. */
  ghost predicate WordIs(s: bv64, p: Page) {
    (IsLocked(s) <==> p.holder.Some?) && (ReadBlocked(s) <==> p.noRead) && Stored(s) == Encode(p.count)
  }

  /** What a step of a writer does to the word; `tail` is the waiter list left by an unlock. */
  function WordAfter(s: bv64, w: Write, tail: bv64): bv64 {
    match w
    case Lock(_) => LockWord(s)
    case BlockReads(_) => BlockReadWord(s)
    case Store(_, _, _) => s
    case Unlock(_) => UnlockWord(s, tail)
  }

  /** Each step of a writer keeps the word in step with the page. */
  lemma WordKeeps(s: bv64, p: Page, w: Write, tail: bv64)
    requires WordIs(s, p) && CanWrite(p, w) && TailOf(tail) == tail
    ensures WordIs(WordAfter(s, w, tail), AfterWrite(p, w))
  {
    match w
    case Lock(_) =>
      LockKeepsTheRest(s);
      SameStored(s, LockWord(s));
    case BlockReads(_) =>
      LockKeepsTheRest(s);
      SameStored(s, BlockReadWord(s));
    case Store(_, _, _) =>
    case Unlock(_) =>
      UnlockFreesTheWord(s, tail);
      UnlockCounts(s, tail);
  }

  function PageAfter(p: Page, ws: seq<Write>): Page {
    if ws == [] then p else AfterWrite(PageAfter(p, ws[..|ws| - 1]), ws[|ws| - 1])
  }

  predicate CanWriteAll(p: Page, ws: seq<Write>) {
    ws == [] || (CanWriteAll(p, ws[..|ws| - 1]) && CanWrite(PageAfter(p, ws[..|ws| - 1]), ws[|ws| - 1]))
  }

  function WordAfterAll(s: bv64, ws: seq<Write>, tails: seq<bv64>): bv64
    requires |tails| == |ws|
  {
    if ws == [] then s
    else WordAfter(WordAfterAll(s, ws[..|ws| - 1], tails[..|ws| - 1]), ws[|ws| - 1], tails[|ws| - 1])
  }

  /** After any steps of any writers the word stands for the page. */
  lemma {:induction false} WordRuns(s: bv64, p: Page, ws: seq<Write>, tails: seq<bv64>)
    requires WordIs(s, p) && CanWriteAll(p, ws) && |tails| == |ws|
    requires forall i :: 0 <= i < |tails| ==> TailOf(tails[i]) == tails[i]
    ensures WordIs(WordAfterAll(s, ws, tails), PageAfter(p, ws))
  {
    if ws != [] {
      var n := |ws| - 1;
      WordRuns(s, p, ws[..n], tails[..n]);
      WordKeeps(WordAfterAll(s, ws[..n], tails[..n]), PageAfter(p, ws[..n]), ws[n], tails[n]);
    }
  }

  /** The reader's check on the word is the check that `Seqlock` makes on the page. */
  lemma WordCheck(s: bv64, p: Page, noted: bv64, c: nat)
    requires WordIs(s, p) && Stored(noted) == Encode(c)
    ensures !ReadBlocked(s) && CountOf(s) == CountOf(noted) <==> Validates(p, c)
  {
    SameStored(s, noted);
    EncodeSame(p.count, c);
  }

  /** The word after one change of the page, with nobody waiting. */
  function Changed(s: bv64): bv64 {
    UnlockWord(BlockReadWord(s), 0x000000000003FFFF)
  }

  lemma ChangeCounts(s: bv64)
    ensures Stored(Changed(s)) == Next(Stored(s))
  {
    LockKeepsTheRest(s);
    SameStored(s, BlockReadWord(s));
    UnlockCounts(BlockReadWord(s), 0x000000000003FFFF);
  }

  lemma {:induction false} RepeatedCounts<V(!new), W(!new)>(
      change: V -> V, count: V -> W, next: W -> W, s: V, w: W, n: nat, k: nat)
    requires count(s) == Repeated(next, w, n)
    requires forall v {:trigger change(v)} :: count(change(v)) == next(count(v))
    ensures count(Repeated(change, s, k)) == Repeated(next, w, n + k)
  {
    if k > 0 {
      RepeatedCounts(change, count, next, s, w, n, k - 1);
    }
  }

  /** After `k` changes the stored count is the first one plus `k`: it is the first one again exactly when `k` is
      a multiple of 2^32. */
  lemma CountAfter(s: bv64, n: nat, k: nat)
    requires Stored(s) == Encode(n)
    ensures Stored(Repeated(Changed, s, k)) == Encode(n + k)
    ensures CountOf(Repeated(Changed, s, k)) == CountOf(s) <==> k % COUNT_LIMIT == 0
  {
    forall v: bv64 ensures Stored(Changed(v)) == Next(Stored(v)) {
      ChangeCounts(v);
    }
    RepeatedCounts(Changed, Stored, Next, s, 0, n, k);
    SameStored(Repeated(Changed, s, k), s);
    EncodeSameAbove(n, k);
  }
}
