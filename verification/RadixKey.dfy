/**
 Keys as strings of byte-sized chunks, read from the top level down.  Level `l`
 corresponds to the bit shift `8 * l`.
*/
module RadixKey {
  import opened RadixNode

  const MAX_LEVEL := 7
  const KEY_LIMIT := 0x1_0000_0000_0000_0000

  type Key = k: int | 0 <= k < KEY_LIMIT

  /** `k` shifted right by `l` bytes. */
  function Shr(k: nat, l: nat): nat {
    if l == 0 then k else Shr(k, l - 1) / 256
  }

  /** The chunk of `k` at level `l`. */
  function Chunk(k: nat, l: nat): uint8 {
    Shr(k, l) % 256
  }

  /** The largest key a tree of top level `l` can hold. */
  function MaxVal(l: nat): nat {
    if l == 0 then 255 else MaxVal(l - 1) * 256 + 255
  }

  lemma {:induction false} ShrInner(k: nat, l: nat)
    ensures Shr(k, l + 1) == Shr(k / 256, l)
  {
    if l > 0 {
      ShrInner(k, l - 1);
    }
  }

  lemma {:induction false} FitsIff(k: nat, l: nat)
    ensures k <= MaxVal(l) <==> Shr(k, l + 1) == 0
  {
    if l > 0 {
      FitsIff(k / 256, l - 1);
      ShrInner(k, l);
    }
  }

  lemma TopMax()
    ensures MaxVal(MAX_LEVEL) == KEY_LIMIT - 1
  {
    assert MaxVal(1) == 0xFFFF;
    assert MaxVal(2) == 0xFF_FFFF;
    assert MaxVal(3) == 0xFFFF_FFFF;
    assert MaxVal(4) == 0xFF_FFFF_FFFF;
    assert MaxVal(5) == 0xFFFF_FFFF_FFFF;
    assert MaxVal(6) == 0xFF_FFFF_FFFF_FFFF;
    assert MaxVal(7) == 0xFFFF_FFFF_FFFF_FFFF;
  }

  /** The position of the highest set bit. */
  function LeftmostOnePos(k: nat): nat
    requires k > 0
  {
    if k == 1 then 0 else LeftmostOnePos(k / 2) + 1
  }

  /** The smallest top level whose tree can hold the key. */
  function KeyLevel(k: nat): nat {
    if k == 0 then 0 else LeftmostOnePos(k) / 8
  }

  lemma HalfOnce(k: nat)
    requires k >= 2
    ensures LeftmostOnePos(k) == LeftmostOnePos(k / 2) + 1
  {
  }

  lemma LeftmostByte(k: nat)
    requires k >= 256
    ensures LeftmostOnePos(k) == LeftmostOnePos(k / 256) + 8
  {
    HalfOnce(k); HalfOnce(k / 2); HalfOnce(k / 4); HalfOnce(k / 8);
    HalfOnce(k / 16); HalfOnce(k / 32); HalfOnce(k / 64); HalfOnce(k / 128);
    assert k / 2 / 2 == k / 4 && k / 4 / 2 == k / 8 && k / 8 / 2 == k / 16 && k / 16 / 2 == k / 32;
    assert k / 32 / 2 == k / 64 && k / 64 / 2 == k / 128 && k / 128 / 2 == k / 256;
  }

  lemma LeftmostSmall(k: nat)
    requires 0 < k < 256
    ensures LeftmostOnePos(k) < 8
  {
    if k >= 2 { HalfOnce(k); }
    if k >= 4 { HalfOnce(k / 2); }
    if k >= 8 { HalfOnce(k / 4); }
    if k >= 16 { HalfOnce(k / 8); }
    if k >= 32 { HalfOnce(k / 16); }
    if k >= 64 { HalfOnce(k / 32); }
    if k >= 128 { HalfOnce(k / 64); }
  }

  /** `KeyLevel` is the least level the key fits at. */
  lemma {:induction false} KeyLevelLeast(k: nat)
    ensures Shr(k, KeyLevel(k) + 1) == 0
    ensures KeyLevel(k) > 0 ==> Shr(k, KeyLevel(k)) != 0
    decreases k
  {
    if 0 < k < 256 {
      LeftmostSmall(k);
      assert Shr(k, 1) == 0;
    } else if k >= 256 {
      LeftmostByte(k);
      KeyLevelLeast(k / 256);
      var l := KeyLevel(k / 256);
      assert KeyLevel(k) == l + 1;
      ShrInner(k, l + 1);
      ShrInner(k, l);
      assert l == 0 ==> Shr(k / 256, 0) != 0;
    }
  }

  /** Every 64-bit key's level is one of the eight levels a tree can have. */
  lemma KeyLevelBound(k: Key)
    ensures KeyLevel(k) <= MAX_LEVEL
  {
    TopMax();
    FitsIff(k, MAX_LEVEL);
    KeyLevelLeast(k);
    if KeyLevel(k) > MAX_LEVEL {
      ShrZero(k, MAX_LEVEL + 1, KeyLevel(k));
    }
  }

  lemma {:induction false} ShrZero(k: nat, l: nat, l': nat)
    requires Shr(k, l) == 0 && l <= l'
    ensures Shr(k, l') == 0
    decreases l'
  {
    if l < l' {
      ShrZero(k, l, l' - 1);
    }
  }
}
