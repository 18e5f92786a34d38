/** Bit masks of channels, and the three ways the position of a kept channel is computed. */
module Ranks {
  import opened Numbers

  // a 32-bit mask
  type Mask = m: nat | m < 0x1_0000_0000

  /** Bit i of a mask: m & (1 << i). */
  predicate Bit(m: nat, i: nat) {
    if i == 0 then m % 2 == 1 else Bit(m / 2, i - 1)
  }

  /** The lowest n bits, lowest first; channel i is bit i. */
  function LowFirst(m: nat, n: nat): (f: seq<bool>)
    ensures |f| == n && forall i | 0 <= i < n :: f[i] == Bit(m, i)
  {
    seq(n, i requires 0 <= i < n => Bit(m, i))
  }

  /** The lowest n bits, highest first; channel i is bit n - 1 - i. */
  function HighFirst(m: nat, n: nat): (f: seq<bool>)
    ensures |f| == n && forall i | 0 <= i < n :: f[i] == Bit(m, n - 1 - i)
  {
    seq(n, i requires 0 <= i < n => Bit(m, n - 1 - i))
  }

  function Trues(f: seq<bool>): (n: nat)
    ensures n <= |f|
  {
    if f == [] then 0 else Trues(f[..|f| - 1]) + if f[|f| - 1] then 1 else 0
  }

  /** How many channels before channel i are kept. */
  function Rank(f: seq<bool>, i: nat): nat
    requires i <= |f|
  {
    Trues(f[..i])
  }

  /** The kept channels in order. */
  function Kept(f: seq<bool>): (k: seq<nat>)
    ensures |k| == Trues(f)
  {
    if f == [] then [] else Kept(f[..|f| - 1]) + if f[|f| - 1] then [|f| - 1] else []
  }

  lemma RankNext(f: seq<bool>, i: nat)
    requires i < |f|
    ensures Rank(f, i + 1) == Rank(f, i) + if f[i] then 1 else 0
  {
    assert f[..i + 1][..i] == f[..i];
  }

  /** A kept channel's rank is its place among the kept ones. */
  lemma {:induction false} KeptAt(f: seq<bool>, i: nat)
    requires i < |f| && f[i]
    ensures Rank(f, i) < |Kept(f)| && Kept(f)[Rank(f, i)] == i
  {
    var g := f[..|f| - 1];
    if i == |f| - 1 {
      assert f[..i] == g;
    } else {
      KeptAt(g, i);
      assert g[..i] == f[..i];
    }
  }

  /** And every place among them is the rank of the channel there. */
  lemma {:induction false} KeptIs(f: seq<bool>, p: nat)
    requires p < |Kept(f)|
    ensures Kept(f)[p] < |f| && f[Kept(f)[p]] && Rank(f, Kept(f)[p]) == p
  {
    var g := f[..|f| - 1];
    if p < |Kept(g)| {
      KeptIs(g, p);
      assert g[..Kept(g)[p]] == f[..Kept(g)[p]];
    } else {
      assert f[..|f| - 1] == g;
    }
  }

  /* ---- counting ---- */

  function Ones(m: nat): nat {
    if m == 0 then 0 else m % 2 + Ones(m / 2)
  }

  lemma {:induction false} TruesFirst(f: seq<bool>)
    requires f != []
    ensures Trues(f) == (if f[0] then 1 else 0) + Trues(f[1..])
  {
    if |f| > 1 {
      var g := f[..|f| - 1];
      TruesFirst(g);
      assert g[1..] == f[1..][..|f| - 2];
    }
  }

  lemma {:induction false} OnesTrues(m: nat, n: nat)
    requires m < Pow2(n)
    ensures Ones(m) == Trues(LowFirst(m, n))
  {
    var f := LowFirst(m, n);
    if n == 0 {
    } else {
      OnesTrues(m / 2, n - 1);
      TruesFirst(f);
      assert f[1..] == LowFirst(m / 2, n - 1);
      assert f[0] == (m % 2 == 1);
    }
  }

  /** The lowest k bits as a mask. */
  function Cut(m: nat, k: nat): (c: nat)
    ensures c < Pow2(k)
  {
    if k == 0 then 0 else m % 2 + 2 * Cut(m / 2, k - 1)
  }

  lemma {:induction false} CutBit(m: nat, k: nat, i: nat)
    ensures Bit(Cut(m, k), i) == (i < k && Bit(m, i))
  {
    if k == 0 {
      NoBit(i);
    } else {
      var c := Cut(m / 2, k - 1);
      OneQuotient(Cut(m, k), 2, c, m % 2);
      hide Cut;
      if i > 0 {
        CutBit(m / 2, k - 1, i - 1);
      }
    }
  }

  lemma {:induction false} NoBit(i: nat)
    ensures !Bit(0, i)
  {
    if i > 0 {
      NoBit(i - 1);
    }
  }

  lemma CutTrues(m: nat, k: nat)
    ensures Ones(Cut(m, k)) == Trues(LowFirst(m, k))
  {
    OnesTrues(Cut(m, k), k);
    forall i | 0 <= i < k ensures LowFirst(Cut(m, k), k)[i] == LowFirst(m, k)[i] {
      CutBit(m, k, i);
    }
    assert LowFirst(Cut(m, k), k) == LowFirst(m, k);
  }

  // sub_count_bits
  method CountBits(mask: Mask) returns (val: nat)
    ensures val == Trues(LowFirst(mask, 32)) == Ones(mask)
  {
    PowValues();
    OnesTrues(mask, 32);
    var m: nat := mask;
    val := 0;
    while m != 0
      invariant val + Ones(m) == Ones(mask)
    {
      if m % 2 == 1 {
        val := val + 1;
      }
      m := m / 2;
    }
  }

  /** The place of bit b among the set bits, or -1. */
  function PlaceOf(f: seq<bool>, i: nat): int
    requires i < |f|
  {
    if f[i] then Rank(f, i) else -1
  }

  /** Counts the set bits up to bit b, starting from -1. */
  method CountUpTo(bitmask: nat, b: nat) returns (nbits: int)
    requires b < 32
    ensures nbits == PlaceOf(LowFirst(bitmask, 32), b)
  {
    nbits := -1;
    if Bit(bitmask, b) {
      var f := LowFirst(bitmask, 32);
      var countmask := Cut(bitmask, b + 1);
      CutTrues(bitmask, b + 1);
      assert f[..b + 1] == LowFirst(bitmask, b + 1);
      RankNext(f, b);
      ghost var all := Ones(countmask);
      while countmask != 0
        invariant nbits + 1 + Ones(countmask) == all
      {
        if countmask % 2 == 1 {
          nbits := nbits + 1;
        }
        countmask := countmask / 2;
      }
    }
  }

  // sub_feed_nset_bits
  method NsetBits(mybit: nat, bitmask: Mask) returns (val: int)
    requires mybit < 32
    ensures val == PlaceOf(LowFirst(bitmask, 32), mybit)
  {
    val := CountUpTo(bitmask, mybit);
  }

  /* ---- reversal ---- */

  lemma {:induction false} ShiftBit(m: nat, s: nat, i: nat)
    ensures Bit(m * Pow2(s), i) == (i >= s && Bit(m, i - s))
    decreases s
  {
    if s > 0 {
      var h := m * Pow2(s - 1);
      assert m * Pow2(s) == 2 * h;
      if i > 0 {
        assert (2 * h) / 2 == h;
        ShiftBit(m, s - 1, i - 1);
      }
    }
  }

  lemma {:induction false} ZeroAbove(m: nat, t: nat, i: nat)
    requires m < Pow2(t) && i >= t
    ensures !Bit(m, i)
  {
    if t == 0 {
      NoBit(i);
    } else {
      ZeroAbove(m / 2, t - 1, i - 1);
    }
  }

  lemma {:induction false} BitDown(m: nat, t: nat, i: nat)
    ensures Bit(m, t + i) == Bit(Down(m, t), i)
  {
    if t > 0 {
      BitDown(m / 2, t - 1, i);
    }
  }

  /** m >> t */
  function Down(m: nat, t: nat): nat {
    if t == 0 then m else Down(m / 2, t - 1)
  }

  lemma {:induction false} DownNext(m: nat, t: nat)
    ensures Down(m, t + 1) == Down(m, t) / 2
  {
    if t > 0 {
      DownNext(m / 2, t - 1);
    }
  }

  lemma {:induction false} DownZero(m: nat, n: nat)
    ensures Down(m, n) == 0 <==> m < Pow2(n)
  {
    if n > 0 {
      DownZero(m / 2, n - 1);
    }
  }

  ghost predicate Backwards(mask: nat, rev: nat, t: nat) {
    forall j | 0 <= j <= t :: Bit(rev, j) == Bit(mask, t - j)
  }

  /** The loop that reverses the lowest n bits; what it leaves above them is cut off. */
  method Reverse(mask: Mask, n: nat) returns (r: nat)
    requires 1 <= n < 32 && mask < Pow2(n)
    ensures LowFirst(r, n) == HighFirst(mask, n) && r < Pow2(n)
  {
    var rev: nat := mask;
    assert Backwards(mask, rev, 0) && Down(mask, 0) == mask;
    hide Backwards, Cut, Bit, Down, Pow2;
    var s := n - 1;
    ghost var t := 0;
    var bitmask := mask / 2;
    DownNext(mask, 0);
    while bitmask != 0
      invariant 0 <= s == n - 1 - t && bitmask == Down(mask, t + 1)
      invariant Backwards(mask, rev, t)
      decreases bitmask
    {
      if s == 0 {
        DownZero(mask, n);
        assert false;
      }
      OneBitMore(mask, rev, t);
      rev := Cut(2 * rev + bitmask % 2, 32);
      DownNext(mask, t + 1);
      s := s - 1;
      t := t + 1;
      bitmask := bitmask / 2;
    }
    DownZero(mask, t + 1);
    r := Cut(rev * Pow2(s), n);
    MovedUp(mask, rev, n, t);
  }

  /** One pass of its loop: t + 1 bits are reversed, one more follows. */
  lemma OneBitMore(mask: nat, rev: nat, t: nat)
    requires t + 1 < 32 && Backwards(mask, rev, t)
    ensures Backwards(mask, Cut(2 * rev + Down(mask, t + 1) % 2, 32), t + 1)
  {
    hide Cut, Down;
    BitDown(mask, t + 1, 0);
    var wide := 2 * rev + Down(mask, t + 1) % 2;
    assert wide / 2 == rev && wide % 2 == Down(mask, t + 1) % 2;
    forall j | 0 <= j <= t + 1 ensures Bit(Cut(wide, 32), j) == Bit(mask, t + 1 - j) {
      CutBit(wide, 32, j);
      assert j > 0 ==> Bit(wide, j) == Bit(rev, j - 1);
    }
  }

  /** The last shift, when the mask has no bit above bit t. */
  lemma MovedUp(mask: nat, rev: nat, n: nat, t: nat)
    requires t < n && mask < Pow2(t + 1) && Backwards(mask, rev, t)
    ensures LowFirst(Cut(rev * Pow2(n - 1 - t), n), n) == HighFirst(mask, n)
  {
    hide Cut, Bit;
    var s := n - 1 - t;
    var r := Cut(rev * Pow2(s), n);
    forall j | 0 <= j < n ensures Bit(r, j) == Bit(mask, n - 1 - j) {
      CutBit(rev * Pow2(s), n, j);
      ShiftBit(rev, s, j);
      if j < s {
        ZeroAbove(mask, t + 1, n - 1 - j);
      }
    }
  }

  lemma PlacePrefix(f: seq<bool>, g: seq<bool>, i: nat)
    requires i < |g| <= |f| && f[..|g|] == g
    ensures PlaceOf(f, i) == PlaceOf(g, i)
  {
    assert f[..i] == g[..i];
    assert f[i] == f[..|g|][i];
  }

  // sub_feed_nset_bits_rev
  method NsetBitsRev(mybit: nat, bitmask: Mask, n: nat) returns (val: int)
    requires 1 <= n < 32 && bitmask < Pow2(n) && mybit < n
    ensures val == PlaceOf(HighFirst(bitmask, n), mybit)
  {
    var rev := Reverse(bitmask, n);
    val := CountUpTo(rev, mybit);
    assert LowFirst(rev, 32)[..n] == LowFirst(rev, n);
    PlacePrefix(LowFirst(rev, 32), HighFirst(bitmask, n), mybit);
  }

  /* ---- split_bits ---- */

  const OUTPUTS := 12

  /** Channels whose output has the right type; the others are neither written nor counted. */
  function Typed(f: seq<bool>, long: seq<bool>): (g: seq<bool>)
    requires |f| <= |long|
    ensures |g| == |f| && forall i | 0 <= i < |f| :: g[i] == (f[i] && long[i])
  {
    seq(|f|, i requires 0 <= i < |f| => f[i] && long[i])
  }

  // asub_split_bits
  method SplitBits(a: Mask, noutput: nat, long: seq<bool>, outputs: array<int>) returns (bitcnt: nat, nout: nat)
    requires |long| == outputs.Length == OUTPUTS
    modifies outputs
    ensures nout == if 0 < noutput < OUTPUTS then noutput else OUTPUTS
    ensures var g := Typed(HighFirst(a, nout), long);
      && bitcnt == Trues(g)
      && forall i | 0 <= i < OUTPUTS :: outputs[i] == if i < nout && long[i] then PlaceOf(g, i) else old(outputs[i])
  {
    nout := if 0 < noutput < OUTPUTS then noutput else OUTPUTS;
    ghost var g := Typed(HighFirst(a, nout), long);
    bitcnt := 0;
    var mask: Mask := a;
    var i := 0;
    assert g[..0] == [] && g[..nout] == g && Moved(mask, a, 0);
    hide Bit, Moved, PlaceOf, Trues;
    while i < nout
      invariant 0 <= i <= nout && bitcnt == Rank(g, i) && Moved(mask, a, i)
      invariant forall x | 0 <= x < OUTPUTS :: outputs[x] == if x < i && long[x] then PlaceOf(g, x) else old(outputs[x])
    {
      RankNext(g, i);
      TopBit(mask, a, i, nout, long);
      if long[i] {
        if Bit(mask, nout - 1) {
          outputs[i] := bitcnt;
          bitcnt := bitcnt + 1;
        } else {
          outputs[i] := -1;
        }
      }
      mask := ShiftLeft(mask, a, i);
      i := i + 1;
    }
  }

  /** The mask after i shifts. */
  ghost predicate Moved(mask: nat, a: nat, i: nat) {
    forall j | i <= j < 32 :: Bit(mask, j) == Bit(a, j - i)
  }

  lemma TopBit(mask: nat, a: nat, i: nat, n: nat, long: seq<bool>)
    requires Moved(mask, a, i) && i < n <= |long| && n <= 32
    ensures var g := Typed(HighFirst(a, n), long);
      g[i] == (long[i] && Bit(mask, n - 1)) && PlaceOf(g, i) == if g[i] then Rank(g, i) else -1
  {
  }

  /** mask <<= 1 on 32 bits. */
  method ShiftLeft(mask: Mask, ghost a: Mask, ghost i: nat) returns (r: Mask)
    requires Moved(mask, a, i)
    ensures Moved(r, a, i + 1)
  {
    PowValues();
    r := Cut(2 * mask, 32);
    forall j | i + 1 <= j < 32 ensures Bit(r, j) == Bit(a, j - i - 1) {
      CutBit(2 * mask, 32, j);
      assert (2 * mask) / 2 == mask;
    }
  }

  /** With every output typed, split_bits gives the places that the reversed count gives; an
      untyped output takes its channel out of the count of those behind it. */
  lemma SplitAgrees(m: Mask, n: nat, long: seq<bool>, i: nat)
    requires i < n <= |long| && long[i]
    ensures var f := HighFirst(m, n);
      PlaceOf(Typed(f, long), i) == PlaceOf(f, i) <==> (!f[i] || forall j | 0 <= j < i :: f[j] ==> long[j])
  {
    var f := HighFirst(m, n);
    TypedRank(f, long, i);
  }

  lemma {:induction false} TypedRank(f: seq<bool>, long: seq<bool>, i: nat)
    requires i <= |f| <= |long|
    ensures Rank(Typed(f, long), i) <= Rank(f, i)
    ensures Rank(Typed(f, long), i) == Rank(f, i) <==> forall j | 0 <= j < i :: f[j] ==> long[j]
  {
    var g := Typed(f, long);
    if i == 0 {
      assert f[..0] == [] && g[..0] == [];
    } else {
      TypedRank(f, long, i - 1);
      RankNext(f, i - 1);
      RankNext(g, i - 1);
    }
  }
}
