/** Interleaving the kept channels into one buffer, as the simulated devices do, and pulling one
    channel out again. */
module Demux {
  import opened Numbers
  import opened Ranks
  import opened Strides

  /** What a simulated signal yields: a sample for every round and channel. */
  type Signal = (nat, nat) -> int

  /** Round after round, one sample of each kept channel in order. */
  ghost predicate Interleaved(buf: seq<int>, f: seq<bool>, s: Signal) {
    Trues(f) > 0 && forall x | 0 <= x < |buf| :: buf[x] == SampleAt(f, s, x)
  }

  function SampleAt(f: seq<bool>, s: Signal, x: nat): int
    requires Trues(f) > 0
  {
    s(x / Trues(f), ChannelAt(f, x))
  }

  /** The channel whose turn it is at position x. */
  function ChannelAt(f: seq<bool>, x: nat): nat
    requires Trues(f) > 0
  {
    Kept(f)[x % Trues(f)]
  }

  /** One channel's samples, as many as are asked for. */
  function Samples(s: Signal, ch: nat, n: nat): seq<int> {
    seq(n, j requires 0 <= j < n => s(j, ch))
  }

  lemma SampleOf(f: seq<bool>, s: Signal, ch: nat, j: nat)
    requires Trues(f) > 0 && ch < |f| && f[ch]
    ensures SampleAt(f, s, Rank(f, ch) + j * Trues(f)) == s(j, ch)
  {
    hide Trues, Rank, Kept;
    KeptAt(f, ch);
    var k, p := Trues(f), Rank(f, ch);
    var x := p + j * k;
    OneQuotient(x, k, j, p);
    assert x / k == j && x % k == p;
  }

  /** A copy that starts at the channel's rank and steps by the number of kept channels, up to any
      bound, returns that channel's samples. */
  lemma DemuxUpTo(buf: seq<int>, f: seq<bool>, s: Signal, ch: nat, bound: nat, n: nat)
    requires Interleaved(buf, f, s) && ch < |f| && f[ch] && bound <= |buf| && Fits(Rank(f, ch), Trues(f), bound) <= n
    ensures Gathered(buf, Rank(f, ch), Trues(f), bound, n) == Samples(s, ch, Fits(Rank(f, ch), Trues(f), bound))
  {
    hide SampleAt, Gathered, Fits;
    var p, k := Rank(f, ch), Trues(f);
    var g := Gathered(buf, p, k, bound, n);
    GatheredAt(buf, p, k, bound, n, 0);
    forall j | 0 <= j < |g| ensures g[j] == s(j, ch) {
      GatheredAt(buf, p, k, bound, n, j);
      SampleOf(f, s, ch, j);
    }
  }

  /** THE DEMUX THEOREM. Offset by rank and step by count undo the interleaving, for every channel
      that is kept, with as many samples as the buffer holds. */
  lemma DemuxInverts(buf: seq<int>, f: seq<bool>, s: Signal, ch: nat)
    requires Interleaved(buf, f, s) && ch < |f| && f[ch]
    ensures Gathered(buf, Rank(f, ch), Trues(f), |buf|, |buf|) == Samples(s, ch, Fits(Rank(f, ch), Trues(f), |buf|))
  {
    FitsBound(Rank(f, ch), Trues(f), |buf|);
    DemuxUpTo(buf, f, s, ch, |buf|, |buf|);
  }

  lemma FitsBound(i: nat, step: nat, bound: nat)
    requires step > 0
    ensures Fits(i, step, bound) <= bound
  {
    if i < bound {
      Divides(bound - i + step - 1, step);
      var q := (bound - i + step - 1) / step;
      if q > bound {
        AtLeast(step, q - 1);
        Distribute(q, 1, step);
      }
    }
  }

  /** Position x holds sample j of channel c. */
  predicate Owns(f: seq<bool>, c: nat, j: nat, x: nat) {
    c < |f| && f[c] && x == Rank(f, c) + j * Trues(f)
  }

  /** The slices of the kept channels partition the buffer: every position belongs to one sample
      of exactly one of them. */
  lemma SlicesPartition(f: seq<bool>, x: nat)
    requires Trues(f) > 0
    ensures Owns(f, ChannelAt(f, x), x / Trues(f), x)
    ensures forall c, j | Owns(f, c, j, x) :: c == ChannelAt(f, x) && j == x / Trues(f)
  {
    hide Trues, Rank, Kept;
    KeptIs(f, x % Trues(f));
    Divides(x, Trues(f));
    forall c, j | Owns(f, c, j, x) ensures c == ChannelAt(f, x) && j == x / Trues(f) {
      Owner(f, c, j, x);
    }
  }

  lemma Owner(f: seq<bool>, c: nat, j: nat, x: nat)
    requires Owns(f, c, j, x)
    ensures Trues(f) > 0 && c == ChannelAt(f, x) && j == x / Trues(f)
  {
    hide Trues, Rank, Kept;
    KeptAt(f, c);
    OneQuotient(x, Trues(f), j, Rank(f, c));
  }

  /* ---- the writers ---- */

  /** The buffer as the writers leave it when it is full up to x. */
  ghost predicate FullTo(buf: seq<int>, f: seq<bool>, s: Signal, x: nat) {
    Trues(f) > 0 && x <= |buf| && forall y | 0 <= y < x :: buf[y] == SampleAt(f, s, y)
  }

  /** One round: the kept channels from ch on, as far as there is room. */
  method Round(buf: array<int>, f: seq<bool>, s: Signal, t: nat, at: nat) returns (idx: nat)
    requires Trues(f) > 0 && at == t * Trues(f) && FullTo(buf[..], f, s, at)
    modifies buf
    ensures FullTo(buf[..], f, s, idx) && (idx == at + Trues(f) || idx == buf.Length < at + Trues(f))
  {
    idx := at;
    var ch := 0;
    assert f[..0] == [];
    while ch < |f| && idx < buf.Length
      invariant 0 <= ch <= |f| && idx <= buf.Length && idx == at + Rank(f, ch) && FullTo(buf[..], f, s, idx)
    {
      RankNext(f, ch);
      if f[ch] {
        KeptAt(f, ch);
        OneQuotient(idx, Trues(f), t, Rank(f, ch));
        buf[idx] := s(t, ch);
        idx := idx + 1;
      }
      ch := ch + 1;
    }
    RankMono(f, ch);
    assert f[..|f|] == f;
  }

  lemma {:induction false} RankMono(f: seq<bool>, i: nat)
    requires i <= |f|
    ensures Rank(f, i) <= Trues(f)
    decreases |f| - i
  {
    if i == |f| {
      assert f[..i] == f;
    } else {
      RankNext(f, i);
      RankMono(f, i + 1);
    }
  }

  /** Rounds until the buffer is full. */
  method Fill(buf: array<int>, f: seq<bool>, s: Signal)
    requires Trues(f) > 0
    modifies buf
    ensures Interleaved(buf[..], f, s)
  {
    var idx := 0;
    var t := 0;
    while idx < buf.Length
      invariant FullTo(buf[..], f, s, idx) && (idx == t * Trues(f) || idx == buf.Length)
      decreases buf.Length - idx
    {
      idx := Round(buf, f, s, t, idx);
      t := t + 1;
    }
  }

  const HIRES_SIGNALS := 32
  const RFS_CHANNELS := 12

  /** Simulator_HIRES::WF::process over the selected signals, lowest bit first; nothing is written
      when none is selected. */
  method FillHires(buf: array<int>, selected: Mask, s: Signal)
    modifies buf
    ensures var f := LowFirst(selected, HIRES_SIGNALS);
      if selected == 0 then buf[..] == old(buf[..]) else Interleaved(buf[..], f, s)
  {
    if selected != 0 {
      SomeBit(selected, HIRES_SIGNALS);
      Fill(buf, LowFirst(selected, HIRES_SIGNALS), s);
    }
  }

  lemma SomeBit(m: Mask, n: nat)
    requires m != 0 && n == 32
    ensures Trues(LowFirst(m, n)) > 0
  {
    PowValues();
    OnesTrues(m, n);
    OnesPositive(m);
  }

  lemma {:induction false} OnesPositive(m: nat)
    requires m > 0
    ensures Ones(m) > 0
  {
    if m % 2 == 0 {
      OnesPositive(m / 2);
    }
  }

  /** Simulator_RFS::acquire over the kept channels of the lowest 12 bits, highest bit first. */
  method FillRfs(buf: array<int>, keep: Mask, s: Signal)
    modifies buf
    ensures var f := HighFirst(keep, RFS_CHANNELS);
      if Trues(f) == 0 then buf[..] == old(buf[..]) else Interleaved(buf[..], f, s)
  {
    var f := HighFirst(keep, RFS_CHANNELS);
    if Cut(keep, RFS_CHANNELS) == 0 {
      NoneKept(keep, RFS_CHANNELS);
    } else {
      SomeKept(keep, RFS_CHANNELS);
      Fill(buf, f, s);
    }
  }

  lemma {:induction false} TruesNone(f: seq<bool>)
    ensures Trues(f) == 0 <==> forall i | 0 <= i < |f| :: !f[i]
  {
    if f != [] {
      TruesNone(f[..|f| - 1]);
    }
  }

  lemma NoneKept(m: nat, n: nat)
    requires Cut(m, n) == 0
    ensures Trues(HighFirst(m, n)) == 0
  {
    var f := HighFirst(m, n);
    forall i | 0 <= i < n ensures !f[i] {
      CutBit(m, n, n - 1 - i);
      NoBit(n - 1 - i);
    }
    TruesNone(f);
  }

  lemma SomeKept(m: nat, n: nat)
    requires Cut(m, n) != 0
    ensures Trues(HighFirst(m, n)) > 0
  {
    CutTrues(m, n);
    OnesPositive(Cut(m, n));
    TruesNone(LowFirst(m, n));
    var i :| 0 <= i < n && LowFirst(m, n)[i];
    var f := HighFirst(m, n);
    assert f[n - 1 - i] == Bit(m, i);
    TruesNone(f);
  }

  /* ---- get_channels ---- */

  datatype Answer = NotKept | NoChannels | Channels(data: seq<seq<int>>)

  /** The channels asked for, each with the samples the buffer has for all kept channels alike. */
  method GetChannels(data: seq<int>, keep: Mask, chans: seq<nat>, nch: nat) returns (a: Answer)
    requires forall x | 0 <= x < |chans| :: chans[x] < nch
    ensures var f := HighFirst(keep, nch);
      var k := Ones(keep);
      && (a == NotKept <==> exists x :: 0 <= x < |chans| && !f[chans[x]])
      && (a == NoChannels <==> k == 0 && chans == [])
      && (a.Channels? ==> k > 0 && |a.data| == |chans|)
      && (a.Channels? ==> forall x | 0 <= x < |chans| :: a.data[x] == Slice(data, f, chans[x], k, Whole(|data|, k)))
  {
    hide Ones, Rank, Slice, Whole;
    var f := HighFirst(keep, nch);
    var x := 0;
    while x < |chans|
      invariant 0 <= x <= |chans| && forall y | 0 <= y < x :: f[chans[y]]
    {
      if !f[chans[x]] {
        return NotKept;
      }
      x := x + 1;
    }
    var nbits := CountBits(keep);
    if nbits == 0 {
      if chans != [] {
        OnesZero(keep, nch - 1 - chans[0]);
      }
      return NoChannels;
    }
    var bound := Whole(|data|, nbits);
    var cdata := Collect(data, f, chans, nbits, bound);
    var out := [];
    x := 0;
    while x < |chans|
      invariant 0 <= x <= |chans| && |out| == x
      invariant forall y | 0 <= y < x :: out[y] == Slice(data, f, chans[y], nbits, bound)
    {
      assert chans[x] in chans;
      out := out + [cdata[chans[x]]];
      x := x + 1;
    }
    return Channels(out);
  }

  /** Without the samples of an incomplete round. */
  function Whole(n: nat, k: nat): (w: nat)
    requires k > 0
    ensures w <= n
  {
    n - n % k
  }

  // data[M::nbits] of what is left of the data
  function Slice(data: seq<int>, f: seq<bool>, ch: nat, k: nat, bound: nat): seq<int>
    requires ch < |f| && bound <= |data|
  {
    Gathered(data, Rank(f, ch), k, bound, |data|)
  }

  /** The loop over the channels: M counts the kept ones. */
  method Collect(data: seq<int>, f: seq<bool>, chans: seq<nat>, nbits: nat, bound: nat) returns (cdata: map<nat, seq<int>>)
    requires bound <= |data|
    ensures forall c | 0 <= c < |f| && f[c] && c in chans :: c in cdata && cdata[c] == Slice(data, f, c, nbits, bound)
  {
    cdata := map[];
    var place, ch := 0, 0;
    assert f[..0] == [];
    while ch < |f|
      invariant 0 <= ch <= |f| && place == Rank(f, ch)
      invariant forall c | 0 <= c < ch && f[c] && c in chans :: c in cdata && cdata[c] == Slice(data, f, c, nbits, bound)
    {
      RankNext(f, ch);
      if f[ch] {
        if ch in chans {
          cdata := cdata[ch := Gathered(data, place, nbits, bound, |data|)];
        }
        place := place + 1;
      }
      ch := ch + 1;
    }
  }

  lemma OnesZero(m: nat, i: nat)
    requires Ones(m) == 0
    ensures !Bit(m, i)
  {
    if m > 0 {
      OnesPositive(m);
    }
    NoBit(i);
  }

  /** With a mask of nch bits, what get_channels returns for a buffer written by the device is
      each channel's samples, as many complete rounds as the buffer holds. */
  lemma ChannelsAreSamples(buf: seq<int>, keep: Mask, nch: nat, s: Signal, ch: nat)
    requires keep < Pow2(nch) && ch < nch && HighFirst(keep, nch)[ch] && Interleaved(buf, HighFirst(keep, nch), s)
    ensures var k := Ones(keep);
      k > 0 && Slice(buf, HighFirst(keep, nch), ch, k, Whole(|buf|, k)) == Samples(s, ch, |buf| / k)
  {
    hide Trues, Rank, Kept, Ones, Fits, Gathered, Interleaved;
    var f := HighFirst(keep, nch);
    CountAgrees(keep, nch);
    KeptAt(f, ch);
    var k := Trues(f);
    Divides(|buf|, k);
    var bound := |buf| / k * k;
    assert bound == |buf| - |buf| % k;
    WholeRounds(Rank(f, ch), k, |buf| / k);
    FitsBound(Rank(f, ch), k, bound);
    DemuxUpTo(buf, f, s, ch, bound, |buf|);
  }

  lemma WholeRounds(p: nat, k: nat, q: nat)
    requires p < k
    ensures Fits(p, k, q * k) == q
  {
    if q > 0 {
      AtLeast(q, k);
      OneQuotient(q * k - p + k - 1, k, q, k - 1 - p);
    }
  }

  /** The number of set bits is the number of kept channels, in either order. */
  lemma CountAgrees(m: nat, n: nat)
    requires m < Pow2(n)
    ensures Ones(m) == Trues(LowFirst(m, n)) == Trues(HighFirst(m, n))
  {
    OnesTrues(m, n);
    ReverseTrues(LowFirst(m, n), HighFirst(m, n));
  }

  lemma {:induction false} ReverseTrues(f: seq<bool>, g: seq<bool>)
    requires |f| == |g| && forall i | 0 <= i < |f| :: g[i] == f[|f| - 1 - i]
    ensures Trues(f) == Trues(g)
  {
    if f != [] {
      TruesFirst(f);
      ReverseTrues(f[1..], g[..|g| - 1]);
    }
  }
}
