/** Which programs the sequencer compiler accepts, and the words it emits for them, in terms of the
    register map and the program alone. */
module TgenProgram {
  import opened Numbers
  import opened Tgen

  /* ---- accepted programs ---- */

  predicate GoodSet(m: RegMap, i: Inst) {
    i.Set? && i.name in m.regs && i.offset < Pow2(m.regs[i.name].addrWidth)
  }

  predicate Scaled(m: RegMap) {
    m.scale.Some? && m.scale.value >= 0
  }

  /** A sleep of less than one tick. */
  predicate Short(m: RegMap, i: Inst)
    requires Scaled(m)
  {
    i.Sleep? && -1 * Pow2(m.scale.value) < i.delay < Pow2(m.scale.value)
  }

  ghost predicate OpenAt(m: RegMap, prog: seq<Inst>, y: int)
    requires Scaled(m)
  {
    0 <= y < |prog| && prog[y].Set? && forall z | y < z < |prog| :: Short(m, prog[z])
  }

  /** A sleep may follow: there has been a set, and only sleeps shorter than a tick since the last. */
  ghost predicate Open(m: RegMap, prog: seq<Inst>)
    requires Scaled(m)
  {
    exists y :: OpenAt(m, prog, y)
  }

  ghost predicate GoodSleep(m: RegMap, i: Inst, before: seq<Inst>) {
    i.Sleep? && Scaled(m) && i.delay > -1 * Pow2(m.scale.value) && Open(m, before)
  }

  ghost predicate Good(m: RegMap, prog: seq<Inst>) {
    forall x | 0 <= x < |prog| :: GoodSet(m, prog[x]) || GoodSleep(m, prog[x], prog[..x])
  }

  /** Four words for a set, and four more for each time a delay exceeds 0xffff ticks. */
  function WordsOf(m: RegMap, i: Inst): nat {
    if i.Set? then 4
    else if i.Sleep? && Scaled(m) && i.delay >= Pow2(m.scale.value) then
      TicksPositive(i.delay, m.scale.value);
      4 * ((i.delay / Pow2(m.scale.value) - 1) / MAX_DELAY)
    else 0
  }

  function AllWords(m: RegMap, prog: seq<Inst>): nat {
    if prog == [] then 0 else AllWords(m, prog[..|prog| - 1]) + WordsOf(m, prog[|prog| - 1])
  }

  lemma GoodNext(m: RegMap, prog: seq<Inst>, i: Inst)
    ensures Good(m, prog + [i]) <==> Good(m, prog) && (GoodSet(m, i) || GoodSleep(m, i, prog))
  {
    hide GoodSet, GoodSleep;
    var all := prog + [i];
    assert forall x | 0 <= x <= |prog| :: all[..x] == prog[..x];
    assert all[..|prog|] == prog && all[|prog|] == i;
    if Good(m, all) {
      forall x | 0 <= x < |prog| ensures GoodSet(m, prog[x]) || GoodSleep(m, prog[x], prog[..x]) {
        assert all[x] == prog[x];
      }
    }
  }

  lemma OpenNext(m: RegMap, prog: seq<Inst>, i: Inst)
    requires Scaled(m)
    ensures Open(m, prog + [i]) <==> i.Set? || (Open(m, prog) && Short(m, i))
  {
    hide Short;
    var all := prog + [i];
    assert all[|prog|] == i;
    if i.Set? {
      assert OpenAt(m, all, |prog|);
    }
    if Open(m, prog) && Short(m, i) {
      var y :| OpenAt(m, prog, y);
      assert OpenAt(m, all, y);
    }
    if Open(m, all) && !i.Set? {
      var y :| OpenAt(m, all, y);
      assert forall z | y < z < |prog| :: all[z] == prog[z];
      assert OpenAt(m, prog, y);
    }
  }

  /** What the code so far says about the next sleep. */
  ghost predicate Ready(m: RegMap, prog: seq<Inst>, code: seq<int>) {
    && |code| % 4 == 0 && |code| == AllWords(m, prog)
    && (Scaled(m) ==> (Open(m, prog) <==> |code| >= 4 && code[|code| - 4] == 0))
  }

  lemma SplitLast(code: seq<int>, d: nat)
    requires |code| >= 4 && |code| % 4 == 0 && d > 0
    ensures var s := Split(code, d);
      |s| == |code| + 4 * ((d - 1) / MAX_DELAY) && |s| % 4 == 0 && s[|s| - 4] != 0
  {
    hide Split;
    SplitCount(code, d);
    Quotients(d + MAX_DELAY - 1, MAX_DELAY);
    FourMore(|code|, (d - 1) / MAX_DELAY);
    FourMore(0, (d - 1) / MAX_DELAY - 1);
  }

  lemma StepReady(m: RegMap, prog: seq<Inst>, code: seq<int>, i: Inst)
    requires Ready(m, prog, code)
    ensures Step(m, code, i).Ok? <==> GoodSet(m, i) || GoodSleep(m, i, prog)
    ensures Step(m, code, i).Ok? ==> Ready(m, prog + [i], Step(m, code, i).value)
  {
    hide Split, Pow2, Open;
    assert (prog + [i])[..|prog|] == prog;
    if Scaled(m) {
      OpenNext(m, prog, i);
      if i.Sleep? {
        TicksShort(i.delay, m.scale.value);
        if |code| >= 4 && Ticks(i.delay, m.scale.value) > 0 {
          SplitLast(code, Ticks(i.delay, m.scale.value));
        }
      }
    }
  }

  lemma {:induction false} CompiledGood(m: RegMap, prog: seq<Inst>)
    ensures Compiled(m, prog).Ok? <==> Good(m, prog)
    ensures Compiled(m, prog).Ok? ==> Ready(m, prog, Compiled(m, prog).value)
  {
    hide Step, Good, Ready;
    if prog == [] {
      NothingReady(m);
    } else {
      var p, i := prog[..|prog| - 1], prog[|prog| - 1];
      assert prog == p + [i];
      CompiledGood(m, p);
      GoodNext(m, p, i);
      if Compiled(m, p).Ok? {
        StepReady(m, p, Compiled(m, p).value, i);
      }
    }
  }

  lemma NothingReady(m: RegMap)
    ensures Good(m, []) && Ready(m, [], [])
  {
  }

  /** THE ACCEPTANCE THEOREM. A program is accepted if and only if every set names a register and an
      offset in it, every sleep follows a set with at most sleeps of no tick between and is not
      negative by a tick or more, there is nothing else, and its words leave room for a stop. */
  lemma AcceptedExactly(m: RegMap, prog: seq<Inst>, width: nat)
    ensures Assembled(m, prog, width).Ok? <==> Good(m, prog) && AllWords(m, prog) + 4 <= Pow2(width)
  {
    CompiledGood(m, prog);
  }

  /* ---- emitted words ---- */

  /** The delays of the instructions, added up. */
  function Delays(code: seq<int>): int {
    if |code| < 4 then 0 else Delays(code[..|code| - 4]) + code[|code| - 4]
  }

  /** The ticks a program sleeps. */
  function Slept(m: RegMap, prog: seq<Inst>): int {
    if prog == [] then 0
    else
      var i := prog[|prog| - 1];
      Slept(m, prog[..|prog| - 1]) + if i.Sleep? && Scaled(m) && i.delay >= 0 then i.delay / Pow2(m.scale.value) else 0
  }

  lemma LastDelay(a: seq<int>, w: seq<int>)
    requires |w| == 4
    ensures Delays(a + w) == Delays(a) + w[0]
  {
    assert (a + w)[..|a|] == a;
  }

  lemma {:induction false} SplitDelays(a: seq<int>, w: seq<int>, d: nat)
    requires |w| == 4
    ensures Delays(Split(a + w, d)) == Delays(a) + d
    decreases d
  {
    if d <= MAX_DELAY {
      assert SetDelay(a + w, d) == a + w[0 := d];
      LastDelay(a, w[0 := d]);
    } else {
      var full := w[0 := MAX_DELAY];
      assert SetDelay(a + w, MAX_DELAY) == a + full;
      assert Repeated(a + full) == (a + full) + full;
      LastDelay(a, full);
      SplitDelays(a + full, full, d - MAX_DELAY);
    }
  }

  lemma StepDelays(m: RegMap, code: seq<int>, i: Inst)
    requires Step(m, code, i).Ok?
    ensures Delays(Step(m, code, i).value) == Delays(code) + if i.Sleep? && i.delay >= 0 then i.delay / Pow2(m.scale.value) else 0
  {
    hide Split, Delays, Pow2;
    if i.Set? {
      LastDelay(code, Step(m, code, i).value[|code|..]);
      assert Step(m, code, i).value == code + Step(m, code, i).value[|code|..];
    } else {
      TicksShort(i.delay, m.scale.value);
      var a, w := code[..|code| - 4], code[|code| - 4..];
      assert code == a + w;
      LastDelay(a, w);
      if Ticks(i.delay, m.scale.value) > 0 {
        SplitDelays(a, w, Ticks(i.delay, m.scale.value));
      }
    }
  }

  /** The code delays as long as the program sleeps, whatever is dead in it. */
  lemma {:induction false} CodeSleeps(m: RegMap, prog: seq<Inst>)
    requires Compiled(m, prog).Ok?
    ensures Delays(Compiled(m, prog).value) == Slept(m, prog)
  {
    hide Step, Scaled;
    if prog != [] {
      var p, i := prog[..|prog| - 1], prog[|prog| - 1];
      CodeSleeps(m, p);
      StepDelays(m, Compiled(m, p).value, i);
      StepScaled(m, Compiled(m, p).value, i);
    }
  }

  lemma StepScaled(m: RegMap, code: seq<int>, i: Inst)
    requires Step(m, code, i).Ok?
    ensures i.Sleep? ==> Scaled(m)
  {
  }

  /** Code grows; only the delay of its last instruction may still change, and not once a set follows. */
  ghost predicate Grows(a: seq<int>, b: seq<int>) {
    |a| <= |b| && (|b| - |a|) % 4 == 0 && forall y | 0 <= y < |a| && y != |a| - 4 :: b[y] == a[y]
  }

  lemma StepGrows(m: RegMap, code: seq<int>, i: Inst)
    requires Step(m, code, i).Ok?
    ensures Grows(code, Step(m, code, i).value) && (i.Set? ==> code <= Step(m, code, i).value && |Step(m, code, i).value| == |code| + 4)
  {
    hide Split, Ticks;
    if i.Sleep? && Ticks(i.delay, m.scale.value) > 0 {
      forall y | 0 <= y < |code| && y != |code| - 4 ensures Step(m, code, i).value[y] == code[y] {
        SplitKeeps(code, Ticks(i.delay, m.scale.value), y);
      }
      SplitCount(code, Ticks(i.delay, m.scale.value));
      FourMore(0, (Ticks(i.delay, m.scale.value) + MAX_DELAY - 1) / MAX_DELAY - 1);
    }
  }

  lemma GrowsOn(a: seq<int>, b: seq<int>, c: seq<int>)
    requires Grows(a, b) && Grows(b, c)
    ensures Grows(a, c)
  {
  }

  lemma {:induction false} PartGrows(m: RegMap, prog: seq<Inst>, x: nat)
    requires x <= |prog| && Compiled(m, prog).Ok?
    ensures Compiled(m, prog[..x]).Ok? && Grows(Compiled(m, prog[..x]).value, Compiled(m, prog).value)
    decreases |prog|
  {
    hide Step;
    if x == |prog| {
      assert prog[..x] == prog;
    } else {
      var p, i := prog[..|prog| - 1], prog[|prog| - 1];
      assert p[..x] == prog[..x];
      PartGrows(m, p, x);
      StepGrows(m, Compiled(m, p).value, i);
      GrowsOn(Compiled(m, prog[..x]).value, Compiled(m, p).value, Compiled(m, prog).value);
    }
  }

  /** THE EMISSION THEOREM. In an accepted program the set at x, live or dead, is an instruction of
      the output that writes its value to the word at its offset in its register; the delays in
      front of it add up to what the program sleeps before it, and what it emitted before fills
      the words in front of it. */
  lemma SetEmits(m: RegMap, prog: seq<Inst>, width: nat, x: nat)
    requires Assembled(m, prog, width).Ok? && x < |prog| && prog[x].Set?
    ensures prog[x].name in m.regs && prog[x].offset < Pow2(m.regs[prog[x].name].addrWidth)
    ensures var p := AllWords(m, prog[..x]);
      var w := Assembled(m, prog, width).value;
      && p % 4 == 0 && p + 4 <= |w|
      && w[p + 1] == m.regs[prog[x].name].base + prog[x].offset
      && 0 <= w[p + 2] < 0x1_0000 && 0 <= w[p + 3] < 0x1_0000 && w[p + 2] * 0x1_0000 + w[p + 3] == prog[x].value % VALUES
      && Delays(w[..p]) == Slept(m, prog[..x])
  {
    hide Compiled, AllWords, Slept, Delays;
    AssembledCode(m, prog, width);
    var code, w := Compiled(m, prog).value, Assembled(m, prog, width).value;
    PartGrows(m, prog, x);
    PartGrows(m, prog, x + 1);
    var before := Compiled(m, prog[..x]).value;
    var after := Compiled(m, prog[..x + 1]).value;
    CompiledGood(m, prog[..x]);
    CodeSleeps(m, prog[..x]);
    OneStep(m, prog, x);
    StepGrows(m, before, prog[x]);
    ValueHalves(prog[x].value);
    var p := |before|;
    assert after == before + after[p..];
    assert w[..p] == before;
  }

  lemma AssembledCode(m: RegMap, prog: seq<Inst>, width: nat)
    requires Assembled(m, prog, width).Ok?
    ensures Compiled(m, prog).Ok? && Compiled(m, prog).value <= Assembled(m, prog, width).value
  {
  }

  lemma OneStep(m: RegMap, prog: seq<Inst>, x: nat)
    requires x < |prog|
    ensures Compiled(m, prog[..x + 1]) == if Compiled(m, prog[..x]).Err? then Compiled(m, prog[..x]) else Step(m, Compiled(m, prog[..x]).value, prog[x])
  {
    assert prog[..x + 1][..x] == prog[..x];
  }
}
