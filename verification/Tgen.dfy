/** The sequencer compiler: programs of register writes and sleeps become fixed-size sequences of
    instructions, each a delay, an address and the two halves of a value. */
module Tgen {
  import opened Numbers

  datatype Option<T> = None | Some(value: T)
  datatype Error = UnknownRegister | OutOfBounds | NoScale | NegativeScale | NegativeDelay
    | SleepFirst | SleepAfterSleep | UnknownInstruction | TooLong
  datatype Result<T> = Ok(value: T) | Err(error: Error)

  /** An instruction tuple, with the register name already split into name and offset. */
  datatype Inst = Set(name: string, offset: nat, value: int) | Sleep(delay: int) | Other

  datatype RegInfo = RegInfo(base: nat, addrWidth: nat)

  /** The register map: registers and the scale of delays. */
  datatype RegMap = RegMap(regs: map<string, RegInfo>, scale: Option<int>)

  const MAX_DELAY := 0xffff
  const VALUES := 0x1_0000_0000

  // int(delay / 2**exp)
  function Ticks(delay: int, exp: nat): int {
    if delay >= 0 then delay / Pow2(exp) else -((-delay) / Pow2(exp))
  }

  /* ---- what programs mean ---- */

  /** A write of value at address addr, at some time. */
  datatype Event = Event(time: int, addr: int, value: int)

  type Memory = map<int, int>

  /** The memory at time t: the writes so far, in order. */
  function MemAt(events: seq<Event>, t: int): Memory {
    if events == [] then map[]
    else
      var m := MemAt(events[..|events| - 1], t);
      var e := events[|events| - 1];
      if e.time <= t then m[e.addr := e.value] else m
  }

  /** Writes made and time passed. */
  datatype Trace = Trace(events: seq<Event>, end: int)

  function Resolve(m: RegMap, name: string, offset: nat): Result<nat> {
    if name !in m.regs then Err(UnknownRegister)
    else if offset >= Pow2(m.regs[name].addrWidth) then Err(OutOfBounds)
    else Ok(m.regs[name].base + offset)
  }

  /** One instruction of the source: a set writes at once to the word at its offset in its register,
      a sleep lets time pass, in units of 2^scale. */
  function Effect(m: RegMap, i: Inst, t: Trace): Trace {
    match i
    case Set(name, offset, value) =>
      if name in m.regs then t.(events := t.events + [Event(t.end, m.regs[name].base + offset, value % VALUES)]) else t
    case Sleep(delay) =>
      if m.scale.Some? && m.scale.value >= 0 && delay >= 0 then t.(end := t.end + delay / Pow2(m.scale.value)) else t
    case Other => t
  }

  function Source(m: RegMap, prog: seq<Inst>): Trace {
    if prog == [] then Trace([], 0) else Effect(m, prog[|prog| - 1], Source(m, prog[..|prog| - 1]))
  }

  /** The sequencer: write, then wait; an address of zero stops it. */
  function Running(words: seq<int>, x: nat, t: Trace): Trace
    decreases |words| - x
  {
    if x + 4 > |words| || words[x + 1] == 0 then t
    else Running(words, x + 4, Trace(t.events + [Event(t.end, words[x + 1], words[x + 2] * 0x1_0000 + words[x + 3])], t.end + words[x]))
  }

  function Sequencer(words: seq<int>): Trace {
    Running(words, 0, Trace([], 0))
  }

  /** Both runs take the same time and leave the same memory at every moment. */
  ghost predicate SameMeaning(a: Trace, b: Trace) {
    a.end == b.end && forall t :: MemAt(a.events, t) == MemAt(b.events, t)
  }

  /* ---- the compiler ---- */

  function SetDelay(ret: seq<int>, d: int): (r: seq<int>)
    requires |ret| >= 4
    ensures |r| == |ret|
  {
    ret[|ret| - 4 := d]
  }

  /** The last instruction again. */
  function Repeated(ret: seq<int>): (r: seq<int>)
    requires |ret| >= 4
    ensures |r| == |ret| + 4
  {
    ret + ret[|ret| - 4..]
  }

  /** The delay goes to the last instruction, repeated as often as one delay is not enough. */
  function Split(ret: seq<int>, delay: nat): (r: seq<int>)
    requires |ret| >= 4
    ensures |r| >= |ret|
    decreases delay
  {
    if delay <= MAX_DELAY then SetDelay(ret, delay)
    else Split(Repeated(SetDelay(ret, MAX_DELAY)), delay - MAX_DELAY)
  }

  function Step(m: RegMap, ret: seq<int>, i: Inst): Result<seq<int>> {
    match i
    case Set(name, offset, value) =>
      var a := Resolve(m, name, offset);
      if a.Err? then Err(a.error) else Ok(ret + [0, a.value, value / 0x1_0000 % 0x1_0000, value % 0x1_0000])
    case Sleep(delay) =>
      if m.scale.None? then Err(NoScale)
      else if m.scale.value < 0 then Err(NegativeScale)
      else
        var d := Ticks(delay, m.scale.value);
        if d < 0 then Err(NegativeDelay)
        else if |ret| < 4 then Err(SleepFirst)
        else if ret[|ret| - 4] != 0 then Err(SleepAfterSleep)
        else if d == 0 then Ok(ret)
        else Ok(Split(ret, d))
    case Other => Err(UnknownInstruction)
  }

  function Compiled(m: RegMap, prog: seq<Inst>): Result<seq<int>> {
    if prog == [] then Ok([])
    else
      var c := Compiled(m, prog[..|prog| - 1]);
      if c.Err? then c else Step(m, c.value, prog[|prog| - 1])
  }

  function Zeros(n: nat): seq<int> {
    seq(n, _ => 0)
  }

  function Assembled(m: RegMap, prog: seq<Inst>, width: nat): Result<seq<int>> {
    var c := Compiled(m, prog);
    if c.Err? then c
    else if |c.value| + 4 > Pow2(width) then Err(TooLong)
    else Ok(c.value + Zeros(Pow2(width) - |c.value|))
  }

  /** The loop over a delay too long for one instruction. */
  method Wait(code: seq<int>, delay: nat) returns (ret: seq<int>)
    requires |code| >= 4
    ensures ret == Split(code, delay)
  {
    ret := code;
    var d := delay;
    while d > MAX_DELAY
      invariant 0 <= d && |ret| >= 4 && Split(ret, d) == Split(code, delay)
    {
      d := d - MAX_DELAY;
      ret := ret[|ret| - 4 := MAX_DELAY];
      ret := ret + ret[|ret| - 4..];
    }
    ret := ret[|ret| - 4 := d];
  }

  /** One turn of the loop over the program. */
  method Emit(m: RegMap, code: seq<int>, i: Inst) returns (r: Result<seq<int>>)
    ensures r == Step(m, code, i)
  {
    match i {
      case Set(name, offset, value) =>
        if name !in m.regs {
          return Err(UnknownRegister);
        }
        var info := m.regs[name];
        if offset >= Pow2(info.addrWidth) {
          return Err(OutOfBounds);
        }
        return Ok(code + [0, info.base + offset, value / 0x1_0000 % 0x1_0000, value % 0x1_0000]);
      case Sleep(delay) =>
        if m.scale.None? {
          return Err(NoScale);
        } else if m.scale.value < 0 {
          return Err(NegativeScale);
        }
        var d := Ticks(delay, m.scale.value);
        if d < 0 {
          return Err(NegativeDelay);
        } else if |code| < 4 {
          return Err(SleepFirst);
        } else if code[|code| - 4] != 0 {
          return Err(SleepAfterSleep);
        } else if d == 0 {
          return Ok(code);
        }
        var ret := Wait(code, d);
        return Ok(ret);
      case Other =>
        return Err(UnknownInstruction);
    }
  }

  // assemble_tgen; width is the address width of the sequencer's memory
  method Assemble(m: RegMap, prog: seq<Inst>, width: nat) returns (r: Result<seq<int>>)
    requires Pow2(width) >= 4
    ensures r == Assembled(m, prog, width)
  {
    hide Step, Pow2;
    var ret := [];
    var n := 0;
    while n < |prog|
      invariant 0 <= n <= |prog| && Compiled(m, prog[..n]) == Ok(ret)
    {
      assert prog[..n + 1][..n] == prog[..n];
      var step := Emit(m, ret, prog[n]);
      if step.Err? {
        StopsHere(m, prog, n);
        return step;
      }
      ret := step.value;
      n := n + 1;
    }
    assert prog[..n] == prog;
    if |ret| > Pow2(width) - 4 {
      return Err(TooLong);
    }
    ret := ret + Zeros(Pow2(width) - |ret|);
    return Ok(ret);
  }

  /** An error at instruction n is the result of the whole program. */
  lemma {:induction false} StopsHere(m: RegMap, prog: seq<Inst>, n: nat)
    requires n < |prog|
    ensures Compiled(m, prog[..n + 1]).Err? ==> Compiled(m, prog) == Compiled(m, prog[..n + 1])
    decreases |prog|
  {
    if n + 1 == |prog| {
      assert prog[..n + 1] == prog;
    } else {
      var p := prog[..|prog| - 1];
      assert p[..n + 1] == prog[..n + 1];
      StopsHere(m, p, n);
    }
  }

  /* ---- running code piece by piece ---- */

  /** Whole instructions, none of them a stop. */
  ghost predicate Live(code: seq<int>) {
    |code| % 4 == 0 && forall x | 0 <= x < |code| && x % 4 == 1 :: code[x] != 0
  }

  lemma {:induction false} RunAppend(a: seq<int>, b: seq<int>, x: nat, t: Trace)
    requires Live(a) && x % 4 == 0 && x <= |a|
    ensures Running(a + b, x, t) == Running(a + b, |a|, Running(a, x, t))
    decreases |a| - x
  {
    if x < |a| {
      assert (x + 1) % 4 == 1 && x + 4 <= |a|;
      assert forall y | 0 <= y < |a| :: (a + b)[y] == a[y];
      RunAppend(a, b, x + 4, Trace(t.events + [Event(t.end, a[x + 1], a[x + 2] * 0x1_0000 + a[x + 3])], t.end + a[x]));
    }
  }

  /** One more instruction. */
  function Then(t: Trace, delay: int, addr: int, value: int): Trace {
    Trace(t.events + [Event(t.end, addr, value)], t.end + delay)
  }

  lemma RunInstruction(a: seq<int>, i: seq<int>)
    requires Live(a) && |i| == 4 && i[1] != 0
    ensures Live(a + i) && Sequencer(a + i) == Then(Sequencer(a), i[0], i[1], i[2] * 0x1_0000 + i[3])
  {
    RunAppend(a, i, 0, Trace([], 0));
    var x := |a|;
    assert (a + i)[x] == i[0] && (a + i)[x + 1] == i[1] && (a + i)[x + 2] == i[2] && (a + i)[x + 3] == i[3];
  }

  /** Nothing behind a stop matters. */
  lemma RunStop(a: seq<int>, b: seq<int>)
    requires Live(a) && |b| >= 2 && b[1] == 0
    ensures Sequencer(a + b) == Sequencer(a)
  {
    RunAppend(a, b, 0, Trace([], 0));
    assert (a + b)[|a| + 1] == b[1];
  }

  /* ---- traces with the same meaning ---- */

  lemma MemAppend(events: seq<Event>, e: Event, t: int)
    ensures MemAt(events + [e], t) == if e.time <= t then MemAt(events, t)[e.addr := e.value] else MemAt(events, t)
  {
    assert (events + [e])[..|events|] == events;
  }

  lemma SameThen(a: Trace, b: Trace, e: Event)
    requires SameMeaning(a, b)
    ensures SameMeaning(a.(events := a.events + [e]), b.(events := b.events + [e]))
  {
    forall t ensures MemAt(a.events + [e], t) == MemAt(b.events + [e], t) {
      MemAppend(a.events, e, t);
      MemAppend(b.events, e, t);
    }
  }

  /** Writing the same value to the same address once more, later, changes nothing. */
  lemma WriteAgain(events: seq<Event>, e: Event, later: int, t: int)
    requires e.time <= later
    ensures MemAt(events + [e] + [e.(time := later)], t) == MemAt(events + [e], t)
  {
    MemAppend(events, e, t);
    MemAppend(events + [e], e.(time := later), t);
  }

  /** The same write again after a while changes nothing but the time. */
  lemma ThenAgain(c: Trace, t: Trace, first: nat, rest: nat, addr: int, value: int)
    requires SameMeaning(c, Then(Then(t, first, addr, value), rest, addr, value))
    ensures SameMeaning(c, Then(t, first + rest, addr, value))
  {
    var e := Event(t.end, addr, value);
    forall x ensures MemAt(c.events, x) == MemAt(Then(t, first + rest, addr, value).events, x) {
      WriteAgain(t.events, e, t.end + first, x);
      assert MemAt(c.events, x) == MemAt(Then(Then(t, first, addr, value), rest, addr, value).events, x);
    }
  }

  lemma SameTrace(t: Trace)
    ensures SameMeaning(t, t)
  {
  }

  /* ---- long delays ---- */

  /** A delay of any length: the same writes as one instruction, and exactly that much time. */
  lemma {:induction false} SplitMeaning(a: seq<int>, i: seq<int>, delay: nat)
    requires Live(a) && |i| == 4 && i[1] != 0
    ensures Live(Split(a + i, delay))
    ensures SameMeaning(Sequencer(Split(a + i, delay)), Then(Sequencer(a), delay, i[1], i[2] * 0x1_0000 + i[3]))
    decreases delay
  {
    hide Sequencer, SameMeaning, Then;
    var t := Sequencer(a);
    var value := i[2] * 0x1_0000 + i[3];
    if delay <= MAX_DELAY {
      assert SetDelay(a + i, delay) == a + i[0 := delay];
      RunInstruction(a, i[0 := delay]);
      SameTrace(Then(t, delay, i[1], value));
    } else {
      var full := i[0 := MAX_DELAY];
      assert SetDelay(a + i, MAX_DELAY) == a + full;
      assert Repeated(a + full) == (a + full) + full;
      RunInstruction(a, full);
      SplitMeaning(a + full, full, delay - MAX_DELAY);
      ThenAgain(Sequencer(Split(a + i, delay)), t, MAX_DELAY, delay - MAX_DELAY, i[1], value);
    }
  }

  /** Only the delay of the last instruction changes; the rest is added behind it. */
  lemma {:induction false} SplitKeeps(code: seq<int>, delay: nat, y: nat)
    requires |code| >= 4 && y < |code| && y != |code| - 4
    ensures Split(code, delay)[y] == code[y]
    decreases delay
  {
    if delay > MAX_DELAY {
      SplitKeeps(Repeated(SetDelay(code, MAX_DELAY)), delay - MAX_DELAY, y);
    }
  }

  lemma SplitOnce(code: seq<int>, delay: nat)
    requires |code| >= 4
    ensures var full := Repeated(SetDelay(code, MAX_DELAY));
      && Split(code, delay) == (if delay <= MAX_DELAY then SetDelay(code, delay) else Split(full, delay - MAX_DELAY))
      && full[|code| - 4] == MAX_DELAY
    ensures |SetDelay(code, delay)| == |code| && SetDelay(code, delay)[|code| - 4] == delay
  {
  }

  lemma FourLess(n: int)
    ensures n % 4 == (n - 4) % 4
    ensures n % 4 == 0 ==> n == -4 || n == 0 || n <= -8 || n >= 4
  {
  }

  /** ceil(delay / 0xffff) instructions carry the delay, each of them 1 to 0xffff of it. */
  lemma {:induction false} SplitCount(code: seq<int>, delay: nat)
    requires |code| >= 4 && delay > 0
    ensures |Split(code, delay)| == |code| + 4 * ((delay + MAX_DELAY - 1) / MAX_DELAY - 1)
    ensures forall x | |code| - 4 <= x < |Split(code, delay)| && (x - |code|) % 4 == 0 :: 1 <= Split(code, delay)[x] <= MAX_DELAY
    decreases delay
  {
    hide Split, Repeated, SetDelay;
    var s := Split(code, delay);
    SplitOnce(code, delay);
    if delay > MAX_DELAY {
      var next := Repeated(SetDelay(code, MAX_DELAY));
      SplitCount(next, delay - MAX_DELAY);
      Quotients(delay + MAX_DELAY - 1, MAX_DELAY);
      SplitKeeps(next, delay - MAX_DELAY, |code| - 4);
      forall x | |code| - 4 <= x < |s| && (x - |code|) % 4 == 0 ensures 1 <= s[x] <= MAX_DELAY {
        FourLess(x - |code|);
        assert x >= |next| - 4 || x == |code| - 4;
      }
    } else {
      OneQuotient(delay + MAX_DELAY - 1, MAX_DELAY, 1, delay - 1);
    }
  }

  /* ---- the compiler preserves meaning ---- */

  predicate ToZero(m: RegMap, i: Inst) {
    i.Set? && i.name in m.regs && m.regs[i.name].base + i.offset == 0
  }

  /** The program up to its first write to address zero, which the sequencer takes for a stop. */
  function LivePart(m: RegMap, prog: seq<Inst>): (p: seq<Inst>)
    ensures p <= prog
  {
    if prog == [] then []
    else
      var p := LivePart(m, prog[..|prog| - 1]);
      if |p| == |prog| - 1 && !ToZero(m, prog[|prog| - 1]) then prog else p
  }

  /** The code of the live part, and behind it, if there is more, a stop. */
  ghost predicate Shape(m: RegMap, prog: seq<Inst>, code: seq<int>) {
    var p := LivePart(m, prog);
    var c := Compiled(m, p);
    && c.Ok? && Live(c.value) && SameMeaning(Sequencer(c.value), Source(m, p))
    && |code| % 4 == 0 && c.value <= code
    && (if p == prog then code == c.value else |code| >= |c.value| + 4 && code[|c.value| + 1] == 0)
  }

  lemma ValueHalves(value: int)
    ensures value / 0x1_0000 % 0x1_0000 * 0x1_0000 + value % 0x1_0000 == value % VALUES
  {
  }

  lemma LiveSet(m: RegMap, prog: seq<Inst>, code: seq<int>, i: Inst)
    requires Live(code) && SameMeaning(Sequencer(code), Source(m, prog)) && i.Set? && Step(m, code, i).Ok? && !ToZero(m, i)
    ensures var c := Step(m, code, i).value;
      Live(c) && SameMeaning(Sequencer(c), Effect(m, i, Source(m, prog)))
  {
    var a := Resolve(m, i.name, i.offset).value;
    var w := [0, a, i.value / 0x1_0000 % 0x1_0000, i.value % 0x1_0000];
    RunInstruction(code, w);
    ValueHalves(i.value);
    SameThen(Sequencer(code), Source(m, prog), Event(Sequencer(code).end, a, i.value % VALUES));
  }

  lemma TicksPositive(delay: int, exp: nat)
    requires delay >= Pow2(exp)
    ensures delay / Pow2(exp) >= 1
  {
    var q, p := delay / Pow2(exp), Pow2(exp);
    Divides(delay, p);
    if q < 1 {
      Distribute(1, q, p);
      if q < 0 {
        AtLeast(-q, p);
        Distribute(0, q, p);
      }
    }
  }

  lemma TicksShort(delay: int, exp: nat)
    ensures Ticks(delay, exp) == 0 <==> -1 * Pow2(exp) < delay < Pow2(exp)
    ensures Ticks(delay, exp) >= 0 <==> delay > -1 * Pow2(exp)
    ensures delay >= 0 ==> Ticks(delay, exp) == delay / Pow2(exp)
    ensures Ticks(delay, exp) > 0 <==> delay >= Pow2(exp)
  {
    if delay >= Pow2(exp) {
      TicksPositive(delay, exp);
    } else if delay >= 0 {
      OneQuotient(delay, Pow2(exp), 0, delay);
    } else if -delay >= Pow2(exp) {
      TicksPositive(-delay, exp);
    } else {
      OneQuotient(-delay, Pow2(exp), 0, -delay);
    }
  }

  lemma LiveSleep(m: RegMap, prog: seq<Inst>, code: seq<int>, i: Inst)
    requires Live(code) && SameMeaning(Sequencer(code), Source(m, prog)) && i.Sleep? && Step(m, code, i).Ok?
    ensures var c := Step(m, code, i).value;
      Live(c) && SameMeaning(Sequencer(c), Effect(m, i, Source(m, prog)))
  {
    hide Sequencer, Split, Live, Ticks, Pow2;
    TicksShort(i.delay, m.scale.value);
    if Ticks(i.delay, m.scale.value) > 0 {
      Prolonged(code, Ticks(i.delay, m.scale.value));
    }
  }

  /** A delay put into the last instruction, which had none. */
  lemma Prolonged(code: seq<int>, d: nat)
    requires Live(code) && |code| >= 4 && code[|code| - 4] == 0
    ensures var t := Sequencer(code);
      Live(Split(code, d)) && SameMeaning(Sequencer(Split(code, d)), t.(end := t.end + d))
  {
    var a, w := code[..|code| - 4], code[|code| - 4..];
    assert code == a + w;
    assert Live(a) && w[1] != 0 by { LastInstruction(code); }
    hide Sequencer, SameMeaning, Split, Live;
    RunInstruction(a, w);
    SplitMeaning(a, w, d);
  }

  lemma LastInstruction(code: seq<int>)
    requires Live(code) && |code| >= 4
    ensures Live(code[..|code| - 4]) && code[|code| - 3] != 0
  {
    var n := |code| / 4;
    OneQuotient(|code| - 4, 4, n - 1, 0);
    OneQuotient(|code| - 3, 4, n - 1, 1);
  }

  lemma LiveStep(m: RegMap, prog: seq<Inst>, code: seq<int>, i: Inst)
    requires Live(code) && SameMeaning(Sequencer(code), Source(m, prog)) && Step(m, code, i).Ok? && !ToZero(m, i)
    ensures var c := Step(m, code, i).value;
      Live(c) && SameMeaning(Sequencer(c), Effect(m, i, Source(m, prog)))
  {
    if i.Set? {
      LiveSet(m, prog, code, i);
    } else {
      LiveSleep(m, prog, code, i);
    }
  }

  lemma StepShape(m: RegMap, prog: seq<Inst>, i: Inst, code: seq<int>)
    requires Compiled(m, prog) == Ok(code) && Shape(m, prog, code) && Step(m, code, i).Ok?
    ensures Shape(m, prog + [i], Step(m, code, i).value)
  {
    hide Step, Effect, Sequencer, SameMeaning, Resolve, Compiled, LivePart, Source;
    OneMore(m, prog, i);
    var p := LivePart(m, prog);
    var live := Compiled(m, p).value;
    var c := Step(m, code, i).value;
    if p == prog && !ToZero(m, i) {
      LiveStep(m, prog, code, i);
    } else {
      LivePartStays(m, prog, i);
      DeadStep(m, code, i, live);
    }
  }

  /** One more instruction at the end. */
  lemma OneMore(m: RegMap, prog: seq<Inst>, i: Inst)
    ensures Compiled(m, prog + [i]) == if Compiled(m, prog).Err? then Compiled(m, prog) else Step(m, Compiled(m, prog).value, i)
    ensures Source(m, prog + [i]) == Effect(m, i, Source(m, prog))
    ensures LivePart(m, prog) == prog && !ToZero(m, i) ==> LivePart(m, prog + [i]) == prog + [i]
    ensures |LivePart(m, prog)| < |prog + [i]|
  {
    hide Step, Effect, ToZero;
    assert (prog + [i])[..|prog|] == prog;
  }

  lemma LivePartStays(m: RegMap, prog: seq<Inst>, i: Inst)
    requires LivePart(m, prog) != prog || ToZero(m, i)
    ensures LivePart(m, prog + [i]) == LivePart(m, prog)
  {
    assert (prog + [i])[..|prog|] == prog;
  }

  /** Behind the stop, or adding it: the live code stays in front. */
  lemma DeadStep(m: RegMap, code: seq<int>, i: Inst, live: seq<int>)
    requires Step(m, code, i).Ok? && live <= code && |code| % 4 == |live| % 4 == 0
    requires (code == live && ToZero(m, i)) || (|code| >= |live| + 4 && code[|live| + 1] == 0)
    ensures var c := Step(m, code, i).value;
      |c| % 4 == 0 && live <= c && |c| >= |live| + 4 && c[|live| + 1] == 0
  {
    hide Split, Ticks;
    if i.Sleep? && Ticks(i.delay, m.scale.value) > 0 {
      DeadSleep(code, Ticks(i.delay, m.scale.value), live);
    }
  }

  lemma FourMore(n: int, q: int)
    ensures (n + 4 * q) % 4 == n % 4
  {
  }

  lemma DeadSleep(code: seq<int>, d: nat, live: seq<int>)
    requires live <= code && |code| % 4 == |live| % 4 == 0 && |code| >= |live| + 4 && code[|live| + 1] == 0 && d > 0
    ensures var c := Split(code, d);
      |c| % 4 == 0 && live <= c && |c| >= |live| + 4 && c[|live| + 1] == 0
  {
    hide Split;
    var c := Split(code, d);
    SplitCount(code, d);
    FourMore(|code|, (d + MAX_DELAY - 1) / MAX_DELAY - 1);
    forall y | 0 <= y < |live| ensures c[y] == live[y] { SplitKeeps(code, d, y); }
    SplitKeeps(code, d, |live| + 1);
  }

  lemma {:induction false} CompiledShape(m: RegMap, prog: seq<Inst>)
    requires Compiled(m, prog).Ok?
    ensures Shape(m, prog, Compiled(m, prog).value)
  {
    if prog != [] {
      var p := prog[..|prog| - 1];
      CompiledShape(m, p);
      assert prog == p + [prog[|prog| - 1]];
      StepShape(m, p, prog[|prog| - 1], Compiled(m, p).value);
    }
  }

  /** THE COMPILER THEOREM. Whatever program is accepted, the sequencer running the output takes
      exactly as long as the program up to its first write to address zero, and at every moment
      the memory is the same. Without such a write that is the whole program. */
  lemma AssemblerPreserves(m: RegMap, prog: seq<Inst>, width: nat)
    requires Assembled(m, prog, width).Ok?
    ensures SameMeaning(Sequencer(Assembled(m, prog, width).value), Source(m, LivePart(m, prog)))
    ensures LivePart(m, prog) == prog <==> forall x | 0 <= x < |prog| :: !ToZero(m, prog[x])
  {
    var code := Compiled(m, prog).value;
    var rest := Zeros(Pow2(width) - |code|);
    CompiledShape(m, prog);
    AllLive(m, prog);
    var live := Compiled(m, LivePart(m, prog)).value;
    var tail := code[|live|..] + rest;
    assert code + rest == live + tail;
    assert tail[1] == if LivePart(m, prog) == prog then rest[1] else code[|live| + 1];
    RunStop(live, tail);
  }

  lemma {:induction false} AllLive(m: RegMap, prog: seq<Inst>)
    ensures LivePart(m, prog) == prog <==> forall x | 0 <= x < |prog| :: !ToZero(m, prog[x])
  {
    if prog != [] {
      var p := prog[..|prog| - 1];
      AllLive(m, p);
      assert forall x | 0 <= x < |p| :: p[x] == prog[x];
      assert LivePart(m, prog) == prog ==> LivePart(m, p) == p && !ToZero(m, prog[|p|]);
    }
  }

  /** The output fills the sequencer's memory exactly and ends in a stop. */
  lemma AssembledSize(m: RegMap, prog: seq<Inst>, width: nat)
    requires Assembled(m, prog, width).Ok?
    ensures var w := Assembled(m, prog, width).value;
      |w| == Pow2(width) && |w| >= 4 && forall x | |w| - 4 <= x < |w| :: w[x] == 0
  {
  }

  /* ---- exactly when the whole program is preserved ---- */

  lemma {:induction false} WrittenKey(events: seq<Event>, y: nat, t: int)
    requires y < |events| && events[y].time <= t
    ensures events[y].addr in MemAt(events, t)
  {
    var rest := events[..|events| - 1];
    if y < |rest| {
      WrittenKey(rest, y, t);
    }
  }

  ghost predicate NoZero(events: seq<Event>) {
    forall y | 0 <= y < |events| :: events[y].addr != 0
  }

  lemma {:induction false} NoZeroKey(events: seq<Event>, t: int)
    requires NoZero(events)
    ensures 0 !in MemAt(events, t)
  {
    if events != [] {
      NoZeroKey(events[..|events| - 1], t);
    }
  }

  lemma {:induction false} RunningNoZero(words: seq<int>, x: nat, t: Trace)
    requires NoZero(t.events)
    ensures NoZero(Running(words, x, t).events)
    decreases |words| - x
  {
    if !(x + 4 > |words| || words[x + 1] == 0) {
      RunningNoZero(words, x + 4, Trace(t.events + [Event(t.end, words[x + 1], words[x + 2] * 0x1_0000 + words[x + 3])], t.end + words[x]));
    }
  }

  /** A write to address zero is an event of the source. */
  lemma {:induction false} ZeroEvent(m: RegMap, prog: seq<Inst>, x: nat)
    requires x < |prog| && ToZero(m, prog[x])
    ensures !NoZero(Source(m, prog).events)
  {
    var p := prog[..|prog| - 1];
    var before := Source(m, p).events;
    var after := Source(m, prog).events;
    assert before <= after;
    if x < |p| {
      ZeroEvent(m, p, x);
      var y :| 0 <= y < |before| && before[y].addr == 0;
      assert after[y] == before[y];
    } else {
      assert after[|before|].addr == 0;
    }
  }

  /** THE COMPILER THEOREM, exactly. The output means what the program means if and only if no
      instruction writes to address zero. */
  lemma PreservedExactly(m: RegMap, prog: seq<Inst>, width: nat)
    requires Assembled(m, prog, width).Ok?
    ensures SameMeaning(Sequencer(Assembled(m, prog, width).value), Source(m, prog)) <==> forall x | 0 <= x < |prog| :: !ToZero(m, prog[x])
  {
    AssemblerPreserves(m, prog, width);
    var out := Sequencer(Assembled(m, prog, width).value);
    var src := Source(m, prog);
    if !(forall x | 0 <= x < |prog| :: !ToZero(m, prog[x])) {
      var x :| 0 <= x < |prog| && ToZero(m, prog[x]);
      ZeroEvent(m, prog, x);
      var y :| 0 <= y < |src.events| && src.events[y].addr == 0;
      WrittenKey(src.events, y, src.events[y].time);
      RunningNoZero(Assembled(m, prog, width).value, 0, Trace([], 0));
      NoZeroKey(out.events, src.events[y].time);
    }
  }

  /** A write to address zero silently ends the program. */
  lemma ZeroTargetStops()
    ensures var m := RegMap(map["a" := RegInfo(0, 0), "b" := RegInfo(4, 0)], Some(0));
      var prog := [Set("a", 0, 1), Set("b", 0, 2)];
      Assembled(m, prog, 4).Ok? && !SameMeaning(Sequencer(Assembled(m, prog, 4).value), Source(m, prog))
  {
    var m := RegMap(map["a" := RegInfo(0, 0), "b" := RegInfo(4, 0)], Some(0));
    var first := [Set("a", 0, 1)];
    var prog := first + [Set("b", 0, 2)];
    assert prog == [Set("a", 0, 1), Set("b", 0, 2)];
    assert first[..0] == [] && prog[..1] == first;
    assert Resolve(m, "a", 0) == Ok(0) && Resolve(m, "b", 0) == Ok(4);
    assert [] + [0, 0, 1 / 0x1_0000 % 0x1_0000, 1 % 0x1_0000] == [0, 0, 0, 1];
    assert Step(m, [], first[0]) == Ok([0, 0, 0, 1]);
    assert Compiled(m, []) == Ok([]);
    assert Compiled(m, first) == Ok([0, 0, 0, 1]);
    assert Compiled(m, prog) == Ok([0, 0, 0, 1] + [0, 4, 0, 2]);
    assert Pow2(4) == 16;
    var code := Assembled(m, prog, 4).value;
    assert code[1] == 0;
    assert Sequencer(code) == Trace([], 0);
    var src := Source(m, prog);
    assert src.events == Source(m, first).events + [Event(0, 4, 2)];
    MemAppend(Source(m, first).events, Event(0, 4, 2), 0);
    assert 4 in MemAt(src.events, 0) && 4 !in MemAt([], 0);
  }
}
