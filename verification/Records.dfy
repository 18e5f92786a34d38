/** Register records: copying arrays between a record and the register caches, and the requests
    this makes. */
module Records {
  import opened EngineState
  import opened Partition
  import opened Safety
  import opened Worker
  import opened Strides
  import opened Numbers
  import opened DriverObjects
  import opened DriverShapes
  import opened Driver

  /** The INP/OUT link of a record; size limits reads of arrays when it is positive. */
  datatype Link = Link(offset: nat, step: nat, commit: bool, wait: bool, rbv: bool, size: nat, signed: bool)

  function WaitFor(link: Link, a: Action): Option<Action> {
    if link.wait then Some(a) else None
  }

  /* ---- writing ---- */

  function Contents(s: St, k: RegRef, raw: seq<Word>, link: Link): (tx: seq<Word>)
    requires k < |s.regs|
    ensures |tx| == |s.regs[k].memTx|
  {
    Scattered(s.regs[k].memTx, raw, link.offset, link.step)
  }

  /** The engine after a record has written: new contents to send and, with commit, a request. */
  function WriteOf(s: St, k: RegRef, raw: seq<Word>, link: Link, a: Action): (s': St)
    requires WF(s) && k < |s.regs|
    ensures WF(s')
  {
    var s1 := SetReg(s, k, s.regs[k].(memTx := Contents(s, k, raw, link)));
    if link.commit then Queue(s1, k, true, WaitFor(link, a)).s else s1
  }

  /** The loop of write_register_common over the send cache. */
  method Scatter(mem: seq<Word>, raw: seq<Word>, offset: nat, step: nat) returns (tx: seq<Word>)
    ensures tx == Scattered(mem, raw, offset, step)
  {
    tx := mem;
    var i, j := offset, 0;
    while i < |tx| && j < |raw|
      invariant 0 <= j <= |raw| && 0 <= i && |tx| == |mem|
      invariant Scattered(tx, raw[j..], i, step) == Scattered(mem, raw, offset, step)
      decreases |raw| - j
    {
      assert raw[j..][1..] == raw[j + 1..];
      tx := tx[i := raw[j]];
      i, j := i + step, j + 1;
    }
  }

  // write_register_common; ok is false where it returns ENODEV
  method WriteRegister(d: Device, k: Option<RegRef>, raw: seq<Word>, link: Link, pact: bool, a: Action) returns (ok: bool, pact': bool)
    requires d.Valid() && (k.Some? ==> k.value < |d.regs|)
    modifies d, d.regs
    ensures d.Valid() && (ok ==> k.Some? && k.value < |old(d.st).regs|)
    ensures k.Some? && k.value < |old(d.st).regs| ==>
      var r := old(d.st).regs[k.value];
      ok == (r.info.writable && link.offset < r.info.size && link.offset + |raw| <= r.info.size)
    ensures ok && !pact ==> d.st == WriteOf(old(d.st), k.value, raw, link, a)
    ensures !ok || pact ==> d.st == old(d.st)
    ensures pact' == (ok && !pact && link.commit && link.wait && (d.st.current == Inspecting || d.st.current == Running))
  {
    hide Device.Tables, WF, Reg.Valid, Msg.Valid, EngineState.Queue;
    d.TableSizes();
    ok, pact' := false, false;
    if k.None? {
      return;
    }
    d.RegAt(k.value);
    RegValid(d.st, k.value);
    SizeOf(d.st, k.value);
    var reg := d.regs[k.value];
    if !reg.info.writable || link.offset >= |reg.memTx| || |raw| > |reg.memTx| - link.offset {
      return;
    }
    ok := true;
    if pact {
      return;
    }
    var tx := Scatter(reg.memTx, raw, link.offset, link.step);
    assert |tx| == d.st.regs[k.value].info.size by { SizeOf(d.st, k.value); }
    d.Store(k.value, tx);
    if link.commit {
      d.TableSizes();
      NoThrow(d.st, k.value, WaitFor(link, a));
      var threw := d.Queue(k.value, true, WaitFor(link, a));
      if link.wait && (d.current == Inspecting || d.current == Running) {
        pact' := true;
      }
    }
  }

  lemma SizeOf(s: St, k: RegRef)
    requires WF(s) && k < |s.regs|
    ensures |s.regs[k].memTx| == |s.regs[k].memRx| == s.regs[k].info.size
  {
  }

  lemma NoThrow(s: St, k: RegRef, a: Option<Action>)
    requires WF(s) && k < |s.regs| && s.regs[k].info.writable
    ensures Queue(s, k, true, a).Go?
  {
  }

  /** A record's write is a change of the send cache followed, with commit, by a write request that
      carries its action if it waits: two steps of the worker's machine, so what holds of its runs
      holds of records. */
  lemma WriteIsSteps(y: Sys, k: RegRef, raw: seq<Word>, link: Link, a: Action)
    requires WF(y.s) && k < |y.s.regs|
    ensures var store := Store(k, Contents(y.s, k, raw, link));
      var request := Request(k, true, if link.wait then Some(a) else None);
      && Enabled(y, store) && Enabled(Next(y, store), request)
      && WriteOf(y.s, k, raw, link, a) == if link.commit then Next(Next(y, store), request).s else Next(y, store).s
  {
    SizeOf(y.s, k);
  }

  /* ---- reading ---- */

  /** Sign extension from bit width - 1 upwards, on 32 bits. */
  function Extended(val: Word, signed: bool, width: nat): Word
    requires 1 <= width <= 32
  {
    PowHalf(width - 1);
    var half := Pow2(width - 1);
    if signed && val >= half then WORD_LIMIT - half + val % half else val
  }

  /** A word as a signed 32-bit number. */
  function Signed(w: Word): int {
    if w < 0x8000_0000 then w else w - WORD_LIMIT
  }

  /** A register word of the given width, read as two's complement, keeps its value. */
  lemma ExtendedValue(val: Word, width: nat)
    requires 1 <= width <= 32 && val < Pow2(width)
    ensures Signed(Extended(val, true, width)) == if val < Pow2(width - 1) then val else val - Pow2(width)
  {
    PowHalf(width - 1);
    var half := Pow2(width - 1);
    if val >= half {
      assert val % half == val - half by { OneQuotient(val, half, 1, val - half); }
    }
  }

  /** What the record gets for one word: the low bits of the extended word. */
  function Element(val: Word, link: Link, dataWidth: nat, bits: nat): Word
    requires 1 <= dataWidth <= 32
  {
    LowBits(Extended(val, link.signed, dataWidth), Pow2(bits));
    Extended(val, link.signed, dataWidth) % Pow2(bits)
  }

  /** The number a register word of the given width stands for. */
  function Number(val: Word, signed: bool, width: nat): int
    requires 1 <= width
  {
    if signed && val >= Pow2(width - 1) then val - Pow2(width) else val
  }

  /** A number of so many bits in two's complement. */
  function TwosComplement(e: nat, bits: nat): int
    requires 1 <= bits
  {
    if e < Pow2(bits - 1) then e else e - Pow2(bits)
  }

  /** WHAT A RECORD READS. The element is the one value of the record's width that is congruent to
      the number in the register. */
  lemma ElementNumber(val: Word, link: Link, dataWidth: nat, bits: nat)
    requires 1 <= dataWidth <= 32 && bits <= 32 && val < Pow2(dataWidth)
    ensures var e := Element(val, link, dataWidth, bits);
      e < Pow2(bits) && (e - Number(val, link.signed, dataWidth)) % Pow2(bits) == 0
  {
    var x := Extended(val, link.signed, dataWidth);
    var n := Number(val, link.signed, dataWidth);
    ExtendedNumber(val, link.signed, dataWidth);
    WholeWords(bits);
    hide Extended, Number, Pow2;
    CongruentRest(x, n, Pow2(bits), if x == n then 0 else Pow2(32 - bits));
  }

  lemma WholeWords(bits: nat)
    requires bits <= 32
    ensures Pow2(32 - bits) * Pow2(bits) == WORD_LIMIT
  {
    PowSum(32 - bits, bits);
    PowValues();
  }

  lemma ExtendedNumber(val: Word, signed: bool, width: nat)
    requires 1 <= width <= 32 && val < Pow2(width)
    ensures var d := Extended(val, signed, width) - Number(val, signed, width);
      d == if signed && val >= Pow2(width - 1) then WORD_LIMIT else 0
  {
    PowHalf(width - 1);
    var half := Pow2(width - 1);
    if val >= half {
      OneQuotient(val, half, 1, val - half);
    }
  }

  lemma CongruentRest(x: nat, n: int, m: nat, c: nat)
    requires m > 0 && x - n == c * m
    ensures x % m < m && (x % m - n) % m == 0
  {
    var q := x / m;
    Divides(x, m);
    Distribute(c, q, m);
    OneQuotient(x % m - n, m, c - q, 0);
  }

  /** So a record at least as wide as the register reads its number, negative ones included. */
  lemma ElementValue(val: Word, link: Link, dataWidth: nat, bits: nat)
    requires 1 <= dataWidth <= bits <= 32 && val < Pow2(dataWidth)
    ensures var e := Element(val, link, dataWidth, bits);
      if link.signed then TwosComplement(e, bits) == (if val < Pow2(dataWidth - 1) then val else val - Pow2(dataWidth))
      else e == val
  {
    ElementNumber(val, link, dataWidth, bits);
    PowMono(dataWidth, bits);
    PowMono(dataWidth - 1, bits - 1);
    assert Pow2(dataWidth) == 2 * Pow2(dataWidth - 1) && Pow2(bits) == 2 * Pow2(bits - 1);
    hide Element, Pow2;
    OneCongruent(Element(val, link, dataWidth, bits), Number(val, link.signed, dataWidth), Pow2(dataWidth - 1), Pow2(bits - 1));
  }

  lemma OneCongruent(e: nat, n: int, h: nat, t: nat)
    requires h <= t && e < 2 * t && 0 <= n + h && n < 2 * h && (e - n) % (2 * t) == 0
    ensures e == if n < 0 then n + 2 * t else n
  {
    var d, m := e - n, 2 * t;
    var q := d / m;
    Divides(d, m);
    Distribute(q, 0, m);
    if q > 1 {
      AtLeast(q - 1, m);
      Distribute(q, 1, m);
    } else if q < 0 {
      AtLeast(-q, m);
      Distribute(0, q, m);
    }
  }

  lemma LowBits(a: nat, m: nat)
    requires m > 0
    ensures 0 <= a % m <= a
  {
  }

  /** An element written comes back unchanged exactly if it is within the register's width: always
      for an unsigned register, else when all bits from the sign bit up agree. */
  lemma ElementRoundTrip(x: Word, link: Link, dataWidth: nat, bits: nat)
    requires 1 <= dataWidth <= 32 && bits <= 32 && x < Pow2(bits)
    ensures Element(x, link, dataWidth, bits) == x <==>
      !link.signed || x < Pow2(dataWidth - 1) || x + Pow2(dataWidth - 1) >= Pow2(bits)
  {
    PowHalf(dataWidth - 1);
    if !link.signed || x < Pow2(dataWidth - 1) {
      OneQuotient(x, Pow2(bits), 0, x);
    } else {
      NarrowBits(x, dataWidth - 1, bits);
      NegativeElement(x, dataWidth - 1, bits);
    }
  }

  lemma NarrowBits(x: nat, d: nat, bits: nat)
    requires Pow2(d) <= x < Pow2(bits)
    ensures d < bits
  {
    if bits <= d {
      PowMono(bits, d);
    }
  }

  /** Above the sign bit the element becomes the top of its range plus the bits below the sign. */
  lemma NegativeElement(x: Word, d: nat, bits: nat)
    requires d < bits <= 32 && d <= 31 && Pow2(d) <= x < Pow2(bits)
    ensures Pow2(d) <= 0x8000_0000
    ensures (WORD_LIMIT - Pow2(d) + x % Pow2(d)) % Pow2(bits) == x <==> x + Pow2(d) >= Pow2(bits)
  {
    hide Pow2;
    PowHalf(d);
    PowSum(d, bits - d);
    PowSum(bits, 32 - bits);
    assert Pow2(bits) * Pow2(32 - bits) == WORD_LIMIT by { PowValues(); }
    TopElement(x, Pow2(d), Pow2(bits - d), Pow2(bits), Pow2(32 - bits), WORD_LIMIT);
  }

  lemma TopElement(x: nat, h: nat, p: nat, m: nat, c: nat, all: nat)
    requires h > 0 && p > 0 && c > 0 && x < m == h * p && m * c == all
    ensures (all - h + x % h) % m == x <==> x + h >= m
  {
    Divides(x, h);
    Factor(h, p);
    Distribute(c, 1, m);
    OneQuotient(all - h + x % h, m, c - 1, m - h + x % h);
    if x + h >= m {
      NearTop(x, h, p);
      Distribute(p, 1, h);
    }
  }

  /** Between the last multiple of h below p * h and p * h itself. */
  lemma NearTop(x: nat, h: nat, p: nat)
    requires h > 0 && p >= 1 && x < p * h && x + h >= p * h
    ensures x % h == x - (p - 1) * h
  {
    Distribute(p, 1, h);
    OneQuotient(x, h, p - 1, x - (p - 1) * h);
  }

  /* ---- read_register_common ---- */

  /** Not possible; copied so many elements; the request was refused; waiting for a read. */
  datatype ReadResult = NoAccess | Copied(count: nat) | Refused | Suspended

  function Cache(r: Reg, link: Link): seq<Word> {
    if link.rbv then r.memTx else r.memRx
  }

  /** Where a read stops: with an array a positive size is an absolute bound, not a count. */
  function Bound(r: Reg, link: Link, count: Option<nat>): nat {
    if count.Some? && 0 < link.size < r.info.size then link.size else r.info.size
  }

  function Elements(words: seq<Word>, link: Link, dataWidth: nat, bits: nat): (e: seq<Word>)
    requires 1 <= dataWidth <= 32
    ensures |e| == |words|
  {
    if words == [] then [] else [Element(words[0], link, dataWidth, bits)] + Elements(words[1..], link, dataWidth, bits)
  }

  function Wanted(count: Option<nat>): nat {
    if count.Some? then count.value else 1
  }

  function ReadOf(r: Reg, link: Link, count: Option<nat>, bits: nat): seq<Word>
    requires r.Valid() && 1 <= r.info.dataWidth <= 32
  {
    Elements(Gathered(Cache(r, link), link.offset, link.step, Bound(r, link, count), Wanted(count)), link, r.info.dataWidth, bits)
  }

  /** The loop of read_register_common into the record's buffer. */
  method CopyOut(mem: seq<Word>, out: array<Word>, link: Link, bound: nat, nreq: nat, dataWidth: nat, bits: nat) returns (n: nat)
    requires bound <= |mem| && nreq <= out.Length && 1 <= dataWidth <= 32
    modifies out
    ensures n <= nreq && out[..n] == Elements(Gathered(mem, link.offset, link.step, bound, nreq), link, dataWidth, bits)
    ensures out[n..] == old(out[n..])
  {
    hide Element, Elements, Gathered;
    n := 0;
    var i: nat := link.offset;
    ghost var all := Elements(Gathered(mem, i, link.step, bound, nreq), link, dataWidth, bits);
    while i < bound && n < nreq
      invariant n <= nreq && forall x | n <= x < out.Length :: out[x] == old(out[x])
      invariant all == out[..n] + Elements(Gathered(mem, i, link.step, bound, nreq - n), link, dataWidth, bits)
      decreases nreq - n
    {
      NextElement(mem, i, link, bound, nreq - n, dataWidth, bits);
      ghost var before := out[..n];
      out[n] := Element(mem[i], link, dataWidth, bits);
      assert out[..n + 1] == before + [Element(mem[i], link, dataWidth, bits)];
      i, n := i + link.step, n + 1;
    }
    LastElement(mem, i, link, bound, nreq - n, dataWidth, bits);
  }

  lemma NextElement(mem: seq<Word>, i: nat, link: Link, bound: nat, n: nat, dataWidth: nat, bits: nat)
    requires i < bound <= |mem| && n > 0 && 1 <= dataWidth <= 32
    ensures Elements(Gathered(mem, i, link.step, bound, n), link, dataWidth, bits)
      == [Element(mem[i], link, dataWidth, bits)] + Elements(Gathered(mem, i + link.step, link.step, bound, n - 1), link, dataWidth, bits)
  {
    assert Gathered(mem, i, link.step, bound, n)[1..] == Gathered(mem, i + link.step, link.step, bound, n - 1);
  }

  lemma LastElement(mem: seq<Word>, i: nat, link: Link, bound: nat, n: nat, dataWidth: nat, bits: nat)
    requires bound <= |mem| && (n == 0 || i >= bound) && 1 <= dataWidth <= 32
    ensures Elements(Gathered(mem, i, link.step, bound, n), link, dataWidth, bits) == []
  {
  }

  method ReadRegister(d: Device, k: Option<RegRef>, out: array<Word>, count: Option<nat>, bits: nat, link: Link, ioIntr: bool, pact: bool, a: Action)
      returns (res: ReadResult, pact': bool)
    requires d.Valid() && (k.Some? ==> k.value < |d.regs| && 1 <= d.regs[k.value].info.dataWidth <= 32) && Wanted(count) <= out.Length
    modifies d, d.regs, out
    ensures d.Valid() && (res != NoAccess ==> k.Some? && k.value < |old(d.st).regs|)
    ensures k.Some? && k.value < |old(d.st).regs| ==>
      var f := old(d.st).regs[k.value].info;
      res != NoAccess <==> link.offset < f.size && if link.rbv then f.writable else f.readable
    ensures res != NoAccess ==>
      (res.Copied? <==> ioIntr || !link.wait || pact || (old(d.st).current != Inspecting && old(d.st).current != Running))
    ensures res.Copied? || res == NoAccess ==> d.st == old(d.st) && !pact'
    ensures res.Copied? ==>
      && k.value < |old(d.st).regs| && old(d.st).regs[k.value].Valid() && 1 <= old(d.st).regs[k.value].info.dataWidth <= 32
      && res.count <= out.Length && out[res.count..] == old(out[..])[res.count..]
      && out[..res.count] == ReadOf(old(d.st).regs[k.value], link, count, bits)
    ensures res == Refused || res == Suspended ==>
      && k.value < |old(d.st).regs|
      && var o := Queue(old(d.st), k.value, false, Some(a));
        d.st == o.s && pact' == o.Go? && (res == Suspended <==> o.Go?)
  {
    hide Device.Tables, WF, Msg.Valid, EngineState.Queue;
    d.TableSizes();
    pact' := false;
    if k.None? {
      return NoAccess, false;
    }
    d.RegAt(k.value);
    RegValid(d.st, k.value);
    var reg := d.regs[k.value];
    assert reg.info == d.st.regs[k.value].info;
    var mem := if link.rbv then reg.memTx else reg.memRx;
    var nreq := if count.Some? then count.value else 1;
    var size := if count.Some? && 0 < link.size < |mem| then link.size else |mem|;
    if !link.rbv && !reg.info.readable {
      return NoAccess, false;
    } else if link.rbv && !reg.info.writable {
      return NoAccess, false;
    } else if link.offset >= |mem| {
      return NoAccess, false;
    }
    if ioIntr || !link.wait || pact || !(d.current == Inspecting || d.current == Running) {
      ghost var r := d.st.regs[k.value];
      assert mem == Cache(r, link) && size == Bound(r, link, count) && nreq == Wanted(count);
      var n := CopyOut(mem, out, link, size, nreq, reg.info.dataWidth, bits);
      return Copied(n), false;
    }
    var threw := d.Queue(k.value, false, Some(a));
    if threw {
      return Refused, false;
    }
    return Suspended, true;
  }

  /** WHERE A RECORD WRITES: element j goes to the word at offset + j * step, as far as there is one,
      and every other word of the send cache stays. */
  lemma WritesAt(s: St, k: RegRef, raw: seq<Word>, link: Link, a: Action, x: nat)
    requires WF(s) && k < |s.regs| && link.step > 0 && x < s.regs[k].info.size
    ensures k < |WriteOf(s, k, raw, link, a).regs| && |s.regs[k].memTx| == |WriteOf(s, k, raw, link, a).regs[k].memTx| == s.regs[k].info.size
    ensures var tx := WriteOf(s, k, raw, link, a).regs[k].memTx;
      && (forall j | 0 <= j < |raw| && x == link.offset + j * link.step :: tx[x] == raw[j])
      && ((forall j | 0 <= j < |raw| :: x != link.offset + j * link.step) ==> tx[x] == s.regs[k].memTx[x])
  {
    hide WF, WriteOf, Scattered;
    WrittenCache(s, k, raw, link, a);
    SizeOf(s, k);
    ScatteredAt(s.regs[k].memTx, raw, link.offset, link.step, x);
    LandedAt(|raw|, link.offset, link.step, x);
  }

  lemma LandedAt(n: nat, i: nat, step: nat, x: nat)
    requires step > 0
    ensures var l := Landed(n, i, step, x);
      && (forall j | 0 <= j < n && x == i + j * step :: l == j)
      && (0 <= l < n ==> x == i + l * step)
  {
    forall j | 0 <= j < n && x == i + j * step ensures Landed(n, i, step, x) == j {
      OneQuotient(x - i, step, j, 0);
    }
    Divides(x - i, step);
  }

  /** WHAT A RECORD READS: without rbv the receive cache, with it the send cache; element j comes from
      offset + j * step and is the record's number of bits congruent to the number in that word. */
  lemma ReadsNumbers(r: Reg, link: Link, count: Option<nat>, bits: nat, j: nat)
    requires r.Valid() && 1 <= r.info.dataWidth <= 32 && bits <= 32 && link.step > 0
    requires j < |ReadOf(r, link, count, bits)|
    requires link.offset + j * link.step < r.info.size ==>
      (if link.rbv then r.memTx else r.memRx)[link.offset + j * link.step] < Pow2(r.info.dataWidth)
    ensures var x := link.offset + j * link.step;
      var limit := if count.Some? && 0 < link.size < r.info.size then link.size else r.info.size;
      && x < limit && j < (if count.Some? then count.value else 1)
      && var e := ReadOf(r, link, count, bits)[j];
      e < Pow2(bits) && (e - Number((if link.rbv then r.memTx else r.memRx)[x], link.signed, r.info.dataWidth)) % Pow2(bits) == 0
  {
    hide Element, Number, Gathered;
    var mem := Cache(r, link);
    var words := Gathered(mem, link.offset, link.step, Bound(r, link, count), Wanted(count));
    GatheredAt(mem, link.offset, link.step, Bound(r, link, count), Wanted(count), j);
    ElementsAt(words, link, r.info.dataWidth, bits, j);
    ElementNumber(words[j], link, r.info.dataWidth, bits);
  }

  /** And it reads as many elements as it asks for, or as there are. */
  lemma ReadsAll(r: Reg, link: Link, count: Option<nat>, bits: nat)
    requires r.Valid() && 1 <= r.info.dataWidth <= 32 && link.step > 0
    ensures var n := |ReadOf(r, link, count, bits)|;
      var limit := if count.Some? && 0 < link.size < r.info.size then link.size else r.info.size;
      var wanted := if count.Some? then count.value else 1;
      n == wanted || (n < wanted && link.offset + n * link.step >= limit)
  {
    hide Element, Gathered, Fits;
    GatheredAt(Cache(r, link), link.offset, link.step, Bound(r, link, count), Wanted(count), 0);
    FitsAll(link.offset, link.step, Bound(r, link, count));
  }

  lemma FitsAll(i: nat, step: nat, bound: nat)
    requires step > 0
    ensures i + Fits(i, step, bound) * step >= bound
  {
    if i < bound {
      Divides(bound - i + step - 1, step);
    }
  }

  lemma {:induction false} ElementsAt(words: seq<Word>, link: Link, dataWidth: nat, bits: nat, j: nat)
    requires 1 <= dataWidth <= 32 && j < |words|
    ensures Elements(words, link, dataWidth, bits)[j] == Element(words[j], link, dataWidth, bits)
  {
    if j > 0 {
      ElementsAt(words[1..], link, dataWidth, bits, j - 1);
    }
  }

  /** An element that the register is wide enough for. */
  predicate Representable(x: Word, link: Link, dataWidth: nat, bits: nat)
    requires 1 <= dataWidth
  {
    x < Pow2(bits) && (!link.signed || x < Pow2(dataWidth - 1) || x + Pow2(dataWidth - 1) >= Pow2(bits))
  }

  lemma WrittenCache(s: St, k: RegRef, raw: seq<Word>, link: Link, a: Action)
    requires WF(s) && k < |s.regs|
    ensures k < |WriteOf(s, k, raw, link, a).regs|
    ensures var r := WriteOf(s, k, raw, link, a).regs[k];
      r.Valid() && r.info == s.regs[k].info && r.memTx == Contents(s, k, raw, link)
  {
    hide Queue, Msg.Valid;
    var s1 := SetReg(s, k, s.regs[k].(memTx := Contents(s, k, raw, link)));
    QueueKeepsTx(s1, k, true, WaitFor(link, a));
  }

  lemma QueueKeepsTx(s: St, k: RegRef, write: bool, action: Option<Action>)
    requires WF(s) && k < |s.regs|
    ensures var r := Queue(s, k, write, action).s.regs[k];
      r.Valid() && r.info == s.regs[k].info && r.memTx == s.regs[k].memTx
  {
    hide Msg.Valid;
  }

  /** What a record has written, a readback record with the same link returns, element by element,
      whatever the state of the register and whether or not the write has been requested. */
  lemma ReadsBackWritten(s: St, k: RegRef, raw: seq<Word>, link: Link, a: Action, bits: nat)
    requires WF(s) && k < |s.regs| && link.rbv && link.size == 0 && link.step > 0 && bits <= 32
    requires 1 <= s.regs[k].info.dataWidth <= 32 && |raw| <= Fits(link.offset, link.step, s.regs[k].info.size)
    requires forall j | 0 <= j < |raw| :: Representable(raw[j], link, s.regs[k].info.dataWidth, bits)
    ensures k < |WriteOf(s, k, raw, link, a).regs|
    ensures var r := WriteOf(s, k, raw, link, a).regs[k];
      r.Valid() && 1 <= r.info.dataWidth <= 32 && ReadOf(r, link, Some(|raw|), bits) == raw
  {
    hide WF, WriteOf;
    WrittenCache(s, k, raw, link, a);
    SizeOf(s, k);
    RoundTrip(s.regs[k].memTx, raw, link.offset, link.step);
    forall j | 0 <= j < |raw| ensures Elements(raw, link, s.regs[k].info.dataWidth, bits)[j] == raw[j] {
      ElementsAt(raw, link, s.regs[k].info.dataWidth, bits, j);
      assert Representable(raw[j], link, s.regs[k].info.dataWidth, bits);
      ElementRoundTrip(raw[j], link, s.regs[k].info.dataWidth, bits);
    }
    assert Elements(raw, link, s.regs[k].info.dataWidth, bits) == raw;
  }
}
