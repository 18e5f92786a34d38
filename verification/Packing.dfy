/** The first pass of handle_send refines a first-in first-out queue of words. */
module Packing {
  import opened EngineState
  import opened Partition

  /** A command word together with the register it is for. */
  datatype Item = Item(k: RegRef, cmd: int)

  /** The words of a register from offset o on, ascending. */
  function Rest(r: Reg, k: RegRef, o: nat): seq<Item>
    decreases r.info.size - o
  {
    if o >= r.info.size then [] else [Item(k, r.Command(o))] + Rest(r, k, o + 1)
  }

  function RestOf(regs: seq<Reg>, k: RegRef): seq<Item> {
    if k < |regs| then Rest(regs[k], k, regs[k].nextSend) else []
  }

  /** What the queue still has to send: register after register, word after word. */
  function Pending(regs: seq<Reg>, send: seq<RegRef>): seq<Item> {
    if send == [] then [] else RestOf(regs, send[0]) + Pending(regs, send[1..])
  }

  predicate UsedAt(m: Msg, j: nat) {
    j < |m.reg| && m.reg[j].Some?
  }

  function ItemAt(m: Msg, j: nat): Item
    requires UsedAt(m, j)
  {
    Item(m.reg[j].value, if 2 * j + 2 < |m.buf| then m.buf[2 * j + 2] else 0)
  }

  /** The words message b carries beyond those of a, in slot order from j on. */
  function NewWords(a: Msg, b: Msg, j: nat): seq<Item>
    decreases NREG - j
  {
    if j >= NREG then []
    else (if UsedAt(b, j) && !UsedAt(a, j) then [ItemAt(b, j)] else []) + NewWords(a, b, j + 1)
  }

  /** The same over all messages from i on. */
  function AllNew(a: seq<Msg>, b: seq<Msg>, i: nat): seq<Item>
    requires |a| == |b|
    decreases |a| - i
  {
    if i >= |a| then [] else NewWords(a[i], b[i], 0) + AllNew(a, b, i + 1)
  }

  lemma {:induction false} PendingOthers(regs: seq<Reg>, send: seq<RegRef>, k: RegRef, r': Reg)
    requires k < |regs| && k !in send
    ensures Pending(regs[k := r'], send) == Pending(regs, send)
  {
    if send != [] {
      PendingOthers(regs, send[1..], k, r');
    }
  }

  lemma {:induction false} RestProgress(r: Reg, n: nat, k: RegRef, o: nat)
    ensures Rest(r.(nextSend := n), k, o) == Rest(r, k, o)
    decreases r.info.size - o
  {
    if o < r.info.size {
      RestProgress(r, n, k, o + 1);
    }
  }

  lemma TailOthers(regs: seq<Reg>, send: seq<RegRef>)
    requires SendOk(regs, send) && send != []
    ensures send[0] !in send[1..] && send[0] < |regs| && HasUnsent(regs[send[0]])
  {
  }

  lemma RestFirst(r: Reg, k: RegRef)
    requires r.nextSend < r.info.size
    ensures var r' := r.(nextSend := r.nextSend + 1);
      Rest(r, k, r.nextSend) == [Item(k, r.Command(r.nextSend))] + Rest(r', k, r'.nextSend)
  {
    RestProgress(r, r.nextSend + 1, k, r.nextSend + 1);
  }

  /** Loading a word takes the first item of the queue. */
  lemma LoadTakesFirst(regs: seq<Reg>, send: seq<RegRef>)
    requires SendOk(regs, send) && send != [] && send[0] < |regs|
    ensures var k := send[0];
      var r' := regs[k].(nextSend := regs[k].nextSend + 1);
      var send' := if regs[k].nextSend + 1 >= regs[k].info.size then send[1..] else send;
      Pending(regs, send) == [Item(k, regs[k].Command(regs[k].nextSend))] + Pending(regs[k := r'], send')
  {
    hide SendOk, Rest;
    var k := send[0];
    var r := regs[k];
    var r' := r.(nextSend := r.nextSend + 1);
    TailOthers(regs, send);
    PendingOthers(regs, send[1..], k, r');
    RestFirst(r, k);
    RestDone(r', k);
    var first := [Item(k, r.Command(r.nextSend))];
    var rest := Rest(r', k, r'.nextSend);
    var tail := Pending(regs, send[1..]);
    assert Pending(regs, send) == (first + rest) + tail;
    assert (first + rest) + tail == first + (rest + tail);
    if r.nextSend + 1 >= r.info.size {
      assert rest + tail == tail;
    } else {
      assert Pending(regs[k := r'], send) == rest + tail;
    }
  }

  lemma RestDone(r: Reg, k: RegRef)
    ensures r.nextSend >= r.info.size ==> Rest(r, k, r.nextSend) == []
  {
  }

  /** The message built from m by filling address slots from j on. */
  predicate KeepsFront(m: Msg, m': Msg, j: nat) {
    forall y | 0 <= y < j && UsedAt(m, y) :: UsedAt(m', y) && ItemAt(m', y) == ItemAt(m, y)
  }

  lemma LoadedKeeps(m: Msg, j: nat, k: RegRef, w: Word, v: Word, nregs: nat)
    requires m.Valid(nregs) && j < NREG
    ensures KeepsFront(m, Loaded(m, j, k, w, v), j) && UsedAt(Loaded(m, j, k, w, v), j)
    ensures ItemAt(Loaded(m, j, k, w, v), j) == Item(k, w)
    ensures forall y | j < y :: UsedAt(Loaded(m, j, k, w, v), y) == UsedAt(m, y)
  {
  }

  lemma LoadWordMsg(s: St, i: nat, j: nat)
    requires WF(s) && CanLoad(s, i, j) && FrontHasWord(s)
    ensures var r := s.regs[s.send[0]];
      var v := if r.state == Reading then 0 else r.memTx[r.nextSend];
      && LoadWord(s, i, j).slots[i] == Loaded(s.slots[i], j, s.send[0], r.Cmd(r.nextSend), v)
      && s.slots[i].Valid(|s.regs|)
  {
  }

  /** LoadSlot from j on leaves the address slots before j as they are. */
  lemma {:induction false} LoadSlotKeepsFront(s: St, i: nat, j: nat)
    requires WF(s) && i < |s.slots| && j <= NREG && s.slots[i].state != Sent
    requires 0 < j ==> s.slots[i].reg[j - 1].Some?
    ensures KeepsFront(s.slots[i], LoadSlot(s, i, j).slots[i], j)
    decreases NREG - j
  {
    hide KeepsFront;
    hide LoadWord, Loaded;
    var m := s.slots[i];
    if j == NREG || !FrontHasWord(s) {
      KeepsSelf(m, j);
    } else if m.reg[j].Some? {
      LoadSlotKeepsFront(s, i, j + 1);
      KeepsFewer(m, LoadSlot(s, i, j + 1).slots[i], j);
    } else {
      var s1 := LoadWord(s, i, j);
      var r := s.regs[s.send[0]];
      LoadWordMsg(s, i, j);
      LoadedKeeps(m, j, s.send[0], r.Cmd(r.nextSend), if r.state == Reading then 0 else r.memTx[r.nextSend], |s.regs|);
      LoadSlotKeepsFront(s1, i, j + 1);
      KeepsTrans(m, s1.slots[i], LoadSlot(s1, i, j + 1).slots[i], j);
    }
  }

  lemma KeepsSelf(m: Msg, j: nat)
    ensures KeepsFront(m, m, j)
  {
  }

  lemma KeepsFewer(m: Msg, m': Msg, j: nat)
    requires KeepsFront(m, m', j + 1)
    ensures KeepsFront(m, m', j)
  {
  }

  lemma KeepsTrans(a: Msg, b: Msg, c: Msg, j: nat)
    requires KeepsFront(a, b, j) && KeepsFront(b, c, j + 1)
    ensures KeepsFront(a, c, j)
  {
  }

  lemma {:induction false} NewWordsFrom(a: Msg, a': Msg, b: Msg, j: nat)
    requires forall y | j <= y :: UsedAt(a, y) == UsedAt(a', y)
    ensures NewWords(a, b, j) == NewWords(a', b, j)
    decreases NREG - j
  {
    if j < NREG {
      NewWordsFrom(a, a', b, j + 1);
    }
  }

  lemma {:induction false} NothingNew(a: Msg, b: Msg, j: nat)
    requires b.reg == a.reg
    ensures NewWords(a, b, j) == []
    decreases NREG - j
  {
    if j < NREG {
      NothingNew(a, b, j + 1);
    }
  }

  lemma WordTaken(s: St, i: nat, j: nat)
    requires WF(s) && SendOk(s.regs, s.send) && CanLoad(s, i, j) && FrontHasWord(s)
    ensures var k := s.send[0];
      var s1 := LoadWord(s, i, j);
      Pending(s.regs, s.send) == [Item(k, s.regs[k].Command(s.regs[k].nextSend))] + Pending(s1.regs, s1.send)
  {
    hide SendOk, Pending;
    assert s.send[0] < |s.regs|;
    LoadTakesFirst(s.regs, s.send);
  }

  lemma SkipUsed(a: Msg, b: Msg, j: nat)
    requires j < NREG && UsedAt(a, j)
    ensures NewWords(a, b, j) == NewWords(a, b, j + 1)
  {
  }

  lemma {:induction false} LoadSlotRefines(s: St, i: nat, j: nat)
    requires Inv(s) && i < |s.slots| && j <= NREG && s.slots[i].state != Sent
    requires 0 < j ==> s.slots[i].reg[j - 1].Some?
    ensures var s' := LoadSlot(s, i, j);
      Pending(s.regs, s.send) == NewWords(s.slots[i], s'.slots[i], j) + Pending(s'.regs, s'.send)
    decreases NREG - j
  {
    hide RegsOk, WordsOk, Unique, Covered, SendOk, Pending, NewWords, LoadWord;
    var s' := LoadSlot(s, i, j);
    var m := s.slots[i];
    if j == NREG || !FrontHasWord(s) {
      NothingNew(m, m, j);
    } else if m.reg[j].Some? {
      LoadSlotRefines(s, i, j + 1);
      SkipUsed(m, s'.slots[i], j);
    } else {
      var s1 := LoadWord(s, i, j);
      LoadInv(s, i, j);
      WordTaken(s, i, j);
      LoadSlotRefines(s1, i, j + 1);
      FirstNew(s, i, j);
      var item := Item(s.send[0], s.regs[s.send[0]].Command(s.regs[s.send[0]].nextSend));
      var new1 := NewWords(s1.slots[i], s'.slots[i], j + 1);
      assert [item] + (new1 + Pending(s'.regs, s'.send)) == ([item] + new1) + Pending(s'.regs, s'.send);
    }
  }

  /** The word loaded into slot j comes first among the new words. */
  lemma FirstNew(s: St, i: nat, j: nat)
    requires WF(s) && CanLoad(s, i, j) && FrontHasWord(s)
    ensures var k := s.send[0];
      var s1 := LoadWord(s, i, j);
      var b := LoadSlot(s1, i, j + 1).slots[i];
      NewWords(s.slots[i], b, j) == [Item(k, s.regs[k].Command(s.regs[k].nextSend))] + NewWords(s1.slots[i], b, j + 1)
  {
    hide LoadSlot, LoadWord, Loaded, KeepsFront, NewWords;
    var s1 := LoadWord(s, i, j);
    var r := s.regs[s.send[0]];
    LoadWordMsg(s, i, j);
    LoadedKeeps(s.slots[i], j, s.send[0], r.Cmd(r.nextSend), if r.state == Reading then 0 else r.memTx[r.nextSend], |s.regs|);
    LoadSlotKeepsFront(s1, i, j + 1);
    FirstNewWord(s.slots[i], s1.slots[i], LoadSlot(s1, i, j + 1).slots[i], j);
  }

  lemma FirstNewWord(a: Msg, c: Msg, b: Msg, j: nat)
    requires j < NREG && !UsedAt(a, j) && UsedAt(c, j) && KeepsFront(c, b, j + 1)
    requires forall y | j < y :: UsedAt(c, y) == UsedAt(a, y)
    ensures NewWords(a, b, j) == [ItemAt(c, j)] + NewWords(c, b, j + 1)
  {
    NewWordsFrom(a, c, b, j + 1);
  }

  /** LoadPass from i on leaves the messages before i as they are. */
  lemma {:induction false} LoadPassKeepsFront(s: St, i: nat, x: nat)
    requires WF(s) && x < i <= |s.slots|
    ensures LoadPass(s, i).slots[x] == s.slots[x]
    decreases |s.slots| - i
  {
    hide LoadSlot, MarkReady, FrontHasWord, Reg.Valid, Msg.Valid;
    if i == |s.slots| || !FrontHasWord(s) {
    } else if s.slots[i].state == Sent {
      LoadPassKeepsFront(s, i + 1, x);
    } else {
      MarkedSlots(LoadSlot(s, i, 0), i);
      LoadPassKeepsFront(MarkReady(LoadSlot(s, i, 0), i), i + 1, x);
    }
  }

  lemma MarkedSlots(s: St, i: nat)
    requires WF(s) && i < |s.slots| && s.slots[i].state != Sent
    ensures var s' := MarkReady(s, i);
      && OnlySlot(s, s', i) && s'.regs == s.regs && s'.send == s.send
      && s'.slots[i].reg == s.slots[i].reg && s'.slots[i].buf == s.slots[i].buf
  {
  }

  lemma {:induction false} AllNewNone(a: seq<Msg>, i: nat)
    ensures AllNew(a, a, i) == []
    decreases |a| - i
  {
    if i < |a| {
      NothingNew(a[i], a[i], 0);
      AllNewNone(a, i + 1);
    }
  }

  lemma {:induction false} AllNewFrom(a: seq<Msg>, a': seq<Msg>, b: seq<Msg>, i: nat)
    requires |a| == |a'| == |b| && forall x | i <= x < |a| :: a[x] == a'[x]
    ensures AllNew(a, b, i) == AllNew(a', b, i)
    decreases |a| - i
  {
    hide NewWords;
    if i < |a| {
      AllNewFrom(a, a', b, i + 1);
    }
  }

  lemma {:induction false} LoadPassRefines(s: St, i: nat)
    requires Inv(s) && i <= |s.slots|
    ensures var s' := LoadPass(s, i);
      Pending(s.regs, s.send) == AllNew(s.slots, s'.slots, i) + Pending(s'.regs, s'.send)
    decreases |s.slots| - i
  {
    hide RegsOk, WordsOk, Unique, Covered, SendOk, Pending, LoadSlot, MarkReady, NewWords;
    var s' := LoadPass(s, i);
    if i == |s.slots| || !FrontHasWord(s) {
      AllNewNone(s.slots, i);
    } else if s.slots[i].state == Sent {
      LoadPassKeepsFront(s, i + 1, i);
      NothingNew(s.slots[i], s.slots[i], 0);
      LoadPassRefines(s, i + 1);
    } else {
      var s1 := LoadSlot(s, i, 0);
      var s2 := MarkReady(s1, i);
      LoadSlotInv(s, i, 0);
      MarkInv(s1, i);
      MarkedSlots(s1, i);
      LoadSlotRefines(s, i, 0);
      LoadPassRefines(s2, i + 1);
      LoadPassKeepsFront(s2, i + 1, i);
      SameNew(s.slots[i], s1.slots[i], s2.slots[i], 0);
      AllNewFrom(s.slots, s2.slots, s'.slots, i + 1);
      var new1 := NewWords(s.slots[i], s2.slots[i], 0);
      var new2 := AllNew(s.slots, s'.slots, i + 1);
      assert AllNew(s.slots, s'.slots, i) == new1 + new2;
      assert new1 + (new2 + Pending(s'.regs, s'.send)) == (new1 + new2) + Pending(s'.regs, s'.send);
    }
  }

  lemma {:induction false} SameNew(a: Msg, b: Msg, b': Msg, j: nat)
    requires b'.reg == b.reg && b'.buf == b.buf
    ensures NewWords(a, b', j) == NewWords(a, b, j)
    decreases NREG - j
  {
    if j < NREG {
      SameNew(a, b, b', j + 1);
    }
  }

  /** THE PACKING THEOREM. What the first pass puts into the messages, read in slot order, is what
      it takes from the front of the queue: the words of each register ascending, the registers
      first in, first out. */
  lemma FirstPassRefinesQueue(s: St)
    requires Inv(s)
    ensures var s' := LoadPass(s, 0);
      Pending(s.regs, s.send) == AllNew(s.slots, s'.slots, 0) + Pending(s'.regs, s'.send)
  {
    LoadPassRefines(s, 0);
  }
}
