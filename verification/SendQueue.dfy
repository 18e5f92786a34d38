/** The send queue is first in, first out: while nothing fails, registers enter at the end and
    leave at the front, and nothing else happens to it. */
module SendQueue {
  import opened EngineState
  import opened Partition
  import opened Worker
  import opened Safety
  import opened EndToEndQueue
  import opened NetRuns
  import opened Waits

  /** Some registers have been added at the end, then some have left at the front. */
  ghost predicate Fifo(a: seq<RegRef>, b: seq<RegRef>) {
    exists q: seq<RegRef>, n: nat :: FifoBy(a, b, q, n)
  }

  predicate FifoBy(a: seq<RegRef>, b: seq<RegRef>, q: seq<RegRef>, n: nat) {
    n <= |a + q| && b == (a + q)[n..]
  }

  /* ---- packets only add ---- */

  lemma AcceptAppends(s: St, k: RegRef, o: nat, read: bool, data: Word)
    requires WF(s) && k < |s.regs| && o < s.regs[k].info.size
    ensures var a := Accept(s, k, o, read, data); a.Go? ==> s.send <= a.s.send
  {
    hide Complete, Filled, Completed, WF;
    assert s.regs[k].Valid() by { ValidReg(s, k); }
    var s1 := SetReg(s, k, Filled(s.regs[k], o, read, data));
    if Complete(s1, k).Go? {
      CompleteShape(s1, k);
    }
  }

  lemma ValidReg(s: St, k: RegRef)
    requires WF(s) && k < |s.regs|
    ensures s.regs[k].Valid()
  {
  }

  lemma WordAppends(s: St, i: nat, j: nat, w: seq<Word>)
    requires Inv(s) && i < |s.slots| && j < NREG && s.slots[i].state == Sent
    ensures var o := ProcessWord(s, i, j, w); o.Go? && !o.s.resetReq ==> s.send <= o.s.send
  {
    hide RegsOk, SendOk, WordsOk, Unique, Covered, Accept, AcceptAt;
    var m := s.slots[i];
    assert m.Valid(|s.regs|);
    if m.reg[j].Some? && s.regs[m.reg[j].value].InProgress() && 2 * j + 3 < |w| && Masked(w[2 * j + 2]) == m.buf[2 * j + 2] {
      AcceptedWord(s, i, j, w);
      var k := m.reg[j].value;
      AcceptAppends(ClearWord(s, i, j), k, OffsetOf(s.regs[k], m.buf[2 * j + 2]), s.regs[k].state == Reading, w[2 * j + 3]);
    }
  }

  lemma {:induction false} WordsAppend(s: St, i: nat, j: nat, w: seq<Word>)
    requires Inv(s) && i < |s.slots| && j <= NREG && s.slots[i].state == Sent
    ensures var o := ProcessWords(s, i, j, w); o.Go? && !o.s.resetReq ==> s.send <= o.s.send
    decreases NREG - j
  {
    hide RegsOk, SendOk, WordsOk, Unique, Covered, ProcessWord;
    if j < NREG {
      var o := ProcessWord(s, i, j, w);
      ProcessWordInv(s, i, j, w);
      WordAppends(s, i, j, w);
      if o.Go? && !o.s.resetReq {
        WordsAppend(o.s, i, j + 1, w);
      }
    }
  }

  lemma PacketAppends(s: St, w: seq<Word>)
    requires Inv(s)
    ensures var o := HandleProcess(s, w); o.Go? && !o.s.resetReq ==> s.send <= o.s.send
  {
    hide RegsOk, SendOk, WordsOk, Unique, Covered, ProcessWords;
    if |w| >= 8 && Matches(s, w, w[1] / ADDR_LIMIT) {
      WordsAppend(s, w[1] / ADDR_LIMIT, 0, w);
    }
  }

  lemma {:induction false} PacketsAppend(s: St, packets: seq<seq<Word>>)
    requires Inv(s)
    ensures var o := ProcessAll(s, packets); o.Go? && !o.s.resetReq ==> s.send <= o.s.send
    decreases |packets|
  {
    hide RegsOk, SendOk, WordsOk, Unique, Covered, HandleProcess;
    if packets != [] {
      var o := HandleProcess(s, packets[0]);
      HandleProcessInv(s, packets[0]);
      PacketAppends(s, packets[0]);
      if o.Go? && !o.s.resetReq {
        PacketsAppend(o.s, packets[1..]);
      }
    }
  }

  /** A request that starts an operation puts its register last; any other leaves the queue alone. */
  lemma QueueAppends(s: St, k: RegRef, write: bool, action: Option<Action>)
    requires WF(s) && k < |s.regs|
    ensures var o := Queue(s, k, write, action);
      o.s.send == if o.Go? && !s.regs[k].InProgress() then s.send + [k] else s.send
  {
  }

  lemma StateAppends(s: St, rom: RomMap)
    requires WF(s) && ValidMap(rom) && !Resetting(s)
    ensures s.send <= HandleState(s, rom).res.s.send
  {
    hide Queue, AddRegs, Reg.Valid, Msg.Valid;
    QueueAppends(s, REG_ROM2, false, None);
    QueueAppends(Queue(s, REG_ROM2, false, None).s, REG_ROM16, false, None);
    QueueAppends(s, REG_ID, false, None);
  }

  /* ---- sending only takes from the front ---- */

  ghost predicate Drops(a: seq<RegRef>, b: seq<RegRef>) {
    |b| <= |a| && b == a[|a| - |b|..]
  }

  lemma DropsTwice(a: seq<RegRef>, b: seq<RegRef>, c: seq<RegRef>)
    requires Drops(a, b) && Drops(b, c)
    ensures Drops(a, c)
  {
  }

  lemma DropsNone(a: seq<RegRef>)
    ensures Drops(a, a)
  {
  }

  lemma {:induction false} LoadSlotDrops(s: St, i: nat, j: nat)
    requires WF(s) && i < |s.slots| && j <= NREG && s.slots[i].state != Sent
    requires 0 < j ==> s.slots[i].reg[j - 1].Some?
    ensures Drops(s.send, LoadSlot(s, i, j).send)
    decreases NREG - j
  {
    hide Drops, LoadWord, Reg.Valid;
    if j == NREG || !FrontHasWord(s) {
      DropsNone(s.send);
    } else if s.slots[i].reg[j].Some? {
      LoadSlotDrops(s, i, j + 1);
    } else {
      LoadWordDrops(s, i, j);
      LoadSlotDrops(LoadWord(s, i, j), i, j + 1);
      DropsTwice(s.send, LoadWord(s, i, j).send, LoadSlot(s, i, j).send);
    }
  }

  lemma LoadWordDrops(s: St, i: nat, j: nat)
    requires WF(s) && CanLoad(s, i, j) && FrontHasWord(s)
    ensures Drops(s.send, LoadWord(s, i, j).send)
  {
    hide Reg.Valid, Msg.Valid;
  }

  lemma {:induction false} LoadPassDrops(s: St, i: nat)
    requires WF(s) && i <= |s.slots|
    ensures Drops(s.send, LoadPass(s, i).send)
    decreases |s.slots| - i
  {
    hide Drops, LoadSlot, WF;
    if i == |s.slots| || !FrontHasWord(s) {
      DropsNone(s.send);
    } else if s.slots[i].state == Sent {
      LoadPassDrops(s, i + 1);
    } else {
      var s1 := MarkReady(LoadSlot(s, i, 0), i);
      LoadSlotDrops(s, i, 0);
      LoadPassDrops(s1, i + 1);
      DropsTwice(s.send, s1.send, LoadPass(s1, i + 1).send);
    }
  }

  lemma {:induction false} SendPassSend(s: St, i: nat, oc: seq<Outcome>, due: int)
    requires WF(s) && i <= |s.slots| == |oc|
    ensures SendPass(s, i, oc, due).res.s.send == s.send
    decreases |s.slots| - i
  {
    hide Framed, Reg.Valid, Msg.Valid;
    if i == |s.slots| {
    } else if s.slots[i].state != Ready {
      SendPassSend(s, i + 1, oc, due);
    } else if oc[i] == Delivered || oc[i] == Unreachable {
      SendPassSend(Attempt(s, i, Sent, due), i + 1, oc, due);
    }
  }

  lemma TopDrops(s: St, top: Top)
    requires WF(s) && |top.oc| == |s.slots| && Sends(s, top)
    ensures Drops(s.send, LoopTop(s, top).s.send)
  {
    hide Drops, LoadPass, SendPass, Reg.Valid, Msg.Valid;
    if s.current == Error || s.current == Idle {
      DropsNone(s.send);
    } else {
      LoadPassDrops(s, 0);
      SendPassSend(LoadPass(s, 0), 0, top.oc, top.due);
    }
  }

  /* ---- whole steps ---- */

  lemma FifoOf(a: seq<RegRef>, m: seq<RegRef>, b: seq<RegRef>)
    requires a <= m && Drops(m, b)
    ensures Fifo(a, b)
  {
    assert a + m[|a|..] == m;
    assert FifoBy(a, b, m[|a|..], |m| - |b|);
  }

  /** THE QUEUE THEOREM. A step without a failure adds registers at the end of the send queue and
      takes registers from its front: no register overtakes another. */
  lemma QueueIsFifo(y: Sys, e: Step)
    requires Inv(y.s) && Calm(y, e)
    ensures Fifo(y.s.send, Next(y, e).s.send)
  {
    hide Inv, Fifo, Drops, LoopTop, ProcessAll, HandleTimeout, HandleState, Queue, SyncOn, Sends, Reg.Valid, Msg.Valid;
    DropsNone(y.s.send);
    if e.Received? {
      var p := ProcessAll(y.s, e.packets);
      HandleTimeoutAsks(p.s, e.now);
      PacketsMoved(y.s, e.packets, 0);
      PacketsAppend(y.s, e.packets);
      NothingDue(p.s, 0, e.now);
      StateAppends(p.s, e.rom);
      var o := HandleState(p.s, e.rom);
      DropsNone(o.res.s.send);
      if !o.connecting {
        TopDrops(o.res.s, e.top);
      }
      FifoOf(y.s.send, o.res.s.send, Next(y, e).s.send);
    } else if e.Connected? {
      TopDrops(y.s.(current := Running), e.top);
      FifoOf(y.s.send, y.s.send, Next(y, e).s.send);
    } else {
      if e.Request? {
        QueueAppends(y.s, e.k, e.write, e.action);
        DropsNone(Next(y, e).s.send);
      }
      FifoOf(y.s.send, Next(y, e).s.send, Next(y, e).s.send);
    }
  }
}
