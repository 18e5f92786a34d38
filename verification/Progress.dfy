/** Every accepted answer brings the engine closer to rest, and until it rests something is on
    its way. */
module Progress {
  import opened EngineState
  import opened Partition
  import opened Messages

  /** The answers a register still needs, with the operations queued on it counted in full. */
  function Cost(r: Reg): nat {
    (if r.InProgress() then r.nremaining else 0)
    + (if r.writeQueued then r.info.size else 0) + (if r.readQueued then r.info.size else 0)
  }

  function Measure(regs: seq<Reg>): nat {
    if regs == [] then 0 else Cost(regs[0]) + Measure(regs[1..])
  }

  lemma {:induction false} MeasureUpdate(regs: seq<Reg>, k: nat, r: Reg)
    requires k < |regs|
    ensures Measure(regs[k := r]) + Cost(regs[k]) == Measure(regs) + Cost(r)
  {
    if k == 0 {
      assert regs[k := r][1..] == regs[1..];
    } else {
      MeasureUpdate(regs[1..], k - 1, r);
      assert regs[k := r][1..] == regs[1..][k - 1 := r];
    }
  }

  lemma {:induction false} MeasureZero(regs: seq<Reg>)
    ensures Measure(regs) == 0 <==> forall k | 0 <= k < |regs| :: Cost(regs[k]) == 0
  {
    if regs != [] {
      MeasureZero(regs[1..]);
      assert forall k | 0 <= k < |regs| - 1 :: regs[1..][k] == regs[k + 1];
      assert forall k | 1 <= k < |regs| :: regs[k] == regs[1..][k - 1];
    }
  }

  /** A restart trades the flag of the queued operation for its words. */
  lemma CompletedCost(r: Reg)
    requires r.Valid() && r.InProgress() && r.nremaining == 0
    ensures Cost(Completed(r)) == Cost(r)
  {
  }

  lemma FillCost(r: Reg, o: nat, read: bool, data: Word)
    requires RegOk(r) && Outstanding(r, o)
    ensures Cost(Filled(r, o, read, data)) == Cost(r) - 1
  {
    FilledOk(r, o, read, data);
  }

  /** One accepted answer costs exactly one, also when it completes and restarts its register. */
  lemma AcceptProgress(s: St, k: RegRef, o: nat, read: bool, data: Word)
    requires WF(s) && k < |s.regs| && RegOk(s.regs[k]) && Outstanding(s.regs[k], o)
    ensures var a := Accept(s, k, o, read, data); a.Go? ==> Measure(a.s.regs) == Measure(s.regs) - 1
  {
    hide Measure, Complete;
    var r := Filled(s.regs[k], o, read, data);
    FilledOk(s.regs[k], o, read, data);
    FillCost(s.regs[k], o, read, data);
    MeasureUpdate(s.regs, k, r);
    var s1 := SetReg(s, k, r);
    if r.nremaining == 0 && Complete(s1, k).Go? {
      CompleteShape(s1, k);
      CompletedCost(r);
      MeasureUpdate(s1.regs, k, Completed(r));
    }
  }

  /** The address slots in use from j on. */
  function InUse(reg: seq<Option<RegRef>>, j: nat): nat
    decreases |reg| - j
  {
    if j >= |reg| then 0 else InUse(reg, j + 1) + if reg[j].Some? then 1 else 0
  }

  lemma {:induction false} InUseFrom(a: seq<Option<RegRef>>, b: seq<Option<RegRef>>, j: nat)
    requires |a| == |b| && forall y | j <= y < |a| :: a[y] == b[y]
    ensures InUse(a, j) == InUse(b, j)
    decreases |a| - j
  {
    if j < |a| {
      InUseFrom(a, b, j + 1);
    }
  }

  /** Every requested word is answered, in place and in kind. */
  predicate GoodReply(m: Msg, w: seq<Word>) {
    forall j | 0 <= j < |m.reg| && m.reg[j].Some? ::
      2 * j + 3 < |w| && 2 * j + 2 < |m.buf| && Masked(w[2 * j + 2]) == m.buf[2 * j + 2]
  }

  lemma WordProgress(s: St, i: nat, j: nat, w: seq<Word>)
    requires Inv(s) && i < |s.slots| && j < NREG && s.slots[i].state == Sent && GoodReply(s.slots[i], w)
    ensures s.slots[i].Valid(|s.regs|)
    ensures var o := ProcessWord(s, i, j, w);
      o.Go? ==>
        && Measure(o.s.regs) == Measure(s.regs) - (if s.slots[i].reg[j].Some? then 1 else 0)
        && Inv(o.s) && o.s.slots == s.slots[i := WordCleared(s.slots[i], j)]
  {
    hide RegsOk, SendOk, WordsOk, Unique, Covered, Measure;
    var m := s.slots[i];
    assert m.Valid(|s.regs|);
    if m.reg[j].None? {
      assert m == WordCleared(m, j);
    } else {
      UsedWord(s, i, j);
      AcceptedWord(s, i, j, w);
      var k := m.reg[j].value;
      var o := OffsetOf(s.regs[k], m.buf[2 * j + 2]);
      AcceptProgress(ClearWord(s, i, j), k, o, s.regs[k].state == Reading, w[2 * j + 3]);
    }
  }

  lemma {:induction false} WordsProgress(s: St, i: nat, j: nat, w: seq<Word>)
    requires Inv(s) && i < |s.slots| && j <= NREG && s.slots[i].state == Sent && GoodReply(s.slots[i], w)
    ensures var o := ProcessWords(s, i, j, w);
      o.Go? ==>
        && Measure(o.s.regs) == Measure(s.regs) - InUse(s.slots[i].reg, j)
        && |o.s.slots| == |s.slots| && forall x | 0 <= x < |s.slots| && x != i :: o.s.slots[x] == s.slots[x]
    decreases NREG - j
  {
    hide RegsOk, SendOk, WordsOk, Unique, Covered, Measure, ProcessWord;
    assert s.slots[i].Valid(|s.regs|);
    if j < NREG {
      var o := ProcessWord(s, i, j, w);
      WordProgress(s, i, j, w);
      if o.Go? {
        InUseFrom(s.slots[i].reg, o.s.slots[i].reg, j + 1);
        WordsProgress(o.s, i, j + 1, w);
      }
    }
  }

  /** THE PROGRESS THEOREM, first half. A complete, matching reply lowers the measure by the
      number of words it answers, at least one, and frees its message and no other. */
  lemma ReplyProgress(s: St, w: seq<Word>, i: nat)
    requires Inv(s) && MsgsOk(s.slots) && Matches(s, w, i) && GoodReply(s.slots[i], w)
    ensures InUse(s.slots[i].reg, 0) >= 1
    ensures var o := HandleProcess(s, w);
      o.Go? ==>
        && Measure(o.s.regs) == Measure(s.regs) - InUse(s.slots[i].reg, 0)
        && |o.s.slots| == |s.slots| && (forall x | 0 <= x < |s.slots| && x != i :: o.s.slots[x] == s.slots[x])
        && o.s.slots[i].state == Free && o.s.slots[i].reg == NoRegs() && o.s.slots[i].buf == []
  {
    hide RegsOk, SendOk, WordsOk, Unique, Covered, Measure, ProcessWords;
    WordsProgress(s, i, 0, w);
    assert MsgOk(s.slots[i]);
  }

  /** A packet that answers no message in flight changes nothing. */
  lemma UnmatchedIgnored(s: St, w: seq<Word>)
    requires WF(s) && forall i | 0 <= i < |s.slots| :: !Matches(s, w, i)
    ensures HandleProcess(s, w) == Go(s)
  {
  }

  /* ---- something is on its way ---- */

  lemma SomeMissing(f: seq<bool>) returns (o: nat)
    requires Missing(f) > 0
    ensures o < |f| && !f[o]
  {
    MissingNone(f);
    o :| 0 <= o < |f| && !f[o];
  }

  lemma UsedBusy(slots: seq<Msg>, k: int, w: int)
    requires MsgsOk(slots) && InFlight(slots, k, w)
    ensures exists i :: 0 <= i < |slots| && slots[i].state != Free
  {
    var i, j :| Holds(slots, i, j, k, w);
    assert MsgOk(slots[i]);
  }

  lemma FullBusy(slots: seq<Msg>)
    requires MsgsOk(slots) && 0 < |slots| && Full(slots[0]) && |slots[0].reg| == NREG
    ensures slots[0].state != Free
  {
    assert MsgOk(slots[0]) && (slots[0].state == Sent || slots[0].reg[0].Some?);
  }

  /** After the first pass, while the measure is not zero, some message is Ready or Sent. */
  lemma LoadedBusy(s: St)
    requires Inv(s) && MsgsOk(s.slots) && Measure(s.regs) > 0
    requires s.send == [] || forall x | 0 <= x < |s.slots| :: Full(s.slots[x])
    ensures exists i :: 0 <= i < |s.slots| && s.slots[i].state != Free
  {
    MeasureZero(s.regs);
    var k :| 0 <= k < |s.regs| && Cost(s.regs[k]) > 0;
    var r := s.regs[k];
    assert RegOk(r);
    var o := SomeMissing(r.received);
    if o < r.nextSend {
      assert Outstanding(r, o);
      assert CoveredAt(s.slots, r, k);
      assert InFlight(s.slots, k, r.Command(o));
      UsedBusy(s.slots, k, r.Command(o));
    } else {
      assert HasUnsent(r) && k in s.send;
      assert s.slots[0].Valid(|s.regs|);
      FullBusy(s.slots);
    }
  }

  lemma {:induction false} SendKeepsBusy(s: St, i: nat, oc: seq<Outcome>, due: int, x: nat)
    requires WF(s) && i <= |s.slots| == |oc| && x < |s.slots| && s.slots[x].state != Free
    ensures SendPass(s, i, oc, due).res.s.slots[x].state != Free
    decreases |s.slots| - i
  {
    hide Attempt;
    if i == |s.slots| {
    } else if s.slots[i].state != Ready {
      SendKeepsBusy(s, i + 1, oc, due, x);
    } else if oc[i] == Delivered || oc[i] == Unreachable {
      SendKeepsBusy(Attempt(s, i, Sent, due), i + 1, oc, due, x);
    }
  }

  lemma {:induction false} LoadSlotMeasure(s: St, i: nat, j: nat)
    requires WF(s) && i < |s.slots| && j <= NREG && s.slots[i].state != Sent
    requires 0 < j ==> s.slots[i].reg[j - 1].Some?
    ensures Measure(LoadSlot(s, i, j).regs) == Measure(s.regs)
    decreases NREG - j
  {
    hide Measure;
    if j == NREG || !FrontHasWord(s) {
    } else if s.slots[i].reg[j].Some? {
      LoadSlotMeasure(s, i, j + 1);
    } else {
      LoadWordMeasure(s, i, j);
      LoadSlotMeasure(LoadWord(s, i, j), i, j + 1);
    }
  }

  lemma LoadWordMeasure(s: St, i: nat, j: nat)
    requires WF(s) && CanLoad(s, i, j) && FrontHasWord(s)
    ensures Measure(LoadWord(s, i, j).regs) == Measure(s.regs)
  {
    hide Measure;
    var k := s.send[0];
    MeasureUpdate(s.regs, k, s.regs[k].(nextSend := s.regs[k].nextSend + 1));
  }

  lemma {:induction false} LoadPassMeasure(s: St, i: nat)
    requires WF(s) && i <= |s.slots|
    ensures Measure(LoadPass(s, i).regs) == Measure(s.regs)
    decreases |s.slots| - i
  {
    hide Measure, LoadSlot;
    if i == |s.slots| || !FrontHasWord(s) {
    } else if s.slots[i].state == Sent {
      LoadPassMeasure(s, i + 1);
    } else {
      LoadSlotMeasure(s, i, 0);
      LoadPassMeasure(MarkReady(LoadSlot(s, i, 0), i), i + 1);
    }
  }

  lemma {:induction false} SendPassRegs(s: St, i: nat, oc: seq<Outcome>, due: int)
    requires WF(s) && i <= |s.slots| == |oc|
    ensures SendPass(s, i, oc, due).res.s.regs == s.regs && SendPass(s, i, oc, due).res.s.records == s.records
    decreases |s.slots| - i
  {
    hide Framed, Reg.Valid, Msg.Valid;
    if i == |s.slots| {
    } else if s.slots[i].state != Ready {
      SendPassRegs(s, i + 1, oc, due);
    } else if oc[i] == Delivered || oc[i] == Unreachable {
      SendPassRegs(Attempt(s, i, Sent, due), i + 1, oc, due);
    }
  }

  /** THE PROGRESS THEOREM, second half. handle_send changes nothing about what is still to do,
      and leaves some message Ready or Sent whenever there is anything to do. */
  lemma HandleSendBusy(s: St, oc: seq<Outcome>, due: int)
    requires Inv(s) && MsgsOk(s.slots) && |oc| == |s.slots|
    ensures var s' := HandleSend(s, oc, due).res.s;
      && Measure(s'.regs) == Measure(s.regs)
      && (Measure(s'.regs) > 0 ==> exists i :: 0 <= i < |s'.slots| && s'.slots[i].state != Free)
  {
    hide Inv, MsgsOk, Measure, LoadPass, SendPass, Full;
    assert WF(s) by { InvWF(s); }
    var s1 := LoadPass(s, 0);
    LoadPassMeasure(s, 0);
    LoadPassInv(s, 0);
    LoadPassOk(s, 0);
    FirstPassExhausts(s);
    SendPassRegs(s1, 0, oc, due);
    if Measure(s1.regs) > 0 {
      LoadedBusy(s1);
      var x :| 0 <= x < |s1.slots| && s1.slots[x].state != Free;
      SendKeepsBusy(s1, 0, oc, due, x);
    }
  }

  lemma InvWF(s: St)
    requires Inv(s)
    ensures WF(s)
  {
  }

  /** At rest every register is idle and no message refers to any. */
  lemma AtRest(s: St)
    requires Inv(s) && Measure(s.regs) == 0
    ensures forall k | 0 <= k < |s.regs| :: !s.regs[k].InProgress() && !s.regs[k].writeQueued && !s.regs[k].readQueued
    ensures s.send == [] && forall i, j, k, w :: !Holds(s.slots, i, j, k, w)
  {
    MeasureZero(s.regs);
    assert forall k | 0 <= k < |s.regs| :: RegOk(s.regs[k]) && Cost(s.regs[k]) == 0;
    if s.send != [] {
      FrontReady(s);
    }
  }
}
