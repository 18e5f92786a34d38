/** No action is lost and none is completed twice: every step of the engine moves actions
    between the lists of the registers and the list of the device, and only queue adds one. */
module Conservation {
  import opened EngineState
  import opened Partition

  /** How often action a stands in a list. */
  function Times(a: Action, q: seq<Action>): nat {
    if q == [] then 0 else Times(a, q[1..]) + if q[0] == a then 1 else 0
  }

  lemma {:induction false} TimesConcat(a: Action, p: seq<Action>, q: seq<Action>)
    ensures Times(a, p + q) == Times(a, p) + Times(a, q)
  {
    if p == [] {
      assert p + q == q;
    } else {
      assert (p + q)[1..] == p[1..] + q;
      TimesConcat(a, p[1..], q);
    }
  }

  /** How often action a waits on a register. */
  function Waits(a: Action, r: Reg): nat {
    Times(a, r.recInprog) + Times(a, r.recWrite) + Times(a, r.recRead)
  }

  function AllWaits(a: Action, regs: seq<Reg>): nat {
    if regs == [] then 0 else AllWaits(a, regs[1..]) + Waits(a, regs[0])
  }

  /** How often the engine still has to complete action a. */
  function Owned(s: St, a: Action): nat {
    AllWaits(a, s.regs) + Times(a, s.records)
  }

  function Added(o: Option<Action>, a: Action): nat {
    if o == Some(a) then 1 else 0
  }

  lemma {:induction false} WaitsUpdate(a: Action, regs: seq<Reg>, k: nat, r: Reg)
    requires k < |regs|
    ensures AllWaits(a, regs[k := r]) + Waits(a, regs[k]) == AllWaits(a, regs) + Waits(a, r)
  {
    if k == 0 {
      assert regs[k := r][1..] == regs[1..];
    } else {
      WaitsUpdate(a, regs[1..], k - 1, r);
      assert regs[k := r][1..] == regs[1..][k - 1 := r];
    }
  }

  lemma {:induction false} WaitsConcat(a: Action, p: seq<Reg>, q: seq<Reg>)
    ensures AllWaits(a, p + q) == AllWaits(a, p) + AllWaits(a, q)
  {
    if p == [] {
      assert p + q == q;
    } else {
      assert (p + q)[1..] == p[1..] + q;
      WaitsConcat(a, p[1..], q);
    }
  }

  /** AllWaiting lists exactly the waiting actions. */
  lemma {:induction false} AllWaitingTimes(a: Action, regs: seq<Reg>)
    ensures Times(a, AllWaiting(regs)) == AllWaits(a, regs)
  {
    if regs != [] {
      var n := |regs| - 1;
      var r := regs[n];
      AllWaitingTimes(a, regs[..n]);
      TimesConcat(a, AllWaiting(regs[..n]), Waiting(r));
      TimesConcat(a, r.recInprog + r.recWrite, r.recRead);
      TimesConcat(a, r.recInprog, r.recWrite);
      WaitsConcat(a, regs[..n], [r]);
      assert regs == regs[..n] + [r];
      assert [r][1..] == [];
    }
  }

  lemma QueueOwned(s: St, k: RegRef, write: bool, action: Option<Action>, a: Action)
    requires WF(s) && k < |s.regs|
    ensures var o := Queue(s, k, write, action);
      Owned(o.s, a) == Owned(s, a) + if o.Go? then Added(action, a) else 0
  {
    var r := s.regs[k];
    var o := Queue(s, k, write, action);
    if o.Go? {
      WaitsUpdate(a, s.regs, k, o.s.regs[k]);
      WaitsQueued(r, write, action, a);
    }
  }

  lemma OptTimes(o: Option<Action>, a: Action)
    ensures Times(a, OptSeq(o)) == Added(o, a)
  {
  }

  lemma WaitsQueued(r: Reg, write: bool, action: Option<Action>, a: Action)
    requires r.Valid()
    ensures Waits(a, Started(r, write, action)) == Waits(a, r) + Added(action, a)
    ensures Waits(a, Merged(r, write, action)) == Waits(a, r) + Added(action, a)
  {
    hide Times;
    OptTimes(action, a);
    TimesConcat(a, r.recInprog, OptSeq(action));
    TimesConcat(a, r.recWrite, OptSeq(action));
    TimesConcat(a, r.recRead, OptSeq(action));
  }

  lemma ProcessOwned(s: St, k: RegRef, cancel: bool, a: Action)
    requires WF(s) && k < |s.regs|
    ensures Owned(Process(s, k, cancel), a) == Owned(s, a)
  {
    var r := s.regs[k];
    WaitsUpdate(a, s.regs, k, Process(s, k, cancel).regs[k]);
    TimesConcat(a, s.records, r.recInprog);
    TimesConcat(a, s.records + r.recInprog, r.recWrite);
    TimesConcat(a, s.records + r.recInprog + r.recWrite, r.recRead);
  }

  lemma SetRegOwned(s: St, k: RegRef, r: Reg, a: Action)
    requires WF(s) && k < |s.regs| && r.Valid() && r.info == s.regs[k].info
    requires Waits(a, r) == Waits(a, s.regs[k])
    ensures Owned(SetReg(s, k, r), a) == Owned(s, a)
  {
    WaitsUpdate(a, s.regs, k, r);
  }

  lemma CompleteOwned(s: St, k: RegRef, a: Action)
    requires WF(s) && k < |s.regs|
    ensures Owned(Complete(s, k).s, a) == Owned(s, a)
  {
    hide AllWaits;
    SetRegOwned(s, k, s.regs[k].(state := InSync), a);
    ProcessOwned(SetReg(s, k, s.regs[k].(state := InSync)), k, false, a);
    var s1 := Finish(s, k);
    var r := s1.regs[k];
    if r.writeQueued {
      var r2 := r.(writeQueued := false, recInprog := r.recInprog + r.recWrite, recWrite := []);
      TimesConcat(a, r.recInprog, r.recWrite);
      SetRegOwned(s1, k, r2, a);
      QueueOwned(SetReg(s1, k, r2), k, true, None, a);
    } else if r.readQueued {
      var r2 := r.(readQueued := false, recInprog := r.recInprog + r.recRead, recRead := []);
      TimesConcat(a, r.recInprog, r.recRead);
      SetRegOwned(s1, k, r2, a);
      QueueOwned(SetReg(s1, k, r2), k, false, None, a);
    }
  }

  lemma AcceptOwned(s: St, k: RegRef, o: nat, read: bool, data: Word, a: Action)
    requires WF(s) && k < |s.regs| && o < s.regs[k].info.size
    ensures Owned(Accept(s, k, o, read, data).s, a) == Owned(s, a)
  {
    hide AllWaits, Times;
    var r := Filled(s.regs[k], o, read, data);
    SetRegOwned(s, k, r, a);
    if r.nremaining == 0 {
      CompleteOwned(SetReg(s, k, r), k, a);
    }
  }

  lemma CancelOwned(s: St, k: RegRef, a: Action)
    requires WF(s) && k < |s.regs|
    ensures Owned(Cancel(s, k), a) == Owned(s, a)
  {
    hide AllWaits, Times, Process, Orphaned;
    var s1 := Unqueued(s, k);
    SetRegOwned(s1, k, s.regs[k].(state := Invalid), a);
    ProcessOwned(SetReg(s1, k, s.regs[k].(state := Invalid)), k, true, a);
  }

  lemma DoTimeoutOwned(s: St, i: nat, a: Action)
    requires WF(s) && i < |s.slots|
    ensures Owned(DoTimeout(s, i), a) == Owned(s, a)
  {
    hide AllWaits, Times;
    assert s.slots[i].Valid(|s.regs|);
    var x := FirstUsed(s.slots[i].reg, 0);
    if x < NREG {
      CancelOwned(s.(resetReq := true), s.slots[i].reg[x].value, a);
    }
  }

  lemma AcceptAtOwned(s: St, i: nat, j: nat, cmd: Word, data: Word, a: Action)
    requires WF(s) && i < |s.slots| && j < NREG && s.slots[i].state == Sent && s.slots[i].reg[j].Some?
    ensures Owned(AcceptAt(s, i, j, cmd, data).s, a) == Owned(s, a)
  {
    hide Accept, AllWaits, Times;
    assert s.slots[i].Valid(|s.regs|);
    var k := s.slots[i].reg[j].value;
    var base := s.regs[k].info.base;
    if base <= cmd % ADDR_LIMIT < base + s.regs[k].info.size {
      AcceptOwned(ClearWord(s, i, j), k, cmd % ADDR_LIMIT - base, IsRead(cmd), data, a);
    }
  }

  lemma ProcessWordOwned(s: St, i: nat, j: nat, w: seq<Word>, a: Action)
    requires WF(s) && i < |s.slots| && j < NREG && BeingProcessed(s.slots[i])
    ensures Owned(ProcessWord(s, i, j, w).s, a) == Owned(s, a)
  {
    hide AllWaits, Times;
    var m := s.slots[i];
    assert m.Valid(|s.regs|);
    if m.reg[j].Some? && s.regs[m.reg[j].value].InProgress() {
      if 2 * j + 3 >= |w| || Masked(w[2 * j + 2]) != m.buf[2 * j + 2] {
        DoTimeoutOwned(s, i, a);
      } else {
        AcceptAtOwned(s, i, j, w[2 * j + 2], w[2 * j + 3], a);
      }
    }
  }

  lemma {:induction false} ProcessWordsOwned(s: St, i: nat, j: nat, w: seq<Word>, a: Action)
    requires WF(s) && i < |s.slots| && j <= NREG && BeingProcessed(s.slots[i])
    ensures Owned(ProcessWords(s, i, j, w).s, a) == Owned(s, a)
    decreases NREG - j
  {
    hide AllWaits, Times;
    if j < NREG {
      var o := ProcessWord(s, i, j, w);
      ProcessWordOwned(s, i, j, w, a);
      if o.Go? {
        ProcessWordsOwned(o.s, i, j + 1, w, a);
      }
    }
  }

  lemma HandleProcessOwned(s: St, w: seq<Word>, a: Action)
    requires WF(s)
    ensures Owned(HandleProcess(s, w).s, a) == Owned(s, a)
  {
    if |w| >= 8 && Matches(s, w, w[1] / ADDR_LIMIT) {
      ProcessWordsOwned(s, w[1] / ADDR_LIMIT, 0, w, a);
    }
  }

  lemma {:induction false} ProcessAllOwned(s: St, packets: seq<seq<Word>>, a: Action)
    requires WF(s)
    ensures Owned(ProcessAll(s, packets).s, a) == Owned(s, a)
    decreases |packets|
  {
    if packets != [] {
      HandleProcessOwned(s, packets[0], a);
      var o := HandleProcess(s, packets[0]);
      if o.Go? {
        ProcessAllOwned(o.s, packets[1..], a);
      }
    }
  }

  lemma {:induction false} HandleTimeoutOwned(s: St, i: nat, now: int, a: Action)
    requires WF(s) && i <= |s.slots|
    ensures Owned(HandleTimeout(s, i, now), a) == Owned(s, a)
    decreases |s.slots| - i
  {
    if i < |s.slots| {
      if s.slots[i].state == Sent && s.slots[i].due <= now {
        DoTimeoutOwned(s, i, a);
        HandleTimeoutOwned(DoTimeout(s, i), i + 1, now, a);
      } else {
        HandleTimeoutOwned(s, i + 1, now, a);
      }
    }
  }

  lemma ThreeWaits(a: Action, x: Reg, y: Reg, z: Reg)
    ensures AllWaits(a, [x, y, z]) == Waits(a, x) + Waits(a, y) + Waits(a, z)
  {
    WaitsConcat(a, [x, y], [z]);
    WaitsConcat(a, [x], [y]);
    assert [x, y, z] == [x, y] + [z] && [x, y] == [x] + [y];
    assert forall r: Reg :: [r][1..] == [];
  }

  /** A reset hands every waiting action to the device list, those of the registers it deletes too. */
  lemma ResetOwned(s: St, error: bool, a: Action)
    requires WF(s)
    ensures Owned(Reset(s, error), a) == Owned(s, a)
    ensures AllWaits(a, Reset(s, error).regs) == 0
  {
    var r := Reset(s, error).regs;
    ThreeWaits(a, r[0], r[1], r[2]);
    assert r == [r[0], r[1], r[2]];
    AllWaitingTimes(a, s.regs);
    TimesConcat(a, s.records, AllWaiting(s.regs));
  }

  lemma {:induction false} AddRegsOwned(regs: seq<Reg>, infos: seq<Info>, a: Action)
    requires ValidMap(Registers(infos))
    ensures AllWaits(a, AddRegs(regs, infos)) == AllWaits(a, regs)
    decreases |infos|
  {
    if infos != [] {
      assert ValidInfo(infos[0]) && !infos[0].bootstrap;
      assert ValidMap(Registers(infos[1..]));
      WaitsConcat(a, regs, [FreshReg(infos[0])]);
      assert [FreshReg(infos[0])][1..] == [];
      AddRegsOwned(if HasName(regs, infos[0].name) then regs else regs + [FreshReg(infos[0])], infos[1..], a);
    }
  }

  lemma HandleStateOwned(s: St, rom: RomMap, a: Action)
    requires WF(s) && ValidMap(rom)
    ensures Owned(HandleState(s, rom).res.s, a) == Owned(s, a)
  {
    hide AllWaits, Times, Queue, Reset, AddRegs;
    if s.resetReq || s.errorReq {
      ResetOwned(s, s.errorReq, a);
    } else if s.current == Searching {
      QueueOwned(s, REG_ROM2, false, None, a);
      QueueOwned(Queue(s, REG_ROM2, false, None).s, REG_ROM16, false, None, a);
      QueueOwned(s, REG_ID, false, None, a);
    } else if rom.Registers? {
      AddRegsOwned(s.regs, rom.infos, a);
    }
  }

  lemma ReceiveOwned(s: St, packets: seq<seq<Word>>, now: int, rom: RomMap, a: Action)
    requires WF(s) && ValidMap(rom)
    ensures Owned(Receive(s, packets, now, rom).res.s, a) == Owned(s, a)
  {
    ProcessAllOwned(s, packets, a);
    var p := ProcessAll(s, packets);
    if p.Go? {
      HandleTimeoutOwned(p.s, 0, now, a);
      HandleStateOwned(HandleTimeout(p.s, 0, now), rom, a);
    }
  }

  lemma LoadWordOwned(s: St, i: nat, j: nat, a: Action)
    requires WF(s) && CanLoad(s, i, j) && FrontHasWord(s)
    ensures Owned(LoadWord(s, i, j), a) == Owned(s, a)
  {
    var k := s.send[0];
    WaitsUpdate(a, s.regs, k, s.regs[k].(nextSend := s.regs[k].nextSend + 1));
  }

  lemma {:induction false} LoadSlotOwned(s: St, i: nat, j: nat, a: Action)
    requires WF(s) && i < |s.slots| && j <= NREG && s.slots[i].state != Sent
    requires 0 < j ==> s.slots[i].reg[j - 1].Some?
    ensures Owned(LoadSlot(s, i, j), a) == Owned(s, a)
    decreases NREG - j
  {
    hide AllWaits, Times;
    if j == NREG || !FrontHasWord(s) {
    } else if s.slots[i].reg[j].Some? {
      LoadSlotOwned(s, i, j + 1, a);
    } else {
      LoadWordOwned(s, i, j, a);
      LoadSlotOwned(LoadWord(s, i, j), i, j + 1, a);
    }
  }

  lemma {:induction false} LoadPassOwned(s: St, i: nat, a: Action)
    requires WF(s) && i <= |s.slots|
    ensures Owned(LoadPass(s, i), a) == Owned(s, a)
    decreases |s.slots| - i
  {
    hide AllWaits, Times;
    if i == |s.slots| || !FrontHasWord(s) {
    } else if s.slots[i].state == Sent {
      LoadPassOwned(s, i + 1, a);
    } else {
      LoadSlotOwned(s, i, 0, a);
      LoadPassOwned(MarkReady(LoadSlot(s, i, 0), i), i + 1, a);
    }
  }

  lemma {:induction false} SendPassOwned(s: St, i: nat, oc: seq<Outcome>, due: int, a: Action)
    requires WF(s) && i <= |s.slots| == |oc|
    ensures Owned(SendPass(s, i, oc, due).res.s, a) == Owned(s, a)
    decreases |s.slots| - i
  {
    hide AllWaits, Times;
    if i == |s.slots| {
    } else if s.slots[i].state != Ready {
      SendPassOwned(s, i + 1, oc, due, a);
    } else if oc[i] == Delivered || oc[i] == Unreachable {
      SendPassOwned(Attempt(s, i, Sent, due), i + 1, oc, due, a);
    }
  }

  lemma HandleSendOwned(s: St, oc: seq<Outcome>, due: int, a: Action)
    requires WF(s) && |oc| == |s.slots|
    ensures Owned(HandleSend(s, oc, due).res.s, a) == Owned(s, a)
  {
    LoadPassOwned(s, 0, a);
    SendPassOwned(LoadPass(s, 0), 0, oc, due, a);
  }
}
