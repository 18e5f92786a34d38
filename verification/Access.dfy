/** When queue() throws: a request for an operation the register does not allow is refused at once
    on an idle register, but on a busy one only when the operation before it completes, and then
    in the worker. */
module Access {
  import opened EngineState
  import opened Partition
  import opened Worker
  import opened Safety
  import opened Connection
  import opened NetRuns
  import opened DriverObjects
  import opened DriverShapes

  /** Whatever is queued on the register is something it allows. */
  predicate QueueAllowed(r: Reg) {
    (r.writeQueued ==> r.info.writable) && (r.readQueued ==> r.info.readable)
  }

  ghost predicate AllAllowed(regs: seq<Reg>) {
    forall k | 0 <= k < |regs| :: QueueAllowed(regs[k])
  }

  /** queue() throws exactly on an idle register that does not allow the operation. */
  lemma QueueThrows(s: St, k: RegRef, write: bool, action: Option<Action>)
    requires WF(s) && k < |s.regs|
    ensures Queue(s, k, write, action).Threw? <==>
      !s.regs[k].InProgress() && !(if write then s.regs[k].info.writable else s.regs[k].info.readable)
  {
  }

  /** Completion throws exactly when the operation it starts is not allowed. */
  lemma CompleteThrows(s: St, k: RegRef)
    requires WF(s) && k < |s.regs|
    ensures Complete(s, k).Threw? <==>
      var r := s.regs[k];
      if r.writeQueued then !r.info.writable else r.readQueued && !r.info.readable
  {
    hide Msg.Valid, Queue;
    var s1 := Finish(s, k);
    var r := s1.regs[k];
    if r.writeQueued {
      QueueThrows(SetReg(s1, k, Waiters(r, true)), k, true, None);
    } else if r.readQueued {
      QueueThrows(SetReg(s1, k, Waiters(r, false)), k, false, None);
    }
  }

  /** A request a caller has checked. */
  predicate Checked(s: St, e: Step) {
    e.Request? && e.k < |s.regs| ==> if e.write then s.regs[e.k].info.writable else s.regs[e.k].info.readable
  }

  lemma QueueKeepsAllowed(s: St, k: RegRef, write: bool, action: Option<Action>)
    requires WF(s) && k < |s.regs| && AllAllowed(s.regs)
    requires if write then s.regs[k].info.writable else s.regs[k].info.readable
    ensures Queue(s, k, write, action).Go? && AllAllowed(Queue(s, k, write, action).s.regs)
  {
    hide WF, Reg.Valid, Msg.Valid, QueueAllowed, Started, Merged;
    RegValid(s, k);
    RequestAllowed(s.regs[k], write, action);
  }

  lemma RequestAllowed(r: Reg, write: bool, action: Option<Action>)
    requires r.Valid() && QueueAllowed(r) && if write then r.info.writable else r.info.readable
    ensures QueueAllowed(Started(r, write, action)) && QueueAllowed(Merged(r, write, action))
  {
    hide Reg.Valid;
  }

  lemma AcceptAllowed(s: St, k: RegRef, o: nat, read: bool, data: Word)
    requires WF(s) && k < |s.regs| && o < s.regs[k].info.size && AllAllowed(s.regs)
    ensures var a := Accept(s, k, o, read, data); a.Go? && AllAllowed(a.s.regs)
  {
    hide Complete, Msg.Valid, WF;
    assert s.regs[k].Valid() by { RegValid(s, k); }
    var s1 := SetReg(s, k, Filled(s.regs[k], o, read, data));
    assert QueueAllowed(s.regs[k]);
    if s1.regs[k].nremaining == 0 {
      CompleteAllowed(s1, k);
    }
  }

  lemma CompleteAllowed(s: St, k: RegRef)
    requires WF(s) && k < |s.regs| && AllAllowed(s.regs)
    ensures Complete(s, k).Go? && AllAllowed(Complete(s, k).s.regs)
  {
    hide Complete, WF, Completed;
    assert s.regs[k].Valid() by { RegValid(s, k); }
    assert QueueAllowed(s.regs[k]);
    CompleteThrows(s, k);
    CompleteShape(s, k);
    CompletedAllowed(s.regs[k]);
  }

  lemma CompletedAllowed(r: Reg)
    requires r.Valid() && QueueAllowed(r)
    ensures QueueAllowed(Completed(r))
  {
  }

  lemma CancelAllowed(s: St, k: RegRef)
    requires WF(s) && k < |s.regs| && AllAllowed(s.regs)
    ensures AllAllowed(Cancel(s, k).regs)
  {
    hide Cancel, Orphan, Unqueued, Msg.Valid, Reg.Valid, WF, Waiting;
    CancelShape(s, k);
  }

  lemma TimeoutAllowed(s: St, i: nat)
    requires WF(s) && i < |s.slots| && AllAllowed(s.regs)
    ensures AllAllowed(DoTimeout(s, i).regs)
  {
    hide Cancel, Reg.Valid;
    var x := FirstUsed(s.slots[i].reg, 0);
    assert s.slots[i].Valid(|s.regs|);
    if x < NREG {
      CancelAllowed(s.(resetReq := true), s.slots[i].reg[x].value);
    }
  }

  lemma WordAllowed(s: St, i: nat, j: nat, w: seq<Word>)
    requires InvOrLost(s) && i < |s.slots| && j < NREG && BeingProcessed(s.slots[i]) && AllAllowed(s.regs)
    ensures var o := ProcessWord(s, i, j, w); o.Go? && AllAllowed(o.s.regs) && InvOrLost(o.s)
  {
    hide Inv, Lost, WF, Accept, DoTimeout, Reg.Valid, Msg.Valid, AcceptAt;
    WordStart(s, i, j, w);
    if s.slots[i].reg[j].Some? {
      var k := s.slots[i].reg[j].value;
      if 2 * j + 3 < |w| && Masked(w[2 * j + 2]) == s.slots[i].buf[2 * j + 2] {
        DropLast(s, i, j, w[2 * j + 2], w[2 * j + 3]);
        AcceptAllowed(s, k, w[2 * j + 2] % ADDR_LIMIT - s.regs[k].info.base, IsRead(w[2 * j + 2]), w[2 * j + 3]);
      } else {
        TimeoutAllowed(s, i);
      }
    }
  }

  lemma InvOrLostWF(s: St)
    requires InvOrLost(s)
    ensures WF(s)
  {
  }

  lemma {:induction false} WordsAllowed(s: St, i: nat, j: nat, w: seq<Word>)
    requires InvOrLost(s) && i < |s.slots| && j <= NREG && BeingProcessed(s.slots[i]) && AllAllowed(s.regs)
    ensures var o := ProcessWords(s, i, j, w); o.Go? && AllAllowed(o.s.regs)
    decreases NREG - j
  {
    hide Inv, Lost, ProcessWord, AllAllowed, Reg.Valid, Msg.Valid;
    InvOrLostWF(s);
    if j < NREG {
      WordAllowed(s, i, j, w);
      WordsAllowed(ProcessWord(s, i, j, w).s, i, j + 1, w);
    }
  }

  /** When callers have checked their requests, processing packets, whatever they contain, never
      throws: no access is out of range and no operation is refused. */
  lemma {:induction false} PacketsAllowed(s: St, packets: seq<seq<Word>>)
    requires InvOrLost(s) && AllAllowed(s.regs)
    ensures var o := ProcessAll(s, packets); o.Go? && AllAllowed(o.s.regs)
    decreases |packets|
  {
    hide Inv, Lost, ProcessWords, AllAllowed, Reg.Valid, Msg.Valid;
    InvOrLostWF(s);
    if packets != [] {
      var w := packets[0];
      if |w| >= 8 && Matches(s, w, w[1] / ADDR_LIMIT) {
        WordsAllowed(s, w[1] / ADDR_LIMIT, 0, w);
      }
      HandleProcessInv(s, w);
      PacketsAllowed(HandleProcess(s, w).s, packets[1..]);
    }
  }

  lemma {:induction false} ClockAllowed(s: St, i: nat, now: int)
    requires WF(s) && i <= |s.slots| && AllAllowed(s.regs)
    ensures AllAllowed(HandleTimeout(s, i, now).regs)
    decreases |s.slots| - i
  {
    hide DoTimeout, AllAllowed, Reg.Valid, Msg.Valid;
    if i < |s.slots| {
      if s.slots[i].state == Sent && s.slots[i].due <= now {
        TimeoutAllowed(s, i);
        ClockAllowed(DoTimeout(s, i), i + 1, now);
      } else {
        ClockAllowed(s, i + 1, now);
      }
    }
  }

  /* ---- whole runs ---- */

  lemma {:induction false} AddAllowed(regs: seq<Reg>, infos: seq<Info>)
    requires ValidMap(Registers(infos)) && AllAllowed(regs)
    ensures AllAllowed(AddRegs(regs, infos))
    decreases |infos|
  {
    var r := AddRegs(regs, infos);
    forall k | 0 <= k < |r| ensures QueueAllowed(r[k]) {
      if k < |regs| {
        assert r[k] == regs[k];
      }
    }
  }

  lemma BootReadable(s: St)
    requires WF(s)
    ensures |s.regs| >= BOOTSTRAP && forall k | 0 <= k < BOOTSTRAP :: s.regs[k].info.readable
  {
  }

  lemma StateAllowed(s: St, rom: RomMap)
    requires WF(s) && ValidMap(rom) && AllAllowed(s.regs)
    ensures var o := HandleState(s, rom);
      && AllAllowed(o.res.s.regs)
      && (o.res.Threw? <==> (!s.resetReq && !s.errorReq && rom.NoJson? && RomsRead(s)))
  {
    hide Queue, AddRegs, AllAllowed, WF, Reg.Valid, Msg.Valid, Reset;
    BootReadable(s);
    if s.resetReq || s.errorReq {
      ResetAllowed(s, s.errorReq);
    } else if s.current == Searching {
      if s.regs[REG_ID].state == InSync {
        QueueKeepsAllowed(s, REG_ROM2, false, None);
        var s1 := Queue(s, REG_ROM2, false, None).s;
        BootReadable(s1);
        QueueKeepsAllowed(s1, REG_ROM16, false, None);
      } else if !s.regs[REG_ID].InProgress() {
        QueueKeepsAllowed(s, REG_ID, false, None);
      }
    } else if rom.Registers? {
      AddAllowed(s.regs, rom.infos);
    }
  }

  lemma ResetAllowed(s: St, error: bool)
    requires WF(s)
    ensures AllAllowed(Reset(s, error).regs) && AllAllowed(Caught(s).regs)
  {
  }

  lemma ReceiveAllowed(s: St, packets: seq<seq<Word>>, now: int, rom: RomMap)
    requires Inv(s) && ValidMap(rom) && AllAllowed(s.regs)
    ensures var o := Receive(s, packets, now, rom);
      AllAllowed(o.res.s.regs) && (o.res.Threw? ==> rom.NoJson? && s.current == Inspecting)
  {
    hide Inv, Lost, ProcessAll, HandleTimeout, AllAllowed, Reg.Valid, Msg.Valid;
    assert WF(s) by { InvIsWF(s); }
    PacketsAllowed(s, packets);
    var p := ProcessAll(s, packets);
    ClockAllowed(p.s, 0, now);
    StateAllowed(HandleTimeout(p.s, 0, now), rom);
  }

  lemma InvIsWF(s: St)
    requires Inv(s)
    ensures WF(s)
  {
  }

  lemma SentAllowed(regs: seq<Reg>, regs': seq<Reg>)
    requires AllAllowed(regs) && AllSameButSent(regs, regs')
    ensures AllAllowed(regs')
  {
    forall k | 0 <= k < |regs'| ensures QueueAllowed(regs'[k]) {
      assert QueueAllowed(regs[k]);
    }
  }

  lemma TopAllowed(s: St, top: Top)
    requires WF(s) && |top.oc| == |s.slots| && AllAllowed(s.regs)
    ensures AllAllowed(LoopTop(s, top).s.regs)
  {
    hide HandleSend, AllAllowed, Caught;
    if s.current != Error && s.current != Idle {
      HandleSendRegs(s, top.oc, top.due);
      SentAllowed(s.regs, HandleSend(s, top.oc, top.due).res.s.regs);
      ResetAllowed(HandleSend(s, top.oc, top.due).res.s, false);
    }
  }

  lemma RecordAllowed(y: Sys, e: Step)
    requires Enabled(y, e) && Checked(y.s, e) && AllAllowed(y.s.regs) && !e.Received? && !e.PollFailed? && !e.Connected?
    ensures AllAllowed(Next(y, e).s.regs)
  {
    hide Queue, SyncOn, Reg.Valid, Msg.Valid;
    if e.Request? {
      QueueKeepsAllowed(y.s, e.k, e.write, e.action);
    } else if e.Sync? {
      SyncRegs(y.s, 0, e.info);
    }
  }

  lemma NextAllowed(y: Sys, e: Step)
    requires Enabled(y, e) && Inv(y.s) && Checked(y.s, e) && AllAllowed(y.s.regs)
    ensures AllAllowed(Next(y, e).s.regs)
  {
    hide Inv, Receive, LoopTop, Caught, AllAllowed, Queue, SyncOn, Checked, Reg.Valid, Msg.Valid;
    match e {
      case Received(packets, now, rom, top) =>
        ReceiveFrame(y.s, packets, now, rom);
        ReceiveAllowed(y.s, packets, now, rom);
        var o := Receive(y.s, packets, now, rom);
        CaughtFrame(o.res.s);
        ResetAllowed(o.res.s, false);
        if o.res.Threw? {
          TopAllowed(Caught(o.res.s), top);
        } else if !o.connecting {
          TopAllowed(o.res.s, top);
        }
      case PollFailed(top) =>
        CaughtFrame(y.s);
        ResetAllowed(y.s, false);
        TopAllowed(Caught(y.s), top);
      case Connected(ok, top) =>
        CaughtFrame(y.s);
        ResetAllowed(y.s, false);
        TopAllowed(if ok then y.s.(current := Running) else Caught(y.s), top);
      case _ =>
        RecordAllowed(y, e);
    }
  }

  ghost predicate CheckedRun(trace: seq<Sys>, steps: seq<Step>) {
    IsRun(trace, steps) && forall x | 0 <= x < |steps| :: Checked(trace[x].s, steps[x])
  }

  lemma {:induction false} RunAllowed(trace: seq<Sys>, steps: seq<Step>, x: nat)
    requires CheckedRun(trace, steps) && x < |trace|
    ensures AllAllowed(trace[x].s.regs)
  {
    hide IsRun, Enabled, Next;
    RunStart(trace, steps);
    if x > 0 {
      RunAllowed(trace, steps, x - 1);
      RunStep(trace, steps, x - 1);
      RunInv(trace, steps, x - 1);
      NextAllowed(trace[x - 1], steps[x - 1]);
    }
  }

  /** THE ACCESS THEOREM. In a run whose callers check readable and writable before they queue,
      no request is refused, and handling packets, deadlines and states throws only for a ROM
      without a register map. */
  lemma OnlyMissingMapThrows(trace: seq<Sys>, steps: seq<Step>, x: nat)
    requires CheckedRun(trace, steps) && x < |steps|
    ensures match steps[x]
      case Received(packets, now, rom, top) =>
        Receive(trace[x].s, packets, now, rom).res.Threw? ==> rom.NoJson? && trace[x].s.current == Inspecting
      case Request(k, write, action) => Queue(trace[x].s, k, write, action).Go?
      case _ => true
  {
    hide Inv, Receive, Queue, AllAllowed, Reg.Valid, Msg.Valid;
    RunAllowed(trace, steps, x);
    RunInv(trace, steps, x);
    match steps[x] {
      case Received(packets, now, rom, top) =>
        ReceiveAllowed(trace[x].s, packets, now, rom);
      case Request(k, write, action) =>
        QueueKeepsAllowed(trace[x].s, k, write, action);
      case _ =>
    }
  }
}
