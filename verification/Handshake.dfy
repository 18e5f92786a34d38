/** The way to Running: whenever nothing is being read any more, the worker takes the connection
    one stage on. */
module Handshake {
  import opened EngineState
  import opened Partition
  import opened Conservation
  import opened Worker
  import opened Safety
  import opened EndToEndQueue
  import opened NetRuns
  import opened Waits

  /** How far the connection is from Running. */
  function Rank(y: Sys): nat
    requires WF(y.s)
  {
    if y.phase == Connecting then 1
    else
      match y.s.current
      case Running => 0
      case Inspecting => 2
      case Searching => if y.s.regs[REG_ID].state == InSync then 3 else if y.s.regs[REG_ID].InProgress() then 4 else 5
      case Idle => 6
      case Error => 7
  }

  /** A register that is read or has been. */
  predicate ReadOrReading(r: Reg) {
    r.InProgress() || r.state == InSync
  }

  /** In Inspecting both ROM registers are. */
  predicate RomsAsked(s: St)
    requires BOOTSTRAP <= |s.regs|
  {
    s.current == Inspecting ==> ReadOrReading(s.regs[REG_ROM2]) && ReadOrReading(s.regs[REG_ROM16])
  }

  /* ---- the ROM registers stay asked for ---- */

  lemma MovedReading(r: Reg, r': Reg)
    requires Moved(r, r') && ReadOrReading(r)
    ensures ReadOrReading(r')
  {
  }

  lemma AskedReading(r: Reg, r': Reg)
    requires Asked(r, r') && ReadOrReading(r)
    ensures ReadOrReading(r')
  {
  }

  /** Asking a bootstrap register for a read leaves it being read. */
  lemma QueueReads(s: St, k: RegRef)
    requires WF(s) && k < BOOTSTRAP
    ensures var o := Queue(s, k, false, None);
      && o.Go? && o.s.regs[k].InProgress() && o.s.current == s.current
      && (!s.regs[k].InProgress() ==> o.s.regs[k].state == Reading)
      && forall h | 0 <= h < |s.regs| && h != k :: o.s.regs[h] == s.regs[h]
  {
    hide Reg.Valid, Msg.Valid;
  }

  lemma StateRoms(s: St, rom: RomMap)
    requires WF(s) && ValidMap(rom) && RomsAsked(s)
    ensures RomsAsked(HandleState(s, rom).res.s)
  {
    hide Queue, AddRegs, Reg.Valid, Msg.Valid;
    if !Resetting(s) && s.current == Searching && s.regs[REG_ID].state == InSync {
      QueueReads(s, REG_ROM2);
      QueueReads(Queue(s, REG_ROM2, false, None).s, REG_ROM16);
    }
  }

  lemma CaughtRoms(s: St)
    requires WF(s)
    ensures WF(Caught(s)) && RomsAsked(Caught(s))
  {
  }

  lemma SentRoms(s: St, s': St)
    requires WF(s) && RomsAsked(s) && s'.current == s.current && AllSameButSent(s.regs, s'.regs)
    ensures BOOTSTRAP <= |s'.regs| && RomsAsked(s')
  {
  }

  lemma TopRoms(s: St, top: Top)
    requires WF(s) && RomsAsked(s) && |top.oc| == |s.slots|
    ensures RomsAsked(LoopTop(s, top).s)
  {
    hide HandleSend, Caught, RomsAsked, Reg.Valid, Msg.Valid, AllSameButSent;
    if s.current == Error || s.current == Idle {
      SentSame(s.regs);
      SentRoms(s, LoopTop(s, top).s);
    } else {
      var h := HandleSend(s, top.oc, top.due).res.s;
      HandleSendRegs(s, top.oc, top.due);
      CaughtRoms(h);
      SentSame(h.regs);
      SentSame(Caught(h).regs);
      SentRoms(s, h);
      SentRoms(h, h.(records := []));
      SentRoms(Caught(h), Caught(h).(records := []));
    }
  }

  lemma PacketRoms(s: St, packets: seq<seq<Word>>, now: int)
    requires Inv(s) && RomsAsked(s)
    ensures var p := ProcessAll(s, packets);
      p.Go? && !Resetting(HandleTimeout(p.s, 0, now)) ==> HandleTimeout(p.s, 0, now) == p.s && RomsAsked(p.s) && AllMoved(s, p.s, 0)
  {
    hide Inv, WF, ProcessAll, HandleTimeout, AllMoved;
    RunWF(s);
    var p := ProcessAll(s, packets);
    if p.Go? && !Resetting(HandleTimeout(p.s, 0, now)) {
      HandleTimeoutAsks(p.s, now);
      PacketsMoved(s, packets, 0);
      NothingDue(p.s, 0, now);
      MovedRoms(s, p.s);
    }
  }

  lemma MovedRoms(s: St, s': St)
    requires BOOTSTRAP <= |s.regs| && RomsAsked(s) && AllMoved(s, s', 0) && s'.current == s.current
    ensures BOOTSTRAP <= |s'.regs| && RomsAsked(s')
  {
    hide Moved, ReadOrReading, OpEnds;
    assert MovedAt(s.regs[REG_ROM2], s'.regs[REG_ROM2], s.records, s'.records, 0);
    assert MovedAt(s.regs[REG_ROM16], s'.regs[REG_ROM16], s.records, s'.records, 0);
    if s.current == Inspecting {
      MovedReading(s.regs[REG_ROM2], s'.regs[REG_ROM2]);
      MovedReading(s.regs[REG_ROM16], s'.regs[REG_ROM16]);
    }
  }

  lemma ReceiveRoms(s: St, packets: seq<seq<Word>>, now: int, rom: RomMap)
    requires Inv(s) && RomsAsked(s) && ValidMap(rom)
    ensures var o := Receive(s, packets, now, rom); o.res.Go? ==> RomsAsked(o.res.s)
  {
    hide Inv, ProcessAll, HandleTimeout, Reg.Valid, Msg.Valid, Queue, AddRegs, Reset, AllMoved;
    RunWF(s);
    var p := ProcessAll(s, packets);
    PacketRoms(s, packets, now);
    if p.Go? {
      var t := HandleTimeout(p.s, 0, now);
      if Resetting(t) {
        ResetRoms(t);
      } else {
        StateRoms(t, rom);
      }
    }
  }

  lemma ResetRoms(s: St)
    requires WF(s)
    ensures Reset(s, s.errorReq).current != Inspecting && Reset(s, s.errorReq).current != Running
  {
  }

  lemma QueueKeepsReading(s: St, k: RegRef, write: bool, action: Option<Action>, h: RegRef)
    requires WF(s) && k < |s.regs| && h < |s.regs| && ReadOrReading(s.regs[h])
    ensures ReadOrReading(Queue(s, k, write, action).s.regs[h])
  {
    hide Reg.Valid, Msg.Valid;
  }

  lemma NextRoms(y: Sys, e: Step)
    requires Inv(y.s) && Enabled(y, e) && RomsAsked(y.s)
    ensures RomsAsked(Next(y, e).s)
  {
    hide Inv, Receive, LoopTop, Caught, Queue, SyncOn, ReadOrReading, Reg.Valid, Msg.Valid;
    if e.Received? {
      ReceiveFrame(y.s, e.packets, e.now, e.rom);
      ReceiveRoms(y.s, e.packets, e.now, e.rom);
      var o := Receive(y.s, e.packets, e.now, e.rom);
      CaughtFrame(o.res.s);
      CaughtRoms(o.res.s);
      if o.res.Threw? {
        TopRoms(Caught(o.res.s), e.top);
      } else if !o.connecting {
        TopRoms(o.res.s, e.top);
      }
    } else if e.PollFailed? || e.Connected? {
      CaughtFrame(y.s);
      CaughtRoms(y.s);
      TopRoms(Caught(y.s), e.top);
      if e.Connected? {
        TopRoms(y.s.(current := Running), e.top);
      }
    } else if e.Request? {
      if y.s.current == Inspecting {
        QueueKeepsReading(y.s, e.k, e.write, e.action, REG_ROM2);
        QueueKeepsReading(y.s, e.k, e.write, e.action, REG_ROM16);
      }
    } else {
      RecordRoms(y, e);
    }
  }

  lemma RecordRoms(y: Sys, e: Step)
    requires Enabled(y, e) && RomsAsked(y.s) && (e.Store? || e.Sync? || e.SetAddress? || e.ForceError?)
    ensures RomsAsked(Next(y, e).s)
  {
    hide SyncOn, Reg.Valid, Msg.Valid;
    if e.Sync? {
      SyncRegs(y.s, 0, e.info);
      SyncCurrent(y.s, 0, e.info);
    }
  }

  lemma {:induction false} SyncCurrent(s: St, x: nat, action: Action)
    requires WF(s) && x <= |s.send|
    ensures SyncOn(s, x, action).current == s.current
    decreases |s.send| - x
  {
    hide Msg.Valid;
    if x < |s.send| {
      var r := s.regs[s.send[x]];
      SyncCurrent(SetReg(s, s.send[x], r.(recInprog := r.recInprog + [action])), x + 1, action);
    }
  }

  /** In every run: while the worker is in Inspecting both ROM registers are being read or have been. */
  lemma {:induction false} RunRoms(trace: seq<Sys>, steps: seq<Step>, x: nat)
    requires IsRun(trace, steps) && x < |trace|
    ensures WF(trace[x].s) && RomsAsked(trace[x].s)
  {
    hide IsRun, Enabled, Next, RomsAsked, Inv;
    RunStart(trace, steps);
    RunInv(trace, steps, x);
    RunWF(trace[x].s);
    if x == 0 {
      InitialRoms(trace[0]);
    } else {
      RunRoms(trace, steps, x - 1);
      RunInv(trace, steps, x - 1);
      RunStep(trace, steps, x - 1);
      NextRoms(trace[x - 1], steps[x - 1]);
    }
  }

  lemma RunWF(s: St)
    requires Inv(s)
    ensures WF(s) && BOOTSTRAP <= |s.regs|
  {
  }

  lemma InitialRoms(y: Sys)
    requires Initial(y)
    ensures RomsAsked(y.s)
  {
  }

  /* ---- one stage on ---- */

  /** No bootstrap register is being read. */
  predicate Settled(regs: seq<Reg>) {
    |regs| >= BOOTSTRAP && forall k | 0 <= k < BOOTSTRAP :: !regs[k].InProgress()
  }

  lemma StateAdvances(y: Sys, s: St, rom: RomMap)
    requires WF(y.s) && WF(s) && y.phase == Polling && s.current == y.s.current && s.peerNamed && rom.Registers? && ValidMap(rom)
    requires !Resetting(s) && Settled(s.regs) && RomsAsked(s) && s.current != Running && s.current != Error
    requires s.regs[REG_ID].state != InSync ==> s.regs[REG_ID] == y.s.regs[REG_ID]
    ensures var o := HandleState(s, rom);
      && o.res.Go? && (o.connecting ==> 1 < Rank(y))
      && (!o.connecting ==> Rank(Sys(o.res.s, Polling, [], [], [])) < Rank(y))
  {
    hide Queue, AddRegs, Reg.Valid, Msg.Valid;
    if s.current == Searching {
      if s.regs[REG_ID].state == InSync {
        QueueReads(s, REG_ROM2);
        QueueReads(Queue(s, REG_ROM2, false, None).s, REG_ROM16);
      } else {
        QueueReads(s, REG_ID);
      }
    }
  }

  lemma RankSent(y: Sys, s: St, s': St)
    requires WF(s) && WF(s') && s'.current == s.current && AllSameButSent(s.regs, s'.regs)
    ensures Rank(Sys(s', Polling, y.accepted, y.completed, y.out)) == Rank(Sys(s, Polling, [], [], []))
  {
  }

  lemma IdAfter(s: St, s': St)
    requires BOOTSTRAP <= |s.regs| && AllMoved(s, s', 0)
    ensures BOOTSTRAP <= |s'.regs|
    ensures var r := s'.regs[REG_ID]; r.state != InSync && !r.InProgress() ==> r == s.regs[REG_ID]
  {
    assert MovedAt(s.regs[REG_ID], s'.regs[REG_ID], s.records, s'.records, 0);
  }

  /** THE HANDSHAKE THEOREM. A pass of the worker that finds nothing being read on the bootstrap
      registers, a register map in the ROM and no failure takes the connection at least one stage
      nearer to Running: it starts the next reads, or what they led to. */
  lemma ConnectionAdvances(y: Sys, e: Step)
    requires Inv(y.s) && Calm(y, e) && RomsAsked(y.s) && e.Received? && e.rom.Registers?
    requires y.s.peerNamed && y.s.current != Running && y.s.current != Error && Settled(AfterPackets(y, e))
    ensures WF(y.s) && Rank(Next(y, e)) < Rank(y)
  {
    hide Inv, ProcessAll, HandleTimeout, HandleState, LoopTop, Sends, AllMoved, AllSameButSent, Rank, RomsAsked, Reg.Valid, Msg.Valid;
    RunWF(y.s);
    var p := ProcessAll(y.s, e.packets);
    PacketRoms(y.s, e.packets, e.now);
    IdAfter(y.s, p.s);
    StateAdvances(y, p.s, e.rom);
    var o := HandleState(p.s, e.rom);
    if o.connecting {
      ConnectingRank(Next(y, e));
    } else {
      TopSame(o.res.s, e.top);
      RankSent(Next(y, e), o.res.s, LoopTop(o.res.s, e.top).s);
    }
  }

  lemma ConnectingRank(y: Sys)
    requires WF(y.s) && y.phase == Connecting
    ensures Rank(y) == 1
  {
  }

  lemma TopSame(s: St, top: Top)
    requires WF(s) && |top.oc| == |s.slots| && Sends(s, top)
    ensures LoopTop(s, top).s.current == s.current && AllSameButSent(s.regs, LoopTop(s, top).s.regs)
  {
    hide HandleSend, AllSameButSent;
    HandleSendRegs(s, top.oc, top.due);
    SentSame(s.regs);
  }

  /** And when the callbacks return the worker is Running. */
  lemma CallbacksReturn(y: Sys, e: Step)
    requires Calm(y, e) && e.Connected?
    ensures Rank(Next(y, e)) == 0 && Next(y, e).s.current == Running
  {
    hide LoopTop, AllSameButSent, Reg.Valid, Msg.Valid;
    TopSame(y.s.(current := Running), e.top);
  }
}
