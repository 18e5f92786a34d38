/** What every run of the worker and the records keeps: the partition of the words, the
    conservation of the actions, the shape of the messages, the order of the connection states. */
module Safety {
  import opened EngineState
  import opened Partition
  import opened Conservation
  import opened Worker

  /** A driver just constructed: bootstrap registers only, no message, no address. */
  ghost predicate Initial(y: Sys) {
    && WF(y.s) && |y.s.regs| == BOOTSTRAP && y.s.send == [] && y.s.records == []
    && (forall k | 0 <= k < BOOTSTRAP :: y.s.regs[k] == FreshReg(y.s.regs[k].info))
    && (forall i | 0 <= i < |y.s.slots| :: y.s.slots[i].state == Free && y.s.slots[i].reg == NoRegs() && y.s.slots[i].buf == [])
    && y.s.current == Idle && !y.s.peerNamed && !y.s.resetReq && !y.s.errorReq && !y.s.wantToSend
    && y.phase == Polling && y.accepted == [] && y.completed == [] && y.out == []
  }

  /** Successive states under successive steps. */
  ghost predicate IsRun(trace: seq<Sys>, steps: seq<Step>) {
    && |trace| == |steps| + 1 && Initial(trace[0])
    && forall x | 0 <= x < |steps| :: Enabled(trace[x], steps[x]) && trace[x + 1] == Next(trace[x], steps[x])
  }

  lemma RunStart(trace: seq<Sys>, steps: seq<Step>)
    requires IsRun(trace, steps)
    ensures |trace| == |steps| + 1 && Initial(trace[0])
  {
  }

  lemma RunStep(trace: seq<Sys>, steps: seq<Step>, x: nat)
    requires IsRun(trace, steps) && x < |steps|
    ensures |trace| == |steps| + 1 && Enabled(trace[x], steps[x]) && trace[x + 1] == Next(trace[x], steps[x])
  {
  }

  /* ---- resets ---- */

  /** Nothing is left of the connection but the bootstrap registers, idle and zeroed. */
  ghost predicate CleanReset(s: St) {
    && WF(s) && |s.regs| == BOOTSTRAP && s.send == [] && !s.resetReq && !s.errorReq && !s.wantToSend
    && (forall i | 0 <= i < |s.slots| :: s.slots[i].state == Free && s.slots[i].reg == NoRegs() && s.slots[i].buf == [])
    && (forall k | 0 <= k < BOOTSTRAP ::
        s.regs[k].state == Invalid && !s.regs[k].readQueued && !s.regs[k].writeQueued && Waiting(s.regs[k]) == []
        && s.regs[k].memRx == Zeros(s.regs[k].info.size) && s.regs[k].memTx == Zeros(s.regs[k].info.size))
  }

  lemma ResetClean(s: St, error: bool)
    requires WF(s)
    ensures var r := Reset(s, error);
      && CleanReset(r)
      && r.current == (if error then Error else if s.peerNamed then Searching else Idle)
      && |r.slots| == |s.slots| && (forall k | 0 <= k < BOOTSTRAP :: r.regs[k].info == s.regs[k].info)
      && r.peerNamed == s.peerNamed && r.sendSeq == s.sendSeq && s.records <= r.records
      && Caught(s) == Reset(s, false).(current := Error)
  {
  }

  /** A requested reset is carried out by the next pass, whatever the state: into Error if an error
      was requested, else towards the device if there is an address. */
  lemma StateResets(s: St, rom: RomMap)
    requires WF(s) && ValidMap(rom) && (s.resetReq || s.errorReq)
    ensures var o := HandleState(s, rom);
      && o.res.Go? && !o.connecting && CleanReset(o.res.s)
      && o.res.s.current == if s.errorReq then Error else if s.peerNamed then Searching else Idle
  {
    ResetClean(s, s.errorReq);
  }

  /** An engine without traffic and with idle registers satisfies the invariant. */
  lemma IdleInv(s: St)
    requires WF(s) && s.send == [] && NoWords(s.slots)
    requires forall k | 0 <= k < |s.regs| :: !s.regs[k].InProgress() && RegOk(s.regs[k])
    ensures Inv(s)
  {
    assert forall i, j, k, w :: !Holds(s.slots, i, j, k, w);
    assert forall k | 0 <= k < |s.regs| :: CoveredAt(s.slots, s.regs[k], k);
  }

  lemma ResetInv(s: St, error: bool)
    requires WF(s)
    ensures Inv(Reset(s, error)) && Inv(Caught(s))
  {
    IdleInv(Reset(s, error));
    IdleInv(Caught(s));
  }

  /* ---- timeouts ---- */

  lemma {:induction false} HandleTimeoutInv(s: St, i: nat, now: int)
    requires InvOrLost(s) && i <= |s.slots|
    ensures InvOrLost(HandleTimeout(s, i, now))
    ensures s.resetReq ==> HandleTimeout(s, i, now).resetReq
    ensures HandleTimeout(s, i, now).errorReq == s.errorReq
    decreases |s.slots| - i
  {
    hide RegsOk, SendOk, WordsOk, Unique, Covered, DoTimeout, Reg.Valid, Msg.Valid;
    if i < |s.slots| {
      if s.slots[i].state == Sent && s.slots[i].due <= now {
        TimeoutStep(s, i);
        HandleTimeoutInv(DoTimeout(s, i), i + 1, now);
      } else {
        HandleTimeoutInv(s, i + 1, now);
      }
    }
  }

  /** A timeout with no register left to cancel only frees its message. */
  lemma TimeoutStep(s: St, i: nat)
    requires InvOrLost(s) && i < |s.slots|
    ensures InvOrLost(DoTimeout(s, i)) && DoTimeout(s, i).resetReq && DoTimeout(s, i).errorReq == s.errorReq
  {
    hide RegsOk, SendOk, WordsOk, Unique, Covered;
    var reg := s.slots[i].reg;
    assert s.slots[i].Valid(|s.regs|);
    if FirstUsed(reg, 0) == NREG {
      assert reg == NoRegs();
      if Inv(s) {
        var s1 := s.(resetReq := true);
        assert Inv(s1);
        ClearInv(s1, i);
      } else {
        TimeoutLost(s, i);
      }
    } else {
      TimeoutLost(s, i);
    }
  }

  /* ---- handle_state ---- */

  lemma AddRegsInv(s: St, infos: seq<Info>)
    requires Inv(s) && ValidMap(Registers(infos))
    ensures Inv(s.(regs := AddRegs(s.regs, infos)))
  {
    hide SendOk, Covered, Unique, AddRegs;
    var r := AddRegs(s.regs, infos);
    FreshIdle(s.regs, infos);
    GrowSend(s.regs, r, s.send);
    GrowCovered(s.regs, r, s.slots);
    GrowWords(s.regs, r, s.slots);
  }

  lemma FreshIdle(regs: seq<Reg>, infos: seq<Info>)
    requires RegsOk(regs) && ValidMap(Registers(infos))
    ensures var r := AddRegs(regs, infos); RegsOk(r) && forall k | |regs| <= k < |r| :: !r[k].InProgress()
  {
  }

  lemma GrowWords(regs: seq<Reg>, r: seq<Reg>, slots: seq<Msg>)
    requires WordsOk(regs, slots) && regs <= r
    ensures WordsOk(r, slots)
  {
  }

  lemma GrowSend(regs: seq<Reg>, r: seq<Reg>, send: seq<RegRef>)
    requires SendOk(regs, send) && regs <= r && forall k | |regs| <= k < |r| :: !r[k].InProgress()
    ensures SendOk(r, send)
  {
    forall k | 0 <= k < |r| && HasUnsent(r[k]) ensures k in send {
      assert k < |regs| && r[k] == regs[k];
    }
  }

  lemma GrowCovered(regs: seq<Reg>, r: seq<Reg>, slots: seq<Msg>)
    requires Covered(regs, slots) && regs <= r && forall k | |regs| <= k < |r| :: !r[k].InProgress()
    ensures Covered(r, slots)
  {
    forall k | 0 <= k < |r| ensures CoveredAt(slots, r[k], k) {
      if k < |regs| {
        assert r[k] == regs[k] && CoveredAt(slots, regs[k], k);
      }
    }
  }

  lemma HandleStateInv(s: St, rom: RomMap)
    requires InvOrLost(s) && ValidMap(rom)
    ensures HandleState(s, rom).res.Go? ==> Inv(HandleState(s, rom).res.s)
  {
    hide RegsOk, SendOk, WordsOk, Unique, Covered, Queue, AddRegs;
    if s.resetReq || s.errorReq {
      ResetInv(s, s.errorReq);
    } else if s.current == Searching {
      QueueInv(s, REG_ROM2, false, None);
      QueueInv(Queue(s, REG_ROM2, false, None).s, REG_ROM16, false, None);
      QueueInv(s, REG_ID, false, None);
    } else if rom.Registers? {
      AddRegsInv(s, rom.infos);
    }
  }

  lemma ReceiveInv(s: St, packets: seq<seq<Word>>, now: int, rom: RomMap)
    requires Inv(s) && ValidMap(rom)
    ensures Receive(s, packets, now, rom).res.Go? ==> Inv(Receive(s, packets, now, rom).res.s)
  {
    hide RegsOk, SendOk, WordsOk, Unique, Covered;
    ProcessAllInv(s, packets);
    var p := ProcessAll(s, packets);
    if p.Go? {
      HandleTimeoutInv(p.s, 0, now);
      HandleStateInv(HandleTimeout(p.s, 0, now), rom);
    }
  }

  /* ---- whole steps ---- */

  lemma LoopTopInv(s: St, top: Top)
    requires Inv(s) && |top.oc| == |s.slots|
    ensures Inv(LoopTop(s, top).s)
  {
    hide RegsOk, SendOk, WordsOk, Unique, Covered, HandleSend, Reset;
    HandleSendInv(s, top.oc, top.due);
    if HandleSend(s, top.oc, top.due).res.Threw? {
      ResetInv(HandleSend(s, top.oc, top.due).res.s, false);
    }
  }

  lemma {:induction false} SyncInv(s: St, x: nat, action: Action)
    requires Inv(s) && x <= |s.send|
    ensures Inv(SyncOn(s, x, action))
    decreases |s.send| - x
  {
    hide SendOk, WordsOk, Unique, Covered;
    if x < |s.send| {
      var r := s.regs[s.send[x]];
      assert RegOk(r) && r.InProgress() by { QueuedInProgress(s, x); }
      SameTraffic(s, s.send[x], r.(recInprog := r.recInprog + [action]));
      SyncInv(SetReg(s, s.send[x], r.(recInprog := r.recInprog + [action])), x + 1, action);
    }
  }

  lemma QueuedInProgress(s: St, x: nat)
    requires Inv(s) && x < |s.send|
    ensures RegOk(s.regs[s.send[x]]) && s.regs[s.send[x]].InProgress()
  {
  }

  lemma StoreInv(s: St, k: RegRef, tx: seq<Word>)
    requires Inv(s) && k < |s.regs| && |tx| == s.regs[k].info.size
    ensures Inv(SetReg(s, k, s.regs[k].(memTx := tx)))
  {
    assert RegOk(s.regs[k]);
    SameTraffic(s, k, s.regs[k].(memTx := tx));
  }

  /** One step of anybody keeps the partition. */
  lemma NextInv(y: Sys, e: Step)
    requires Enabled(y, e) && Inv(y.s)
    ensures Inv(Next(y, e).s)
  {
    hide RegsOk, SendOk, WordsOk, Unique, Covered, LoopTop, Receive, Caught, Queue, SyncOn;
    match e
    case Received(packets, now, rom, top) =>
      ReceiveInv(y.s, packets, now, rom);
      ReceiveFrame(y.s, packets, now, rom);
      var o := Receive(y.s, packets, now, rom);
      CaughtFrame(o.res.s);
      ResetInv(o.res.s, false);
      if o.res.Threw? {
        LoopTopInv(Caught(o.res.s), top);
      } else if !o.connecting {
        LoopTopInv(o.res.s, top);
      }
    case PollFailed(top) =>
      CaughtFrame(y.s);
      ResetInv(y.s, false);
      LoopTopInv(Caught(y.s), top);
    case Connected(ok, top) =>
      CaughtFrame(y.s);
      ResetInv(y.s, false);
      var s1 := if ok then y.s.(current := Running) else Caught(y.s);
      assert Inv(s1);
      LoopTopInv(s1, top);
    case Request(k, write, action) => QueueInv(y.s, k, write, action);
    case Store(k, tx) => StoreInv(y.s, k, tx);
    case Sync(info) => SyncInv(y.s, 0, info);
    case SetAddress(named) =>
    case ForceError =>
  }

  lemma CaughtFrame(s: St)
    requires WF(s)
    ensures |Caught(s).slots| == |s.slots|
  {
  }

  /** THE PARTITION THEOREM. In every run, at every point where the lock is free, each word of
      each operation in progress is in exactly one place and all counters agree with it. */
  lemma {:induction false} RunInv(trace: seq<Sys>, steps: seq<Step>, x: nat)
    requires IsRun(trace, steps) && x < |trace|
    ensures Inv(trace[x].s)
  {
    hide IsRun, Enabled, Next;
    RunStart(trace, steps);
    if x == 0 {
      IdleInv(trace[0].s);
    } else {
      hide Initial;
      RunInv(trace, steps, x - 1);
      RunStep(trace, steps, x - 1);
      NextInv(trace[x - 1], steps[x - 1]);
    }
  }

  /* ---- conservation over runs ---- */

  lemma NoTimes(a: Action)
    ensures Times(a, []) == 0
  {
  }

  lemma LoopTopOwned(s: St, top: Top, a: Action)
    requires WF(s) && |top.oc| == |s.slots|
    ensures var t := LoopTop(s, top); Owned(t.s, a) + Times(a, t.completed) == Owned(s, a)
  {
    hide AllWaits, Times, HandleSend, Reset;
    NoTimes(a);
    HandleSendOwned(s, top.oc, top.due, a);
    if HandleSend(s, top.oc, top.due).res.Threw? {
      ResetOwned(HandleSend(s, top.oc, top.due).res.s, false, a);
    }
  }

  lemma {:induction false} SyncOwned(s: St, x: nat, action: Action, a: Action)
    requires WF(s) && x <= |s.send|
    ensures Owned(SyncOn(s, x, action), a) == Owned(s, a) + if a == action then |s.send| - x else 0
    decreases |s.send| - x
  {
    if x < |s.send| {
      var r := s.regs[s.send[x]];
      var r' := r.(recInprog := r.recInprog + [action]);
      TimesConcat(a, r.recInprog, [action]);
      assert [action][1..] == [];
      WaitsUpdate(a, s.regs, s.send[x], r');
      SyncOwned(SetReg(s, s.send[x], r'), x + 1, action, a);
    }
  }

  lemma {:induction false} CopiesTimes(n: nat, action: Action, a: Action)
    ensures Times(a, Copies(n, action)) == if a == action then n else 0
  {
    if n > 0 {
      assert Copies(n, action)[1..] == Copies(n - 1, action);
      CopiesTimes(n - 1, action, a);
    }
  }

  /** Action a as accepted, minus what has been completed, is what the engine still owns. */
  predicate Conserved(y: Sys, a: Action) {
    Times(a, y.accepted) == Owned(y.s, a) + Times(a, y.completed)
  }

  lemma ResumeConserved(y: Sys, s: St, top: Top, a: Action)
    requires WF(s) && |top.oc| == |s.slots| && Times(a, y.accepted) == Owned(s, a) + Times(a, y.completed)
    ensures Conserved(Resume(y, s, top), a)
  {
    hide LoopTop, AllWaits, Times;
    LoopTopOwned(s, top, a);
    TimesConcat(a, y.completed, LoopTop(s, top).completed);
  }

  lemma CaughtOwned(s: St, a: Action)
    requires WF(s)
    ensures Owned(Caught(s), a) == Owned(s, a)
  {
    ResetOwned(s, false, a);
  }

  lemma NextConserved(y: Sys, e: Step, a: Action)
    requires Enabled(y, e) && Conserved(y, a)
    ensures Conserved(Next(y, e), a)
  {
    hide AllWaits, Times, Receive, Caught, Queue, SyncOn, Resume;
    match e
    case Received(packets, now, rom, top) =>
      ReceiveOwned(y.s, packets, now, rom, a);
      ReceiveFrame(y.s, packets, now, rom);
      var o := Receive(y.s, packets, now, rom);
      CaughtOwned(o.res.s, a);
      CaughtFrame(o.res.s);
      if o.res.Threw? {
        ResumeConserved(y, Caught(o.res.s), top, a);
      } else if !o.connecting {
        ResumeConserved(y, o.res.s, top, a);
      }
    case PollFailed(top) =>
      CaughtOwned(y.s, a);
      CaughtFrame(y.s);
      ResumeConserved(y, Caught(y.s), top, a);
    case Connected(ok, top) =>
      CaughtOwned(y.s, a);
      CaughtFrame(y.s);
      ResumeConserved(y, if ok then y.s.(current := Running) else Caught(y.s), top, a);
    case Request(k, write, action) =>
      QueueOwned(y.s, k, write, action, a);
      OptTimes(action, a);
      TimesConcat(a, y.accepted, OptSeq(action));
      TimesConcat(a, y.accepted, []);
      assert y.accepted + [] == y.accepted;
    case Store(k, tx) =>
      SetRegOwned(y.s, k, y.s.regs[k].(memTx := tx), a);
    case Sync(info) =>
      SyncOwned(y.s, 0, info, a);
      CopiesTimes(|y.s.send|, info, a);
      TimesConcat(a, y.accepted, Copies(|y.s.send|, info));
    case SetAddress(named) =>
    case ForceError =>
  }

  /** THE CONSERVATION THEOREM. In every run each accepted action has been completed or is still
      owned by the engine, exactly as often as it was accepted. */
  lemma {:induction false} RunConserved(trace: seq<Sys>, steps: seq<Step>, x: nat, a: Action)
    requires IsRun(trace, steps) && x < |trace|
    ensures Conserved(trace[x], a)
  {
    hide IsRun, Enabled, Next;
    RunStart(trace, steps);
    if x == 0 {
      var r := trace[0].s.regs;
      assert r == [r[0], r[1], r[2]];
      ThreeWaits(a, r[0], r[1], r[2]);
    } else {
      hide Initial, Conserved;
      RunConserved(trace, steps, x - 1, a);
      RunStep(trace, steps, x - 1);
      NextConserved(trace[x - 1], steps[x - 1], a);
    }
  }

  /** Nothing is stranded: an action the engine owns waits on a register in progress, or is
      handed to its record at the next release of the lock. */
  lemma {:induction false} OwnedWaits(regs: seq<Reg>, a: Action) returns (k: nat)
    requires RegsOk(regs) && AllWaits(a, regs) > 0
    ensures k < |regs| && regs[k].InProgress() && Waits(a, regs[k]) > 0
  {
    if Waits(a, regs[0]) > 0 {
      k := 0;
      assert RegOk(regs[0]);
    } else {
      assert RegsOk(regs[1..]);
      var k' := OwnedWaits(regs[1..], a);
      k := k' + 1;
    }
  }
}
