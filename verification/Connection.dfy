/** The five connection states over whole runs, and what every failure leads to. */
module Connection {
  import opened EngineState
  import opened Partition
  import opened Conservation
  import opened Worker
  import opened Messages
  import opened Safety

  ghost predicate AllFree(s: St) {
    forall i | 0 <= i < |s.slots| :: s.slots[i].state == Free
  }

  /** Without a peer, or after an error, no message is under way. */
  ghost predicate Silent(s: St) {
    s.current == Error || s.current == Idle ==> AllFree(s)
  }

  /** Inspecting, with both ROM registers freshly read. */
  predicate RomsRead(s: St)
    requires WF(s)
  {
    s.current == Inspecting && s.regs[REG_ROM2].state == InSync && s.regs[REG_ROM16].state == InSync
  }

  ghost predicate Good(y: Sys) {
    Inv(y.s) && MsgsOk(y.s.slots) && Silent(y.s) && (y.phase == Connecting ==> y.s.current == Inspecting)
  }

  lemma FreshMsgs(s: St)
    requires WF(s)
    ensures forall e :: MsgsOk(Reset(s, e).slots) && AllFree(Reset(s, e))
    ensures MsgsOk(Caught(s).slots) && AllFree(Caught(s)) && Inv(Caught(s)) && Caught(s).current == Error
  {
    ResetInv(s, false);
  }

  lemma LoopTopGood(s: St, top: Top)
    requires Inv(s) && MsgsOk(s.slots) && Silent(s) && |top.oc| == |s.slots|
    ensures var t := LoopTop(s, top);
      && Inv(t.s) && MsgsOk(t.s.slots) && Silent(t.s)
      && (t.s.current == s.current || t.s.current == Error)
      && forall x | 0 <= x < |t.out| :: TxOk(t.out[x])
  {
    hide RegsOk, SendOk, WordsOk, Unique, Covered, MsgsOk, HandleSend, Reset, TxOk;
    LoopTopInv(s, top);
    HandleSendOk(s, top.oc, top.due);
    FreshMsgs(HandleSend(s, top.oc, top.due).res.s);
  }

  /** In Error and Idle received packets and the clock change nothing. */
  lemma {:induction false} SilentPackets(s: St, packets: seq<seq<Word>>)
    requires WF(s) && AllFree(s)
    ensures ProcessAll(s, packets) == Go(s)
    decreases |packets|
  {
    if packets != [] {
      SilentPackets(s, packets[1..]);
    }
  }

  lemma {:induction false} SilentClock(s: St, i: nat, now: int)
    requires WF(s) && AllFree(s) && i <= |s.slots|
    ensures HandleTimeout(s, i, now) == s
    decreases |s.slots| - i
  {
    if i < |s.slots| {
      SilentClock(s, i + 1, now);
    }
  }

  lemma {:induction false} TimeoutMsgs(s: St, i: nat, now: int)
    requires Inv(s) && MsgsOk(s.slots) && i <= |s.slots|
    ensures var s' := HandleTimeout(s, i, now);
      s'.resetReq || (Inv(s') && MsgsOk(s'.slots))
    decreases |s.slots| - i
  {
    hide RegsOk, SendOk, WordsOk, Unique, Covered, MsgsOk;
    if i < |s.slots| && !(s.slots[i].state == Sent && s.slots[i].due <= now) {
      TimeoutMsgs(s, i + 1, now);
    }
  }

  /** The connection state after handle_state. */
  lemma HandleStateGood(s: St, rom: RomMap)
    requires WF(s) && ValidMap(rom) && (s.resetReq || (Inv(s) && MsgsOk(s.slots) && Silent(s)))
    ensures var o := HandleState(s, rom);
      && (o.res.Go? ==> Inv(o.res.s) && MsgsOk(o.res.s.slots) && Silent(o.res.s))
      && (o.res.s.current == Running ==> s.current == Running)
      && (o.connecting ==> o.res.Go? && s.current == Inspecting && RomsRead(o.res.s))
      && (o.res.Go? && s.current == Error && o.res.s.current != Error ==> s.resetReq && !s.errorReq)
  {
    hide RegsOk, SendOk, WordsOk, Unique, Covered, MsgsOk, Queue, Reset, AddRegs;
    if s.resetReq || s.errorReq {
      FreshMsgs(s);
      ResetInv(s, s.errorReq);
      ResetClean(s, s.errorReq);
    } else {
      HandleStateInv(s, rom);
    }
  }

  lemma ReceiveGood(s: St, packets: seq<seq<Word>>, now: int, rom: RomMap)
    requires Inv(s) && MsgsOk(s.slots) && Silent(s) && ValidMap(rom)
    ensures var o := Receive(s, packets, now, rom);
      && (o.res.Go? ==> Inv(o.res.s) && MsgsOk(o.res.s.slots) && Silent(o.res.s))
      && (o.res.s.current == Running ==> s.current == Running)
      && (o.connecting ==> o.res.Go? && s.current == Inspecting && RomsRead(o.res.s))
      && (s.current == Error && o.res.Go? && o.res.s.current != Error ==> s.resetReq && !s.errorReq)
      && (s.current == Error && o.res.Threw? ==> o.res.s == s)
  {
    hide RegsOk, SendOk, WordsOk, Unique, Covered, MsgsOk, ProcessAll, HandleTimeout, HandleState;
    ProcessAllOk(s, packets);
    var p := ProcessAll(s, packets);
    if s.current == Error || s.current == Idle {
      SilentPackets(s, packets);
      SilentClock(s, 0, now);
      HandleStateGood(s, rom);
      if s.current == Error {
        HandleStateError(s, rom);
      }
    } else if p.Go? {
      if Lost(p.s) {
        HandleTimeoutInv(p.s, 0, now);
      } else {
        TimeoutMsgs(p.s, 0, now);
      }
      HandleStateGood(HandleTimeout(p.s, 0, now), rom);
    }
  }

  lemma HandleStateError(s: St, rom: RomMap)
    requires WF(s) && ValidMap(rom) && s.current == Error
    ensures HandleState(s, rom).res.Go?
  {
  }

  lemma RecordGood(y: Sys, e: Step)
    requires Good(y) && Enabled(y, e) && !e.Received? && !e.PollFailed? && !e.Connected?
    ensures var y' := Next(y, e);
      && y'.phase == y.phase && y'.out == y.out && y'.s.current == y.s.current && y'.s.slots == y.s.slots
  {
    if e.Sync? {
      SyncFrame(y.s, 0, e.info);
    }
  }

  lemma {:induction false} SyncFrame(s: St, x: nat, action: Action)
    requires WF(s) && x <= |s.send|
    ensures SyncOn(s, x, action).slots == s.slots && SameConn(s, SyncOn(s, x, action))
    decreases |s.send| - x
  {
    if x < |s.send| {
      var r := s.regs[s.send[x]];
      SyncFrame(SetReg(s, s.send[x], r.(recInprog := r.recInprog + [action])), x + 1, action);
    }
  }

  lemma NextGood(y: Sys, e: Step)
    requires Good(y) && Enabled(y, e)
    ensures Good(Next(y, e))
  {
    hide RegsOk, SendOk, WordsOk, Unique, Covered, MsgsOk, LoopTop, Receive, Caught, Queue, SyncOn, Silent;
    NextInv(y, e);
    match e
    case Received(packets, now, rom, top) =>
      ReceiveGood(y.s, packets, now, rom);
      ReceiveFrame(y.s, packets, now, rom);
      var o := Receive(y.s, packets, now, rom);
      CaughtFrame(o.res.s);
      CaughtSilent(o.res.s);
      if o.res.Threw? {
        LoopTopGood(Caught(o.res.s), top);
      } else if !o.connecting {
        LoopTopGood(o.res.s, top);
      }
    case PollFailed(top) =>
      CaughtFrame(y.s);
      CaughtSilent(y.s);
      LoopTopGood(Caught(y.s), top);
    case Connected(ok, top) =>
      CaughtFrame(y.s);
      CaughtSilent(y.s);
      RunningGood(y.s);
      LoopTopGood(if ok then y.s.(current := Running) else Caught(y.s), top);
    case _ =>
      RecordGood(y, e);
      SilentSame(y.s, Next(y, e).s);
  }

  lemma CaughtSilent(s: St)
    requires WF(s)
    ensures Inv(Caught(s)) && MsgsOk(Caught(s).slots) && Silent(Caught(s))
  {
    hide MsgsOk, RegsOk, SendOk, WordsOk, Unique, Covered;
    FreshMsgs(s);
  }

  lemma RunningGood(s: St)
    requires Inv(s)
    ensures Inv(s.(current := Running)) && Silent(s.(current := Running))
  {
    hide RegsOk, SendOk, WordsOk, Unique, Covered;
  }

  lemma SilentSame(s: St, s': St)
    requires Silent(s) && s'.current == s.current && s'.slots == s.slots
    ensures Silent(s')
  {
  }

  lemma {:induction false} RunGood(trace: seq<Sys>, steps: seq<Step>, x: nat)
    requires IsRun(trace, steps) && x < |trace|
    ensures Good(trace[x])
  {
    hide IsRun, Enabled, Next, MsgsOk, Inv;
    RunStart(trace, steps);
    if x == 0 {
      RunInv(trace, steps, 0);
      assert MsgsOk(trace[0].s.slots) by { InitialMsgs(trace[0]); }
    } else {
      RunGood(trace, steps, x - 1);
      RunStep(trace, steps, x - 1);
      NextGood(trace[x - 1], steps[x - 1]);
    }
  }

  ghost predicate AllTxOk(out: seq<Tx>) {
    forall x | 0 <= x < |out| :: TxOk(out[x])
  }

  lemma ResumeOut(y: Sys, s: St, top: Top)
    requires AllTxOk(y.out) && Inv(s) && MsgsOk(s.slots) && Silent(s) && |top.oc| == |s.slots|
    ensures AllTxOk(Resume(y, s, top).out)
  {
    hide RegsOk, SendOk, WordsOk, Unique, Covered, MsgsOk, LoopTop, TxOk;
    LoopTopGood(s, top);
  }

  lemma NextOut(y: Sys, e: Step)
    requires Good(y) && Enabled(y, e) && AllTxOk(y.out)
    ensures AllTxOk(Next(y, e).out)
  {
    hide RegsOk, SendOk, WordsOk, Unique, Covered, MsgsOk, Receive, Caught, Queue, SyncOn, Silent, Resume, AllTxOk;
    match e
    case Received(packets, now, rom, top) =>
      ReceiveGood(y.s, packets, now, rom);
      ReceiveFrame(y.s, packets, now, rom);
      var o := Receive(y.s, packets, now, rom);
      CaughtFrame(o.res.s);
      CaughtSilent(o.res.s);
      if o.res.Threw? {
        ResumeOut(y, Caught(o.res.s), top);
      } else if !o.connecting {
        ResumeOut(y, o.res.s, top);
      }
    case PollFailed(top) =>
      CaughtFrame(y.s);
      CaughtSilent(y.s);
      ResumeOut(y, Caught(y.s), top);
    case Connected(ok, top) =>
      CaughtFrame(y.s);
      CaughtSilent(y.s);
      RunningGood(y.s);
      ResumeOut(y, if ok then y.s.(current := Running) else Caught(y.s), top);
    case _ => RecordGood(y, e);
  }

  /** Every datagram of every run has 8 to 362 words, 32 to 1448 bytes, behind a correct header. */
  lemma {:induction false} RunDatagrams(trace: seq<Sys>, steps: seq<Step>, x: nat)
    requires IsRun(trace, steps) && x < |trace|
    ensures AllTxOk(trace[x].out)
  {
    hide IsRun, Initial, Enabled, Next, Good, AllTxOk;
    RunStart(trace, steps);
    if x == 0 {
      NothingSent(trace[0]);
    } else {
      RunDatagrams(trace, steps, x - 1);
      RunGood(trace, steps, x - 1);
      RunStep(trace, steps, x - 1);
      NextOut(trace[x - 1], steps[x - 1]);
    }
  }

  lemma NothingSent(y: Sys)
    requires Initial(y)
    ensures AllTxOk(y.out)
  {
  }

  lemma InitialMsgs(y: Sys)
    requires Initial(y)
    ensures MsgsOk(y.s.slots)
  {
  }

  /** Running is entered only when the callbacks of handle_inspect return, and those are started
      only in Inspecting with both ROM registers freshly read. */
  lemma RunningGate(trace: seq<Sys>, steps: seq<Step>, x: nat)
    requires IsRun(trace, steps) && x < |steps|
    ensures trace[x].s.current != Running && trace[x + 1].s.current == Running ==>
      steps[x].Connected? && steps[x].ok && trace[x].phase == Connecting && trace[x].s.current == Inspecting
    ensures trace[x].phase != Connecting && trace[x + 1].phase == Connecting ==>
      steps[x].Received? && trace[x].s.current == Inspecting && WF(trace[x + 1].s) && RomsRead(trace[x + 1].s)
  {
    hide IsRun, Enabled, Next, Good;
    RunStep(trace, steps, x);
    RunGood(trace, steps, x);
    StepGate(trace[x], steps[x]);
  }

  /** Error is left only by a requested reset. */
  lemma ErrorGate(trace: seq<Sys>, steps: seq<Step>, x: nat)
    requires IsRun(trace, steps) && x < |steps|
    ensures trace[x].s.current == Error && trace[x + 1].s.current != Error ==>
      steps[x].Received? && trace[x].s.resetReq && !trace[x].s.errorReq
  {
    hide IsRun, Enabled, Next, Good;
    RunStep(trace, steps, x);
    RunGood(trace, steps, x);
    StepGate(trace[x], steps[x]);
  }

  lemma StepGate(y: Sys, e: Step)
    requires Good(y) && Enabled(y, e)
    ensures var y' := Next(y, e);
      && (y.s.current != Running && y'.s.current == Running ==>
            e.Connected? && e.ok && y.phase == Connecting && y.s.current == Inspecting)
      && (y.phase != Connecting && y'.phase == Connecting ==>
            e.Received? && y.s.current == Inspecting && RomsRead(y'.s))
      && (y.s.current == Error && y'.s.current != Error ==> e.Received? && y.s.resetReq && !y.s.errorReq)
  {
    hide RegsOk, SendOk, WordsOk, Unique, Covered, MsgsOk, LoopTop, Receive, Caught, Queue, SyncOn;
    match e
    case Received(packets, now, rom, top) =>
      ReceiveGood(y.s, packets, now, rom);
      ReceiveFrame(y.s, packets, now, rom);
      var o := Receive(y.s, packets, now, rom);
      CaughtFrame(o.res.s);
      CaughtSilent(o.res.s);
      CaughtError(o.res.s);
      if o.res.Threw? {
        LoopTopGood(Caught(o.res.s), top);
      } else if !o.connecting {
        LoopTopGood(o.res.s, top);
      }
    case PollFailed(top) =>
      CaughtFrame(y.s);
      CaughtSilent(y.s);
      CaughtError(y.s);
      LoopTopGood(Caught(y.s), top);
    case Connected(ok, top) =>
      CaughtFrame(y.s);
      CaughtSilent(y.s);
      CaughtError(y.s);
      RunningGood(y.s);
      LoopTopGood(if ok then y.s.(current := Running) else Caught(y.s), top);
    case _ => RecordGood(y, e);
  }

  lemma CaughtError(s: St)
    requires WF(s)
    ensures Caught(s).current == Error
  {
  }

  /** In Error and Idle no packet from the network changes anything at all. */
  lemma DeafWhenSilent(trace: seq<Sys>, steps: seq<Step>, x: nat, packets: seq<seq<Word>>, now: int)
    requires IsRun(trace, steps) && x < |trace| && (trace[x].s.current == Error || trace[x].s.current == Idle)
    ensures WF(trace[x].s) && ProcessAll(trace[x].s, packets) == Go(trace[x].s) && HandleTimeout(trace[x].s, 0, now) == trace[x].s
  {
    hide IsRun;
    RunGood(trace, steps, x);
    SilentPackets(trace[x].s, packets);
    SilentClock(trace[x].s, 0, now);
  }

  /* ---- failures ---- */

  /** The answer for slot j is missing from the packet, or does not fit the request. */
  predicate BadWord(m: Msg, j: nat, w: seq<Word>)
    requires |m.reg| == NREG && j < NREG
  {
    && m.reg[j].Some? && 2 * j + 2 < |m.buf|
    && (2 * j + 3 >= |w| || Masked(w[2 * j + 2]) != m.buf[2 * j + 2])
  }

  /** A packet that matches a message in flight but is truncated or answers something else. */
  ghost predicate BadPacket(s: St, w: seq<Word>)
    requires WF(s)
  {
    exists i, j :: 0 <= i < |s.slots| && 0 <= j < NREG && Matches(s, w, i) && |s.slots[i].reg| == NREG && BadWord(s.slots[i], j, w)
  }

  lemma {:induction false} BadWordResets(s: St, i: nat, x: nat, j: nat, w: seq<Word>)
    requires Inv(s) && i < |s.slots| && x <= j < NREG && s.slots[i].state == Sent
    requires |s.slots[i].reg| == NREG && BadWord(s.slots[i], j, w)
    ensures var o := ProcessWords(s, i, x, w); o.Threw? || o.s.resetReq
    decreases NREG - x
  {
    hide RegsOk, SendOk, WordsOk, Unique, Covered;
    var o := ProcessWord(s, i, x, w);
    ProcessWordInv(s, i, x, w);
    if o.Go? {
      if x == j {
        UsedWord(s, i, j);
      } else if !o.s.resetReq {
        BadWordResets(o.s, i, x + 1, j, w);
      }
    }
  }

  lemma BadPacketResets(s: St, w: seq<Word>)
    requires Inv(s) && BadPacket(s, w)
    ensures var o := HandleProcess(s, w); o.Threw? || o.s.resetReq
  {
    hide RegsOk, SendOk, WordsOk, Unique, Covered, ProcessWords;
    var i, j :| 0 <= i < |s.slots| && 0 <= j < NREG && Matches(s, w, i) && |s.slots[i].reg| == NREG && BadWord(s.slots[i], j, w);
    BadWordResets(s, i, 0, j, w);
  }

  /** Some packet of the batch, at the time it is looked at, is bad. */
  ghost predicate BadAmong(s: St, packets: seq<seq<Word>>)
    requires WF(s)
    decreases |packets|
  {
    packets != [] && (BadPacket(s, packets[0]) || (HandleProcess(s, packets[0]).Go? && BadAmong(HandleProcess(s, packets[0]).s, packets[1..])))
  }

  ghost predicate Overdue(s: St, now: int) {
    exists i :: 0 <= i < |s.slots| && s.slots[i].state == Sent && s.slots[i].due <= now
  }

  lemma {:induction false} BadAmongResets(s: St, packets: seq<seq<Word>>)
    requires InvOrLost(s) && BadAmong(s, packets)
    ensures var o := ProcessAll(s, packets); o.Threw? || o.s.resetReq
    decreases |packets|
  {
    hide RegsOk, SendOk, WordsOk, Unique, Covered, NoWords, BadPacket, HandleProcess;
    var o := HandleProcess(s, packets[0]);
    HandleProcessInv(s, packets[0]);
    if Inv(s) && BadPacket(s, packets[0]) {
      BadPacketResets(s, packets[0]);
    } else if !Inv(s) {
      LostResets(s);
    } else if o.Go? {
      BadAmongResets(o.s, packets[1..]);
    }
  }

  lemma LostResets(s: St)
    requires Lost(s)
    ensures s.resetReq
  {
  }

  lemma {:induction false} OverdueResets(s: St, i: nat, x: nat, now: int)
    requires WF(s) && i <= x < |s.slots| && s.slots[x].state == Sent && s.slots[x].due <= now
    ensures HandleTimeout(s, i, now).resetReq
    decreases |s.slots| - i
  {
    if s.slots[i].state == Sent && s.slots[i].due <= now {
      assert DoTimeout(s, i).resetReq;
    } else {
      OverdueResets(s, i + 1, x, now);
    }
  }

  /** What one pass of the worker finds wrong: a bad reply, a missed deadline or an exception. */
  ghost predicate Fails(s: St, packets: seq<seq<Word>>, now: int)
    requires WF(s)
  {
    BadAmong(s, packets) || ProcessAll(s, packets).Threw? || Overdue(ProcessAll(s, packets).s, now)
  }

  /** A failure turns into a reset before the lock is released. */
  lemma FailureReceive(s: St, packets: seq<seq<Word>>, now: int, rom: RomMap)
    requires Inv(s) && ValidMap(rom) && Fails(s, packets, now)
    ensures var o := Receive(s, packets, now, rom);
      && !o.connecting
      && (o.res.Go? ==> CleanReset(o.res.s) && o.res.s.current != Running && o.res.s.current != Inspecting)
  {
    hide RegsOk, SendOk, WordsOk, Unique, Covered, NoWords, BadAmong, ProcessAll, HandleTimeout, CleanReset;
    ProcessAllInv(s, packets);
    var p := ProcessAll(s, packets);
    if BadAmong(s, packets) {
      BadAmongResets(s, packets);
    }
    if p.Go? {
      if Overdue(p.s, now) {
        var x :| 0 <= x < |p.s.slots| && p.s.slots[x].state == Sent && p.s.slots[x].due <= now;
        OverdueResets(p.s, 0, x, now);
      }
      var s1 := HandleTimeout(p.s, 0, now);
      assert s1.resetReq;
      ResetClean(s1, s1.errorReq);
    }
  }

  /** On a clean state handle_send has nothing to do. */
  lemma CleanTop(s: St, top: Top)
    requires CleanReset(s) && |top.oc| == |s.slots|
    ensures LoopTop(s, top) == TopRes(s.(records := []), s.records, [])
  {
    NothingReady(s, 0, top.oc, top.due);
  }

  lemma {:induction false} NothingReady(s: St, i: nat, oc: seq<Outcome>, due: int)
    requires WF(s) && AllFree(s) && i <= |s.slots| == |oc|
    ensures SendPass(s, i, oc, due) == SendRes(Go(s), [])
    decreases |s.slots| - i
  {
    if i < |s.slots| {
      NothingReady(s, i + 1, oc, due);
    }
  }

  lemma CaughtClean(s: St)
    requires WF(s)
    ensures CleanReset(Caught(s)) && Caught(s).current == Error
  {
  }

  lemma CleanOwns(s: St, a: Action)
    requires CleanReset(s)
    ensures Owned(s.(records := []), a) == 0
  {
    var r := s.regs;
    assert r == [r[0], r[1], r[2]];
    ThreeWaits(a, r[0], r[1], r[2]);
    forall k | 0 <= k < 3 ensures Waits(a, r[k]) == 0 {
      NoWaiting(r[k], a);
    }
  }

  lemma NoWaiting(r: Reg, a: Action)
    requires Waiting(r) == []
    ensures Waits(a, r) == 0
  {
    assert |r.recInprog| + |r.recWrite| + |r.recRead| == |Waiting(r)|;
    NoTimes(a);
  }

  /** handle_send throws at the top of the loop. */
  predicate TopThrows(s: St, top: Top)
    requires WF(s) && |top.oc| == |s.slots|
  {
    s.current != Error && s.current != Idle && HandleSend(s, top.oc, top.due).res.Threw?
  }

  /** The state in which a step of the worker reaches the top of its loop. */
  function AtTop(y: Sys, e: Step): (s: St)
    requires Enabled(y, e) && (e.Received? || e.PollFailed? || e.Connected?)
    ensures WF(s) && |e.top.oc| == |s.slots|
  {
    match e
    case Received(packets, now, rom, top) =>
      ReceiveFrame(y.s, packets, now, rom);
      var o := Receive(y.s, packets, now, rom);
      CaughtFrame(o.res.s);
      if o.res.Threw? then Caught(o.res.s) else o.res.s
    case PollFailed(top) => CaughtFrame(y.s); Caught(y.s)
    case Connected(ok, top) => CaughtFrame(y.s); if ok then y.s.(current := Running) else Caught(y.s)
  }

  /** The worker meets a bad reply or a missed deadline, or something throws: processing packets,
      handle_state with or without its callbacks, poll(), or handle_send. */
  ghost predicate Failing(y: Sys, e: Step)
    requires Enabled(y, e)
  {
    match e
    case Received(packets, now, rom, top) =>
      var o := Receive(y.s, packets, now, rom);
      Fails(y.s, packets, now) || o.res.Threw? || (!o.connecting && TopThrows(AtTop(y, e), top))
    case PollFailed(top) => true
    case Connected(ok, top) => !ok || TopThrows(AtTop(y, e), top)
    case _ => false
  }

  ghost predicate CleanEnd(s: St) {
    CleanReset(s) && s.current != Running && s.current != Inspecting
  }

  /** From a clean state, or when handle_send throws, the top of the loop leaves a clean state and
      takes every action. */
  lemma TopEndsClean(s: St, top: Top, a: Action)
    requires WF(s) && |top.oc| == |s.slots| && (CleanEnd(s) || TopThrows(s, top))
    ensures CleanEnd(LoopTop(s, top).s) && Owned(LoopTop(s, top).s, a) == 0
  {
    hide CleanReset, HandleSend, Caught, Owned;
    if CleanEnd(s) {
      CleanTop(s, top);
      CleanOwns(s, a);
      CleanRecords(s);
    } else {
      var h := HandleSend(s, top.oc, top.due);
      CaughtClean(h.res.s);
      CleanOwns(Caught(h.res.s), a);
      CleanRecords(Caught(h.res.s));
    }
  }

  lemma FailingTop(y: Sys, e: Step)
    requires Enabled(y, e) && Inv(y.s) && Failing(y, e)
    ensures e.Received? || e.PollFailed? || e.Connected?
    ensures CleanEnd(AtTop(y, e)) || TopThrows(AtTop(y, e), e.top)
    ensures Next(y, e) == Resume(y, AtTop(y, e), e.top)
  {
    hide Inv, CleanReset, Receive, LoopTop, Fails, Caught, TopThrows, HandleSend, Reg.Valid, Msg.Valid;
    match e {
      case Received(packets, now, rom, top) =>
        ReceiveFrame(y.s, packets, now, rom);
        var o := Receive(y.s, packets, now, rom);
        CaughtFrame(o.res.s);
        CaughtClean(o.res.s);
        ThrewNotConnecting(y.s, packets, now, rom);
        if Fails(y.s, packets, now) {
          FailureReceive(y.s, packets, now, rom);
        }
      case PollFailed(top) =>
        CaughtFrame(y.s);
        CaughtClean(y.s);
      case Connected(ok, top) =>
        CaughtFrame(y.s);
        CaughtClean(y.s);
      case _ =>
    }
  }

  lemma ThrewNotConnecting(s: St, packets: seq<seq<Word>>, now: int, rom: RomMap)
    requires WF(s) && ValidMap(rom)
    ensures Receive(s, packets, now, rom).res.Threw? ==> !Receive(s, packets, now, rom).connecting
  {
    hide ProcessAll, HandleTimeout, Queue, AddRegs, Reset, Reg.Valid, Msg.Valid;
  }

  /** THE FAILURE THEOREM. In every run, a step in which the worker meets a bad reply, a missed
      deadline or an exception anywhere ends in the clean state (and not Running), and every action
      accepted so far, each as often as it was accepted, has been completed. */
  lemma FailureEndsClean(trace: seq<Sys>, steps: seq<Step>, x: nat, a: Action)
    requires IsRun(trace, steps) && x < |steps| && Failing(trace[x], steps[x])
    ensures var y := trace[x + 1];
      && CleanReset(y.s) && y.s.current != Running && y.s.current != Inspecting && y.phase == Polling
      && Times(a, y.accepted) == Times(a, y.completed)
  {
    hide IsRun, Enabled, Inv, CleanReset, LoopTop, Failing, Next, AtTop, TopThrows, Owned, Times;
    RunStart(trace, steps);
    RunStep(trace, steps, x);
    RunInv(trace, steps, x);
    RunConserved(trace, steps, x + 1, a);
    FailingTop(trace[x], steps[x]);
    TopEndsClean(AtTop(trace[x], steps[x]), steps[x].top, a);
  }

  lemma CleanRecords(s: St)
    requires CleanReset(s)
    ensures CleanReset(s.(records := []))
  {
  }
}
