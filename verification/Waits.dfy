/** Which operation an action waits for: one accepted with a write is completed by a write of its
    register that began no earlier, one accepted with a read by a read that began no earlier or
    that it joined, and no other way, as long as nothing fails. */
module Waits {
  import opened EngineState
  import opened Partition
  import opened Conservation
  import opened Worker
  import opened Safety
  import opened EndToEndSteps
  import opened EndToEndQueue
  import opened Restarts
  import opened NetRuns

  /** A step in which no deadline passes, no reset is due and nothing throws; packets are arbitrary. */
  ghost predicate Calm(y: Sys, e: Step) {
    && Enabled(y, e)
    && match e
       case Received(packets, now, rom, top) =>
         var p := ProcessAll(y.s, packets);
         var o := Receive(y.s, packets, now, rom);
         && p.Go? && !Resetting(HandleTimeout(p.s, 0, now)) && o.res.Go?
         && (!o.connecting ==> |o.res.s.slots| == |top.oc| && Sends(o.res.s, top))
       case PollFailed(top) => false
       case Connected(ok, top) => ok && Sends(y.s.(current := Running), top)
       case _ => true
  }

  /** A stretch of a run without failures; in between the driver may stand still. */
  ghost predicate IsStretch(trace: seq<Sys>, steps: seq<Option<Step>>) {
    && |trace| == |steps| + 1 && Inv(trace[0].s)
    && forall x | 0 <= x < |steps| :: Follows(trace[x], steps[x], trace[x + 1])
  }

  ghost predicate Follows(y: Sys, e: Option<Step>, y': Sys) {
    if e.None? then y' == y else Calm(y, e.value) && y' == Next(y, e.value)
  }

  /* ---- operations begin and end ---- */

  /** The registers when the packets of a step have been handled. */
  function AfterPackets(y: Sys, e: Step): seq<Reg>
    requires Enabled(y, e)
  {
    if e.Received? then ProcessAll(y.s, e.packets).s.regs else y.s.regs
  }

  /** The operation in progress is over: the register is idle, or a queued operation runs now. */
  predicate OpEnds(r: Reg, r': Reg) {
    r.InProgress() && (r'.state != r.state || (r.writeQueued && !r'.writeQueued) || (r.readQueued && !r'.readQueued))
  }

  ghost predicate Ends(y: Sys, e: Step, k: RegRef) {
    && Enabled(y, e) && k < |y.s.regs| && k < |AfterPackets(y, e)|
    && OpEnds(y.s.regs[k], AfterPackets(y, e)[k])
  }

  function Op(write: bool): OpState {
    if write then Writing else Reading
  }

  /** A queued operation begins when the one before it ends, any other when the register is idle. */
  ghost predicate Begins(y: Sys, e: Step, k: RegRef, write: bool) {
    && Enabled(y, e) && k < |y.s.regs| && k < |AfterPackets(y, e)| && k < |Next(y, e).s.regs|
    && var m := AfterPackets(y, e)[k];
    if m.InProgress() then OpEnds(y.s.regs[k], m) && m.state == Op(write)
    else Next(y, e).s.regs[k].state == Op(write)
  }

  /* ---- packets ---- */

  predicate SameOp(r: Reg, r': Reg) {
    && r'.state == r.state && r'.nextSend == r.nextSend && r'.writeQueued == r.writeQueued && r'.readQueued == r.readQueued
    && r'.recInprog == r.recInprog && r'.recWrite == r.recWrite && r'.recRead == r.recRead
  }

  /** The caches: replies never change what is to be written, and only those to a read what was read. */
  predicate SameCaches(r: Reg, r': Reg) {
    r'.info == r.info && r'.memTx == r.memTx && (r.state != Reading ==> r'.memRx == r.memRx)
  }

  /** The operation has ended and the next one, a write before a read, has begun. */
  predicate OpEnded(r: Reg, r': Reg) {
    if r.writeQueued then
      && r'.state == Writing && r'.nextSend == 0 && !r'.writeQueued && r'.readQueued == r.readQueued
      && r'.recInprog == r.recWrite && r'.recWrite == [] && r'.recRead == r.recRead
    else
      && !r'.writeQueued && !r'.readQueued && r'.recWrite == r.recWrite
      && if r.readQueued then r'.state == Reading && r'.nextSend == 0 && r'.recInprog == r.recRead && r'.recRead == []
         else r'.state == InSync && r'.recInprog == [] && r'.recRead == r.recRead
  }

  /** What packets do to a register: at most one operation ends, and it had begun to be sent. */
  predicate Moved(r: Reg, r': Reg) {
    if !Begun(r) then r' == r else SameCaches(r, r') && (SameOp(r, r') || OpEnded(r, r'))
  }

  /** What an ended operation carried is handed over. */
  ghost predicate AllMoved(s: St, s': St, a: Action) {
    && |s'.regs| == |s.regs| && Times(a, s'.records) >= Times(a, s.records)
    && forall k | 0 <= k < |s.regs| :: MovedAt(s.regs[k], s'.regs[k], s.records, s'.records, a)
  }

  predicate MovedAt(r: Reg, r': Reg, recs: seq<Action>, recs': seq<Action>, a: Action) {
    Moved(r, r') && (OpEnds(r, r') ==> Times(a, recs') >= Times(a, recs) + Times(a, r.recInprog))
  }

  lemma MovedTwice(a: Reg, b: Reg, c: Reg)
    requires Moved(a, b) && Moved(b, c)
    ensures Moved(a, c) && (OpEnds(a, c) <==> OpEnds(a, b) || OpEnds(b, c))
    ensures OpEnds(b, c) ==> b.recInprog == a.recInprog
  {
  }

  lemma AllMovedTwice(s: St, s1: St, s2: St, a: Action)
    requires AllMoved(s, s1, a) && AllMoved(s1, s2, a)
    ensures AllMoved(s, s2, a)
  {
    hide Moved, OpEnds;
    forall k | 0 <= k < |s.regs| ensures MovedAt(s.regs[k], s2.regs[k], s.records, s2.records, a) {
      assert MovedAt(s.regs[k], s1.regs[k], s.records, s1.records, a) && MovedAt(s1.regs[k], s2.regs[k], s1.records, s2.records, a);
      MovedTwice(s.regs[k], s1.regs[k], s2.regs[k]);
    }
  }

  lemma StayMoved(r: Reg, recs: seq<Action>, recs': seq<Action>, a: Action)
    ensures MovedAt(r, r, recs, recs', a)
  {
  }

  lemma AllStay(s: St, s': St, a: Action)
    requires s'.regs == s.regs && s'.records == s.records
    ensures AllMoved(s, s', a)
  {
    hide MovedAt;
    forall k | 0 <= k < |s.regs| ensures MovedAt(s.regs[k], s'.regs[k], s.records, s'.records, a) {
      StayMoved(s.regs[k], s.records, s'.records, a);
    }
  }

  lemma NextMoved(r: Reg, o: nat, data: Word)
    requires RegOk(r) && Outstanding(r, o)
    ensures Moved(r, NextReg(r, o, data))
    ensures var f := Filled(r, o, r.state == Reading, data);
      f.recInprog == r.recInprog && (OpEnds(r, NextReg(r, o, data)) <==> f.nremaining == 0)
  {
    FilledOk(r, o, r.state == Reading, data);
  }

  lemma AcceptMoved(s: St, k: RegRef, o: nat, data: Word, a: Action)
    requires WF(s) && k < |s.regs| && RegOk(s.regs[k]) && Outstanding(s.regs[k], o)
    ensures var t := Accept(s, k, o, s.regs[k].state == Reading, data); t.Go? ==> AllMoved(s, t.s, a)
  {
    hide WF, Complete, Completed, Filled, NextReg, Moved, OpEnds;
    var r := s.regs[k];
    var t := Accept(s, k, o, r.state == Reading, data);
    if t.Go? {
      AcceptRegs(s, k, o, data);
      NextMoved(r, o, data);
      var f := Filled(r, o, r.state == Reading, data);
      if f.nremaining == 0 {
        CompleteShape(SetReg(s, k, f), k);
        TimesConcat(a, s.records, f.recInprog);
      }
      forall h | 0 <= h < |s.regs| ensures MovedAt(s.regs[h], t.s.regs[h], s.records, t.s.records, a) {
        if h != k {
          StayMoved(s.regs[h], s.records, t.s.records, a);
        }
      }
    }
  }

  lemma WordMoved(s: St, i: nat, j: nat, w: seq<Word>, a: Action)
    requires Inv(s) && i < |s.slots| && j < NREG && s.slots[i].state == Sent
    ensures var o := ProcessWord(s, i, j, w); o.Go? && !o.s.resetReq ==> AllMoved(s, o.s, a)
  {
    hide RegsOk, SendOk, WordsOk, Unique, Covered, AllMoved, Accept, AcceptAt;
    var m := s.slots[i];
    assert m.Valid(|s.regs|);
    AllStay(s, s, a);
    if m.reg[j].Some? && s.regs[m.reg[j].value].InProgress() && 2 * j + 3 < |w| && Masked(w[2 * j + 2]) == m.buf[2 * j + 2] {
      AcceptedWord(s, i, j, w);
      var k := m.reg[j].value;
      var s0 := ClearWord(s, i, j);
      AcceptMoved(s0, k, OffsetOf(s.regs[k], m.buf[2 * j + 2]), w[2 * j + 3], a);
      AllStay(s, s0, a);
      if ProcessWord(s, i, j, w).Go? {
        AllMovedTwice(s, s0, ProcessWord(s, i, j, w).s, a);
      }
    }
  }

  lemma {:induction false} WordsMoved(s: St, i: nat, j: nat, w: seq<Word>, a: Action)
    requires Inv(s) && i < |s.slots| && j <= NREG && s.slots[i].state == Sent
    ensures var o := ProcessWords(s, i, j, w); o.Go? && !o.s.resetReq ==> AllMoved(s, o.s, a)
    decreases NREG - j
  {
    hide RegsOk, SendOk, WordsOk, Unique, Covered, AllMoved, ProcessWord;
    if j == NREG {
      AllStay(s, s, a);
    } else {
      var o := ProcessWord(s, i, j, w);
      ProcessWordInv(s, i, j, w);
      WordMoved(s, i, j, w, a);
      if o.Go? && !o.s.resetReq {
        WordsMoved(o.s, i, j + 1, w, a);
        var p := ProcessWords(o.s, i, j + 1, w);
        if p.Go? && !p.s.resetReq {
          AllMovedTwice(s, o.s, p.s, a);
        }
      }
    }
  }

  lemma PacketMoved(s: St, w: seq<Word>, a: Action)
    requires Inv(s)
    ensures var o := HandleProcess(s, w); o.Go? && !o.s.resetReq ==> AllMoved(s, o.s, a)
  {
    hide RegsOk, SendOk, WordsOk, Unique, Covered, AllMoved, ProcessWords;
    AllStay(s, s, a);
    if |w| >= 8 && Matches(s, w, w[1] / ADDR_LIMIT) {
      var i := w[1] / ADDR_LIMIT;
      WordsMoved(s, i, 0, w, a);
      var o := ProcessWords(s, i, 0, w);
      if o.Go? && !o.s.resetReq {
        AllStay(o.s, ClearSlot(o.s, i), a);
        AllMovedTwice(s, o.s, ClearSlot(o.s, i), a);
      }
    }
  }

  lemma {:induction false} PacketsMoved(s: St, packets: seq<seq<Word>>, a: Action)
    requires Inv(s)
    ensures var o := ProcessAll(s, packets); o.Go? && !o.s.resetReq ==> Inv(o.s) && AllMoved(s, o.s, a)
    decreases |packets|
  {
    hide RegsOk, SendOk, WordsOk, Unique, Covered, AllMoved, HandleProcess;
    if packets == [] {
      AllStay(s, s, a);
    } else {
      var o := HandleProcess(s, packets[0]);
      HandleProcessInv(s, packets[0]);
      PacketMoved(s, packets[0], a);
      if o.Go? && !o.s.resetReq {
        PacketsMoved(o.s, packets[1..], a);
        var p := ProcessAll(o.s, packets[1..]);
        if p.Go? && !p.s.resetReq {
          AllMovedTwice(s, o.s, p.s, a);
        }
      }
    }
  }

  /* ---- the rest of a step ---- */

  predicate SameStore(r: Reg, r': Reg) {
    r'.info == r.info && r'.memTx == r.memTx && r'.memRx == r.memRx
  }

  predicate SameLists(r: Reg, r': Reg) {
    && r'.recInprog == r.recInprog && r'.recWrite == r.recWrite && r'.recRead == r.recRead
  }

  /** What is left alone by a request for some register without an action, and by sending. */
  predicate Asked(r: Reg, r': Reg) {
    && SameLists(r, r') && SameStore(r, r') && r'.writeQueued == r.writeQueued && (r.readQueued ==> r'.readQueued)
    && (r'.state == r.state || (!r.InProgress() && r'.state == Reading))
  }

  ghost predicate AllAsked(regs: seq<Reg>, regs': seq<Reg>) {
    |regs| <= |regs'| && forall k | 0 <= k < |regs| :: Asked(regs[k], regs'[k])
  }

  lemma AllAskedTwice(a: seq<Reg>, b: seq<Reg>, c: seq<Reg>)
    requires AllAsked(a, b) && AllAsked(b, c)
    ensures AllAsked(a, c)
  {
  }

  lemma RequestAsked(r: Reg)
    requires r.Valid()
    ensures if r.InProgress() then Asked(r, Merged(r, false, None)) else Asked(r, Started(r, false, None))
  {
  }

  lemma QueueAsked(s: St, k: RegRef)
    requires WF(s) && k < |s.regs|
    ensures var o := Queue(s, k, false, None);
      AllAsked(s.regs, o.s.regs) && o.s.records == s.records
  {
    hide WF, Asked, Started, Merged;
    assert s.regs[k].Valid() by { WFReg(s, k); }
    RequestAsked(s.regs[k]);
    forall h | 0 <= h < |s.regs| ensures Asked(s.regs[h], s.regs[h]) { SameAsked(s.regs[h]); }
  }

  lemma SameAsked(r: Reg)
    ensures Asked(r, r)
  {
  }

  lemma StateAsked(s: St, rom: RomMap)
    requires WF(s) && ValidMap(rom) && !Resetting(s)
    ensures var o := HandleState(s, rom).res;
      AllAsked(s.regs, o.s.regs) && o.s.records == s.records
  {
    hide Queue, AddRegs, Asked, Reg.Valid, Msg.Valid;
    forall h | 0 <= h < |s.regs| ensures Asked(s.regs[h], s.regs[h]) { SameAsked(s.regs[h]); }
    var s1 := Queue(s, REG_ROM2, false, None).s;
    var s2 := Queue(s1, REG_ROM16, false, None).s;
    QueueAsked(s, REG_ROM2);
    QueueAsked(s1, REG_ROM16);
    QueueAsked(s, REG_ID);
    AllAskedTwice(s.regs, s1.regs, s2.regs);
  }

  /** The loop top only sends, and hands over what is to be completed. */
  lemma TopHands(s: St, top: Top)
    requires WF(s) && |top.oc| == |s.slots| && Sends(s, top)
    ensures var t := LoopTop(s, top);
      AllAsked(s.regs, t.s.regs) && |t.s.regs| == |s.regs| && t.completed == s.records && t.s.records == []
  {
    hide HandleSend, WF;
    HandleSendRegs(s, top.oc, top.due);
  }

  /* ---- one step, seen from one register and one action ---- */

  predicate Names(e: Step, a: Action) {
    (e.Request? && e.action == Some(a)) || (e.Sync? && e.info == a)
  }

  /** Where action a waits on the register after a step that does not name it. */
  predicate Carried(r: Reg, r': Reg, ended: bool, a: Action) {
    if !ended then
      && Times(a, r'.recInprog) == Times(a, r.recInprog) && Times(a, r'.recWrite) == Times(a, r.recWrite)
      && Times(a, r'.recRead) == Times(a, r.recRead) && (r.InProgress() ==> r'.state == r.state)
      && (r.writeQueued ==> r'.writeQueued) && (r.readQueued ==> r'.readQueued)
    else if r.writeQueued then
      && r'.state == Writing && Times(a, r'.recInprog) == Times(a, r.recWrite) && Times(a, r'.recWrite) == 0
      && Times(a, r'.recRead) == Times(a, r.recRead) && (r.readQueued ==> r'.readQueued)
    else if r.readQueued then
      r'.state == Reading && Times(a, r'.recInprog) == Times(a, r.recRead)
    else true
  }

  /** A queued operation begins exactly when the one before it ends and no write goes first. */
  ghost predicate BeginsInTurn(y: Sys, e: Step, k: RegRef)
    requires Enabled(y, e) && k < |y.s.regs|
  {
    var r := y.s.regs[k];
    && (r.InProgress() && r.writeQueued ==> (Begins(y, e, k, true) <==> Ends(y, e, k)))
    && (r.InProgress() && r.readQueued ==> (Begins(y, e, k, false) <==> Ends(y, e, k) && !r.writeQueued))
  }

  /** Between two steps of the worker an action to be completed waits only in Connecting. */
  predicate RecordsClear(y: Sys, a: Action) {
    y.phase == Polling ==> Times(a, y.s.records) == 0
  }

  function Out(y: Sys, a: Action): nat {
    Times(a, y.s.records) + Times(a, y.completed)
  }

  ghost predicate StepFacts(y: Sys, e: Step, y': Sys, k: RegRef, a: Action)
    requires Enabled(y, e) && k < |y.s.regs|
  {
    && k < |y'.s.regs| && Carried(y.s.regs[k], y'.s.regs[k], Ends(y, e, k), a) && BeginsInTurn(y, e, k)
    && (RecordsClear(y, a) ==> RecordsClear(y', a))
    && Out(y', a) >= Out(y, a) + if Ends(y, e, k) then Times(a, y.s.regs[k].recInprog) else 0
  }

  lemma CarriedOn(r: Reg, m: Reg, r': Reg, a: Action)
    requires Moved(r, m) && Asked(m, r') && (r.writeQueued || r.readQueued ==> r.InProgress())
    ensures Carried(r, r', OpEnds(r, m), a)
    ensures r.writeQueued ==> m.InProgress() && (OpEnds(r, m) ==> m.state == Writing)
    ensures r.readQueued ==> m.InProgress() && (OpEnds(r, m) && !r.writeQueued ==> m.state == Reading) && (OpEnds(r, m) && r.writeQueued ==> m.state == Writing)
  {
  }

  lemma QueuedInProgress(s: St, k: RegRef)
    requires Inv(s) && k < |s.regs|
    ensures s.regs[k].writeQueued || s.regs[k].readQueued ==> s.regs[k].InProgress()
  {
    assert RegOk(s.regs[k]);
  }

  lemma ReceivedFactsOf(y: Sys, e: Step, k: RegRef, a: Action)
    requires Inv(y.s) && Calm(y, e) && e.Received? && k < |y.s.regs|
    ensures StepFacts(y, e, Next(y, e), k, a)
  {
    hide Inv, Reg.Valid, Msg.Valid, WF, ProcessAll, HandleTimeout, HandleState, LoopTop, Sends, Moved, OpEnds, Asked, Carried;
    var p := ProcessAll(y.s, e.packets);
    HandleTimeoutAsks(p.s, e.now);
    PacketsMoved(y.s, e.packets, a);
    NothingDue(p.s, 0, e.now);
    StateAsked(p.s, e.rom);
    var o := HandleState(p.s, e.rom);
    var r, m := y.s.regs[k], p.s.regs[k];
    assert MovedAt(r, m, y.s.records, p.s.records, a);
    QueuedInProgress(y.s, k);
    if o.connecting {
      CarriedOn(r, m, o.res.s.regs[k], a);
    } else {
      TopHands(o.res.s, e.top);
      var t := LoopTop(o.res.s, e.top);
      AllAskedTwice(p.s.regs, o.res.s.regs, t.s.regs);
      CarriedOn(r, m, t.s.regs[k], a);
      TimesConcat(a, y.completed, t.completed);
    }
  }

  lemma HandleTimeoutAsks(s: St, now: int)
    requires WF(s)
    ensures s.resetReq ==> HandleTimeout(s, 0, now).resetReq
  {
  }

  lemma NothingHappens(y: Sys, e: Step, y': Sys, k: RegRef, a: Action)
    requires Enabled(y, e) && !e.Received? && k < |y.s.regs| && k < |Next(y, e).s.regs|
    requires y.s.regs[k].InProgress() ==> Next(y, e).s.regs[k].InProgress()
    ensures !Ends(y, e, k) && BeginsInTurn(y, e, k)
  {
    hide Next;
  }

  lemma ConnectedFactsOf(y: Sys, e: Step, k: RegRef, a: Action)
    requires Inv(y.s) && Calm(y, e) && e.Connected? && k < |y.s.regs|
    ensures StepFacts(y, e, Next(y, e), k, a)
  {
    hide Inv, Reg.Valid, Msg.Valid, WF, LoopTop, Sends, Moved, OpEnds, Asked, Carried, BeginsInTurn, Ends;
    var s := y.s.(current := Running);
    assert WF(s) by { RunningWF(y.s); }
    TopHands(s, e.top);
    var t := LoopTop(s, e.top);
    var r := y.s.regs[k];
    StillMoved(r);
    QueuedInProgress(y.s, k);
    CarriedOn(r, r, t.s.regs[k], a);
    AskedBusy(r, t.s.regs[k]);
    NothingHappens(y, e, Next(y, e), k, a);
    TimesConcat(a, y.completed, t.completed);
  }

  lemma RunningWF(s: St)
    requires WF(s)
    ensures WF(s.(current := Running))
  {
  }

  lemma StillMoved(r: Reg)
    ensures Moved(r, r) && !OpEnds(r, r)
  {
  }

  lemma AskedBusy(r: Reg, r': Reg)
    requires Asked(r, r')
    ensures r.InProgress() ==> r'.InProgress()
  {
  }

  lemma RequestCarried(r: Reg, write: bool, action: Option<Action>, a: Action)
    requires r.Valid() && action != Some(a) && (r.writeQueued || r.readQueued ==> r.InProgress())
    ensures if r.InProgress() then Carried(r, Merged(r, write, action), false, a) && Merged(r, write, action).InProgress()
      else Carried(r, Started(r, write, action), false, a)
  {
    hide Times;
    OptTimes(action, a);
    TimesConcat(a, r.recInprog, OptSeq(action));
    TimesConcat(a, r.recWrite, OptSeq(action));
    TimesConcat(a, r.recRead, OptSeq(action));
  }

  lemma SameCarried(r: Reg, r': Reg, a: Action)
    requires SameLists(r, r') && r'.state == r.state && r'.writeQueued == r.writeQueued && r'.readQueued == r.readQueued
    ensures Carried(r, r', false, a)
  {
  }

  lemma {:induction false} SyncCarried(s: St, x: nat, action: Action, k: RegRef, a: Action)
    requires WF(s) && x <= |s.send| && k < |s.regs| && action != a
    ensures var s' := SyncOn(s, x, action);
      && s'.records == s.records && |s'.regs| == |s.regs|
      && s'.regs[k] == s.regs[k].(recInprog := s'.regs[k].recInprog)
      && Times(a, s'.regs[k].recInprog) == Times(a, s.regs[k].recInprog)
    decreases |s.send| - x
  {
    hide Msg.Valid;
    if x < |s.send| {
      var r := s.regs[s.send[x]];
      assert [action][1..] == [];
      TimesConcat(a, r.recInprog, [action]);
      SyncCarried(SetReg(s, s.send[x], r.(recInprog := r.recInprog + [action])), x + 1, action, k, a);
    }
  }

  /** A step of a record leaves everything but the registers alone. */
  lemma QuietFacts(y: Sys, e: Step, k: RegRef, a: Action)
    requires Enabled(y, e) && !e.Received? && k < |y.s.regs| && k < |Next(y, e).s.regs|
    requires Next(y, e).phase == y.phase && Next(y, e).completed == y.completed && Next(y, e).s.records == y.s.records
    requires Carried(y.s.regs[k], Next(y, e).s.regs[k], false, a)
    ensures StepFacts(y, e, Next(y, e), k, a)
  {
    hide Next, Times, BeginsInTurn, Ends;
    assert y.s.regs[k].InProgress() ==> Next(y, e).s.regs[k].InProgress();
    NothingHappens(y, e, Next(y, e), k, a);
  }

  lemma RequestFactsOf(y: Sys, e: Step, k: RegRef, a: Action)
    requires Inv(y.s) && Enabled(y, e) && e.Request? && k < |y.s.regs| && !Names(e, a)
    ensures StepFacts(y, e, Next(y, e), k, a)
  {
    hide Inv, WF, Reg.Valid, Msg.Valid, Times, Merged, Started, Carried, StepFacts;
    var r := y.s.regs[k];
    assert r.Valid() by { WFReg(y.s, k); }
    QueuedInProgress(y.s, k);
    SameCarried(r, r, a);
    RequestCarried(r, e.write, e.action, a);
    QuietFacts(y, e, k, a);
  }

  lemma SyncFactsOf(y: Sys, e: Step, k: RegRef, a: Action)
    requires Inv(y.s) && Enabled(y, e) && e.Sync? && k < |y.s.regs| && !Names(e, a)
    ensures StepFacts(y, e, Next(y, e), k, a)
  {
    hide Inv, WF, Reg.Valid, Msg.Valid, Times, SyncOn, Carried, StepFacts;
    var r := y.s.regs[k];
    SameCarried(r, r, a);
    SyncCarried(y.s, 0, e.info, k, a);
    SyncedCarried(r, Next(y, e).s.regs[k], a);
    QuietFacts(y, e, k, a);
  }

  lemma RecordFactsOf(y: Sys, e: Step, k: RegRef, a: Action)
    requires Inv(y.s) && Calm(y, e) && !e.Received? && !e.Connected? && k < |y.s.regs| && !Names(e, a)
    ensures StepFacts(y, e, Next(y, e), k, a)
  {
    hide Inv, WF, Reg.Valid, Msg.Valid, SyncOn, Times, Queue, Carried, StepFacts;
    if e.Request? {
      RequestFactsOf(y, e, k, a);
    } else if e.Sync? {
      SyncFactsOf(y, e, k, a);
    } else {
      SameCarried(y.s.regs[k], Next(y, e).s.regs[k], a);
      QuietFacts(y, e, k, a);
    }
  }

  lemma SyncedCarried(r: Reg, r': Reg, a: Action)
    requires r' == r.(recInprog := r'.recInprog) && Times(a, r'.recInprog) == Times(a, r.recInprog)
    ensures Carried(r, r', false, a)
  {
  }

  lemma FactsOf(y: Sys, e: Step, k: RegRef, a: Action)
    requires Inv(y.s) && Calm(y, e) && k < |y.s.regs| && !Names(e, a)
    ensures StepFacts(y, e, Next(y, e), k, a)
  {
    hide Inv, Next, StepFacts;
    if e.Received? {
      ReceivedFactsOf(y, e, k, a);
    } else if e.Connected? {
      ConnectedFactsOf(y, e, k, a);
    } else {
      RecordFactsOf(y, e, k, a);
    }
  }

  /* ---- the account of one action ---- */

  /** What a step accepts. */
  function Taken(y: Sys, e: Step): seq<Action>
    requires Enabled(y, e)
  {
    match e
    case Request(k, write, action) => if Queue(y.s, k, write, action).Go? then OptSeq(action) else []
    case Sync(action) => if Active(y.s) then Copies(|y.s.send|, action) else []
    case _ => []
  }

  lemma TakenNext(y: Sys, e: Step)
    requires Enabled(y, e)
    ensures Next(y, e).accepted == y.accepted + Taken(y, e)
  {
    hide Reg.Valid, Msg.Valid, Queue, SyncOn, Receive, LoopTop, Caught;
    assert y.accepted + [] == y.accepted;
  }

  lemma TakenAside(y: Sys, e: Step, q: seq<Action>)
    requires Enabled(y, e)
    ensures Enabled(y.(accepted := q), e) && Taken(y.(accepted := q), e) == Taken(y, e)
    ensures Next(y.(accepted := q), e).s == Next(y, e).s && Next(y.(accepted := q), e).completed == Next(y, e).completed
  {
    hide Reg.Valid, Msg.Valid, Queue, SyncOn, Receive, LoopTop, Caught;
  }

  /** What is owned or completed grows by what is accepted, whatever happened before. */
  lemma StepAccount(y: Sys, e: Step, a: Action)
    requires Enabled(y, e)
    ensures var y' := Next(y, e);
      Owned(y'.s, a) + Times(a, y'.completed) == Owned(y.s, a) + Times(a, y.completed) + Times(a, Taken(y, e))
  {
    hide Next, Taken, Enabled, AllWaits, Times;
    var q := Copies(Owned(y.s, a) + Times(a, y.completed), a);
    CopiesTimes(Owned(y.s, a) + Times(a, y.completed), a, a);
    TakenAside(y, e, q);
    NextConserved(y.(accepted := q), e, a);
    TakenNext(y.(accepted := q), e);
    TimesConcat(a, q, Taken(y, e));
  }

  lemma NotTaken(y: Sys, e: Step, a: Action)
    requires Enabled(y, e) && !Names(e, a)
    ensures Times(a, Taken(y, e)) == 0
  {
    hide Queue;
    if e.Request? {
      OptTimes(e.action, a);
    } else if e.Sync? {
      CopiesTimes(|y.s.send|, e.info, a);
    }
  }

  lemma {:induction false} WaitsAmong(a: Action, regs: seq<Reg>, k: RegRef)
    requires k < |regs|
    ensures Waits(a, regs[k]) <= AllWaits(a, regs)
  {
    if k > 0 {
      WaitsAmong(a, regs[1..], k - 1);
    }
  }

  /* ---- runs ---- */

  /** A request with action a, made of register k at the beginning of a stretch and accepted; the
      action waits for nothing else. */
  ghost predicate Requested(trace: seq<Sys>, steps: seq<Option<Step>>, k: RegRef, write: bool, a: Action) {
    && IsStretch(trace, steps) && steps != [] && steps[0] == Some(Request(k, write, Some(a)))
    && k < |trace[0].s.regs| && trace[1].accepted == trace[0].accepted + [a] && Owned(trace[0].s, a) == 0
    && forall x | 0 < x < |steps| && steps[x].Some? :: !Names(steps[x].value, a)
  }

  ghost predicate BeginsAt(trace: seq<Sys>, steps: seq<Option<Step>>, x: int, k: RegRef, write: bool) {
    0 <= x < |steps| && x < |trace| && steps[x].Some? && Begins(trace[x], steps[x].value, k, write)
  }

  ghost predicate EndsAt(trace: seq<Sys>, steps: seq<Option<Step>>, x: int, k: RegRef, write: bool) {
    && 0 <= x < |steps| && x < |trace| && steps[x].Some? && Ends(trace[x], steps[x].value, k)
    && trace[x].s.regs[k].state == Op(write)
  }

  /** Its operation has begun: one of its kind began no earlier, or it joined a read in progress. */
  ghost predicate Underway(trace: seq<Sys>, steps: seq<Option<Step>>, k: RegRef, write: bool, z: int) {
    || (!write && trace != [] && k < |trace[0].s.regs| && trace[0].s.regs[k].state == Reading)
    || exists x :: x < z && BeginsAt(trace, steps, x, k, write)
  }

  /** And it has ended. */
  ghost predicate Served(trace: seq<Sys>, steps: seq<Option<Step>>, k: RegRef, write: bool, z: int) {
    exists x :: x < z && EndsAt(trace, steps, x, k, write) && Underway(trace, steps, k, write, x)
  }

  /** Where the action is at some point; base is how often it had been completed before. */
  ghost predicate Place(y: Sys, k: RegRef, write: bool, a: Action, base: nat, underway: bool, served: bool) {
    && k < |y.s.regs| && Inv(y.s) && RecordsClear(y, a)
    && Owned(y.s, a) + Times(a, y.completed) == base + 1 && Times(a, y.completed) >= base
    && var r := y.s.regs[k];
    if served then Out(y, a) > base
    else if underway then r.state == Op(write) && Times(a, r.recInprog) > 0
    else r.InProgress() && if write then r.writeQueued && Times(a, r.recWrite) > 0 else r.readQueued && Times(a, r.recRead) > 0
  }

  lemma PlaceStep(y: Sys, e: Step, k: RegRef, write: bool, a: Action, base: nat, underway: bool, served: bool)
    requires Calm(y, e) && !Names(e, a) && Place(y, k, write, a, base, underway, served) && (served ==> underway)
    ensures Place(Next(y, e), k, write, a, base, underway || Begins(y, e, k, write), served || (underway && Ends(y, e, k) && y.s.regs[k].state == Op(write)))
  {
    hide Inv, Calm, Next, AllWaits, Times, Ends, Begins, Taken;
    CalmEnabled(y, e);
    NextInv(y, e);
    FactsOf(y, e, k, a);
    StepAccount(y, e, a);
    NotTaken(y, e, a);
    CompletedGrows(y, e, a);
  }

  lemma CompletedGrows(y: Sys, e: Step, a: Action)
    requires Enabled(y, e)
    ensures Times(a, Next(y, e).completed) >= Times(a, y.completed)
  {
    hide Reg.Valid, Msg.Valid, WF, Queue, SyncOn, Receive, LoopTop, Caught, Times;
    match e {
      case Received(packets, now, rom, top) =>
        ReceiveFrame(y.s, packets, now, rom);
        var o := Receive(y.s, packets, now, rom);
        CaughtFrame(o.res.s);
        TimesConcat(a, y.completed, LoopTop(if o.res.Threw? then Caught(o.res.s) else o.res.s, top).completed);
      case PollFailed(top) =>
        CaughtFrame(y.s);
        TimesConcat(a, y.completed, LoopTop(Caught(y.s), top).completed);
      case Connected(ok, top) =>
        CaughtFrame(y.s);
        assert WF(y.s.(current := Running)) by { RunningWF(y.s); }
        TimesConcat(a, y.completed, LoopTop(if ok then y.s.(current := Running) else Caught(y.s), top).completed);
      case _ =>
    }
  }

  lemma CalmEnabled(y: Sys, e: Step)
    requires Calm(y, e)
    ensures Enabled(y, e)
  {
  }

  lemma RequestTakes(r: Reg, write: bool, a: Action)
    requires r.Valid()
    ensures if !r.InProgress() then
        var r' := Started(r, write, Some(a)); r'.state == Op(write) && Times(a, r'.recInprog) > 0
      else if write then
        var r' := Merged(r, write, Some(a)); r'.state == r.state && r'.writeQueued && Times(a, r'.recWrite) > 0
      else if r.state == Writing then
        var r' := Merged(r, write, Some(a)); r'.state == Writing && r'.readQueued && Times(a, r'.recRead) > 0
      else
        var r' := Merged(r, write, Some(a)); r'.state == Reading && Times(a, r'.recInprog) > 0
  {
    hide Times;
    OptTimes(Some(a), a);
    TimesConcat(a, r.recInprog, OptSeq(Some(a)));
    TimesConcat(a, r.recWrite, OptSeq(Some(a)));
    TimesConcat(a, r.recRead, OptSeq(Some(a)));
  }

  lemma PlaceFirst(y: Sys, k: RegRef, write: bool, a: Action)
    requires Inv(y.s) && Enabled(y, Request(k, write, Some(a))) && Owned(y.s, a) == 0
    requires Next(y, Request(k, write, Some(a))).accepted == y.accepted + [a]
    ensures var e := Request(k, write, Some(a));
      var joined := !write && y.s.regs[k].state == Reading;
      Place(Next(y, e), k, write, a, Times(a, y.completed), joined || Begins(y, e, k, write), false) && !Ends(y, e, k)
  {
    hide Inv, WF, Reg.Valid, Msg.Valid, Times, AllWaits, Started, Merged;
    var e := Request(k, write, Some(a));
    var r := y.s.regs[k];
    assert r.Valid() by { WFReg(y.s, k); }
    assert y.accepted + [a] != y.accepted + [];
    RequestTakes(r, write, a);
    NextInv(y, e);
    StepAccount(y, e, a);
    OptTimes(Some(a), a);
  }

  lemma StretchStart(trace: seq<Sys>, steps: seq<Option<Step>>)
    requires IsStretch(trace, steps)
    ensures |trace| == |steps| + 1 && Inv(trace[0].s)
  {
  }

  lemma StretchStep(trace: seq<Sys>, steps: seq<Option<Step>>, x: nat)
    requires IsStretch(trace, steps) && x < |steps|
    ensures |trace| == |steps| + 1 && Follows(trace[x], steps[x], trace[x + 1])
  {
  }

  lemma UnderwayNext(trace: seq<Sys>, steps: seq<Option<Step>>, k: RegRef, write: bool, z: nat)
    requires |trace| == |steps| + 1 && z < |steps|
    ensures Underway(trace, steps, k, write, z + 1) <==> Underway(trace, steps, k, write, z) || BeginsAt(trace, steps, z, k, write)
    ensures Served(trace, steps, k, write, z + 1) <==>
      Served(trace, steps, k, write, z) || (Underway(trace, steps, k, write, z) && EndsAt(trace, steps, z, k, write))
    ensures Served(trace, steps, k, write, z) ==> Underway(trace, steps, k, write, z)
  {
    hide BeginsAt, EndsAt;
    assert BeginsAt(trace, steps, z, k, write) ==> Underway(trace, steps, k, write, z + 1);
  }

  lemma {:induction false} RunPlace(trace: seq<Sys>, steps: seq<Option<Step>>, k: RegRef, write: bool, a: Action, z: nat)
    requires Requested(trace, steps, k, write, a) && 0 < z < |trace|
    ensures Place(trace[z], k, write, a, Times(a, trace[0].completed), Underway(trace, steps, k, write, z), Served(trace, steps, k, write, z))
    ensures Served(trace, steps, k, write, z) ==> Underway(trace, steps, k, write, z)
  {
    hide IsStretch, Calm, Next, Place, Begins, Ends, Underway, Served, Owned, Names, Inv;
    StretchStart(trace, steps);
    StretchStep(trace, steps, z - 1);
    UnderwayNext(trace, steps, k, write, z - 1);
    if z == 1 {
      assert Calm(trace[0], Request(k, write, Some(a)));
      CalmEnabled(trace[0], Request(k, write, Some(a)));
      PlaceFirst(trace[0], k, write, a);
      NothingYet(trace, steps, k, write);
    } else {
      RunPlace(trace, steps, k, write, a, z - 1);
      if steps[z - 1].Some? {
        PlaceStep(trace[z - 1], steps[z - 1].value, k, write, a, Times(a, trace[0].completed),
          Underway(trace, steps, k, write, z - 1), Served(trace, steps, k, write, z - 1));
      }
    }
  }

  lemma NothingYet(trace: seq<Sys>, steps: seq<Option<Step>>, k: RegRef, write: bool)
    requires trace != [] && k < |trace[0].s.regs|
    ensures Underway(trace, steps, k, write, 0) <==> !write && trace[0].s.regs[k].state == Reading
    ensures !Served(trace, steps, k, write, 0)
  {
  }

  /** THE ACTION THEOREM. The action of an accepted write is completed when, and only when, a write
      of its register has ended that began with the request or later; that of an accepted read when
      and only when a read has ended that began with the request or later, or that it joined. While
      the callbacks of handle_inspect run, completion may be delayed until they return. */
  lemma ActionServed(trace: seq<Sys>, steps: seq<Option<Step>>, k: RegRef, write: bool, a: Action, z: nat)
    requires Requested(trace, steps, k, write, a) && 0 < z < |trace|
    ensures var n, m := Times(a, trace[0].completed), Times(a, trace[z].completed);
      && n <= m <= n + 1
      && (m > n ==> Served(trace, steps, k, write, z))
      && (Served(trace, steps, k, write, z) && trace[z].phase == Polling ==> m > n)
  {
    hide IsStretch, Inv, Underway, Served, AllWaits, Times;
    RunPlace(trace, steps, k, write, a, z);
    WaitsAmong(a, trace[z].s.regs, k);
  }

  /* ---- the caches ---- */

  /** What a step of driver and records does to the two caches of a register. */
  predicate CachesAfter(r: Reg, r': Reg, e: Step, k: RegRef) {
    && r'.info == r.info && r'.memTx == (if e.Store? && e.k == k then e.tx else r.memTx)
    && (r.state != Reading || !e.Received? ==> r'.memRx == r.memRx)
  }

  lemma RequestStore(r: Reg, write: bool, action: Option<Action>)
    requires r.Valid()
    ensures SameStore(r, Merged(r, write, action)) && SameStore(r, Started(r, write, action))
  {
  }

  lemma {:induction false} SyncStore(s: St, x: nat, action: Action, k: RegRef)
    requires WF(s) && x <= |s.send| && k < |s.regs|
    ensures |SyncOn(s, x, action).regs| == |s.regs| && SameStore(s.regs[k], SyncOn(s, x, action).regs[k])
  {
    SyncRegs(s, x, action);
  }

  lemma MovedStore(r: Reg, m: Reg, r': Reg)
    requires Moved(r, m) && Asked(m, r')
    ensures r'.info == r.info && r'.memTx == r.memTx && (r.state != Reading ==> r'.memRx == r.memRx)
  {
  }

  lemma AskedStore(r: Reg, r': Reg)
    requires Asked(r, r')
    ensures SameStore(r, r')
  {
  }

  lemma ReceivedCaches(y: Sys, e: Step, k: RegRef)
    requires Inv(y.s) && Calm(y, e) && e.Received? && k < |y.s.regs|
    ensures k < |Next(y, e).s.regs| && CachesAfter(y.s.regs[k], Next(y, e).s.regs[k], e, k)
  {
    hide Inv, Reg.Valid, Msg.Valid, WF, ProcessAll, HandleTimeout, HandleState, LoopTop, Sends, Moved, Asked, OpEnds;
    var p := ProcessAll(y.s, e.packets);
    HandleTimeoutAsks(p.s, e.now);
    PacketsMoved(y.s, e.packets, 0);
    NothingDue(p.s, 0, e.now);
    StateAsked(p.s, e.rom);
    var o := HandleState(p.s, e.rom);
    var r, m := y.s.regs[k], p.s.regs[k];
    assert MovedAt(r, m, y.s.records, p.s.records, 0);
    if o.connecting {
      MovedStore(r, m, o.res.s.regs[k]);
    } else {
      TopHands(o.res.s, e.top);
      AllAskedTwice(p.s.regs, o.res.s.regs, LoopTop(o.res.s, e.top).s.regs);
      MovedStore(r, m, LoopTop(o.res.s, e.top).s.regs[k]);
    }
  }

  lemma ConnectedCaches(y: Sys, e: Step, k: RegRef)
    requires Calm(y, e) && e.Connected? && k < |y.s.regs|
    ensures k < |Next(y, e).s.regs| && CachesAfter(y.s.regs[k], Next(y, e).s.regs[k], e, k)
  {
    hide WF, Reg.Valid, Msg.Valid, LoopTop, Sends, Asked;
    assert WF(y.s.(current := Running)) by { RunningWF(y.s); }
    TopHands(y.s.(current := Running), e.top);
    AskedStore(y.s.regs[k], Next(y, e).s.regs[k]);
  }

  lemma RequestCaches(y: Sys, e: Step, k: RegRef)
    requires Enabled(y, e) && e.Request? && k < |y.s.regs|
    ensures k < |Next(y, e).s.regs| && CachesAfter(y.s.regs[k], Next(y, e).s.regs[k], e, k)
  {
    hide WF, Reg.Valid, Msg.Valid, Merged, Started;
    assert y.s.regs[e.k].Valid() by { WFReg(y.s, e.k); }
    RequestStore(y.s.regs[e.k], e.write, e.action);
  }

  lemma OtherCaches(y: Sys, e: Step, k: RegRef)
    requires Enabled(y, e) && k < |y.s.regs| && (e.Store? || e.Sync? || e.SetAddress? || e.ForceError?)
    ensures k < |Next(y, e).s.regs| && CachesAfter(y.s.regs[k], Next(y, e).s.regs[k], e, k)
  {
    hide WF, Reg.Valid, Msg.Valid, SyncOn;
    if e.Sync? {
      SyncStore(y.s, 0, e.info, k);
    }
  }

  /** THE CACHE LEMMA. In every step without a failure the send cache of a register changes only
      when a record stores into it, and then to what is stored; the receive cache changes only
      while the register is being read, when packets are handled. */
  lemma CachesKept(y: Sys, e: Step, k: RegRef)
    requires Inv(y.s) && Calm(y, e) && k < |y.s.regs|
    ensures k < |Next(y, e).s.regs| && CachesAfter(y.s.regs[k], Next(y, e).s.regs[k], e, k)
  {
    hide Inv, Next, CachesAfter;
    if e.Received? {
      ReceivedCaches(y, e, k);
    } else if e.Connected? {
      ConnectedCaches(y, e, k);
    } else if e.Request? {
      RequestCaches(y, e, k);
    } else {
      OtherCaches(y, e, k);
    }
  }
}
