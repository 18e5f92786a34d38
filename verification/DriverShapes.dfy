/** Operations on values in the shape the driver's methods take them, and what the methods rely on. */
module DriverShapes {
  import opened Numbers
  import opened EngineState
  import opened Partition
  import opened Safety
  import opened Worker
  import opened DriverObjects

  lemma RegValid(s: St, k: RegRef)
    requires WF(s) && k < |s.regs|
    ensures s.regs[k].Valid()
  {
  }

  lemma SlotValid(s: St, i: nat)
    requires WF(s) && i < |s.slots|
    ensures |s.slots[i].reg| == NREG && |s.slots| <= 255
  {
    assert s.slots[i].Valid(|s.regs|);
  }

  /** LoadWord spelled out. */
  lemma LoadWordShape(s: St, i: nat, j: nat)
    requires WF(s) && CanLoad(s, i, j) && FrontHasWord(s)
    ensures var k := s.send[0];
      var r := s.regs[k];
      var o := r.nextSend;
      && k < |s.regs| && r.Valid() && o < r.info.size && i < |s.slots| && |s.slots[i].reg| == NREG > j
      && EngineState.LoadWord(s, i, j) == s.(
        regs := s.regs[k := r.(nextSend := o + 1)],
        slots := s.slots[i := Loaded(s.slots[i], j, k, r.Command(o), if r.state == Reading then 0 else r.memTx[o])],
        send := if o + 1 >= r.info.size then s.send[1..] else s.send)
  {
    assert s.slots[i].Valid(|s.regs|);
  }


  /** What goes onto the wire. */
  function Datagrams(out: seq<Tx>): seq<seq<Word>> {
    if out == [] then [] else [out[0].words] + Datagrams(out[1..])
  }

  lemma WordWraps(n: nat)
    ensures (n % WORD_LIMIT) % ADDR_LIMIT == n % ADDR_LIMIT
    ensures (n % WORD_LIMIT + 1) % WORD_LIMIT == (n + 1) % WORD_LIMIT
  {
    var q, m := n / WORD_LIMIT, n % WORD_LIMIT;
    Divides(n, WORD_LIMIT);
    Divides(m, ADDR_LIMIT);
    OneQuotient(n, ADDR_LIMIT, q * 256 + m / ADDR_LIMIT, m % ADDR_LIMIT);
    if m + 1 < WORD_LIMIT {
      OneQuotient(n + 1, WORD_LIMIT, q, m + 1);
    } else {
      OneQuotient(n + 1, WORD_LIMIT, q + 1, 0);
    }
  }

  lemma AttemptTwice(s: St, i: nat, due: int)
    requires WF(s) && i < |s.slots| && s.slots[i].state == Ready
    ensures var a := Attempt(s, i, Ready, s.slots[i].due);
      && i < |a.slots| && Attempt(s, i, Sent, due) == a.(slots := a.slots[i := a.slots[i].(state := Sent, due := due)])
  {
  }

  /** SendPass spelled out for one message. */
  lemma SendStep(s: St, i: nat, oc: seq<Outcome>, due: int)
    requires WF(s) && i <= |s.slots| == |oc|
    ensures var o := SendPass(s, i, oc, due);
      if i == |s.slots| then o == SendRes(Go(s), []) && Datagrams(o.out) == []
      else if s.slots[i].state != Ready then o == SendPass(s, i + 1, oc, due)
      else match oc[i]
        case WouldBlock => o == SendRes(Go(Attempt(s, i, Ready, s.slots[i].due).(wantToSend := true)), []) && Datagrams(o.out) == []
        case SocketFailure => o == SendRes(Threw(Attempt(s, i, Ready, s.slots[i].due)), []) && Datagrams(o.out) == []
        case Unreachable => o == SendPass(Attempt(s, i, Sent, due), i + 1, oc, due)
        case Delivered =>
          var s1 := Attempt(s, i, Sent, due);
          o.res == SendPass(s1, i + 1, oc, due).res && Datagrams(o.out) == [s1.slots[i].buf] + Datagrams(SendPass(s1, i + 1, oc, due).out)
  {
    hide Attempt, WF;
    if i < |s.slots| && s.slots[i].state == Ready && oc[i] == Delivered {
      var s1 := Attempt(s, i, Sent, due);
      var tx := Tx(i, s.sendSeq, s1.slots[i].buf);
      assert ([tx] + SendPass(s1, i + 1, oc, due).out)[1..] == SendPass(s1, i + 1, oc, due).out;
    }
  }

  /** Cancel spelled out. */
  lemma CancelShape(s: St, k: RegRef)
    requires WF(s) && k < |s.regs|
    ensures var r := s.regs[k];
      var u := Unqueued(Orphan(s), k);
      && u.regs == s.regs && u.records == s.records
      && EngineState.Cancel(s, k) == u.(
        regs := u.regs[k := r.(state := Invalid, recInprog := [], recWrite := [], recRead := [])],
        records := u.records + Waiting(r))
  {
    hide WF, Msg.Valid, Reg.Valid, Orphaned, Process, Unqueued;
    var r := s.regs[k];
    var u := Unqueued(s, k);
    UnqueuedSend(s, k);
    UnqueuedSend(Orphan(s), k);
    assert r.(state := Invalid).Valid() by { RegValid(s, k); DropValid(r); }
    var v := SetReg(u, k, r.(state := Invalid));
    GivenUp(v, k);
    SetTwice(u.regs, k, r.(state := Invalid), r.(state := Invalid, recInprog := [], recWrite := [], recRead := []));
  }

  lemma DropValid(r: Reg)
    requires r.Valid()
    ensures r.(state := Invalid).Valid()
  {
  }

  lemma UnqueuedSend(s: St, k: RegRef)
    requires WF(s)
    ensures Unqueued(s, k) == s.(send := if s.send != [] && s.send[0] == k then s.send[1..] else s.send)
  {
  }

  /** Process with cancel spelled out. */
  lemma GivenUp(s: St, k: RegRef)
    requires WF(s) && k < |s.regs|
    ensures var r := s.regs[k];
      Process(s, k, true) == s.(
        regs := s.regs[k := r.(recInprog := [], recWrite := [], recRead := [])],
        records := s.records + Waiting(r))
  {
    hide WF, Reg.Valid;
    var r := s.regs[k];
    Append4(s.records, r.recInprog, r.recWrite, r.recRead);
  }

  lemma Append4(a: seq<Action>, b: seq<Action>, c: seq<Action>, d: seq<Action>)
    ensures a + b + c + d == a + (b + c + d)
  {
  }

  /** What do_timeout relies on when it meets a register. */
  lemma TimeoutStart(s: St, i: nat)
    requires InvOrLost(s) && i < |s.slots|
    ensures WF(s) && |s.slots[i].reg| == NREG
    ensures var x := FirstUsed(s.slots[i].reg, 0);
      x < NREG ==>
        && s.slots[i].reg[x].value < |s.regs| && s.regs[s.slots[i].reg[x].value].InProgress()
        && ((s.send != [] && s.send[0] == s.slots[i].reg[x].value)
            || s.regs[s.slots[i].reg[x].value].nextSend >= s.regs[s.slots[i].reg[x].value].info.size)
  {
    hide RegsOk, SendOk, WordsOk, Unique, Covered;
    assert s.slots[i].Valid(|s.regs|);
    var x := FirstUsed(s.slots[i].reg, 0);
    if x < NREG && Inv(s) {
      TimeoutAsserts(s, i, x, s.slots[i].reg[x].value);
    }
  }

  /* ---- the loops of the first pass ---- */

  /** What is left of the inner loop leads to the goal. */
  ghost predicate SlotLoop(s: St, i: nat, j: nat, goal: St) {
    && Inv(s) && i < |s.slots| && j <= NREG && s.slots[i].state != Sent && |s.slots[i].reg| == NREG
    && (0 < j ==> s.slots[i].reg[j - 1].Some?) && LoadSlot(s, i, j) == goal
  }

  lemma SlotStart(s: St, i: nat)
    requires Inv(s) && i < |s.slots| && s.slots[i].state != Sent
    ensures SlotLoop(s, i, 0, LoadSlot(s, i, 0))
  {
    SlotValid(s, i);
  }

  lemma SlotStep(s: St, i: nat, j: nat, goal: St)
    requires SlotLoop(s, i, j, goal) && j < NREG && s.send != []
    ensures i < |s.slots| && |s.slots[i].reg| == NREG && Inv(s) && FrontHasWord(s)
    ensures if s.slots[i].reg[j].Some? then SlotLoop(s, i, j + 1, goal)
      else CanLoad(s, i, j) && SlotLoop(EngineState.LoadWord(s, i, j), i, j + 1, goal)
  {
    hide RegsOk, SendOk, WordsOk, Unique, Covered, EngineState.LoadWord;
    FrontReady(s);
    if s.slots[i].reg[j].None? {
      LoadInv(s, i, j);
      SlotValid(EngineState.LoadWord(s, i, j), i);
    }
  }

  lemma SlotEnd(s: St, i: nat, j: nat, goal: St)
    requires SlotLoop(s, i, j, goal) && (j == NREG || s.send == [])
    ensures s == goal && Inv(s)
  {
  }

  /** What is left of the outer loop leads to the goal. */
  ghost predicate PassLoop(s: St, i: nat, goal: St) {
    Inv(s) && i <= |s.slots| == |goal.slots| && LoadPass(s, i) == goal
  }

  lemma PassStart(s: St)
    requires Inv(s)
    ensures PassLoop(s, 0, LoadPass(s, 0))
  {
  }

  lemma PassStep(s: St, i: nat, goal: St)
    requires PassLoop(s, i, goal) && i < |s.slots| && s.send != []
    ensures Inv(s)
    ensures if s.slots[i].state == Sent then PassLoop(s, i + 1, goal)
      else PassLoop(MarkReady(LoadSlot(s, i, 0), i), i + 1, goal)
  {
    hide RegsOk, SendOk, WordsOk, Unique, Covered, LoadSlot, MarkReady;
    FrontReady(s);
    if s.slots[i].state != Sent {
      LoadSlotInv(s, i, 0);
      MarkInv(LoadSlot(s, i, 0), i);
    }
  }

  lemma PassEnd(s: St, i: nat, goal: St)
    requires PassLoop(s, i, goal) && (i == |s.slots| || s.send == [])
    ensures s == goal && Inv(s)
  {
  }

  /* ---- answering a word before its reference is dropped ---- */

  lemma QueueAside(s: St, x: seq<Msg>, k: RegRef, write: bool, action: Option<Action>)
    requires WF(s) && WF(s.(slots := x)) && k < |s.regs|
    ensures var o := EngineState.Queue(s, k, write, action);
      var o' := EngineState.Queue(s.(slots := x), k, write, action);
      o'.Go? == o.Go? && o'.s == o.s.(slots := x)
  {
    hide Reg.Valid, Msg.Valid;
  }

  lemma FinishAside(s: St, x: seq<Msg>, k: RegRef)
    requires WF(s) && WF(s.(slots := x)) && k < |s.regs|
    ensures var f := EngineState.Finish(s, k);
      && EngineState.Finish(s.(slots := x), k) == f.(slots := x)
      && k < |f.regs| && f.regs[k].Valid() && f.regs[k].info == s.regs[k].info && WF(f.(slots := x))
  {
    hide Msg.Valid;
  }

  lemma CompleteAside(s: St, x: seq<Msg>, k: RegRef)
    requires WF(s) && WF(s.(slots := x)) && k < |s.regs|
    ensures var o := EngineState.Complete(s, k);
      var o' := EngineState.Complete(s.(slots := x), k);
      o'.Go? == o.Go? && o'.s == o.s.(slots := x)
  {
    hide EngineState.Queue, EngineState.Finish, Msg.Valid;
    var s1 := EngineState.Finish(s, k);
    FinishAside(s, x, k);
    var r := s1.regs[k];
    if r.writeQueued {
      QueueAside(SetReg(s1, k, Waiters(r, true)), x, k, true, None);
    } else if r.readQueued {
      QueueAside(SetReg(s1, k, Waiters(r, false)), x, k, false, None);
    }
  }

  lemma AcceptAside(s: St, x: seq<Msg>, k: RegRef, o: nat, read: bool, data: Word)
    requires WF(s) && WF(s.(slots := x)) && k < |s.regs| && o < s.regs[k].info.size
    ensures var a := EngineState.Accept(s, k, o, read, data);
      var a' := EngineState.Accept(s.(slots := x), k, o, read, data);
      a'.Go? == a.Go? && a'.s == a.s.(slots := x)
  {
    hide EngineState.Complete, Msg.Valid;
    CompleteAside(SetReg(s, k, Filled(s.regs[k], o, read, data)), x, k);
  }

  /** The reference may as well be dropped after the answer has been stored. */
  lemma DropLast(s: St, i: nat, j: nat, cmd: Word, data: Word)
    requires WF(s) && i < |s.slots| && j < NREG && s.slots[i].state == Sent && |s.slots[i].reg| == NREG && s.slots[i].reg[j].Some?
    requires var k := s.slots[i].reg[j].value;
      k < |s.regs| && 0 <= cmd % ADDR_LIMIT - s.regs[k].info.base < s.regs[k].info.size
    ensures var k := s.slots[i].reg[j].value;
      var a := EngineState.Accept(s, k, cmd % ADDR_LIMIT - s.regs[k].info.base, IsRead(cmd), data);
      && |a.s.slots| == |s.slots| && a.s.slots == s.slots
      && AcceptAt(s, i, j, cmd, data) == if a.Go? then Go(ClearWord(a.s, i, j)) else a
  {
    hide EngineState.Accept, Msg.Valid, Reg.Valid;
    var k := s.slots[i].reg[j].value;
    AcceptAside(s, ClearWord(s, i, j).slots, k, cmd % ADDR_LIMIT - s.regs[k].info.base, IsRead(cmd), data);
  }

  lemma NoWordHere(s: St, i: nat, j: nat, w: seq<Word>)
    requires WF(s) && i < |s.slots| && j < NREG && BeingProcessed(s.slots[i]) && |s.slots[i].reg| == NREG && s.slots[i].reg[j].None?
    ensures EngineState.ProcessWord(s, i, j, w) == Go(s)
  {
  }

  /** All that the loop body of handle_process relies on. */
  lemma WordStart(s: St, i: nat, j: nat, w: seq<Word>)
    requires InvOrLost(s) && i < |s.slots| && j < NREG && BeingProcessed(s.slots[i])
    ensures WF(s) && |s.slots[i].reg| == NREG
    ensures var o := EngineState.ProcessWord(s, i, j, w); o.Go? ==> InvOrLost(o.s)
    ensures s.slots[i].reg[j].Some? ==>
      var k := s.slots[i].reg[j].value;
      && s.slots[i].state == Sent && k < |s.regs| && RegOk(s.regs[k]) && 2 * j + 2 < |s.slots[i].buf|
      && (2 * j + 3 < |w| && Masked(w[2 * j + 2]) == s.slots[i].buf[2 * j + 2] ==>
          var o := w[2 * j + 2] % ADDR_LIMIT - s.regs[k].info.base;
          && Outstanding(s.regs[k], o) && 0 <= o < s.regs[k].info.size == |s.regs[k].memRx| == |s.regs[k].received|
          && EngineState.ProcessWord(s, i, j, w) == AcceptAt(s, i, j, w[2 * j + 2], w[2 * j + 3]))
  {
    hide RegsOk, SendOk, WordsOk, Unique, Covered, EngineState.ProcessWord, AcceptAt;
    assert s.slots[i].Valid(|s.regs|);
    if s.slots[i].reg[j].None? {
      NoWordHere(s, i, j, w);
    }
    if Inv(s) {
      if s.slots[i].state == Sent {
        ProcessWordInv(s, i, j, w);
      }
      if s.slots[i].reg[j].Some? {
        UsedWord(s, i, j);
        var r := s.regs[s.slots[i].reg[j].value];
        if 2 * j + 3 < |w| && Masked(w[2 * j + 2]) == s.slots[i].buf[2 * j + 2] {
          AcceptedWord(s, i, j, w);
          MatchedWord(r, s.slots[i].buf[2 * j + 2], w[2 * j + 2]);
        }
      }
    } else {
      LostWord(s, i, j, w);
    }
  }

  lemma AllRegsValid(s: St)
    requires WF(s)
    ensures |s.regs| >= BOOTSTRAP && forall k | 0 <= k < |s.regs| :: s.regs[k].Valid()
  {
  }

  lemma AddStep(regs: seq<Reg>, infos: seq<Info>, x: nat)
    requires x < |infos| && ValidMap(Registers(infos[x..]))
    ensures ValidMap(Registers(infos[x + 1..])) && ValidInfo(infos[x]) && !infos[x].bootstrap
    ensures AddRegs(regs, infos[x..]) == AddRegs(if HasName(regs, infos[x].name) then regs else regs + [FreshReg(infos[x])], infos[x + 1..])
  {
    assert infos[x..][0] == infos[x] && infos[x..][1..] == infos[x + 1..];
  }

  lemma AddNone(regs: seq<Reg>, infos: seq<Info>)
    requires infos == [] && ValidMap(Registers(infos))
    ensures AddRegs(regs, infos) == regs
  {
  }

  lemma MoreRegs(s: St, f: Info)
    requires WF(s) && ValidInfo(f) && !f.bootstrap
    ensures WF(s.(regs := s.regs + [FreshReg(f)]))
  {
    var s' := s.(regs := s.regs + [FreshReg(f)]);
    forall i | 0 <= i < |s'.slots| ensures s'.slots[i].Valid(|s'.regs|) {
      assert s.slots[i].Valid(|s.regs|);
    }
  }

  lemma ConnectedInv(s: St, ok: bool, top: Top)
    requires Inv(s) && |top.oc| == |s.slots|
    ensures WF(s) && Inv(Caught(s)) && Inv(s.(current := Running))
    ensures Inv(Next(Sys(s, Connecting, [], [], []), Connected(ok, top)).s)
  {
    hide RegsOk, SendOk, WordsOk, Unique, Covered, Next, Caught;
    NextInv(Sys(s, Connecting, [], [], []), Connected(ok, top));
    ResetInv(s, false);
  }

  lemma SendInRange(s: St, x: nat)
    requires WF(s) && x < |s.send|
    ensures s.send[x] < |s.regs|
  {
  }

  lemma NothingBefore(out: seq<Tx>, completed: seq<Action>)
    ensures Datagrams([]) == [] && [] + out == out && [] + completed == completed
  {
  }

  lemma BootstrapRegs(s: St)
    requires WF(s)
    ensures |s.regs| >= BOOTSTRAP
  {
  }

  lemma PassInv(s: St, packets: seq<seq<Word>>, now: int, rom: RomMap, top: Top)
    requires Inv(s) && ValidMap(rom) && |top.oc| == |s.slots|
    ensures WF(s) && Inv(Caught(Receive(s, packets, now, rom).res.s))
    ensures Receive(s, packets, now, rom).res.Go? ==> Inv(Receive(s, packets, now, rom).res.s)
    ensures Inv(Next(Sys(s, Polling, [], [], []), Received(packets, now, rom, top)).s)
  {
    hide RegsOk, SendOk, WordsOk, Unique, Covered, Receive, Next, Caught;
    var y := Sys(s, Polling, [], [], []);
    NextInv(y, Received(packets, now, rom, top));
    ReceiveInv(s, packets, now, rom);
    ResetInv(Receive(s, packets, now, rom).res.s, false);
  }

  /** The first k registers are reset and their actions handed over. */
  ghost predicate PartReset(was: St, now: St, k: nat) {
    && k <= |was.regs| == |now.regs|
    && now == was.(regs := now.regs, records := was.records + AllWaiting(was.regs[..k]))
    && (forall h | 0 <= h < |was.regs| :: was.regs[h].Valid() && now.regs[h] == if h < k then ResetReg(was.regs[h]) else was.regs[h])
  }

  lemma NoneReset(s: St)
    requires WF(s)
    ensures PartReset(s, s, 0)
  {
    hide Reg.Valid, Msg.Valid;
  }

  lemma OneMoreReset(was: St, now: St, k: nat)
    requires PartReset(was, now, k) && k < |was.regs|
    ensures |now.regs| == |was.regs| && now.regs[k].Valid()
    ensures PartReset(was, now.(regs := now.regs[k := ResetReg(now.regs[k])], records := now.records + Waiting(now.regs[k])), k + 1)
  {
    hide Reg.Valid, ResetReg, Waiting;
    OneMoreWaiting(was.regs, k);
  }

  lemma AllReset(was: St, now: St)
    requires PartReset(was, now, |was.regs|)
    ensures |now.regs| == |was.regs| && now == was.(regs := now.regs, records := was.records + AllWaiting(was.regs))
    ensures forall h | 0 <= h < |was.regs| :: was.regs[h].Valid() && now.regs[h] == ResetReg(was.regs[h])
  {
    assert was.regs[..|was.regs|] == was.regs;
  }

  lemma OneMoreWaiting(regs: seq<Reg>, k: nat)
    requires k < |regs|
    ensures AllWaiting(regs[..k + 1]) == AllWaiting(regs[..k]) + Waiting(regs[k])
  {
    assert regs[..k + 1][..k] == regs[..k];
  }

  lemma ResetKeeps(r: Reg)
    requires r.Valid()
    ensures ResetReg(r).Valid() && ResetReg(r).info == r.info
  {
  }

  predicate ValidBoot(f: Info) {
    ValidInfo(f) && f.bootstrap && f.readable
  }

  predicate Blank(m: Msg) {
    m.state == Free && m.reg == NoRegs() && m.buf == []
  }

  lemma StartUp(s: St, hello: Info, rom2: Info, rom16: Info, seed: Word)
    requires ValidBoot(hello) && ValidBoot(rom2) && ValidBoot(rom16) && 1 <= |s.slots| <= 255
    requires s == St([FreshReg(hello), FreshReg(rom2), FreshReg(rom16)], s.slots, [], [], Idle, seed, false, false, false, false)
    requires forall i | 0 <= i < |s.slots| :: Blank(s.slots[i])
    ensures Initial(Sys(s, Polling, [], [], []))
    ensures WF(s)
  {
  }
}
