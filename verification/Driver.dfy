/** The device object: the worker and the records update its fields in place, and every method
    does to the ghost state exactly what the operation on values says. */
module Driver {
  import opened EngineState
  import opened Partition
  import opened Safety
  import opened Worker
  import opened DriverObjects
  import opened DriverShapes

  class Device {
    var regs: seq<DevReg>
    const inflight: seq<DevMsg>
    var send: seq<RegRef>
    var records: seq<Action>
    var current: Conn
    var sendSeq: Word
    var wantToSend: bool
    var resetReq: bool
    var errorReq: bool
    var peerNamed: bool
    // the state the theorems speak of
    ghost var st: St

    /** An unaddressed driver with 1 to 255 message slots and the bootstrap registers. */
    constructor (numInFlight: int, hello: Info, rom2: Info, rom16: Info, seed: Word)
      requires ValidBoot(hello) && ValidBoot(rom2) && ValidBoot(rom16)
      ensures Valid() && Initial(Sys(st, Polling, [], [], []))
      ensures |st.slots| == if numInFlight < 1 then 1 else if numInFlight > 255 then 255 else numInFlight
      ensures fresh(regs) && fresh(inflight)
    {
      hide WF, Initial, FreshReg, Blank;
      var n := if numInFlight < 1 then 1 else if numInFlight > 255 then 255 else numInFlight;
      var boot := MakeBoot(hello, rom2, rom16);
      var slots, values := MakeSlots(n);
      regs, inflight := boot, slots;
      send, records, current, sendSeq := [], [], Idle, seed;
      wantToSend, resetReq, errorReq, peerNamed := false, false, false, false;
      ghost var s := St([FreshReg(hello), FreshReg(rom2), FreshReg(rom16)], values, [], [], Idle, seed, false, false, false, false);
      st := s;
      StartUp(s, hello, rom2, rom16, seed);
    }

    static method MakeBoot(hello: Info, rom2: Info, rom16: Info) returns (regs: seq<DevReg>)
      ensures |regs| == BOOTSTRAP && fresh(regs)
      ensures forall k | 0 <= k < BOOTSTRAP :: regs[k].index == k && regs[k].Value() == [FreshReg(hello), FreshReg(rom2), FreshReg(rom16)][k]
    {
      var r0 := new DevReg(hello, REG_ID);
      var r1 := new DevReg(rom2, REG_ROM2);
      var r2 := new DevReg(rom16, REG_ROM16);
      regs := [r0, r1, r2];
    }

    static method MakeSlots(n: nat) returns (slots: seq<DevMsg>, ghost values: seq<Msg>)
      ensures |slots| == |values| == n && fresh(slots)
      ensures forall i | 0 <= i < n :: slots[i].index == i && slots[i].Value() == values[i] && Blank(values[i])
    {
      slots, values := [], [];
      while |slots| < n
        invariant |slots| == |values| <= n && fresh(slots)
        invariant forall i | 0 <= i < |slots| :: slots[i].index == i && slots[i].Value() == values[i] && Blank(values[i])
      {
        var m := new DevMsg(|slots|);
        slots, values := slots + [m], values + [m.Value()];
      }
    }

    ghost predicate Valid()
      reads this, regs, inflight
    {
      Tables() && Fields() && WF(st)
    }

    /** The objects are distinct and hold what st says. */
    ghost predicate Tables()
      reads this`regs, this`st, regs, inflight
    {
      && |regs| == |st.regs| && |inflight| == |st.slots|
      && (forall k | 0 <= k < |regs| :: regs[k].index == k && regs[k].Value() == st.regs[k])
      && (forall i | 0 <= i < |inflight| :: inflight[i].index == i && inflight[i].Value() == st.slots[i])
    }

    ghost predicate Fields()
      reads this
    {
      && send == st.send && records == st.records && current == st.current && sendSeq == st.sendSeq % WORD_LIMIT
      && wantToSend == st.wantToSend && resetReq == st.resetReq && errorReq == st.errorReq && peerNamed == st.peerNamed
    }

    lemma TableSizes()
      requires Tables()
      ensures |regs| == |st.regs| && |inflight| == |st.slots|
    {
    }

    lemma RegAt(k: RegRef)
      requires Tables() && k < |st.regs|
      ensures k < |regs| && regs[k].Value() == st.regs[k] && forall h | 0 <= h < |regs| && h != k :: regs[h] != regs[k]
    {
    }

    lemma SlotAt(i: nat)
      requires Tables() && i < |st.slots|
      ensures i < |inflight| && inflight[i].Value() == st.slots[i] && forall x | 0 <= x < |inflight| && x != i :: inflight[x] != inflight[i]
    {
    }

    /** Only one register and one message have changed. */
    twostate lemma Touched(at: (nat, nat))
      requires old(Tables()) && regs == old(regs) && at.0 < |regs| && at.1 < |inflight|
      requires forall h | 0 <= h < |regs| && h != at.0 :: regs[h].Value() == old(regs[h].Value())
      requires forall x | 0 <= x < |inflight| && x != at.1 :: inflight[x].Value() == old(inflight[x].Value())
      requires st.regs == old(st.regs)[at.0 := regs[at.0].Value()] && st.slots == old(st.slots)[at.1 := inflight[at.1].Value()]
      ensures Tables()
    {
    }

    twostate lemma OneReg(k: RegRef)
      requires old(Tables()) && regs == old(regs) && k < |regs| && st.slots == old(st.slots)
      requires forall h | 0 <= h < |regs| && h != k :: regs[h].Value() == old(regs[h].Value())
      requires forall x | 0 <= x < |inflight| :: inflight[x].Value() == old(inflight[x].Value())
      requires st.regs == old(st.regs)[k := regs[k].Value()]
      ensures Tables()
    {
    }

    twostate lemma OneSlot(i: nat)
      requires old(Tables()) && regs == old(regs) && i < |inflight| && st.regs == old(st.regs)
      requires forall h | 0 <= h < |regs| :: regs[h].Value() == old(regs[h].Value())
      requires forall x | 0 <= x < |inflight| && x != i :: inflight[x].Value() == old(inflight[x].Value())
      requires st.slots == old(st.slots)[i := inflight[i].Value()]
      ensures Tables()
    {
    }

    // DevReg::queue
    method Queue(k: RegRef, write: bool, action: Option<Action>) returns (threw: bool)
      requires Valid() && k < |regs|
      modifies this`send, this`st, regs[k]
      ensures Valid() && st == EngineState.Queue(old(st), k, write, action).s
      ensures threw == EngineState.Queue(old(st), k, write, action).Threw?
    {
      hide Tables, WF, Reg.Valid, Msg.Valid, Merged, Started;
      assert |regs| == |st.regs| by { TableSizes(); }
      RegValid(st, k);
      RegAt(k);
      var r := regs[k];
      st := EngineState.Queue(st, k, write, action).s;
      if !r.InProgress() {
        if if write then !r.info.writable else !r.info.readable {
          return true;
        }
        send := send + [k];
        r.Start(write, action);
      } else {
        r.Merge(write, action);
      }
      OneReg(k);
      return false;
    }

    /* ---- handle_send ---- */

    /** The body of the first pass: one word of the front register goes into address slot j. */
    method LoadWord(i: nat, j: nat)
      requires Valid() && Inv(st) && CanLoad(st, i, j) && send != []
      modifies this`send, this`st, regs, inflight[i]
      ensures FrontHasWord(old(st)) && st == EngineState.LoadWord(old(st), i, j) && Valid() && Inv(st)
    {
      hide Tables, WF, RegsOk, SendOk, WordsOk, Unique, Covered, EngineState.LoadWord, Loaded, Inv, Reg.Valid, Msg.Valid;
      FrontReady(st);
      LoadInv(st, i, j);
      LoadWordShape(st, i, j);
      var k := send[0];
      RegAt(k);
      SlotAt(i);
      var r, msg := regs[k], inflight[i];
      st := EngineState.LoadWord(st, i, j);
      assert r.InProgress();
      assert r.nextSend < |r.memTx|;
      var addr, val := r.NextWord();
      msg.Load(j, k, addr, val);
      Touched((k, i));
      if r.nextSend >= |r.memTx| {
        send := send[1..];
      }
    }

    /** The inner loop of the first pass. */
    method LoadSlot(i: nat)
      requires Valid() && Inv(st) && i < |inflight| && i < |st.slots| && st.slots[i].state != Sent
      modifies this`send, this`st, regs, inflight[i]
      ensures Valid() && Inv(st) && |st.slots| == |old(st).slots| && st == EngineState.LoadSlot(old(st), i, 0)
    {
      hide Tables, Inv, Reg.Valid, Msg.Valid, EngineState.LoadSlot, EngineState.LoadWord, SlotLoop;
      ghost var goal := EngineState.LoadSlot(st, i, 0);
      SlotStart(st, i);
      var j := 0;
      while j < NREG && send != []
        invariant Valid() && j <= NREG && SlotLoop(st, i, j, goal)
      {
        SlotStep(st, i, j, goal);
        SlotAt(i);
        if inflight[i].reg[j].None? {
          LoadWord(i, j);
        }
        j := j + 1;
      }
      SlotEnd(st, i, j, goal);
    }

    /** The first pass of handle_send. */
    method LoadPass()
      requires Valid() && Inv(st)
      modifies this`send, this`st, regs, inflight
      ensures Valid() && Inv(st) && |st.slots| == |old(st).slots| && st == EngineState.LoadPass(old(st), 0)
    {
      hide Tables, Inv, WF, Reg.Valid, Msg.Valid, EngineState.LoadPass, EngineState.LoadSlot, MarkReady, PassLoop;
      TableSizes();
      ghost var goal := EngineState.LoadPass(st, 0);
      PassStart(st);
      var i := 0;
      while i < |inflight| && send != []
        invariant Valid() && i <= |inflight| && |inflight| == |st.slots| == |goal.slots| && PassLoop(st, i, goal)
      {
        PassStep(st, i, goal);
        SlotAt(i);
        if inflight[i].state != Sent {
          LoadSlot(i);
          Mark(i);
        }
        i := i + 1;
      }
      PassEnd(st, i, goal);
    }

    method Mark(i: nat)
      requires Valid() && Inv(st) && i < |inflight| && i < |st.slots| && st.slots[i].state != Sent
      modifies this`st, inflight[i]
      ensures Valid() && Inv(st) && st == MarkReady(old(st), i) && |st.slots| == |old(st).slots|
    {
      hide Tables, Inv, Reg.Valid;
      SlotAt(i);
      SlotValid(st, i);
      MarkInv(st, i);
      st := MarkReady(st, i);
      if inflight[i].reg[0].Some? {
        inflight[i].state := Ready;
        OneSlot(i);
      }
    }

    /** Builds the datagram of message i: it takes the next sequence number. */
    method Frame(i: nat, ghost due: int)
      requires Valid() && i < |inflight| && i < |st.slots| && st.slots[i].state == Ready
      modifies this`sendSeq, this`st, inflight[i]
      ensures Valid() && st == Attempt(old(st), i, Ready, old(st).slots[i].due) && |st.slots| == |old(st).slots|
    {
      hide Tables, Reg.Valid, Msg.Valid;
      SlotAt(i);
      SlotValid(st, i);
      WordWraps(st.sendSeq);
      inflight[i].Frame(i, sendSeq, st.sendSeq);
      sendSeq := (sendSeq + 1) % WORD_LIMIT;
      st := Attempt(st, i, Ready, st.slots[i].due);
      OneSlot(i);
    }

    method MarkSent(i: nat, due: int)
      requires Valid() && i < |inflight| && i < |st.slots| && st.slots[i].state == Ready
      modifies this`st, inflight[i]
      ensures Valid() && st == old(st).(slots := old(st).slots[i := old(st).slots[i].(state := Sent, due := due)])
    {
      hide Tables, Reg.Valid;
      SlotAt(i);
      assert st.slots[i].Valid(|st.regs|);
      st := SetSlot(st, i, st.slots[i].(state := Sent, due := due));
      inflight[i].due := due;
      inflight[i].state := Sent;
      OneSlot(i);
    }

    method Blocked()
      requires Valid()
      modifies this`wantToSend, this`st
      ensures Valid() && st == old(st).(wantToSend := true)
    {
      hide Reg.Valid, Msg.Valid;
      wantToSend := true;
      st := st.(wantToSend := true);
    }

    /** One message of the second pass: what sendto() does with it decides how to go on. */
    method TrySend(i: nat, oc: Outcome, due: int) returns (goOn: bool, sent: seq<seq<Word>>)
      requires Valid() && i < |inflight| && i < |st.slots| && st.slots[i].state == Ready
      modifies this`sendSeq, this`wantToSend, this`st, inflight[i]
      ensures Valid() && |st.slots| == |old(st).slots| && goOn == (oc == Delivered || oc == Unreachable)
      ensures match oc
        case WouldBlock => st == Attempt(old(st), i, Ready, old(st).slots[i].due).(wantToSend := true) && sent == []
        case SocketFailure => st == Attempt(old(st), i, Ready, old(st).slots[i].due) && sent == []
        case Unreachable => st == Attempt(old(st), i, Sent, due) && sent == []
        case Delivered => st == Attempt(old(st), i, Sent, due) && sent == [st.slots[i].buf]
    {
      hide Tables, Fields, WF, Attempt;
      ghost var s0 := st;
      Frame(i, due);
      AttemptTwice(s0, i, due);
      SlotAt(i);
      goOn, sent := false, [];
      match oc {
        case WouldBlock =>
          Blocked();
        case SocketFailure =>
        case Unreachable =>
          MarkSent(i, due);
          goOn := true;
        case Delivered =>
          sent := [inflight[i].buf];
          MarkSent(i, due);
          goOn := true;
      }
    }

    /** The second pass of handle_send; oc[i] is what sendto() does with message i. */
    method SendPass(oc: seq<Outcome>, due: int) returns (threw: bool, out: seq<seq<Word>>)
      requires Valid() && |st.slots| == |oc|
      modifies this`sendSeq, this`wantToSend, this`st, inflight
      ensures Valid() && st == EngineState.SendPass(old(st), 0, oc, due).res.s && |st.slots| == |old(st).slots|
      ensures threw == EngineState.SendPass(old(st), 0, oc, due).res.Threw? && out == Datagrams(EngineState.SendPass(old(st), 0, oc, due).out)
    {
      hide Tables, Fields, WF, Attempt, EngineState.SendPass;
      TableSizes();
      ghost var all := EngineState.SendPass(st, 0, oc, due);
      var i := 0;
      threw, out := false, [];
      while i < |inflight|
        invariant !threw && Valid() && |st.slots| == |oc| == |inflight| && i <= |inflight|
        invariant all.res == EngineState.SendPass(st, i, oc, due).res
        invariant Datagrams(all.out) == out + Datagrams(EngineState.SendPass(st, i, oc, due).out)
      {
        SlotAt(i);
        SendStep(st, i, oc, due);
        if inflight[i].state == Ready {
          var goOn, sent := TrySend(i, oc[i], due);
          out := out + sent;
          if !goOn {
            return oc[i] == SocketFailure, out;
          }
        }
        i := i + 1;
      }
      SendStep(st, i, oc, due);
    }

    // Device::handle_send
    method HandleSend(oc: seq<Outcome>, due: int) returns (threw: bool, out: seq<seq<Word>>)
      requires Valid() && Inv(st) && |st.slots| == |oc|
      modifies this`send, this`sendSeq, this`wantToSend, this`st, regs, inflight
      ensures Valid() && Inv(st) && |st.slots| == |oc|
      ensures var o := EngineState.HandleSend(old(st), oc, due);
        st == o.res.s && threw == o.res.Threw? && out == Datagrams(o.out)
    {
      hide Inv, WF, Tables;
      HandleSendInv(st, oc, due);
      LoadPass();
      threw, out := SendPass(oc, due);
    }

    /* ---- do_timeout, handle_timeout ---- */

    method RequestReset()
      requires Valid()
      modifies this`resetReq, this`st
      ensures Valid() && st == old(st).(resetReq := true)
    {
      hide Reg.Valid, Msg.Valid;
      resetReq := true;
      st := st.(resetReq := true);
    }

    method Clear(i: nat)
      requires Valid() && i < |inflight| && i < |st.slots|
      modifies this`st, inflight[i]
      ensures Valid() && st == ClearSlot(old(st), i)
    {
      hide Tables, Reg.Valid, Msg.Valid;
      SlotAt(i);
      st := ClearSlot(st, i);
      inflight[i].Clear();
      OneSlot(i);
    }

    method ForgetSlot(m: nat)
      requires Valid() && m < |inflight| && m < |st.slots|
      modifies this`st, inflight[m]
      ensures Valid() && st == old(st).(slots := old(st).slots[m := old(st).slots[m].(reg := NoRegs())])
    {
      hide Tables, Reg.Valid;
      SlotAt(m);
      SlotValid(st, m);
      st := SetSlot(st, m, st.slots[m].(reg := NoRegs()));
      inflight[m].Forget();
      OneSlot(m);
    }

    /** No message refers to any register any more. */
    method OrphanAll()
      requires Valid()
      modifies this`st, inflight
      ensures Valid() && st == Orphan(old(st))
    {
      hide Tables, WF;
      TableSizes();
      var m := 0;
      while m < |inflight|
        invariant 0 <= m <= |inflight| == |st.slots| == |old(st).slots| && Valid() && st == old(st).(slots := st.slots)
        invariant forall x | 0 <= x < m :: st.slots[x] == old(st).slots[x].(reg := NoRegs())
        invariant forall x | m <= x < |inflight| :: st.slots[x] == old(st).slots[x]
      {
        ForgetSlot(m);
        m := m + 1;
      }
      assert st.slots == Orphan(old(st)).slots;
    }

    method Unqueue(k: RegRef)
      requires Valid() && k < |st.regs| && ((send != [] && send[0] == k) || st.regs[k].nextSend >= st.regs[k].info.size)
      modifies this`send, this`st
      ensures Valid() && st == Unqueued(old(st), k)
    {
      hide WF;
      RegValid(st, k);
      RegAt(k);
      st := Unqueued(st, k);
      if send != [] && send[0] == k {
        send := send[1..];
      } else {
        assert regs[k].nextSend >= |regs[k].memTx| by { assert regs[k].Value().Valid(); }
      }
    }

    /** do_timeout gives up one register. */
    method Cancel(k: RegRef)
      requires Valid() && k < |st.regs| && st.regs[k].InProgress()
      requires (send != [] && send[0] == k) || st.regs[k].nextSend >= st.regs[k].info.size
      modifies this`send, this`records, this`st, regs, inflight
      ensures Valid() && st == EngineState.Cancel(old(st), k)
    {
      hide Tables, WF, EngineState.Cancel, Orphan, Unqueued, Waiting;
      CancelShape(st, k);
      ghost var s1 := EngineState.Cancel(st, k);
      OrphanAll();
      Unqueue(k);
      RegAt(k);
      label L:
      st := s1;
      var done := regs[k].Cancel();
      records := records + done;
      OneReg@L(k);
    }

    // Device::do_timeout
    method DoTimeout(i: nat)
      requires Valid() && InvOrLost(st) && i < |inflight| && i < |st.slots|
      modifies this`resetReq, this`send, this`records, this`st, regs, inflight
      ensures Valid() && InvOrLost(st) && st == EngineState.DoTimeout(old(st), i)
    {
      hide Tables, WF, Inv, EngineState.Cancel, Lost;
      TimeoutStep(st, i);
      TimeoutStart(st, i);
      SlotValid(st, i);
      RequestReset();
      ghost var s1 := st;
      ghost var x := FirstUsed(st.slots[i].reg, 0);
      ghost var s2 := if x < NREG then EngineState.Cancel(s1, s1.slots[i].reg[x].value) else s1;
      var j := 0;
      while j < NREG
        invariant 0 <= j <= NREG && Valid() && |st.slots| == |s1.slots| && |st.slots[i].reg| == NREG
        invariant if j <= x then st == s1 else st == s2 && st.slots[i].reg == NoRegs()
      {
        SlotAt(i);
        if inflight[i].reg[j].Some? {
          Cancel(inflight[i].reg[j].value);
        }
        j := j + 1;
      }
      Clear(i);
    }

    // Device::handle_timeout
    method HandleTimeout(now: int)
      requires Valid() && InvOrLost(st)
      modifies this`resetReq, this`send, this`records, this`st, regs, inflight
      ensures Valid() && InvOrLost(st) && |st.slots| == |old(st).slots| && st == EngineState.HandleTimeout(old(st), 0, now)
    {
      hide Tables, Inv, Lost, EngineState.DoTimeout, Reg.Valid, Msg.Valid;
      TableSizes();
      var i := 0;
      while i < |inflight|
        invariant Valid() && InvOrLost(st) && |st.slots| == |inflight| && i <= |inflight|
        invariant EngineState.HandleTimeout(st, i, now) == EngineState.HandleTimeout(old(st), 0, now)
      {
        SlotAt(i);
        if inflight[i].state == Sent && inflight[i].due <= now {
          DoTimeout(i);
        }
        i := i + 1;
      }
    }

    /* ---- handle_process ---- */

    /** The register has all its words: it goes idle and hands over its actions. */
    method Finish(k: RegRef)
      requires Valid() && k < |regs|
      modifies this`records, this`st, regs[k]
      ensures Valid() && st == EngineState.Finish(old(st), k) && regs[k].Value() == st.regs[k]
    {
      hide Tables, Reg.Valid, Msg.Valid, WF;
      TableSizes();
      RegAt(k);
      FinishedReg(st, k);
      st := EngineState.Finish(st, k);
      regs[k].state := InSync;
      var done := regs[k].Process(false);
      records := records + done;
      OneReg(k);
    }

    /** What waited for a second operation now waits for the one about to start. */
    method Requeue(k: RegRef, write: bool) returns (threw: bool)
      requires Valid() && k < |regs|
      modifies this`send, this`st, regs[k]
      ensures var r := old(st).regs[k];
        var o := EngineState.Queue(SetReg(old(st), k, Waiters(r, write)), k, write, None);
        Valid() && st == o.s && threw == o.Threw?
    {
      hide Tables, Msg.Valid, EngineState.Queue, Reg.Valid;
      TableSizes();
      RegAt(k);
      RegValid(st, k);
      st := SetReg(st, k, Waiters(st.regs[k], write));
      regs[k].Promote(write);
      OneReg(k);
      threw := Queue(k, write, None);
    }

    method Complete(k: RegRef) returns (threw: bool)
      requires Valid() && k < |regs|
      modifies this`send, this`records, this`st, regs[k]
      ensures var o := EngineState.Complete(old(st), k); Valid() && st == o.s && threw == o.Threw?
    {
      hide Tables, WF, Reg.Valid, Msg.Valid, EngineState.Queue, EngineState.Finish;
      threw := false;
      Finish(k);
      if regs[k].writeQueued {
        threw := Requeue(k, true);
      } else if regs[k].readQueued {
        threw := Requeue(k, false);
      }
    }

    /** Stores the answer for one word. */
    method Accept(k: RegRef, offset: nat, read: bool, data: Word) returns (threw: bool)
      requires Valid() && k < |regs| && k < |st.regs| && offset < st.regs[k].info.size
      requires RegOk(st.regs[k]) && Outstanding(st.regs[k], offset)
      modifies this`send, this`records, this`st, regs[k]
      ensures var o := EngineState.Accept(old(st), k, offset, read, data); Valid() && st == o.s && threw == o.Threw?
    {
      hide Tables, WF, Msg.Valid, EngineState.Complete, RegOk, Reg.Valid;
      threw := false;
      RegAt(k);
      RegValid(st, k);
      FilledOk(st.regs[k], offset, read, data);
      var r := regs[k];
      st := SetReg(st, k, Filled(st.regs[k], offset, read, data));
      r.Fill(offset, read, data);
      OneReg(k);
      if r.nremaining == 0 {
        assert forall o | 0 <= o < |r.received| :: r.received[o] by { MissingNone(r.received); }
        threw := Complete(k);
      }
    }

    /** The body of the loop of handle_process: address slot j of the reply w to message off. */
    method ProcessWord(off: nat, j: nat, w: seq<Word>) returns (threw: bool)
      requires Valid() && InvOrLost(st) && off < |inflight| && off < |st.slots| && j < NREG && BeingProcessed(st.slots[off])
      modifies this`resetReq, this`send, this`records, this`st, regs, inflight
      ensures var o := EngineState.ProcessWord(old(st), off, j, w); Valid() && st == o.s && threw == o.Threw? && (o.Go? ==> InvOrLost(st))
    {
      hide Tables, WF, Inv, Lost, EngineState.Accept, EngineState.DoTimeout, Reg.Valid, Msg.Valid;
      threw := false;
      WordStart(st, off, j, w);
      SlotAt(off);
      var msg := inflight[off];
      if msg.reg[j].None? {
        return;
      }
      var k := msg.reg[j].value;
      RegAt(k);
      var reg := regs[k];
      if !reg.InProgress() {
        return;
      }
      if 2 * j + 3 >= |w| {
        DoTimeout(off);
      } else if Masked(w[2 * j + 2]) != msg.buf[2 * j + 2] {
        DoTimeout(off);
      } else {
        var cmd, data := w[2 * j + 2], w[2 * j + 3];
        var offset := cmd % ADDR_LIMIT - reg.info.base;
        // mem_rx.at(offset) and received.at(offset)
        assert 0 <= offset < |reg.memRx| && offset < |reg.received|;
        DropLast(st, off, j, cmd, data);
        threw := Accept(k, offset, IsRead(cmd), data);
        if !threw {
          Answered(off, j);
        }
      }
    }

    method Answered(i: nat, j: nat)
      requires Valid() && i < |inflight| && i < |st.slots| && j < NREG && st.slots[i].state == Sent
      modifies this`st, inflight[i]
      ensures Valid() && st == ClearWord(old(st), i, j)
    {
      hide Tables, Reg.Valid;
      SlotAt(i);
      SlotValid(st, i);
      st := ClearWord(st, i, j);
      inflight[i].reg := inflight[i].reg[j := None];
      OneSlot(i);
    }

    // Device::handle_process
    method HandleProcess(w: seq<Word>) returns (threw: bool)
      requires Valid() && InvOrLost(st)
      modifies this`resetReq, this`send, this`records, this`st, regs, inflight
      ensures var o := EngineState.HandleProcess(old(st), w);
        Valid() && st == o.s && threw == o.Threw? && (o.Go? ==> InvOrLost(st))
    {
      hide Tables, WF, Inv, Lost, EngineState.ProcessWord, Reg.Valid, Msg.Valid;
      TableSizes();
      threw := false;
      HandleProcessInv(st, w);
      if |w| < 8 {
        return;
      }
      var off := w[1] / ADDR_LIMIT;
      if w[0] != MAGIC || off >= |inflight| {
        return;
      }
      SlotAt(off);
      if inflight[off].state != Sent || inflight[off].seqno != w[1] {
        return;
      }
      var j := 0;
      while j < NREG
        invariant 0 <= j <= NREG && !threw && Valid() && InvOrLost(st) && |st.slots| == |inflight| && BeingProcessed(st.slots[off])
        invariant EngineState.ProcessWords(st, off, j, w) == EngineState.ProcessWords(old(st), off, 0, w)
      {
        threw := ProcessWord(off, j, w);
        if threw {
          return;
        }
        j := j + 1;
      }
      Clear(off);
    }

    /** The packets one pass of run has received. */
    method ProcessAll(packets: seq<seq<Word>>) returns (threw: bool)
      requires Valid() && InvOrLost(st)
      modifies this`resetReq, this`send, this`records, this`st, regs, inflight
      ensures var o := EngineState.ProcessAll(old(st), packets);
        Valid() && st == o.s && threw == o.Threw? && (o.Go? ==> InvOrLost(st))
    {
      hide Tables, Inv, Lost, EngineState.HandleProcess, Reg.Valid, Msg.Valid;
      threw := false;
      var x := 0;
      while x < |packets|
        invariant 0 <= x <= |packets| && !threw && Valid() && InvOrLost(st)
        invariant EngineState.ProcessAll(st, packets[x..]) == EngineState.ProcessAll(old(st), packets)
      {
        assert packets[x..][0] == packets[x] && packets[x..][1..] == packets[x + 1..];
        threw := HandleProcess(packets[x]);
        if threw {
          return;
        }
        x := x + 1;
      }
    }

    /* ---- reset ---- */

    // Device::reset
    method Reset(error: bool)
      requires Valid()
      modifies this, regs, inflight
      ensures Valid() && st == EngineState.Reset(old(st), error)
      ensures regs <= old(regs)
    {
      hide Tables, Fields, WF;
      AllRegsValid(st);
      Disconnect(error);
      ClearAll();
      ResetRegs();
      Truncate();
      assert st.regs == EngineState.Reset(old(st), error).regs;
    }

    method Disconnect(error: bool)
      requires Valid()
      modifies this`wantToSend, this`resetReq, this`errorReq, this`current, this`send, this`st
      ensures Valid() && st == old(st).(wantToSend := false, resetReq := false, errorReq := false, send := [],
        current := if error then Error else if old(st).peerNamed then Searching else Idle)
    {
      hide Reg.Valid, Msg.Valid;
      wantToSend, resetReq, errorReq := false, false, false;
      if error {
        current := Error;
      } else if !peerNamed {
        current := Idle;
      } else {
        current := Searching;
      }
      send := [];
      st := st.(wantToSend := false, resetReq := false, errorReq := false, send := [], current := current);
    }

    /** Forgets all registers but the bootstrap ones, when no message refers to any. */
    method Truncate()
      requires Valid() && NoWords(st.slots) && st.send == []
      modifies this`regs, this`st
      ensures Valid() && st == old(st).(regs := old(st).regs[..BOOTSTRAP]) && regs <= old(regs)
    {
      hide Reg.Valid;
      regs := regs[..BOOTSTRAP];
      st := st.(regs := st.regs[..BOOTSTRAP]);
    }

    method ClearAll()
      requires Valid()
      modifies this`st, inflight
      ensures Valid() && st == old(st).(slots := AllCleared(old(st).slots))
    {
      hide Tables, WF;
      TableSizes();
      var i := 0;
      while i < |inflight|
        invariant 0 <= i <= |inflight| == |st.slots| == |old(st).slots| && Valid() && st == old(st).(slots := st.slots)
        invariant forall x | 0 <= x < i :: st.slots[x] == Cleared(old(st).slots[x])
        invariant forall x | i <= x < |inflight| :: st.slots[x] == old(st).slots[x]
      {
        Clear(i);
        i := i + 1;
      }
      assert st.slots == AllCleared(old(st).slots);
    }

    /** Zeroes every register and hands over its actions. */
    method ResetRegs()
      requires Valid()
      modifies this`records, this`st, regs
      ensures Valid() && |st.regs| == |old(st).regs|
      ensures st == old(st).(regs := st.regs, records := old(st).records + AllWaiting(old(st).regs))
      ensures forall k | 0 <= k < |st.regs| :: old(st).regs[k].Valid() && st.regs[k] == ResetReg(old(st).regs[k])
    {
      hide Tables, Fields, WF, Reg.Valid, PartReset, ResetReg;
      ghost var was := st;
      TableSizes();
      NoneReset(was);
      var k := 0;
      while k < |regs|
        invariant 0 <= k <= |regs| == |was.regs| && Valid() && PartReset(was, st, k)
      {
        OneMoreReset(was, st, k);
        ResetOne(k);
        k := k + 1;
      }
      AllReset(was, st);
    }

    method ResetOne(k: RegRef)
      requires Valid() && k < |regs| && k < |st.regs| && st.regs[k].Valid()
      modifies this`records, this`st, regs[k]
      ensures Valid() && st == old(st).(regs := old(st).regs[k := ResetReg(old(st).regs[k])], records := old(st).records + Waiting(old(st).regs[k]))
    {
      hide Tables, Reg.Valid, Msg.Valid, Waiting, ResetReg;
      RegAt(k);
      ResetKeeps(st.regs[k]);
      st := SetReg(st, k, ResetReg(st.regs[k])).(records := st.records + Waiting(st.regs[k]));
      var done := regs[k].Reset();
      records := records + done;
      OneReg(k);
    }

    /** The catch block of run. */
    method Catch()
      requires Valid()
      modifies this, regs, inflight
      ensures Valid() && st == Caught(old(st)) && regs <= old(regs)
    {
      hide Reg.Valid, Msg.Valid, EngineState.Reset;
      Reset(false);
      current := Error;
      st := st.(current := Error);
    }

    /* ---- handle_inspect, handle_state ---- */

    method Find(name: string) returns (found: bool)
      requires Valid()
      ensures found == HasName(st.regs, name)
    {
      hide WF, Reg.Valid, Msg.Valid;
      var k := 0;
      while k < |regs|
        invariant 0 <= k <= |regs| && forall h | 0 <= h < k :: st.regs[h].info.name != name
      {
        assert regs[k].Value() == st.regs[k];
        if regs[k].info.name == name {
          return true;
        }
        k := k + 1;
      }
      return false;
    }

    method AddOne(info: Info)
      requires Valid() && ValidInfo(info) && !info.bootstrap
      modifies this`regs, this`st
      ensures Valid() && st == old(st).(regs := old(st).regs + [FreshReg(info)])
      ensures |regs| == |old(regs)| + 1 && regs[..|old(regs)|] == old(regs) && fresh(regs[|old(regs)|])
    {
      hide WF, Reg.Valid, Msg.Valid;
      MoreRegs(st, info);
      var reg := new DevReg(info, |regs|);
      regs := regs + [reg];
      st := st.(regs := st.regs + [FreshReg(info)]);
    }

    /** Adds the registers of the map; a name already taken is left alone. */
    method AddAll(infos: seq<Info>)
      requires Valid() && ValidMap(Registers(infos))
      modifies this`regs, this`st
      ensures Valid() && st == old(st).(regs := AddRegs(old(st).regs, infos))
      ensures old(regs) <= regs && forall k | |old(regs)| <= k < |regs| :: fresh(regs[k])
    {
      hide Tables, Fields, WF, HasName, AddRegs, ValidMap, FreshReg;
      var x := 0;
      while x < |infos|
        invariant 0 <= x <= |infos| && Valid() && st == old(st).(regs := st.regs)
        invariant ValidMap(Registers(infos[x..])) && AddRegs(st.regs, infos[x..]) == AddRegs(old(st).regs, infos)
        invariant old(regs) <= regs && forall k | |old(regs)| <= k < |regs| :: fresh(regs[k])
      {
        AddStep(st.regs, infos, x);
        var found := Find(infos[x].name);
        if !found {
          AddOne(infos[x]);
        }
        x := x + 1;
      }
      AddNone(st.regs, infos[x..]);
    }

    method Enter(c: Conn)
      requires Valid()
      modifies this`current, this`st
      ensures Valid() && st == old(st).(current := c)
    {
      hide Reg.Valid, Msg.Valid;
      current := c;
      st := st.(current := c);
    }

    // Device::handle_state
    method HandleState(rom: RomMap) returns (threw: bool, connecting: bool)
      requires Valid() && ValidMap(rom)
      modifies this, regs, inflight
      ensures var o := EngineState.HandleState(old(st), rom);
        Valid() && st == o.res.s && threw == o.res.Threw? && connecting == o.connecting
      ensures forall k | 0 <= k < |regs| :: regs[k] in old(regs) || fresh(regs[k])
    {
      hide Tables, WF, Reg.Valid, Msg.Valid, EngineState.Queue, EngineState.Reset, AddRegs;
      TableSizes();
      BootstrapRegs(st);
      threw, connecting := false, false;
      if resetReq || errorReq {
        Reset(errorReq);
        return;
      }
      match current {
        case Error =>
        case Idle =>
          if peerNamed {
            Enter(Searching);
          }
        case Searching =>
          RegAt(REG_ID);
          if regs[REG_ID].state == InSync {
            threw := Queue(REG_ROM2, false, None);
            if threw {
              return;
            }
            TableSizes();
            threw := Queue(REG_ROM16, false, None);
            if threw {
              return;
            }
            Enter(Inspecting);
          } else if !regs[REG_ID].InProgress() {
            threw := Queue(REG_ID, false, None);
          }
        case Inspecting =>
          RegAt(REG_ROM2);
          RegAt(REG_ROM16);
          if regs[REG_ROM2].state == InSync && regs[REG_ROM16].state == InSync {
            if rom.NoJson? {
              threw := true;
              return;
            }
            AddAll(rom.infos);
            connecting := true;
          }
        case Running =>
      }
    }

    /* ---- run ---- */

    method TakeRecords() returns (done: seq<Action>)
      requires Valid()
      modifies this`records, this`st
      ensures Valid() && st == old(st).(records := []) && done == old(st).records
    {
      hide Reg.Valid, Msg.Valid;
      done := records;
      records := [];
      st := st.(records := []);
    }

    /** The top of the loop: send, then take the actions to complete. */
    method LoopTop(top: Top) returns (completed: seq<Action>, out: seq<seq<Word>>)
      requires Valid() && Inv(st) && |top.oc| == |st.slots|
      modifies this, regs, inflight
      ensures var o := Worker.LoopTop(old(st), top);
        Valid() && st == o.s && completed == o.completed && out == Datagrams(o.out)
    {
      hide Tables, WF, Inv, EngineState.HandleSend, EngineState.Reset, Caught;
      out := [];
      if current != Error && current != Idle {
        var threw;
        threw, out := HandleSend(top.oc, top.due);
        if threw {
          Catch();
        }
      }
      completed := TakeRecords();
    }

    /** One pass of run, from the return of poll() to the next release of the lock. */
    method Pass(packets: seq<seq<Word>>, now: int, rom: RomMap, top: Top)
        returns (connecting: bool, completed: seq<Action>, out: seq<seq<Word>>)
      requires Valid() && Inv(st) && ValidMap(rom) && |top.oc| == |st.slots|
      modifies this, regs, inflight
      ensures Valid() && Inv(st)
      ensures var y := Next(Sys(old(st), Polling, [], [], []), Received(packets, now, rom, top));
        st == y.s && connecting == y.phase.Connecting? && completed == y.completed && out == Datagrams(y.out)
    {
      hide Tables, Fields, WF, Inv, Lost, EngineState.ProcessAll, EngineState.HandleTimeout, EngineState.HandleState, Worker.LoopTop, Caught;
      PassInv(st, packets, now, rom, top);
      ReceiveFrame(st, packets, now, rom);
      CaughtFrame(Receive(st, packets, now, rom).res.s);
      connecting, completed, out := false, [], [];
      var threw := ProcessAll(packets);
      if !threw {
        HandleTimeout(now);
        threw, connecting := HandleState(rom);
      }
      label B:
      assert forall k | 0 <= k < |regs| :: regs[k] in old(regs) || fresh(regs[k]);
      if threw {
        Catch();
        connecting := false;
        assert forall k | 0 <= k < |regs| :: regs[k] == old@B(regs)[k] && regs[k] in old@B(regs);
      }
      NothingBefore([], []);
      if !connecting {
        ghost var t := Worker.LoopTop(st, top);
        NothingBefore(t.out, t.completed);
        completed, out := LoopTop(top);
      }
    }

    /** handle_inspect's callbacks have returned, or thrown. */
    method Connected(ok: bool, top: Top) returns (completed: seq<Action>, out: seq<seq<Word>>)
      requires Valid() && Inv(st) && |top.oc| == |st.slots|
      modifies this, regs, inflight
      ensures Valid() && Inv(st)
      ensures var y := Next(Sys(old(st), Connecting, [], [], []), Worker.Connected(ok, top));
        st == y.s && completed == y.completed && out == Datagrams(y.out)
    {
      hide Tables, Fields, WF, Inv, Worker.LoopTop, Caught;
      ConnectedInv(st, ok, top);
      CaughtFrame(st);
      if ok {
        Enter(Running);
      } else {
        Catch();
      }
      ghost var t := Worker.LoopTop(st, top);
      NothingBefore(t.out, t.completed);
      completed, out := LoopTop(top);
    }

    /* ---- records ---- */

    /** A record changes the contents to send. */
    method Store(k: RegRef, tx: seq<Word>)
      requires Valid() && k < |regs| && k < |st.regs| && |tx| == st.regs[k].info.size
      modifies this`st, regs[k]
      ensures Valid() && st == SetReg(old(st), k, old(st).regs[k].(memTx := tx))
    {
      hide Tables, Msg.Valid;
      RegAt(k);
      RegValid(st, k);
      st := SetReg(st, k, st.regs[k].(memTx := tx));
      regs[k].memTx := tx;
      OneReg(k);
    }

    // read_sync: one registration with every queued register
    method Sync(action: Action) returns (n: nat)
      requires Valid()
      modifies this`st, regs
      ensures Valid() && st == (if Active(old(st)) then SyncOn(old(st), 0, action) else old(st))
      ensures n == if Active(old(st)) then |old(st).send| else 0
    {
      hide Tables, WF, Reg.Valid, Msg.Valid;
      n := 0;
      if current != Inspecting && current != Running {
        return;
      }
      while n < |send|
        invariant n <= |send| == |old(st).send| && Valid() && SyncOn(st, n, action) == SyncOn(old(st), 0, action)
      {
        TableSizes();
        SendInRange(st, n);
        Wait(send[n], action);
        n := n + 1;
      }
    }

    method Wait(k: RegRef, action: Action)
      requires Valid() && k < |regs| && k < |st.regs|
      modifies this`st, regs[k]
      ensures Valid() && st == SetReg(old(st), k, old(st).regs[k].(recInprog := old(st).regs[k].recInprog + [action]))
    {
      hide Tables, Msg.Valid;
      RegAt(k);
      RegValid(st, k);
      st := SetReg(st, k, st.regs[k].(recInprog := st.regs[k].recInprog + [action]));
      regs[k].recInprog := regs[k].recInprog + [action];
      OneReg(k);
    }

    /** The address record: takes effect with the reset it asks for. */
    method SetAddress(named: bool)
      requires Valid()
      modifies this`resetReq, this`peerNamed, this`st
      ensures Valid() && st == old(st).(resetReq := true, peerNamed := named)
    {
      hide Reg.Valid, Msg.Valid;
      resetReq, peerNamed := true, named;
      st := st.(resetReq := true, peerNamed := named);
    }

    method ForceError()
      requires Valid()
      modifies this`errorReq, this`st
      ensures Valid() && st == old(st).(errorReq := true)
    {
      hide Reg.Valid, Msg.Valid;
      errorReq := true;
      st := st.(errorReq := true);
    }
  }
}
