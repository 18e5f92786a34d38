/** Sequence numbers over whole runs: which late replies can be taken for another message's. */
module Stale {
  import opened EngineState
  import opened Partition
  import opened Worker
  import opened Safety
  import opened EndToEnd

  /** A message in flight carries its attempt; whatever was sent carries its own, not a later one
      than the message that is in its slot now. */
  ghost predicate SeqOk(s: St, out: seq<Tx>) {
    && (forall i | 0 <= i < |s.slots| :: MsgId(s.slots[i], i, s.sendSeq))
    && (forall x | 0 <= x < |out| :: ReplyId(out[x], s.slots, s.sendSeq))
  }

  /** What is in flight afterwards was in flight before, unchanged. */
  ghost predicate Quieter(a: seq<Msg>, b: seq<Msg>) {
    |b| == |a| && forall i | 0 <= i < |b| && b[i].state == Sent ::
      a[i].state == Sent && b[i].seqno == a[i].seqno && b[i].attempt == a[i].attempt && b[i].buf == a[i].buf && b[i].due == a[i].due
  }

  lemma QuieterTwice(a: seq<Msg>, b: seq<Msg>, c: seq<Msg>)
    requires Quieter(a, b) && Quieter(b, c)
    ensures Quieter(a, c)
  {
  }

  lemma SeqQuieter(s: St, s': St, out: seq<Tx>)
    requires SeqOk(s, out) && Quieter(s.slots, s'.slots) && s'.sendSeq >= s.sendSeq
    ensures SeqOk(s', out)
  {
    forall x | 0 <= x < |out| ensures ReplyId(out[x], s'.slots, s'.sendSeq) {
      assert ReplyId(out[x], s.slots, s.sendSeq);
    }
    forall i | 0 <= i < |s'.slots| ensures MsgId(s'.slots[i], i, s'.sendSeq) {
      assert MsgId(s.slots[i], i, s.sendSeq);
    }
  }

  /* ---- packets, deadlines, states ---- */

  lemma TimeoutQuieter(s: St, i: nat)
    requires WF(s) && i < |s.slots|
    ensures Quieter(s.slots, DoTimeout(s, i).slots)
  {
    hide Cancel, Reg.Valid;
  }

  lemma WordQuieter(s: St, i: nat, j: nat, w: seq<Word>)
    requires WF(s) && i < |s.slots| && j < NREG && BeingProcessed(s.slots[i])
    ensures Quieter(s.slots, ProcessWord(s, i, j, w).s.slots)
  {
    hide Accept, DoTimeout, Reg.Valid, Masked;
    TimeoutQuieter(s, i);
  }

  lemma {:induction false} WordsQuieter(s: St, i: nat, j: nat, w: seq<Word>)
    requires WF(s) && i < |s.slots| && j <= NREG && BeingProcessed(s.slots[i])
    ensures Quieter(s.slots, ProcessWords(s, i, j, w).s.slots)
    decreases NREG - j
  {
    hide ProcessWord, Quieter, Reg.Valid, Msg.Valid;
    if j == NREG {
      QuieterSame(s.slots);
    } else {
      var o := ProcessWord(s, i, j, w);
      WordQuieter(s, i, j, w);
      if o.Go? {
        WordsQuieter(o.s, i, j + 1, w);
        QuieterTwice(s.slots, o.s.slots, ProcessWords(o.s, i, j + 1, w).s.slots);
      }
    }
  }

  lemma QuieterSame(a: seq<Msg>)
    ensures Quieter(a, a)
  {
  }

  lemma PacketQuieter(s: St, w: seq<Word>)
    requires WF(s)
    ensures Quieter(s.slots, HandleProcess(s, w).s.slots)
  {
    hide ProcessWords, Reg.Valid, Msg.Valid;
    if |w| >= 8 && Matches(s, w, w[1] / ADDR_LIMIT) {
      WordsQuieter(s, w[1] / ADDR_LIMIT, 0, w);
    }
  }

  lemma {:induction false} PacketsQuieter(s: St, packets: seq<seq<Word>>)
    requires WF(s)
    ensures Quieter(s.slots, ProcessAll(s, packets).s.slots)
    decreases |packets|
  {
    hide HandleProcess, Quieter, Reg.Valid, Msg.Valid;
    if packets == [] {
      QuieterSame(s.slots);
    } else {
      var o := HandleProcess(s, packets[0]);
      PacketQuieter(s, packets[0]);
      if o.Go? {
        PacketsQuieter(o.s, packets[1..]);
        QuieterTwice(s.slots, o.s.slots, ProcessAll(o.s, packets[1..]).s.slots);
      }
    }
  }

  lemma {:induction false} ClockQuieter(s: St, i: nat, now: int)
    requires WF(s) && i <= |s.slots|
    ensures Quieter(s.slots, HandleTimeout(s, i, now).slots)
    decreases |s.slots| - i
  {
    hide DoTimeout, Quieter, Reg.Valid, Msg.Valid;
    if i == |s.slots| {
      QuieterSame(s.slots);
    } else if s.slots[i].state == Sent && s.slots[i].due <= now {
      TimeoutQuieter(s, i);
      ClockQuieter(DoTimeout(s, i), i + 1, now);
      QuieterTwice(s.slots, DoTimeout(s, i).slots, HandleTimeout(DoTimeout(s, i), i + 1, now).slots);
    } else {
      ClockQuieter(s, i + 1, now);
    }
  }

  lemma StateQuieter(s: St, rom: RomMap)
    requires WF(s) && ValidMap(rom)
    ensures Quieter(s.slots, HandleState(s, rom).res.s.slots) && HandleState(s, rom).res.s.sendSeq >= s.sendSeq
  {
    hide Queue, AddRegs, Reg.Valid, Msg.Valid;
  }

  lemma ReceiveQuieter(s: St, packets: seq<seq<Word>>, now: int, rom: RomMap)
    requires WF(s) && ValidMap(rom)
    ensures var o := Receive(s, packets, now, rom); Quieter(s.slots, o.res.s.slots) && o.res.s.sendSeq >= s.sendSeq
  {
    hide ProcessAll, HandleTimeout, HandleState, Quieter, Reg.Valid, Msg.Valid;
    PacketsQuieter(s, packets);
    var p := ProcessAll(s, packets);
    if p.Go? {
      var t := HandleTimeout(p.s, 0, now);
      ClockQuieter(p.s, 0, now);
      StateQuieter(t, rom);
      QuieterTwice(s.slots, p.s.slots, t.slots);
      QuieterTwice(s.slots, t.slots, HandleState(t, rom).res.s.slots);
    }
  }

  lemma CaughtQuieter(s: St)
    requires WF(s)
    ensures Quieter(s.slots, Caught(s).slots) && Caught(s).sendSeq == s.sendSeq
  {
  }

  /* ---- sending ---- */

  lemma {:induction false} LoadQuieter(s: St, i: nat)
    requires WF(s) && i <= |s.slots|
    ensures Quieter(s.slots, LoadPass(s, i).slots)
    decreases |s.slots| - i
  {
    hide LoadSlot, Reg.Valid, Msg.Valid;
    if i == |s.slots| || !FrontHasWord(s) {
    } else if s.slots[i].state == Sent {
      LoadQuieter(s, i + 1);
    } else {
      var s1 := MarkReady(LoadSlot(s, i, 0), i);
      LoadQuieter(s1, i + 1);
      assert Quieter(s.slots, s1.slots);
      QuieterTwice(s.slots, s1.slots, LoadPass(s1, i + 1).slots);
    }
  }

  /** One attempt; what it sends carries the attempt's own number. */
  lemma AttemptSeq(s: St, out: seq<Tx>, i: nat, st: MsgState, due: int)
    requires WF(s) && SeqOk(s, out) && i < |s.slots| && s.slots[i].state == Ready && st != Free
    ensures var s' := Attempt(s, i, st, due);
      SeqOk(s', out) && (st == Sent ==> SeqOk(s', out + [Tx(i, s.sendSeq, s'.slots[i].buf)]))
  {
    hide Reg.Valid, Msg.Valid;
    var s' := Attempt(s, i, st, due);
    forall x | 0 <= x < |out| ensures ReplyId(out[x], s'.slots, s'.sendSeq) {
      assert ReplyId(out[x], s.slots, s.sendSeq);
    }
    forall x | 0 <= x < |s'.slots| ensures MsgId(s'.slots[x], x, s'.sendSeq) {
      assert MsgId(s.slots[x], x, s.sendSeq);
    }
  }

  lemma {:induction false} SendSeq(s: St, out: seq<Tx>, i: nat, oc: seq<Outcome>, due: int)
    requires WF(s) && SeqOk(s, out) && i <= |s.slots| == |oc|
    ensures var o := SendPass(s, i, oc, due); SeqOk(o.res.s, out + o.out)
    decreases |s.slots| - i
  {
    hide SeqOk, Attempt, Reg.Valid, Msg.Valid;
    var o := SendPass(s, i, oc, due);
    assert out + [] == out;
    if i == |s.slots| {
    } else if s.slots[i].state != Ready {
      SendSeq(s, out, i + 1, oc, due);
    } else if oc[i] == WouldBlock || oc[i] == SocketFailure {
      AttemptSeq(s, out, i, Ready, s.slots[i].due);
      SeqSame(Attempt(s, i, Ready, s.slots[i].due), o.res.s, out);
    } else {
      var s1 := Attempt(s, i, Sent, due);
      var tx := Tx(i, s.sendSeq, s1.slots[i].buf);
      AttemptSeq(s, out, i, Sent, due);
      if oc[i] == Delivered {
        SendSeq(s1, out + [tx], i + 1, oc, due);
        assert out + ([tx] + SendPass(s1, i + 1, oc, due).out) == out + [tx] + SendPass(s1, i + 1, oc, due).out;
      } else {
        SendSeq(s1, out, i + 1, oc, due);
      }
    }
  }

  lemma SeqSame(s: St, s': St, out: seq<Tx>)
    requires SeqOk(s, out) && s'.slots == s.slots && s'.sendSeq == s.sendSeq
    ensures SeqOk(s', out)
  {
  }

  lemma TopSeq(s: St, out: seq<Tx>, top: Top)
    requires WF(s) && SeqOk(s, out) && |top.oc| == |s.slots|
    ensures var t := LoopTop(s, top);
      SeqOk(t.s, out + t.out) && t.s.sendSeq >= s.sendSeq && |t.s.slots| == |s.slots|
  {
    hide SeqOk, LoadPass, SendPass, Caught, Reg.Valid, Msg.Valid;
    assert out + [] == out;
    if s.current == Error || s.current == Idle {
      SeqSame(s, LoopTop(s, top).s, out);
    } else {
      LoadQuieter(s, 0);
      SeqQuieter(s, LoadPass(s, 0), out);
      SendSeq(LoadPass(s, 0), out, 0, top.oc, top.due);
      var h := HandleSend(s, top.oc, top.due);
      CaughtQuieter(h.res.s);
      SeqQuieter(h.res.s, Caught(h.res.s), out + h.out);
      SeqSame(if h.res.Threw? then Caught(h.res.s) else h.res.s, LoopTop(s, top).s, out + h.out);
    }
  }

  /* ---- whole steps and runs ---- */

  lemma ResumeSeq(y: Sys, s: St, top: Top)
    requires WF(s) && SeqOk(s, y.out) && |top.oc| == |s.slots|
    ensures var y' := Resume(y, s, top);
      SeqOk(y'.s, y'.out) && y.out <= y'.out && y'.s.sendSeq >= s.sendSeq && |y'.s.slots| == |s.slots|
  {
    hide SeqOk, LoopTop;
    TopSeq(s, y.out, top);
  }

  ghost predicate SeqStep(y: Sys, y': Sys) {
    SeqOk(y'.s, y'.out) && y.out <= y'.out && y'.s.sendSeq >= y.s.sendSeq && |y'.s.slots| == |y.s.slots|
  }

  lemma {:induction false} SyncSlots(s: St, x: nat, action: Action)
    requires WF(s) && x <= |s.send|
    ensures SyncOn(s, x, action).slots == s.slots && SyncOn(s, x, action).sendSeq == s.sendSeq
    decreases |s.send| - x
  {
    hide Msg.Valid;
    if x < |s.send| {
      var r := s.regs[s.send[x]];
      SyncSlots(SetReg(s, s.send[x], r.(recInprog := r.recInprog + [action])), x + 1, action);
    }
  }

  lemma RecordSeq(y: Sys, e: Step)
    requires SeqOk(y.s, y.out) && Enabled(y, e) && !e.Received? && !e.PollFailed? && !e.Connected?
    ensures SeqStep(y, Next(y, e))
  {
    hide SeqOk, Queue, SyncOn, Reg.Valid, Msg.Valid;
    var y' := Next(y, e);
    if e.Request? {
      QuieterSame(y.s.slots);
      SeqQuieter(y.s, y'.s, y.out);
    } else {
      if e.Sync? {
        SyncSlots(y.s, 0, e.info);
      }
      SeqSame(y.s, y'.s, y.out);
    }
  }

  lemma NextSeq(y: Sys, e: Step)
    requires Enabled(y, e) && SeqOk(y.s, y.out)
    ensures SeqStep(y, Next(y, e))
  {
    hide SeqOk, Quieter, Receive, Resume, Caught, Queue, SyncOn, Reg.Valid, Msg.Valid;
    match e {
      case Received(packets, now, rom, top) =>
        ReceiveFrame(y.s, packets, now, rom);
        ReceiveQuieter(y.s, packets, now, rom);
        var o := Receive(y.s, packets, now, rom);
        SeqQuieter(y.s, o.res.s, y.out);
        CaughtQuieter(o.res.s);
        CaughtFrame(o.res.s);
        SeqQuieter(o.res.s, Caught(o.res.s), y.out);
        if o.res.Threw? {
          ResumeSeq(y, Caught(o.res.s), top);
        } else if !o.connecting {
          ResumeSeq(y, o.res.s, top);
        }
      case PollFailed(top) =>
        CaughtQuieter(y.s);
        CaughtFrame(y.s);
        SeqQuieter(y.s, Caught(y.s), y.out);
        ResumeSeq(y, Caught(y.s), top);
      case Connected(ok, top) =>
        CaughtQuieter(y.s);
        CaughtFrame(y.s);
        SeqQuieter(y.s, Caught(y.s), y.out);
        SeqSame(y.s, y.s.(current := Running), y.out);
        ResumeSeq(y, if ok then y.s.(current := Running) else Caught(y.s), top);
      case _ =>
        RecordSeq(y, e);
    }
  }

  /** In every run, with any packets, blocked attempts, timeouts and resets: sequence numbers say
      which attempt a message in flight and a datagram sent belong to. */
  lemma {:induction false} RunIds(trace: seq<Sys>, steps: seq<Step>, x: nat)
    requires IsRun(trace, steps) && x < |trace|
    ensures SeqOk(trace[x].s, trace[x].out)
  {
    hide IsRun, Initial, Enabled, Next, SeqOk;
    RunStart(trace, steps);
    if x == 0 {
      InitialSeq(trace[0]);
    } else {
      RunIds(trace, steps, x - 1);
      RunStep(trace, steps, x - 1);
      NextSeq(trace[x - 1], steps[x - 1]);
    }
  }

  lemma InitialSeq(y: Sys)
    requires Initial(y)
    ensures SeqOk(y.s, y.out)
  {
  }

  /** What has been sent stays sent. */
  lemma {:induction false} RunSent(trace: seq<Sys>, steps: seq<Step>, x: nat, y: nat)
    requires IsRun(trace, steps) && x <= y < |trace|
    ensures trace[x].out <= trace[y].out
  {
    hide IsRun, Initial, Enabled, Next, SeqOk;
    RunStart(trace, steps);
    if x < y {
      RunSent(trace, steps, x, y - 1);
      RunIds(trace, steps, y - 1);
      RunStep(trace, steps, y - 1);
      NextSeq(trace[y - 1], steps[y - 1]);
    }
  }

  /** THE STALE REPLY THEOREM. In every run: a packet with the header of a datagram t sent at any
      earlier point is accepted for the message in slot i if and only if t was sent from slot i, a
      message is in flight there, and the attempts of the two, t's not being the later one, differ
      by a multiple of 2^24. */
  lemma StaleReplies(trace: seq<Sys>, steps: seq<Step>, x: nat, y: nat, t: Tx, w: seq<Word>, i: nat)
    requires IsRun(trace, steps) && x <= y < |trace| && t in trace[x].out
    requires |w| >= 8 && w[0] == MAGIC && |t.words| >= 2 && w[1] == t.words[1]
    ensures var slots := trace[y].s.slots;
      Matches(trace[y].s, w, i) <==>
        (i == t.slot && i < |slots| && slots[i].state == Sent
          && t.attempt <= slots[i].attempt && (slots[i].attempt - t.attempt) % ADDR_LIMIT == 0)
  {
    hide IsRun, SeqOk;
    RunSent(trace, steps, x, y);
    RunIds(trace, steps, y);
    assert WF(trace[y].s) by { RunInv(trace, steps, y); }
    var s := trace[y].s;
    SeqFacts(s, trace[y].out, t);
    if Matches(s, w, i) {
      SlotFacts(s, trace[y].out, i);
      StaleOnlyAfterWrap(s, t.(words := w), i);
    } else if i == t.slot && i < |s.slots| && s.slots[i].state == Sent && (s.slots[i].attempt - t.attempt) % ADDR_LIMIT == 0 {
      SlotFacts(s, trace[y].out, i);
      StaleAfterWrap(s, t.(words := w), i);
    }
  }

  lemma SeqFacts(s: St, out: seq<Tx>, t: Tx)
    requires SeqOk(s, out) && t in out
    ensures ReplyId(t, s.slots, s.sendSeq)
  {
  }

  lemma SlotFacts(s: St, out: seq<Tx>, i: nat)
    requires SeqOk(s, out) && i < |s.slots|
    ensures MsgId(s.slots[i], i, s.sendSeq)
  {
  }
}
