/** What handle_send does with every message: which are handed to the network, as what, in which
    order, and which have to wait. */
module Sending {
  import opened EngineState
  import opened Partition
  import opened Messages
  import opened Worker
  import opened Safety
  import opened Stale

  /** An attempt at this message ends the pass. */
  predicate StopsAt(slots: seq<Msg>, oc: seq<Outcome>, j: int) {
    0 <= j < |slots| == |oc| && slots[j].state == Ready && (oc[j] == WouldBlock || oc[j] == SocketFailure)
  }

  ghost predicate StopsBy(slots: seq<Msg>, oc: seq<Outcome>, i: int, x: int) {
    exists j :: i <= j <= x && StopsAt(slots, oc, j)
  }

  /** The message has become Sent. */
  predicate NowSent(a: Msg, b: Msg) {
    a.state != Sent && b.state == Sent
  }

  /** What a datagram says about the message it carries. */
  predicate Carries(t: Tx, slots: seq<Msg>) {
    t.slot < |slots| && t.attempt == slots[t.slot].attempt && t.words == slots[t.slot].buf
  }

  /** Messages a have become b by a pass from message i on: a message waiting becomes Sent, with
      the new deadline, exactly if no attempt at it or before it ends the pass. */
  ghost predicate PassDone(a: seq<Msg>, b: seq<Msg>, i: nat, oc: seq<Outcome>, due: int) {
    && |a| == |b| == |oc|
    && (forall x | 0 <= x < |a| && (x < i || a[x].state != Ready) :: b[x] == a[x])
    && (forall x | i <= x < |a| && a[x].state == Ready ::
        if StopsBy(a, oc, i, x) then b[x].state == Ready else b[x].state == Sent && b[x].due == due)
  }

  /** The datagrams are those of the messages that have become Sent and were delivered, one each,
      in the order of the slots. */
  ghost predicate HandedOver(a: seq<Msg>, b: seq<Msg>, i: nat, oc: seq<Outcome>, out: seq<Tx>) {
    && |a| == |b| == |oc|
    && (forall y | 0 <= y < |out| :: i <= out[y].slot < |a| && NowSent(a[out[y].slot], b[out[y].slot]) && oc[out[y].slot] == Delivered && Carries(out[y], b))
    && (forall y, z | 0 <= y < z < |out| :: out[y].slot < out[z].slot)
    && (forall x | i <= x < |a| && NowSent(a[x], b[x]) && oc[x] == Delivered :: Tx(x, b[x].attempt, b[x].buf) in out)
  }

  lemma StopsNext(a: seq<Msg>, b: seq<Msg>, oc: seq<Outcome>, i: nat, x: int)
    requires |a| == |b| && !StopsAt(a, oc, i) && i < x && forall j | i < j < |a| :: b[j].state == a[j].state
    ensures StopsBy(a, oc, i, x) <==> StopsBy(b, oc, i + 1, x)
  {
    if StopsBy(a, oc, i, x) {
      var j :| i <= j <= x && StopsAt(a, oc, j);
      assert StopsAt(b, oc, j);
    }
    if StopsBy(b, oc, i + 1, x) {
      var j :| i + 1 <= j <= x && StopsAt(b, oc, j);
      assert StopsAt(a, oc, j);
    }
  }

  lemma {:induction false} SendPassDone(s: St, i: nat, oc: seq<Outcome>, due: int)
    requires WF(s) && i <= |s.slots| == |oc|
    ensures var o := SendPass(s, i, oc, due);
      PassDone(s.slots, o.res.s.slots, i, oc, due) && HandedOver(s.slots, o.res.s.slots, i, oc, o.out)
    decreases |s.slots| - i
  {
    hide Reg.Valid, Msg.Valid, PassDone, HandedOver;
    var o := SendPass(s, i, oc, due);
    if i == |s.slots| {
      NothingSent(s.slots, oc, due);
    } else if s.slots[i].state != Ready {
      SendPassDone(s, i + 1, oc, due);
      PassSkips(s.slots, o.res.s.slots, i, oc, due, o.out);
    } else if StopsAt(s.slots, oc, i) {
      PassStops(s.slots, o.res.s.slots, i, oc, due);
    } else {
      var s1 := Attempt(s, i, Sent, due);
      AttemptIs(s, i, Sent, due);
      SendPassDone(s1, i + 1, oc, due);
      PassSends(s.slots, s1.slots, o.res.s.slots, i, oc, due, s.sendSeq, SendPass(s1, i + 1, oc, due).out);
    }
  }

  lemma PassSkips(a: seq<Msg>, b: seq<Msg>, i: nat, oc: seq<Outcome>, due: int, out: seq<Tx>)
    requires i < |a| && a[i].state != Ready && PassDone(a, b, i + 1, oc, due) && HandedOver(a, b, i + 1, oc, out)
    ensures PassDone(a, b, i, oc, due) && HandedOver(a, b, i, oc, out)
  {
    forall x | i <= x < |a| && a[x].state == Ready
      ensures if StopsBy(a, oc, i, x) then b[x].state == Ready else b[x].state == Sent && b[x].due == due
    {
      StopsNext(a, a, oc, i, x);
    }
  }

  lemma PassStops(a: seq<Msg>, b: seq<Msg>, i: nat, oc: seq<Outcome>, due: int)
    requires StopsAt(a, oc, i) && |b| == |a| && b[i].state == Ready && forall x | 0 <= x < |a| && x != i :: b[x] == a[x]
    ensures PassDone(a, b, i, oc, due) && HandedOver(a, b, i, oc, [])
  {
    forall x | i <= x < |a| ensures StopsBy(a, oc, i, x) {
    }
  }

  lemma AttemptIs(s: St, i: nat, st: MsgState, due: int)
    requires WF(s) && i < |s.slots| && s.slots[i].state == Ready && st != Free
    ensures var t := Attempt(s, i, st, due);
      var m := t.slots;
      && |m| == |s.slots| && m == s.slots[i := m[i]] && m[i].state == st && m[i].due == due && m[i].attempt == s.sendSeq
      && t.wantToSend == s.wantToSend
  {
  }

  lemma NothingSent(a: seq<Msg>, oc: seq<Outcome>, due: int)
    requires |oc| == |a|
    ensures PassDone(a, a, |a|, oc, due) && HandedOver(a, a, |a|, oc, [])
  {
  }

  lemma PassSends(a: seq<Msg>, m: seq<Msg>, b: seq<Msg>, i: nat, oc: seq<Outcome>, due: int, attempt: nat, out: seq<Tx>)
    requires i < |a| == |m| == |oc| && a[i].state == Ready && (oc[i] == Delivered || oc[i] == Unreachable)
    requires m == a[i := m[i]] && m[i].state == Sent && m[i].due == due && m[i].attempt == attempt
    requires PassDone(m, b, i + 1, oc, due) && HandedOver(m, b, i + 1, oc, out)
    ensures PassDone(a, b, i, oc, due)
    ensures HandedOver(a, b, i, oc, if oc[i] == Delivered then [Tx(i, attempt, m[i].buf)] + out else out)
  {
    assert b[i] == m[i];
    forall x | i <= x < |a| && a[x].state == Ready
      ensures if StopsBy(a, oc, i, x) then b[x].state == Ready else b[x].state == Sent && b[x].due == due
    {
      if x > i {
        StopsNext(a, m, oc, i, x);
      }
    }
    OneOver(a, m, b, i, oc, out);
    if oc[i] == Delivered {
      FirstOver(a, b, i, oc, Tx(i, attempt, m[i].buf), out);
    } else {
      NoneOver(a, b, i, oc, out);
    }
  }

  /** The messages behind i, in terms of those before the attempt at i. */
  lemma OneOver(a: seq<Msg>, m: seq<Msg>, b: seq<Msg>, i: nat, oc: seq<Outcome>, out: seq<Tx>)
    requires i < |a| == |m| && m == a[i := m[i]] && HandedOver(m, b, i + 1, oc, out)
    ensures HandedOver(a, b, i + 1, oc, out)
  {
    forall y | 0 <= y < |out| ensures i + 1 <= out[y].slot < |a| && NowSent(a[out[y].slot], b[out[y].slot]) {
      assert NowSent(m[out[y].slot], b[out[y].slot]);
    }
    forall x | i + 1 <= x < |a| && NowSent(a[x], b[x]) && oc[x] == Delivered ensures Tx(x, b[x].attempt, b[x].buf) in out {
      assert NowSent(m[x], b[x]);
    }
  }

  lemma FirstOver(a: seq<Msg>, b: seq<Msg>, i: nat, oc: seq<Outcome>, t: Tx, out: seq<Tx>)
    requires HandedOver(a, b, i + 1, oc, out) && i < |a| && NowSent(a[i], b[i]) && oc[i] == Delivered && t == Tx(i, b[i].attempt, b[i].buf)
    ensures HandedOver(a, b, i, oc, [t] + out)
  {
    var all := [t] + out;
    forall x | i <= x < |a| && NowSent(a[x], b[x]) && oc[x] == Delivered ensures Tx(x, b[x].attempt, b[x].buf) in all {
      if x == i {
        assert all[0] == t;
      }
    }
  }

  lemma NoneOver(a: seq<Msg>, b: seq<Msg>, i: nat, oc: seq<Outcome>, out: seq<Tx>)
    requires HandedOver(a, b, i + 1, oc, out) && i < |a| && oc[i] != Delivered
    ensures HandedOver(a, b, i, oc, out)
  {
  }

  /* ---- both passes ---- */

  lemma {:induction false} LoadKeepsSent(s: St, i: nat)
    requires WF(s) && i <= |s.slots|
    ensures var b := LoadPass(s, i).slots;
      |b| == |s.slots| && forall x | 0 <= x < |b| :: if s.slots[x].state == Sent then b[x] == s.slots[x] else b[x].state != Sent
    decreases |s.slots| - i
  {
    hide LoadSlot, Reg.Valid, Msg.Valid;
    if i < |s.slots| && FrontHasWord(s) {
      if s.slots[i].state == Sent {
        LoadKeepsSent(s, i + 1);
      } else {
        LoadKeepsSent(MarkReady(LoadSlot(s, i, 0), i), i + 1);
      }
    }
  }

  /** The first attempt that ends the pass. */
  ghost predicate FirstStop(slots: seq<Msg>, oc: seq<Outcome>, j: int) {
    StopsAt(slots, oc, j) && forall h | 0 <= h < j :: !StopsAt(slots, oc, h)
  }

  ghost predicate EndsWith(slots: seq<Msg>, oc: seq<Outcome>, c: Outcome) {
    exists j :: FirstStop(slots, oc, j) && oc[j] == c
  }

  lemma {:induction false} SendPassEnds(s: St, i: nat, oc: seq<Outcome>, due: int)
    requires WF(s) && i <= |s.slots| == |oc| && forall h | 0 <= h < i :: !StopsAt(s.slots, oc, h)
    ensures var o := SendPass(s, i, oc, due).res;
      && (o.Threw? <==> EndsWith(s.slots, oc, SocketFailure))
      && (o.s.wantToSend <==> s.wantToSend || EndsWith(s.slots, oc, WouldBlock))
    decreases |s.slots| - i
  {
    hide Reg.Valid, Msg.Valid, Attempt, EndsWith;
    if i == |s.slots| {
      NoStop(s.slots, oc);
    } else if s.slots[i].state != Ready {
      SendPassEnds(s, i + 1, oc, due);
    } else if StopsAt(s.slots, oc, i) {
      StopHere(s.slots, oc, i);
      AttemptIs(s, i, Ready, s.slots[i].due);
    } else {
      var s1 := Attempt(s, i, Sent, due);
      AttemptIs(s, i, Sent, due);
      SameStops(s.slots, s1.slots, i, oc);
      SendPassEnds(s1, i + 1, oc, due);
    }
  }

  lemma NoStop(a: seq<Msg>, oc: seq<Outcome>)
    requires forall h | 0 <= h < |a| :: !StopsAt(a, oc, h)
    ensures forall c :: !EndsWith(a, oc, c)
  {
  }

  lemma StopHere(a: seq<Msg>, oc: seq<Outcome>, i: nat)
    requires StopsAt(a, oc, i) && forall h | 0 <= h < i :: !StopsAt(a, oc, h)
    ensures forall c :: EndsWith(a, oc, c) <==> oc[i] == c
  {
    assert FirstStop(a, oc, i);
  }

  lemma SameStops(a: seq<Msg>, m: seq<Msg>, i: nat, oc: seq<Outcome>)
    requires i < |a| == |m| && m == a[i := m[i]] && !StopsAt(a, oc, i) && m[i].state == Sent
    ensures forall j :: StopsAt(m, oc, j) <==> StopsAt(a, oc, j)
    ensures forall c :: EndsWith(m, oc, c) <==> EndsWith(a, oc, c)
  {
    forall j ensures StopsAt(m, oc, j) <==> StopsAt(a, oc, j) {
    }
    hide StopsAt;
    forall j ensures FirstStop(m, oc, j) <==> FirstStop(a, oc, j) {
    }
  }

  /** The messages b are the result of handle_send on a. */
  ghost predicate AllHanded(a: seq<Msg>, b: seq<Msg>, oc: seq<Outcome>, due: int, o: SendRes) {
    && HandedOver(a, b, 0, oc, o.out)
    && (forall x | 0 <= x < |b| && a[x].state == Sent :: b[x] == a[x])
    && (forall x | 0 <= x < |b| && NowSent(a[x], b[x]) :: b[x].due == due && oc[x] != WouldBlock && oc[x] != SocketFailure)
    && (forall x | 0 <= x < |b| && a[x].state != Sent && b[x].state != Free :: b[x].state == Ready <==> StopsBy(b, oc, 0, x))
    && (o.res.Threw? <==> EndsWith(b, oc, SocketFailure))
  }

  /** THE SENDING THEOREM. A message that becomes Sent has the new deadline, and if it is delivered
      exactly one datagram carries it, with its words and its attempt; there are no other datagrams,
      and they go out in the order of the slots. A message that was not sent before is left waiting
      exactly if an attempt at it or at one before it was blocked or failed, and the pass throws
      exactly if the first of these failed. */
  lemma SendsAll(s: St, oc: seq<Outcome>, due: int)
    requires WF(s) && |oc| == |s.slots|
    ensures AllHanded(s.slots, HandleSend(s, oc, due).res.s.slots, oc, due, HandleSend(s, oc, due))
  {
    hide LoadPass, SendPass, WF, HandedOver, PassDone, EndsWith, AllHanded;
    var s1 := LoadPass(s, 0);
    LoadKeepsSent(s, 0);
    SendPassDone(s1, 0, oc, due);
    SendPassEnds(s1, 0, oc, due);
    HandedBy(s.slots, s1.slots, oc, due, HandleSend(s, oc, due));
  }

  lemma HandedBy(a: seq<Msg>, m: seq<Msg>, oc: seq<Outcome>, due: int, o: SendRes)
    requires |m| == |a| && forall x | 0 <= x < |m| :: if a[x].state == Sent then m[x] == a[x] else m[x].state != Sent
    requires PassDone(m, o.res.s.slots, 0, oc, due) && HandedOver(m, o.res.s.slots, 0, oc, o.out)
    requires o.res.Threw? <==> EndsWith(m, oc, SocketFailure)
    ensures AllHanded(a, o.res.s.slots, oc, due, o)
  {
    hide HandedOver, FirstStop;
    var b := o.res.s.slots;
    OverFrom(a, m, b, oc, o.out);
    forall x | 0 <= x < |oc| ensures StopsBy(m, oc, 0, x) <==> StopsBy(b, oc, 0, x) {
      StopsLeft(m, b, oc, due, x);
    }
    forall j ensures FirstStop(m, oc, j) <==> FirstStop(b, oc, j) {
      FirstLeft(m, b, oc, due, j);
    }
    forall x | 0 <= x < |b| && NowSent(a[x], b[x]) ensures oc[x] != WouldBlock && oc[x] != SocketFailure {
      assert StopsAt(m, oc, x) ==> StopsBy(m, oc, 0, x);
    }
  }

  lemma OverFrom(a: seq<Msg>, m: seq<Msg>, b: seq<Msg>, oc: seq<Outcome>, out: seq<Tx>)
    requires |m| == |a| && HandedOver(m, b, 0, oc, out)
    requires forall x | 0 <= x < |a| :: a[x].state == Sent <==> m[x].state == Sent
    ensures HandedOver(a, b, 0, oc, out)
  {
    forall y | 0 <= y < |out| ensures NowSent(a[out[y].slot], b[out[y].slot]) {
      assert NowSent(m[out[y].slot], b[out[y].slot]);
    }
    forall x | 0 <= x < |a| && NowSent(a[x], b[x]) && oc[x] == Delivered ensures Tx(x, b[x].attempt, b[x].buf) in out {
      assert NowSent(m[x], b[x]);
    }
  }

  /** Where the pass stopped can be read off its result. */
  lemma StopsLeft(a: seq<Msg>, b: seq<Msg>, oc: seq<Outcome>, due: int, x: int)
    requires PassDone(a, b, 0, oc, due) && 0 <= x < |a|
    ensures StopsBy(a, oc, 0, x) <==> StopsBy(b, oc, 0, x)
  {
    if StopsBy(a, oc, 0, x) {
      var j :| 0 <= j <= x && StopsAt(a, oc, j);
      assert StopsBy(a, oc, 0, j);
      assert StopsAt(b, oc, j);
    }
    if StopsBy(b, oc, 0, x) {
      var j :| 0 <= j <= x && StopsAt(b, oc, j);
      assert StopsAt(a, oc, j);
    }
  }

  lemma FirstLeft(a: seq<Msg>, b: seq<Msg>, oc: seq<Outcome>, due: int, j: int)
    requires PassDone(a, b, 0, oc, due)
    ensures FirstStop(a, oc, j) <==> FirstStop(b, oc, j)
  {
    if FirstStop(a, oc, j) {
      assert StopsBy(a, oc, 0, j);
      forall h | 0 <= h < j ensures !StopsAt(b, oc, h) {
        assert StopsAt(b, oc, h) ==> StopsAt(a, oc, h);
      }
    }
    if FirstStop(b, oc, j) {
      assert StopsAt(a, oc, j);
      forall h | 0 <= h < j ensures !StopsAt(a, oc, h) {
        StopKept(a, b, oc, due, h);
      }
    }
  }

  lemma StopKept(a: seq<Msg>, b: seq<Msg>, oc: seq<Outcome>, due: int, j: int)
    requires PassDone(a, b, 0, oc, due)
    ensures StopsAt(a, oc, j) ==> StopsAt(b, oc, j)
  {
    if StopsAt(a, oc, j) {
      assert StopsBy(a, oc, 0, j);
    }
  }

  /* ---- runs ---- */

  predicate HasTop(e: Step) {
    e.Received? || e.PollFailed? || e.Connected?
  }

  /** Message m of slot i was made Sent by the loop top of this step. */
  predicate SentBy(m: Msg, i: nat, e: Step, out: seq<Tx>) {
    && HasTop(e) && i < |e.top.oc| && m.due == e.top.due && (e.top.oc[i] == Delivered || e.top.oc[i] == Unreachable)
    && (e.top.oc[i] == Delivered ==> Tx(i, m.attempt, m.buf) in out)
  }

  lemma TopHanded(s: St, top: Top, i: nat, out: seq<Tx>)
    requires WF(s) && |top.oc| == |s.slots| && i < |LoopTop(s, top).s.slots| && LoopTop(s, top).s.slots[i].state == Sent
    ensures i < |s.slots|
    ensures var t := LoopTop(s, top);
      t.s.slots[i] == s.slots[i] || SentBy(t.s.slots[i], i, PollFailed(top), out + t.out)
  {
    hide HandleSend, Reg.Valid, Msg.Valid, Caught;
    if s.current != Error && s.current != Idle {
      SendsAll(s, top.oc, top.due);
      var h := HandleSend(s, top.oc, top.due);
      CaughtQuieter(h.res.s);
      CaughtFrame(h.res.s);
      if h.res.Threw? {
        CaughtFree(h.res.s, i);
      } else if s.slots[i].state != Sent {
        WasHanded(s.slots, h.res.s.slots, top.oc, top.due, h, i);
      }
    }
  }

  lemma CaughtFree(s: St, i: nat)
    requires WF(s) && i < |Caught(s).slots|
    ensures Caught(s).slots[i].state == Free
  {
  }

  lemma WasHanded(a: seq<Msg>, b: seq<Msg>, oc: seq<Outcome>, due: int, o: SendRes, i: nat)
    requires AllHanded(a, b, oc, due, o) && i < |b| && b[i].state == Sent && a[i].state != Sent
    ensures b[i].due == due && (oc[i] == Delivered || oc[i] == Unreachable)
    ensures oc[i] == Delivered ==> Tx(i, b[i].attempt, b[i].buf) in o.out
  {
    assert NowSent(a[i], b[i]);
  }

  predicate SameFlight(a: Msg, b: Msg) {
    a.state == Sent && b.state == Sent && a.attempt == b.attempt && a.buf == b.buf && a.due == b.due
  }

  lemma NextHanded(y: Sys, e: Step, i: nat)
    requires Enabled(y, e) && i < |Next(y, e).s.slots| && Next(y, e).s.slots[i].state == Sent
    ensures var m := Next(y, e).s.slots[i];
      (i < |y.s.slots| && SameFlight(y.s.slots[i], m)) || SentBy(m, i, e, Next(y, e).out)
  {
    hide Receive, LoopTop, Caught, Queue, SyncOn, Quieter, Reg.Valid, Msg.Valid, SentBy, SameFlight;
    if e.Received? {
      ReceiveFrame(y.s, e.packets, e.now, e.rom);
      ReceiveQuieter(y.s, e.packets, e.now, e.rom);
      var o := Receive(y.s, e.packets, e.now, e.rom);
      CaughtQuieter(o.res.s);
      CaughtFrame(o.res.s);
      QuieterTwice(y.s.slots, o.res.s.slots, Caught(o.res.s).slots);
      if o.connecting && o.res.Go? {
        StillFlying(y.s.slots, o.res.s.slots, i);
      } else {
        ResumeHanded(y, if o.res.Threw? then Caught(o.res.s) else o.res.s, e.top, e, i);
      }
    } else if e.PollFailed? || e.Connected? {
      CaughtQuieter(y.s);
      CaughtFrame(y.s);
      QuieterSame(y.s.slots);
      ResumeHanded(y, if e.Connected? && e.ok then y.s.(current := Running) else Caught(y.s), e.top, e, i);
    } else {
      if e.Sync? {
        SyncSlots(y.s, 0, e.info);
      }
      QuieterSame(y.s.slots);
      StillFlying(y.s.slots, Next(y, e).s.slots, i);
    }
  }

  lemma StillFlying(a: seq<Msg>, b: seq<Msg>, i: nat)
    requires Quieter(a, b) && i < |b| && b[i].state == Sent
    ensures i < |a| && SameFlight(a[i], b[i])
  {
  }

  lemma ResumeHanded(y: Sys, s: St, top: Top, e: Step, i: nat)
    requires WF(s) && |top.oc| == |s.slots| && Quieter(y.s.slots, s.slots) && HasTop(e) && e.top == top
    requires i < |Resume(y, s, top).s.slots| && Resume(y, s, top).s.slots[i].state == Sent
    ensures var y' := Resume(y, s, top);
      (i < |y.s.slots| && SameFlight(y.s.slots[i], y'.s.slots[i])) || SentBy(y'.s.slots[i], i, e, y'.out)
  {
    hide LoopTop;
    TopHanded(s, top, i, y.out);
  }

  /** In every run, whatever happens: a message in flight was made Sent by a step x of the worker,
      whose deadline it has; if the network took it then, its datagram has been sent. */
  lemma {:induction false} RunHanded(trace: seq<Sys>, steps: seq<Step>, z: nat, i: nat) returns (x: nat)
    requires IsRun(trace, steps) && z < |trace| && i < |trace[z].s.slots| && trace[z].s.slots[i].state == Sent
    ensures x < z && SentBy(trace[z].s.slots[i], i, steps[x], trace[z].out)
  {
    hide IsRun, Enabled, Next, SentBy, SameFlight, SeqOk;
    RunStart(trace, steps);
    if z == 0 {
      assert false;
    }
    RunStep(trace, steps, z - 1);
    NextHanded(trace[z - 1], steps[z - 1], i);
    RunIds(trace, steps, z - 1);
    NextSeq(trace[z - 1], steps[z - 1]);
    var a, b := trace[z - 1], trace[z];
    if i < |a.s.slots| && SameFlight(a.s.slots[i], b.s.slots[i]) {
      SameSentBy(a.s.slots[i], b.s.slots[i]);
      x := RunHanded(trace, steps, z - 1, i);
      LaterSentBy(a.s.slots[i], b.s.slots[i], i, steps[x], a.out, b.out);
    } else {
      x := z - 1;
    }
  }

  lemma SameSentBy(a: Msg, b: Msg)
    requires SameFlight(a, b)
    ensures a.state == Sent
  {
  }

  lemma LaterSentBy(a: Msg, b: Msg, i: nat, e: Step, out: seq<Tx>, out': seq<Tx>)
    requires SameFlight(a, b) && SentBy(a, i, e, out) && out <= out'
    ensures SentBy(b, i, e, out')
  {
  }
}
