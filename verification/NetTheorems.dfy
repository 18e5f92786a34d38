/** What every run of the driver against a device guarantees about written and read words. */
module NetTheorems {
  import opened EngineState
  import opened Partition
  import opened Worker
  import opened Safety
  import opened Peer
  import opened EndToEnd
  import opened EndToEndSteps
  import opened EndToEndSends
  import opened EndToEndQueue
  import opened EndToEndDevice
  import opened Restarts
  import opened NetRuns

  /* ---- committed contents ---- */

  /** A record hands the contents of register k's send cache to a write. */
  ghost predicate IsCommit(n: Net, e: NetStep, k: RegRef) {
    && e.Drive? && e.e.Request? && e.e.write && e.e.k == k && WF(n.y.s) && k < |n.y.s.regs|
    && n.y.s.regs[k].info.writable && Queue(n.y.s, k, true, e.e.action).Go?
  }

  predicate IsStore(e: NetStep, k: RegRef) {
    e.Drive? && e.e.Store? && e.e.k == k
  }

  ghost predicate CommittedAt(trace: seq<Net>, steps: seq<NetStep>, y: int, x: int, k: RegRef) {
    0 <= y < x <= |steps| < |trace| && IsCommit(trace[y], steps[y], k) && forall z | y < z < x :: !IsStore(steps[z], k)
  }

  /** The current contents of the send cache of register k have been handed to a write. */
  ghost predicate Committed(trace: seq<Net>, steps: seq<NetStep>, x: int, k: RegRef) {
    exists y :: CommittedAt(trace, steps, y, x, k)
  }

  lemma SyncedStep(n: Net, e: NetStep, k: RegRef)
    requires NetEnabled(n, e)
    ensures k in NetNext(n, e).v.synced <==> IsCommit(n, e, k) || (k in n.v.synced && !IsStore(e, k))
  {
    hide Receive, HandleSend, Regular, Reg.Valid, Msg.Valid;
    if e.Drive? {
      RegularEnabled(n, e);
    }
  }

  lemma RegularEnabled(n: Net, e: NetStep)
    requires NetEnabled(n, e) && e.Drive?
    ensures Enabled(n.y, e.e)
  {
  }

  lemma {:induction false} SyncedMeans(trace: seq<Net>, steps: seq<NetStep>, x: nat, k: RegRef)
    requires IsNetRun(trace, steps) && x < |trace|
    ensures k in trace[x].v.synced <==> Committed(trace, steps, x, k)
  {
    hide IsNetRun, NetStart, NetNext, IsCommit, NetEnabled;
    NetRunStart(trace, steps);
    if x > 0 {
      NetRunStep(trace, steps, x - 1);
      SyncedMeans(trace, steps, x - 1, k);
      SyncedStep(trace[x - 1], steps[x - 1], k);
      if k in trace[x].v.synced {
        if IsCommit(trace[x - 1], steps[x - 1], k) {
          assert CommittedAt(trace, steps, x - 1, x, k);
        } else {
          var y :| CommittedAt(trace, steps, y, x - 1, k);
          assert CommittedAt(trace, steps, y, x, k);
        }
      }
      if Committed(trace, steps, x, k) {
        var y :| CommittedAt(trace, steps, y, x, k);
        if y < x - 1 {
          assert CommittedAt(trace, steps, y, x - 1, k);
        }
      }
    }
  }

  /** Every word of the register that the device has is the send cache's, cut to its width. */
  ghost predicate DeviceHasTx(r: Reg, mem: Memory) {
    forall o | 0 <= o < r.info.size :: WriteOk(r, mem, o)
  }

  ghost predicate RxEchoesTx(r: Reg, mem: Memory) {
    |r.memRx| == r.info.size && forall o | 0 <= o < r.info.size :: EchoOk(r, mem, o, r.memRx[o])
  }

  /** THE LAST-WRITE THEOREM. However requests interleave with writes already half sent, and
      whatever the network does: once the contents of the send cache have been handed to a write
      and no write is queued or in progress, the device holds exactly those contents, if no other
      writable register shares an address with this one. */
  lemma LastWriteWins(trace: seq<Net>, steps: seq<NetStep>, x: nat, k: RegRef)
    requires IsNetRun(trace, steps) && x < |trace| && Committed(trace, steps, x, k)
    ensures k < |trace[x].y.s.regs|
    ensures var r := trace[x].y.s.regs[k];
      Alone(trace[x].y.s.regs, k) && r.state != Writing && !r.writeQueued ==> DeviceHasTx(r, trace[x].v.mem)
  {
    hide IsNetRun, Committed;
    NetRunInv(trace, steps, x);
    SyncedMeans(trace, steps, x, k);
    WrittenWords(trace[x], k);
  }

  lemma WrittenWords(n: Net, k: RegRef)
    requires NetInv(n) && k in n.v.synced
    ensures k < |n.y.s.regs|
    ensures var r := n.y.s.regs[k];
      Alone(n.y.s.regs, k) && r.state != Writing && !r.writeQueued ==> DeviceHasTx(r, n.v.mem)
  {
    var r := n.y.s.regs[k];
    assert RegOk(r) && TxClaim(r, k, n.v);
    if Alone(n.y.s.regs, k) && r.state != Writing && !r.writeQueued {
      forall o | 0 <= o < r.info.size ensures WriteOk(r, n.v.mem, o) {
      }
    }
  }

  /** Two registers that share an address cannot both have what they sent there, unless they sent
      the same: sharing with a writable register is what the theorem has to exclude. */
  lemma SharedWord(r: Reg, r': Reg, mem: Memory, o: nat, o': nat)
    requires o < r.info.size && o' < r'.info.size && Addr(r, o) == Addr(r', o') && Addr(r, o) in mem
    requires DeviceHasTx(r, mem) && DeviceHasTx(r', mem)
    ensures o < |r.memTx| && o' < |r'.memTx| && mem[Addr(r, o)].modulus > 0
    ensures r.memTx[o] % mem[Addr(r, o)].modulus == r'.memTx[o'] % mem[Addr(r, o)].modulus
  {
    assert WriteOk(r, mem, o) && WriteOk(r', mem, o');
  }

  /** THE READ-BACK THEOREM. A read that completes after the contents of the send cache have
      been written returns those contents. */
  lemma ReadBack(trace: seq<Net>, steps: seq<NetStep>, x: nat, k: RegRef)
    requires IsNetRun(trace, steps) && x < |trace| && Committed(trace, steps, x, k)
    ensures k < |trace[x].y.s.regs|
    ensures var r := trace[x].y.s.regs[k];
      Alone(trace[x].y.s.regs, k) && r.state == InSync && r.latest ==> RxEchoesTx(r, trace[x].v.mem)
  {
    hide IsNetRun, Committed;
    NetRunInv(trace, steps, x);
    SyncedMeans(trace, steps, x, k);
    EchoedWords(trace[x], k);
  }

  lemma EchoedWords(n: Net, k: RegRef)
    requires NetInv(n) && k in n.v.synced
    ensures k < |n.y.s.regs|
    ensures var r := n.y.s.regs[k];
      Alone(n.y.s.regs, k) && r.state == InSync && r.latest ==> RxEchoesTx(r, n.v.mem)
  {
    var r := n.y.s.regs[k];
    assert RegOk(r) && TxClaim(r, k, n.v) && RxClaim(r, k, n.v);
    if Alone(n.y.s.regs, k) && r.state == InSync && r.latest {
      forall o | 0 <= o < r.info.size ensures EchoOk(r, n.v.mem, o, r.memRx[o]) {
      }
    }
  }

  /* ---- one step, seen from one register ---- */

  /** The register table when the worker reaches the top of its loop; otherwise as the step leaves it. */
  function Middle(n: Net, e: NetStep): seq<Reg>
    requires NetEnabled(n, e)
  {
    if e.Drive? && e.e.Received? then Receive(n.y.s, e.e.packets, e.e.now, e.e.rom).res.s.regs
    else if e.Drive? && e.e.Connected? then n.y.s.regs
    else NetNext(n, e).y.s.regs
  }

  /** The top of the loop only sends, and dates the reads it is about to begin. */
  lemma TopFacts(n: Net, e: NetStep)
    requires NetInv(n) && NetEnabled(n, e)
    ensures var n' := NetNext(n, e);
      var v' := n'.v;
      && AllSameButSent(Middle(n, e), n'.y.s.regs) && |v'.log| >= |n.v.log|
      && ((v'.since == n.v.since && n'.y.s.regs == Middle(n, e)) || v'.since == BeginAt(Middle(n, e), n.v.since, Now(n.v)))
  {
    hide NetInv, Receive, HandleSend, Queue, SyncOn, LoopTop, Caught, Reg.Valid, Msg.Valid, FromDevice, AllSameButSent;
    SentSame(Middle(n, e));
    if e.Drive? {
      match e.e {
        case Received(packets, now, rom, top) =>
          var o := Receive(n.y.s, packets, now, rom);
          if !o.connecting {
            TopRegs(o.res.s, top);
          }
        case Connected(ok, top) => TopRegs(n.y.s.(current := Running), top);
        case _ =>
      }
    }
  }

  lemma TopRegs(s: St, top: Top)
    requires WF(s) && |top.oc| == |s.slots| && Sends(s, top)
    ensures AllSameButSent(s.regs, LoopTop(s, top).s.regs)
    ensures s.current == Error || s.current == Idle ==> LoopTop(s, top).s.regs == s.regs
  {
    hide HandleSend;
    HandleSendRegs(s, top.oc, top.due);
  }

  /** A read that waited has just started, and no write was or is waiting. */
  predicate JustStarted(r: Reg, a: Action) {
    r.state == Reading && r.nextSend == 0 && !r.writeQueued && a in r.recInprog
  }

  /** What a read request for some register leaves alone. */
  predicate Undisturbed(r: Reg, r': Reg, a: Action) {
    && (a in r.recRead ==> a in r'.recRead) && (JustStarted(r, a) ==> JustStarted(r', a))
    && (r.InProgress() ==> r'.state == r.state)
    && (r'.state == Reading && r'.nextSend > 0 ==> r.state == Reading && r.nextSend > 0)
  }

  lemma QueueUndisturbed(s: St, k: RegRef, write: bool, action: Option<Action>, h: RegRef, a: Action)
    requires WF(s) && k < |s.regs| && h < |s.regs| && !write
    ensures Undisturbed(s.regs[h], Queue(s, k, write, action).s.regs[h], a)
  {
    hide WF, Started, Merged, Undisturbed;
    assert s.regs[k].Valid() by { WFReg(s, k); }
    SameUndisturbed(s.regs[h], a);
    if s.regs[k].InProgress() {
      MergedUndisturbed(s.regs[k], action, a);
    } else {
      StartedUndisturbed(s.regs[k], action, a);
    }
  }

  lemma SameUndisturbed(r: Reg, a: Action)
    ensures Undisturbed(r, r, a)
  {
  }

  lemma MergedUndisturbed(r: Reg, action: Option<Action>, a: Action)
    requires r.Valid() && r.InProgress()
    ensures Undisturbed(r, Merged(r, false, action), a)
  {
  }

  lemma StartedUndisturbed(r: Reg, action: Option<Action>, a: Action)
    requires r.Valid() && !r.InProgress()
    ensures Undisturbed(r, Started(r, false, action), a)
  {
  }

  lemma UndisturbedTwice(r: Reg, r': Reg, r'': Reg, a: Action)
    requires Undisturbed(r, r', a) && Undisturbed(r', r'', a)
    ensures Undisturbed(r, r'', a)
  {
  }

  lemma StateUndisturbed(s: St, rom: RomMap, h: RegRef, a: Action)
    requires WF(s) && ValidMap(rom) && !Resetting(s) && h < |s.regs|
    ensures |s.regs| <= |HandleState(s, rom).res.s.regs| && Undisturbed(s.regs[h], HandleState(s, rom).res.s.regs[h], a)
  {
    hide Queue, AddRegs, Undisturbed, Reg.Valid, Msg.Valid;
    SameUndisturbed(s.regs[h], a);
    if s.current == Searching {
      if s.regs[REG_ID].state == InSync {
        var s1 := Queue(s, REG_ROM2, false, None).s;
        QueueUndisturbed(s, REG_ROM2, false, None, h, a);
        QueueUndisturbed(s1, REG_ROM16, false, None, h, a);
        UndisturbedTwice(s.regs[h], s1.regs[h], Queue(s1, REG_ROM16, false, None).s.regs[h], a);
      } else {
        QueueUndisturbed(s, REG_ID, false, None, h, a);
      }
    }
  }

  /** What the replies and the connection do to register k in one pass. */
  lemma ReceivedFacts(n: Net, e: Step, k: RegRef, a: Action)
    requires NetInv(n) && Regular(n, e) && e.Received? && k < |n.y.s.regs|
    ensures var m := Receive(n.y.s, e.packets, e.now, e.rom).res.s.regs;
      var r := n.y.s.regs[k];
      && k < |m|
      && (r.state == Reading && m[k].state != Reading ==> Begun(r))
      && (m[k].state == Reading && m[k].nextSend > 0 ==> r.state == Reading && r.nextSend > 0)
      && (a in r.recRead && a !in m[k].recRead ==> !r.writeQueued && JustStarted(m[k], a))
  {
    hide Claims, WF, ProcessAll, HandleTimeout, HandleState, FromDevice, ReadsBegun;
    var s := n.y.s;
    var p := ProcessAll(s, e.packets);
    PacketsStep(s, n.v, e.packets);
    PacketsLater(s, n.v, e.packets);
    NothingDue(p.s, 0, e.now);
    StateUndisturbed(p.s, e.rom, k, a);
    assert Later(s.regs[k], p.s.regs[k]);
  }

  /** No other step of the driver ends a read, dates it back or drops what waits behind it. */
  lemma OtherFacts(n: Net, e: NetStep, k: RegRef, a: Action)
    requires NetInv(n) && NetEnabled(n, e) && !(e.Drive? && e.e.Received?) && k < |n.y.s.regs|
    ensures var m := Middle(n, e);
      var r := n.y.s.regs[k];
      && k < |m|
      && (r.state == Reading ==> m[k].state == Reading)
      && (m[k].state == Reading && m[k].nextSend > 0 ==> r.state == Reading && r.nextSend > 0)
      && (a in r.recRead ==> a in m[k].recRead)
  {
    hide NetInv, Receive, HandleSend, Next, Reg.Valid, Msg.Valid, FromDevice;
    if e.Drive? && !e.e.Connected? {
      RecordFacts(n.y, e.e, k, a);
    }
  }

  lemma RecordFacts(y: Sys, e: Step, k: RegRef, a: Action)
    requires Enabled(y, e) && !e.Received? && !e.PollFailed? && !e.Connected? && k < |y.s.regs|
    ensures var m := Next(y, e).s.regs;
      var r := y.s.regs[k];
      && k < |m| && (r.state == Reading ==> m[k].state == Reading) && (a in r.recRead ==> a in m[k].recRead)
      && (m[k].state == Reading && m[k].nextSend > 0 ==> r.state == Reading && r.nextSend > 0)
  {
    hide SyncOn, Queue, Reg.Valid, Msg.Valid;
    if e.Sync? {
      SyncRegs(y.s, 0, e.info);
    } else if e.Request? {
      QueueFacts(y.s, e.k, e.write, e.action, k, a);
    }
  }

  /** What a request leaves of a read under way and of the reads that wait. */
  predicate ReadKept(r: Reg, r': Reg, a: Action) {
    && (r.state == Reading ==> r'.state == Reading) && (a in r.recRead ==> a in r'.recRead)
    && (r'.state == Reading && r'.nextSend > 0 ==> r.state == Reading && r.nextSend > 0)
  }

  lemma QueueFacts(s: St, k: RegRef, write: bool, action: Option<Action>, h: RegRef, a: Action)
    requires WF(s) && k < |s.regs| && h < |s.regs|
    ensures ReadKept(s.regs[h], Queue(s, k, write, action).s.regs[h], a)
  {
    hide WF, Started, Merged;
    assert s.regs[k].Valid() by { WFReg(s, k); }
    if s.regs[k].InProgress() {
      MergedKept(s.regs[k], write, action, a);
    } else {
      StartedKept(s.regs[k], write, action, a);
    }
  }

  lemma MergedKept(r: Reg, write: bool, action: Option<Action>, a: Action)
    requires r.Valid() && r.InProgress()
    ensures ReadKept(r, Merged(r, write, action), a)
  {
  }

  lemma StartedKept(r: Reg, write: bool, action: Option<Action>, a: Action)
    requires r.Valid() && !r.InProgress()
    ensures ReadKept(r, Started(r, write, action), a)
  {
  }

  /* ---- reads are fresh ---- */

  /** A read of register k that has begun to be sent began at time `from` or later. */
  predicate FreshSince(n: Net, k: RegRef, from: nat) {
    && from < |n.v.log| && k < |n.y.s.regs|
    && (n.y.s.regs[k].state == Reading && n.y.s.regs[k].nextSend > 0 ==> k in n.v.since && from <= n.v.since[k])
  }

  lemma FreshStep(n: Net, e: NetStep, k: RegRef, from: nat)
    requires NetInv(n) && NetEnabled(n, e) && FreshSince(n, k, from)
    ensures FreshSince(NetNext(n, e), k, from)
  {
    hide NetInv, NetEnabled, NetNext, Middle, Regular, Receive, ProcessAll, HandleTimeout, Reg.Valid, Msg.Valid;
    TopFacts(n, e);
    if e.Drive? && e.e.Received? {
      ReceivedMiddle(n, e);
      ReceivedFacts(n, e.e, k, 0);
    } else {
      OtherFacts(n, e, k, 0);
    }
  }

  lemma ReceivedMiddle(n: Net, e: NetStep)
    requires NetEnabled(n, e) && e.Drive? && e.e.Received?
    ensures Regular(n, e.e) && Middle(n, e) == Receive(n.y.s, e.e.packets, e.e.now, e.e.rom).res.s.regs
  {
  }

  lemma {:induction false} FreshRun(trace: seq<Net>, steps: seq<NetStep>, x: nat, z: nat, k: RegRef)
    requires IsNetRun(trace, steps) && x <= z < |trace| && k < |trace[x].y.s.regs|
    requires !(trace[x].y.s.regs[k].state == Reading && trace[x].y.s.regs[k].nextSend > 0)
    ensures |trace[x].v.log| > 0 && FreshSince(trace[z], k, |trace[x].v.log| - 1)
  {
    hide IsNetRun, NetInv, NetEnabled, NetNext;
    NetRunStart(trace, steps);
    if z == x {
      NetRunInv(trace, steps, x);
      InvLog(trace[x]);
    } else {
      NetRunStep(trace, steps, z - 1);
      FreshRun(trace, steps, x, z - 1, k);
      NetRunInv(trace, steps, z - 1);
      FreshStep(trace[z - 1], steps[z - 1], k, |trace[x].v.log| - 1);
    }
  }

  lemma InvLog(n: Net)
    requires NetInv(n)
    ensures |n.v.log| > 0
  {
  }

  /** The read of register k that step e completes: its words have been held since it began. */
  lemma ReadEnds(n: Net, e: NetStep, k: RegRef)
    requires NetInv(n) && NetEnabled(n, e) && k < |n.y.s.regs| && n.y.s.regs[k].state == Reading
    requires k < |NetNext(n, e).y.s.regs| && NetNext(n, e).y.s.regs[k].state != Reading
    ensures n.y.s.regs[k].nextSend > 0
    ensures k in n.v.since ==> k in NetNext(n, e).v.since && NetNext(n, e).v.since[k] == n.v.since[k]
  {
    hide NetInv, NetEnabled, NetNext, Middle;
    TopFacts(n, e);
    if e.Drive? && e.e.Received? {
      ReceivedMiddle(n, e);
      ReceivedFacts(n, e.e, k, 0);
    } else {
      OtherFacts(n, e, k, 0);
    }
  }

  /** THE FRESH-READ THEOREM. When a read completes that had sent nothing at some earlier point x
      of the run, every word of the receive cache is one the device has held since then. */
  lemma ReadsAreFresh(trace: seq<Net>, steps: seq<NetStep>, x: nat, z: nat, k: RegRef)
    requires IsNetRun(trace, steps) && x <= z < |steps| && k < |trace[x].y.s.regs|
    requires !(trace[x].y.s.regs[k].state == Reading && trace[x].y.s.regs[k].nextSend > 0)
    ensures k < |trace[z].y.s.regs| && k < |trace[z + 1].y.s.regs| && |trace[x].v.log| > 0
    ensures var r := trace[z + 1].y.s.regs[k];
      trace[z].y.s.regs[k].state == Reading && r.state != Reading ==>
        FreshWords(r, trace[z + 1].v, |trace[x].v.log| - 1)
  {
    hide IsNetRun, NetInv, NetEnabled, NetNext;
    NetRunStep(trace, steps, z);
    FreshRun(trace, steps, x, z, k);
    FreshRun(trace, steps, x, z + 1, k);
    NetRunInv(trace, steps, z);
    NetRunInv(trace, steps, z + 1);
    if trace[z].y.s.regs[k].state == Reading && trace[z + 1].y.s.regs[k].state != Reading {
      ReadEnds(trace[z], steps[z], k);
      FreshDone(trace[z + 1], k, |trace[x].v.log| - 1);
    }
  }

  /** Every word of the receive cache was on the device at time `from` or later. */
  ghost predicate FreshWords(r: Reg, v: Env, from: nat) {
    forall o | 0 <= o < r.info.size :: FreshWord(r, v, from, o)
  }

  ghost predicate FreshWord(r: Reg, v: Env, from: nat, o: int) {
    0 <= o < |r.memRx| && (Addr(r, o) in v.mem ==> Held(v.log, from, Addr(r, o), r.memRx[o]))
  }

  lemma FreshDone(n: Net, k: RegRef, from: nat)
    requires NetInv(n) && k < |n.y.s.regs| && n.y.s.regs[k].state != Reading && k in n.v.since && from <= n.v.since[k]
    ensures FreshWords(n.y.s.regs[k], n.v, from)
  {
    var r := n.y.s.regs[k];
    assert RxClaim(r, k, n.v) && RegOk(r);
    forall o | 0 <= o < r.info.size ensures FreshWord(r, n.v, from, o) {
      assert ReadOk(r, k, n.v, o);
    }
  }

  /* ---- reads behind writes ---- */

  /** THE QUEUED-READ THEOREM. An action waiting for a read behind a write stops waiting only when
      the worker, in a step where no write waits, starts a read for it; that read asks for its
      first word after that point, and the device then holds what was committed before. */
  lemma QueuedReadWaits(trace: seq<Net>, steps: seq<NetStep>, x: nat, k: RegRef, a: Action)
    requires IsNetRun(trace, steps) && x < |steps| && k < |trace[x].y.s.regs|
    ensures k < |trace[x + 1].y.s.regs|
    ensures var r := trace[x].y.s.regs[k];
      var r' := trace[x + 1].y.s.regs[k];
      a in r.recRead && a !in r'.recRead ==>
        && !r.writeQueued && r'.state == Reading && !r'.writeQueued && a in r'.recInprog
        && (r'.nextSend > 0 ==> k in trace[x + 1].v.since && trace[x + 1].v.since[k] == |trace[x].v.log| - 1)
        && (Committed(trace, steps, x + 1, k) && Alone(trace[x + 1].y.s.regs, k) ==> DeviceHasTx(r', trace[x + 1].v.mem))
  {
    hide IsNetRun, NetInv, NetEnabled, NetNext, Middle, Committed, Regular, Receive, ProcessAll, HandleTimeout, Reg.Valid, Msg.Valid;
    NetRunStep(trace, steps, x);
    var n := trace[x];
    var e := steps[x];
    NetRunInv(trace, steps, x);
    InvLog(n);
    TopFacts(n, e);
    if e.Drive? && e.e.Received? {
      ReceivedMiddle(n, e);
      ReceivedFacts(n, e.e, k, a);
    } else {
      OtherFacts(n, e, k, a);
    }
    if Committed(trace, steps, x + 1, k) {
      LastWriteWins(trace, steps, x + 1, k);
    }
  }
}
