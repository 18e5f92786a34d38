/** Runs of the driver against a device over a network that loses, delays, repeats and reorders
    packets: what such runs guarantee about written and read words. */
module NetRuns {
  import opened EngineState
  import opened Partition
  import opened Progress
  import opened Messages
  import opened Worker
  import opened Safety
  import opened Peer
  import opened EndToEnd
  import opened EndToEndSteps
  import opened EndToEndSends
  import opened EndToEndQueue
  import opened EndToEndDevice
  import opened Restarts
  import opened Stale

  /** Driver, and everything around it. */
  datatype Net = Net(y: Sys, v: Env)

  /** The driver or its records move; the device answers a request; a word no record can write
      changes by itself. A lost packet is one that is never executed or never received. */
  datatype NetStep = Drive(e: Step) | Execute(t: Tx) | Drift(a: nat, x: Word)

  ghost predicate Sends(s: St, top: Top)
    requires WF(s) && |top.oc| == |s.slots|
  {
    s.current == Error || s.current == Idle || HandleSend(s, top.oc, top.due).res.Go?
  }

  /** A step in which nothing fails: every packet is a reply of the device younger than 2^24 send
      attempts, no deadline passes, no reset is due, nothing throws. */
  ghost predicate Regular(n: Net, e: Step) {
    && Enabled(n.y, e)
    && match e
       case Received(packets, now, rom, top) =>
         var o := Receive(n.y.s, packets, now, rom);
         && FromDevice(packets, n.v, n.y.s.sendSeq)
         && ProcessAll(n.y.s, packets).Go? && !Resetting(HandleTimeout(ProcessAll(n.y.s, packets).s, 0, now))
         && o.res.Go?
         && (!o.connecting ==> |o.res.s.slots| == |top.oc| && Sends(o.res.s, top))
       case PollFailed(top) => false
       case Connected(ok, top) => ok && Sends(n.y.s.(current := Running), top)
       case _ => true
  }

  predicate Resetting(s: St) {
    s.resetReq || s.errorReq
  }

  /** Reads none of whose words has been handed to a message begin now. */
  function Begin(regs: seq<Reg>, v: Env): Env {
    v.(since := BeginAt(regs, v.since, Now(v)))
  }

  function Now(v: Env): nat {
    if v.log == [] then 0 else |v.log| - 1
  }

  predicate ReadWaits(regs: seq<Reg>, k: RegRef) {
    k < |regs| && regs[k].state == Reading && regs[k].nextSend == 0
  }

  function BeginAt(regs: seq<Reg>, since: map<RegRef, nat>, now: nat): map<RegRef, nat> {
    map k | k in since.Keys + (set h | 0 <= h < |regs| && ReadWaits(regs, h)) :: if ReadWaits(regs, k) then now else since[k]
  }

  function TopEnv(s: St, v: Env, top: Top): Env
    requires WF(s) && |top.oc| == |s.slots|
  {
    if s.current == Error || s.current == Idle then v else Requested(Begin(s.regs, v), HandleSend(s, top.oc, top.due).out)
  }

  /** What a regular step of the driver means for the world around it. */
  function DriveEnv(n: Net, e: Step): Env
    requires Regular(n, e)
  {
    match e
    case Received(packets, now, rom, top) =>
      var o := Receive(n.y.s, packets, now, rom);
      if o.connecting then Mapped(n.v, o.res.s.regs) else TopEnv(o.res.s, n.v, top)
    case Connected(ok, top) => TopEnv(n.y.s.(current := Running), n.v, top)
    case Request(k, write, action) => if Queue(n.y.s, k, write, action).Go? then QueueEnv(n.y.s, n.v, k, write) else n.v
    case Store(k, tx) => Unsynced(n.v, k)
    case _ => n.v
  }

  ghost predicate NetEnabled(n: Net, e: NetStep) {
    match e
    case Drive(d) => Regular(n, d)
    case Execute(t) => t in n.v.reqs && ValidMemory(n.v.mem)
    case Drift(a, x) => a in n.v.mem && !Writable(n.y.s.regs, a)
  }

  function NetNext(n: Net, e: NetStep): Net
    requires NetEnabled(n, e)
  {
    match e
    case Drive(d) => Net(Next(n.y, d), DriveEnv(n, d))
    case Execute(t) => n.(v := Executed(n.v, t))
    case Drift(a, x) => n.(v := Drifted(n.v, a, x))
  }

  /** A connection begins: a clean driver, no request under way, nothing written or read yet;
      replies of earlier connections may still turn up. */
  ghost predicate NetStart(n: Net) {
    && CleanReset(n.y.s) && AloneIs(n.y.s.regs, n.v) && History(n.v)
    && n.v.reqs == {} && n.v.synced == {} && n.v.since == map[]
    && forall t | t in n.v.replies :: ReplyId(t, n.y.s.slots, n.y.s.sendSeq)
  }

  ghost predicate IsNetRun(trace: seq<Net>, steps: seq<NetStep>) {
    && |trace| == |steps| + 1 && NetStart(trace[0])
    && forall x | 0 <= x < |steps| :: NetEnabled(trace[x], steps[x]) && trace[x + 1] == NetNext(trace[x], steps[x])
  }

  ghost predicate NetInv(n: Net) {
    E2E(n.y.s, n.v) && ReadsBegun(n.y.s.regs, n.v)
  }

  /* ---- the start ---- */

  lemma CleanReg(s: St, k: RegRef)
    requires CleanReset(s) && k < |s.regs|
    ensures RegOk(s.regs[k])
  {
    assert |Waiting(s.regs[k])| == |s.regs[k].recInprog| + |s.regs[k].recWrite| + |s.regs[k].recRead|;
  }

  lemma StartInv(n: Net)
    requires NetStart(n)
    ensures NetInv(n)
  {
    hide RegOk, AloneIs, History;
    var s := n.y.s;
    forall k | 0 <= k < |s.regs| ensures RegOk(s.regs[k]) { CleanReg(s, k); }
    assert Inv(s) by { IdleInv(s); }
    forall i, j, k, w ensures !Holds(s.slots, i, j, k, w) {
    }
    forall k | 0 <= k < |s.regs| ensures TxClaim(s.regs[k], k, n.v) && RxClaim(s.regs[k], k, n.v) {
      assert s.regs[k].state == Invalid;
    }
  }

  /** The world when a connection begins: requests under way are gone, replies are not. */
  function Restarted(v: Env, regs: seq<Reg>): Env {
    Mapped(v.(reqs := {}, synced := {}, since := map[]), regs)
  }

  lemma AloneMapped(regs: seq<Reg>, v: Env)
    ensures AloneIs(regs, Mapped(v, regs))
  {
  }

  /** A driver just constructed is such a beginning, with any device. */
  lemma FirstStarts(y: Sys, v: Env)
    requires Initial(y) && History(v) && v.replies == {}
    ensures NetStart(Net(y, Restarted(v, y.s.regs)))
  {
    hide AloneIs, AloneSet;
    AloneMapped(y.s.regs, v.(reqs := {}, synced := {}, since := map[]));
    forall k | 0 <= k < BOOTSTRAP ensures Waiting(y.s.regs[k]) == [] {
    }
  }

  /** What has been sent does not matter to the driver. */
  lemma SentAside(y: Sys, e: Step)
    requires Enabled(y, e)
    ensures Enabled(y.(out := []), e) && Next(y.(out := []), e).s == Next(y, e).s
  {
    hide Receive, LoopTop, Queue, SyncOn, Reg.Valid, Msg.Valid;
  }

  /** So is every clean reset that a step of the driver leads to, with the replies of the stretch
      before it kept: stretches without a reset compose. */
  lemma ResetStarts(n: Net, e: Step)
    requires NetInv(n) && Enabled(n.y, e) && CleanReset(Next(n.y, e).s)
    ensures NetStart(Net(Next(n.y, e), Restarted(n.v, Next(n.y, e).s.regs)))
  {
    hide AloneIs, AloneSet, RegClaims, DataClaims, ReplyClaims, History, Inv, Next;
    var y' := Next(n.y, e);
    AloneMapped(y'.s.regs, n.v.(reqs := {}, synced := {}, since := map[]));
    assert History(Restarted(n.v, y'.s.regs)) by { HistoryEnv(n.v, Restarted(n.v, y'.s.regs)); }
    assert SeqOk(n.y.s, []);
    SentAside(n.y, e);
    NextSeq(n.y.(out := []), e);
    forall t | t in n.v.replies ensures ReplyId(t, y'.s.slots, y'.s.sendSeq) {
      assert ReplyId(t, n.y.s.slots, n.y.s.sendSeq);
    }
  }

  /** Whatever registers the map of the device has, overlapping or not, connecting with it is a
      regular step. */
  lemma AnyMapConnects(n: Net, infos: seq<Info>, now: int, top: Top)
    requires NetInv(n) && n.y.phase == Polling && ValidMap(Registers(infos)) && |top.oc| == |n.y.s.slots|
    requires n.y.s.current == Inspecting && n.y.s.regs[REG_ROM2].state == InSync && n.y.s.regs[REG_ROM16].state == InSync
    requires !Resetting(n.y.s) && forall i | 0 <= i < |n.y.s.slots| && n.y.s.slots[i].state == Sent :: n.y.s.slots[i].due > now
    ensures Regular(n, Received([], now, Registers(infos), top))
    ensures Next(n.y, Received([], now, Registers(infos), top)) == Sys(n.y.s.(regs := AddRegs(n.y.s.regs, infos)), Connecting, n.y.accepted, n.y.completed, n.y.out)
  {
    hide E2E, ReadsBegun, AddRegs, FromDevice, Reg.Valid, Msg.Valid;
    assert WF(n.y.s) by { E2EWF(n.y.s, n.v); }
    NoneDue(n.y.s, 0, now);
    assert FromDevice([], n.v, n.y.s.sendSeq) by { NoPackets(n.v, n.y.s.sendSeq); }
  }

  lemma NoPackets(v: Env, sendSeq: nat)
    ensures FromDevice([], v, sendSeq)
  {
  }

  lemma {:induction false} NoneDue(s: St, i: nat, now: int)
    requires WF(s) && i <= |s.slots| && forall x | 0 <= x < |s.slots| && s.slots[x].state == Sent :: s.slots[x].due > now
    ensures HandleTimeout(s, i, now) == s
    decreases |s.slots| - i
  {
    if i < |s.slots| {
      NoneDue(s, i + 1, now);
    }
  }

  /* ---- reads begin ---- */

  lemma BeginReg(regs: seq<Reg>, k: RegRef, v: Env)
    requires k < |regs| && RegOk(regs[k]) && TxClaim(regs[k], k, v) && RxClaim(regs[k], k, v)
    ensures TxClaim(regs[k], k, Begin(regs, v)) && RxClaim(regs[k], k, Begin(regs, v))
  {
    var r := regs[k];
    var v' := Begin(regs, v);
    if !ReadWaits(regs, k) {
      forall o | 0 <= o < |r.received| ensures ReadOk(r, k, v, o) <==> ReadOk(r, k, v', o) {
      }
    }
  }

  lemma BeginWords(regs: seq<Reg>, slots: seq<Msg>, v: Env)
    requires WordsOk(regs, slots) && DataClaims(regs, slots, v) && ReplyClaims(regs, slots, v)
    ensures DataClaims(regs, slots, Begin(regs, v)) && ReplyClaims(regs, slots, Begin(regs, v))
  {
    var v' := Begin(regs, v);
    DataEnv(regs, slots, v, v');
    forall t, j, k, w | t in v'.replies && Current(slots, t) && Holds(slots, t.slot, j, k, w)
      ensures Echoes(t, j, w) && 0 <= k < |regs| && (regs[k].state == Reading ==> k in v'.since)
        && Answered(regs[k], k, w, DataAt(slots, t.slot, j), t.words[2 * j + 3], v')
    {
      assert WordOk(regs[k], w);
      assert Answered(regs[k], k, w, DataAt(slots, t.slot, j), t.words[2 * j + 3], v);
    }
  }

  lemma BeginStep(s: St, v: Env)
    requires Claims(s, v)
    ensures Claims(s, Begin(s.regs, v))
  {
    hide SendOk, Unique, Covered, DataClaims, ReplyClaims, Ids, AloneIs, TxClaim, RxClaim, RegOk, WordsOk;
    forall k | 0 <= k < |s.regs| ensures TxClaim(s.regs[k], k, Begin(s.regs, v)) && RxClaim(s.regs[k], k, Begin(s.regs, v)) {
      BeginReg(s.regs, k, v);
    }
    BeginWords(s.regs, s.slots, v);
    IdsEnv(s.slots, s.sendSeq, v, Begin(s.regs, v));
    AloneEnv(s.regs, v, Begin(s.regs, v));
  }

  /** After that every register being read has a beginning. */
  lemma BeginAll(regs: seq<Reg>, v: Env)
    requires ReadsBegun(regs, v) && |v.log| > 0
    ensures var v' := Begin(regs, v);
      && (forall k | 0 <= k < |regs| && regs[k].state == Reading :: k in v'.since)
      && (forall k | k in v'.since :: v'.since[k] < |v'.log|)
  {
  }

  /* ---- the worker ---- */

  /** Sending changes nothing about a register but how far it has been sent. */
  predicate SameButSent(r: Reg, r': Reg) {
    r' == r.(nextSend := r'.nextSend)
  }

  ghost predicate AllSameButSent(regs: seq<Reg>, regs': seq<Reg>) {
    |regs'| == |regs| && forall k | 0 <= k < |regs| :: SameButSent(regs[k], regs'[k])
  }

  lemma {:induction false} LoadSlotRegs(s: St, i: nat, j: nat)
    requires WF(s) && i < |s.slots| && j <= NREG && s.slots[i].state != Sent
    requires 0 < j ==> s.slots[i].reg[j - 1].Some?
    ensures AllSameButSent(s.regs, LoadSlot(s, i, j).regs) && LoadSlot(s, i, j).records == s.records
    decreases NREG - j
  {
    hide Reg.Valid, LoadWord, AllSameButSent;
    if j == NREG || !FrontHasWord(s) {
      SentSame(s.regs);
    } else if s.slots[i].reg[j].Some? {
      LoadSlotRegs(s, i, j + 1);
    } else {
      LoadWordRegs(s, i, j);
      LoadSlotRegs(LoadWord(s, i, j), i, j + 1);
      SentTwice(s.regs, LoadWord(s, i, j).regs, LoadSlot(s, i, j).regs);
    }
  }

  lemma SentSame(regs: seq<Reg>)
    ensures AllSameButSent(regs, regs)
  {
  }

  lemma SentTwice(a: seq<Reg>, b: seq<Reg>, c: seq<Reg>)
    requires AllSameButSent(a, b) && AllSameButSent(b, c)
    ensures AllSameButSent(a, c)
  {
  }

  lemma LoadWordRegs(s: St, i: nat, j: nat)
    requires WF(s) && CanLoad(s, i, j) && FrontHasWord(s)
    ensures AllSameButSent(s.regs, LoadWord(s, i, j).regs) && LoadWord(s, i, j).records == s.records
  {
    hide Reg.Valid, Msg.Valid;
  }

  lemma {:induction false} LoadPassRegs(s: St, i: nat)
    requires WF(s) && i <= |s.slots|
    ensures AllSameButSent(s.regs, LoadPass(s, i).regs) && LoadPass(s, i).records == s.records
    decreases |s.slots| - i
  {
    hide LoadSlot, WF;
    if i == |s.slots| || !FrontHasWord(s) {
    } else if s.slots[i].state == Sent {
      LoadPassRegs(s, i + 1);
    } else {
      LoadSlotRegs(s, i, 0);
      LoadPassRegs(MarkReady(LoadSlot(s, i, 0), i), i + 1);
    }
  }

  lemma HandleSendRegs(s: St, oc: seq<Outcome>, due: int)
    requires WF(s) && |oc| == |s.slots|
    ensures AllSameButSent(s.regs, HandleSend(s, oc, due).res.s.regs) && HandleSend(s, oc, due).res.s.records == s.records
  {
    LoadPassRegs(s, 0);
    SendPassRegs(LoadPass(s, 0), 0, oc, due);
  }

  /** The loop top, when it does not throw. */
  lemma TopStep(s: St, v: Env, top: Top)
    requires WF(s) && E2E(s, v) && ReadsBegun(s.regs, v) && |top.oc| == |s.slots| && Sends(s, top)
    ensures E2E(LoopTop(s, top).s, TopEnv(s, v, top)) && ReadsBegun(LoopTop(s, top).s.regs, TopEnv(s, v, top))
  {
    hide Claims, MsgsOk, HandleSend, WF;
    assert |v.log| > 0 by { ClaimsLog(s, v); }
    if s.current == Error || s.current == Idle {
      ClaimsSame(s, LoopTop(s, top).s, v);
    } else {
      var h := HandleSend(s, top.oc, top.due);
      var v1 := Begin(s.regs, v);
      BeginStep(s, v);
      BeginAll(s.regs, v);
      HandleSendStep(s, v1, top.oc, top.due);
      HandleSendRegs(s, top.oc, top.due);
      ClaimsSame(h.res.s, LoopTop(s, top).s, Requested(v1, h.out));
    }
  }

  lemma ClaimsLog(s: St, v: Env)
    requires Claims(s, v)
    ensures |v.log| > 0
  {
  }

  /** Replies and the connection start no read that has sent anything. */
  ghost predicate NoneBegun(regs: seq<Reg>, regs': seq<Reg>) {
    |regs| <= |regs'| && forall k | 0 <= k < |regs'| && regs'[k].state == Reading && regs'[k].nextSend > 0 ::
      k < |regs| && regs[k].state == Reading && regs[k].nextSend > 0
  }

  lemma NoneBegunStep(regs: seq<Reg>, regs': seq<Reg>, v: Env)
    requires ReadsBegun(regs, v) && NoneBegun(regs, regs')
    ensures ReadsBegun(regs', v)
  {
  }

  lemma LaterNone(regs: seq<Reg>, regs': seq<Reg>)
    requires AllLater(regs, regs')
    ensures NoneBegun(regs, regs')
  {
    forall k | 0 <= k < |regs'| && regs'[k].state == Reading && regs'[k].nextSend > 0 ensures regs[k].state == Reading && regs[k].nextSend > 0 {
      assert Later(regs[k], regs'[k]);
    }
  }

  lemma MergedSame(r: Reg, write: bool, action: Option<Action>)
    requires r.Valid()
    ensures var r' := Merged(r, write, action);
      && r'.nextSend == r.nextSend && r'.state == r.state && r'.memTx == r.memTx && r'.memRx == r.memRx
  {
  }

  lemma QueueNone(s: St, k: RegRef, write: bool, action: Option<Action>)
    requires WF(s) && k < |s.regs|
    ensures NoneBegun(s.regs, Queue(s, k, write, action).s.regs)
  {
    hide WF, Reg.Valid, Merged;
    assert s.regs[k].Valid() by { WFReg(s, k); }
    assert Merged(s.regs[k], write, action).nextSend == s.regs[k].nextSend && Merged(s.regs[k], write, action).state == s.regs[k].state by { MergedSame(s.regs[k], write, action); }
  }

  lemma HandleStateNone(s: St, rom: RomMap)
    requires WF(s) && ValidMap(rom) && !Resetting(s)
    ensures NoneBegun(s.regs, HandleState(s, rom).res.s.regs)
  {
    hide Queue, AddRegs, NoneBegun, Reg.Valid, Msg.Valid;
    var s1 := Queue(s, REG_ROM2, false, None).s;
    var s2 := Queue(s1, REG_ROM16, false, None).s;
    QueueNone(s, REG_ROM2, false, None);
    QueueNone(s1, REG_ROM16, false, None);
    QueueNone(s, REG_ID, false, None);
    NoneBegunOn(s.regs, s1.regs, s2.regs);
    NoneBegunAdded(s.regs, rom);
  }

  lemma NoneBegunOn(a: seq<Reg>, b: seq<Reg>, c: seq<Reg>)
    requires NoneBegun(a, b) && NoneBegun(b, c)
    ensures NoneBegun(a, c)
  {
  }

  lemma NoneBegunAdded(regs: seq<Reg>, rom: RomMap)
    requires ValidMap(rom)
    ensures NoneBegun(regs, regs) && (rom.Registers? ==> NoneBegun(regs, AddRegs(regs, rom.infos)))
  {
  }

  lemma MsgsSame(s: St, s': St, v: Env, v': Env)
    requires E2E(s, v) && Claims(s', v') && s'.slots == s.slots
    ensures E2E(s', v')
  {
  }

  lemma ReceiveStep(n: Net, packets: seq<seq<Word>>, now: int, rom: RomMap, top: Top)
    requires NetInv(n) && Regular(n, Received(packets, now, rom, top))
    ensures var o := Receive(n.y.s, packets, now, rom);
      E2E(o.res.s, StateEnv(n.v, o)) && ReadsBegun(o.res.s.regs, StateEnv(n.v, o))
  {
    hide Claims, MsgsOk, WF, ProcessAll, HandleTimeout, HandleState, FromDevice, ReadsBegun, NoneBegun, AloneSet;
    var s := n.y.s;
    var p := ProcessAll(s, packets);
    PacketsStep(s, n.v, packets);
    PacketsLater(s, n.v, packets);
    NothingDue(p.s, 0, now);
    HandleStateStep(p.s, n.v, rom);
    var o := HandleState(p.s, rom);
    MsgsSame(p.s, o.res.s, n.v, StateEnv(n.v, o));
    LaterNone(s.regs, p.s.regs);
    NoneBegunStep(s.regs, p.s.regs, n.v);
    HandleStateNone(p.s, rom);
    NoneBegunStep(p.s.regs, o.res.s.regs, n.v);
    BegunEnv(o.res.s.regs, n.v, StateEnv(n.v, o));
  }

  /* ---- records ---- */

  lemma {:induction false} SyncRegs(s: St, x: nat, action: Action)
    requires WF(s) && x <= |s.send|
    ensures var s' := SyncOn(s, x, action);
      && s'.slots == s.slots && |s'.regs| == |s.regs|
      && forall k | 0 <= k < |s.regs| :: s'.regs[k] == s.regs[k].(recInprog := s'.regs[k].recInprog)
    decreases |s.send| - x
  {
    hide Msg.Valid;
    if x < |s.send| {
      var r := s.regs[s.send[x]];
      SyncRegs(SetReg(s, s.send[x], r.(recInprog := r.recInprog + [action])), x + 1, action);
    }
  }

  /** ReadsBegun looks only at the log and the beginnings. */
  lemma BegunEnv(regs: seq<Reg>, v: Env, v': Env)
    requires ReadsBegun(regs, v) && v'.since == v.since && v'.log == v.log
    ensures ReadsBegun(regs, v')
  {
  }

  lemma RecordStep(n: Net, e: Step)
    requires NetInv(n) && Regular(n, e) && !e.Received? && !e.Connected?
    ensures NetInv(Net(Next(n.y, e), DriveEnv(n, e)))
  {
    hide Claims, MsgsOk, WF, Queue, SyncOn, ReadsBegun, NoneBegun;
    var s := n.y.s;
    var s' := Next(n.y, e).s;
    assert WF(s) by { E2EWF(s, n.v); }
    match e {
      case Request(k, write, action) =>
        QueueStep(s, n.v, k, write, action);
        QueueNone(s, k, write, action);
      case Store(k, tx) =>
        StoreStep(s, n.v, k, tx);
        assert NoneBegun(s.regs, s'.regs) by { StoreNone(s.regs, k, tx); }
      case Sync(action) =>
        SyncStep(s, n.v, 0, action);
        assert s'.slots == s.slots && NoneBegun(s.regs, s'.regs) by { SyncNone(s, action); }
      case _ =>
        ClaimsSame(s, s', n.v);
        NoneBegunSame(s.regs);
    }
    NoneBegunStep(s.regs, s'.regs, n.v);
    BegunEnv(s'.regs, n.v, DriveEnv(n, e));
  }

  lemma NoneBegunSame(regs: seq<Reg>)
    ensures NoneBegun(regs, regs)
  {
  }

  lemma StoreNone(regs: seq<Reg>, k: RegRef, tx: seq<Word>)
    requires k < |regs|
    ensures NoneBegun(regs, regs[k := regs[k].(memTx := tx)])
  {
  }

  lemma SyncNone(s: St, action: Action)
    requires WF(s)
    ensures var s' := if Active(s) then SyncOn(s, 0, action) else s;
      s'.slots == s.slots && NoneBegun(s.regs, s'.regs)
  {
    SyncRegs(s, 0, action);
  }

  lemma DriveStep(n: Net, e: Step)
    requires NetInv(n) && Regular(n, e)
    ensures NetInv(Net(Next(n.y, e), DriveEnv(n, e)))
  {
    hide Claims, MsgsOk, Reg.Valid, Msg.Valid, Receive, LoopTop, TopEnv, FromDevice, ReadsBegun, Sends;
    match e {
      case Received(packets, now, rom, top) =>
        ReceiveStep(n, packets, now, rom, top);
        var o := Receive(n.y.s, packets, now, rom);
        if !o.connecting {
          TopStep(o.res.s, n.v, top);
        }
      case Connected(ok, top) =>
        ClaimsSame(n.y.s, n.y.s.(current := Running), n.v);
        TopStep(n.y.s.(current := Running), n.v, top);
      case _ =>
        RecordStep(n, e);
    }
  }

  lemma NetStepInv(n: Net, e: NetStep)
    requires NetInv(n) && NetEnabled(n, e)
    ensures NetInv(NetNext(n, e))
  {
    hide E2E, ReadsBegun, Regular, DriveEnv, Executed, Drifted, Writable;
    match e {
      case Drive(d) => DriveStep(n, d);
      case Execute(t) => ExecuteStep(n.y.s, n.v, t);
      case Drift(a, x) => DriftStep(n.y.s, n.v, a, x);
    }
  }

  lemma NetRunStart(trace: seq<Net>, steps: seq<NetStep>)
    requires IsNetRun(trace, steps)
    ensures |trace| == |steps| + 1 && NetStart(trace[0]) && trace[0].v.synced == {}
  {
  }

  lemma NetRunStep(trace: seq<Net>, steps: seq<NetStep>, x: nat)
    requires IsNetRun(trace, steps) && x < |steps|
    ensures |trace| == |steps| + 1 && NetEnabled(trace[x], steps[x]) && trace[x + 1] == NetNext(trace[x], steps[x])
  {
  }

  /** The end-to-end invariant holds at every point of every run. */
  lemma {:induction false} NetRunInv(trace: seq<Net>, steps: seq<NetStep>, x: nat)
    requires IsNetRun(trace, steps) && x < |trace|
    ensures NetInv(trace[x])
  {
    hide IsNetRun, NetStart, NetInv, NetEnabled, NetNext;
    NetRunStart(trace, steps);
    if x == 0 {
      StartInv(trace[0]);
    } else {
      NetRunInv(trace, steps, x - 1);
      NetRunStep(trace, steps, x - 1);
      NetStepInv(trace[x - 1], steps[x - 1]);
    }
  }
}
