/** The worker loop and the records around it, as a machine of atomic steps: one step of the
    worker runs from one release of the lock to the next, a step of a record is one locked call.
 */
module Worker {
  import opened EngineState
  import opened Partition
  import opened Conservation

  /** Where the worker waits without the lock: in poll(), or in handle_inspect's callbacks. */
  datatype Phase = Polling | Connecting

  /** The environment's choices for one pass of the loop top: the outcome of each sendto(), for
      a second pass too when the first one throws, and the deadline of what is sent. */
  datatype Top = Top(oc: seq<Outcome>, due: int)

  datatype TopRes = TopRes(s: St, completed: seq<Action>, out: seq<Tx>)

  /** The head of the loop: send unless in Error or Idle, then take the actions to complete. */
  function LoopTop(s: St, top: Top): (o: TopRes)
    requires WF(s) && |top.oc| == |s.slots|
    ensures WF(o.s)
  {
    if s.current == Error || s.current == Idle then TopRes(s.(records := []), s.records, [])
    else
      var h := HandleSend(s, top.oc, top.due);
      var s1 := if h.res.Threw? then Caught(h.res.s) else h.res.s;
      TopRes(s1.(records := []), s1.records, h.out)
  }

  datatype Step =
    // the worker: poll() returned packets; poll() or a socket failed; the callbacks returned or threw
    | Received(packets: seq<seq<Word>>, now: int, rom: RomMap, top: Top)
    | PollFailed(top: Top)
    | Connected(ok: bool, top: Top)
    // records: a register operation (with new contents for the send cache), the sync record,
    // the address record and the force-error record
    | Request(k: RegRef, write: bool, action: Option<Action>)
    | Store(k: RegRef, tx: seq<Word>)
    | Sync(info: Action)
    | SetAddress(named: bool)
    | ForceError

  /** The system: engine, phase of the worker, and what has been accepted and completed so far. */
  datatype Sys = Sys(s: St, phase: Phase, accepted: seq<Action>, completed: seq<Action>, out: seq<Tx>)

  ghost predicate Enabled(y: Sys, e: Step) {
    && WF(y.s)
    && match e
       case Received(p, now, rom, top) => y.phase == Polling && ValidMap(rom) && |top.oc| == |y.s.slots|
       case PollFailed(top) => y.phase == Polling && |top.oc| == |y.s.slots|
       case Connected(ok, top) => y.phase == Connecting && |top.oc| == |y.s.slots|
       case Request(k, write, action) => k < |y.s.regs|
       case Store(k, tx) => k < |y.s.regs| && |tx| == y.s.regs[k].info.size
       case Sync(action) => true
       case SetAddress(named) => true
       case ForceError => true
  }

  /** read_sync: one registration with every queued register. */
  function SyncOn(s: St, x: nat, action: Action): (s': St)
    requires WF(s) && x <= |s.send|
    ensures WF(s') && s'.send == s.send && |s'.slots| == |s.slots|
    decreases |s.send| - x
  {
    if x == |s.send| then s
    else
      var r := s.regs[s.send[x]];
      SyncOn(SetReg(s, s.send[x], r.(recInprog := r.recInprog + [action])), x + 1, action)
  }

  function Copies(n: nat, a: Action): seq<Action> {
    seq(n, _ => a)
  }

  function Resume(y: Sys, s: St, top: Top): (y': Sys)
    requires WF(s) && |top.oc| == |s.slots|
    ensures WF(y'.s)
  {
    var t := LoopTop(s, top);
    Sys(t.s, Polling, y.accepted, y.completed + t.completed, y.out + t.out)
  }

  lemma ReceiveFrame(s: St, packets: seq<seq<Word>>, now: int, rom: RomMap)
    requires WF(s) && ValidMap(rom)
    ensures |Receive(s, packets, now, rom).res.s.slots| == |s.slots|
  {
  }

  function Next(y: Sys, e: Step): (y': Sys)
    requires Enabled(y, e)
    ensures WF(y'.s)
  {
    match e
    case Received(packets, now, rom, top) =>
      ReceiveFrame(y.s, packets, now, rom);
      var o := Receive(y.s, packets, now, rom);
      if o.res.Threw? then Resume(y, Caught(o.res.s), top)
      else if o.connecting then y.(s := o.res.s, phase := Connecting)
      else Resume(y, o.res.s, top)
    case PollFailed(top) => Resume(y, Caught(y.s), top)
    case Connected(ok, top) => Resume(y, if ok then y.s.(current := Running) else Caught(y.s), top)
    case Request(k, write, action) =>
      var o := Queue(y.s, k, write, action);
      y.(s := o.s, accepted := y.accepted + if o.Go? then OptSeq(action) else [])
    case Store(k, tx) => y.(s := SetReg(y.s, k, y.s.regs[k].(memTx := tx)))
    case Sync(action) =>
      if Active(y.s) then y.(s := SyncOn(y.s, 0, action), accepted := y.accepted + Copies(|y.s.send|, action)) else y
    case SetAddress(named) => y.(s := y.s.(resetReq := true, peerNamed := named))
    case ForceError => y.(s := y.s.(errorReq := true))
  }
}
