/** The sync record: it registers with every queued register and resumes when all of those have
    handed it back. */
module Barrier {
  import opened EngineState
  import opened Partition
  import opened Conservation
  import opened Worker
  import opened Safety
  import opened Connection
  import opened Progress
  import opened Driver

  /** What SyncInfo and its record keep; errors counts the complaint about too many completes. */
  datatype Rec = Rec(waitFor: nat, pact: bool, val: nat, errors: nat)

  /** A step of read_sync or complete: the record, and whether it registers with the queued registers. */
  datatype RecStep = RecStep(r: Rec, registers: bool)

  // read_sync
  function Processed(r: Rec, s: St): RecStep {
    if !r.pact && Active(s) then RecStep(r.(waitFor := |s.send|, pact := s.send != []), true)
    else RecStep(r.(waitFor := 0, pact := false, val := r.val + 1), false)
  }

  // RecInfo::complete
  function Resumed(r: Rec, s: St): RecStep {
    if r.pact then Processed(r, s) else RecStep(r, false)
  }

  // SyncInfo::complete
  function Counted(r: Rec, s: St): RecStep {
    if r.waitFor == 0 then Resumed(r.(errors := r.errors + 1), s)
    else if r.waitFor > 1 then RecStep(r.(waitFor := r.waitFor - 1), false)
    else Resumed(r.(waitFor := 0), s)
  }

  /** The record object. */
  class SyncInfo {
    var waitFor: nat
    var pact: bool
    var val: nat
    var errors: nat
    const action: Action

    ghost function Value(): Rec
      reads this
    {
      Rec(waitFor, pact, val, errors)
    }

    method ReadSync(d: Device)
      requires d.Valid()
      modifies this, d`st, d.regs
      ensures d.Valid()
      ensures var o := Processed(old(Value()), old(d.st));
        Value() == o.r && d.st == (if o.registers then SyncOn(old(d.st), 0, action) else old(d.st))
    {
      hide Device.Tables, WF, SyncOn;
      if !pact && (d.current == Inspecting || d.current == Running) {
        waitFor := d.Sync(action);
        if waitFor > 0 {
          pact := true;
        }
      } else {
        waitFor := 0;
        pact := false;
        val := val + 1;
      }
    }

    method Complete(d: Device)
      requires d.Valid()
      modifies this, d`st, d.regs
      ensures d.Valid()
      ensures var o := Counted(old(Value()), old(d.st));
        Value() == o.r && d.st == (if o.registers then SyncOn(old(d.st), 0, action) else old(d.st))
    {
      var done := true;
      if waitFor == 0 {
        errors := errors + 1;
      } else {
        waitFor := waitFor - 1;
        if waitFor != 0 {
          done := false;
        }
      }
      if done && pact {
        ReadSync(d);
      }
    }
  }

  /* ---- the record among everything else ---- */

  /** The system with one sync record; called counts the calls of complete() owed to it so far,
      named says that its link has a register name, which is what enters a record into the list
      the worker sweeps, afterReset is the worker's flag, and due says that the worker has found
      its condition for a sweep true and has not swept yet. */
  datatype Sync = Sync(y: Sys, r: Rec, called: nat, named: bool, afterReset: bool, due: bool)

  /** Anything else happens; the record is processed; the worker calls complete() for one action
      it took; the worker calls complete() on every named record. */
  datatype SyncStep = Other(e: Step) | Process | Completion | Sweep

  predicate IsWorker(e: Step) {
    e.Received? || e.PollFailed? || e.Connected?
  }

  /** Does the step of the worker go through reset()? */
  predicate Resets(y: Sys, e: Step)
    requires Enabled(y, e)
  {
    match e
    case Received(packets, now, rom, top) =>
      ReceiveFrame(y.s, packets, now, rom);
      var o := Receive(y.s, packets, now, rom);
      var p := ProcessAll(y.s, packets);
      || o.res.Threw?
      || (p.Go? && (HandleTimeout(p.s, 0, now).resetReq || HandleTimeout(p.s, 0, now).errorReq))
      || (!o.connecting && TopThrows(o.res.s, top))
    case PollFailed(top) => true
    case Connected(ok, top) => !ok || TopThrows(y.s.(current := Running), top)
    case _ => false
  }

  predicate Mentions(e: Step, a: Action) {
    (e.Request? && e.action == Some(a)) || (e.Sync? && e.info == a)
  }

  ghost predicate SyncEnabled(b: Sync, e: SyncStep, a: Action) {
    && WF(b.y.s)
    && match e
       case Other(d) => Enabled(b.y, d) && !Mentions(d, a) && (IsWorker(d) ==> b.called == Times(a, b.y.completed) && !b.due)
       case Process => !b.r.pact
       case Completion => b.called < Times(a, b.y.completed)
       case Sweep => b.due
  }

  function Apply(b: Sync, o: RecStep, a: Action): Sync
    requires WF(b.y.s)
  {
    b.(r := o.r, y := if o.registers then Next(b.y, Step.Sync(a)) else b.y)
  }

  /** A step of the worker; a sweep is due when it ends in Error with nothing to complete, once
      after a reset. */
  function Polled(b: Sync, d: Step): Sync
    requires Enabled(b.y, d)
  {
    var y' := Next(b.y, d);
    var flag := b.afterReset || Resets(b.y, d);
    b.(y := y', afterReset := flag, due := flag && y'.phase == Polling && y'.s.current == Error && |y'.completed| == |b.y.completed|)
  }

  function SyncNext(b: Sync, e: SyncStep, a: Action): Sync
    requires SyncEnabled(b, e, a)
  {
    match e
    case Other(d) => if IsWorker(d) then Polled(b, d) else b.(y := Next(b.y, d))
    case Process => Apply(b, Processed(b.r, b.y.s), a)
    case Completion => Apply(b, Counted(b.r, b.y.s), a).(called := b.called + 1)
    case Sweep => (if b.named then Apply(b, Counted(b.r, b.y.s), a) else b).(afterReset := false, due := false)
  }

  ghost predicate SyncStart(b: Sync) {
    Initial(b.y) && b.r == Rec(0, false, 0, 0) && b.called == 0 && b.afterReset && !b.due
  }

  ghost predicate IsSyncRun(trace: seq<Sync>, steps: seq<SyncStep>, a: Action) {
    && |trace| == |steps| + 1 && SyncStart(trace[0])
    && forall x | 0 <= x < |steps| :: SyncEnabled(trace[x], steps[x], a) && trace[x + 1] == SyncNext(trace[x], steps[x], a)
  }

  /** The record waits exactly for what it is owed, and is owed nothing outside a connection. */
  ghost predicate SyncInv(b: Sync, a: Action) {
    && WF(b.y.s) && Conserved(b.y, a)
    && b.r.waitFor + b.called == Times(a, b.y.accepted) && b.called <= Times(a, b.y.completed)
    && (b.r.pact <==> b.r.waitFor > 0)
    && (!Active(b.y.s) ==> Owned(b.y.s, a) == 0)
    && (b.y.phase == Connecting ==> b.y.s.current == Inspecting)
    && (b.due ==> b.y.s.current == Error && b.afterReset && b.called == Times(a, b.y.completed))
  }

  /* ---- nothing is owed outside a connection ---- */

  lemma TopOwes(s: St, top: Top, a: Action)
    requires WF(s) && |top.oc| == |s.slots| && (Active(s) || CleanReset(s) || Owned(s, a) == 0)
    ensures var t := LoopTop(s, top); !Active(t.s) ==> Owned(t.s, a) == 0
  {
    hide HandleSend, Caught, CleanReset, Owned;
    LoopTopOwned(s, top, a);
    if CleanReset(s) {
      CleanTop(s, top);
      CleanOwns(s, a);
    } else if s.current != Error && s.current != Idle {
      var h := HandleSend(s, top.oc, top.due);
      if h.res.Threw? {
        CaughtClean(h.res.s);
        CleanOwns(Caught(h.res.s), a);
      }
    }
  }

  lemma ReceiveOwes(s: St, packets: seq<seq<Word>>, now: int, rom: RomMap, a: Action)
    requires WF(s) && ValidMap(rom) && (Active(s) || Owned(s, a) == 0)
    ensures var o := Receive(s, packets, now, rom);
      && (o.res.Go? ==> Active(o.res.s) || CleanReset(o.res.s) || Owned(o.res.s, a) == 0)
      && (o.connecting ==> o.res.Go? && o.res.s.current == Inspecting)
  {
    hide ProcessAll, HandleTimeout, Owned, CleanReset, Queue, Reset, AddRegs, WF;
    ReceiveOwned(s, packets, now, rom, a);
    var p := ProcessAll(s, packets);
    if p.Go? {
      var s2 := HandleTimeout(p.s, 0, now);
      ResetClean(s2, s2.errorReq);
      if !s2.resetReq && !s2.errorReq {
        StateStays(s2, rom);
      }
    }
  }

  lemma StateStays(s: St, rom: RomMap)
    requires WF(s) && ValidMap(rom) && !s.resetReq && !s.errorReq
    ensures var o := HandleState(s, rom);
      && (o.res.Go? && Active(s) ==> Active(o.res.s))
      && (o.connecting ==> o.res.Go? && o.res.s.current == Inspecting)
  {
    hide Queue, AddRegs, Reg.Valid, Msg.Valid;
  }

  lemma OtherOwes(b: Sync, d: Step, a: Action)
    requires SyncInv(b, a) && Enabled(b.y, d) && !Mentions(d, a)
    ensures var y' := Next(b.y, d);
      && (!Active(y'.s) ==> Owned(y'.s, a) == 0) && (y'.phase == Connecting ==> y'.s.current == Inspecting)
      && Times(a, y'.accepted) == Times(a, b.y.accepted) && Times(a, y'.completed) >= Times(a, b.y.completed)
      && b.y.completed <= y'.completed && (!IsWorker(d) ==> y'.s.current == b.y.s.current && y'.completed == b.y.completed)
  {
    hide Receive, LoopTop, Caught, Queue, SyncOn, Owned, CleanReset, Reg.Valid, Msg.Valid;
    match d {
      case Received(packets, now, rom, top) =>
        ReceiveFrame(b.y.s, packets, now, rom);
        ReceiveOwes(b.y.s, packets, now, rom, a);
        var o := Receive(b.y.s, packets, now, rom);
        CaughtFrame(o.res.s);
        CaughtClean(o.res.s);
        var s1 := if o.res.Threw? then Caught(o.res.s) else o.res.s;
        if !o.connecting {
          TopOwes(s1, top, a);
        }
        TimesConcat(a, b.y.completed, LoopTop(s1, top).completed);
      case PollFailed(top) =>
        CaughtFrame(b.y.s);
        CaughtClean(b.y.s);
        TopOwes(Caught(b.y.s), top, a);
        TimesConcat(a, b.y.completed, LoopTop(Caught(b.y.s), top).completed);
      case Connected(ok, top) =>
        CaughtFrame(b.y.s);
        CaughtClean(b.y.s);
        var s1 := if ok then b.y.s.(current := Running) else Caught(b.y.s);
        TopOwes(s1, top, a);
        TimesConcat(a, b.y.completed, LoopTop(s1, top).completed);
      case Request(k, write, action) =>
        QueueOwned(b.y.s, k, write, action, a);
        OptTimes(action, a);
        TimesConcat(a, b.y.accepted, OptSeq(action));
        assert b.y.accepted + [] == b.y.accepted;
      case Store(k, tx) =>
        assert b.y.s.regs[k].(memTx := tx).Valid() by { WFRegs(b.y.s, k, tx); }
        SetRegOwned(b.y.s, k, b.y.s.regs[k].(memTx := tx), a);
      case Sync(info) =>
        SyncOwned(b.y.s, 0, info, a);
        SyncFrame(b.y.s, 0, info);
        CopiesTimes(|b.y.s.send|, info, a);
        TimesConcat(a, b.y.accepted, Copies(|b.y.s.send|, info));
      case _ =>
        assert Owned(Next(b.y, d).s, a) == Owned(b.y.s, a) by { OwnedSame(b.y.s, Next(b.y, d).s, a); }
    }
  }

  lemma WFRegs(s: St, k: RegRef, tx: seq<Word>)
    requires WF(s) && k < |s.regs| && |tx| == s.regs[k].info.size
    ensures s.regs[k].(memTx := tx).Valid()
  {
  }

  lemma OwnedSame(s: St, s': St, a: Action)
    requires s'.regs == s.regs && s'.records == s.records
    ensures Owned(s', a) == Owned(s, a)
  {
  }

  /** Registering: as many new debts as there are queued registers. */
  lemma RegisterFacts(b: Sync, a: Action)
    requires SyncInv(b, a) && Active(b.y.s)
    ensures var y' := Next(b.y, Step.Sync(a));
      && WF(y'.s) && Active(y'.s) && y'.phase == b.y.phase && y'.completed == b.y.completed
      && y'.s.current == b.y.s.current && Conserved(y', a)
      && Times(a, y'.accepted) == Times(a, b.y.accepted) + |b.y.s.send|
  {
    hide Owned;
    NextConserved(b.y, Step.Sync(a), a);
    SyncFrame(b.y.s, 0, a);
    CopiesTimes(|b.y.s.send|, a, a);
    TimesConcat(a, b.y.accepted, Copies(|b.y.s.send|, a));
  }

  lemma SameLength(p: seq<Action>, q: seq<Action>)
    requires p <= q
    ensures |q| == |p| ==> q == p
  {
  }

  lemma SyncStepInv(b: Sync, e: SyncStep, a: Action)
    requires SyncInv(b, a) && SyncEnabled(b, e, a)
    ensures SyncInv(SyncNext(b, e, a), a)
  {
    hide Owned, Times, SyncOn, WF, Queue, Receive, LoopTop;
    match e {
      case Other(d) =>
        NextConserved(b.y, d, a);
        OtherOwes(b, d, a);
        SameLength(b.y.completed, Next(b.y, d).completed);
      case Process =>
        if Active(b.y.s) {
          RegisterFacts(b, a);
        }
      case Completion =>
      case Sweep =>
    }
  }

  lemma {:induction false} SyncRunInv(trace: seq<Sync>, steps: seq<SyncStep>, a: Action, x: nat)
    requires IsSyncRun(trace, steps, a) && x < |trace|
    ensures SyncInv(trace[x], a)
  {
    if x == 0 {
      StartOwes(trace[0], a);
    } else {
      SyncRunInv(trace, steps, a, x - 1);
      SyncStepInv(trace[x - 1], steps[x - 1], a);
    }
  }

  lemma StartOwes(b: Sync, a: Action)
    requires SyncStart(b)
    ensures SyncInv(b, a)
  {
    var r := b.y.s.regs;
    assert r == [r[0], r[1], r[2]];
    ThreeWaits(a, r[0], r[1], r[2]);
  }

  /** THE BARRIER THEOREM. In every run a call of complete() the record is owed finds it waiting
      and never reaches the complaint. The last of them, and only that one, resumes the record:
      by then no register and no list holds the record any more. */
  lemma BarrierResumes(trace: seq<Sync>, steps: seq<SyncStep>, a: Action, x: nat)
    requires IsSyncRun(trace, steps, a) && x < |steps| && steps[x].Completion?
    ensures var b, b' := trace[x], trace[x + 1];
      && b.r.pact && b.r.waitFor > 0 && b'.r.errors == b.r.errors
      && b.r.waitFor == Owned(b.y.s, a) + Times(a, b.y.completed) - b.called
      && (if b.r.waitFor == 1
          then !b'.r.pact && b'.r.val == b.r.val + 1 && Owned(b'.y.s, a) == 0 && b'.called == Times(a, b'.y.accepted)
          else b'.r.pact && b'.r.val == b.r.val && b'.r.waitFor == b.r.waitFor - 1)
  {
    hide Owned, Times, SyncOn, WF;
    SyncRunInv(trace, steps, a, x);
    SyncRunInv(trace, steps, a, x + 1);
  }

  predicate InConnection(c: Conn) {
    c == Inspecting || c == Running
  }

  /** A record that registers with n queued registers is owed n calls and suspends if n > 0. */
  lemma BarrierRegisters(trace: seq<Sync>, steps: seq<SyncStep>, a: Action, x: nat)
    requires IsSyncRun(trace, steps, a) && x < |steps| && steps[x].Process? && InConnection(trace[x].y.s.current)
    ensures var b, b' := trace[x], trace[x + 1];
      && b'.r.waitFor == |b.y.s.send| == Times(a, b'.y.accepted) - b'.called
      && (b'.r.pact <==> b.y.s.send != []) && b'.r.val == b.r.val
  {
    hide Owned, Times, SyncOn, WF;
    SyncRunInv(trace, steps, a, x);
    SyncRunInv(trace, steps, a, x + 1);
  }

  /** Outside a connection it passes at once, waiting for nothing. */
  lemma BarrierPasses(trace: seq<Sync>, steps: seq<SyncStep>, a: Action, x: nat)
    requires IsSyncRun(trace, steps, a) && x < |steps| && steps[x].Process? && !InConnection(trace[x].y.s.current)
    ensures var b, b' := trace[x], trace[x + 1];
      b'.y == b.y && b'.r == Rec(0, false, b.r.val + 1, b.r.errors)
  {
    hide Owned, Times, SyncOn, WF;
    SyncRunInv(trace, steps, a, x);
  }

  /* ---- too many completes ---- */

  function Sweeps(steps: seq<SyncStep>): nat {
    if steps == [] then 0 else Sweeps(steps[..|steps| - 1]) + if steps[|steps| - 1].Sweep? then 1 else 0
  }

  /** How often the first x steps of a run went through reset(). */
  ghost function ResetCount(trace: seq<Sync>, steps: seq<SyncStep>, x: nat): nat {
    if x == 0 || x > |steps| || x > |trace| then 0
    else ResetCount(trace, steps, x - 1) + if IsReset(trace[x - 1], steps[x - 1]) then 1 else 0
  }

  ghost predicate IsReset(b: Sync, e: SyncStep) {
    e.Other? && Enabled(b.y, e.e) && Resets(b.y, e.e)
  }

  lemma StepErrors(b: Sync, e: SyncStep, a: Action)
    requires SyncInv(b, a) && SyncEnabled(b, e, a)
    ensures var b' := SyncNext(b, e, a);
      && b'.r.errors == b.r.errors + (if e.Sweep? && b.named then 1 else 0) && b'.named == b.named
      && (e.Sweep? ==> b.afterReset && b'.r == b.r.(errors := b'.r.errors) && b'.y == b.y)
      && (if b'.afterReset then 1 else 0) + (if e.Sweep? then 1 else 0) <= (if b.afterReset then 1 else 0) + if IsReset(b, e) then 1 else 0
  {
    hide Owned, Times, SyncOn, WF, Next, Resets;
  }

  lemma StartErrors(b: Sync)
    requires SyncStart(b)
    ensures b.r.errors == 0 && b.afterReset
  {
  }

  /** The complaint is made once by every sweep if the record is named, and by nothing else; the
      worker sweeps at most once for every reset, the one of its constructor included. */
  lemma {:induction false} ErrorsAreSweeps(trace: seq<Sync>, steps: seq<SyncStep>, a: Action, x: nat)
    requires IsSyncRun(trace, steps, a) && x < |trace|
    ensures trace[x].named == trace[0].named
    ensures trace[x].r.errors == if trace[0].named then Sweeps(steps[..x]) else 0
    ensures Sweeps(steps[..x]) + (if trace[x].afterReset then 1 else 0) <= 1 + ResetCount(trace, steps, x)
  {
    hide SyncInv, SyncEnabled, SyncNext, IsReset;
    if x == 0 {
      StartErrors(trace[0]);
    } else {
      ErrorsAreSweeps(trace, steps, a, x - 1);
      SyncRunInv(trace, steps, a, x - 1);
      StepErrors(trace[x - 1], steps[x - 1], a);
      assert steps[..x][..x - 1] == steps[..x - 1];
    }
  }

  /** For a named record the complaint is reachable: force an error, let the worker run, and sweep. */
  lemma TooManyCompletes(b: Sync, top: Top, a: Action)
    requires SyncStart(b) && |top.oc| == |b.y.s.slots| && b.named
    ensures SyncEnabled(b, Other(ForceError), a)
    ensures var b1 := SyncNext(b, Other(ForceError), a);
      && SyncEnabled(b1, Other(Received([], 0, NoJson, top)), a)
      && var b2 := SyncNext(b1, Other(Received([], 0, NoJson, top)), a);
      && SyncEnabled(b2, Sweep, a) && SyncNext(b2, Sweep, a).r.errors == 1
  {
    hide SyncInv, SyncStart, Next, Resets, Reg.Valid, Msg.Valid;
    assert Initial(b.y) && b.afterReset && b.called == 0 && !b.due && b.r.errors == 0 by { StartFacts(b); }
    var b1 := SyncNext(b, Other(ForceError), a);
    InitialQuiet(b.y);
    Forced(b.y);
    ErrorPass(b1.y, top);
    StartOwes(b, a);
    SyncStepInv(b, Other(ForceError), a);
    assert b1.called == Times(a, b1.y.completed);
    var b2 := SyncNext(b1, Other(Received([], 0, NoJson, top)), a);
    SyncStepInv(b1, Other(Received([], 0, NoJson, top)), a);
    StepErrors(b2, Sweep, a);
  }

  lemma StartFacts(b: Sync)
    requires SyncStart(b)
    ensures Initial(b.y) && b.afterReset && b.called == 0 && !b.due && b.r.errors == 0
  {
  }

  lemma InitialQuiet(y: Sys)
    requires Initial(y)
    ensures WF(y.s) && y.phase == Polling && AllFree(y.s) && y.s.records == [] && AllWaiting(y.s.regs) == [] && y.completed == []
  {
    NothingWaits(y.s.regs);
  }

  lemma Forced(y: Sys)
    requires WF(y.s)
    ensures Next(y, ForceError) == y.(s := y.s.(errorReq := true)) && WF(Next(y, ForceError).s)
  {
  }

  /** A forced error, with nothing under way and nothing waiting, ends in Error with nothing to complete. */
  lemma ErrorPass(y: Sys, top: Top)
    requires WF(y.s) && y.phase == Polling && y.s.errorReq && AllFree(y.s) && y.s.records == [] && AllWaiting(y.s.regs) == []
    requires |top.oc| == |y.s.slots|
    ensures var y' := Next(y, Received([], 0, NoJson, top));
      y'.phase == Polling && y'.s.current == Error && y'.completed == y.completed
  {
    hide AllWaiting, Reg.Valid, Msg.Valid;
    SilentClock(y.s, 0, 0);
    assert y.completed + [] == y.completed;
  }

  lemma {:induction false} NothingWaits(regs: seq<Reg>)
    requires forall k | 0 <= k < |regs| :: Waiting(regs[k]) == []
    ensures AllWaiting(regs) == []
  {
    if regs != [] {
      NothingWaits(regs[..|regs| - 1]);
    }
  }

  /** Some run that starts like this makes the complaint. */
  ghost predicate Complains(b: Sync, a: Action) {
    exists trace: seq<Sync>, steps: seq<SyncStep>, x: nat :: IsSyncRun(trace, steps, a) && x < |trace| && trace[0] == b && trace[x].r.errors > 0
  }

  /** WHEN THERE ARE TOO MANY COMPLETES: a sync record can make this complaint if and only if its
      link has a register name. */
  lemma ComplainsExactly(b: Sync, a: Action)
    requires SyncStart(b)
    ensures Complains(b, a) <==> b.named
  {
    hide SyncEnabled, SyncNext, SyncStart;
    if b.named {
      assert WF(b.y.s) by { StartWF(b); }
      var top := Top(seq(|b.y.s.slots|, _ => Delivered), 0);
      TooManyCompletes(b, top, a);
      var e2 := Other(Received([], 0, NoJson, top));
      var b1 := SyncNext(b, Other(ForceError), a);
      var b2 := SyncNext(b1, e2, a);
      var trace, steps := [b, b1, b2, SyncNext(b2, Sweep, a)], [Other(ForceError), e2, Sweep];
      assert IsSyncRun(trace, steps, a) && trace[3].r.errors > 0;
    }
    if Complains(b, a) {
      var trace: seq<Sync>, steps: seq<SyncStep>, x: nat :| IsSyncRun(trace, steps, a) && x < |trace| && trace[0] == b && trace[x].r.errors > 0;
      ErrorsAreSweeps(trace, steps, a, x);
    }
  }

  lemma StartWF(b: Sync)
    requires SyncStart(b)
    ensures WF(b.y.s)
  {
  }

  /* ---- who is waited for ---- */

  /** The record waits for a register exactly if words of its operation are still to be sent: an
      operation that has been sent completely but not answered is not waited for. */
  lemma {:induction false} SyncWaitsFor(s: St, action: Action, k: RegRef)
    requires Inv(s) && k < |s.regs|
    ensures var s' := SyncOn(s, 0, action);
      && |s'.regs| == |s.regs|
      && Times(action, s'.regs[k].recInprog) == Times(action, s.regs[k].recInprog) + if HasUnsent(s.regs[k]) then 1 else 0
  {
    SyncFrom(s, 0, action, k);
    assert HasUnsent(s.regs[k]) <==> k in s.send;
  }

  /** So it waits for every operation in progress, as documented, if and only if none of them has
      been sent completely. */
  lemma SyncCovers(s: St, action: Action)
    requires Inv(s) && forall k | 0 <= k < |s.regs| :: Times(action, s.regs[k].recInprog) == 0
    ensures WF(s) && |SyncOn(s, 0, action).regs| == |s.regs|
    ensures (forall k | 0 <= k < |s.regs| && s.regs[k].InProgress() :: Times(action, SyncOn(s, 0, action).regs[k].recInprog) > 0)
      <==> (forall k | 0 <= k < |s.regs| && s.regs[k].InProgress() :: HasUnsent(s.regs[k]))
  {
    hide RegsOk, SendOk, WordsOk, Unique, Covered, SyncOn, Times;
    SyncWaitsFor(s, action, REG_ID);
    forall k | 0 <= k < |s.regs|
      ensures Times(action, SyncOn(s, 0, action).regs[k].recInprog) == if HasUnsent(s.regs[k]) then 1 else 0
    {
      SyncWaitsFor(s, action, k);
    }
  }

  function BootInfo(base: nat, size: nat): Info {
    Info("", base, size, 32, true, false, true)
  }

  /** A running driver with one message slot and one register of one word, all idle. */
  function Resting(): St {
    var word := Info("word", 0x10000, 1, 32, true, true, false);
    St([FreshReg(BootInfo(0, 4)), FreshReg(BootInfo(0x800, 0x800)), FreshReg(BootInfo(0x4000, 0x4000)), FreshReg(word)],
       [Msg(Free, 0, 0, NoRegs(), [], 0)], [], [], Running, 0, false, false, false, true)
  }

  /** What matters of it. */
  ghost predicate OneIdle(s: St) {
    && Inv(s) && s.current == Running && |s.regs| == 4 && |s.slots| == 1 && s.send == []
    && s.slots[0].state == Free && s.slots[0].reg == NoRegs()
    && !s.regs[3].InProgress() && s.regs[3].info.readable && s.regs[3].info.size == 1 && s.regs[3].recInprog == []
  }

  lemma RestingInv()
    ensures OneIdle(Resting())
  {
    var s := Resting();
    forall k | 0 <= k < |s.regs| ensures RegOk(s.regs[k]) && !s.regs[k].InProgress() {
    }
    IdleInv(s);
  }

  /** One read of that word, sent and not answered. */
  function Asked(s: St): St
    requires WF(s) && |s.regs| == 4 && |s.slots| == 1
  {
    HandleSend(Queue(s, 3, false, None).s, [Delivered], 0).res.s
  }

  /** Such a state: the connection is active, an operation is completely sent and unanswered, and
      a sync record processed now does not wait for it. */
  lemma SentNotWaitedFor(a: Action)
    ensures OneIdle(Resting())
    ensures var s := Asked(Resting());
      && Inv(s) && Active(s) && |s.regs| == 4 && s.regs[3].InProgress() && Outstanding(s.regs[3], 0) && !HasUnsent(s.regs[3])
      && |SyncOn(s, 0, a).regs| == 4 && Times(a, SyncOn(s, 0, a).regs[3].recInprog) == 0
  {
    RestingInv();
    hide Resting;
    SentAhead(Resting(), a);
  }

  lemma SentAhead(s: St, a: Action)
    requires OneIdle(s)
    ensures var s' := Asked(s);
      && Inv(s') && Active(s') && |s'.regs| == 4 && s'.regs[3].InProgress() && Outstanding(s'.regs[3], 0) && !HasUnsent(s'.regs[3])
      && |SyncOn(s', 0, a).regs| == 4 && Times(a, SyncOn(s', 0, a).regs[3].recInprog) == 0
  {
    hide RegsOk, SendOk, WordsOk, Unique, Covered, Reg.Valid, Msg.Valid;
    var s1 := Queue(s, 3, false, None).s;
    QueueInv(s, 3, false, None);
    HandleSendInv(s1, [Delivered], 0);
    OneWordLoaded(s1);
    SendPassRegs(LoadPass(s1, 0), 0, [Delivered], 0);
    SyncWaitsFor(Asked(s), a, 3);
  }

  /** A queue of one register of one word is empty after the first pass. */
  lemma OneWordLoaded(s: St)
    requires WF(s) && s.send == [3] && |s.regs| == 4 && |s.slots| == 1 && s.slots[0].state != Sent && s.slots[0].reg == NoRegs()
    requires s.regs[3].InProgress() && s.regs[3].info.size == 1 && s.regs[3].nextSend == 0
    ensures var s' := LoadPass(s, 0);
      |s'.slots| == 1 && s'.regs == s.regs[3 := s.regs[3].(nextSend := 1)]
  {
    var s1 := LoadWord(s, 0, 0);
    assert s1.send == [] && !FrontHasWord(s1);
    assert LoadSlot(s1, 0, 1) == s1;
    assert LoadSlot(s, 0, 0) == s1;
  }

  lemma {:induction false} SyncFrom(s: St, x: nat, action: Action, k: RegRef)
    requires WF(s) && k < |s.regs| && x <= |s.send| && forall y, z | 0 <= y < z < |s.send| :: s.send[y] != s.send[z]
    ensures var s' := SyncOn(s, x, action);
      && |s'.regs| == |s.regs|
      && Times(action, s'.regs[k].recInprog) == Times(action, s.regs[k].recInprog) + if k in s.send[x..] then 1 else 0
    decreases |s.send| - x
  {
    hide Reg.Valid, Msg.Valid;
    if x < |s.send| {
      var r := s.regs[s.send[x]];
      assert r.(recInprog := r.recInprog + [action]).Valid() by { assert r.Valid(); WaitValid(r, action); }
      SyncFrom(SetReg(s, s.send[x], r.(recInprog := r.recInprog + [action])), x + 1, action, k);
      TimesConcat(action, r.recInprog, [action]);
      assert s.send[x..] == [s.send[x]] + s.send[x + 1..];
      assert [action][1..] == [];
    }
  }

  lemma WaitValid(r: Reg, action: Action)
    requires r.Valid()
    ensures r.(recInprog := r.recInprog + [action]).Valid()
  {
  }
}
