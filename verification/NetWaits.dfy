/** What a record that waits for its operation may rely on, with a device at the other end. */
module NetWaits {
  import opened EngineState
  import opened Partition
  import opened Conservation
  import opened Worker
  import opened Safety
  import opened Peer
  import opened EndToEnd
  import opened NetRuns
  import opened NetTheorems
  import opened Waits

  /* ---- the same against a device ---- */

  function DriverSteps(steps: seq<NetStep>): (d: seq<Option<Step>>)
    ensures |d| == |steps| && forall x | 0 <= x < |steps| :: d[x] == if steps[x].Drive? then Some(steps[x].e) else None
  {
    seq(|steps|, x requires 0 <= x < |steps| => if steps[x].Drive? then Some(steps[x].e) else None)
  }

  function Drivers(trace: seq<Net>): (d: seq<Sys>)
    ensures |d| == |trace| && forall x | 0 <= x < |trace| :: d[x] == trace[x].y
  {
    seq(|trace|, x requires 0 <= x < |trace| => trace[x].y)
  }

  lemma NetFollows(n: Net, e: NetStep)
    requires NetEnabled(n, e)
    ensures Follows(n.y, if e.Drive? then Some(e.e) else None, NetNext(n, e).y)
  {
    hide Receive, HandleSend, Queue, Reg.Valid, Msg.Valid;
  }

  lemma NetStretch(trace: seq<Net>, steps: seq<NetStep>, x: nat)
    requires IsNetRun(trace, steps) && x < |trace|
    ensures IsStretch(Drivers(trace[x..]), DriverSteps(steps[x..]))
  {
    hide IsNetRun, NetEnabled, NetNext, Follows, Inv;
    NetRunStart(trace, steps);
    NetRunInv(trace, steps, x);
    var t, s := Drivers(trace[x..]), DriverSteps(steps[x..]);
    assert Inv(t[0].s) by { InvOf(trace[x]); }
    forall y | 0 <= y < |s| ensures Follows(t[y], s[y], t[y + 1]) {
      NetRunStep(trace, steps, x + y);
      NetFollows(trace[x + y], steps[x + y]);
    }
  }

  lemma InvOf(n: Net)
    requires NetInv(n)
    ensures Inv(n.y.s)
  {
  }

  /** A request made in an end-to-end run. */
  ghost predicate RequestedIn(trace: seq<Net>, steps: seq<NetStep>, x: nat, k: RegRef, write: bool, a: Action) {
    && IsNetRun(trace, steps) && x < |steps| && steps[x] == Drive(Request(k, write, Some(a)))
    && k < |trace[x].y.s.regs| && trace[x + 1].y.accepted == trace[x].y.accepted + [a] && Owned(trace[x].y.s, a) == 0
    && forall y | x < y < |steps| && steps[y].Drive? :: !Names(steps[y].e, a)
  }

  lemma RequestedStretch(trace: seq<Net>, steps: seq<NetStep>, x: nat, k: RegRef, write: bool, a: Action)
    requires RequestedIn(trace, steps, x, k, write, a)
    ensures |trace| == |steps| + 1 && Requested(Drivers(trace[x..]), DriverSteps(steps[x..]), k, write, a)
  {
    hide IsNetRun, IsStretch;
    NetRunStart(trace, steps);
    NetStretch(trace, steps, x);
  }

  /** In step v of the run an operation of register k ends. */
  ghost predicate OpEndsIn(trace: seq<Net>, steps: seq<NetStep>, v: int, k: RegRef, write: bool) {
    && 0 <= v < |steps| && v + 1 < |trace| && steps[v].Drive? && Ends(trace[v].y, steps[v].e, k) && k < |trace[v + 1].y.s.regs|
    && trace[v].y.s.regs[k].state == Op(write)
  }

  lemma NetServed(trace: seq<Net>, steps: seq<NetStep>, x: nat, k: RegRef, write: bool, a: Action, z: nat) returns (v: nat)
    requires RequestedIn(trace, steps, x, k, write, a) && x < z < |trace|
    requires Times(a, trace[z].y.completed) > Times(a, trace[x].y.completed)
    ensures x < v < z && OpEndsIn(trace, steps, v, k, write)
    ensures Underway(Drivers(trace[x..]), DriverSteps(steps[x..]), k, write, v - x)
  {
    hide IsNetRun, IsStretch, Underway, Ends, Names, Times;
    RequestedStretch(trace, steps, x, k, write, a);
    var t, s := Drivers(trace[x..]), DriverSteps(steps[x..]);
    ActionServed(t, s, k, write, a, z - x);
    var y :| y < z - x && EndsAt(t, s, y, k, write) && Underway(t, s, k, write, y);
    v := x + y;
    NoEndAtOnce(trace[x].y, steps[x].e, k);
    NetRunInv(trace, steps, v + 1);
    RegsKept(trace, steps, x, v + 1, k);
  }

  lemma NoEndAtOnce(y: Sys, e: Step, k: RegRef)
    ensures e.Request? ==> !Ends(y, e, k)
  {
  }

  lemma NetRegs(n: Net, e: NetStep, k: RegRef)
    requires NetInv(n) && NetEnabled(n, e) && k < |n.y.s.regs|
    ensures k < |NetNext(n, e).y.s.regs|
  {
    hide NetInv, NetEnabled, NetNext, Middle, Regular, Receive, Reg.Valid, Msg.Valid;
    TopFacts(n, e);
    if e.Drive? && e.e.Received? {
      ReceivedMiddle(n, e);
      ReceivedFacts(n, e.e, k, 0);
    } else {
      OtherFacts(n, e, k, 0);
    }
  }

  lemma {:induction false} RegsKept(trace: seq<Net>, steps: seq<NetStep>, x: nat, z: nat, k: RegRef)
    requires IsNetRun(trace, steps) && x <= z < |trace| && k < |trace[x].y.s.regs|
    ensures k < |trace[z].y.s.regs|
  {
    hide IsNetRun, NetInv, NetEnabled, NetNext;
    if x < z {
      RegsKept(trace, steps, x, z - 1, k);
      NetRunStart(trace, steps);
      NetRunStep(trace, steps, z - 1);
      NetRunInv(trace, steps, z - 1);
      NetRegs(trace[z - 1], steps[z - 1], k);
    }
  }

  /** A record that asks for a read while a write of the register is in progress goes on only after
      a read that ended later, and every word it finds then has been on the device since it asked. */
  lemma ReadSees(trace: seq<Net>, steps: seq<NetStep>, x: nat, k: RegRef, a: Action, z: nat) returns (v: nat)
    requires RequestedIn(trace, steps, x, k, false, a) && x < z < |trace|
    requires !(trace[x].y.s.regs[k].state == Reading && trace[x].y.s.regs[k].nextSend > 0)
    requires Times(a, trace[z].y.completed) > Times(a, trace[x].y.completed)
    ensures x < v < z && OpEndsIn(trace, steps, v, k, false) && |trace[x].v.log| > 0
    ensures var r := trace[v + 1].y.s.regs[k];
      r.state != Reading ==> NetTheorems.FreshWords(r, trace[v + 1].v, |trace[x].v.log| - 1)
  {
    hide IsNetRun, Ends, Names, Times, Owned;
    v := NetServed(trace, steps, x, k, false, a, z);
    ReadsAreFresh(trace, steps, x, v, k);
  }

  lemma CommitsHere(n: Net, e: NetStep, k: RegRef, a: Action)
    requires NetEnabled(n, e) && e == Drive(Request(k, true, Some(a))) && k < |n.y.s.regs| && n.y.s.regs[k].info.writable
    requires NetNext(n, e).y.accepted == n.y.accepted + [a]
    ensures IsCommit(n, e, k)
  {
    hide Reg.Valid, Msg.Valid;
    assert n.y.accepted + [a] != n.y.accepted + [];
  }

  /* ---- stored words ---- */

  /** So what was stored stays until something else is stored. */
  lemma {:induction false} StoredStays(trace: seq<Net>, steps: seq<NetStep>, x: nat, z: nat, k: RegRef)
    requires IsNetRun(trace, steps) && x <= z < |trace| && k < |trace[x].y.s.regs|
    requires forall y | x <= y < z :: !IsStore(steps[y], k)
    ensures k < |trace[z].y.s.regs| && trace[z].y.s.regs[k].memTx == trace[x].y.s.regs[k].memTx
    ensures trace[z].y.s.regs[k].info == trace[x].y.s.regs[k].info
  {
    hide IsNetRun, NetInv, NetEnabled, NetNext, Calm, Next, Inv;
    NetRunStart(trace, steps);
    if x < z {
      StoredStays(trace, steps, x, z - 1, k);
      NetRunStep(trace, steps, z - 1);
      NetRunInv(trace, steps, z - 1);
      InvOf(trace[z - 1]);
      NetFollows(trace[z - 1], steps[z - 1]);
      if steps[z - 1].Drive? {
        CachesKept(trace[z - 1].y, steps[z - 1].e, k);
      }
    }
  }

  /** The device holds these words in the place of register r. */
  predicate Reached(r: Reg, tx: seq<Word>, mem: Memory) {
    |tx| == r.info.size && forall o | 0 <= o < |tx| && Addr(r, o) in mem ::
      mem[Addr(r, o)].modulus > 0 && mem[Addr(r, o)].value == tx[o] % mem[Addr(r, o)].modulus
  }

  lemma HasReached(r: Reg, mem: Memory)
    requires DeviceHasTx(r, mem) && r.Valid()
    ensures Reached(r, r.memTx, mem)
  {
    forall o | 0 <= o < |r.memTx| && Addr(r, o) in mem
      ensures mem[Addr(r, o)].modulus > 0 && mem[Addr(r, o)].value == r.memTx[o] % mem[Addr(r, o)].modulus
    {
      assert WriteOk(r, mem, o);
    }
  }

  /** THE STORED-WORDS THEOREM. The words a record has stored, and nobody has replaced since, are
      on the device once a write was requested after the store and none is under way any more. */
  lemma StoredReaches(trace: seq<Net>, steps: seq<NetStep>, w: nat, y: nat, x: nat, k: RegRef, tx: seq<Word>)
    requires IsNetRun(trace, steps) && w < y < x < |trace| && steps[w] == Drive(Store(k, tx))
    requires IsCommit(trace[y], steps[y], k) && forall z | w < z < x :: !IsStore(steps[z], k)
    ensures k < |trace[x].y.s.regs|
    ensures var r := trace[x].y.s.regs[k];
      Alone(trace[x].y.s.regs, k) && r.state != Writing && !r.writeQueued ==> Reached(r, tx, trace[x].v.mem)
  {
    hide IsNetRun, NetEnabled, NetNext, IsCommit, Alone, NetInv, Calm, Next, Inv, DeviceHasTx, Reached, Reg.Valid;
    NetRunStart(trace, steps);
    NetRunStep(trace, steps, w);
    NetRunInv(trace, steps, w);
    NetRunInv(trace, steps, x);
    InvOf(trace[w]);
    NetFollows(trace[w], steps[w]);
    StoresInto(trace[w].y, k, tx);
    CachesKept(trace[w].y, Store(k, tx), k);
    StoredStays(trace, steps, w + 1, x, k);
    assert CommittedAt(trace, steps, y, x, k);
    LastWriteWins(trace, steps, x, k);
    var r := trace[x].y.s.regs[k];
    if Alone(trace[x].y.s.regs, k) && r.state != Writing && !r.writeQueued {
      assert r.Valid() by { InvOf(trace[x]); ValidOf(trace[x].y.s, k); }
      HasReached(r, trace[x].v.mem);
    }
  }

  lemma ValidOf(s: St, k: RegRef)
    requires Inv(s) && k < |s.regs|
    ensures s.regs[k].Valid()
  {
  }

  lemma StoresInto(y: Sys, k: RegRef, tx: seq<Word>)
    requires Calm(y, Store(k, tx))
    ensures k < |y.s.regs|
  {
  }

  /** A record that waits for its write goes on only when the device has what it wrote, unless
      another write of the register is under way by then. */
  lemma WriteReached(trace: seq<Net>, steps: seq<NetStep>, x: nat, k: RegRef, a: Action, z: nat) returns (v: nat)
    requires RequestedIn(trace, steps, x, k, true, a) && x < z < |trace| && trace[x].y.s.regs[k].info.writable
    requires forall y | x < y < z :: !IsStore(steps[y], k)
    requires Times(a, trace[z].y.completed) > Times(a, trace[x].y.completed)
    ensures x < v < z && OpEndsIn(trace, steps, v, k, true)
    ensures var r := trace[v + 1].y.s.regs[k];
      Alone(trace[v + 1].y.s.regs, k) && r.state != Writing && !r.writeQueued ==>
        Reached(r, trace[x].y.s.regs[k].memTx, trace[v + 1].v.mem)
  {
    hide IsNetRun, Ends, Names, Times, Owned, Alone, DeviceHasTx, Reached, NetInv, NetEnabled, NetNext, Underway;
    v := NetServed(trace, steps, x, k, true, a, z);
    NetRunStep(trace, steps, x);
    CommitsHere(trace[x], steps[x], k, a);
    assert CommittedAt(trace, steps, x, v + 1, k);
    LastWriteWins(trace, steps, v + 1, k);
    StoredStays(trace, steps, x, v + 1, k);
    NetRunInv(trace, steps, v + 1);
    var r := trace[v + 1].y.s.regs[k];
    if Alone(trace[v + 1].y.s.regs, k) && r.state != Writing && !r.writeQueued {
      assert r.Valid() by { InvOf(trace[v + 1]); ValidOf(trace[v + 1].y.s, k); }
      HasReached(r, trace[v + 1].v.mem);
    }
  }
}
