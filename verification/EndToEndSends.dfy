/** Sending, queueing and connecting keep the end-to-end invariant. */
module EndToEndSends {
  import opened EngineState
  import opened Partition
  import opened Messages
  import opened Progress
  import opened Peer
  import opened EndToEnd
  import opened EndToEndSteps

  /* ---- the first pass ---- */

  /** Adding word w of register k, with its data, to a message that is not in flight. */
  lemma AddedClaims(regs: seq<Reg>, a: seq<Msg>, b: seq<Msg>, i: nat, j: nat, k: RegRef, w: int, r': Reg, v: Env)
    requires k < |regs| && |a| == |b| && i < |a| && a[i].state != Sent && b[i].state != Sent
    requires OneMore(a, b, i, j, k, w) && (forall x | 0 <= x < |a| && x != i :: b[x] == a[x])
    requires forall y, h, u | Holds(a, i, y, h, u) :: DataAt(b, i, y) == DataAt(a, i, y)
    requires DataClaims(regs, a, v) && ReplyClaims(regs, a, v)
    requires SameWriting(regs[k], r') && DataOk(r', k, w, DataAt(b, i, j), v)
    ensures DataClaims(regs[k := r'], b, v) && ReplyClaims(regs[k := r'], b, v)
  {
    var regs' := regs[k := r'];
    forall x, y, h, u | Holds(b, x, y, h, u) ensures 0 <= h < |regs'| && DataOk(regs'[h], h, u, DataAt(b, x, y), v) {
      if !(x == i && y == j && h == k && u == w) {
        assert Holds(a, x, y, h, u);
        assert DataOk(regs[h], h, u, DataAt(a, x, y), v);
      }
    }
    forall t, y, h, u | t in v.replies && Current(b, t) && Holds(b, t.slot, y, h, u)
      ensures Echoes(t, y, u) && 0 <= h < |regs'| && (regs'[h].state == Reading ==> h in v.since)
        && Answered(regs'[h], h, u, DataAt(b, t.slot, y), t.words[2 * y + 3], v)
    {
      assert t.slot != i && Current(a, t) && Holds(a, t.slot, y, h, u);
      assert Echoes(t, y, u) && Answered(regs[h], h, u, DataAt(a, t.slot, y), t.words[2 * y + 3], v);
    }
  }

  /** Identities when one message that is not in flight changes and stays out of flight. */
  lemma IdsAside(a: seq<Msg>, b: seq<Msg>, i: nat, sendSeq: nat, v: Env)
    requires Ids(a, sendSeq, v) && |a| == |b| && i < |a| && a[i].state != Sent && b[i].state != Sent
    requires forall x | 0 <= x < |a| && x != i :: b[x] == a[x]
    ensures Ids(b, sendSeq, v)
  {
    forall t | t in v.reqs ensures RequestId(t, b, v.replies) {
      assert RequestId(t, a, v.replies);
    }
    forall t | t in v.replies ensures ReplyId(t, b, sendSeq) {
      assert ReplyId(t, a, sendSeq);
    }
  }

  /** Progress of sending does not touch what is claimed about a register. */
  lemma SentMore(r: Reg, n: nat, k: RegRef, v: Env)
    requires TxClaim(r, k, v) && RxClaim(r, k, v)
    ensures TxClaim(r.(nextSend := n), k, v) && RxClaim(r.(nextSend := n), k, v)
  {
    var r' := r.(nextSend := n);
    forall o | 0 <= o < |r.received| ensures (WriteOk(r, v.mem, o) <==> WriteOk(r', v.mem, o)) && (ReadOk(r, k, v, o) <==> ReadOk(r', k, v, o)) {
    }
  }

  lemma LoadedData(s: St, i: nat, j: nat)
    requires WF(s) && CanLoad(s, i, j) && FrontHasWord(s)
    ensures var r := s.regs[s.send[0]];
      var b := LoadWord(s, i, j).slots;
      && OnlySlot(s, LoadWord(s, i, j), i) && b[i].state == s.slots[i].state
      && (forall y, h, u | Holds(s.slots, i, y, h, u) :: DataAt(b, i, y) == DataAt(s.slots, i, y))
      && DataAt(b, i, j) == (if r.state == Reading then 0 else r.memTx[r.nextSend])
      && LoadWord(s, i, j).regs == s.regs[s.send[0] := r.(nextSend := r.nextSend + 1)]
      && LoadWord(s, i, j).sendSeq == s.sendSeq
  {
    var m := s.slots[i];
    assert m.Valid(|s.regs|);
    assert forall y | j <= y < NREG :: m.reg[y].None?;
  }

  lemma LoadWordStep(s: St, v: Env, i: nat, j: nat)
    requires Claims(s, v) && CanLoad(s, i, j) && FrontHasWord(s)
    ensures Claims(LoadWord(s, i, j), v) && LoadWord(s, i, j).sendSeq == s.sendSeq
  {
    hide RegsOk, SendOk, WordsOk, Unique, Covered, DataClaims, ReplyClaims, Ids, AloneIs, History, TxClaim, RxClaim, LoadWord, OneMore;
    var k := s.send[0];
    var r := s.regs[k];
    var r' := r.(nextSend := r.nextSend + 1);
    var s' := LoadWord(s, i, j);
    LoadInv(s, i, j);
    LoadWordHolds(s, i, j);
    LoadedData(s, i, j);
    CommandOffset(r, r.nextSend);
    SentMore(r, r.nextSend + 1, k, v);
    AddedClaims(s.regs, s.slots, s'.slots, i, j, k, r.Command(r.nextSend), r', v);
    ClaimsUpdate(s.regs, k, r', v);
    AloneUpdate(s.regs, k, r', v);
    IdsAside(s.slots, s'.slots, i, s.sendSeq, v);
  }

  lemma {:induction false} LoadSlotStep(s: St, v: Env, i: nat, j: nat)
    requires Claims(s, v) && i < |s.slots| && j <= NREG && s.slots[i].state != Sent
    requires WF(s) && (0 < j ==> s.slots[i].reg[j - 1].Some?)
    ensures Claims(LoadSlot(s, i, j), v) && LoadSlot(s, i, j).sendSeq == s.sendSeq
    decreases NREG - j
  {
    hide Claims, LoadWord;
    if j == NREG || !FrontHasWord(s) {
    } else if s.slots[i].reg[j].Some? {
      LoadSlotStep(s, v, i, j + 1);
    } else {
      LoadWordStep(s, v, i, j);
      LoadSlotStep(LoadWord(s, i, j), v, i, j + 1);
    }
  }

  lemma MarkStep(s: St, v: Env, i: nat)
    requires Claims(s, v) && i < |s.slots| && WF(s) && s.slots[i].state != Sent
    ensures Claims(MarkReady(s, i), v) && MarkReady(s, i).sendSeq == s.sendSeq
  {
    hide RegsOk, SendOk, WordsOk, Unique, Covered, RegClaims, DataClaims, ReplyClaims, Ids, AloneIs, History, Fewer;
    var b := MarkReady(s, i).slots;
    MarkInv(s, i);
    MarkFewer(s.slots, i, v);
    if s.slots[i].reg[0].Some? {
      IdsAside(s.slots, b, i, s.sendSeq, v);
      FewerClaims(s.regs, s.slots, b, REG_ID, s.regs[REG_ID], v);
      assert s.regs[REG_ID := s.regs[REG_ID]] == s.regs;
    }
  }

  lemma MarkFewer(slots: seq<Msg>, i: nat, v: Env)
    requires i < |slots| && slots[i].state != Sent
    ensures Fewer(slots, slots[i := slots[i].(state := Ready)], v)
  {
  }

  lemma {:induction false} LoadPassStep(s: St, v: Env, i: nat)
    requires Claims(s, v) && WF(s) && i <= |s.slots|
    ensures Claims(LoadPass(s, i), v) && LoadPass(s, i).sendSeq == s.sendSeq
    decreases |s.slots| - i
  {
    hide Claims, LoadSlot, MarkReady;
    if i == |s.slots| || !FrontHasWord(s) {
    } else if s.slots[i].state == Sent {
      LoadPassStep(s, v, i + 1);
    } else {
      LoadSlotStep(s, v, i, 0);
      MarkStep(LoadSlot(s, i, 0), v, i);
      LoadPassStep(MarkReady(LoadSlot(s, i, 0), i), v, i + 1);
    }
  }

  /* ---- the second pass ---- */

  /** What is handed to the network becomes a request. */
  function Requested(v: Env, out: seq<Tx>): Env {
    v.(reqs := v.reqs + (set t | t in out))
  }

  /** The claims do not mention the requests, the identities apart. */
  lemma RequestedClaims(regs: seq<Reg>, slots: seq<Msg>, v: Env, v': Env)
    requires RegClaims(regs, v) && DataClaims(regs, slots, v) && ReplyClaims(regs, slots, v) && History(v)
    requires v' == v.(reqs := v'.reqs)
    ensures RegClaims(regs, v') && DataClaims(regs, slots, v') && ReplyClaims(regs, slots, v') && History(v')
  {
    forall k | 0 <= k < |regs| ensures TxClaim(regs[k], k, v') && RxClaim(regs[k], k, v') {
      assert TxClaim(regs[k], k, v) && RxClaim(regs[k], k, v);
      forall o | 0 <= o < |regs[k].received| ensures ReadOk(regs[k], k, v, o) <==> ReadOk(regs[k], k, v', o) {
      }
    }
    forall i, j, k, w | Holds(slots, i, j, k, w) ensures 0 <= k < |regs| && DataOk(regs[k], k, w, DataAt(slots, i, j), v') {
      assert DataOk(regs[k], k, w, DataAt(slots, i, j), v);
    }
    forall t, j, k, w | t in v'.replies && Current(slots, t) && Holds(slots, t.slot, j, k, w)
      ensures Echoes(t, j, w) && 0 <= k < |regs| && (regs[k].state == Reading ==> k in v'.since)
        && Answered(regs[k], k, w, DataAt(slots, t.slot, j), t.words[2 * j + 3], v')
    {
      assert Echoes(t, j, w) && Answered(regs[k], k, w, DataAt(slots, t.slot, j), t.words[2 * j + 3], v);
    }
  }

  lemma AttemptFewer(slots: seq<Msg>, i: nat, nregs: nat, attempt: nat, st: MsgState, due: int, v: Env)
    requires i < |slots| && i < 255 && slots[i].Valid(nregs) && slots[i].state == Ready
    requires forall t | t in v.replies :: t.attempt < attempt
    ensures Fewer(slots, slots[i := Framed(slots[i], i, attempt).(state := st, due := due)], v)
  {
    var m := slots[i];
    assert m.buf <= Padded(m.buf);
    FramedHolds(slots, i, nregs, attempt, st, due);
    var b := slots[i := Framed(m, i, attempt).(state := st, due := due)];
    forall x, j, k, w | Holds(b, x, j, k, w) ensures Holds(slots, x, j, k, w) && DataAt(b, x, j) == DataAt(slots, x, j) {
      assert Holds(slots, x, j, k, w);
    }
  }

  lemma AttemptIds(slots: seq<Msg>, i: nat, sendSeq: nat, st: MsgState, due: int, v: Env, sent: bool)
    requires Ids(slots, sendSeq, v) && i < |slots| && i < 255 && slots[i].state == Ready && st != Free && (sent ==> st == Sent)
    ensures var b := slots[i := Framed(slots[i], i, sendSeq).(state := st, due := due)];
      Ids(b, sendSeq + 1, if sent then Requested(v, [Tx(i, sendSeq, b[i].buf)]) else v)
  {
    var b := slots[i := Framed(slots[i], i, sendSeq).(state := st, due := due)];
    var v' := if sent then Requested(v, [Tx(i, sendSeq, b[i].buf)]) else v;
    forall t | t in v'.reqs ensures RequestId(t, b, v'.replies) {
      if t in v.reqs {
        assert RequestId(t, slots, v.replies);
      } else {
        forall u | u in v.replies ensures u.attempt < sendSeq { assert ReplyId(u, slots, sendSeq); }
      }
    }
    forall t | t in v'.replies ensures ReplyId(t, b, sendSeq + 1) {
      assert ReplyId(t, slots, sendSeq);
    }
    forall x | 0 <= x < |b| ensures MsgId(b[x], x, sendSeq + 1) {
      assert MsgId(slots[x], x, sendSeq);
    }
  }

  /** One attempt, with the request it puts on the network if it does. */
  lemma AttemptStep(s: St, v: Env, i: nat, st: MsgState, due: int, sent: bool)
    requires Claims(s, v) && WF(s) && i < |s.slots| && s.slots[i].state == Ready && st != Free && (sent ==> st == Sent)
    ensures var s' := Attempt(s, i, st, due);
      Claims(s', if sent then Requested(v, [Tx(i, s.sendSeq, s'.slots[i].buf)]) else v)
  {
    hide RegsOk, SendOk, WordsOk, Unique, Covered, RegClaims, DataClaims, ReplyClaims, Ids, AloneIs, History, Fewer;
    var s' := Attempt(s, i, st, due);
    var b := s'.slots;
    AttemptInv(s, i, st, due);
    assert forall t | t in v.replies :: t.attempt < s.sendSeq by { ReplyAges(s.slots, s.sendSeq, v); }
    AttemptFewer(s.slots, i, |s.regs|, s.sendSeq, st, due, v);
    FewerClaims(s.regs, s.slots, b, REG_ID, s.regs[REG_ID], v);
    assert s.regs[REG_ID := s.regs[REG_ID]] == s.regs;
    AttemptIds(s.slots, i, s.sendSeq, st, due, v, sent);
    var v' := Requested(v, [Tx(i, s.sendSeq, b[i].buf)]);
    RequestedClaims(s.regs, b, v, v');
    AloneEnv(s.regs, v, v');
  }

  lemma ReplyAges(slots: seq<Msg>, sendSeq: nat, v: Env)
    requires Ids(slots, sendSeq, v)
    ensures forall t | t in v.replies :: t.attempt < sendSeq
  {
  }

  lemma {:induction false} SendPassStep(s: St, v: Env, i: nat, oc: seq<Outcome>, due: int)
    requires Claims(s, v) && WF(s) && i <= |s.slots| == |oc|
    ensures var o := SendPass(s, i, oc, due); Claims(o.res.s, Requested(v, o.out))
    decreases |s.slots| - i
  {
    hide Claims, Attempt;
    var o := SendPass(s, i, oc, due);
    if i == |s.slots| {
      NothingRequested(v);
    } else if s.slots[i].state != Ready {
      SendPassStep(s, v, i + 1, oc, due);
    } else if oc[i] == WouldBlock || oc[i] == SocketFailure {
      AttemptStep(s, v, i, Ready, s.slots[i].due, false);
      NothingRequested(v);
      WantStep(Attempt(s, i, Ready, s.slots[i].due), v);
    } else {
      var s1 := Attempt(s, i, Sent, due);
      var tx := Tx(i, s.sendSeq, s1.slots[i].buf);
      AttemptStep(s, v, i, Sent, due, oc[i] == Delivered);
      if oc[i] == Delivered {
        SendPassStep(s1, Requested(v, [tx]), i + 1, oc, due);
        RequestedTwice(v, tx, SendPass(s1, i + 1, oc, due).out);
      } else {
        SendPassStep(s1, v, i + 1, oc, due);
      }
    }
  }

  lemma NothingRequested(v: Env)
    ensures Requested(v, []) == v
  {
  }

  lemma RequestedTwice(v: Env, tx: Tx, out: seq<Tx>)
    ensures Requested(Requested(v, [tx]), out) == Requested(v, [tx] + out)
  {
    assert (set t | t in [tx]) + (set t | t in out) == (set t | t in [tx] + out);
  }

  /** Flags of the loop play no part in the claims. */
  lemma WantStep(s: St, v: Env)
    requires Claims(s, v)
    ensures Claims(s.(wantToSend := true), v)
  {
    hide RegsOk, SendOk, WordsOk, Unique, Covered, RegClaims, DataClaims, ReplyClaims, Ids, AloneIs, History;
  }

  lemma HandleSendStep(s: St, v: Env, oc: seq<Outcome>, due: int)
    requires E2E(s, v) && WF(s) && |oc| == |s.slots|
    ensures var o := HandleSend(s, oc, due); E2E(o.res.s, Requested(v, o.out))
  {
    hide Claims, MsgsOk, TxOk;
    LoadPassStep(s, v, 0);
    SendPassStep(LoadPass(s, 0), v, 0, oc, due);
    HandleSendOk(s, oc, due);
  }
}
