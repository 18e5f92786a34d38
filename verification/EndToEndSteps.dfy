/** Each step of the driver keeps the end-to-end invariant. */
module EndToEndSteps {
  import opened EngineState
  import opened Partition
  import opened Messages
  import opened Progress
  import opened Peer
  import opened EndToEnd

  /* ---- one answered word ---- */

  lemma FilledTx(r: Reg, k: RegRef, v: Env, o: nat, data: Word)
    requires RegOk(r) && Outstanding(r, o) && TxClaim(r, k, v)
    requires Settled(r, k, v) ==> if r.state == Writing then WriteOk(r, v.mem, o) else EchoOk(r, v.mem, o, data)
    ensures TxClaim(Filled(r, o, r.state == Reading, data), k, v)
  {
    var r' := Filled(r, o, r.state == Reading, data);
    if Settled(r', k, v) {
      forall u | 0 <= u < |r'.received| && (r'.state == Writing ==> r'.received[u]) ensures WriteOk(r', v.mem, u) {
        assert (u == o && r.state == Writing) || WriteOk(r, v.mem, u);
      }
      forall u | 0 <= u < |r'.received| && r'.received[u] && r'.latest ensures u < |r'.memRx| && EchoOk(r', v.mem, u, r'.memRx[u]) {
        assert u == o || EchoOk(r, v.mem, u, r.memRx[u]);
      }
    }
  }

  lemma FilledRx(r: Reg, k: RegRef, v: Env, o: nat, data: Word)
    requires RegOk(r) && Outstanding(r, o) && RxClaim(r, k, v)
    requires r.state == Reading ==> k in v.since && (Addr(r, o) in v.mem ==> Held(v.log, v.since[k], Addr(r, o), data))
    ensures RxClaim(Filled(r, o, r.state == Reading, data), k, v)
  {
    var r' := Filled(r, o, r.state == Reading, data);
    if r.state == Reading {
      forall u | 0 <= u < |r'.received| && r'.received[u] ensures ReadOk(r', k, v, u) {
        if u != o {
          assert ReadOk(r, k, v, u);
        }
      }
    } else if k in v.since {
      forall u | 0 <= u < |r'.received| ensures ReadOk(r', k, v, u) {
        assert ReadOk(r, k, v, u);
      }
    }
  }

  /** Starting an operation leaves nothing received, so only the send cache's side can matter. */
  lemma StartedClaims(r: Reg, k: RegRef, v: Env, write: bool, action: Option<Action>)
    requires r.Valid() && r.state != Reading && RxClaim(r, k, v)
    requires !write && Settled(r, k, v) ==> forall o | 0 <= o < |r.received| :: WriteOk(r, v.mem, o)
    ensures TxClaim(Started(r, write, action), k, v) && RxClaim(Started(r, write, action), k, v)
  {
    var r' := Started(r, write, action);
    forall u | 0 <= u < |r'.received| && !write && Settled(r', k, v) ensures WriteOk(r', v.mem, u) {
      assert WriteOk(r, v.mem, u);
    }
    forall u | 0 <= u < |r'.received| && write && k in v.since ensures ReadOk(r', k, v, u) {
      assert ReadOk(r, k, v, u);
    }
  }

  /** All words in: the register's claims hold for all of it, whatever it goes on to do. */
  lemma CompletedClaims(r: Reg, k: RegRef, v: Env)
    requires r.Valid() && r.InProgress() && TxClaim(r, k, v) && RxClaim(r, k, v)
    requires forall o | 0 <= o < |r.received| :: r.received[o]
    ensures TxClaim(Completed(r), k, v) && RxClaim(Completed(r), k, v)
  {
    var idle := r.(state := InSync, recInprog := []);
    if Settled(r, k, v) {
      forall u | 0 <= u < |r.received| ensures WriteOk(idle, v.mem, u) {
        assert WriteOk(r, v.mem, u);
      }
    }
    forall u | 0 <= u < |r.received| && k in v.since ensures ReadOk(idle, k, v, u) {
      assert ReadOk(r, k, v, u);
    }
    assert TxClaim(idle, k, v) && RxClaim(idle, k, v);
    if r.writeQueued {
      var r1 := idle.(writeQueued := false, recInprog := r.recWrite, recWrite := []);
      QueuedClaims(idle, r1, k, v);
      StartedClaims(r1, k, v, true, None);
      StateUnused(r.(writeQueued := false, recInprog := r.recWrite, recWrite := []), r1, true);
    } else if r.readQueued {
      var r1 := idle.(readQueued := false, recInprog := r.recRead, recRead := []);
      QueuedClaims(idle, r1, k, v);
      forall u | 0 <= u < |r1.received| && Settled(r1, k, v) ensures WriteOk(r1, v.mem, u) {
        assert WriteOk(idle, v.mem, u);
      }
      StartedClaims(r1, k, v, false, None);
      StateUnused(r.(readQueued := false, recInprog := r.recRead, recRead := []), r1, false);
    }
  }

  lemma QueuedClaims(r: Reg, r1: Reg, k: RegRef, v: Env)
    requires RxClaim(r, k, v) && r1.info == r.info && r1.state == r.state && r1.memRx == r.memRx && r1.received == r.received
    ensures RxClaim(r1, k, v)
  {
    forall u | 0 <= u < |r1.received| && k in v.since && r.state != Reading ensures ReadOk(r1, k, v, u) {
      assert ReadOk(r, k, v, u);
    }
    forall u | 0 <= u < |r1.received| && r.state == Reading && r.received[u] ensures ReadOk(r1, k, v, u) {
      assert ReadOk(r, k, v, u);
    }
  }

  /* ---- the words in the messages ---- */

  /** What b holds a holds with the same data, and b makes no known reply current. */
  ghost predicate Fewer(a: seq<Msg>, b: seq<Msg>, v: Env) {
    && |a| == |b|
    && (forall i, j, k, w | Holds(b, i, j, k, w) :: Holds(a, i, j, k, w) && DataAt(b, i, j) == DataAt(a, i, j))
    && (forall t | t in v.replies && Current(b, t) :: Current(a, t))
  }

  /** Register k changed to r', and either the words under way for it are as before or there are none. */
  lemma FewerClaims(regs: seq<Reg>, a: seq<Msg>, b: seq<Msg>, k: RegRef, r': Reg, v: Env)
    requires k < |regs| && Fewer(a, b, v) && DataClaims(regs, a, v) && ReplyClaims(regs, a, v)
    requires SameWriting(regs[k], r') || (forall i, j, w :: !Holds(b, i, j, k, w))
    ensures DataClaims(regs[k := r'], b, v) && ReplyClaims(regs[k := r'], b, v)
  {
    var regs' := regs[k := r'];
    forall i, j, h, w | Holds(b, i, j, h, w) ensures 0 <= h < |regs'| && DataOk(regs'[h], h, w, DataAt(b, i, j), v) {
      assert Holds(a, i, j, h, w);
      assert DataOk(regs[h], h, w, DataAt(a, i, j), v);
    }
    forall t, j, h, w | t in v.replies && Current(b, t) && Holds(b, t.slot, j, h, w)
      ensures Echoes(t, j, w) && 0 <= h < |regs'| && (regs'[h].state == Reading ==> h in v.since)
        && Answered(regs'[h], h, w, DataAt(b, t.slot, j), t.words[2 * j + 3], v)
    {
      assert Current(a, t) && Holds(a, t.slot, j, h, w);
      assert Echoes(t, j, w) && Answered(regs[h], h, w, DataAt(a, t.slot, j), t.words[2 * j + 3], v);
    }
  }

  predicate SameWriting(r: Reg, r': Reg) {
    r'.info == r.info && r'.state == r.state && r'.memTx == r.memTx && (r'.writeQueued || !r.writeQueued)
  }

  lemma ClaimsUpdate(regs: seq<Reg>, k: RegRef, r': Reg, v: Env)
    requires RegClaims(regs, v) && k < |regs| && TxClaim(r', k, v) && RxClaim(r', k, v) && r'.info == regs[k].info
    requires r'.state == Writing ==> r'.info.writable
    ensures RegClaims(regs[k := r'], v)
  {
    hide TxClaim, RxClaim;
  }

  lemma AloneUpdate(regs: seq<Reg>, k: RegRef, r': Reg, v: Env)
    requires AloneIs(regs, v) && k < |regs| && r'.info == regs[k].info
    ensures AloneIs(regs[k := r'], v)
  {
    forall h ensures Alone(regs, h) <==> Alone(regs[k := r'], h) {
      assert |regs[k := r']| == |regs| && forall x | 0 <= x < |regs| :: regs[k := r'][x].info == regs[x].info;
    }
  }

  /** The identities of the messages and their requests do not depend on the registers. */
  lemma IdsSame(a: seq<Msg>, b: seq<Msg>, sendSeq: nat, v: Env)
    requires Ids(a, sendSeq, v) && |a| == |b|
    requires forall i | 0 <= i < |a| :: b[i].state == a[i].state && b[i].attempt == a[i].attempt && b[i].seqno == a[i].seqno && b[i].buf == a[i].buf
    ensures Ids(b, sendSeq, v)
  {
    forall t | t in v.reqs ensures RequestId(t, b, v.replies) {
      assert RequestId(t, a, v.replies);
    }
    forall t | t in v.replies ensures ReplyId(t, b, sendSeq) {
      assert ReplyId(t, a, sendSeq);
    }
  }

  lemma CommandMasked(r: Reg, o: nat)
    requires r.Valid() && o < r.info.size
    ensures Masked(r.Cmd(o)) == r.Cmd(o)
  {
    var x := r.info.base + o;
    if r.state == Reading {
      assert r.Cmd(o) == READ_BIT + x;
    }
  }

  /** The register after an accepted word, whether or not the word was its last. */
  function NextReg(r: Reg, o: nat, data: Word): (r': Reg)
    requires r.Valid() && o < r.info.size
    ensures r'.Valid() && r'.info == r.info
  {
    var f := Filled(r, o, r.state == Reading, data);
    if f.nremaining == 0 then Completed(f) else f
  }

  lemma WFReg(s: St, k: RegRef)
    requires WF(s) && k < |s.regs|
    ensures s.regs[k].Valid()
  {
  }

  lemma AcceptRegs(s: St, k: RegRef, o: nat, data: Word)
    requires WF(s) && k < |s.regs| && o < s.regs[k].info.size
    ensures var a := Accept(s, k, o, s.regs[k].state == Reading, data);
      a.Go? ==>
        && a.s.regs == s.regs[k := NextReg(s.regs[k], o, data)] && a.s.slots == s.slots && a.s.sendSeq == s.sendSeq
        && (a.s.regs[k].state == Writing ==> s.regs[k].state == Writing || s.regs[k].info.writable)
  {
    hide Complete, Completed, WF, Filled;
    assert s.regs[k].Valid() by { WFReg(s, k); }
    var f := Filled(s.regs[k], o, s.regs[k].state == Reading, data);
    FilledState(s.regs[k], o, s.regs[k].state == Reading, data);
    var s1 := SetReg(s, k, f);
    if f.nremaining == 0 && Complete(s1, k).Go? {
      CompleteShape(s1, k);
      CompleteWritable(s1, k);
      SetTwice(s.regs, k, f, Completed(f));
    }
  }

  lemma FilledState(r: Reg, o: nat, read: bool, data: Word)
    requires r.Valid() && o < r.info.size
    ensures Filled(r, o, read, data).state == r.state
  {
  }

  lemma CompleteWritable(s: St, k: RegRef)
    requires WF(s) && k < |s.regs| && Complete(s, k).Go?
    ensures Completed(s.regs[k]).state == Writing ==> s.regs[k].info.writable
  {
  }

  lemma NextClaims(r: Reg, k: RegRef, v: Env, o: nat, data: Word)
    requires RegOk(r) && Outstanding(r, o) && TxClaim(r, k, v) && RxClaim(r, k, v)
    requires Settled(r, k, v) ==> if r.state == Writing then WriteOk(r, v.mem, o) else EchoOk(r, v.mem, o, data)
    requires r.state == Reading ==> k in v.since && (Addr(r, o) in v.mem ==> Held(v.log, v.since[k], Addr(r, o), data))
    ensures TxClaim(NextReg(r, o, data), k, v) && RxClaim(NextReg(r, o, data), k, v)
  {
    hide TxClaim, RxClaim, Completed;
    var f := Filled(r, o, r.state == Reading, data);
    FilledOk(r, o, r.state == Reading, data);
    FilledTx(r, k, v, o, data);
    FilledRx(r, k, v, o, data);
    if f.nremaining == 0 {
      MissingNone(f.received);
      CompletedClaims(f, k, v);
    }
  }

  /** The reply to the current message of slot i says what was asked, word by word. */
  lemma CurrentWord(s: St, v: Env, t: Tx, j: nat)
    requires Claims(s, v) && t in v.replies && Current(s.slots, t) && j < NREG && s.slots[t.slot].reg[j].Some?
    ensures var i := t.slot;
      var k := s.slots[i].reg[j].value;
      var r := s.regs[k];
      var o := OffsetOf(r, s.slots[i].buf[2 * j + 2]);
      && 2 * j + 3 < |t.words| && Masked(t.words[2 * j + 2]) == s.slots[i].buf[2 * j + 2]
      && RegOk(r) && Outstanding(r, o) && TxClaim(r, k, v) && RxClaim(r, k, v)
      && (Settled(r, k, v) ==> if r.state == Writing then WriteOk(r, v.mem, o) else EchoOk(r, v.mem, o, t.words[2 * j + 3]))
      && (r.state == Reading ==> k in v.since && (Addr(r, o) in v.mem ==> Held(v.log, v.since[k], Addr(r, o), t.words[2 * j + 3])))
  {
    hide TxClaim, RxClaim, RegsOk, SendOk, Unique, Covered, Held;
    var i := t.slot;
    UsedWord(s, i, j);
    var k := s.slots[i].reg[j].value;
    var r := s.regs[k];
    var w := s.slots[i].buf[2 * j + 2];
    var o := OffsetOf(r, w);
    assert Holds(s.slots, i, j, k, w);
    assert Echoes(t, j, w) && Answered(r, k, w, DataAt(s.slots, i, j), t.words[2 * j + 3], v);
    assert DataOk(r, k, w, DataAt(s.slots, i, j), v);
    CommandMasked(r, o);
  }

  lemma ClearedFewer(slots: seq<Msg>, i: nat, j: nat, v: Env)
    requires i < |slots| && j < |slots[i].reg|
    ensures Fewer(slots, slots[i := WordCleared(slots[i], j)], v)
  {
  }

  /** A register that has just completed is referred to by no message. */
  lemma NextUnheld(s': St, k: RegRef, r: Reg, o: nat, data: Word)
    requires Inv(s') && k < |s'.regs| && RegOk(r) && Outstanding(r, o) && s'.regs[k] == NextReg(r, o, data)
    ensures SameWriting(r, s'.regs[k])
      || (forall i, j, w :: !Holds(s'.slots, i, j, k, w))
  {
    FilledOk(r, o, r.state == Reading, data);
    if Filled(r, o, r.state == Reading, data).nremaining == 0 {
      assert forall u :: !Outstanding(s'.regs[k], u);
    }
  }

  lemma WordStep(s: St, v: Env, t: Tx, j: nat)
    requires Claims(s, v) && t in v.replies && Current(s.slots, t) && j < NREG
    ensures var o := ProcessWord(s, t.slot, j, t.words);
      o.Go? ==> Claims(o.s, v) && o.s.slots == s.slots[t.slot := WordCleared(s.slots[t.slot], j)] && o.s.sendSeq == s.sendSeq
  {
    hide RegsOk, SendOk, WordsOk, Unique, Covered, RegClaims, DataClaims, ReplyClaims, Ids, AloneIs, History, TxClaim, RxClaim, Held, ProcessWord, Accept;
    var i := t.slot;
    var m := s.slots[i];
    assert m.Valid(|s.regs|);
    if m.reg[j].None? {
      EmptyWord(s, i, j, t.words);
    } else {
      CurrentWord(s, v, t, j);
      AcceptedWord(s, i, j, t.words);
      var k := m.reg[j].value;
      var r := s.regs[k];
      var o := OffsetOf(r, m.buf[2 * j + 2]);
      var s0 := ClearWord(s, i, j);
      var a := Accept(s0, k, o, r.state == Reading, t.words[2 * j + 3]);
      if a.Go? {
        AcceptRegs(s0, k, o, t.words[2 * j + 3]);
        NextClaims(r, k, v, o, t.words[2 * j + 3]);
        if r.state == Writing {
          WritingWritable(s.regs, v, k);
        }
        ClearedFewer(s.slots, i, j, v);
        NextUnheld(a.s, k, r, o, t.words[2 * j + 3]);
        FewerClaims(s.regs, s.slots, a.s.slots, k, a.s.regs[k], v);
        ClaimsUpdate(s.regs, k, a.s.regs[k], v);
        AloneUpdate(s.regs, k, a.s.regs[k], v);
        IdsSame(s.slots, a.s.slots, s.sendSeq, v);
      }
    }
  }

  lemma WritingWritable(regs: seq<Reg>, v: Env, k: RegRef)
    requires RegClaims(regs, v) && k < |regs| && regs[k].state == Writing
    ensures regs[k].info.writable
  {
  }

  lemma EmptyWord(s: St, i: nat, j: nat, w: seq<Word>)
    requires WF(s) && i < |s.slots| && j < NREG && BeingProcessed(s.slots[i]) && |s.slots[i].reg| == NREG && s.slots[i].reg[j].None?
    ensures ProcessWord(s, i, j, w) == Go(s) && s.slots == s.slots[i := WordCleared(s.slots[i], j)]
  {
    assert s.slots[i] == WordCleared(s.slots[i], j);
  }

  lemma {:induction false} WordsStep(s: St, v: Env, t: Tx, j: nat)
    requires Claims(s, v) && t in v.replies && Current(s.slots, t) && j <= NREG
    requires forall y | 0 <= y < j :: s.slots[t.slot].reg[y].None?
    ensures var o := ProcessWords(s, t.slot, j, t.words);
      o.Go? ==> Claims(o.s, v) && o.s.slots == s.slots[t.slot := s.slots[t.slot].(reg := NoRegs())] && o.s.sendSeq == s.sendSeq
    decreases NREG - j
  {
    hide Inv, RegClaims, DataClaims, ReplyClaims, Ids, AloneIs, History, Reg.Valid, ProcessWord;
    assert WF(s) by { InvWF(s); }
    var i := t.slot;
    if j == NREG {
      assert s.slots[i].Valid(|s.regs|);
      assert s.slots[i].reg == NoRegs();
      assert s.slots == s.slots[i := s.slots[i].(reg := NoRegs())];
    } else {
      var o := ProcessWord(s, i, j, t.words);
      WordStep(s, v, t, j);
      if o.Go? {
        WordsStep(o.s, v, t, j + 1);
        SetSlotTwice(s.slots, i, WordCleared(s.slots[i], j), s.slots[i].(reg := NoRegs()));
      }
    }
  }

  lemma EmptyFewer(slots: seq<Msg>, i: nat, v: Env)
    requires i < |slots| && slots[i].reg == NoRegs()
    ensures Fewer(slots, slots[i := Cleared(slots[i])], v)
  {
  }

  /** When the answered message is freed no request refers to its slot. */
  lemma FreedIds(slots: seq<Msg>, t: Tx, sendSeq: nat, v: Env)
    requires Ids(slots, sendSeq, v) && t in v.replies && Current(slots, t)
    ensures Ids(slots[t.slot := Cleared(slots[t.slot])], sendSeq, v)
  {
    var b := slots[t.slot := Cleared(slots[t.slot])];
    forall q | q in v.reqs ensures RequestId(q, b, v.replies) {
      assert RequestId(q, slots, v.replies);
    }
    forall u | u in v.replies ensures ReplyId(u, b, sendSeq) {
      assert ReplyId(u, slots, sendSeq);
    }
  }

  lemma FreedClaims(s: St, v: Env, t: Tx)
    requires Claims(s, v) && t in v.replies && Current(s.slots, t) && s.slots[t.slot].reg == NoRegs()
    ensures Claims(ClearSlot(s, t.slot), v)
  {
    hide RegsOk, SendOk, WordsOk, Unique, Covered, RegClaims, DataClaims, ReplyClaims, Ids, AloneIs, History, Fewer;
    ClearInv(s, t.slot);
    EmptyFewer(s.slots, t.slot, v);
    FreedIds(s.slots, t, s.sendSeq, v);
    FewerClaims(s.regs, s.slots, s.slots[t.slot := Cleared(s.slots[t.slot])], REG_ID, s.regs[REG_ID], v);
    assert s.regs[REG_ID := s.regs[REG_ID]] == s.regs;
  }

  /** One received packet that is a reply of the device younger than 2^24 attempts. */
  lemma PacketStep(s: St, v: Env, t: Tx)
    requires E2E(s, v) && t in v.replies && s.sendSeq <= t.attempt + ADDR_LIMIT
    ensures var o := HandleProcess(s, t.words);
      o.Go? ==> E2E(o.s, v) && o.s.sendSeq == s.sendSeq
  {
    hide RegsOk, SendOk, WordsOk, Unique, Covered, RegClaims, DataClaims, ReplyClaims, AloneIs, History, MsgsOk, ProcessWords;
    var w := t.words;
    if |w| >= 8 && Matches(s, w, w[1] / ADDR_LIMIT) {
      var i := w[1] / ADDR_LIMIT;
      YoungIsCurrent(s, v, t, i);
      WordsStep(s, v, t, 0);
      var o := ProcessWords(s, i, 0, w);
      if o.Go? {
        assert t in v.replies && Current(o.s.slots, t);
        FreedClaims(o.s, v, t);
        ClearedOk(s.slots, i);
      }
    }
  }

  /** A batch of them: all from the device, all young enough when the batch is taken. */
  ghost predicate FromDevice(packets: seq<seq<Word>>, v: Env, sendSeq: nat) {
    forall x | 0 <= x < |packets| :: IsReply(packets[x], v, sendSeq)
  }

  ghost predicate IsReply(w: seq<Word>, v: Env, sendSeq: nat) {
    exists t :: t in v.replies && t.words == w && sendSeq <= t.attempt + ADDR_LIMIT
  }

  lemma {:induction false} PacketsStep(s: St, v: Env, packets: seq<seq<Word>>)
    requires E2E(s, v) && FromDevice(packets, v, s.sendSeq)
    ensures var o := ProcessAll(s, packets);
      o.Go? ==> E2E(o.s, v) && o.s.sendSeq == s.sendSeq
    decreases |packets|
  {
    hide E2E, HandleProcess;
    assert WF(s) by { E2EWF(s, v); }
    if packets != [] {
      assert IsReply(packets[0], v, s.sendSeq);
      var t :| t in v.replies && t.words == packets[0] && s.sendSeq <= t.attempt + ADDR_LIMIT;
      PacketStep(s, v, t);
      var o := HandleProcess(s, packets[0]);
      if o.Go? {
        assert forall x | 0 <= x < |packets| - 1 :: packets[1..][x] == packets[x + 1];
        PacketsStep(o.s, v, packets[1..]);
      }
    }
  }

  lemma E2EWF(s: St, v: Env)
    requires E2E(s, v)
    ensures WF(s)
  {
  }
}
