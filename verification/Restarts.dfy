/** What a batch of replies can do to a register: only an operation whose words have begun to go
    out is touched, and a queued read starts only when no write waits. */
module Restarts {
  import opened EngineState
  import opened Partition
  import opened Messages
  import opened Progress
  import opened Peer
  import opened EndToEnd
  import opened EndToEndSteps

  predicate Begun(r: Reg) {
    r.InProgress() && r.nextSend > 0
  }

  /** The register as it may be after some replies: only an operation that has begun is touched,
      and a read waiting behind it starts only when no write waits. */
  predicate Later(r: Reg, r': Reg) {
    if !Begun(r) then r' == r
    else
      || (&& r'.recRead == r.recRead && r'.readQueued == r.readQueued && (r.readQueued ==> r'.InProgress())
          && (Begun(r') ==> r'.state == r.state && r'.writeQueued == r.writeQueued && r'.nextSend == r.nextSend))
      || ReadStarted(r, r')
  }

  predicate ReadStarted(r: Reg, r': Reg) {
    && r.readQueued && !r.writeQueued
    && r'.state == Reading && r'.nextSend == 0 && !r'.writeQueued && r'.recInprog == r.recRead
  }

  ghost predicate AllLater(regs: seq<Reg>, regs': seq<Reg>) {
    |regs'| == |regs| && forall k | 0 <= k < |regs| :: Later(regs[k], regs'[k])
  }

  lemma LaterTwice(a: seq<Reg>, b: seq<Reg>, c: seq<Reg>)
    requires AllLater(a, b) && AllLater(b, c)
    ensures AllLater(a, c)
  {
    forall k | 0 <= k < |a| ensures Later(a[k], c[k]) {
      assert Later(a[k], b[k]) && Later(b[k], c[k]);
    }
  }

  lemma NextLater(r: Reg, o: nat, data: Word)
    requires RegOk(r) && Outstanding(r, o)
    ensures Later(r, NextReg(r, o, data))
  {
    FilledOk(r, o, r.state == Reading, data);
  }

  lemma WordLater(s: St, v: Env, t: Tx, j: nat)
    requires Claims(s, v) && t in v.replies && Current(s.slots, t) && j < NREG
    ensures var o := ProcessWord(s, t.slot, j, t.words); o.Go? ==> AllLater(s.regs, o.s.regs)
  {
    hide RegsOk, SendOk, WordsOk, Unique, Covered, RegClaims, DataClaims, ReplyClaims, Ids, AloneIs, History, TxClaim, RxClaim, Held, ProcessWord, Accept, Later, NextReg;
    var m := s.slots[t.slot];
    assert m.Valid(|s.regs|);
    forall k | 0 <= k < |s.regs| ensures Later(s.regs[k], s.regs[k]) { LaterSame(s.regs[k]); }
    if m.reg[j].None? {
      EmptyWord(s, t.slot, j, t.words);
    } else {
      CurrentWord(s, v, t, j);
      AcceptedWord(s, t.slot, j, t.words);
      var k := m.reg[j].value;
      var o := OffsetOf(s.regs[k], m.buf[2 * j + 2]);
      AcceptRegs(ClearWord(s, t.slot, j), k, o, t.words[2 * j + 3]);
      NextLater(s.regs[k], o, t.words[2 * j + 3]);
    }
  }

  lemma LaterSame(r: Reg)
    ensures Later(r, r)
  {
  }

  lemma AllLaterSame(regs: seq<Reg>)
    ensures AllLater(regs, regs)
  {
  }

  lemma {:induction false} WordsLater(s: St, v: Env, t: Tx, j: nat)
    requires Claims(s, v) && t in v.replies && Current(s.slots, t) && j <= NREG
    requires forall y | 0 <= y < j :: s.slots[t.slot].reg[y].None?
    ensures WF(s)
    ensures var o := ProcessWords(s, t.slot, j, t.words); o.Go? ==> AllLater(s.regs, o.s.regs)
    decreases NREG - j
  {
    hide Inv, RegClaims, DataClaims, ReplyClaims, Ids, AloneIs, History, Reg.Valid, ProcessWord, AllLater;
    assert WF(s) by { InvWF(s); }
    if j == NREG {
      AllLaterSame(s.regs);
    } else {
      var o := ProcessWord(s, t.slot, j, t.words);
      WordStep(s, v, t, j);
      WordLater(s, v, t, j);
      if o.Go? {
        WordsLater(o.s, v, t, j + 1);
        var p := ProcessWords(o.s, t.slot, j + 1, t.words);
        if p.Go? {
          LaterTwice(s.regs, o.s.regs, p.s.regs);
        }
      }
    }
  }

  lemma PacketLater(s: St, v: Env, t: Tx)
    requires E2E(s, v) && t in v.replies && s.sendSeq <= t.attempt + ADDR_LIMIT
    ensures var o := HandleProcess(s, t.words); o.Go? ==> AllLater(s.regs, o.s.regs)
  {
    hide RegsOk, SendOk, WordsOk, Unique, Covered, RegClaims, DataClaims, ReplyClaims, AloneIs, History, MsgsOk, ProcessWords, AllLater;
    var w := t.words;
    if |w| >= 8 && Matches(s, w, w[1] / ADDR_LIMIT) {
      YoungIsCurrent(s, v, t, w[1] / ADDR_LIMIT);
      WordsLater(s, v, t, 0);
    } else {
      AllLaterSame(s.regs);
    }
  }

  lemma {:induction false} PacketsLater(s: St, v: Env, packets: seq<seq<Word>>)
    requires E2E(s, v) && FromDevice(packets, v, s.sendSeq)
    ensures var o := ProcessAll(s, packets); o.Go? ==> AllLater(s.regs, o.s.regs)
    decreases |packets|
  {
    hide E2E, HandleProcess, AllLater;
    assert WF(s) by { E2EWF(s, v); }
    if packets == [] {
      AllLaterSame(s.regs);
    } else {
      assert IsReply(packets[0], v, s.sendSeq);
      var t :| t in v.replies && t.words == packets[0] && s.sendSeq <= t.attempt + ADDR_LIMIT;
      PacketStep(s, v, t);
      PacketLater(s, v, t);
      var o := HandleProcess(s, packets[0]);
      if o.Go? {
        assert forall x | 0 <= x < |packets| - 1 :: packets[1..][x] == packets[x + 1];
        PacketsLater(o.s, v, packets[1..]);
        var p := ProcessAll(o.s, packets[1..]);
        if p.Go? {
          LaterTwice(s.regs, o.s.regs, p.s.regs);
        }
      }
    }
  }
}
