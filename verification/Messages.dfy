/** The messages handle_send builds: what the first pass packs, in which order, when it stops,
    and what every datagram handed to the network looks like. */
module Messages {
  import opened EngineState
  import opened Partition

  /** Exactly the first n address slots are in use. */
  predicate Prefix(reg: seq<Option<RegRef>>, n: nat) {
    |reg| == NREG && n <= NREG && forall y | 0 <= y < NREG :: reg[y].Some? <==> y < n
  }

  /** n words and, only in a message that is shorter than four pairs, padding reads of address 0. */
  predicate PackedBuf(buf: seq<Word>, n: nat) {
    && 1 <= n <= NREG
    && (|buf| == 2 * n + 2 || (|buf| == 8 && 2 * n + 2 < 8))
    && forall x | 2 * n + 2 <= x < |buf| :: buf[x] == if x % 2 == 0 then READ_BIT else 0
  }

  predicate Packed(m: Msg, n: nat) {
    Prefix(m.reg, n) && PackedBuf(m.buf, n)
  }

  /** A free message is empty; a message waiting to be sent or to be answered is packed. */
  ghost predicate MsgOk(m: Msg) {
    && (m.state == Free ==> m.reg == NoRegs() && m.buf == [])
    && (m.state != Free ==> exists n :: Packed(m, n))
  }

  ghost predicate MsgsOk(slots: seq<Msg>) {
    forall i | 0 <= i < |slots| :: MsgOk(slots[i])
  }

  /** A message under construction, not yet marked. */
  ghost predicate Building(m: Msg) {
    m.state != Sent && ((m.reg == NoRegs() && m.buf == []) || exists n :: Packed(m, n))
  }

  lemma LoadedPacked(m: Msg, j: nat, k: RegRef, w: Word, v: Word, nregs: nat)
    requires m.Valid(nregs) && m.state != Sent && j < NREG && m.reg[j].None? && (j > 0 ==> m.reg[j - 1].Some?)
    ensures Packed(Loaded(m, j, k, w, v), j + 1)
  {
    var m' := Loaded(m, j, k, w, v);
    assert forall y | j <= y < NREG :: m.reg[y].None?;
  }

  lemma {:induction false} LoadSlotBuilding(s: St, i: nat, j: nat)
    requires WF(s) && i < |s.slots| && j <= NREG && Building(s.slots[i])
    requires 0 < j ==> s.slots[i].reg[j - 1].Some?
    ensures Building(LoadSlot(s, i, j).slots[i])
    decreases NREG - j
  {
    if j == NREG || !FrontHasWord(s) {
    } else if s.slots[i].reg[j].Some? {
      LoadSlotBuilding(s, i, j + 1);
    } else {
      var r := s.regs[s.send[0]];
      LoadedPacked(s.slots[i], j, s.send[0], r.Cmd(r.nextSend), if r.state == Reading then 0 else r.memTx[r.nextSend], |s.regs|);
      LoadSlotBuilding(LoadWord(s, i, j), i, j + 1);
    }
  }

  lemma MarkOk(s: St, i: nat)
    requires WF(s) && i < |s.slots| && Building(s.slots[i]) && (s.slots[i].state == Ready ==> s.slots[i].reg[0].Some?)
    ensures MsgOk(MarkReady(s, i).slots[i])
  {
    var m := s.slots[i];
    if m.reg[0].Some? {
      var n :| Packed(m, n);
      assert Packed(m.(state := Ready), n);
    }
  }

  lemma {:induction false} LoadSlotKeeps(s: St, i: nat, j: nat)
    requires WF(s) && i < |s.slots| && j <= NREG && s.slots[i].state != Sent
    requires 0 < j ==> s.slots[i].reg[j - 1].Some?
    ensures s.slots[i].reg[0].Some? ==> LoadSlot(s, i, j).slots[i].reg[0].Some?
    decreases NREG - j
  {
    if j == NREG || !FrontHasWord(s) {
    } else if s.slots[i].reg[j].Some? {
      LoadSlotKeeps(s, i, j + 1);
    } else {
      LoadSlotKeeps(LoadWord(s, i, j), i, j + 1);
    }
  }

  lemma SlotPassOk(s: St, i: nat)
    requires WF(s) && i < |s.slots| && s.slots[i].state != Sent && MsgOk(s.slots[i])
    ensures var s' := MarkReady(LoadSlot(s, i, 0), i);
      OnlySlot(s, s', i) && MsgOk(s'.slots[i])
  {
    hide LoadSlot;
    LoadSlotBuilding(s, i, 0);
    LoadSlotKeeps(s, i, 0);
    if s.slots[i].state == Ready {
      var n :| Packed(s.slots[i], n);
      assert s.slots[i].reg[0].Some?;
    }
    MarkOk(LoadSlot(s, i, 0), i);
  }

  lemma {:induction false} LoadPassOk(s: St, i: nat)
    requires WF(s) && i <= |s.slots| && MsgsOk(s.slots)
    ensures MsgsOk(LoadPass(s, i).slots)
    decreases |s.slots| - i
  {
    hide LoadSlot, MarkReady, MsgOk;
    if i == |s.slots| || !FrontHasWord(s) {
    } else if s.slots[i].state == Sent {
      LoadPassOk(s, i + 1);
    } else {
      SlotPassOk(s, i);
      LoadPassOk(MarkReady(LoadSlot(s, i, 0), i), i + 1);
    }
  }

  /* ---- when the first pass stops ---- */

  predicate Full(m: Msg) {
    m.state == Sent || forall y | 0 <= y < |m.reg| :: m.reg[y].Some?
  }

  lemma {:induction false} LoadSlotFills(s: St, i: nat, j: nat)
    requires WF(s) && i < |s.slots| && j <= NREG && s.slots[i].state != Sent
    requires 0 < j ==> s.slots[i].reg[j - 1].Some?
    ensures var s' := LoadSlot(s, i, j); FrontHasWord(s') ==> Full(s'.slots[i])
    decreases NREG - j
  {
    if j == NREG {
      assert s.slots[i].Valid(|s.regs|);
    } else if !FrontHasWord(s) {
    } else if s.slots[i].reg[j].Some? {
      LoadSlotFills(s, i, j + 1);
    } else {
      LoadSlotFills(LoadWord(s, i, j), i, j + 1);
    }
  }

  lemma SlotPassFills(s: St, i: nat)
    requires WF(s) && i < |s.slots| && s.slots[i].state != Sent
    ensures var s' := MarkReady(LoadSlot(s, i, 0), i);
      && (FrontHasWord(s') <==> FrontHasWord(LoadSlot(s, i, 0)))
      && OnlySlot(s, s', i) && (FrontHasWord(s') ==> Full(s'.slots[i]))
  {
    hide LoadSlot;
    LoadSlotFills(s, i, 0);
  }

  lemma {:induction false} LoadPassFills(s: St, i: nat)
    requires WF(s) && i <= |s.slots| && forall x | 0 <= x < i :: Full(s.slots[x])
    ensures var s' := LoadPass(s, i); FrontHasWord(s') ==> forall x | 0 <= x < |s'.slots| :: Full(s'.slots[x])
    decreases |s.slots| - i
  {
    hide LoadSlot, MarkReady, Full;
    if i == |s.slots| || !FrontHasWord(s) {
    } else if s.slots[i].state == Sent {
      assert Full(s.slots[i]) by { SentFull(s.slots[i]); }
      LoadPassFills(s, i + 1);
    } else {
      SlotPassFills(s, i);
      var s1 := LoadSlot(s, i, 0);
      if FrontHasWord(s1) {
        LoadPassFills(MarkReady(s1, i), i + 1);
      } else {
        LoadPassStops(MarkReady(s1, i), i + 1);
      }
    }
  }

  lemma SentFull(m: Msg)
    requires m.state == Sent
    ensures Full(m)
  {
  }

  lemma LoadPassStops(s: St, i: nat)
    requires WF(s) && i <= |s.slots| && !FrontHasWord(s)
    ensures LoadPass(s, i) == s
  {
  }

  /** The first pass ends with an empty queue or with every message Sent or full. */
  lemma FirstPassExhausts(s: St)
    requires Inv(s)
    ensures var s' := LoadPass(s, 0); s'.send == [] || forall x | 0 <= x < |s'.slots| :: Full(s'.slots[x])
  {
    LoadPassFills(s, 0);
    LoadPassInv(s, 0);
    if LoadPass(s, 0).send != [] {
      FrontReady(LoadPass(s, 0));
    }
  }

  /* ---- what is sent ---- */

  /** A datagram: the magic word, slot and attempt, n commands and, below 32 bytes, padding. */
  ghost predicate TxOk(tx: Tx) {
    && tx.slot < 255 && 8 <= |tx.words| <= 2 * NREG + 2
    && tx.words[0] == 0xfeed_c0de && tx.words[1] == tx.slot * 0x100_0000 + tx.attempt % 0x100_0000
    && exists n :: PackedBuf(tx.words, n)
  }

  lemma {:induction false} PaddedPacked(b: seq<Word>, n: nat)
    requires PackedBuf(b, n)
    ensures PackedBuf(Padded(b), n) && |Padded(b)| == if 2 * n + 2 < 8 then 8 else 2 * n + 2
    decreases 8 - |b|
  {
    if |b| < 8 {
      assert |b| == 2 * n + 2;
      if |b| == 4 {
        var b1 := b + [READ_BIT, 0];
        var b2 := b1 + [READ_BIT, 0];
        assert Padded(b2) == b2 && Padded(b1) == Padded(b2) && Padded(b) == Padded(b1);
      } else {
        assert Padded(b) == b + [READ_BIT, 0];
      }
    }
  }

  /** Framing a packed message keeps its commands and makes it at least eight words long. */
  lemma FramedPacked(m: Msg, i: nat, attempt: nat, n: nat)
    requires Packed(m, n) && i < 255
    ensures var m' := Framed(m, i, attempt);
      && Packed(m', n) && 8 <= |m'.buf| <= 2 * NREG + 2
      && m'.buf[0] == MAGIC && m'.buf[1] == SeqWord(i, attempt)
      && forall x | 2 <= x < 2 * n + 2 :: m'.buf[x] == m.buf[x]
  {
    PaddedPacked(m.buf, n);
    assert m.buf <= Padded(m.buf);
  }

  lemma AttemptOk(s: St, i: nat, st: MsgState, due: int)
    requires WF(s) && MsgsOk(s.slots) && i < |s.slots| && s.slots[i].state == Ready && st != Free
    ensures var s' := Attempt(s, i, st, due);
      MsgsOk(s'.slots) && TxOk(Tx(i, s.sendSeq, s'.slots[i].buf))
  {
    assert MsgOk(s.slots[i]);
    var n :| Packed(s.slots[i], n);
    FramedPacked(s.slots[i], i, s.sendSeq, n);
    var m' := Attempt(s, i, st, due).slots[i];
    assert Packed(m', n) && PackedBuf(m'.buf, n);
  }

  /** Every datagram of a handle_send is well formed, 32 to 1448 bytes long. */
  lemma {:induction false} SendPassOk(s: St, i: nat, oc: seq<Outcome>, due: int)
    requires WF(s) && i <= |s.slots| == |oc| && MsgsOk(s.slots)
    ensures var o := SendPass(s, i, oc, due);
      MsgsOk(o.res.s.slots) && forall x | 0 <= x < |o.out| :: TxOk(o.out[x])
    decreases |s.slots| - i
  {
    hide MsgsOk, TxOk, Attempt;
    if i == |s.slots| {
    } else if s.slots[i].state != Ready {
      SendPassOk(s, i + 1, oc, due);
    } else if oc[i] == WouldBlock || oc[i] == SocketFailure {
      AttemptOk(s, i, Ready, s.slots[i].due);
    } else {
      AttemptOk(s, i, Sent, due);
      SendPassOk(Attempt(s, i, Sent, due), i + 1, oc, due);
    }
  }

  lemma HandleSendOk(s: St, oc: seq<Outcome>, due: int)
    requires WF(s) && |oc| == |s.slots| && MsgsOk(s.slots)
    ensures var o := HandleSend(s, oc, due);
      MsgsOk(o.res.s.slots) && forall x | 0 <= x < |o.out| :: TxOk(o.out[x])
  {
    hide MsgsOk, TxOk;
    LoadPassOk(s, 0);
    SendPassOk(LoadPass(s, 0), 0, oc, due);
  }

  /* ---- receiving ---- */

  lemma ClearedOk(slots: seq<Msg>, i: nat)
    requires i < |slots| && MsgsOk(slots)
    ensures MsgsOk(slots[i := slots[i].(reg := NoRegs())][i := Cleared(slots[i])])
  {
  }

  lemma HandleProcessOk(s: St, w: seq<Word>)
    requires Inv(s) && MsgsOk(s.slots)
    ensures var o := HandleProcess(s, w); o.Go? ==> Lost(o.s) || (Inv(o.s) && MsgsOk(o.s.slots))
  {
    hide RegsOk, SendOk, WordsOk, Unique, Covered, MsgsOk, ProcessWords;
    HandleProcessInv(s, w);
    if |w| >= 8 && Matches(s, w, w[1] / ADDR_LIMIT) {
      var i := w[1] / ADDR_LIMIT;
      ProcessWordsInv(s, i, 0, w);
      var o := ProcessWords(s, i, 0, w);
      ClearedOk(s.slots, i);
    }
  }

  lemma {:induction false} ProcessAllOk(s: St, packets: seq<seq<Word>>)
    requires Lost(s) || (Inv(s) && MsgsOk(s.slots))
    ensures var o := ProcessAll(s, packets); o.Go? ==> Lost(o.s) || (Inv(o.s) && MsgsOk(o.s.slots))
    decreases |packets|
  {
    hide RegsOk, SendOk, WordsOk, Unique, Covered, MsgsOk, HandleProcess;
    if packets != [] {
      if Lost(s) {
        LostPacket(s, packets[0]);
      } else {
        HandleProcessOk(s, packets[0]);
      }
      var o := HandleProcess(s, packets[0]);
      if o.Go? {
        ProcessAllOk(o.s, packets[1..]);
      }
    }
  }

  lemma LostPacket(s: St, w: seq<Word>)
    requires Lost(s)
    ensures var o := HandleProcess(s, w); o.Go? && Lost(o.s)
  {
    if |w| >= 8 && Matches(s, w, w[1] / ADDR_LIMIT) {
      LostWords(s, w[1] / ADDR_LIMIT, 0, w);
    }
  }
}
