/** Steps of the device keep the end-to-end invariant: it answers a request, or a word of it that
    no record can write changes by itself.
 */
module EndToEndDevice {
  import opened EngineState
  import opened Partition
  import opened Messages
  import opened Peer
  import opened EndToEnd

  /** The device answers request t. */
  function Executed(v: Env, t: Tx): Env
    requires ValidMemory(v.mem)
  {
    var ans := Exec(v.mem, t.words, 2);
    v.(mem := ans.mem, log := v.log + Steps(v.mem, t.words, 2), reqs := v.reqs - {t}, replies := v.replies + {Reply(v.mem, t)})
  }

  function Reply(mem: Memory, t: Tx): Tx
    requires ValidMemory(mem)
  {
    t.(words := Exec(mem, t.words, 2).words)
  }

  /** The device changes its word at address a. */
  function Drifted(v: Env, a: nat, x: Word): Env
    requires a in v.mem
  {
    var mem := v.mem[a := v.mem[a].(value := x)];
    v.(mem := mem, log := v.log + [mem])
  }

  ghost predicate Writable(regs: seq<Reg>, a: nat) {
    exists k :: 0 <= k < |regs| && regs[k].info.writable && InRegister(regs[k], a)
  }

  predicate InRegister(r: Reg, a: nat) {
    r.info.base <= a < r.info.base + r.info.size
  }

  /* ---- a new memory ---- */

  predicate SameWord(mem: Memory, mem': Memory, a: int) {
    0 <= a && (a in mem ==> a in mem' && mem'[a] == mem[a])
  }

  /** Message i is the one that writes offset o of register k. */
  ghost predicate WrittenBy(slots: seq<Msg>, i: int, r: Reg, k: int, o: int) {
    r.state == Writing && exists j :: Holds(slots, i, j, k, r.Command(o))
  }

  /** Of the words only one register writes, only those message i writes may have changed. */
  ghost predicate Keeps(regs: seq<Reg>, slots: seq<Msg>, mem: Memory, mem': Memory, i: int) {
    forall k, o | 0 <= k < |regs| && 0 <= o < regs[k].info.size && regs[k].info.writable && Alone(regs, k) && !WrittenBy(slots, i, regs[k], k, o) ::
      SameWord(mem, mem', Addr(regs[k], o))
  }

  ghost predicate Aged(v: Env, v': Env) {
    && v' == v.(mem := v'.mem, log := v'.log, reqs := v'.reqs, replies := v'.replies)
    && v.log <= v'.log && SameCells(v.mem, v'.mem) && History(v')
  }

  lemma HeldLonger(v: Env, v': Env, from: nat, a: int, x: Word)
    requires Aged(v, v') && Held(v.log, from, a, x)
    ensures Held(v'.log, from, a, x)
  {
    var t :| from <= t < |v.log| && HeldAt(v.log, t, a, x);
    assert HeldAt(v'.log, t, a, x);
  }

  lemma AgedTx(r: Reg, k: RegRef, v: Env, v': Env)
    requires r.Valid() && TxClaim(r, k, v) && Aged(v, v')
    requires forall o | 0 <= o < r.info.size && Settled(r, k, v) && (r.state == Writing ==> r.received[o]) :: SameWord(v.mem, v'.mem, Addr(r, o))
    ensures TxClaim(r, k, v')
  {
    if Settled(r, k, v') {
      forall o | 0 <= o < |r.received| && (r.state == Writing ==> r.received[o]) ensures WriteOk(r, v'.mem, o) {
        assert WriteOk(r, v.mem, o) && SameWord(v.mem, v'.mem, Addr(r, o));
      }
      forall o | 0 <= o < |r.received| && r.received[o] && r.latest ensures EchoOk(r, v'.mem, o, r.memRx[o]) {
        assert EchoOk(r, v.mem, o, r.memRx[o]);
      }
    }
  }

  lemma AgedRead(r: Reg, k: RegRef, v: Env, v': Env, o: int)
    requires ReadOk(r, k, v, o) && Aged(v, v')
    ensures ReadOk(r, k, v', o)
  {
    if Addr(r, o) in v.mem {
      HeldLonger(v, v', v.since[k], Addr(r, o), r.memRx[o]);
    }
  }

  lemma AgedRx(r: Reg, k: RegRef, v: Env, v': Env)
    requires RxClaim(r, k, v) && Aged(v, v')
    ensures RxClaim(r, k, v')
  {
    forall o | 0 <= o < |r.received| && ReadOk(r, k, v, o) ensures ReadOk(r, k, v', o) {
      AgedRead(r, k, v, v', o);
    }
  }

  /** Words already received are written by no message. */
  lemma ReceivedApart(s: St, k: RegRef, o: int, i: int)
    requires Inv(s) && k < |s.regs| && 0 <= o < |s.regs[k].received| && (s.regs[k].state == Writing ==> s.regs[k].received[o])
    ensures !WrittenBy(s.slots, i, s.regs[k], k, o)
  {
    assert s.regs[k].Valid();
    CommandAt(s.regs[k], o);
  }

  lemma CommandAt(r: Reg, o: int)
    requires r.Valid() && 0 <= o < r.info.size
    ensures OffsetOf(r, r.Command(o)) == o
  {
  }

  lemma AgedRegs(s: St, v: Env, v': Env, i: int)
    requires Inv(s) && AloneIs(s.regs, v) && RegClaims(s.regs, v) && Aged(v, v') && Keeps(s.regs, s.slots, v.mem, v'.mem, i)
    ensures RegClaims(s.regs, v')
  {
    hide SendOk, WordsOk, Unique, Covered, TxClaim, RxClaim, SameWord, Inv, Aged;
    forall k | 0 <= k < |s.regs| ensures TxClaim(s.regs[k], k, v') && RxClaim(s.regs[k], k, v') {
      var r := s.regs[k];
      assert r.Valid() by { InvReg(s, k); }
      AgedRx(r, k, v, v');
      forall o | 0 <= o < r.info.size && Settled(r, k, v) && (r.state == Writing ==> r.received[o]) ensures SameWord(v.mem, v'.mem, Addr(r, o)) {
        ReceivedApart(s, k, o, i);
      }
      AgedTx(r, k, v, v');
    }
    assert v'.synced == v.synced && v'.since == v.since by { AgedSame(v, v'); }
  }

  lemma AgedSame(v: Env, v': Env)
    requires Aged(v, v')
    ensures v'.synced == v.synced && v'.since == v.since && v'.alone == v.alone && History(v')
  {
  }

  lemma InvReg(s: St, k: RegRef)
    requires Inv(s) && k < |s.regs|
    ensures RegOk(s.regs[k])
  {
  }

  /** A word of another message is not the one message i writes. */
  lemma OtherSlot(s: St, x: int, j: int, k: int, w: int, i: int)
    requires Inv(s) && Holds(s.slots, x, j, k, w) && x != i
    ensures 0 <= k < |s.regs| && WordOk(s.regs[k], w) && s.regs[k].Valid()
    ensures !WrittenBy(s.slots, i, s.regs[k], k, OffsetOf(s.regs[k], w))
  {
  }

  lemma AgedAnswer(r: Reg, k: RegRef, w: int, sent: int, got: Word, v: Env, v': Env)
    requires Answered(r, k, w, sent, got, v) && Aged(v, v')
    requires r.state != Reading && k in v.alone ==> SameWord(v.mem, v'.mem, Addr(r, OffsetOf(r, w)))
    ensures Answered(r, k, w, sent, got, v')
  {
    if r.state == Reading && Addr(r, OffsetOf(r, w)) in v.mem {
      HeldLonger(v, v', v.since[k], Addr(r, OffsetOf(r, w)), got);
    }
  }

  /** One reply that is current keeps its meaning when message i, another one, is executed. */
  lemma AgedReply(s: St, v: Env, v': Env, i: int, t: Tx, j: int, k: int, w: int)
    requires Inv(s) && AloneIs(s.regs, v) && RegClaims(s.regs, v) && ReplyClaims(s.regs, s.slots, v) && Aged(v, v') && Keeps(s.regs, s.slots, v.mem, v'.mem, i)
    requires t in v.replies && Current(s.slots, t) && t.slot != i && Holds(s.slots, t.slot, j, k, w)
    ensures Echoes(t, j, w) && 0 <= k < |s.regs| && (s.regs[k].state == Reading ==> k in v'.since)
    ensures Answered(s.regs[k], k, w, DataAt(s.slots, t.slot, j), t.words[2 * j + 3], v')
  {
    hide Inv, Answered, TxClaim, RxClaim, SameWord, Alone;
    OtherSlot(s, t.slot, j, k, w, i);
    AgedAnswer(s.regs[k], k, w, DataAt(s.slots, t.slot, j), t.words[2 * j + 3], v, v');
  }

  /* ---- a request is executed ---- */

  lemma Apart(regs: seq<Reg>, k: RegRef, h: RegRef, o: int, u: int)
    requires Alone(regs, k) && h < |regs| && regs[h].info.writable && 0 <= o < regs[k].info.size && 0 <= u < regs[h].info.size
    requires Addr(regs[k], o) == Addr(regs[h], u)
    ensures k == h && o == u
  {
  }

  /** Whatever a message in flight writes, it writes for a word it holds. */
  lemma PairHeld(s: St, i: nat, y: nat, a: nat)
    requires Inv(s) && i < |s.slots| && s.slots[i].state == Sent && MsgOk(s.slots[i])
    requires 2 <= y && y % 2 == 0 && Writes(s.slots[i].buf, y, a)
    ensures (y - 2) / 2 < NREG && s.slots[i].reg[(y - 2) / 2].Some?
    ensures var k := s.slots[i].reg[(y - 2) / 2].value;
      && k < |s.regs| && Holds(s.slots, i, (y - 2) / 2, k, s.slots[i].buf[y]) && s.regs[k].state == Writing
      && WordOk(s.regs[k], s.slots[i].buf[y]) && s.regs[k].Valid() && a == Addr(s.regs[k], OffsetOf(s.regs[k], s.slots[i].buf[y]))
  {
    hide RegsOk, SendOk, Unique, Covered;
    var m := s.slots[i];
    var n :| Packed(m, n);
    var j := (y - 2) / 2;
    PaddingReads();
    assert y == 2 * j + 2 && j < n;
    var k := m.reg[j].value;
    assert Holds(s.slots, i, j, k, m.buf[y]);
    InvReg(s, k);
    CommandReads(s.regs[k], OffsetOf(s.regs[k], m.buf[y]));
  }

  lemma PaddingReads()
    ensures IsRead(READ_BIT)
  {
  }

  lemma CommandReads(r: Reg, o: int)
    requires r.Valid() && 0 <= o < r.info.size
    ensures 0 <= r.Command(o) < WORD_LIMIT && (IsRead(r.Command(o)) <==> r.state == Reading)
    ensures r.Command(o) % ADDR_LIMIT == Addr(r, o)
  {
  }

  /** A message writes the address of word o of register k, which no other register writes, only
      if it is k's message for o. */
  lemma WriterOf(s: St, i: nat, k: RegRef, o: int, y: nat)
    requires Inv(s) && WritersOk(s.regs) && k < |s.regs| && Alone(s.regs, k) && i < |s.slots| && s.slots[i].state == Sent && MsgOk(s.slots[i])
    requires 0 <= o < s.regs[k].info.size
    requires 2 <= y && y % 2 == 0 && Writes(s.slots[i].buf, y, Addr(s.regs[k], o))
    ensures s.regs[k].state == Writing && Holds(s.slots, i, (y - 2) / 2, k, s.regs[k].Command(o))
  {
    hide Inv, Alone, MsgOk;
    PairHeld(s, i, y, Addr(s.regs[k], o));
    var h := s.slots[i].reg[(y - 2) / 2].value;
    Apart(s.regs, k, h, o, OffsetOf(s.regs[h], s.slots[i].buf[y]));
  }

  lemma NotWritten(s: St, i: nat, k: RegRef, o: int)
    requires Inv(s) && WritersOk(s.regs) && k < |s.regs| && Alone(s.regs, k) && i < |s.slots| && s.slots[i].state == Sent && MsgOk(s.slots[i])
    requires 0 <= o < s.regs[k].info.size && !WrittenBy(s.slots, i, s.regs[k], k, o)
    ensures forall y: nat | 2 <= y && (y - 2) % 2 == 0 :: !Writes(s.slots[i].buf, y, Addr(s.regs[k], o))
  {
    hide Inv, Alone, MsgOk, Writes, WritersOk;
    forall y: nat | 2 <= y && (y - 2) % 2 == 0 && Writes(s.slots[i].buf, y, Addr(s.regs[k], o)) ensures false {
      WriterOf(s, i, k, o, y);
    }
  }

  /** Only writable registers are written. */
  ghost predicate WritersOk(regs: seq<Reg>) {
    forall k | 0 <= k < |regs| && regs[k].state == Writing :: regs[k].info.writable
  }

  lemma RequestFacts(s: St, v: Env, t: Tx)
    requires E2E(s, v) && t in v.reqs
    ensures Current(s.slots, t) && t.words == s.slots[t.slot].buf && MsgOk(s.slots[t.slot]) && ValidMemory(v.mem) && AloneIs(s.regs, v) && WritersOk(s.regs) && Inv(s)
    ensures |v.log| > 0 && v.log[|v.log| - 1] == v.mem
    ensures forall u | u in v.replies && Current(s.slots, u) :: u.slot != t.slot
  {
    assert RequestId(t, s.slots, v.replies);
  }

  lemma ExecuteKeeps(s: St, v: Env, t: Tx)
    requires E2E(s, v) && t in v.reqs && ValidMemory(v.mem)
    ensures Keeps(s.regs, s.slots, v.mem, Executed(v, t).mem, t.slot)
  {
    hide Inv, Claims, MsgOk, Alone, WritersOk;
    RequestFacts(s, v, t);
    forall k, o | 0 <= k < |s.regs| && 0 <= o < s.regs[k].info.size && s.regs[k].info.writable && Alone(s.regs, k) && !WrittenBy(s.slots, t.slot, s.regs[k], k, o)
      ensures SameWord(v.mem, Executed(v, t).mem, Addr(s.regs[k], o))
    {
      NotWritten(s, t.slot, k, o);
      if Addr(s.regs[k], o) in v.mem {
        ExecKeeps(v.mem, t.words, 2, Addr(s.regs[k], o));
      }
    }
  }

  lemma ExecuteAges(v: Env, t: Tx)
    requires ValidMemory(v.mem) && History(v)
    ensures Aged(v, Executed(v, t))
  {
    hide Exec, Steps;
    var v' := Executed(v, t);
    var steps := Steps(v.mem, t.words, 2);
    ExecCells(v.mem, t.words, 2);
    StepsCells(v.mem, t.words, 2);
    assert v'.log[|v'.log| - 1] == ([v.mem] + steps)[|steps|];
    forall x | 0 <= x < |v'.log| ensures SameCells(v'.mem, v'.log[x]) {
      if x < |v.log| {
        assert SameCells(v.mem, v.log[x]);
      } else {
        assert v'.log[x] == steps[x - |v.log|];
      }
    }
  }

  /** Every register being read has begun to be read at some time of the history. */
  ghost predicate ReadsBegun(regs: seq<Reg>, v: Env) {
    && (forall k | 0 <= k < |regs| && regs[k].state == Reading && regs[k].nextSend > 0 :: k in v.since)
    && (forall k | k in v.since :: v.since[k] < |v.log|)
  }

  /** What the device answers for one word read. */
  lemma ReadAnswered(s: St, v: Env, t: Tx, j: nat, k: RegRef, w: int)
    requires E2E(s, v) && t in v.reqs && ValidMemory(v.mem) && ReadsBegun(s.regs, v)
    requires Holds(s.slots, t.slot, j, k, w) && k < |s.regs| && s.regs[k].state == Reading && 2 * j + 3 < |t.words|
    requires WordOk(s.regs[k], w) && s.regs[k].Valid()
    ensures Answered(s.regs[k], k, w, DataAt(s.slots, t.slot, j), Reply(v.mem, t).words[2 * j + 3], Executed(v, t))
  {
    hide Inv, RegClaims, DataClaims, ReplyClaims, Ids, AloneIs, History, MsgOk, MsgsOk;
    RequestFacts(s, v, t);
    var r := s.regs[k];
    var o := OffsetOf(r, w);
    var a := Addr(r, o);
    var v' := Executed(v, t);
    CommandReads(r, o);
    ExecuteAges(v, t);
    if a in v.mem {
      var got := Reply(v.mem, t).words[2 * j + 3];
      ReadHeld(v, t, j, a);
      if Settled(r, k, v) {
        NotWritten(s, t.slot, k, o);
        ExecReads(v.mem, t.words, 2, 2 * j + 2);
        SettledRead(s.regs, v, k, o);
      }
    }
  }

  /** The answer is what the device held when it came to this word. */
  lemma ReadHeld(v: Env, t: Tx, j: nat, a: nat)
    requires History(v) && ValidMemory(v.mem) && a in v.mem && 2 * j + 3 < |t.words|
    requires IsRead(t.words[2 * j + 2]) && t.words[2 * j + 2] % ADDR_LIMIT == a
    ensures Held(Executed(v, t).log, |v.log| - 1, a, Reply(v.mem, t).words[2 * j + 3])
  {
    hide Exec, Steps;
    ExecReadsThen(v.mem, t.words, 2, 2 * j + 2);
    var steps := Steps(v.mem, t.words, 2);
    assert Executed(v, t).log[|v.log| - 1 + j] == ([v.mem] + steps)[j];
    assert HeldAt(Executed(v, t).log, |v.log| - 1 + j, a, Reply(v.mem, t).words[2 * j + 3]);
  }

  lemma SettledRead(regs: seq<Reg>, v: Env, k: RegRef, o: int)
    requires RegClaims(regs, v) && k < |regs| && regs[k].state == Reading && 0 <= o < |regs[k].received| && Settled(regs[k], k, v)
    ensures WriteOk(regs[k], v.mem, o)
  {
    assert TxClaim(regs[k], k, v);
  }

  /** What the device holds after one word written. */
  lemma WriteAnswered(s: St, v: Env, t: Tx, j: nat, k: RegRef, w: int)
    requires E2E(s, v) && t in v.reqs && ValidMemory(v.mem)
    requires Holds(s.slots, t.slot, j, k, w) && k < |s.regs| && s.regs[k].state == Writing && 2 * j + 3 < |t.words|
    requires WordOk(s.regs[k], w) && s.regs[k].Valid()
    ensures Answered(s.regs[k], k, w, DataAt(s.slots, t.slot, j), Reply(v.mem, t).words[2 * j + 3], Executed(v, t))
  {
    hide Inv, RegClaims, DataClaims, ReplyClaims, Ids, AloneIs, History, MsgOk, MsgsOk, Writes;
    RequestFacts(s, v, t);
    var r := s.regs[k];
    var a := Addr(r, OffsetOf(r, w));
    CommandReads(r, OffsetOf(r, w));
    ExecuteAges(v, t);
    if a in v.mem && k in v.alone {
      assert Writes(t.words, 2 * j + 2, a) by { HeldWrites(t.words, 2 * j + 2, a); }
      OneWriter(s, v, t, j, k, w);
      ExecStores(v.mem, t.words, 2, 2 * j + 2, a);
    }
  }

  /** No other pair of the request writes that word. */
  lemma OneWriter(s: St, v: Env, t: Tx, j: nat, k: RegRef, w: int)
    requires E2E(s, v) && t in v.reqs && k in v.alone
    requires Holds(s.slots, t.slot, j, k, w) && k < |s.regs| && s.regs[k].state == Writing && WordOk(s.regs[k], w) && s.regs[k].Valid()
    ensures forall z: nat | 2 <= z && (z - 2) % 2 == 0 && Writes(t.words, z, Addr(s.regs[k], OffsetOf(s.regs[k], w))) :: z == 2 * j + 2
  {
    hide Inv, RegClaims, DataClaims, ReplyClaims, Ids, AloneIs, History, MsgOk, MsgsOk, Writes;
    RequestFacts(s, v, t);
    var r := s.regs[k];
    forall z: nat | 2 <= z && (z - 2) % 2 == 0 && Writes(t.words, z, Addr(r, OffsetOf(r, w))) ensures z == 2 * j + 2 {
      WriterOf(s, t.slot, k, OffsetOf(r, w), z);
      OneHolder(s, t.slot, j, t.slot, (z - 2) / 2, k, w);
    }
  }

  lemma HeldWrites(words: seq<Word>, y: nat, a: nat)
    requires y + 1 < |words| && !IsRead(words[y]) && words[y] % ADDR_LIMIT == a
    ensures Writes(words, y, a)
  {
  }

  lemma OneHolder(s: St, i: int, j: int, i': int, j': int, k: int, w: int)
    requires Inv(s) && Holds(s.slots, i, j, k, w) && Holds(s.slots, i', j', k, w)
    ensures i == i' && j == j'
  {
  }

  /** The new reply answers every word of its message. */
  lemma NewReply(s: St, v: Env, t: Tx, j: int, k: int, w: int)
    requires E2E(s, v) && t in v.reqs && ValidMemory(v.mem) && ReadsBegun(s.regs, v) && Holds(s.slots, t.slot, j, k, w)
    ensures var u := Reply(v.mem, t);
      && Echoes(u, j, w) && 0 <= k < |s.regs| && (s.regs[k].state == Reading ==> k in v.since)
      && Answered(s.regs[k], k, w, DataAt(s.slots, t.slot, j), u.words[2 * j + 3], Executed(v, t))
  {
    hide RegClaims, DataClaims, ReplyClaims, Ids, AloneIs, History, MsgOk, Answered;
    RequestFacts(s, v, t);
    HeldFacts(s, t.slot, j, k, w);
    ExecEchoes(v.mem, t.words, 2, 2 * j + 2);
    if s.regs[k].state == Reading {
      ReadAnswered(s, v, t, j, k, w);
    } else {
      WriteAnswered(s, v, t, j, k, w);
    }
  }

  lemma HeldFacts(s: St, i: nat, j: int, k: int, w: int)
    requires Inv(s) && Holds(s.slots, i, j, k, w)
    ensures 0 <= k < |s.regs| && WordOk(s.regs[k], w) && s.regs[k].Valid() && 2 * j + 3 < |s.slots[i].buf|
  {
    assert s.slots[i].Valid(|s.regs|);
  }

  lemma ExecuteIds(s: St, v: Env, t: Tx)
    requires E2E(s, v) && t in v.reqs && ValidMemory(v.mem)
    ensures Ids(s.slots, s.sendSeq, Executed(v, t))
  {
    hide RegsOk, SendOk, WordsOk, Unique, Covered, RegClaims, DataClaims, ReplyClaims, AloneIs, History, MsgOk;
    RequestFacts(s, v, t);
    var v' := Executed(v, t);
    var m := s.slots[t.slot];
    assert MsgId(m, t.slot, s.sendSeq) && RequestId(t, s.slots, v.replies);
    ExecEchoes(v.mem, t.words, 2, 1);
    forall q | q in v'.reqs ensures RequestId(q, s.slots, v'.replies) {
      assert RequestId(q, s.slots, v.replies) && q != t;
    }
    assert ReplyId(Reply(v.mem, t), s.slots, s.sendSeq);
    forall u | u in v'.replies ensures ReplyId(u, s.slots, s.sendSeq) {
      assert u in v.replies ==> ReplyId(u, s.slots, s.sendSeq);
    }
  }

  lemma ExecuteReplies(s: St, v: Env, t: Tx)
    requires E2E(s, v) && t in v.reqs && ValidMemory(v.mem) && ReadsBegun(s.regs, v)
    ensures ReplyClaims(s.regs, s.slots, Executed(v, t))
  {
    hide Inv, RegClaims, DataClaims, Ids, AloneIs, History, MsgOk, Answered, Aged, Keeps, Executed, ReadsBegun;
    var v' := Executed(v, t);
    RequestFacts(s, v, t);
    ExecuteAges(v, t);
    ExecuteKeeps(s, v, t);
    AgedSame(v, v');
    assert v'.replies == v.replies + {Reply(v.mem, t)} by { ExecutedReplies(v, t); }
    forall u, j, k, w | u in v'.replies && Current(s.slots, u) && Holds(s.slots, u.slot, j, k, w)
      ensures Echoes(u, j, w) && 0 <= k < |s.regs| && (s.regs[k].state == Reading ==> k in v'.since)
        && Answered(s.regs[k], k, w, DataAt(s.slots, u.slot, j), u.words[2 * j + 3], v')
    {
      if u in v.replies {
        AgedReply(s, v, v', t.slot, u, j, k, w);
      } else {
        NewReply(s, v, t, j, k, w);
      }
    }
  }

  lemma ExecutedReplies(v: Env, t: Tx)
    requires ValidMemory(v.mem)
    ensures Executed(v, t).replies == v.replies + {Reply(v.mem, t)}
  {
  }

  lemma DataEnv(regs: seq<Reg>, slots: seq<Msg>, v: Env, v': Env)
    requires DataClaims(regs, slots, v) && v'.synced == v.synced && v'.alone == v.alone
    ensures DataClaims(regs, slots, v')
  {
    forall i, j, k, w | Holds(slots, i, j, k, w) ensures 0 <= k < |regs| && DataOk(regs[k], k, w, DataAt(slots, i, j), v') {
      assert DataOk(regs[k], k, w, DataAt(slots, i, j), v);
    }
  }

  /** The device executes a request, any time before its reply is sent and only once. */
  lemma ExecuteStep(s: St, v: Env, t: Tx)
    requires E2E(s, v) && t in v.reqs && ValidMemory(v.mem) && ReadsBegun(s.regs, v)
    ensures E2E(s, Executed(v, t)) && ReadsBegun(s.regs, Executed(v, t))
  {
    hide RegsOk, SendOk, WordsOk, Unique, Covered, RegClaims, DataClaims, ReplyClaims, Ids, AloneIs, History, MsgsOk, Aged, Keeps;
    var v' := Executed(v, t);
    ExecuteAges(v, t);
    ExecuteKeeps(s, v, t);
    AgedSame(v, v');
    AgedRegs(s, v, v', t.slot);
    ExecuteReplies(s, v, t);
    ExecuteIds(s, v, t);
    DataEnv(s.regs, s.slots, v, v');
    AloneEnv(s.regs, v, v');
  }

  /* ---- a word changes by itself ---- */

  lemma DriftKeeps(regs: seq<Reg>, slots: seq<Msg>, v: Env, a: nat, x: Word)
    requires a in v.mem && !Writable(regs, a)
    ensures Keeps(regs, slots, v.mem, Drifted(v, a, x).mem, -1)
  {
    forall k, o | 0 <= k < |regs| && 0 <= o < regs[k].info.size && regs[k].info.writable && !WrittenBy(slots, -1, regs[k], k, o)
      ensures SameWord(v.mem, Drifted(v, a, x).mem, Addr(regs[k], o))
    {
      assert !InRegister(regs[k], a);
    }
  }

  lemma DriftAges(v: Env, a: nat, x: Word)
    requires History(v) && a in v.mem
    ensures Aged(v, Drifted(v, a, x))
  {
    var v' := Drifted(v, a, x);
    forall y | 0 <= y < |v'.log| ensures SameCells(v'.mem, v'.log[y]) {
      assert y < |v.log| ==> SameCells(v.mem, v.log[y]);
    }
  }

  lemma DriftReplies(s: St, v: Env, a: nat, x: Word)
    requires E2E(s, v) && a in v.mem && !Writable(s.regs, a) && Aged(v, Drifted(v, a, x))
    ensures ReplyClaims(s.regs, s.slots, Drifted(v, a, x))
  {
    hide Inv, RegClaims, DataClaims, Ids, AloneIs, History, MsgOk, Answered, Aged, Keeps;
    var v' := Drifted(v, a, x);
    DriftKeeps(s.regs, s.slots, v, a, x);
    forall u, j, k, w | u in v'.replies && Current(s.slots, u) && Holds(s.slots, u.slot, j, k, w)
      ensures Echoes(u, j, w) && 0 <= k < |s.regs| && (s.regs[k].state == Reading ==> k in v'.since)
        && Answered(s.regs[k], k, w, DataAt(s.slots, u.slot, j), u.words[2 * j + 3], v')
    {
      AgedReply(s, v, v', -1, u, j, k, w);
    }
  }

  lemma DriftStep(s: St, v: Env, a: nat, x: Word)
    requires E2E(s, v) && a in v.mem && !Writable(s.regs, a) && ReadsBegun(s.regs, v)
    ensures E2E(s, Drifted(v, a, x)) && ReadsBegun(s.regs, Drifted(v, a, x))
  {
    hide RegsOk, SendOk, WordsOk, Unique, Covered, RegClaims, DataClaims, ReplyClaims, AloneIs, History, MsgsOk, Keeps, Aged;
    var v' := Drifted(v, a, x);
    DriftAges(v, a, x);
    DriftKeeps(s.regs, s.slots, v, a, x);
    AgedSame(v, v');
    AgedRegs(s, v, v', -1);
    DriftReplies(s, v, a, x);
    DataEnv(s.regs, s.slots, v, v');
    AloneEnv(s.regs, v, v');
  }
}
