/** Requests of records, the steps of the connection and the clock keep the end-to-end invariant. */
module EndToEndQueue {
  import opened EngineState
  import opened Partition
  import opened Messages
  import opened Worker
  import opened Safety
  import opened Peer
  import opened EndToEnd
  import opened EndToEndSteps
  import opened EndToEndSends

  /* ---- queue ---- */

  /** The environment's memory of a request: after a write request the send cache is synced. */
  function WithWrite(v: Env, k: RegRef): Env {
    v.(synced := v.synced + {k})
  }

  lemma MergedClaims(r: Reg, k: RegRef, v: Env, write: bool, action: Option<Action>)
    requires r.Valid() && r.InProgress() && TxClaim(r, k, v) && RxClaim(r, k, v)
    ensures var r' := Merged(r, write, action);
      var v' := if write then WithWrite(v, k) else v;
      TxClaim(r', k, v') && RxClaim(r', k, v')
  {
    var r' := Merged(r, write, action);
    var v' := if write then WithWrite(v, k) else v;
    forall o | 0 <= o < |r.received| ensures (ReadOk(r, k, v, o) <==> ReadOk(r', k, v', o)) && (WriteOk(r, v.mem, o) <==> WriteOk(r', v.mem, o)) {
    }
  }

  lemma IdleClaims(r: Reg, k: RegRef, v: Env, write: bool, action: Option<Action>)
    requires RegOk(r) && !r.InProgress() && TxClaim(r, k, v) && RxClaim(r, k, v)
    ensures var v' := if write then WithWrite(v, k) else v;
      TxClaim(Started(r, write, action), k, v') && RxClaim(Started(r, write, action), k, v')
  {
    var v' := if write then WithWrite(v, k) else v;
    assert RxClaim(r, k, v') by {
      forall o | 0 <= o < |r.received| && k in v.since ensures ReadOk(r, k, v', o) { assert ReadOk(r, k, v, o); }
    }
    StartedClaims(r, k, v', write, action);
  }

  /** The claims about other registers do not depend on k being synced. */
  lemma OtherClaims(r: Reg, h: RegRef, v: Env, v': Env)
    requires TxClaim(r, h, v) && RxClaim(r, h, v) && v' == v.(synced := v'.synced) && (h in v'.synced ==> h in v.synced)
    ensures TxClaim(r, h, v') && RxClaim(r, h, v')
  {
    forall o | 0 <= o < |r.received| ensures ReadOk(r, h, v, o) <==> ReadOk(r, h, v', o) {
    }
  }

  /** Register k changes, and k enters or leaves the synced registers with it. */
  lemma SyncedUpdate(regs: seq<Reg>, k: RegRef, r': Reg, v: Env, v': Env)
    requires RegClaims(regs, v) && k < |regs| && r'.info == regs[k].info && TxClaim(r', k, v') && RxClaim(r', k, v')
    requires v' == v.(synced := v'.synced) && (v'.synced == v.synced || v'.synced == v.synced - {k} || v'.synced == v.synced + {k})
    requires (r'.state == Writing ==> r'.info.writable) && (k in v'.synced ==> r'.info.writable)
    ensures RegClaims(regs[k := r'], v')
  {
    var regs' := regs[k := r'];
    forall h | 0 <= h < |regs'| ensures TxClaim(regs'[h], h, v') && RxClaim(regs'[h], h, v') {
      if h != k {
        OtherClaims(regs[h], h, v, v');
      }
    }
  }

  predicate SameSettled(r: Reg, r': Reg, k: RegRef, v: Env, v': Env) {
    Settled(r', k, v') ==> Settled(r, k, v) && r'.memTx == r.memTx
  }

  /** Words under way, when only k's send cache or flags change and k's claims allow for it. */
  lemma SyncedWords(regs: seq<Reg>, slots: seq<Msg>, k: RegRef, r': Reg, v: Env, v': Env)
    requires k < |regs| && DataClaims(regs, slots, v) && ReplyClaims(regs, slots, v)
    requires v' == v.(synced := v'.synced) && (forall h | h in v'.synced && h != k :: h in v.synced)
    requires (r'.info == regs[k].info && r'.state == regs[k].state && SameSettled(regs[k], r', k, v, v'))
      || forall i, j, w :: !Holds(slots, i, j, k, w)
    ensures DataClaims(regs[k := r'], slots, v') && ReplyClaims(regs[k := r'], slots, v')
  {
    var regs' := regs[k := r'];
    forall i, j, h, w | Holds(slots, i, j, h, w) ensures 0 <= h < |regs'| && DataOk(regs'[h], h, w, DataAt(slots, i, j), v') {
      assert DataOk(regs[h], h, w, DataAt(slots, i, j), v);
    }
    forall t, j, h, w | t in v'.replies && Current(slots, t) && Holds(slots, t.slot, j, h, w)
      ensures Echoes(t, j, w) && 0 <= h < |regs'| && (regs'[h].state == Reading ==> h in v'.since)
        && Answered(regs'[h], h, w, DataAt(slots, t.slot, j), t.words[2 * j + 3], v')
    {
      assert Echoes(t, j, w) && Answered(regs[h], h, w, DataAt(slots, t.slot, j), t.words[2 * j + 3], v);
    }
  }

  lemma IdsEnv(slots: seq<Msg>, sendSeq: nat, v: Env, v': Env)
    requires Ids(slots, sendSeq, v) && v'.reqs == v.reqs && v'.replies == v.replies
    ensures Ids(slots, sendSeq, v')
  {
  }

  lemma QuietUnheld(s: St, k: RegRef)
    requires Inv(s) && k < |s.regs| && !s.regs[k].InProgress()
    ensures forall i, j, w :: !Holds(s.slots, i, j, k, w)
  {
    forall i, j, w ensures Holds(s.slots, i, j, k, w) ==> WordOk(s.regs[k], w) {
    }
    assert forall w :: !WordOk(s.regs[k], w);
  }

  /** Register k changes as a request makes it, with the environment's view of it. */
  lemma RequestStep(s: St, v: Env, v': Env, k: RegRef, s': St)
    requires Claims(s, v) && WF(s) && k < |s.regs| && Inv(s') && k < |s'.regs|
    requires s'.regs == s.regs[k := s'.regs[k]] && s'.slots == s.slots && s'.sendSeq == s.sendSeq && s'.regs[k].info == s.regs[k].info
    requires v' == v.(synced := v'.synced) && (v'.synced == v.synced || v'.synced == v.synced - {k} || v'.synced == v.synced + {k})
    requires TxClaim(s'.regs[k], k, v') && RxClaim(s'.regs[k], k, v')
    requires (s'.regs[k].state == Writing ==> s.regs[k].info.writable) && (k in v'.synced ==> s.regs[k].info.writable)
    requires (s'.regs[k].state == s.regs[k].state && SameSettled(s.regs[k], s'.regs[k], k, v, v'))
      || forall i, j, w :: !Holds(s.slots, i, j, k, w)
    ensures Claims(s', v')
  {
    hide RegsOk, SendOk, WordsOk, Unique, Covered, DataClaims, ReplyClaims, Ids, AloneIs, History, TxClaim, RxClaim, DataOk, RegClaims;
    SyncedUpdate(s.regs, k, s'.regs[k], v, v');
    SyncedWords(s.regs, s.slots, k, s'.regs[k], v, v');
    AloneUpdate(s.regs, k, s'.regs[k], v);
    AloneEnv(s.regs[k := s'.regs[k]], v, v');
    IdsEnv(s.slots, s.sendSeq, v, v');
    HistoryEnv(v, v');
  }

  lemma RegFacts(s: St, v: Env, k: RegRef)
    requires Claims(s, v) && k < |s.regs|
    ensures RegOk(s.regs[k]) && TxClaim(s.regs[k], k, v) && RxClaim(s.regs[k], k, v)
    ensures (s.regs[k].state == Writing ==> s.regs[k].info.writable) && (k in v.synced ==> s.regs[k].info.writable)
  {
  }

  function QueueEnv(s: St, v: Env, k: RegRef, write: bool): Env {
    if write && k < |s.regs| && s.regs[k].info.writable then WithWrite(v, k) else v
  }

  /** A request of a record, accepted or refused. */
  lemma QueueStep(s: St, v: Env, k: RegRef, write: bool, action: Option<Action>)
    requires Claims(s, v) && WF(s) && k < |s.regs|
    ensures var o := Queue(s, k, write, action);
      Claims(o.s, if o.Go? then QueueEnv(s, v, k, write) else v) && o.s.slots == s.slots
  {
    hide RegsOk, SendOk, WordsOk, Unique, Covered, RegClaims, DataClaims, ReplyClaims, Ids, AloneIs, History, TxClaim, RxClaim, RegOk, DataOk, Settled, Reg.Valid, Msg.Valid;
    var r := s.regs[k];
    var o := Queue(s, k, write, action);
    if o.Go? {
      RegFacts(s, v, k);
      QueueInv(s, k, write, action);
      if !r.InProgress() {
        IdleClaims(r, k, v, write, action);
        QuietUnheld(s, k);
      } else {
        MergedStep(r, k, v, write, action);
        MergedData(r, k, v, QueueEnv(s, v, k, write), write, action);
      }
      RequestStep(s, v, QueueEnv(s, v, k, write), k, o.s);
    }
  }

  lemma MergedStep(r: Reg, k: RegRef, v: Env, write: bool, action: Option<Action>)
    requires r.Valid() && r.InProgress() && TxClaim(r, k, v) && RxClaim(r, k, v)
    ensures var r' := Merged(r, write, action);
      var v' := if write && r.info.writable then WithWrite(v, k) else v;
      TxClaim(r', k, v') && RxClaim(r', k, v')
  {
    MergedClaims(r, k, v, write, action);
    if write && !r.info.writable {
      MergedAside(r, k, v, action);
    }
  }

  lemma MergedAside(r: Reg, k: RegRef, v: Env, action: Option<Action>)
    requires r.Valid() && r.InProgress() && TxClaim(r, k, v) && RxClaim(r, k, v)
    ensures TxClaim(Merged(r, true, action), k, v) && RxClaim(Merged(r, true, action), k, v)
  {
    var r' := Merged(r, true, action);
    forall o | 0 <= o < |r.received| ensures ReadOk(r, k, v, o) <==> ReadOk(r', k, v, o) {
    }
  }

  lemma MergedData(r: Reg, k: RegRef, v: Env, v': Env, write: bool, action: Option<Action>)
    requires r.Valid() && r.InProgress() && (!write ==> v' == v)
    ensures var r' := Merged(r, write, action);
      && r'.info == r.info && r'.state == r.state
      && SameSettled(r, r', k, v, v')
  {
  }

  lemma HistoryEnv(v: Env, v': Env)
    requires History(v) && v'.mem == v.mem && v'.log == v.log
    ensures History(v')
  {
  }

  /* ---- registers whose contents and operation stay ---- */

  predicate SameClaims(r: Reg, r': Reg) {
    && r'.info == r.info && r'.state == r.state && r'.memTx == r.memTx && r'.memRx == r.memRx
    && r'.received == r.received && r'.latest == r.latest && r'.writeQueued == r.writeQueued
  }

  lemma ClaimsAside(r: Reg, r': Reg, k: RegRef, v: Env)
    requires TxClaim(r, k, v) && RxClaim(r, k, v) && SameClaims(r, r')
    ensures TxClaim(r', k, v) && RxClaim(r', k, v)
  {
    forall o | 0 <= o < |r.received| ensures (WriteOk(r, v.mem, o) <==> WriteOk(r', v.mem, o)) && (ReadOk(r, k, v, o) <==> ReadOk(r', k, v, o)) {
    }
    forall o | 0 <= o < |r.received| ensures o < |r.memRx| && EchoOk(r, v.mem, o, r.memRx[o]) ==> EchoOk(r', v.mem, o, r'.memRx[o]) {
    }
  }

  /** A record changes the send cache: it is no longer known to have gone to a write. */
  function Unsynced(v: Env, k: RegRef): Env {
    v.(synced := v.synced - {k})
  }

  lemma StoreStep(s: St, v: Env, k: RegRef, tx: seq<Word>)
    requires Claims(s, v) && WF(s) && k < |s.regs| && |tx| == s.regs[k].info.size
    ensures Claims(SetReg(s, k, s.regs[k].(memTx := tx)), Unsynced(v, k))
  {
    hide RegsOk, SendOk, WordsOk, Unique, Covered, RegClaims, DataClaims, ReplyClaims, Ids, AloneIs, History, TxClaim, RxClaim, RegOk, Msg.Valid;
    var r' := s.regs[k].(memTx := tx);
    RegFacts(s, v, k);
    StoreInv(s, k, tx);
    StoreClaims(s.regs[k], k, v, tx);
    RequestStep(s, v, Unsynced(v, k), k, SetReg(s, k, r'));
  }

  lemma StoreClaims(r: Reg, k: RegRef, v: Env, tx: seq<Word>)
    requires RxClaim(r, k, v) && |tx| == |r.memTx|
    ensures TxClaim(r.(memTx := tx), k, Unsynced(v, k)) && RxClaim(r.(memTx := tx), k, Unsynced(v, k))
    ensures !Settled(r.(memTx := tx), k, Unsynced(v, k))
  {
    var r' := r.(memTx := tx);
    forall o | 0 <= o < |r.received| ensures ReadOk(r, k, v, o) <==> ReadOk(r', k, Unsynced(v, k), o) {
    }
  }

  lemma WaitStep(s: St, v: Env, k: RegRef, action: Action)
    requires Claims(s, v) && WF(s) && k < |s.regs| && s.regs[k].InProgress()
    ensures Claims(SetReg(s, k, s.regs[k].(recInprog := s.regs[k].recInprog + [action])), v)
  {
    hide RegsOk, SendOk, WordsOk, Unique, Covered, RegClaims, DataClaims, ReplyClaims, Ids, AloneIs, History, TxClaim, RxClaim, Msg.Valid;
    var r := s.regs[k];
    var r' := r.(recInprog := r.recInprog + [action]);
    RegFacts(s, v, k);
    SameTraffic(s, k, r');
    ClaimsAside(r, r', k, v);
    RequestStep(s, v, v, k, SetReg(s, k, r'));
  }

  lemma {:induction false} SyncStep(s: St, v: Env, x: nat, action: Action)
    requires Claims(s, v) && WF(s) && x <= |s.send|
    ensures Claims(SyncOn(s, x, action), v)
    decreases |s.send| - x
  {
    hide Claims;
    if x < |s.send| {
      var r := s.regs[s.send[x]];
      assert r.InProgress() by { ClaimsInv(s, v); QueuedInProgress(s, x); }
      WaitStep(s, v, s.send[x], action);
      SyncStep(SetReg(s, s.send[x], r.(recInprog := r.recInprog + [action])), v, x + 1, action);
    }
  }

  lemma ClaimsInv(s: St, v: Env)
    requires Claims(s, v)
    ensures Inv(s)
  {
  }

  /* ---- the connection ---- */

  /** The claims are about registers, messages and the queue; nothing else of the state. */
  lemma ClaimsSame(s: St, s': St, v: Env)
    requires Claims(s, v) && s'.regs == s.regs && s'.slots == s.slots && s'.send == s.send && s'.sendSeq == s.sendSeq
    ensures Claims(s', v)
  {
    hide RegsOk, SendOk, WordsOk, Unique, Covered, RegClaims, DataClaims, ReplyClaims, Ids, AloneIs, History, Reg.Valid, Msg.Valid;
  }

  function AloneSet(regs: seq<Reg>): set<RegRef> {
    set k | 0 <= k < |regs| && Alone(regs, k)
  }

  /** With a new register map the registers that share no address are new too. */
  function Mapped(v: Env, regs: seq<Reg>): Env {
    v.(alone := AloneSet(regs))
  }

  /** No register gets an address to itself by other registers being added. */
  lemma MappedShrinks(regs: seq<Reg>, r: seq<Reg>, v: Env)
    requires AloneIs(regs, v) && regs <= r
    ensures AloneIs(r, Mapped(v, r)) && forall k | 0 <= k < |regs| && k in Mapped(v, r).alone :: k in v.alone
  {
    forall k | 0 <= k < |regs| && Alone(r, k) ensures Alone(regs, k) {
      assert forall h | 0 <= h < |regs| :: regs[h] == r[h];
    }
  }

  lemma FreshClaims(regs: seq<Reg>, r: seq<Reg>, v: Env, v': Env)
    requires RegClaims(regs, v) && regs <= r && forall k | |regs| <= k < |r| :: r[k] == FreshReg(r[k].info)
    requires v' == v.(alone := v'.alone) && forall k | 0 <= k < |regs| && k in v'.alone :: k in v.alone
    ensures RegClaims(r, v')
  {
    forall k | 0 <= k < |r| ensures TxClaim(r[k], k, v') && RxClaim(r[k], k, v') {
      if k < |regs| {
        assert TxClaim(regs[k], k, v) && RxClaim(regs[k], k, v);
        forall o | 0 <= o < |r[k].received| ensures ReadOk(r[k], k, v, o) <==> ReadOk(r[k], k, v', o) {
        }
      }
    }
  }

  lemma FreshWords(regs: seq<Reg>, r: seq<Reg>, slots: seq<Msg>, v: Env, v': Env)
    requires DataClaims(regs, slots, v) && ReplyClaims(regs, slots, v) && regs <= r
    requires v' == v.(alone := v'.alone) && forall k | 0 <= k < |regs| && k in v'.alone :: k in v.alone
    ensures DataClaims(r, slots, v') && ReplyClaims(r, slots, v')
  {
    forall i, j, k, w | Holds(slots, i, j, k, w) ensures 0 <= k < |r| && DataOk(r[k], k, w, DataAt(slots, i, j), v') {
      assert DataOk(regs[k], k, w, DataAt(slots, i, j), v);
    }
    forall t, j, k, w | t in v'.replies && Current(slots, t) && Holds(slots, t.slot, j, k, w)
      ensures Echoes(t, j, w) && 0 <= k < |r| && (r[k].state == Reading ==> k in v'.since)
        && Answered(r[k], k, w, DataAt(slots, t.slot, j), t.words[2 * j + 3], v')
    {
      assert Answered(regs[k], k, w, DataAt(slots, t.slot, j), t.words[2 * j + 3], v);
    }
  }

  lemma AddRegsStep(s: St, v: Env, infos: seq<Info>)
    requires Claims(s, v) && ValidMap(Registers(infos))
    ensures var r := AddRegs(s.regs, infos); Claims(s.(regs := r), Mapped(v, r))
  {
    hide RegsOk, SendOk, WordsOk, Unique, Covered, RegClaims, DataClaims, ReplyClaims, Ids, AloneIs, History, WF, Alone;
    var r := AddRegs(s.regs, infos);
    AddRegsInv(s, infos);
    MappedShrinks(s.regs, r, v);
    FreshClaims(s.regs, r, v, Mapped(v, r));
    FreshWords(s.regs, r, s.slots, v, Mapped(v, r));
    IdsEnv(s.slots, s.sendSeq, v, Mapped(v, r));
    HistoryEnv(v, Mapped(v, r));
  }

  function StateEnv(v: Env, o: StateRes): Env {
    if o.connecting then Mapped(v, o.res.s.regs) else v
  }

  /** handle_state when no reset is requested and nothing throws. */
  lemma HandleStateStep(s: St, v: Env, rom: RomMap)
    requires Claims(s, v) && WF(s) && ValidMap(rom) && !s.resetReq && !s.errorReq && HandleState(s, rom).res.Go?
    ensures var o := HandleState(s, rom); Claims(o.res.s, StateEnv(v, o)) && o.res.s.slots == s.slots
  {
    hide Claims, Queue, AddRegs, AloneIs, Mapped;
    var o := HandleState(s, rom);
    if s.current == Searching && s.regs[REG_ID].state == InSync {
      var o1 := Queue(s, REG_ROM2, false, None);
      QueueStep(s, v, REG_ROM2, false, None);
      QueueStep(o1.s, v, REG_ROM16, false, None);
      ClaimsSame(Queue(o1.s, REG_ROM16, false, None).s, o.res.s, v);
    } else if s.current == Searching {
      QueueStep(s, v, REG_ID, false, None);
    } else if o.connecting {
      AddRegsStep(s, v, rom.infos);
    } else {
      ClaimsSame(s, o.res.s, v);
    }
  }

  /** A pass over the deadlines that does not ask for a reset does nothing. */
  lemma {:induction false} NothingDue(s: St, i: nat, now: int)
    requires WF(s) && i <= |s.slots| && !HandleTimeout(s, i, now).resetReq
    ensures HandleTimeout(s, i, now) == s
    decreases |s.slots| - i
  {
    hide Reg.Valid, Msg.Valid;
    if i < |s.slots| && !(s.slots[i].state == Sent && s.slots[i].due <= now) {
      NothingDue(s, i + 1, now);
    }
  }
}
