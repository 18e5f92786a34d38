/** The invariant of the request engine: every word of an operation in progress is in exactly
    one place, and the queue, the slots and the counters agree on which. */
module Partition {
  import opened EngineState

  function Missing(f: seq<bool>): (n: nat)
    ensures n <= |f|
  {
    if f == [] then 0 else Missing(f[1..]) + if f[0] then 0 else 1
  }

  lemma {:induction false} MissingMark(f: seq<bool>, o: nat)
    requires o < |f|
    ensures Missing(f[o := true]) == Missing(f) - (if f[o] then 0 else 1)
  {
    if o == 0 {
      assert f[o := true][1..] == f[1..];
    } else {
      MissingMark(f[1..], o - 1);
      assert f[o := true][1..] == f[1..][o - 1 := true];
    }
  }

  lemma {:induction false} MissingNone(f: seq<bool>)
    ensures Missing(f) == 0 <==> forall o | 0 <= o < |f| :: f[o]
  {
    if f != [] {
      MissingNone(f[1..]);
      assert forall o | 0 <= o < |f| - 1 :: f[1..][o] == f[o + 1];
      assert forall o | 1 <= o < |f| :: f[o] == f[1..][o - 1];
    }
  }

  lemma {:induction false} MissingAll(n: nat)
    ensures Missing(Flags(n)) == n
  {
    if n > 0 {
      MissingAll(n - 1);
      assert Flags(n)[1..] == Flags(n - 1);
    }
  }

  /** The bookkeeping of one register. */
  ghost predicate RegOk(r: Reg) {
    && r.Valid()
    && (r.InProgress() ==>
      && r.nextSend <= r.info.size
      && r.nremaining == Missing(r.received) > 0
      && forall o | r.nextSend <= o < r.info.size :: !r.received[o])
    && (!r.InProgress() ==> !r.writeQueued && !r.readQueued && r.recInprog == [])
    && (!r.writeQueued ==> r.recWrite == [])
    && (!r.readQueued ==> r.recRead == [])
  }

  ghost predicate RegsOk(regs: seq<Reg>) {
    forall k | 0 <= k < |regs| :: RegOk(regs[k])
  }

  predicate HasUnsent(r: Reg) {
    r.InProgress() && r.nextSend < r.info.size
  }

  /** The queue holds exactly the registers with words left to send, once each; only the
      front one has been begun. */
  ghost predicate SendOk(regs: seq<Reg>, send: seq<RegRef>) {
    && (forall x | 0 <= x < |send| :: send[x] < |regs| && HasUnsent(regs[send[x]]) && (0 < x ==> regs[send[x]].nextSend == 0))
    && (forall x, y | 0 <= x < y < |send| :: send[x] != send[y])
    && (forall k {:trigger k in send} | 0 <= k < |regs| && HasUnsent(regs[k]) :: k in send)
  }

  /** Address slot j of message i carries command word w for register k. */
  predicate Holds(slots: seq<Msg>, i: int, j: int, k: int, w: int) {
    && 0 <= i < |slots| && 0 <= j < |slots[i].reg| && slots[i].reg[j].Some? && slots[i].reg[j].value == k
    && 2 * j + 2 < |slots[i].buf| && slots[i].buf[2 * j + 2] == w
  }

  ghost predicate InFlight(slots: seq<Msg>, k: int, w: int) {
    exists i, j :: Holds(slots, i, j, k, w)
  }

  /** No word is in two places. */
  ghost predicate Unique(slots: seq<Msg>) {
    forall i, j, i', j', k, w | Holds(slots, i, j, k, w) && Holds(slots, i', j', k, w) :: i == i' && j == j'
  }

  function OffsetOf(r: Reg, w: int): int {
    w % ADDR_LIMIT - r.info.base
  }

  /** Offset o of the register has been handed to a message and not been answered. */
  predicate Outstanding(r: Reg, o: int) {
    r.InProgress() && 0 <= o < |r.received| && o < r.nextSend && !r.received[o]
  }

  /** The word asks for an outstanding offset, and reads exactly when the register is Reading. */
  predicate WordOk(r: Reg, w: int) {
    Outstanding(r, OffsetOf(r, w)) && w == r.Command(OffsetOf(r, w))
  }

  ghost predicate WordsOk(regs: seq<Reg>, slots: seq<Msg>) {
    forall i, j, k, w | Holds(slots, i, j, k, w) :: 0 <= k < |regs| && WordOk(regs[k], w)
  }

  ghost predicate CoveredAt(slots: seq<Msg>, r: Reg, k: int) {
    forall o {:trigger InFlight(slots, k, r.Command(o))} | Outstanding(r, o) :: InFlight(slots, k, r.Command(o))
  }

  ghost predicate Covered(regs: seq<Reg>, slots: seq<Msg>) {
    forall k | 0 <= k < |regs| :: CoveredAt(slots, regs[k], k)
  }

  ghost predicate Inv(s: St) {
    && WF(s) && RegsOk(s.regs) && SendOk(s.regs, s.send)
    && WordsOk(s.regs, s.slots) && Unique(s.slots) && Covered(s.regs, s.slots)
  }

  /* ---- one register changes ---- */

  predicate SameProgress(r: Reg, r': Reg) {
    r'.info == r.info && r'.state == r.state && r'.nextSend == r.nextSend && r'.received == r.received
  }

  lemma RegsStep(regs: seq<Reg>, k: RegRef, r': Reg)
    requires RegsOk(regs) && k < |regs| && RegOk(r')
    ensures RegsOk(regs[k := r'])
  {
  }

  lemma SendSame(regs: seq<Reg>, send: seq<RegRef>, k: RegRef, r': Reg)
    requires SendOk(regs, send) && k < |regs| && SameProgress(regs[k], r')
    ensures SendOk(regs[k := r'], send)
  {
    forall h | 0 <= h < |regs| && HasUnsent(regs[k := r'][h]) ensures h in send {
      assert HasUnsent(regs[h]);
    }
  }

  lemma WordsSame(regs: seq<Reg>, slots: seq<Msg>, k: RegRef, r': Reg)
    requires WordsOk(regs, slots) && k < |regs| && SameProgress(regs[k], r')
    ensures WordsOk(regs[k := r'], slots)
  {
  }

  lemma CoveredSame(regs: seq<Reg>, slots: seq<Msg>, k: RegRef, r': Reg)
    requires Covered(regs, slots) && k < |regs| && SameProgress(regs[k], r')
    ensures Covered(regs[k := r'], slots)
  {
    var regs' := regs[k := r'];
    forall h | 0 <= h < |regs| ensures CoveredAt(slots, regs'[h], h) {
      assert CoveredAt(slots, regs[h], h);
      forall o | Outstanding(regs'[h], o) ensures InFlight(slots, h, regs'[h].Command(o)) {
        assert Outstanding(regs[h], o) && InFlight(slots, h, regs[h].Command(o));
      }
    }
  }

  /** A change of one register that keeps its operation and its progress keeps the invariant. */
  lemma SameTraffic(s: St, k: RegRef, r': Reg)
    requires Inv(s) && k < |s.regs| && RegOk(r') && SameProgress(s.regs[k], r')
    ensures Inv(SetReg(s, k, r'))
  {
    hide RegsOk, SendOk, WordsOk, Unique, Covered;
    RegsStep(s.regs, k, r');
    SendSame(s.regs, s.send, k, r');
    WordsSame(s.regs, s.slots, k, r');
    CoveredSame(s.regs, s.slots, k, r');
  }

  /* ---- queue ---- */

  /** The register has nothing to send and nothing outstanding. */
  ghost predicate Quiet(r: Reg) {
    !HasUnsent(r) && forall o :: !Outstanding(r, o)
  }

  ghost predicate OthersOk(regs: seq<Reg>, k: RegRef) {
    forall h | 0 <= h < |regs| && h != k :: RegOk(regs[h])
  }

  lemma SendStart(regs: seq<Reg>, send: seq<RegRef>, k: RegRef, r': Reg)
    requires SendOk(regs, send) && k < |regs| && !HasUnsent(regs[k]) && HasUnsent(r') && r'.nextSend == 0
    ensures SendOk(regs[k := r'], send + [k])
  {
    assert k !in send;
    forall h | 0 <= h < |regs| && HasUnsent(regs[k := r'][h]) ensures h in send + [k] {
      assert h == k || h in send;
    }
  }

  lemma SendStop(regs: seq<Reg>, send: seq<RegRef>, k: RegRef, r': Reg)
    requires SendOk(regs, send) && k < |regs| && !HasUnsent(regs[k]) && !HasUnsent(r')
    ensures SendOk(regs[k := r'], send)
  {
    assert k !in send;
    forall h | 0 <= h < |regs| && HasUnsent(regs[k := r'][h]) ensures h in send {
      assert h in send;
    }
  }

  /** No message refers to a quiet register, so it can be changed freely. */
  lemma QuietWords(regs: seq<Reg>, slots: seq<Msg>, k: RegRef, r': Reg)
    requires WordsOk(regs, slots) && k < |regs| && Quiet(regs[k])
    ensures WordsOk(regs[k := r'], slots)
  {
  }

  lemma NoneOutstanding(regs: seq<Reg>, slots: seq<Msg>, k: RegRef, r': Reg)
    requires Covered(regs, slots) && k < |regs| && (!r'.InProgress() || r'.nextSend == 0)
    ensures Covered(regs[k := r'], slots)
  {
    var regs' := regs[k := r'];
    forall h | 0 <= h < |regs| ensures CoveredAt(slots, regs'[h], h) {
      assert CoveredAt(slots, regs[h], h);
    }
  }

  lemma StartPieces(regs: seq<Reg>, send: seq<RegRef>, slots: seq<Msg>, k: RegRef, r': Reg)
    requires k < |regs| && OthersOk(regs, k) && SendOk(regs, send) && WordsOk(regs, slots) && Covered(regs, slots)
    requires Quiet(regs[k]) && RegOk(r') && HasUnsent(r') && r'.nextSend == 0
    ensures RegsOk(regs[k := r']) && SendOk(regs[k := r'], send + [k])
    ensures WordsOk(regs[k := r'], slots) && Covered(regs[k := r'], slots)
  {
    SendStart(regs, send, k, r');
    QuietWords(regs, slots, k, r');
    NoneOutstanding(regs, slots, k, r');
  }

  lemma StopPieces(regs: seq<Reg>, send: seq<RegRef>, slots: seq<Msg>, k: RegRef, r': Reg)
    requires k < |regs| && OthersOk(regs, k) && SendOk(regs, send) && WordsOk(regs, slots) && Covered(regs, slots)
    requires Quiet(regs[k]) && RegOk(r') && !r'.InProgress()
    ensures RegsOk(regs[k := r']) && SendOk(regs[k := r'], send)
    ensures WordsOk(regs[k := r'], slots) && Covered(regs[k := r'], slots)
  {
    SendStop(regs, send, k, r');
    QuietWords(regs, slots, k, r');
    NoneOutstanding(regs, slots, k, r');
  }

  lemma StartedOk(r: Reg, write: bool, action: Option<Action>)
    requires r.Valid() && (!r.writeQueued ==> r.recWrite == []) && (!r.readQueued ==> r.recRead == [])
    ensures var r' := Started(r, write, action);
      RegOk(r') && HasUnsent(r') && r'.nextSend == 0
  {
    MissingAll(r.info.size);
  }

  /** Starting an idle register keeps the invariant. */
  lemma StartInv(s: St, k: RegRef, write: bool, action: Option<Action>)
    requires Inv(s) && k < |s.regs| && !s.regs[k].InProgress()
    ensures Inv(SetReg(s, k, Started(s.regs[k], write, action)).(send := s.send + [k]))
  {
    hide SendOk, WordsOk, Unique, Covered;
    assert RegOk(s.regs[k]);
    StartedOk(s.regs[k], write, action);
    StartPieces(s.regs, s.send, s.slots, k, Started(s.regs[k], write, action));
  }

  lemma MergedOk(r: Reg, write: bool, action: Option<Action>)
    requires RegOk(r) && r.InProgress()
    ensures RegOk(Merged(r, write, action)) && SameProgress(r, Merged(r, write, action))
  {
  }

  lemma QueueInv(s: St, k: RegRef, write: bool, action: Option<Action>)
    requires Inv(s) && k < |s.regs|
    ensures Inv(Queue(s, k, write, action).s)
  {
    hide SendOk, WordsOk, Unique, Covered;
    if !s.regs[k].InProgress() {
      StartInv(s, k, write, action);
    } else {
      MergedOk(s.regs[k], write, action);
      SameTraffic(s, k, Merged(s.regs[k], write, action));
    }
  }

  /* ---- handle_send: loading ---- */

  lemma CommandOffset(r: Reg, o: nat)
    requires r.Valid() && o < r.info.size
    ensures OffsetOf(r, r.Command(o)) == o
  {
  }

  /** The messages b hold what a holds and word w of register k at (i, j). */
  ghost predicate OneMore(a: seq<Msg>, b: seq<Msg>, i: int, j: int, k: int, w: int) {
    forall x, y, h, v :: Holds(b, x, y, h, v) <==> Holds(a, x, y, h, v) || (x == i && y == j && h == k && v == w)
  }

  lemma LoadHolds(slots: seq<Msg>, i: nat, j: nat, k: RegRef, w: Word, v: Word)
    requires i < |slots| && |slots[i].reg| == NREG && j < NREG && slots[i].reg[j].None?
    requires forall y, y' | 0 <= y' < y < NREG && slots[i].reg[y].Some? :: slots[i].reg[y'].Some?
    requires forall y | 0 <= y < j && slots[i].reg[y].Some? :: 2 * y + 4 <= |slots[i].buf|
    ensures OneMore(slots, slots[i := Loaded(slots[i], j, k, w, v)], i, j, k, w)
  {
    var slots' := slots[i := Loaded(slots[i], j, k, w, v)];
    assert forall y | j <= y < NREG :: slots[i].reg[y].None?;
    forall x, y, h, u ensures Holds(slots', x, y, h, u) <==> Holds(slots, x, y, h, u) || (x == i && y == j && h == k && u == w) {
    }
  }

  lemma LoadWords(regs: seq<Reg>, a: seq<Msg>, b: seq<Msg>, i: nat, j: nat, k: RegRef)
    requires k < |regs| && HasUnsent(regs[k]) && WordsOk(regs, a) && RegOk(regs[k])
    requires OneMore(a, b, i, j, k, regs[k].Command(regs[k].nextSend))
    ensures WordsOk(regs[k := regs[k].(nextSend := regs[k].nextSend + 1)], b)
  {
    CommandOffset(regs[k], regs[k].nextSend);
  }

  lemma LoadUnique(regs: seq<Reg>, a: seq<Msg>, b: seq<Msg>, i: nat, j: nat, k: RegRef)
    requires k < |regs| && HasUnsent(regs[k]) && WordsOk(regs, a) && RegOk(regs[k]) && Unique(a)
    requires OneMore(a, b, i, j, k, regs[k].Command(regs[k].nextSend))
    ensures Unique(b)
  {
    CommandOffset(regs[k], regs[k].nextSend);
  }

  lemma LoadCovered(regs: seq<Reg>, a: seq<Msg>, b: seq<Msg>, i: nat, j: nat, k: RegRef)
    requires k < |regs| && Covered(regs, a)
    requires OneMore(a, b, i, j, k, regs[k].Command(regs[k].nextSend))
    ensures Covered(regs[k := regs[k].(nextSend := regs[k].nextSend + 1)], b)
  {
    var regs' := regs[k := regs[k].(nextSend := regs[k].nextSend + 1)];
    forall h | 0 <= h < |regs'| ensures CoveredAt(b, regs'[h], h) {
      forall o | Outstanding(regs'[h], o) ensures InFlight(b, h, regs'[h].Command(o)) {
        var w := regs'[h].Command(o);
        if h == k && o == regs[k].nextSend {
          assert Holds(b, i, j, k, w);
        } else {
          assert CoveredAt(a, regs[h], h) && Outstanding(regs[h], o) && InFlight(a, h, regs[h].Command(o));
          var x, y :| Holds(a, x, y, h, w);
          assert Holds(b, x, y, h, w);
        }
      }
    }
  }

  lemma LoadSend(regs: seq<Reg>, send: seq<RegRef>)
    requires SendOk(regs, send) && send != [] && send[0] < |regs| && HasUnsent(regs[send[0]])
    ensures var k := send[0];
      SendOk(regs[k := regs[k].(nextSend := regs[k].nextSend + 1)],
             if regs[k].nextSend + 1 >= regs[k].info.size then send[1..] else send)
  {
    hide SendOk;
    var k := send[0];
    var r' := regs[k].(nextSend := regs[k].nextSend + 1);
    if HasUnsent(r') {
      LoadSendMore(regs, send, r');
    } else {
      LoadSendLast(regs, send, r');
    }
  }

  lemma LoadSendMore(regs: seq<Reg>, send: seq<RegRef>, r': Reg)
    requires SendOk(regs, send) && send != [] && send[0] < |regs| && HasUnsent(r')
    ensures SendOk(regs[send[0] := r'], send)
  {
    forall h | 0 <= h < |regs| && HasUnsent(regs[send[0] := r'][h]) ensures h in send {
      assert h == send[0] || HasUnsent(regs[h]);
    }
  }

  lemma LoadSendLast(regs: seq<Reg>, send: seq<RegRef>, r': Reg)
    requires SendOk(regs, send) && send != [] && send[0] < |regs| && !HasUnsent(r')
    ensures SendOk(regs[send[0] := r'], send[1..])
  {
    forall h | 0 <= h < |regs| && HasUnsent(regs[send[0] := r'][h]) ensures h in send[1..] {
      assert h in send;
      assert send == [send[0]] + send[1..];
    }
  }

  lemma LoadPieces(regs: seq<Reg>, send: seq<RegRef>, a: seq<Msg>, b: seq<Msg>, i: nat, j: nat)
    requires send != [] && RegsOk(regs) && SendOk(regs, send) && WordsOk(regs, a) && Unique(a) && Covered(regs, a)
    requires var k := send[0]; OneMore(a, b, i, j, k, regs[k].Command(regs[k].nextSend))
    ensures var k := send[0];
      var regs' := regs[k := regs[k].(nextSend := regs[k].nextSend + 1)];
      RegsOk(regs') && WordsOk(regs', b) && Unique(b) && Covered(regs', b)
  {
    hide OneMore, Unique, Covered;
    var k := send[0];
    assert RegOk(regs[k]) && HasUnsent(regs[k]);
    RegsStep(regs, k, regs[k].(nextSend := regs[k].nextSend + 1));
    LoadWords(regs, a, b, i, j, k);
    LoadUnique(regs, a, b, i, j, k);
    LoadCovered(regs, a, b, i, j, k);
  }

  lemma LoadWordHolds(s: St, i: nat, j: nat)
    requires WF(s) && CanLoad(s, i, j) && FrontHasWord(s)
    ensures var k := s.send[0];
      OneMore(s.slots, LoadWord(s, i, j).slots, i, j, k, s.regs[k].Command(s.regs[k].nextSend))
  {
    var r := s.regs[s.send[0]];
    var v := if r.state == Reading then 0 else r.memTx[r.nextSend];
    assert s.slots[i].Valid(|s.regs|);
    LoadHolds(s.slots, i, j, s.send[0], r.Cmd(r.nextSend), v);
  }

  lemma QueueFront(regs: seq<Reg>, send: seq<RegRef>)
    requires SendOk(regs, send) && send != []
    ensures send[0] < |regs| && HasUnsent(regs[send[0]])
  {
  }

  lemma LoadInv(s: St, i: nat, j: nat)
    requires Inv(s) && CanLoad(s, i, j) && FrontHasWord(s)
    ensures Inv(LoadWord(s, i, j))
  {
    hide RegsOk, SendOk, WordsOk, Unique, Covered, OneMore;
    QueueFront(s.regs, s.send);
    LoadWordHolds(s, i, j);
    LoadPieces(s.regs, s.send, s.slots, LoadWord(s, i, j).slots, i, j);
    LoadSend(s.regs, s.send);
  }

  lemma {:induction false} LoadSlotInv(s: St, i: nat, j: nat)
    requires Inv(s) && i < |s.slots| && j <= NREG && s.slots[i].state != Sent
    requires 0 < j ==> s.slots[i].reg[j - 1].Some?
    ensures Inv(LoadSlot(s, i, j))
    decreases NREG - j
  {
    hide RegsOk, SendOk, WordsOk, Unique, Covered;
    if j == NREG || !FrontHasWord(s) {
    } else if s.slots[i].reg[j].Some? {
      LoadSlotInv(s, i, j + 1);
    } else {
      LoadInv(s, i, j);
      LoadSlotInv(LoadWord(s, i, j), i, j + 1);
    }
  }

  /** The messages hold the same words. */
  ghost predicate SameWords(a: seq<Msg>, b: seq<Msg>) {
    forall i, j, k, w :: Holds(a, i, j, k, w) <==> Holds(b, i, j, k, w)
  }

  lemma CoveredEqual(regs: seq<Reg>, a: seq<Msg>, b: seq<Msg>)
    requires Covered(regs, a) && SameWords(a, b)
    ensures Covered(regs, b)
  {
    forall h | 0 <= h < |regs| ensures CoveredAt(b, regs[h], h) {
      assert CoveredAt(a, regs[h], h);
      forall o | Outstanding(regs[h], o) ensures InFlight(b, h, regs[h].Command(o)) {
        assert InFlight(a, h, regs[h].Command(o));
        var x, y :| Holds(a, x, y, h, regs[h].Command(o));
        assert Holds(b, x, y, h, regs[h].Command(o));
      }
    }
  }

  /** What does not show in the words of the messages does not matter to the invariant. */
  lemma SlotsSame(s: St, s': St)
    requires Inv(s) && WF(s') && s'.regs == s.regs && s'.send == s.send && SameWords(s.slots, s'.slots)
    ensures Inv(s')
  {
    CoveredEqual(s.regs, s.slots, s'.slots);
  }

  lemma MarkHolds(slots: seq<Msg>, i: nat, m: Msg)
    requires i < |slots| && m.reg == slots[i].reg && m.buf == slots[i].buf
    ensures SameWords(slots, slots[i := m])
  {
  }

  lemma MarkInv(s: St, i: nat)
    requires Inv(s) && i < |s.slots| && s.slots[i].state != Sent
    ensures Inv(MarkReady(s, i))
  {
    hide RegsOk, SendOk, WordsOk, Unique, Covered;
    MarkHolds(s.slots, i, s.slots[i].(state := Ready));
    MarkHolds(s.slots, i, s.slots[i]);
    assert s.slots[i := s.slots[i]] == s.slots;
    SlotsSame(s, MarkReady(s, i));
  }

  lemma {:induction false} LoadPassInv(s: St, i: nat)
    requires Inv(s) && i <= |s.slots|
    ensures Inv(LoadPass(s, i))
    decreases |s.slots| - i
  {
    hide RegsOk, SendOk, WordsOk, Unique, Covered;
    if i == |s.slots| || !FrontHasWord(s) {
    } else if s.slots[i].state == Sent {
      LoadPassInv(s, i + 1);
    } else {
      LoadSlotInv(s, i, 0);
      MarkInv(LoadSlot(s, i, 0), i);
      LoadPassInv(MarkReady(LoadSlot(s, i, 0), i), i + 1);
    }
  }

  /** In the queue there is always a word to send: handle_send's second assert. */
  lemma FrontReady(s: St)
    requires Inv(s) && s.send != []
    ensures s.regs[s.send[0]].InProgress() && FrontHasWord(s)
  {
  }

  /* ---- handle_send: sending ---- */

  lemma FramedHolds(slots: seq<Msg>, i: nat, nregs: nat, attempt: nat, st: MsgState, due: int)
    requires i < |slots| && i < 255 && slots[i].Valid(nregs)
    ensures SameWords(slots, slots[i := Framed(slots[i], i, attempt).(state := st, due := due)])
  {
    var m := slots[i];
    assert m.buf <= Padded(m.buf);
    var slots' := slots[i := Framed(m, i, attempt).(state := st, due := due)];
    forall x, j, k, w ensures Holds(slots, x, j, k, w) <==> Holds(slots', x, j, k, w) {
    }
  }

  lemma AttemptInv(s: St, i: nat, st: MsgState, due: int)
    requires Inv(s) && i < |s.slots| && s.slots[i].state == Ready && st != Free
    ensures Inv(Attempt(s, i, st, due))
  {
    hide RegsOk, SendOk, WordsOk, Unique, Covered;
    FramedHolds(s.slots, i, |s.regs|, s.sendSeq, st, due);
    SlotsSame(s, Attempt(s, i, st, due));
  }

  lemma {:induction false} SendPassInv(s: St, i: nat, oc: seq<Outcome>, due: int)
    requires Inv(s) && i <= |s.slots| == |oc|
    ensures Inv(SendPass(s, i, oc, due).res.s)
    decreases |s.slots| - i
  {
    hide RegsOk, SendOk, WordsOk, Unique, Covered;
    if i == |s.slots| {
    } else if s.slots[i].state != Ready {
      SendPassInv(s, i + 1, oc, due);
    } else if oc[i] == WouldBlock || oc[i] == SocketFailure {
      AttemptInv(s, i, Ready, s.slots[i].due);
    } else {
      AttemptInv(s, i, Sent, due);
      SendPassInv(Attempt(s, i, Sent, due), i + 1, oc, due);
    }
  }

  lemma HandleSendInv(s: St, oc: seq<Outcome>, due: int)
    requires Inv(s) && |oc| == |s.slots|
    ensures Inv(HandleSend(s, oc, due).res.s)
  {
    hide RegsOk, SendOk, WordsOk, Unique, Covered;
    LoadPassInv(s, 0);
    SendPassInv(LoadPass(s, 0), 0, oc, due);
  }

  /* ---- handle_process ---- */

  lemma ClearedHolds(slots: seq<Msg>, i: nat, j: nat, k: RegRef, w: int)
    requires Holds(slots, i, j, k, w)
    ensures OneMore(slots[i := WordCleared(slots[i], j)], slots, i, j, k, w)
  {
  }

  /** A matching answer carries the address and the direction of the word it answers. */
  lemma MatchedWord(r: Reg, b: Word, w: Word)
    requires RegOk(r) && WordOk(r, b) && Masked(w) == b
    ensures w % ADDR_LIMIT - r.info.base == OffsetOf(r, b)
    ensures IsRead(w) <==> r.state == Reading
  {
    assert Masked(w) % ADDR_LIMIT == w % ADDR_LIMIT;
    assert Masked(w) / READ_BIT == w / READ_BIT;
  }

  lemma FilledOk(r: Reg, o: nat, read: bool, data: Word)
    requires RegOk(r) && Outstanding(r, o)
    ensures var r' := Filled(r, o, read, data);
      && r'.received == r.received[o := true] && r'.nremaining == Missing(r'.received) == r.nremaining - 1
      && r'.state == r.state && r'.nextSend == r.nextSend
      && (r'.nremaining > 0 ==> RegOk(r')) && (r'.nremaining == 0 ==> Quiet(r'))
  {
    MissingMark(r.received, o);
    var r' := Filled(r, o, read, data);
    MissingNone(r'.received);
    assert r.nextSend < r.info.size ==> !r'.received[r.nextSend];
  }

  lemma FillWords(regs: seq<Reg>, a: seq<Msg>, b: seq<Msg>, i: nat, j: nat, k: RegRef, o: nat, r': Reg)
    requires k < |regs| && WordsOk(regs, a) && Unique(a) && OneMore(b, a, i, j, k, regs[k].Command(o))
    requires !Holds(b, i, j, k, regs[k].Command(o)) && Outstanding(regs[k], o)
    requires r' == regs[k].(received := regs[k].received[o := true], memRx := r'.memRx, nremaining := r'.nremaining)
    ensures WordsOk(regs[k := r'], b)
  {
    var regs' := regs[k := r'];
    forall x, y, h, w | Holds(b, x, y, h, w) ensures 0 <= h < |regs'| && WordOk(regs'[h], w) {
      assert Holds(a, x, y, h, w);
    }
  }

  lemma FillCovered(regs: seq<Reg>, a: seq<Msg>, b: seq<Msg>, i: nat, j: nat, k: RegRef, o: nat, r': Reg)
    requires k < |regs| && Covered(regs, a) && OneMore(b, a, i, j, k, regs[k].Command(o)) && Outstanding(regs[k], o)
    requires r' == regs[k].(received := regs[k].received[o := true], memRx := r'.memRx, nremaining := r'.nremaining)
    ensures Covered(regs[k := r'], b)
  {
    var regs' := regs[k := r'];
    forall h | 0 <= h < |regs| ensures CoveredAt(b, regs'[h], h) {
      assert CoveredAt(a, regs[h], h);
      forall u | Outstanding(regs'[h], u) ensures InFlight(b, h, regs'[h].Command(u)) {
        assert Outstanding(regs[h], u) && InFlight(a, h, regs[h].Command(u));
        var x, y :| Holds(a, x, y, h, regs[h].Command(u));
        assert Holds(b, x, y, h, regs[h].Command(u));
      }
    }
  }

  lemma SendProgress(regs: seq<Reg>, send: seq<RegRef>, k: RegRef, r': Reg)
    requires SendOk(regs, send) && k < |regs|
    requires r'.info == regs[k].info && r'.state == regs[k].state && r'.nextSend == regs[k].nextSend
    ensures SendOk(regs[k := r'], send)
  {
    SendSame(regs, send, k, regs[k].(memRx := r'.memRx));
    forall h | 0 <= h < |regs| && HasUnsent(regs[k := r'][h]) ensures h in send {
      assert HasUnsent(regs[h]);
    }
  }

  /** What holds when the last word of register k has come in and nothing refers to it. */
  ghost predicate AboutToComplete(s: St, k: RegRef) {
    && WF(s) && k < |s.regs| && OthersOk(s.regs, k) && SendOk(s.regs, s.send)
    && WordsOk(s.regs, s.slots) && Unique(s.slots) && Covered(s.regs, s.slots)
    && Quiet(s.regs[k])
    && (!s.regs[k].writeQueued ==> s.regs[k].recWrite == []) && (!s.regs[k].readQueued ==> s.regs[k].recRead == [])
  }

  /** The register as Complete leaves it. */
  function Completed(r: Reg): (r': Reg)
    requires r.Valid()
    ensures r'.Valid() && r'.info == r.info
  {
    if r.writeQueued then Started(r.(writeQueued := false, recInprog := r.recWrite, recWrite := []), true, None)
    else if r.readQueued then Started(r.(readQueued := false, recInprog := r.recRead, recRead := []), false, None)
    else r.(state := InSync, recInprog := [])
  }

  lemma RestartShape(s: St, k: RegRef, r: Reg, write: bool)
    requires WF(s) && k < |s.regs| && r.Valid() && r.info == s.regs[k].info && !r.InProgress()
    ensures var f := Finish(s, k);
      var o := Queue(SetReg(f, k, r), k, write, None);
      o.Go? ==> o.s == f.(regs := s.regs[k := Started(r, write, None)], send := s.send + [k])
  {
    SetTwice(s.regs, k, Finish(s, k).regs[k], r);
    SetTwice(s.regs, k, r, Started(r, write, None));
  }

  lemma CompleteShape(s: St, k: RegRef)
    requires WF(s) && k < |s.regs| && Complete(s, k).Go?
    ensures var r := s.regs[k];
      Complete(s, k).s == SetReg(s, k, Completed(r)).(
        records := s.records + r.recInprog, send := if r.writeQueued || r.readQueued then s.send + [k] else s.send)
  {
    hide Queue, Finish, Started, WF;
    var r := s.regs[k];
    FinishedReg(s, k);
    NothingFirst(r.recWrite);
    NothingFirst(r.recRead);
    var r1 := Finish(s, k).regs[k];
    if r.writeQueued {
      var r2 := r1.(writeQueued := false, recInprog := r1.recInprog + r.recWrite, recWrite := []);
      RestartShape(s, k, r2, true);
      StateUnused(r.(writeQueued := false, recInprog := r.recWrite, recWrite := []), r2, true);
    } else if r.readQueued {
      var r2 := r1.(readQueued := false, recInprog := r1.recInprog + r.recRead, recRead := []);
      RestartShape(s, k, r2, false);
      StateUnused(r.(readQueued := false, recInprog := r.recRead, recRead := []), r2, false);
    }
  }

  lemma FinishedReg(s: St, k: RegRef)
    requires WF(s) && k < |s.regs|
    ensures s.regs[k].Valid()
    ensures var r1 := s.regs[k].(state := InSync, recInprog := []);
      Finish(s, k) == SetReg(s, k, r1).(records := s.records + s.regs[k].recInprog)
  {
  }

  lemma NothingFirst(q: seq<Action>)
    ensures [] + q == q
  {
  }

  lemma StateUnused(a: Reg, b: Reg, write: bool)
    requires a.Valid() && b == a.(state := b.state)
    ensures Started(a, write, None) == Started(b, write, None)
  {
  }

  lemma SetTwice(regs: seq<Reg>, k: RegRef, r1: Reg, r2: Reg)
    requires k < |regs|
    ensures regs[k := r1][k := r2] == regs[k := r2]
  {
  }

  lemma CompleteInv(s: St, k: RegRef)
    requires AboutToComplete(s, k) && Complete(s, k).Go?
    ensures Inv(Complete(s, k).s)
  {
    CompleteShape(s, k);
    var r := s.regs[k];
    if r.writeQueued {
      StartedOk(r.(writeQueued := false, recInprog := r.recWrite, recWrite := []), true, None);
      StartPieces(s.regs, s.send, s.slots, k, Completed(r));
    } else if r.readQueued {
      StartedOk(r.(readQueued := false, recInprog := r.recRead, recRead := []), false, None);
      StartPieces(s.regs, s.send, s.slots, k, Completed(r));
    } else {
      StopPieces(s.regs, s.send, s.slots, k, Completed(r));
    }
  }

  lemma FillPieces(regs: seq<Reg>, send: seq<RegRef>, a: seq<Msg>, b: seq<Msg>, i: nat, j: nat, k: RegRef, o: nat, r': Reg)
    requires k < |regs| && Outstanding(regs[k], o) && OneMore(b, a, i, j, k, regs[k].Command(o))
    requires !Holds(b, i, j, k, regs[k].Command(o))
    requires SendOk(regs, send) && WordsOk(regs, a) && Unique(a) && Covered(regs, a)
    requires r' == regs[k].(received := regs[k].received[o := true], memRx := r'.memRx, nremaining := r'.nremaining)
    ensures SendOk(regs[k := r'], send) && WordsOk(regs[k := r'], b) && Unique(b) && Covered(regs[k := r'], b)
  {
    FillWords(regs, a, b, i, j, k, o, r');
    FillCovered(regs, a, b, i, j, k, o, r');
    SendProgress(regs, send, k, r');
  }

  lemma FillInv(s: St, i: nat, j: nat, k: RegRef, o: nat, read: bool, data: Word)
    requires Inv(s) && k < |s.regs| && Outstanding(s.regs[k], o) && Holds(s.slots, i, j, k, s.regs[k].Command(o))
    requires s.slots[i].state == Sent
    ensures var r' := Filled(s.regs[k], o, read, data);
      var s' := SetReg(ClearWord(s, i, j), k, r');
      if r'.nremaining == 0 then AboutToComplete(s', k) else Inv(s')
  {
    hide WordsOk, Unique, Covered, OneMore, SendOk, RegsOk, OthersOk, Quiet, Reg.Valid, Msg.Valid;
    var r := s.regs[k];
    RegOkAt(s.regs, k);
    var r' := Filled(r, o, read, data);
    FilledOk(r, o, read, data);
    var b := s.slots[i := WordCleared(s.slots[i], j)];
    ClearedHolds(s.slots, i, j, k, r.Command(o));
    FillPieces(s.regs, s.send, s.slots, b, i, j, k, o, r');
    RegsButOne(s.regs, k, r');
  }

  lemma RegOkAt(regs: seq<Reg>, k: RegRef)
    requires RegsOk(regs) && k < |regs|
    ensures RegOk(regs[k])
  {
  }

  lemma RegsButOne(regs: seq<Reg>, k: RegRef, r': Reg)
    requires RegsOk(regs) && k < |regs|
    ensures OthersOk(regs[k := r'], k) && (RegOk(r') ==> RegsOk(regs[k := r']))
  {
  }

  lemma AcceptInv(s: St, i: nat, j: nat, k: RegRef, o: nat, read: bool, data: Word)
    requires Inv(s) && k < |s.regs| && Outstanding(s.regs[k], o) && Holds(s.slots, i, j, k, s.regs[k].Command(o))
    requires s.slots[i].state == Sent
    ensures var a := Accept(ClearWord(s, i, j), k, o, read, data); a.Go? ==> Inv(a.s)
  {
    hide RegsOk, SendOk, WordsOk, Unique, Covered;
    FillInv(s, i, j, k, o, read, data);
    var s0 := ClearWord(s, i, j);
    var s1 := SetReg(s0, k, Filled(s.regs[k], o, read, data));
    if s1.regs[k].nremaining == 0 && Complete(s1, k).Go? {
      CompleteInv(s1, k);
    }
  }

  /** After do_timeout and until the reset it asks for: no message refers to any register. */
  ghost predicate Lost(s: St) {
    WF(s) && s.resetReq && NoWords(s.slots)
  }

  ghost predicate NoWords(slots: seq<Msg>) {
    forall i | 0 <= i < |slots| :: slots[i].reg == NoRegs()
  }

  ghost predicate InvOrLost(s: St) {
    Inv(s) || Lost(s)
  }

  lemma TimeoutLost(s: St, i: nat)
    requires WF(s) && i < |s.slots| && (FirstUsed(s.slots[i].reg, 0) == NREG ==> NoWords(s.slots))
    ensures Lost(DoTimeout(s, i))
  {
  }

  /** What do_timeout does when message i refers to a register, k being the first: k is given up
      with all its actions, it leaves the front of the queue, no message refers to any register any
      more, message i is free, and a reset is asked for; nothing else changes. */
  lemma TimeoutGivesUp(s: St, i: nat, x: nat, k: RegRef)
    requires WF(s) && i < |s.slots| && x < NREG && |s.slots[i].reg| == NREG && s.slots[i].reg[x] == Some(k)
    requires forall y | 0 <= y < x :: s.slots[i].reg[y].None?
    ensures k < |s.regs|
    ensures var r := s.regs[k];
      var s' := DoTimeout(s, i);
      && s'.regs == s.regs[k := r.(state := Invalid, recInprog := [], recWrite := [], recRead := [])]
      && s'.records == s.records + r.recInprog + r.recWrite + r.recRead
      && s'.send == (if s.send != [] && s.send[0] == k then s.send[1..] else s.send)
      && s'.resetReq && s'.slots[i].state == Free && |s'.slots| == |s.slots|
      && forall y | 0 <= y < |s.slots| :: s'.slots[y].reg == NoRegs() && (y != i ==> s'.slots[y] == s.slots[y].(reg := NoRegs()))
  {
    hide Reg.Valid;
    assert s.slots[i].Valid(|s.regs|);
    SetTwice(s.regs, k, s.regs[k].(state := Invalid), s.regs[k].(state := Invalid, recInprog := [], recWrite := [], recRead := []));
  }

  /** The two asserts of do_timeout: the register it cancels is in progress, and is either the
      front of the queue or completely sent. */
  lemma TimeoutAsserts(s: St, i: nat, j: nat, k: RegRef)
    requires Inv(s) && i < |s.slots| && j < NREG && s.slots[i].reg[j] == Some(k)
    ensures k < |s.regs| && s.regs[k].InProgress()
    ensures (s.send != [] && s.send[0] == k) || s.regs[k].nextSend >= s.regs[k].info.size
  {
    assert s.slots[i].Valid(|s.regs|);
    assert Holds(s.slots, i, j, k, s.slots[i].buf[2 * j + 2]);
    if s.regs[k].nextSend < s.regs[k].info.size {
      assert HasUnsent(s.regs[k]) && k in s.send;
    }
  }

  /** The word in an address slot of a message, when the invariant holds. */
  lemma UsedWord(s: St, i: nat, j: nat)
    requires Inv(s) && i < |s.slots| && j < NREG && s.slots[i].reg[j].Some?
    ensures var k := s.slots[i].reg[j].value;
      var b := s.slots[i].buf[2 * j + 2];
      && k < |s.regs| && RegOk(s.regs[k]) && WordOk(s.regs[k], b)
      && Holds(s.slots, i, j, k, s.regs[k].Command(OffsetOf(s.regs[k], b)))
  {
    assert s.slots[i].Valid(|s.regs|);
    assert Holds(s.slots, i, j, s.slots[i].reg[j].value, s.slots[i].buf[2 * j + 2]);
  }

  /** The exact effect of one accepted word; .at() is never out of range. */
  lemma AcceptedWord(s: St, i: nat, j: nat, w: seq<Word>)
    requires Inv(s) && i < |s.slots| && j < NREG && s.slots[i].state == Sent && s.slots[i].reg[j].Some?
    requires 2 * j + 3 < |w| && Masked(w[2 * j + 2]) == s.slots[i].buf[2 * j + 2]
    ensures var k := s.slots[i].reg[j].value;
      var o := OffsetOf(s.regs[k], s.slots[i].buf[2 * j + 2]);
      && RegOk(s.regs[k]) && Outstanding(s.regs[k], o)
      && var a := Accept(ClearWord(s, i, j), k, o, s.regs[k].state == Reading, w[2 * j + 3]);
      && AcceptAt(s, i, j, w[2 * j + 2], w[2 * j + 3]) == ProcessWord(s, i, j, w)
      && if a.Go? then ProcessWord(s, i, j, w) == a && Inv(a.s) else ProcessWord(s, i, j, w).Threw?
  {
    UsedWord(s, i, j);
    var k := s.slots[i].reg[j].value;
    var r := s.regs[k];
    var o := OffsetOf(r, s.slots[i].buf[2 * j + 2]);
    MatchedWord(r, s.slots[i].buf[2 * j + 2], w[2 * j + 2]);
    AcceptInv(s, i, j, k, o, r.state == Reading, w[2 * j + 3]);
  }

  lemma ProcessWordInv(s: St, i: nat, j: nat, w: seq<Word>)
    requires Inv(s) && i < |s.slots| && j < NREG && s.slots[i].state == Sent
    ensures var o := ProcessWord(s, i, j, w);
      o.Go? ==> Lost(o.s) || (Inv(o.s) && o.s.slots == s.slots[i := WordCleared(s.slots[i], j)])
  {
    hide RegsOk, SendOk, WordsOk, Unique, Covered;
    var m := s.slots[i];
    if m.reg[j].None? {
      assert m == WordCleared(m, j);
    } else {
      UsedWord(s, i, j);
      if 2 * j + 3 >= |w| || Masked(w[2 * j + 2]) != m.buf[2 * j + 2] {
        TimeoutLost(s, i);
      } else {
        AcceptedWord(s, i, j, w);
      }
    }
  }

  lemma LostWord(s: St, i: nat, j: nat, w: seq<Word>)
    requires Lost(s) && i < |s.slots| && j < NREG
    ensures ProcessWord(s, i, j, w) == Go(s)
  {
    assert s.slots[i].reg == NoRegs();
  }

  lemma {:induction false} LostWords(s: St, i: nat, j: nat, w: seq<Word>)
    requires Lost(s) && i < |s.slots| && j <= NREG && BeingProcessed(s.slots[i])
    ensures ProcessWords(s, i, j, w) == Go(s)
    decreases NREG - j
  {
    if j < NREG {
      LostWord(s, i, j, w);
      LostWords(s, i, j + 1, w);
    }
  }

  lemma {:induction false} ProcessWordsInv(s: St, i: nat, j: nat, w: seq<Word>)
    requires Inv(s) && i < |s.slots| && j <= NREG && s.slots[i].state == Sent
    requires forall y | 0 <= y < j :: s.slots[i].reg[y].None?
    ensures var o := ProcessWords(s, i, j, w);
      o.Go? ==> Lost(o.s) || (Inv(o.s) && o.s.slots == s.slots[i := s.slots[i].(reg := NoRegs())])
    decreases NREG - j
  {
    hide RegsOk, SendOk, WordsOk, Unique, Covered;
    if j == NREG {
      assert s.slots[i].reg == NoRegs();
      assert s.slots == s.slots[i := s.slots[i].(reg := NoRegs())];
    } else {
      var o := ProcessWord(s, i, j, w);
      ProcessWordInv(s, i, j, w);
      if o.Go? {
        if Lost(o.s) {
          LostWords(o.s, i, j + 1, w);
        } else {
          ProcessWordsInv(o.s, i, j + 1, w);
          SetSlotTwice(s.slots, i, WordCleared(s.slots[i], j), s.slots[i].(reg := NoRegs()));
        }
      }
    }
  }

  lemma SetSlotTwice(slots: seq<Msg>, i: nat, a: Msg, b: Msg)
    requires i < |slots|
    ensures slots[i := a][i := b] == slots[i := b]
  {
  }

  lemma EmptyHolds(slots: seq<Msg>, i: nat, m: Msg)
    requires i < |slots| && slots[i].reg == NoRegs() && m.reg == NoRegs()
    ensures SameWords(slots, slots[i := m])
  {
  }

  lemma ClearInv(s: St, i: nat)
    requires InvOrLost(s) && i < |s.slots| && s.slots[i].reg == NoRegs()
    ensures InvOrLost(ClearSlot(s, i)) && (Inv(s) ==> Inv(ClearSlot(s, i)))
  {
    if Inv(s) {
      EmptyHolds(s.slots, i, Cleared(s.slots[i]));
      SlotsSame(s, ClearSlot(s, i));
    }
  }

  lemma HandleProcessInv(s: St, w: seq<Word>)
    requires InvOrLost(s)
    ensures var o := HandleProcess(s, w); o.Go? ==> InvOrLost(o.s)
  {
    hide RegsOk, SendOk, WordsOk, Unique, Covered;
    if |w| >= 8 && Matches(s, w, w[1] / ADDR_LIMIT) {
      var i := w[1] / ADDR_LIMIT;
      if Inv(s) {
        ProcessWordsInv(s, i, 0, w);
      } else {
        LostWords(s, i, 0, w);
      }
      var o := ProcessWords(s, i, 0, w);
      if o.Go? {
        ClearInv(o.s, i);
      }
    }
  }

  lemma {:induction false} ProcessAllInv(s: St, packets: seq<seq<Word>>)
    requires InvOrLost(s)
    ensures var o := ProcessAll(s, packets); o.Go? ==> InvOrLost(o.s)
    decreases |packets|
  {
    hide RegsOk, SendOk, WordsOk, Unique, Covered;
    if packets != [] {
      HandleProcessInv(s, packets[0]);
      var o := HandleProcess(s, packets[0]);
      if o.Go? {
        ProcessAllInv(o.s, packets[1..]);
      }
    }
  }
}
