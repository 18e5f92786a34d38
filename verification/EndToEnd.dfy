/** Driver, network and device together: what the device holds when a register comes to rest,
    what a completed read returns, and which replies can be taken for another message's. */
module EndToEnd {
  import opened EngineState
  import opened Partition
  import opened Messages
  import opened Peer

  /** Everything outside the driver, and what has to be remembered to state the claims:
      the device's memory and its history, requests not yet executed, replies that may still
      arrive (any number of times), the registers whose send cache has been handed to a write
      since it last changed, the time at which the latest read of a register started, and the
      registers that share no address with another writable one. */
  datatype Env = Env(
    mem: Memory, reqs: set<Tx>, replies: set<Tx>, synced: set<RegRef>, log: seq<Memory>, since: map<RegRef, nat>,
    alone: set<RegRef>)

  function Addr(r: Reg, o: int): int {
    r.info.base + o
  }

  /** The device held this word at this address at time `from` or later. */
  ghost predicate Held(log: seq<Memory>, from: nat, a: int, x: Word) {
    exists t :: from <= t < |log| && HeldAt(log, t, a, x)
  }

  predicate HeldAt(log: seq<Memory>, t: int, a: int, x: Word) {
    0 <= t < |log| && 0 <= a && a in log[t] && log[t][a].value == x
  }

  predicate Disjoint(f: Info, g: Info) {
    f.base + f.size <= g.base || g.base + g.size <= f.base
  }

  /** No other register writes to the addresses of register k. */
  predicate Alone(regs: seq<Reg>, k: RegRef) {
    k < |regs| && forall h | 0 <= h < |regs| && h != k && regs[h].info.writable :: Disjoint(regs[k].info, regs[h].info)
  }

  ghost predicate AloneIs(regs: seq<Reg>, v: Env) {
    forall k :: k in v.alone <==> Alone(regs, k)
  }

  lemma AloneEnv(regs: seq<Reg>, v: Env, v': Env)
    requires AloneIs(regs, v) && v'.alone == v.alone
    ensures AloneIs(regs, v')
  {
  }

  /* ---- claims about one register ---- */

  /** The device's word is the send cache's, cut to the width of the storage. */
  predicate WriteOk(r: Reg, mem: Memory, o: int) {
    0 <= o < |r.memTx| && 0 <= Addr(r, o) && (Addr(r, o) in mem ==> mem[Addr(r, o)].modulus > 0 && mem[Addr(r, o)].value == r.memTx[o] % mem[Addr(r, o)].modulus)
  }

  /** The receive cache's word was the device's at some time since the latest read started. */
  ghost predicate ReadOk(r: Reg, k: RegRef, v: Env, o: int) {
    0 <= o < |r.memRx| && k in v.since && 0 <= Addr(r, o) && (Addr(r, o) in v.mem ==> Held(v.log, v.since[k], Addr(r, o), r.memRx[o]))
  }

  /** The send cache of a register that no other one overwrites has gone to a write since it last
      changed, and no write waits. */
  predicate Settled(r: Reg, k: RegRef, v: Env) {
    k in v.synced && k in v.alone && !r.writeQueued
  }

  /** The word got at offset o is the send cache's, cut to the width of the storage. */
  predicate EchoOk(r: Reg, mem: Memory, o: int, got: Word) {
    0 <= o < |r.memTx| && 0 <= Addr(r, o) && (Addr(r, o) in mem ==> mem[Addr(r, o)].modulus > 0 && got == r.memTx[o] % mem[Addr(r, o)].modulus)
  }

  /** After a write the device has the send cache's words; a read after that returns them. */
  ghost predicate TxClaim(r: Reg, k: RegRef, v: Env) {
    Settled(r, k, v) ==>
      && (forall o | 0 <= o < |r.received| && (r.state == Writing ==> r.received[o]) :: WriteOk(r, v.mem, o))
      && (r.latest ==> r.state != Writing && forall o | 0 <= o < |r.received| && r.received[o] :: o < |r.memRx| && EchoOk(r, v.mem, o, r.memRx[o]))
  }

  ghost predicate RxClaim(r: Reg, k: RegRef, v: Env) {
    && (if r.state == Reading then forall o | 0 <= o < |r.received| && r.received[o] :: ReadOk(r, k, v, o)
        else k in v.since ==> forall o | 0 <= o < |r.received| :: ReadOk(r, k, v, o))
    && (r.state == InSync ==> forall o | 0 <= o < |r.received| :: r.received[o])
  }

  ghost predicate RegClaims(regs: seq<Reg>, v: Env) {
    && (forall k | 0 <= k < |regs| :: TxClaim(regs[k], k, v) && RxClaim(regs[k], k, v))
    && (forall k | 0 <= k < |regs| && regs[k].state == Writing :: regs[k].info.writable)
    && (forall k | k in v.synced :: k < |regs| && regs[k].info.writable)
    && (forall k | k in v.since :: k < |regs|)
  }

  /* ---- claims about words in messages ---- */

  function DataAt(slots: seq<Msg>, i: int, j: int): int {
    if 0 <= i < |slots| && 0 <= j && 2 * j + 3 < |slots[i].buf| then slots[i].buf[2 * j + 3] else 0
  }

  /** A word under way carries what the send cache still says, unless a newer write is queued. */
  predicate DataOk(r: Reg, k: RegRef, w: int, data: int, v: Env) {
    Settled(r, k, v) && r.state == Writing && 0 <= OffsetOf(r, w) < |r.memTx| ==> data == r.memTx[OffsetOf(r, w)]
  }

  ghost predicate DataClaims(regs: seq<Reg>, slots: seq<Msg>, v: Env) {
    forall i, j, k, w | Holds(slots, i, j, k, w) :: 0 <= k < |regs| && DataOk(regs[k], k, w, DataAt(slots, i, j), v)
  }

  /** The tag belongs to the message now waiting in its slot. */
  predicate Current(slots: seq<Msg>, t: Tx) {
    t.slot < |slots| && slots[t.slot].state == Sent && slots[t.slot].attempt == t.attempt
  }

  /** What a reply says about one word it answers: a write has been stored, a read was true. */
  ghost predicate Answered(r: Reg, k: RegRef, w: int, sent: int, got: Word, v: Env) {
    var a := Addr(r, OffsetOf(r, w));
    0 <= a && (a in v.mem ==>
      if r.state == Reading then k in v.since && Held(v.log, v.since[k], a, got) && (Settled(r, k, v) ==> EchoOk(r, v.mem, OffsetOf(r, w), got))
      else k in v.alone ==> v.mem[a].modulus > 0 && v.mem[a].value == sent % v.mem[a].modulus)
  }

  predicate Echoes(t: Tx, j: int, w: int) {
    0 <= j && 2 * j + 3 < |t.words| && t.words[2 * j + 2] == w
  }

  ghost predicate ReplyClaims(regs: seq<Reg>, slots: seq<Msg>, v: Env) {
    forall t, j, k, w | t in v.replies && Current(slots, t) && Holds(slots, t.slot, j, k, w) ::
      && Echoes(t, j, w) && 0 <= k < |regs|
      && (regs[k].state == Reading ==> k in v.since)
      && Answered(regs[k], k, w, DataAt(slots, t.slot, j), t.words[2 * j + 3], v)
  }

  /* ---- claims about sequence numbers ---- */

  /** A message in flight carries the header of its attempt. */
  predicate MsgId(m: Msg, i: nat, sendSeq: nat) {
    m.state == Sent ==> i < 255 && m.attempt < sendSeq && m.seqno == SeqWord(i, m.attempt) && |m.buf| >= 2 && m.buf[1] == m.seqno
  }

  predicate ReplyId(t: Tx, slots: seq<Msg>, sendSeq: nat) {
    && t.slot < |slots| && t.slot < 255 && t.attempt < sendSeq
    && |t.words| >= 2 && t.words[1] == SeqWord(t.slot, t.attempt)
    && (slots[t.slot].state == Sent ==> t.attempt <= slots[t.slot].attempt)
  }

  /** Whatever the device has not executed yet is the message now waiting in its slot. */
  ghost predicate RequestId(t: Tx, slots: seq<Msg>, replies: set<Tx>) {
    && Current(slots, t) && t.words == slots[t.slot].buf && |t.words| >= 8
    && forall u | u in replies :: !(u.slot == t.slot && u.attempt == t.attempt)
  }

  ghost predicate Ids(slots: seq<Msg>, sendSeq: nat, v: Env) {
    && (forall i | 0 <= i < |slots| :: MsgId(slots[i], i, sendSeq))
    && (forall t | t in v.replies :: ReplyId(t, slots, sendSeq))
    && (forall t | t in v.reqs :: RequestId(t, slots, v.replies))
  }

  ghost predicate History(v: Env) {
    && ValidMemory(v.mem) && |v.log| > 0 && v.log[|v.log| - 1] == v.mem
    && forall t | 0 <= t < |v.log| :: SameCells(v.mem, v.log[t])
  }

  /** The claims, also while a reply is being processed. */
  ghost predicate Claims(s: St, v: Env) {
    && Inv(s) && AloneIs(s.regs, v) && History(v)
    && RegClaims(s.regs, v) && DataClaims(s.regs, s.slots, v) && ReplyClaims(s.regs, s.slots, v)
    && Ids(s.slots, s.sendSeq, v)
  }

  /** The invariant of driver, network and device. */
  ghost predicate E2E(s: St, v: Env) {
    Claims(s, v) && MsgsOk(s.slots)
  }

  /* ---- stale replies ---- */

  /** The slot number survives the header word, for every number of slots from 1 to 255. */
  lemma SlotSurvives(slot: nat, attempt: nat)
    requires slot < 255
    ensures SeqWord(slot, attempt) / ADDR_LIMIT == slot && SeqWord(slot, attempt) % ADDR_LIMIT == attempt % ADDR_LIMIT
  {
  }

  /** A reply to one message is taken for another only if they used the same slot and a multiple
      of 2^24 send attempts lies between them. */
  lemma StaleOnlyAfterWrap(s: St, t: Tx, i: nat)
    requires WF(s) && i < |s.slots| && MsgId(s.slots[i], i, s.sendSeq) && s.slots[i].state == Sent
    requires t.slot < 255 && |t.words| >= 2 && t.words[1] == SeqWord(t.slot, t.attempt)
    requires Matches(s, t.words, i)
    ensures t.slot == i && (s.slots[i].attempt - t.attempt) % ADDR_LIMIT == 0
  {
    SlotSurvives(i, s.slots[i].attempt);
    SlotSurvives(t.slot, t.attempt);
    ModDifference(s.slots[i].attempt, t.attempt);
  }

  lemma ModDifference(a: int, b: int)
    requires a % ADDR_LIMIT == b % ADDR_LIMIT
    ensures (a - b) % ADDR_LIMIT == 0
  {
    assert a - b == (a / ADDR_LIMIT - b / ADDR_LIMIT) * ADDR_LIMIT;
  }

  /** A reply younger than 2^24 attempts is accepted only for the message it answers. */
  lemma YoungIsCurrent(s: St, v: Env, t: Tx, i: nat)
    requires WF(s) && Ids(s.slots, s.sendSeq, v) && t in v.replies && Matches(s, t.words, i)
    requires s.sendSeq <= t.attempt + ADDR_LIMIT
    ensures Current(s.slots, t) && i == t.slot
  {
    StaleOnlyAfterWrap(s, t, i);
    var d := s.slots[i].attempt - t.attempt;
    assert 0 <= d < ADDR_LIMIT && d % ADDR_LIMIT == 0;
  }

  /** The bound is exact: after a wrap a stale reply is taken for the new message. */
  lemma StaleAfterWrap(s: St, t: Tx, i: nat)
    requires WF(s) && i < |s.slots| && MsgId(s.slots[i], i, s.sendSeq) && s.slots[i].state == Sent
    requires t.slot == i && |t.words| >= 8 && t.words[0] == MAGIC && t.words[1] == SeqWord(t.slot, t.attempt)
    requires (s.slots[i].attempt - t.attempt) % ADDR_LIMIT == 0
    ensures Matches(s, t.words, i)
  {
    SlotSurvives(t.slot, t.attempt);
    var a, b := s.slots[i].attempt, t.attempt;
    assert a == b + ((a - b) / ADDR_LIMIT) * ADDR_LIMIT;
    ModShift(b, (a - b) / ADDR_LIMIT);
  }

  lemma ModShift(b: int, n: int)
    ensures (b + n * ADDR_LIMIT) % ADDR_LIMIT == b % ADDR_LIMIT
  {
  }
}
