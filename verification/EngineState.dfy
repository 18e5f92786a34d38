/** The request/reply engine of the FEED driver as values: the state of a Device with its
    DevRegs and DevMsgs, and every operation of the worker and of the records on it.

    Words are logical 32-bit values, so the byte order of the wire and of the register caches
    does not appear. A DevReg pointer is an index into the register table; entries 0, 1 and 2
    are the bootstrap registers HELLO, ROM 2K and ROM 16K.
 */
module EngineState {

  // DevMsg::nreg, the operations one message can carry
  const NREG := 180
  const MAGIC := 0xfeed_c0de
  const READ_BIT := 0x1000_0000
  const ADDR_LIMIT := 0x100_0000
  const WORD_LIMIT := 0x1_0000_0000

  const REG_ID := 0
  const REG_ROM2 := 1
  const REG_ROM16 := 2
  const BOOTSTRAP := 3

  type Word = w: nat | w < WORD_LIMIT
  // the index standing for a DevReg pointer
  type RegRef = nat
  // the identity of a RegInterest waiting for an operation
  type Action = nat

  datatype Option<T> = None | Some(value: T)

  /** JRegister; size is 1 << addr_width. */
  datatype Info = Info(name: string, base: nat, size: nat, dataWidth: nat, readable: bool, writable: bool, bootstrap: bool)

  predicate ValidInfo(f: Info) {
    0 < f.size && f.base + f.size <= ADDR_LIMIT && f.dataWidth <= 32
  }

  datatype OpState = Invalid | InSync | Reading | Writing

  /** DevReg; latest only remembers that the operation started last was a read. */
  datatype Reg = Reg(
    info: Info, state: OpState, readQueued: bool, writeQueued: bool,
    memRx: seq<Word>, memTx: seq<Word>, received: seq<bool>, nremaining: nat, nextSend: nat,
    recInprog: seq<Action>, recWrite: seq<Action>, recRead: seq<Action>, latest: bool)
  {
    predicate InProgress() {
      state == Reading || state == Writing
    }

    predicate Valid() {
      ValidInfo(info) && |memRx| == info.size && |memTx| == info.size && |received| == info.size
    }

    /** The command word that asks for one word of this register. */
    function Command(offset: int): int {
      info.base + offset + if state == Reading then READ_BIT else 0
    }

    function Cmd(offset: nat): Word
      requires Valid() && offset < info.size
    {
      Command(offset)
    }
  }

  datatype MsgState = Free | Ready | Sent

  /** DevMsg; attempt is the count behind the 24 bits of it that seqno holds. */
  datatype Msg = Msg(state: MsgState, seqno: Word, attempt: nat, reg: seq<Option<RegRef>>, buf: seq<Word>, due: int) {
    /** A message under construction fills its address slots from the front. */
    predicate Valid(nregs: nat) {
      && |reg| == NREG
      && (forall j | 0 <= j < NREG && reg[j].Some? :: reg[j].value < nregs && 2 * j + 4 <= |buf|)
      && (state != Sent ==> forall j, j' | 0 <= j' < j < NREG && reg[j].Some? :: reg[j'].Some?)
    }
  }

  datatype Conn = Error | Idle | Searching | Inspecting | Running

  datatype St = St(
    regs: seq<Reg>, slots: seq<Msg>, send: seq<RegRef>, records: seq<Action>, current: Conn,
    sendSeq: nat, wantToSend: bool, resetReq: bool, errorReq: bool, peerNamed: bool)

  /** What a step does: it finishes, or an exception leaves the state as it was reached. */
  datatype Res = Go(s: St) | Threw(s: St)

  /** Table shape: 1 to 255 slots, references in range, the bootstrap registers in front. */
  ghost predicate WF(s: St) {
    && 1 <= |s.slots| <= 255
    && BOOTSTRAP <= |s.regs|
    && (forall k | 0 <= k < |s.regs| :: s.regs[k].Valid())
    && (forall k | 0 <= k < |s.regs| :: s.regs[k].info.bootstrap <==> k < BOOTSTRAP)
    && (forall k | 0 <= k < BOOTSTRAP :: s.regs[k].info.readable)
    && (forall i | 0 <= i < |s.slots| :: s.slots[i].Valid(|s.regs|))
    && (forall x | 0 <= x < |s.send| :: s.send[x] < |s.regs|)
  }

  /** The connection stays where it is; a requested reset stays requested, attempts stay counted. */
  predicate SameConn(s: St, s': St) {
    && s'.current == s.current && s'.errorReq == s.errorReq && s'.peerNamed == s.peerNamed
    && (s.resetReq ==> s'.resetReq) && s'.sendSeq >= s.sendSeq
  }

  predicate OnlySlot(s: St, s': St, i: nat) {
    |s.slots| == |s'.slots| && forall x | 0 <= x < |s.slots| && x != i :: s'.slots[x] == s.slots[x]
  }

  function SetReg(s: St, k: RegRef, r: Reg): (s': St)
    requires WF(s) && k < |s.regs| && r.Valid() && r.info == s.regs[k].info
    ensures WF(s')
  {
    s.(regs := s.regs[k := r])
  }

  function SetSlot(s: St, i: nat, m: Msg): (s': St)
    requires WF(s) && i < |s.slots| && m.Valid(|s.regs|)
    ensures WF(s')
  {
    s.(slots := s.slots[i := m])
  }

  function NoRegs(): (n: seq<Option<RegRef>>)
    ensures |n| == NREG && forall j | 0 <= j < NREG :: n[j].None?
  {
    seq(NREG, _ => None)
  }

  // DevMsg::clear (due is left alone)
  function Cleared(m: Msg): Msg {
    m.(state := Free, seqno := 0, reg := NoRegs(), buf := [])
  }

  function FreshReg(f: Info): Reg {
    Reg(f, Invalid, false, false, Zeros(f.size), Zeros(f.size), Flags(f.size), 0, f.size, [], [], [], false)
  }

  function Zeros(n: nat): seq<Word> {
    seq(n, _ => 0)
  }

  function Flags(n: nat): seq<bool> {
    seq(n, _ => false)
  }

  /* ---- DevReg ---- */

  // DevReg::process
  function Process(s: St, k: RegRef, cancel: bool): (s': St)
    requires WF(s) && k < |s.regs|
    ensures SameConn(s, s')
    ensures WF(s')
    ensures s'.slots == s.slots && |s'.regs| == |s.regs|
  {
    var r := s.regs[k];
    if cancel then
      SetReg(s, k, r.(recInprog := [], recWrite := [], recRead := []))
        .(records := s.records + r.recInprog + r.recWrite + r.recRead)
    else
      SetReg(s, k, r.(recInprog := [])).(records := s.records + r.recInprog)
  }

  function OptSeq(a: Option<Action>): seq<Action> {
    if a.Some? then [a.value] else []
  }

  function Started(r: Reg, write: bool, action: Option<Action>): (r': Reg)
    requires r.Valid()
    ensures r'.Valid()
  {
    r.(received := Flags(r.info.size), nremaining := r.info.size, nextSend := 0,
       state := if write then Writing else Reading, recInprog := r.recInprog + OptSeq(action),
       latest := !write)
  }

  /** A request for a register in progress is flagged for later, or joins a read. */
  function Merged(r: Reg, write: bool, action: Option<Action>): (r': Reg)
    requires r.Valid()
    ensures r'.Valid() && r'.info == r.info
  {
    if write then r.(recWrite := r.recWrite + OptSeq(action), writeQueued := true)
    else if r.state == Writing then r.(recRead := r.recRead + OptSeq(action), readQueued := true)
    else r.(recInprog := r.recInprog + OptSeq(action))
  }

  // DevReg::queue
  function Queue(s: St, k: RegRef, write: bool, action: Option<Action>): (o: Res)
    requires WF(s) && k < |s.regs|
    ensures SameConn(s, o.s)
    ensures WF(o.s)
    ensures o.s.slots == s.slots && |o.s.regs| == |s.regs|
  {
    var r := s.regs[k];
    if !r.InProgress() then
      if (if write then !r.info.writable else !r.info.readable) then Threw(s)
      else Go(SetReg(s, k, Started(r, write, action)).(send := s.send + [k]))
    else Go(SetReg(s, k, Merged(r, write, action)))
  }

  /* ---- Device::reset ---- */

  function ResetReg(r: Reg): (r': Reg)
    requires r.Valid()
    ensures r'.Valid()
  {
    r.(memRx := Zeros(r.info.size), memTx := Zeros(r.info.size), state := Invalid, readQueued := false,
       writeQueued := false, recInprog := [], recWrite := [], recRead := [])
  }

  /** The actions waiting on a register, in the order process(true) hands them over. */
  function Waiting(r: Reg): seq<Action> {
    r.recInprog + r.recWrite + r.recRead
  }

  function AllWaiting(regs: seq<Reg>): seq<Action> {
    if regs == [] then [] else AllWaiting(regs[..|regs| - 1]) + Waiting(regs[|regs| - 1])
  }

  function AllCleared(slots: seq<Msg>): (c: seq<Msg>)
    ensures |c| == |slots|
    ensures forall i | 0 <= i < |c| :: c[i] == Cleared(slots[i])
  {
    seq(|slots|, i requires 0 <= i < |slots| => Cleared(slots[i]))
  }

  function Reset(s: St, error: bool): (s': St)
    requires WF(s)
    ensures WF(s')
  {
    s.(regs := [ResetReg(s.regs[REG_ID]), ResetReg(s.regs[REG_ROM2]), ResetReg(s.regs[REG_ROM16])],
       slots := AllCleared(s.slots),
       send := [], records := s.records + AllWaiting(s.regs),
       current := if error then Error else if s.peerNamed then Searching else Idle,
       wantToSend := false, resetReq := false, errorReq := false)
  }

  // the catch block of Device::run
  function Caught(s: St): (s': St)
    requires WF(s)
    ensures WF(s')
  {
    Reset(s, false).(current := Error)
  }

  /* ---- Device::handle_send ---- */

  /** std::vector::resize */
  function Resized(b: seq<Word>, n: nat): (b': seq<Word>)
    ensures |b'| == n
  {
    if n <= |b| then b[..n] else b + Zeros(n - |b|)
  }

  predicate CanLoad(s: St, i: nat, j: nat)
    requires WF(s)
  {
    && i < |s.slots| && j < NREG && s.slots[i].state != Sent && s.slots[i].reg[j].None?
    && (j > 0 ==> s.slots[i].reg[j - 1].Some?)
  }

  function Loaded(m: Msg, j: nat, k: RegRef, w: Word, v: Word): Msg
    requires j < |m.reg|
  {
    m.(reg := m.reg[j := Some(k)], buf := Resized(m.buf, 2 * j + 2) + [w, v])
  }

  /** Moves the next word of the register at the front of the queue into address slot j. */
  function LoadWord(s: St, i: nat, j: nat): (s': St)
    requires WF(s) && CanLoad(s, i, j) && s.send != []
    requires s.regs[s.send[0]].nextSend < s.regs[s.send[0]].info.size
    ensures SameConn(s, s')
    ensures WF(s') && |s'.slots| == |s.slots| && OnlySlot(s, s', i)
    ensures s'.slots[i].state == s.slots[i].state && s'.slots[i].reg[j].Some?
  {
    var k := s.send[0];
    var r := s.regs[k];
    var m := s.slots[i];
    var o := r.nextSend;
    var val := if r.state == Reading then 0 else r.memTx[o];
    SetSlot(SetReg(s, k, r.(nextSend := o + 1)), i, Loaded(m, j, k, r.Cmd(o), val))
      .(send := if o + 1 >= r.info.size then s.send[1..] else s.send)
  }

  // Device::active
  predicate Active(s: St) {
    s.current == Inspecting || s.current == Running
  }

  predicate FrontHasWord(s: St)
    requires WF(s)
  {
    s.send != [] && s.regs[s.send[0]].nextSend < s.regs[s.send[0]].info.size
  }

  /** Fills the free address slots of message i from j on; stops when the queue is empty. */
  function LoadSlot(s: St, i: nat, j: nat): (s': St)
    requires WF(s) && i < |s.slots| && j <= NREG && s.slots[i].state != Sent
    requires 0 < j ==> s.slots[i].reg[j - 1].Some?
    ensures SameConn(s, s')
    ensures WF(s') && |s'.slots| == |s.slots| && OnlySlot(s, s', i)
    ensures s'.slots[i].state == s.slots[i].state
    decreases NREG - j
  {
    if j == NREG || !FrontHasWord(s) then s
    else if s.slots[i].reg[j].Some? then LoadSlot(s, i, j + 1)
    else LoadSlot(LoadWord(s, i, j), i, j + 1)
  }

  function MarkReady(s: St, i: nat): (s': St)
    requires WF(s) && i < |s.slots| && s.slots[i].state != Sent
    ensures SameConn(s, s')
    ensures WF(s') && OnlySlot(s, s', i)
  {
    if s.slots[i].reg[0].Some? then SetSlot(s, i, s.slots[i].(state := Ready)) else s
  }

  /** The first pass of handle_send, from message i on. */
  function LoadPass(s: St, i: nat): (s': St)
    requires WF(s) && i <= |s.slots|
    ensures SameConn(s, s')
    ensures WF(s') && |s'.slots| == |s.slots|
    decreases |s.slots| - i
  {
    if i == |s.slots| || !FrontHasWord(s) then s
    else if s.slots[i].state == Sent then LoadPass(s, i + 1)
    else
      LoadPass(MarkReady(LoadSlot(s, i, 0), i), i + 1)
  }

  /* The outcome of a non-blocking sendto(). */
  datatype Outcome = Delivered | WouldBlock | Unreachable | SocketFailure

  /** A datagram handed to the network, tagged with the count of send attempts before it. */
  datatype Tx = Tx(slot: nat, attempt: nat, words: seq<Word>)

  datatype SendRes = SendRes(res: Res, out: seq<Tx>)

  /** Pads a short message with reads of address zero. */
  function Padded(b: seq<Word>): (b': seq<Word>)
    ensures |b'| >= 8 && b <= b'
    decreases 8 - |b|
  {
    if |b| < 8 then Padded(b + [READ_BIT, 0]) else b
  }

  /** Message slot and the low 24 bits of the send counter, as the header's second word. */
  function SeqWord(slot: nat, attempt: nat): Word
    requires slot < 255
  {
    slot * ADDR_LIMIT + attempt % ADDR_LIMIT
  }

  function Framed(m: Msg, i: nat, attempt: nat): (m': Msg)
    requires i < 255
  {
    var q := SeqWord(i, attempt);
    m.(seqno := q, attempt := attempt, buf := Padded(m.buf)[0 := MAGIC][1 := q])
  }

  /** One attempt to send message i: it takes the next sequence number whatever comes of it. */
  function Attempt(s: St, i: nat, st: MsgState, due: int): (s': St)
    requires WF(s) && i < |s.slots| && s.slots[i].state == Ready && st != Free
    ensures SameConn(s, s') && s'.regs == s.regs && OnlySlot(s, s', i) && s'.slots[i].state == st
    ensures WF(s') && |s'.slots| == |s.slots|
  {
    SetSlot(s, i, Framed(s.slots[i], i, s.sendSeq).(state := st, due := due)).(sendSeq := s.sendSeq + 1)
  }

  /** The second pass of handle_send, from message i on. */
  function SendPass(s: St, i: nat, oc: seq<Outcome>, due: int): (o: SendRes)
    requires WF(s) && i <= |s.slots| == |oc|
    ensures SameConn(s, o.res.s) && |o.res.s.slots| == |s.slots|
    ensures WF(o.res.s)
    decreases |s.slots| - i
  {
    if i == |s.slots| then SendRes(Go(s), [])
    else if s.slots[i].state != Ready then SendPass(s, i + 1, oc, due)
    else
      match oc[i]
      case WouldBlock => SendRes(Go(Attempt(s, i, Ready, s.slots[i].due).(wantToSend := true)), [])
      case SocketFailure => SendRes(Threw(Attempt(s, i, Ready, s.slots[i].due)), [])
      case Unreachable => SendPass(Attempt(s, i, Sent, due), i + 1, oc, due)
      case Delivered =>
        var s1 := Attempt(s, i, Sent, due);
        var rest := SendPass(s1, i + 1, oc, due);
        SendRes(rest.res, [Tx(i, s.sendSeq, s1.slots[i].buf)] + rest.out)
  }

  function HandleSend(s: St, oc: seq<Outcome>, due: int): (o: SendRes)
    requires WF(s) && |s.slots| == |oc|
    ensures SameConn(s, o.res.s) && |o.res.s.slots| == |s.slots|
    ensures WF(o.res.s)
  {
    SendPass(LoadPass(s, 0), 0, oc, due)
  }

  /* ---- Device::do_timeout, handle_timeout ---- */

  /** The first address slot from j on that refers to a register. */
  function FirstUsed(reg: seq<Option<RegRef>>, j: nat): (x: nat)
    requires j <= |reg|
    ensures j <= x <= |reg| && (x < |reg| ==> reg[x].Some?)
    ensures forall y | j <= y < x :: reg[y].None?
    decreases |reg| - j
  {
    if j == |reg| || reg[j].Some? then j else FirstUsed(reg, j + 1)
  }

  /** Drops every register reference of every message. */
  function Orphaned(slots: seq<Msg>): (c: seq<Msg>)
    ensures |c| == |slots|
    ensures forall i | 0 <= i < |c| :: c[i] == slots[i].(reg := NoRegs())
  {
    seq(|slots|, i requires 0 <= i < |slots| => slots[i].(reg := NoRegs()))
  }

  function ClearSlot(s: St, i: nat): (s': St)
    requires WF(s) && i < |s.slots|
    ensures SameConn(s, s')
    ensures WF(s')
  {
    SetSlot(s, i, Cleared(s.slots[i]))
  }

  function Orphan(s: St): (s': St)
    requires WF(s)
    ensures WF(s') && s' == s.(slots := Orphaned(s.slots))
  {
    s.(slots := Orphaned(s.slots))
  }

  function Unqueued(s: St, k: RegRef): (s': St)
    requires WF(s)
    ensures WF(s') && s'.regs == s.regs && s'.slots == s.slots && SameConn(s, s')
  {
    if s.send != [] && s.send[0] == k then s.(send := s.send[1..]) else s
  }

  /** Register k is given up: no message refers to any register any more. */
  function Cancel(s: St, k: RegRef): (s': St)
    requires WF(s) && k < |s.regs|
    ensures SameConn(s, s')
    ensures WF(s') && s'.slots == Orphaned(s.slots) && |s'.regs| == |s.regs|
  {
    Orphan(Process(SetReg(Unqueued(s, k), k, s.regs[k].(state := Invalid)), k, true))
  }

  /** The first register of message i is cancelled; the references to all others are forgotten. */
  function DoTimeout(s: St, i: nat): (s': St)
    requires WF(s) && i < |s.slots|
    ensures SameConn(s, s')
    ensures WF(s')
    ensures |s'.slots| == |s.slots| && s'.slots[i] == Cleared(s.slots[i]) && |s'.regs| == |s.regs|
  {
    assert s.slots[i].Valid(|s.regs|);
    var s1 := s.(resetReq := true);
    var x := FirstUsed(s.slots[i].reg, 0);
    ClearSlot(if x < NREG then Cancel(s1, s.slots[i].reg[x].value) else s1, i)
  }

  function HandleTimeout(s: St, i: nat, now: int): (s': St)
    requires WF(s) && i <= |s.slots|
    ensures SameConn(s, s')
    ensures WF(s') && |s'.slots| == |s.slots|
    decreases |s.slots| - i
  {
    if i == |s.slots| then s
    else if s.slots[i].state == Sent && s.slots[i].due <= now then HandleTimeout(DoTimeout(s, i), i + 1, now)
    else HandleTimeout(s, i + 1, now)
  }

  /* ---- Device::handle_process ---- */

  /** A command word without the four bits reserved for status. */
  function Masked(w: Word): Word {
    w / READ_BIT * READ_BIT + w % ADDR_LIMIT
  }

  predicate IsRead(w: Word) {
    w / READ_BIT % 2 == 1
  }

  /** All words of register k have arrived: it goes idle and hands over its actions. */
  function Finish(s: St, k: RegRef): (s': St)
    requires WF(s) && k < |s.regs|
    ensures s' == SetReg(s, k, s.regs[k].(state := InSync, recInprog := [])).(records := s.records + s.regs[k].recInprog)
    ensures WF(s')
  {
    Process(SetReg(s, k, s.regs[k].(state := InSync)), k, false)
  }

  /** Then whatever was queued on it meanwhile starts, a write before a read. */
  function Complete(s: St, k: RegRef): (o: Res)
    requires WF(s) && k < |s.regs|
    ensures SameConn(s, o.s)
    ensures WF(o.s)
    ensures o.s.slots == s.slots && |o.s.regs| == |s.regs|
  {
    var s1 := Finish(s, k);
    var r := s1.regs[k];
    if r.writeQueued then
      Queue(SetReg(s1, k, r.(writeQueued := false, recInprog := r.recInprog + r.recWrite, recWrite := [])), k, true, None)
    else if r.readQueued then
      Queue(SetReg(s1, k, r.(readQueued := false, recInprog := r.recInprog + r.recRead, recRead := [])), k, false, None)
    else Go(s1)
  }

  /** The register after the answer for one word. */
  function Filled(r: Reg, offset: nat, read: bool, data: Word): (r': Reg)
    requires r.Valid() && offset < r.info.size
    ensures r'.Valid() && r'.info == r.info
  {
    var r1 := if read then r.(memRx := r.memRx[offset := data]) else r;
    if r.received[offset] then r1
    else r1.(received := r.received[offset := true], nremaining := Decremented(r.nremaining))
  }

  /** Stores the answer for one word; completes the register with its last one. */
  function Accept(s: St, k: RegRef, offset: nat, read: bool, data: Word): (o: Res)
    requires WF(s) && k < |s.regs| && offset < s.regs[k].info.size
    ensures SameConn(s, o.s)
    ensures WF(o.s)
    ensures o.s.slots == s.slots && |o.s.regs| == |s.regs|
  {
    var r := Filled(s.regs[k], offset, read, data);
    var s1 := SetReg(s, k, r);
    if r.nremaining == 0 then Complete(s1, k) else Go(s1)
  }

  // size_t arithmetic
  function Decremented(n: nat): nat {
    if n == 0 then 0xffff_ffff_ffff_ffff else n - 1
  }

  /** A message is processed while Sent; do_timeout may have emptied it in between. */
  predicate BeingProcessed(m: Msg) {
    m.state == Sent || m.reg == NoRegs()
  }

  function WordCleared(m: Msg, j: nat): Msg
    requires j < |m.reg|
  {
    m.(reg := m.reg[j := None])
  }

  function ClearWord(s: St, i: nat, j: nat): (s': St)
    requires WF(s) && i < |s.slots| && j < NREG && s.slots[i].state == Sent
    ensures WF(s') && s' == s.(slots := s.slots[i := WordCleared(s.slots[i], j)])
  {
    SetSlot(s, i, WordCleared(s.slots[i], j))
  }

  /** The word at slot j answers register k: store it and drop the reference. */
  function AcceptAt(s: St, i: nat, j: nat, cmd: Word, data: Word): (o: Res)
    requires WF(s) && i < |s.slots| && j < NREG && s.slots[i].state == Sent && s.slots[i].reg[j].Some?
    ensures SameConn(s, o.s)
    ensures WF(o.s) && |o.s.slots| == |s.slots| && o.s.slots[i].state == Sent
  {
    var m := s.slots[i];
    assert m.Valid(|s.regs|);
    var k := m.reg[j].value;
    var base := s.regs[k].info.base;
    if cmd % ADDR_LIMIT < base || cmd % ADDR_LIMIT - base >= s.regs[k].info.size then Threw(s)
    else
      match Accept(ClearWord(s, i, j), k, cmd % ADDR_LIMIT - base, IsRead(cmd), data)
      case Threw(s1) => Threw(s1.(slots := s.slots))
      case Go(s1) => Go(s1)
  }

  /** Address slot j of the reply w to message i. */
  function ProcessWord(s: St, i: nat, j: nat, w: seq<Word>): (o: Res)
    requires WF(s) && i < |s.slots| && j < NREG && BeingProcessed(s.slots[i])
    ensures SameConn(s, o.s)
    ensures WF(o.s) && |o.s.slots| == |s.slots| && BeingProcessed(o.s.slots[i])
  {
    var m := s.slots[i];
    assert m.Valid(|s.regs|);
    if m.reg[j].None? || !s.regs[m.reg[j].value].InProgress() then Go(s)
    else if 2 * j + 3 >= |w| || Masked(w[2 * j + 2]) != m.buf[2 * j + 2] then Go(DoTimeout(s, i))
    else AcceptAt(s, i, j, w[2 * j + 2], w[2 * j + 3])
  }

  /** The loop of handle_process over the address slots of message i, from j on. */
  function ProcessWords(s: St, i: nat, j: nat, w: seq<Word>): (o: Res)
    requires WF(s) && i < |s.slots| && j <= NREG && BeingProcessed(s.slots[i])
    ensures SameConn(s, o.s)
    ensures WF(o.s) && |o.s.slots| == |s.slots|
    decreases NREG - j
  {
    if j == NREG then Go(s)
    else
      var o := ProcessWord(s, i, j, w);
      if o.Threw? then o else ProcessWords(o.s, i, j + 1, w)
  }

  /** Does the packet answer message i of the driver? */
  predicate Matches(s: St, w: seq<Word>, i: nat) {
    && |w| >= 8 && w[0] == MAGIC && i == w[1] / ADDR_LIMIT
    && i < |s.slots| && s.slots[i].state == Sent && s.slots[i].seqno == w[1]
  }

  function HandleProcess(s: St, w: seq<Word>): (o: Res)
    requires WF(s)
    ensures SameConn(s, o.s)
    ensures WF(o.s) && |o.s.slots| == |s.slots|
  {
    if |w| < 8 then Go(s)
    else if !Matches(s, w, w[1] / ADDR_LIMIT) then Go(s)
    else
      var o := ProcessWords(s, w[1] / ADDR_LIMIT, 0, w);
      if o.Threw? then o else Go(ClearSlot(o.s, w[1] / ADDR_LIMIT))
  }

  function ProcessAll(s: St, packets: seq<seq<Word>>): (o: Res)
    requires WF(s)
    ensures SameConn(s, o.s)
    ensures WF(o.s) && |o.s.slots| == |s.slots|
    decreases |packets|
  {
    if packets == [] then Go(s)
    else
      var o := HandleProcess(s, packets[0]);
      if o.Threw? then o else ProcessAll(o.s, packets[1..])
  }

  /* ---- Device::handle_inspect, handle_state, run ---- */

  /** What the ROM holds: nothing usable, or the register map of the device. */
  datatype RomMap = NoJson | Registers(infos: seq<Info>)

  predicate ValidMap(m: RomMap) {
    m.Registers? ==> forall x | 0 <= x < |m.infos| :: ValidInfo(m.infos[x]) && !m.infos[x].bootstrap
  }

  predicate HasName(regs: seq<Reg>, name: string) {
    exists k | 0 <= k < |regs| :: regs[k].info.name == name
  }

  /** Adds the registers of the map; a name already taken is left alone. */
  function AddRegs(regs: seq<Reg>, infos: seq<Info>): (r: seq<Reg>)
    requires ValidMap(Registers(infos))
    ensures regs <= r
    ensures forall k | |regs| <= k < |r| :: r[k].Valid() && !r[k].info.bootstrap && r[k] == FreshReg(r[k].info)
    decreases |infos|
  {
    if infos == [] then regs
    else
      assert ValidInfo(infos[0]) && !infos[0].bootstrap;
      assert ValidMap(Registers(infos[1..]));
      AddRegs(if HasName(regs, infos[0].name) then regs else regs + [FreshReg(infos[0])], infos[1..])
  }

  datatype StateRes = StateRes(res: Res, connecting: bool)

  /** handle_state; connecting says it stopped inside handle_inspect with the lock released. */
  function HandleState(s: St, rom: RomMap): (o: StateRes)
    requires WF(s) && ValidMap(rom)
    ensures WF(o.res.s)
  {
    if s.resetReq || s.errorReq then StateRes(Go(Reset(s, s.errorReq)), false)
    else
      match s.current
      case Error => StateRes(Go(s), false)
      case Idle => StateRes(Go(if s.peerNamed then s.(current := Searching) else s), false)
      case Searching =>
        if s.regs[REG_ID].state == InSync then
          var o1 := Queue(s, REG_ROM2, false, None);
          if o1.Threw? then StateRes(o1, false)
          else
            var o2 := Queue(o1.s, REG_ROM16, false, None);
            StateRes(if o2.Threw? then o2 else Go(o2.s.(current := Inspecting)), false)
        else if !s.regs[REG_ID].InProgress() then StateRes(Queue(s, REG_ID, false, None), false)
        else StateRes(Go(s), false)
      case Inspecting =>
        if s.regs[REG_ROM2].state == InSync && s.regs[REG_ROM16].state == InSync then
          if rom.NoJson? then StateRes(Threw(s), false)
          else StateRes(Go(s.(regs := AddRegs(s.regs, rom.infos))), true)
        else StateRes(Go(s), false)
      case Running => StateRes(Go(s), false)
  }

  /** Device::run from the return of poll() to the next release of the lock, handle_send excluded. */
  function Receive(s: St, packets: seq<seq<Word>>, now: int, rom: RomMap): (o: StateRes)
    requires WF(s) && ValidMap(rom)
    ensures WF(o.res.s)
  {
    var p := ProcessAll(s, packets);
    if p.Threw? then StateRes(p, false) else HandleState(HandleTimeout(p.s, 0, now), rom)
  }
}
